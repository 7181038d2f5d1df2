/** The code that stands for a node of a branch chase (multichase/br_asm.c, x86-64). Encodings as in
    the Intel 64 and IA-32 Software Developer's Manual, volume 2: MOV r64, imm64 (REX.W B8+rd io),
    JMP r/m64 (FF /4) and RET (C3). */
module Encoding {
  import opened Memory

  const MOV_LEN: nat := 10
  const BR_CODE_LEN: nat := 12

  /** Load the next address into RAX, then return or jump to it. */
  function NodeCode(next: nat, last: bool): (code: seq<byte>)
    ensures |code| == if last then MOV_LEN + 1 else BR_CODE_LEN
  {
    [0x48, 0xb8] + ToBytes(next, PTR_SIZE) + if last then [0xc3] else [0xff, 0xe0]
  }
}
