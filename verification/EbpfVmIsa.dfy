/** The instruction word of the virtual machine (src/ebpf_vm_isa.hpp), as in section 3 of
    RFC 9669. */
module EbpfVmIsa {
  import opened AsmSyntax

  type Nibble = v: int | 0 <= v < 16
  type Int16 = v: int | -0x8000 <= v < 0x8000

  /** ebpf_inst */
  datatype Inst = Inst(opcode: bv8, dst: Nibble, src: Nibble, offset: Int16, imm: Int32)

  const INT32_MIN := -0x8000_0000
  const INT32_MAX := 0x7FFF_FFFF

  const CLS_LD: bv8 := 0x00
  const CLS_LDX: bv8 := 0x01
  const CLS_ST: bv8 := 0x02
  const CLS_STX: bv8 := 0x03
  const CLS_ALU: bv8 := 0x04
  const CLS_JMP: bv8 := 0x05
  const CLS_JMP32: bv8 := 0x06
  const CLS_ALU64: bv8 := 0x07

  const SRC_REG: bv8 := 0x08
  const END_BE: bv8 := 0x08

  const MODE_ABS: bv8 := 0x20
  const MODE_IND: bv8 := 0x40
  const MODE_MEM: bv8 := 0x60
  const MODE_ATOMIC: bv8 := 0xc0

  const OP_LDDW_IMM: bv8 := 0x18
  const OP_JA16: bv8 := 0x05
  const OP_JA32: bv8 := 0x06
  const OP_CALL: bv8 := 0x85
  const OP_CALLX: bv8 := 0x8d
  const OP_EXIT: bv8 := 0x95

  const CALL_STATIC_HELPER: Nibble := 0
  const CALL_LOCAL: Nibble := 1
  const CALL_BTF_HELPER: Nibble := 2

  const R10: Nibble := 10

  function Class(opcode: bv8): bv8 {
    opcode & 0x07
  }

  /** The operation of an arithmetic instruction. */
  function AluCode(opcode: bv8): bv8 {
    opcode & 0xf0
  }

  /** The operation of a jump. */
  function JumpCode(opcode: bv8): bv8 {
    (opcode >> 4) & 0x0f
  }

  function Mode(opcode: bv8): bv8 {
    opcode & 0xe0
  }

  function Size(opcode: bv8): bv8 {
    opcode & 0x18
  }

  predicate HasSrcReg(opcode: bv8) {
    opcode & SRC_REG != 0
  }

  /** opcode_to_width */
  function OpcodeToWidth(opcode: bv8): Int32 {
    if Size(opcode) == 0x10 then 1 else if Size(opcode) == 0x08 then 2 else if Size(opcode) == 0x00 then 4 else 8
  }

  /** width_to_opcode; other widths are an error. */
  function WidthToOpcode(width: int): Option<bv8> {
    match width
    case 1 => Some(0x10)
    case 2 => Some(0x08)
    case 4 => Some(0x00)
    case 8 => Some(0x18)
    case _ => None
  }

  // ----- immediates -----

  /** An immediate as an unsigned number of 32 bits. */
  function ZeroExtend(imm: Int32): Uint64 {
    if imm < 0 then imm + TWO_32 else imm
  }

  /** An immediate as an unsigned number of 64 bits. */
  function SignExtend(imm: Int32): Uint64 {
    if imm < 0 then imm + TWO_64 else imm
  }

  /** The signed number of 32 bits with the same pattern. */
  function ToInt32(v: int): Int32
    requires 0 <= v < TWO_32
  {
    if v >= 0x8000_0000 then v - TWO_32 else v
  }

  /** gsl::narrow<int32_t> of an unsigned number: an error if it does not fit. */
  function NarrowToInt32(v: Uint64): Option<Int32> {
    if v <= INT32_MAX then Some(v) else None
  }

  /** merge: the upper half is the second word's immediate, shifted out of its sign. */
  function Merge(imm: Int32, nextImm: Int32): Uint64 {
    ZeroExtend(nextImm) * TWO_32 + ZeroExtend(imm)
  }

  function Split(v: Uint64): (Int32, Int32) {
    (ToInt32(v % TWO_32), ToInt32(v / TWO_32))
  }

  lemma MergeOfSplit(v: Uint64)
    ensures Merge(Split(v).0, Split(v).1) == v
  {
    assert v == v / TWO_32 * TWO_32 + v % TWO_32;
  }

  lemma SplitOfMerge(imm: Int32, nextImm: Int32)
    ensures Split(Merge(imm, nextImm)) == (imm, nextImm)
  {
    var v, lo, hi := Merge(imm, nextImm), ZeroExtend(imm), ZeroExtend(nextImm);
    assert v / TWO_32 == hi && v % TWO_32 == lo;
  }
}
