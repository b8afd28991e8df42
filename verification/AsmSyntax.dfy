/** Labels, instructions and assertions (src/asm_syntax.hpp and src/crab/label.hpp). */
module AsmSyntax {

  datatype Option<+T> = None | Some(value: T)

  const INT_MAX: int := 0x7fff_ffff
  const STACK_FRAME_DELIMITER: char := '/'
  const MAX_CALL_STACK_FRAMES: int := 8

  /** A node of the control-flow graph: an instruction index, a jump between two
      indices, or a special node, possibly inside an inlined stack frame. */
  datatype Label = Label(stackFramePrefix: string, from: int, to: int, special: string) {

    static function MakeJump(src: Label, target: Label): Label {
      Label(target.stackFramePrefix, src.from, target.from, "")
    }

    static function MakeIncrementCounter(node: Label): Label {
      Label(node.stackFramePrefix, node.from, node.to, "counter")
    }

    predicate IsJump() {
      to != -1
    }

    function CallStackDepth(): int {
      if stackFramePrefix == "" then 1 else 2 + CountDelimiters(stackFramePrefix)
    }
  }

  function CountDelimiters(s: string): nat {
    if s == "" then 0
    else (if s[0] == STACK_FRAME_DELIMITER then 1 else 0) + CountDelimiters(s[1..])
  }

  /** The label of the instruction at a given index. */
  function InstructionLabel(index: int): Label {
    Label("", index, -1, "")
  }

  const ENTRY: Label := InstructionLabel(-1)
  const EXIT: Label := InstructionLabel(INT_MAX)

  const TWO_32: int := 0x1_0000_0000
  const TWO_64: int := 0x1_0000_0000_0000_0000

  type Uint8 = v: int | 0 <= v < 0x100
  type Uint64 = v: int | 0 <= v < 0x1_0000_0000_0000_0000
  type Int32 = v: int | -0x8000_0000 <= v < 0x8000_0000

  datatype Value = Imm(imm: Uint64) | Reg(reg: Uint8)

  datatype BinOp =
    MOV | ADD | SUB | MUL | UDIV | UMOD | OR | AND | LSH | RSH | ARSH | XOR
    | SDIV | SMOD | MOVSX8 | MOVSX16 | MOVSX32

  datatype UnOp = BE16 | BE32 | BE64 | LE16 | LE32 | LE64 | SWAP16 | SWAP32 | SWAP64 | NEG

  datatype CondOp = EQ | NE | SET | NSET | LT | LE | GT | GE | SLT | SLE | SGT | SGE

  datatype AtomicOp = AtomicAdd | AtomicOr | AtomicAnd | AtomicXor | AtomicXchg | AtomicCmpXchg

  /** The values of the enumerators of Atomic::Op. */
  function AtomicCode(op: AtomicOp): Int32 {
    match op
    case AtomicAdd => 0x00
    case AtomicOr => 0x40
    case AtomicAnd => 0x50
    case AtomicXor => 0xa0
    case AtomicXchg => 0xe0
    case AtomicCmpXchg => 0xf0
  }

  datatype Condition = Condition(op: CondOp, left: Uint8, right: Value, is64: bool)

  datatype Deref = Deref(width: Int32, basereg: Uint8, offset: Int32)

  datatype Instruction =
    | Undefined(opcode: int)
    | Bin(binOp: BinOp, dst: Uint8, v: Value, is64: bool, lddw: bool)
    | Un(unOp: UnOp, dst: Uint8, is64: bool)
    | LoadMapFd(dst: Uint8, mapfd: Int32)
    | Call(func: Int32)
    | CallLocal(target: Label, framePrefix: string)
    | Callx(funcReg: Uint8)
    | Exit(framePrefix: string)
    | Jmp(cond: Option<Condition>, target: Label)
    | Mem(access: Deref, value: Value, isLoad: bool)
    | Packet(width: Int32, offset: Int32, regoffset: Option<Uint8>)
    | Atomic(atomicOp: AtomicOp, fetch: bool, access: Deref, valreg: Uint8)
    | Assume(assumed: Condition, isImplicit: bool)
    | IncrementLoopCounter(name: Label)

  /** Only the loop bound matters here; every other assertion is identified by a number. */
  datatype Assertion = BoundedLoopCount(name: Label) | OtherAssertion(id: nat)

  /** BoundedLoopCount::limit */
  const LOOP_LIMIT: nat := 100000

  datatype GuardedInstruction = GuardedInstruction(cmd: Instruction, preconditions: seq<Assertion>)
}
