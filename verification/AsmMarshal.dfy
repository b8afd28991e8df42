/** Encoding instructions as words (src/asm_marshal.cpp). Where the source throws or fails an
    assertion, the result is None. */
module AsmMarshal {
  import opened AsmSyntax
  import opened EbpfVmIsa
  import opened InstructionSeqToCfg

  /** op(Condition::Op) */
  function CondCode(op: CondOp): Option<bv8> {
    match op
    case EQ => Some(0x1)
    case GT => Some(0x2)
    case GE => Some(0x3)
    case SET => Some(0x4)
    case NSET => None
    case NE => Some(0x5)
    case SGT => Some(0x6)
    case SGE => Some(0x7)
    case LT => Some(0xa)
    case LE => Some(0xb)
    case SLT => Some(0xc)
    case SLE => Some(0xd)
  }

  /** op(Bin::Op) */
  function BinCode(op: BinOp): bv8 {
    match op
    case ADD => 0x0
    case SUB => 0x1
    case MUL => 0x2
    case SDIV => 0x3
    case UDIV => 0x3
    case OR => 0x4
    case AND => 0x5
    case LSH => 0x6
    case RSH => 0x7
    case SMOD => 0x9
    case UMOD => 0x9
    case XOR => 0xa
    case MOV => 0xb
    case MOVSX8 => 0xb
    case MOVSX16 => 0xb
    case MOVSX32 => 0xb
    case ARSH => 0xc
  }

  /** offset(Bin::Op) */
  function BinOffset(op: BinOp): Int16 {
    match op
    case SDIV => 1
    case SMOD => 1
    case MOVSX8 => 8
    case MOVSX16 => 16
    case MOVSX32 => 32
    case _ => 0
  }

  /** imm_endian */
  function ImmEndian(op: UnOp): Int32
    requires op != NEG
  {
    match op
    case BE16 => 16
    case LE16 => 16
    case SWAP16 => 16
    case BE32 => 32
    case LE32 => 32
    case SWAP32 => 32
    case BE64 => 64
    case LE64 => 64
    case SWAP64 => 64
  }

  /** A register number in a field of four bits. */
  function Field(r: Uint8): Nibble {
    r % 16
  }

  predicate Fits16(offset: int) {
    -0x8000 <= offset < 0x8000
  }

  predicate Fits32(offset: int) {
    INT32_MIN <= offset <= INT32_MAX
  }

  /** label_to_offset16: zero if it does not fit. */
  function LabelToOffset16(pc: nat, target: Label): Int16 {
    var offset := target.from - pc - 1;
    if Fits16(offset) then offset else 0
  }

  /** label_to_offset32: zero if 16 bits are enough. */
  function LabelToOffset32(pc: nat, target: Label): Option<Int32> {
    var offset := target.from - pc - 1;
    if Fits16(offset) then Some(0) else if Fits32(offset) then Some(offset) else None
  }

  function EncodeLddw(dst: Uint8, isFd: bool, imm: Int32, nextImm: Int32): seq<Inst> {
    [Inst(CLS_LD | 0x18, Field(dst), if isFd then 1 else 0, 0, imm), Inst(0, 0, 0, 0, nextImm)]
  }

  function EncodeBin(op: BinOp, dst: Uint8, v: Value, is64: bool): Option<Inst> {
    var opcode := (if is64 then CLS_ALU64 else CLS_ALU) | (BinCode(op) << 4);
    match v
    case Reg(r) => Some(Inst(opcode | SRC_REG, Field(dst), Field(r), BinOffset(op), 0))
    case Imm(i) =>
      var imm := NarrowToInt32(i);
      if imm.None? then None else Some(Inst(opcode, Field(dst), 0, BinOffset(op), imm.value))
  }

  function EncodeUn(op: UnOp, dst: Uint8, is64: bool): Inst {
    match op
    case NEG => Inst((if is64 then CLS_ALU64 else CLS_ALU) | 0x80, Field(dst), 0, 0, 0)
    case SWAP16 => Inst(CLS_ALU64 | 0xd0, Field(dst), 0, 0, 16)
    case SWAP32 => Inst(CLS_ALU64 | 0xd0, Field(dst), 0, 0, 32)
    case SWAP64 => Inst(CLS_ALU64 | 0xd0, Field(dst), 0, 0, 64)
    case _ =>
      var be := op.BE16? || op.BE32? || op.BE64?;
      Inst(CLS_ALU | (if be then END_BE else 0) | 0xd0, Field(dst), 0, 0, ImmEndian(op))
  }

  function EncodeJmp(cond: Option<Condition>, target: Label, pc: nat): Option<Inst> {
    match cond
    case None =>
      var imm := LabelToOffset32(pc, target);
      if imm.None? then None
      else if imm.value != 0 then Some(Inst(OP_JA32, 0, 0, 0, imm.value))
      else Some(Inst(OP_JA16, 0, 0, LabelToOffset16(pc, target), 0))
    case Some(c) =>
      var code := CondCode(c.op);
      if code.None? then None
      else
        var opcode := CLS_JMP | (code.value << 4);
        match c.right
        case Reg(r) => Some(Inst(opcode | SRC_REG, Field(c.left), Field(r), LabelToOffset16(pc, target), 0))
        case Imm(i) =>
          var imm := NarrowToInt32(i);
          if imm.None? then None
          else Some(Inst(opcode, Field(c.left), 0, LabelToOffset16(pc, target), imm.value))
  }

  function EncodeMem(access: Deref, value: Value, isLoad: bool): Option<Inst> {
    var size := WidthToOpcode(access.width);
    if size.None? || !Fits16(access.offset) then None
    else
      var opcode := MODE_MEM | size.value;
      if isLoad then
        if value.Imm? then None
        else Some(Inst(opcode | CLS_LD | 0x1, Field(value.reg), Field(access.basereg), access.offset, 0))
      else if value.Reg? then
        Some(Inst(opcode | CLS_ST | 0x1, Field(access.basereg), Field(value.reg), access.offset, 0))
      else
        var imm := NarrowToInt32(value.imm);
        if imm.None? then None
        else Some(Inst(opcode | CLS_ST, Field(access.basereg), 0, access.offset, imm.value))
  }

  function EncodePacket(width: Int32, offset: Int32, regoffset: Option<Uint8>): Option<Inst> {
    var size := WidthToOpcode(width);
    if size.None? then None
    else if regoffset.Some? then Some(Inst(CLS_LD | size.value | MODE_IND, 0, Field(regoffset.value), 0, offset))
    else Some(Inst(CLS_LD | size.value | MODE_ABS, 0, 0, 0, offset))
  }

  function EncodeAtomic(op: AtomicOp, fetch: bool, access: Deref, valreg: Uint8): Option<Inst> {
    var size := WidthToOpcode(access.width);
    if size.None? || !Fits16(access.offset) then None
    else Some(Inst(CLS_STX | MODE_ATOMIC | size.value, Field(access.basereg), Field(valreg), access.offset,
                   AtomicCode(op) + if fetch then 1 else 0))
  }

  function Single(inst: Option<Inst>): Option<seq<Inst>> {
    if inst.None? then None else Some([inst.value])
  }

  /** MarshalVisitor: the words of one instruction at a pc. */
  function Encode(ins: Instruction, pc: nat): Option<seq<Inst>> {
    match ins
    case Undefined(_) => None
    case LoadMapFd(dst, mapfd) => Some(EncodeLddw(dst, true, mapfd, 0))
    case Bin(op, dst, v, is64, lddw) =>
      if lddw then if v.Imm? then Some(EncodeLddw(dst, false, Split(v.imm).0, Split(v.imm).1)) else None
      else Single(EncodeBin(op, dst, v, is64))
    case Un(op, dst, is64) => Some([EncodeUn(op, dst, is64)])
    case Call(func) => Some([Inst(OP_CALL, 0, CALL_STATIC_HELPER, 0, func)])
    case CallLocal(target, _) =>
      var imm := LabelToOffset32(pc, target);
      if imm.None? then None else Some([Inst(OP_CALL, 0, CALL_LOCAL, 0, imm.value)])
    case Callx(r) => Some([Inst(OP_CALLX, Field(r), CALL_STATIC_HELPER, 0, 0)])
    case Exit(_) => Some([Inst(OP_EXIT, 0, 0, 0, 0)])
    case Jmp(cond, target) => Single(EncodeJmp(cond, target, pc))
    case Mem(access, value, isLoad) => Single(EncodeMem(access, value, isLoad))
    case Packet(width, offset, regoffset) => Single(EncodePacket(width, offset, regoffset))
    case Atomic(op, fetch, access, valreg) => Single(EncodeAtomic(op, fetch, access, valreg))
    case Assume(_, _) => None
    case IncrementLoopCounter(_) => Some([])
  }

  /** size */
  function SizeOf(ins: Instruction): nat {
    if (ins.Bin? && ins.lddw) || ins.LoadMapFd? then 2 else 1
  }

  function PcOfLabels(insts: seq<LabeledInstruction>, pc: nat): map<Label, nat> {
    if insts == [] then map[]
    else map[insts[0].lab := pc] + PcOfLabels(insts[1..], pc + SizeOf(insts[0].ins))
  }

  lemma OneLabel(pcOf: map<Label, nat>, l: Label, pc: nat, rest: map<Label, nat>)
    ensures pcOf + (map[l := pc] + rest) == pcOf[l := pc] + rest
  {
  }

  /** get_labels: with a label that occurs twice, the last occurrence counts. */
  method GetLabels(insts: seq<LabeledInstruction>) returns (pcOf: map<Label, nat>)
    ensures pcOf == PcOfLabels(insts, 0)
  {
    pcOf := map[];
    var pc: nat := 0;
    for i := 0 to |insts|
      invariant pcOf + PcOfLabels(insts[i..], pc) == PcOfLabels(insts, 0)
    {
      assert insts[i..][1..] == insts[i + 1..];
      OneLabel(pcOf, insts[i].lab, pc, PcOfLabels(insts[i + 1..], pc + SizeOf(insts[i].ins)));
      pcOf := pcOf[insts[i].lab := pc];
      pc := pc + SizeOf(insts[i].ins);
    }
  }

  /** A jump whose target has been replaced by the pc of its label. */
  function Resolve(ins: Instruction, pcOf: map<Label, nat>): Option<Instruction> {
    if !ins.Jmp? then Some(ins)
    else if ins.target in pcOf && pcOf[ins.target] <= INT_MAX then
      Some(ins.(target := InstructionLabel(pcOf[ins.target])))
    else None
  }

  /** The words of one instruction, its jump target resolved. */
  function EncodeResolved(ins: Instruction, pcOf: map<Label, nat>, pc: nat): Option<seq<Inst>> {
    var resolved := Resolve(ins, pcOf);
    if resolved.None? then None else Encode(resolved.value, pc)
  }

  function Append(words: seq<Inst>, rest: Option<seq<Inst>>): Option<seq<Inst>> {
    if rest.None? then None else Some(words + rest.value)
  }

  /** The words of the instructions, the first of them at a pc. */
  function EncodeAll(insts: seq<LabeledInstruction>, pcOf: map<Label, nat>, pc: nat): Option<seq<Inst>> {
    if insts == [] then Some([])
    else
      var words := EncodeResolved(insts[0].ins, pcOf, pc);
      if words.None? then None else Append(words.value, EncodeAll(insts[1..], pcOf, pc + |words.value|))
  }

  lemma AppendTwice(res: seq<Inst>, words: seq<Inst>, rest: Option<seq<Inst>>)
    ensures Append(res, Append(words, rest)) == Append(res + words, rest)
  {
    if rest.Some? {
      assert res + (words + rest.value) == res + words + rest.value;
    }
  }

  lemma AppendEnds(res: seq<Inst>, all: Option<seq<Inst>>)
    ensures Append(res, Some([])) == Some(res) && Append([], all) == all
  {
    assert res + [] == res;
    if all.Some? {
      assert [] + all.value == all.value;
    }
  }

  /** marshal */
  method Marshal(insts: seq<LabeledInstruction>) returns (r: Option<seq<Inst>>)
    ensures r == EncodeAll(insts, PcOfLabels(insts, 0), 0)
  {
    var pcOf := GetLabels(insts);
    var res: seq<Inst> := [];
    AppendEnds([], EncodeAll(insts, pcOf, 0));
    for i := 0 to |insts|
      invariant EncodeAll(insts, pcOf, 0) == Append(res, EncodeAll(insts[i..], pcOf, |res|))
    {
      assert insts[i..][1..] == insts[i + 1..];
      var words := EncodeResolved(insts[i].ins, pcOf, |res|);
      if words.None? {
        return None;
      }
      AppendTwice(res, words.value, EncodeAll(insts[i + 1..], pcOf, |res| + |words.value|));
      res := res + words.value;
    }
    AppendEnds(res, None);
    return Some(res);
  }
}
