/** Decoding instruction words (src/asm_unmarshal.cpp). Where the source throws, the result
    is None. */
module AsmUnmarshal {
  import opened AsmSyntax
  import opened EbpfVmIsa
  import opened InstructionSeqToCfg

  /** bpf_conformance_groups_t */
  datatype Group = Base32 | Base64 | Divmul32 | Divmul64 | GroupCallx | GroupPacket | Atomic32 | Atomic64

  /** What the decoder asks the platform: the groups it supports, the helper functions a
      program may call, and whether the prototype of one is understood. */
  datatype Platform = Platform(
    supports: Group -> bool, isHelperUsable: Int32 -> bool, hasPrototype: Int32 -> bool)

  datatype AluOp = Binary(binOp: BinOp) | Unary(unOp: UnOp)

  /** getAluOp */
  function GetAluOp(plat: Platform, inst: Inst): Option<AluOp> {
    var is64 := Class(inst.opcode) == CLS_ALU64;
    var divmul := plat.supports(if is64 then Divmul64 else Divmul32);
    var code := AluCode(inst.opcode);
    if code == 0x30 then
      if !divmul then None
      else if inst.offset == 0 then Some(Binary(UDIV)) else if inst.offset == 1 then Some(Binary(SDIV)) else None
    else if code == 0x90 then
      if !divmul then None
      else if inst.offset == 0 then Some(Binary(UMOD)) else if inst.offset == 1 then Some(Binary(SMOD)) else None
    else if code == 0xb0 then
      if inst.offset > 0 && !HasSrcReg(inst.opcode) then None
      else if inst.offset == 0 then Some(Binary(MOV))
      else if inst.offset == 8 then Some(Binary(MOVSX8))
      else if inst.offset == 16 then Some(Binary(MOVSX16))
      else if inst.offset == 32 then Some(Binary(MOVSX32))
      else None
    else if inst.offset != 0 then None
    else if code == 0x00 then Some(Binary(ADD))
    else if code == 0x10 then Some(Binary(SUB))
    else if code == 0x20 then if divmul then Some(Binary(MUL)) else None
    else if code == 0x40 then Some(Binary(OR))
    else if code == 0x50 then Some(Binary(AND))
    else if code == 0x60 then Some(Binary(LSH))
    else if code == 0x70 then Some(Binary(RSH))
    else if code == 0x80 then
      if HasSrcReg(inst.opcode) || inst.src != 0 || inst.imm != 0 then None else Some(Unary(NEG))
    else if code == 0xa0 then Some(Binary(XOR))
    else if code == 0xc0 then Some(Binary(ARSH))
    else if code == 0xd0 then
      if inst.src != 0 then None else GetEndian(plat, inst, is64)
    else None
  }

  /** The byte swaps of getAluOp. */
  function GetEndian(plat: Platform, inst: Inst, is64: bool): Option<AluOp> {
    var be := inst.opcode & END_BE != 0;
    if is64 && be then None
    else if inst.imm == 16 && plat.supports(Base32) then
      Some(Unary(if is64 then SWAP16 else if be then BE16 else LE16))
    else if inst.imm == 32 && plat.supports(Base32) then
      Some(Unary(if is64 then SWAP32 else if be then BE32 else LE32))
    else if inst.imm == 64 && plat.supports(Base64) then
      Some(Unary(if is64 then SWAP64 else if be then BE64 else LE64))
    else None
  }

  /** getAtomicOp */
  function GetAtomicOp(inst: Inst): Option<AtomicOp> {
    var fetch := inst.imm % 2;
    var op := inst.imm - fetch;
    if op == 0xe0 then if fetch == 1 then Some(AtomicXchg) else None
    else if op == 0xf0 then if fetch == 1 then Some(AtomicCmpXchg) else None
    else if op == 0x00 then Some(AtomicAdd)
    else if op == 0x40 then Some(AtomicOr)
    else if op == 0x50 then Some(AtomicAnd)
    else if op == 0xa0 then Some(AtomicXor)
    else None
  }

  /** getBinValue */
  function GetBinValue(inst: Inst): Option<Value> {
    if HasSrcReg(inst.opcode) then if inst.imm != 0 then None else Some(Reg(inst.src))
    else if inst.src != 0 then None
    else Some(Imm(SignExtend(inst.imm)))
  }

  /** getJmpOp, for the codes that are conditions. */
  function GetJmpOp(opcode: bv8): Option<CondOp> {
    var code := JumpCode(opcode);
    if code == 0x1 then Some(EQ)
    else if code == 0x2 then Some(GT)
    else if code == 0x3 then Some(GE)
    else if code == 0x4 then Some(SET)
    else if code == 0x5 then Some(NE)
    else if code == 0x6 then Some(SGT)
    else if code == 0x7 then Some(SGE)
    else if code == 0xa then Some(LT)
    else if code == 0xb then Some(LE)
    else if code == 0xc then Some(SLT)
    else if code == 0xd then Some(SLE)
    else None
  }

  /** makeMemOp */
  function MakeMemOp(plat: Platform, inst: Inst): Option<Instruction> {
    var width := OpcodeToWidth(inst.opcode);
    var isLD := Class(inst.opcode) == CLS_LD;
    var mode := Mode(inst.opcode);
    if inst.dst > R10 || inst.src > R10 then None
    else if !plat.supports(if width == 8 then Base64 else Base32) then None
    else if mode == MODE_ABS then
      if !plat.supports(GroupPacket) || !isLD || width == 8 || inst.dst != 0 || inst.src > 0 || inst.offset != 0
      then None
      else Some(Packet(width, inst.imm, None))
    else if mode == MODE_IND then
      if !plat.supports(GroupPacket) || !isLD || width == 8 || inst.dst != 0 || inst.offset != 0
      then None
      else Some(Packet(width, inst.imm, Some(inst.src)))
    else if mode == MODE_MEM then
      if isLD then None
      else
        var isLoad := Class(inst.opcode) == CLS_LDX;
        var isImm := inst.opcode & 1 == 0;
        if (isLoad && inst.dst == R10) || (isImm && inst.src != 0) || (!isImm && inst.imm != 0) then None
        else
          Some(Mem(Deref(width, if isLoad then inst.src else inst.dst, inst.offset),
                   if isLoad then Reg(inst.dst) else if isImm then Imm(ZeroExtend(inst.imm)) else Reg(inst.src),
                   isLoad))
    else if mode == MODE_ATOMIC then
      if Class(inst.opcode) != CLS_STX || (Size(inst.opcode) != 0x00 && Size(inst.opcode) != 0x18) then None
      else if !plat.supports(if Size(inst.opcode) == 0x18 then Atomic64 else Atomic32) then None
      else
        var op := GetAtomicOp(inst);
        if op.None? then None
        else Some(Atomic(op.value, inst.imm % 2 == 1, Deref(width, inst.dst, inst.offset), inst.src))
    else None
  }

  /** makeAluOp */
  function MakeAluOp(plat: Platform, inst: Inst): Option<Instruction> {
    var is64 := Class(inst.opcode) == CLS_ALU64;
    if !plat.supports(if is64 then Base64 else Base32) then None
    else if inst.dst >= R10 || inst.src > R10 then None
    else
      var op := GetAluOp(plat, inst);
      if op.None? then None
      else if op.value.Unary? then Some(Un(op.value.unOp, inst.dst, is64))
      else
        var v := GetBinValue(inst);
        if v.None? then None else Some(Bin(op.value.binOp, inst.dst, v.value, is64, false))
  }

  /** makeLddw */
  function MakeLddw(plat: Platform, insts: seq<Inst>, pc: nat): Option<Instruction>
    requires pc < |insts|
  {
    var inst := insts[pc];
    if !plat.supports(Base64) || pc >= |insts| - 1 then None
    else
      var next := insts[pc + 1];
      if next.opcode != 0 || next.dst != 0 || next.src != 0 || next.offset != 0 then None
      else if inst.src > 1 || inst.offset != 0 || inst.dst > R10 then None
      else if inst.src == 1 then if next.imm != 0 then None else Some(LoadMapFd(inst.dst, inst.imm))
      else Some(Bin(MOV, inst.dst, Imm(Merge(inst.imm, next.imm)), true, true))
  }

  /** getJumpTarget: the target is computed in 32 bits. */
  function GetJumpTarget(offset: Int32, insts: seq<Inst>, pc: nat): (r: Option<Label>)
    ensures r.Some? ==> r.value == InstructionLabel(r.value.from) && 0 <= r.value.from < |insts|
                        && insts[r.value.from].opcode != 0
  {
    var newPc := (pc + 1 + offset) % TWO_32;
    if newPc >= |insts| || insts[newPc].opcode == 0 || newPc > INT_MAX then None
    else Some(InstructionLabel(newPc))
  }

  /** The calls of makeJmp. */
  function MakeCall(plat: Platform, inst: Inst, insts: seq<Inst>, pc: nat): Option<Instruction> {
    if Class(inst.opcode) != CLS_JMP then None
    else if !plat.supports(GroupCallx) && HasSrcReg(inst.opcode) then None
    else if !plat.supports(Base32) || inst.src >= CALL_BTF_HELPER || inst.offset != 0 then None
    else if inst.src == CALL_LOCAL then
      if HasSrcReg(inst.opcode) || inst.dst != 0 then None
      else
        var target := GetJumpTarget(inst.imm, insts, pc);
        if target.None? then None else Some(CallLocal(target.value, ""))
    else if HasSrcReg(inst.opcode) then
      if inst.dst > R10 then None
      else if inst.imm != 0 then
        if inst.dst > 0 || inst.imm < 0 || inst.imm > R10 then None else Some(Callx(inst.imm))
      else Some(Callx(inst.dst))
    else if inst.dst != 0 || !plat.isHelperUsable(inst.imm) || !plat.hasPrototype(inst.imm) then None
    else Some(Call(inst.imm))
  }

  /** makeJmp */
  function MakeJmp(plat: Platform, inst: Inst, insts: seq<Inst>, pc: nat): Option<Instruction> {
    var code, is64 := JumpCode(inst.opcode), Class(inst.opcode) == CLS_JMP;
    if code == 0x8 then MakeCall(plat, inst, insts, pc)
    else if code == 0x9 then
      if !plat.supports(Base32) || !is64 || HasSrcReg(inst.opcode)
         || inst.src != 0 || inst.dst != 0 || inst.imm != 0 || inst.offset != 0
      then None else Some(Exit(""))
    else if code == 0x0
         && (!plat.supports(Base32) || HasSrcReg(inst.opcode) || (is64 && inst.imm != 0) || (!is64 && inst.offset != 0)
             || inst.dst != 0) then None
    else if !plat.supports(if is64 then Base64 else Base32) || (code != 0x0 && GetJmpOp(inst.opcode).None?) then None
    else if (!HasSrcReg(inst.opcode) && inst.src != 0) || (HasSrcReg(inst.opcode) && inst.imm != 0) then None
    else
      var target := GetJumpTarget(if inst.opcode == OP_JA32 then inst.imm else inst.offset, insts, pc);
      if target.None? then None
      else if code == 0x0 then Some(Jmp(None, target.value))
      else if inst.dst > R10 || (HasSrcReg(inst.opcode) && inst.src > R10) then None
      else
        var right := if HasSrcReg(inst.opcode) then Reg(inst.src) else Imm(SignExtend(inst.imm));
        Some(Jmp(Some(Condition(GetJmpOp(inst.opcode).value, inst.dst, right, is64)), target.value))
  }

  function Shift32(dst: Nibble, op: BinOp): Instruction {
    Bin(op, dst, Imm(32), true, false)
  }

  /** What stands at a pc, and how many words it takes. */
  datatype Decoded = Decoded(ins: Instruction, words: nat)

  /** Two shifts by 32 that are read as one move. */
  function Fuse(plat: Platform, insts: seq<Inst>, pc: nat, ins: Instruction): Option<Decoded>
    requires pc < |insts|
  {
    var dst := insts[pc].dst;
    if pc >= |insts| - 1 || ins != Shift32(dst, LSH) || Class(insts[pc + 1].opcode) != CLS_ALU64
    then Some(Decoded(ins, 1))
    else
      var next := MakeAluOp(plat, insts[pc + 1]);
      if next.None? then None
      else if next.value == Shift32(dst, RSH) then Some(Decoded(Bin(MOV, dst, Reg(dst), false, false), 2))
      else if next.value == Shift32(dst, ARSH) then Some(Decoded(Bin(MOVSX32, dst, Reg(dst), true, false), 2))
      else Some(Decoded(ins, 1))
  }

  function One(ins: Option<Instruction>): Option<Decoded> {
    if ins.None? then None else Some(Decoded(ins.value, 1))
  }

  /** The body of the loop of unmarshal. */
  function DecodeAt(plat: Platform, insts: seq<Inst>, pc: nat): (r: Option<Decoded>)
    requires pc < |insts|
    ensures r.Some? ==> 1 <= r.value.words <= 2 && pc + r.value.words <= |insts|
  {
    var inst := insts[pc];
    var cls := Class(inst.opcode);
    if pc > INT_MAX then None
    else if inst.opcode == OP_LDDW_IMM then
      var ins := MakeLddw(plat, insts, pc);
      if ins.None? then None else Some(Decoded(ins.value, 2))
    else if cls == CLS_ALU || cls == CLS_ALU64 then
      var ins := MakeAluOp(plat, inst);
      if ins.None? then None else Fuse(plat, insts, pc, ins.value)
    else if cls == CLS_JMP || cls == CLS_JMP32 then One(MakeJmp(plat, inst, insts, pc))
    else One(MakeMemOp(plat, inst))
  }

  function Then(
    prog: seq<LabeledInstruction>, rest: Option<seq<LabeledInstruction>>): Option<seq<LabeledInstruction>>
  {
    if rest.None? then None else Some(prog + rest.value)
  }

  /** The instructions from a pc on. */
  function DecodeFrom(plat: Platform, insts: seq<Inst>, pc: nat): Option<seq<LabeledInstruction>>
    requires pc <= |insts|
    decreases |insts| - pc
  {
    if pc == |insts| then Some([])
    else
      var d := DecodeAt(plat, insts, pc);
      if d.None? then None
      else Then([LabeledInstruction(InstructionLabel(pc), d.value.ins)], DecodeFrom(plat, insts, pc + d.value.words))
  }

  lemma ThenTwice(
    prog: seq<LabeledInstruction>, one: seq<LabeledInstruction>, rest: Option<seq<LabeledInstruction>>)
    ensures Then(prog, Then(one, rest)) == Then(prog + one, rest)
  {
    if rest.Some? {
      assert prog + (one + rest.value) == prog + one + rest.value;
    }
  }

  /** Reading one more instruction. */
  lemma ReadOn(plat: Platform, insts: seq<Inst>, pc: nat, prog: seq<LabeledInstruction>, d: Option<Decoded>)
    requires pc < |insts| && d == DecodeAt(plat, insts, pc)
    ensures d.None? ==> DecodeFrom(plat, insts, pc) == None
    ensures d.Some? ==>
              pc + d.value.words <= |insts| && d.value.words > 0 &&
              Then(prog, DecodeFrom(plat, insts, pc)) ==
                Then(prog + [LabeledInstruction(InstructionLabel(pc), d.value.ins)],
                     DecodeFrom(plat, insts, pc + d.value.words))
  {
    if d.Some? {
      var one := [LabeledInstruction(InstructionLabel(pc), d.value.ins)];
      ThenTwice(prog, one, DecodeFrom(plat, insts, pc + d.value.words));
    }
  }

  lemma ThenEnds(prog: seq<LabeledInstruction>, all: Option<seq<LabeledInstruction>>)
    ensures Then(prog, Some([])) == Some(prog) && Then([], all) == all
  {
    assert prog + [] == prog;
    if all.Some? {
      assert [] + all.value == all.value;
    }
  }

  /** unmarshal */
  method Unmarshal(plat: Platform, insts: seq<Inst>) returns (r: Option<seq<LabeledInstruction>>)
    ensures r == if insts == [] then None else DecodeFrom(plat, insts, 0)
  {
    if insts == [] {
      return None;
    }
    r := UnmarshalFrom(plat, insts, 0);
  }

  /** The loop of unmarshal. */
  method UnmarshalFrom(plat: Platform, insts: seq<Inst>, start: nat) returns (r: Option<seq<LabeledInstruction>>)
    requires start <= |insts|
    ensures r == DecodeFrom(plat, insts, start)
  {
    var prog: seq<LabeledInstruction>, pc := [], start;
    ThenEnds([], DecodeFrom(plat, insts, start));
    while pc < |insts|
      invariant pc <= |insts|
      invariant DecodeFrom(plat, insts, start) == Then(prog, DecodeFrom(plat, insts, pc))
    {
      var d := DecodeAt(plat, insts, pc);
      ReadOn(plat, insts, pc, prog, d);
      if d.None? {
        return None;
      }
      prog, pc := prog + [LabeledInstruction(InstructionLabel(pc), d.value.ins)], pc + d.value.words;
    }
    ThenEnds(prog, None);
    return Some(prog);
  }
}
