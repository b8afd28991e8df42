/** Decoding preserves meaning: the decoded program and the machine on words agree. */
module DecodeMeaning {
  import opened AsmSyntax
  import opened EbpfVmIsa
  import opened InstructionSeqToCfg
  import opened AsmUnmarshal
  import opened AsmMarshal
  import opened Machines
  import IB = IntervalBits

  // ----- one word -----

  /** The code and offset by which the decoder knows an operation. */
  lemma CodeOf(plat: Platform, w: Inst, op: BinOp)
    requires GetAluOp(plat, w) == Some(Binary(op))
    ensures AluCode(w.opcode) == BinCode(op) << 4 && w.offset == BinOffset(op)
  {
  }

  /** By that code and offset the word machine does what the operation says. */
  lemma BinaryAgrees(op: BinOp, is64: bool, a: Uint64, b: Uint64)
    ensures WordAlu(BinCode(op) << 4, BinOffset(op), is64, a, b) == OpAlu(op, is64, a, b)
    ensures BinCode(op) << 4 != 0x80 && BinCode(op) << 4 != 0xd0
  {
  }

  lemma UnaryAgrees(plat: Platform, w: Inst, op: UnOp, little: bool, a: Uint64)
    requires GetAluOp(plat, w) == Some(Unary(op)) && Class(w.opcode) in {CLS_ALU, CLS_ALU64}
    ensures AluCode(w.opcode) == if op.NEG? then 0x80 else 0xd0
    ensures !op.NEG? ==> OpUnary(little, op, Class(w.opcode) == CLS_ALU64, a) == WordEndian(little, w.opcode, w.imm, a)
  {
  }

  lemma AluAgrees<M>(env: Env<M>, plat: Platform, w: Inst, ins: Instruction, next: int, s: State<M>)
    requires MakeAluOp(plat, w) == Some(ins) && Class(w.opcode) in {CLS_ALU, CLS_ALU64}
    ensures Execute(env, ins, next, s) == Running(next, WordArithmetic(env, w, s))
  {
    if ins.Un? {
      UnaryAgrees(plat, w, ins.unOp, env.littleEndian, Get(s.regs, w.dst));
    } else {
      CodeOf(plat, w, ins.binOp);
      BinaryAgrees(ins.binOp, ins.is64, Get(s.regs, w.dst), Operand(s.regs, ins.v));
    }
  }

  /** A store of a negative immediate into 64 bits. */
  predicate NegativeStore(w: Inst) {
    Class(w.opcode) == CLS_ST && Size(w.opcode) == 0x18 && w.imm < 0
  }

  lemma StoredBits(imm: Int32, width: int)
    requires width in {1, 2, 4} || (width == 8 && imm >= 0)
    ensures Kept(SignExtend(imm), width) == Kept(ZeroExtend(imm), width)
  {
  }

  lemma LoadAgrees<M>(env: Env<M>, plat: Platform, w: Inst, ins: Instruction, next: int, s: State<M>)
    requires MakeMemOp(plat, w) == Some(ins) && Class(w.opcode) in {CLS_LD, CLS_LDX}
    ensures Execute(env, ins, next, s) == Running(next, WordMemory(env, w, s))
  {
    assert Class(w.opcode) == CLS_LDX ==> w.opcode & 1 != 0;
  }

  lemma StoreAgrees<M>(env: Env<M>, plat: Platform, w: Inst, ins: Instruction, next: int, s: State<M>)
    requires MakeMemOp(plat, w) == Some(ins) && Class(w.opcode) == CLS_ST && !NegativeStore(w)
    ensures Execute(env, ins, next, s) == Running(next, WordMemory(env, w, s))
  {
    assert w.opcode & 1 == 0;
    StoredBits(w.imm, OpcodeToWidth(w.opcode));
  }

  lemma StoreRegAgrees<M>(env: Env<M>, plat: Platform, w: Inst, ins: Instruction, next: int, s: State<M>)
    requires MakeMemOp(plat, w) == Some(ins) && Class(w.opcode) == CLS_STX
    ensures Execute(env, ins, next, s) == Running(next, WordMemory(env, w, s))
  {
    assert w.opcode & 1 != 0;
  }

  lemma MemAgrees<M>(env: Env<M>, plat: Platform, w: Inst, ins: Instruction, next: int, s: State<M>)
    requires MakeMemOp(plat, w) == Some(ins) && Class(w.opcode) in {CLS_LD, CLS_LDX, CLS_ST, CLS_STX}
    requires !NegativeStore(w)
    ensures Execute(env, ins, next, s) == Running(next, WordMemory(env, w, s))
  {
    if Class(w.opcode) == CLS_ST {
      StoreAgrees(env, plat, w, ins, next, s);
    } else if Class(w.opcode) == CLS_STX {
      StoreRegAgrees(env, plat, w, ins, next, s);
    } else {
      LoadAgrees(env, plat, w, ins, next, s);
    }
  }

  /** For example *(u64 *)(r10 - 8) = -1. */
  lemma NegativeStoreExample(plat: Platform)
    requires plat.supports(Base64)
    ensures var w := Inst(0x7a, 10, 0, -8, -1);
            && MakeMemOp(plat, w) == Some(Mem(Deref(8, 10, -8), Imm(0xFFFF_FFFF), false))
            && NegativeStore(w) && SignExtend(w.imm) == TWO_64 - 1
  {
  }

  /** The 32-bit target of an accepted jump is the exact one. */
  lemma TargetIsExact(offset: Int32, insts: seq<Inst>, pc: nat)
    requires pc <= INT_MAX && GetJumpTarget(offset, insts, pc).Some?
    ensures GetJumpTarget(offset, insts, pc).value.from == pc + 1 + offset
  {
  }

  lemma TestAgrees(opcode: bv8, is64: bool, a: Uint64, b: Uint64)
    requires GetJmpOp(opcode).Some?
    ensures JumpCode(opcode) !in {0x0, 0x8, 0x9}
    ensures WordTest(JumpCode(opcode), is64, a, b) == Compare(GetJmpOp(opcode).value, is64, a, b)
  {
  }

  lemma CallAgrees<M>(env: Env<M>, plat: Platform, insts: seq<Inst>, pc: nat, w: Inst, ins: Instruction, s: State<M>)
    requires JumpCode(w.opcode) == 0x8 && MakeCall(plat, w, insts, pc) == Some(ins) && pc <= INT_MAX
    ensures Execute(env, ins, pc + 1, s) == WordJump(env, w, pc, s)
  {
    if GetJumpTarget(w.imm, insts, pc).Some? {
      TargetIsExact(w.imm, insts, pc);
    }
  }

  lemma JmpAgrees<M>(env: Env<M>, plat: Platform, insts: seq<Inst>, pc: nat, w: Inst, ins: Instruction, s: State<M>)
    requires MakeJmp(plat, w, insts, pc) == Some(ins) && Class(w.opcode) in {CLS_JMP, CLS_JMP32} && pc <= INT_MAX
    ensures Execute(env, ins, pc + 1, s) == WordJump(env, w, pc, s)
  {
    var code := JumpCode(w.opcode);
    if code == 0x8 {
      CallAgrees(env, plat, insts, pc, w, ins, s);
    } else if code != 0x9 {
      assert code == 0x0 ==> w.opcode == if Class(w.opcode) == CLS_JMP then OP_JA16 else OP_JA32;
      TargetIsExact(if w.opcode == OP_JA32 then w.imm else w.offset, insts, pc);
      if code != 0x0 {
        TestAgrees(w.opcode, Class(w.opcode) == CLS_JMP, Get(s.regs, w.dst), Operand(s.regs, ins.cond.value.right));
      }
    }
  }

  // ----- two shifts as one move -----

  lemma ShiftsBack(a: Uint64)
    ensures var up := (a * TWO_32) % TWO_64;
            up / TWO_32 == a % TWO_32 && Signed(up, TWO_64) / TWO_32 == Signed(a, TWO_32)
  {
    var q, r := a / TWO_32, a % TWO_32;
    assert a == q * TWO_32 + r;
    assert a * TWO_32 == q * TWO_64 + r * TWO_32;
    assert (a * TWO_32) % TWO_64 == r * TWO_32;
  }

  lemma ShiftBy(x: int, s: nat)
    requires B.Pow2(s) == TWO_32
    ensures B.ShiftLeft(x, s) == x * TWO_32 && B.ShiftRight(x, s) == x / TWO_32
  {
    B.ShiftLeftIsProduct(x, s);
    B.ShiftParts(x, s);
    B.ShiftLeftIsProduct(B.ShiftRight(x, s), s);
  }

  lemma ShiftBy32(x: int)
    ensures B.ShiftLeft(x, 32) == x * TWO_32 && B.ShiftRight(x, 32) == x / TWO_32
  {
    IB.Maxima();
    ShiftBy(x, 32);
  }

  lemma LeftBy32(a: Uint64)
    ensures OpAlu(LSH, true, a, 32) == (a * TWO_32) % TWO_64
  {
    ShiftBy32(a);
  }

  lemma HighHalfFits(x: Uint64)
    ensures (x / TWO_32) % TWO_64 == x / TWO_32
  {
  }

  lemma RightBy32(up: Uint64)
    ensures OpAlu(RSH, true, up, 32) == up / TWO_32
  {
    ShiftBy32(up);
    HighHalfFits(up);
  }

  lemma ArithmeticBy32(up: Uint64)
    ensures OpAlu(ARSH, true, up, 32) == (Signed(up, TWO_64) / TWO_32) % TWO_64
  {
    ShiftBy32(Signed(up, TWO_64));
  }

  /** r <<= 32; r >>= 32 is a 32-bit move, and with an arithmetic shift a sign extension. */
  lemma FusedShifts(a: Uint64)
    ensures var up := OpAlu(LSH, true, a, 32);
            && OpAlu(RSH, true, up, 32) == OpAlu(MOV, false, a, a)
            && OpAlu(ARSH, true, up, 32) == OpAlu(MOVSX32, true, a, a)
  {
    var up := OpAlu(LSH, true, a, 32);
    LeftBy32(a);
    RightBy32(up);
    ArithmeticBy32(up);
    ShiftsBack(a);
  }

  /** The decoder has read two words of shifts as one instruction. */
  predicate Fused(plat: Platform, insts: seq<Inst>, pc: nat) {
    pc < |insts| && insts[pc].opcode != OP_LDDW_IMM
    && DecodeAt(plat, insts, pc).Some? && DecodeAt(plat, insts, pc).value.words == 2
  }

  /** Two settings of one register, the second from the first. */
  lemma PairExecutes<M>(env: Env<M>, dst: Nibble, op: BinOp, s: State<M>, pc: int)
    requires op == RSH || op == ARSH
    ensures var mid := Execute(env, Shift32(dst, LSH), pc, s).state;
            var fused := Bin(if op == RSH then MOV else MOVSX32, dst, Reg(dst), op == ARSH, false);
            Execute(env, Shift32(dst, op), pc + 1, mid) == Execute(env, fused, pc + 1, s)
  {
    var a := Get(s.regs, dst);
    FusedShifts(a);
    var mid := Execute(env, Shift32(dst, LSH), pc, s).state;
    if dst < |s.regs| {
      assert Get(mid.regs, dst) == OpAlu(LSH, true, a, 32);
    }
  }

  lemma FusedAgrees<M>(env: Env<M>, plat: Platform, insts: seq<Inst>, pc: nat, s: State<M>)
    requires Fused(plat, insts, pc)
    ensures WordStep(env, insts, WordStep(env, insts, Running(pc, s)))
         == Execute(env, DecodeAt(plat, insts, pc).value.ins, pc + 2, s)
  {
    var w, v := insts[pc], insts[pc + 1];
    var first, second := MakeAluOp(plat, w).value, MakeAluOp(plat, v).value;
    AluAgrees(env, plat, w, first, pc + 1, s);
    var mid := WordArithmetic(env, w, s);
    AluAgrees(env, plat, v, second, pc + 2, mid);
    assert WordStep(env, insts, Running(pc, s)) == Running(pc + 1, mid);
    PairExecutes(env, w.dst, second.binOp, s, pc + 1);
  }

  /** What stands at a pc does what its words do. */
  lemma StepAgrees<M>(env: Env<M>, plat: Platform, insts: seq<Inst>, pc: nat, s: State<M>)
    requires pc < |insts| && DecodeAt(plat, insts, pc).Some? && !NegativeStore(insts[pc]) && !Fused(plat, insts, pc)
    ensures var d := DecodeAt(plat, insts, pc).value;
            WordStep(env, insts, Running(pc, s)) == Execute(env, d.ins, pc + d.words, s)
  {
    var w, d := insts[pc], DecodeAt(plat, insts, pc).value;
    var cls := Class(w.opcode);
    if w.opcode == OP_LDDW_IMM {
    } else if cls == CLS_ALU || cls == CLS_ALU64 {
      AluAgrees(env, plat, w, d.ins, pc + 1, s);
    } else if cls == CLS_JMP || cls == CLS_JMP32 {
      JmpAgrees(env, plat, insts, pc, w, d.ins, s);
    } else {
      assert cls in {CLS_LD, CLS_LDX, CLS_ST, CLS_STX};
      MemAgrees(env, plat, w, d.ins, pc + 1, s);
    }
  }

  /** Only the store of a negative immediate into 64 bits differs: the decoder extends the
      immediate with zeros, the instruction set with its sign. */
  lemma MemAgreesIff(plat: Platform, w: Inst, ins: Instruction)
    requires MakeMemOp(plat, w) == Some(ins) && Class(w.opcode) in {CLS_LD, CLS_LDX, CLS_ST, CLS_STX}
    ensures (forall env: Env<Uint64>, s: State<Uint64> :: Execute(env, ins, 0, s) == Running(0, WordMemory(env, w, s)))
       <==> !NegativeStore(w)
  {
    if NegativeStore(w) {
      var env: Env<Uint64> := Env(
        (m, width, a) => 0, (m, width, a, v) => v, (r, m, width, i, o) => (r, m), (r, m, o, f, width, a, v) => (r, m),
        (r, m, f) => (r, m), (r, m, f) => (r, m), fd => 0, r => r, (r, q) => r, true);
      var s: State<Uint64> := State([], 0, []);
      assert Execute(env, ins, 0, s).state.mem == ZeroExtend(w.imm);
      assert WordMemory(env, w, s).mem == SignExtend(w.imm);
    } else {
      forall env: Env<Uint64>, s: State<Uint64>
        ensures Execute(env, ins, 0, s) == Running(0, WordMemory(env, w, s))
      {
        MemAgrees(env, plat, w, ins, 0, s);
      }
    }
  }

  // ----- the list of decoded instructions -----

  /** The pc of the next instruction of the list, or the end of the words. */
  function NextPc(prog: seq<LabeledInstruction>, i: nat, end: int): int
    requires i < |prog|
  {
    if i + 1 < |prog| then prog[i + 1].lab.from else end
  }

  /** An instruction of the list begins at this pc. */
  ghost predicate Begins(prog: seq<LabeledInstruction>, pc: int) {
    exists i :: 0 <= i < |prog| && prog[i].lab.from == pc
  }

  /** The list is what is read from a pc on, one or two words at a time. */
  ghost predicate Listing(read: nat -> Option<Decoded>, end: nat, from: nat, prog: seq<LabeledInstruction>)
    decreases end - from
  {
    if from >= end then from == end && prog == []
    else
      && read(from).Some? && prog != [] && 1 <= read(from).value.words <= 2
      && prog[0] == LabeledInstruction(InstructionLabel(from), read(from).value.ins)
      && Listing(read, end, from + read(from).value.words, prog[1..])
  }

  /** Instruction i of the list is what is read at its label, up to the next label. */
  ghost predicate StandsAs(read: nat -> Option<Decoded>, end: nat, prog: seq<LabeledInstruction>, i: nat)
    requires i < |prog|
  {
    var pc, next := prog[i].lab.from, NextPc(prog, i, end);
    && prog[i].lab == InstructionLabel(pc) && 0 <= pc < next <= end && next - pc <= 2
    && read(pc) == Some(Decoded(prog[i].ins, next - pc))
  }

  lemma {:induction false} ListingStands(
    read: nat -> Option<Decoded>, end: nat, from: nat, prog: seq<LabeledInstruction>, i: nat)
    requires Listing(read, end, from, prog) && i < |prog|
    ensures StandsAs(read, end, prog, i) && from <= prog[i].lab.from && (i == 0 ==> prog[i].lab.from == from)
    decreases end - from
  {
    var next, rest := from + read(from).value.words, prog[1..];
    if i > 0 {
      ListingStands(read, end, next, rest, i - 1);
      assert prog[i] == rest[i - 1] && NextPc(prog, i, end) == NextPc(rest, i - 1, end);
    } else if rest != [] {
      assert NextPc(prog, 0, end) == rest[0].lab.from == next;
    }
  }

  lemma {:induction false} ListingCovers(
    read: nat -> Option<Decoded>, end: nat, from: nat, prog: seq<LabeledInstruction>, pc: nat)
    requires Listing(read, end, from, prog) && from <= pc < end
    ensures Begins(prog, pc)
            || (pc > 0 && Begins(prog, pc - 1) && read(pc - 1).Some? && read(pc - 1).value.words == 2)
    decreases end - from
  {
    var next, rest := from + read(from).value.words, prog[1..];
    if pc < next {
      assert prog[0].lab.from == from;
    } else {
      ListingCovers(read, end, next, rest, pc);
      forall x | Begins(rest, x)
        ensures Begins(prog, x)
      {
        var i :| 0 <= i < |rest| && rest[i].lab.from == x;
        assert prog[i + 1] == rest[i];
      }
    }
  }

  ghost function Reader(plat: Platform, insts: seq<Inst>): nat -> Option<Decoded> {
    (pc: nat) => if pc < |insts| then DecodeAt(plat, insts, pc) else None
  }

  lemma {:induction false} DecodedIsListing(
    plat: Platform, insts: seq<Inst>, from: nat, prog: seq<LabeledInstruction>)
    requires from <= |insts| && DecodeFrom(plat, insts, from) == Some(prog)
    ensures Listing(Reader(plat, insts), |insts|, from, prog)
    decreases |insts| - from
  {
    if from < |insts| {
      var d := DecodeAt(plat, insts, from).value;
      var rest := DecodeFrom(plat, insts, from + d.words).value;
      DecodedIsListing(plat, insts, from + d.words, rest);
      assert prog[1..] == rest;
    }
  }

  ghost predicate Stands(plat: Platform, insts: seq<Inst>, prog: seq<LabeledInstruction>, i: nat)
    requires i < |prog|
  {
    StandsAs(Reader(plat, insts), |insts|, prog, i)
  }

  /** Labels are pcs and grow by the words an instruction takes, one or two. */
  lemma LabelsIncrease(plat: Platform, insts: seq<Inst>, prog: seq<LabeledInstruction>, i: nat)
    requires DecodeFrom(plat, insts, 0) == Some(prog) && i < |prog|
    ensures Stands(plat, insts, prog, i) && (i == 0 ==> prog[i].lab.from == 0)
    ensures 1 <= NextPc(prog, i, |insts|) - prog[i].lab.from <= 2
  {
    DecodedIsListing(plat, insts, 0, prog);
    ListingStands(Reader(plat, insts), |insts|, 0, prog, i);
  }

  predicate TakesTwo(plat: Platform, insts: seq<Inst>, pc: nat) {
    pc < |insts| && DecodeAt(plat, insts, pc).Some? && DecodeAt(plat, insts, pc).value.words == 2
  }

  /** Every word begins an instruction or is the second word of one. */
  lemma EveryWordIsRead(plat: Platform, insts: seq<Inst>, prog: seq<LabeledInstruction>, pc: nat)
    requires DecodeFrom(plat, insts, 0) == Some(prog) && pc < |insts|
    ensures Begins(prog, pc) || (pc > 0 && Begins(prog, pc - 1) && TakesTwo(plat, insts, pc - 1))
  {
    DecodedIsListing(plat, insts, 0, prog);
    ListingCovers(Reader(plat, insts), |insts|, 0, prog, pc);
  }

  predicate Transfers(ins: Instruction) {
    ins.Jmp? || ins.CallLocal?
  }

  /** Jumps and local calls go to a word that is no second word of lddw. */
  lemma TargetIsFirstWord(plat: Platform, insts: seq<Inst>, pc: nat)
    requires pc < |insts| && DecodeAt(plat, insts, pc).Some? && Transfers(DecodeAt(plat, insts, pc).value.ins)
    ensures var t := DecodeAt(plat, insts, pc).value.ins.target.from;
            0 <= t < |insts| && insts[t].opcode != 0
  {
    var w := insts[pc];
    assert Class(w.opcode) in {CLS_JMP, CLS_JMP32};
  }

  lemma TargetIsPlain(plat: Platform, insts: seq<Inst>, pc: nat)
    requires pc < |insts| && DecodeAt(plat, insts, pc).Some? && Transfers(DecodeAt(plat, insts, pc).value.ins)
    ensures var t := DecodeAt(plat, insts, pc).value.ins.target; t == InstructionLabel(t.from)
  {
    var w := insts[pc];
    assert Class(w.opcode) in {CLS_JMP, CLS_JMP32};
  }

  /** Decoded programs are what the translation to a graph asks for. */
  lemma DecodedIsPlain(plat: Platform, insts: seq<Inst>, prog: seq<LabeledInstruction>)
    requires DecodeFrom(plat, insts, 0) == Some(prog)
    ensures PlainLabels(prog)
  {
    forall i | 0 <= i < |prog|
      ensures prog[i].lab == InstructionLabel(prog[i].lab.from)
      ensures prog[i].ins.Jmp? ==> prog[i].ins.target == InstructionLabel(prog[i].ins.target.from)
    {
      LabelsIncrease(plat, insts, prog, i);
      if prog[i].ins.Jmp? {
        TargetIsPlain(plat, insts, prog[i].lab.from);
      }
    }
  }

  /** So no jump of a decoded program goes into the middle of an lddw. */
  lemma NoJumpIntoLddw(plat: Platform, insts: seq<Inst>, prog: seq<LabeledInstruction>, i: nat, j: nat)
    requires DecodeFrom(plat, insts, 0) == Some(prog) && i < |prog| && j < |prog| && Transfers(prog[i].ins)
    requires 0 <= prog[j].lab.from < |insts| && insts[prog[j].lab.from].opcode == OP_LDDW_IMM
    ensures prog[i].ins.target.from != prog[j].lab.from + 1
  {
    LabelsIncrease(plat, insts, prog, i);
    LabelsIncrease(plat, insts, prog, j);
    TargetIsFirstWord(plat, insts, prog[i].lab.from);
  }

  /** No jump goes to the second of two shifts that were read as one. */
  ghost predicate NoJumpIntoPair(plat: Platform, insts: seq<Inst>, prog: seq<LabeledInstruction>) {
    forall i :: 0 <= i < |prog| && Transfers(prog[i].ins) && prog[i].ins.target.from > 0 ==>
      !(Begins(prog, prog[i].ins.target.from - 1) && Fused(plat, insts, prog[i].ins.target.from - 1))
  }

  lemma SecondWord(plat: Platform, insts: seq<Inst>, pc: nat)
    requires pc < |insts| && DecodeAt(plat, insts, pc).Some? && DecodeAt(plat, insts, pc).value.words == 2
    ensures pc + 1 < |insts| && (Fused(plat, insts, pc) || insts[pc + 1].opcode == 0)
  {
  }

  /** Jumps go to instructions. */
  lemma TargetBegins(plat: Platform, insts: seq<Inst>, prog: seq<LabeledInstruction>, i: nat)
    requires DecodeFrom(plat, insts, 0) == Some(prog) && i < |prog| && Transfers(prog[i].ins)
    requires NoJumpIntoPair(plat, insts, prog)
    ensures Begins(prog, prog[i].ins.target.from)
  {
    LabelsIncrease(plat, insts, prog, i);
    var pc, t := prog[i].lab.from, prog[i].ins.target.from;
    TargetIsFirstWord(plat, insts, pc);
    EveryWordIsRead(plat, insts, prog, t);
    if t > 0 && TakesTwo(plat, insts, t - 1) {
      SecondWord(plat, insts, t - 1);
    }
  }

  // ----- runs -----

  /** The machine on the list. */
  ghost function ListStep<M>(env: Env<M>, prog: seq<LabeledInstruction>, end: int, c: Config<M>): Config<M> {
    if c.Running? && Begins(prog, c.pc) then
      var i :| 0 <= i < |prog| && prog[i].lab.from == c.pc;
      Execute(env, prog[i].ins, NextPc(prog, i, end), c.state)
    else c
  }

  ghost function ListMachine<M>(env: Env<M>, prog: seq<LabeledInstruction>, end: int): Config<M> -> Config<M> {
    c => ListStep(env, prog, end, c)
  }

  ghost function WordMachine<M>(env: Env<M>, insts: seq<Inst>): Config<M> -> Config<M> {
    c => WordStep(env, insts, c)
  }

  ghost predicate Place(prog: seq<LabeledInstruction>, end: int, pc: int) {
    pc == end || Begins(prog, pc)
  }

  /** Between instructions: at one, at the end, or halted; and so are all returns. */
  ghost predicate Matching<M>(prog: seq<LabeledInstruction>, end: int, c: Config<M>) {
    (c.Running? ==> Place(prog, end, c.pc)) && Returns(prog, end, c.state)
  }

  ghost predicate Returns<M>(prog: seq<LabeledInstruction>, end: int, s: State<M>) {
    forall k :: 0 <= k < |s.frames| ==> Place(prog, end, s.frames[k].returnPc)
  }

  /** Nothing in the way of agreement. */
  ghost predicate Faithful(plat: Platform, insts: seq<Inst>, prog: seq<LabeledInstruction>) {
    && DecodeFrom(plat, insts, 0) == Some(prog) && NoJumpIntoPair(plat, insts, prog)
    && forall i :: 0 <= i < |insts| ==> !NegativeStore(insts[i])
  }

  lemma EnterMatches<M>(env: Env<M>, prog: seq<LabeledInstruction>, end: int, target: int, returnPc: int, s: State<M>)
    requires Place(prog, end, target) && Place(prog, end, returnPc) && Returns(prog, end, s)
    ensures Matching(prog, end, Enter(env, target, returnPc, s))
  {
  }

  lemma LeaveMatches<M>(env: Env<M>, prog: seq<LabeledInstruction>, end: int, s: State<M>)
    requires Returns(prog, end, s)
    ensures Matching(prog, end, Leave(env, s))
  {
  }

  /** Execution goes from place to place. */
  lemma ExecuteMatches<M>(
    env: Env<M>, prog: seq<LabeledInstruction>, end: int, ins: Instruction, next: int, s: State<M>)
    requires Place(prog, end, next) && Returns(prog, end, s)
    requires Transfers(ins) ==> Place(prog, end, ins.target.from)
    ensures Matching(prog, end, Execute(env, ins, next, s))
  {
    if ins.CallLocal? {
      EnterMatches(env, prog, end, ins.target.from, next, s);
    } else if ins.Exit? {
      LeaveMatches(env, prog, end, s);
    } else {
      var c := Execute(env, ins, next, s);
      assert c.Running? && c.state.frames == s.frames;
    }
  }

  predicate InPair<M>(plat: Platform, insts: seq<Inst>, c: Config<M>) {
    c.Running? && 0 <= c.pc && Fused(plat, insts, c.pc)
  }

  /** One instruction of the list is one step on the words, or two. */
  lemma StepAt<M>(env: Env<M>, plat: Platform, insts: seq<Inst>, prog: seq<LabeledInstruction>, i: nat, s: State<M>)
    requires i < |prog| && Stands(plat, insts, prog, i) && !NegativeStore(insts[prog[i].lab.from])
    ensures var from := Running(prog[i].lab.from, s);
            var once := WordStep(env, insts, from);
            Execute(env, prog[i].ins, NextPc(prog, i, |insts|), s) ==
              if InPair(plat, insts, from) then WordStep(env, insts, once) else once
  {
    var pc := prog[i].lab.from;
    if Fused(plat, insts, pc) {
      FusedAgrees(env, plat, insts, pc, s);
    } else {
      StepAgrees(env, plat, insts, pc, s);
    }
  }

  lemma StepMatches<M>(
    env: Env<M>, plat: Platform, insts: seq<Inst>, prog: seq<LabeledInstruction>, i: nat, s: State<M>)
    requires Faithful(plat, insts, prog) && i < |prog| && Returns(prog, |insts|, s)
    ensures Matching(prog, |insts|, Execute(env, prog[i].ins, NextPc(prog, i, |insts|), s))
  {
    if Transfers(prog[i].ins) {
      TargetBegins(plat, insts, prog, i);
    }
    ExecuteMatches(env, prog, |insts|, prog[i].ins, NextPc(prog, i, |insts|), s);
  }

  lemma OneStep<M>(env: Env<M>, plat: Platform, insts: seq<Inst>, prog: seq<LabeledInstruction>, c: Config<M>)
    requires Faithful(plat, insts, prog) && Matching(prog, |insts|, c)
    ensures var once, d := WordStep(env, insts, c), ListStep(env, prog, |insts|, c);
            Matching(prog, |insts|, d) && d == if InPair(plat, insts, c) then WordStep(env, insts, once) else once
  {
    if c.Running? && Begins(prog, c.pc) {
      var i :| 0 <= i < |prog| && prog[i].lab.from == c.pc
        && ListStep(env, prog, |insts|, c) == Execute(env, prog[i].ins, NextPc(prog, i, |insts|), c.state);
      LabelsIncrease(plat, insts, prog, i);
      StepMatches(env, plat, insts, prog, i, c.state);
      StepAt(env, plat, insts, prog, i, c.state);
    }
  }

  lemma Simulation<M(!new)>(env: Env<M>, plat: Platform, insts: seq<Inst>, prog: seq<LabeledInstruction>)
    requires Faithful(plat, insts, prog)
    ensures Simulates(WordMachine(env, insts), ListMachine(env, prog, |insts|),
                      (c: Config<M>) => Matching(prog, |insts|, c), (c: Config<M>) => InPair(plat, insts, c))
  {
    var words, list := WordMachine(env, insts), ListMachine(env, prog, |insts|);
    var matching, twice := (c: Config<M>) => Matching(prog, |insts|, c), (c: Config<M>) => InPair(plat, insts, c);
    forall c: Config<M> | matching(c)
      ensures StepOk(words, list, matching, twice, c)
    {
      OneStep(env, plat, insts, prog, c);
    }
  }

  // ----- machines in general -----

  ghost function Iterate<C>(step: C -> C, n: nat, c: C): C {
    if n == 0 then c else step(Iterate(step, n - 1, c))
  }

  /** From a matching configuration, one step of the second machine is one of the first, or
      two where it says so. */
  ghost predicate Simulates<C(!new)>(words: C -> C, list: C -> C, matching: C -> bool, twice: C -> bool) {
    forall c {:trigger StepOk(words, list, matching, twice, c)} ::
      matching(c) ==> StepOk(words, list, matching, twice, c)
  }

  ghost predicate StepOk<C(!new)>(words: C -> C, list: C -> C, matching: C -> bool, twice: C -> bool, c: C) {
    matching(list(c)) && list(c) == if twice(c) then words(words(c)) else words(c)
  }

  lemma {:induction false} ListIsWords<C(!new)>(
    words: C -> C, list: C -> C, matching: C -> bool, twice: C -> bool, c: C, n: nat) returns (m: nat)
    requires Simulates(words, list, matching, twice) && matching(c)
    ensures n <= m <= 2 * n && Iterate(words, m, c) == Iterate(list, n, c) && matching(Iterate(list, n, c))
  {
    m := 0;
    if n > 0 {
      var k := ListIsWords(words, list, matching, twice, c, n - 1);
      var at := Iterate(list, n - 1, c);
      assert StepOk(words, list, matching, twice, at);
      if twice(at) {
        m := k + 2;
        assert Iterate(words, k + 1, c) == words(at);
      } else {
        m := k + 1;
      }
    }
  }

  lemma {:induction false} WordsAreList<C(!new)>(
    words: C -> C, list: C -> C, matching: C -> bool, twice: C -> bool, c: C, m: nat) returns (n: nat, inside: bool)
    requires Simulates(words, list, matching, twice) && matching(c)
    ensures n <= m && matching(Iterate(list, n, c))
    ensures var at := Iterate(list, n, c);
            Iterate(words, m, c) == (if inside then words(at) else at) && (inside ==> twice(at))
  {
    n, inside := 0, false;
    if m > 0 {
      n, inside := WordsAreList(words, list, matching, twice, c, m - 1);
      assert StepOk(words, list, matching, twice, Iterate(list, n, c));
      if inside {
        n, inside := n + 1, false;
      } else if twice(Iterate(list, n, c)) {
        inside := true;
      } else {
        n := n + 1;
      }
    }
  }

  // ----- the theorems -----

  /** Every run of the list is a run on the words. */
  lemma ListRunIsWordRun<M(!new)>(
    env: Env<M>, plat: Platform, insts: seq<Inst>, prog: seq<LabeledInstruction>, c: Config<M>, n: nat) returns (m: nat)
    requires Faithful(plat, insts, prog) && Matching(prog, |insts|, c)
    ensures n <= m <= 2 * n
    ensures Iterate(WordMachine(env, insts), m, c) == Iterate(ListMachine(env, prog, |insts|), n, c)
  {
    Simulation(env, plat, insts, prog);
    m := ListIsWords(WordMachine(env, insts), ListMachine(env, prog, |insts|),
      (d: Config<M>) => Matching(prog, |insts|, d), (d: Config<M>) => InPair(plat, insts, d), c, n);
  }

  /** Every run on the words is a run of the list, whenever it stands at an instruction or
      has halted: then registers, memory and calls are the same. */
  lemma WordRunIsListRun<M(!new)>(
    env: Env<M>, plat: Platform, insts: seq<Inst>, prog: seq<LabeledInstruction>, c: Config<M>, m: nat) returns (n: nat)
    requires Faithful(plat, insts, prog) && Matching(prog, |insts|, c)
    requires var at := Iterate(WordMachine(env, insts), m, c); at.Running? ==> Begins(prog, at.pc)
    ensures n <= m && Iterate(ListMachine(env, prog, |insts|), n, c) == Iterate(WordMachine(env, insts), m, c)
  {
    Simulation(env, plat, insts, prog);
    var inside;
    n, inside := WordsAreList(WordMachine(env, insts), ListMachine(env, prog, |insts|),
      (d: Config<M>) => Matching(prog, |insts|, d), (d: Config<M>) => InPair(plat, insts, d), c, m);
    if inside {
      InsideIsNoLabel(env, plat, insts, prog, Iterate(ListMachine(env, prog, |insts|), n, c));
    }
  }

  lemma InsideIsNoLabel<M>(env: Env<M>, plat: Platform, insts: seq<Inst>, prog: seq<LabeledInstruction>, c: Config<M>)
    requires DecodeFrom(plat, insts, 0) == Some(prog) && Matching(prog, |insts|, c) && InPair(plat, insts, c)
    ensures WordStep(env, insts, c).Running? && !Begins(prog, WordStep(env, insts, c).pc)
  {
    var i :| 0 <= i < |prog| && prog[i].lab.from == c.pc;
    LabelsIncrease(plat, insts, prog, i);
    assert WordStep(env, insts, c).pc == c.pc + 1;
    if Begins(prog, c.pc + 1) {
      var j :| 0 <= j < |prog| && prog[j].lab.from == c.pc + 1;
      if i < j {
        LabelsGrow(plat, insts, prog, i, j);
      } else if j < i {
        LabelsGrow(plat, insts, prog, j, i);
      }
    }
  }

  /** Later labels are larger by more than the words in between. */
  lemma {:induction false} ListingGrows(
    read: nat -> Option<Decoded>, end: nat, prog: seq<LabeledInstruction>, i: nat, j: nat)
    requires (forall k :: 0 <= k < |prog| ==> StandsAs(read, end, prog, k)) && i < j < |prog|
    ensures prog[j].lab.from >= NextPc(prog, i, end) > prog[i].lab.from
  {
    assert StandsAs(read, end, prog, i) && StandsAs(read, end, prog, j - 1);
    if i + 1 < j {
      ListingGrows(read, end, prog, i, j - 1);
    }
  }

  lemma LabelsGrow(plat: Platform, insts: seq<Inst>, prog: seq<LabeledInstruction>, i: nat, j: nat)
    requires DecodeFrom(plat, insts, 0) == Some(prog) && i < j < |prog|
    ensures prog[j].lab.from >= NextPc(prog, i, |insts|) > prog[i].lab.from
  {
    forall k | 0 <= k < |prog|
      ensures StandsAs(Reader(plat, insts), |insts|, prog, k)
    {
      LabelsIncrease(plat, insts, prog, k);
    }
    ListingGrows(Reader(plat, insts), |insts|, prog, i, j);
  }
}
