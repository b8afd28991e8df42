/** What is encoded is decoded again. */
module RoundTrip {
  import opened AsmSyntax
  import opened EbpfVmIsa
  import opened InstructionSeqToCfg
  import opened AsmUnmarshal
  import opened AsmMarshal

  // ----- what a program may look like -----

  predicate ValueOk(v: Value) {
    v.Reg? ==> v.reg <= R10
  }

  predicate IsDivMul(op: BinOp) {
    op.MUL? || op.UDIV? || op.SDIV? || op.UMOD? || op.SMOD?
  }

  predicate IsMoveSx(op: BinOp) {
    op.MOVSX8? || op.MOVSX16? || op.MOVSX32?
  }

  predicate BinOk(plat: Platform, ins: Instruction)
    requires ins.Bin?
  {
    if ins.lddw then
      ins.binOp == MOV && ins.is64 && ins.dst <= R10 && plat.supports(Base64)
    else
      && ins.dst < R10 && ValueOk(ins.v) && plat.supports(if ins.is64 then Base64 else Base32)
      && (IsMoveSx(ins.binOp) ==> ins.v.Reg?)
      && (IsDivMul(ins.binOp) ==> plat.supports(if ins.is64 then Divmul64 else Divmul32))
  }

  /** A byte swap is of 64 bits if it is unconditional, and of 32 if it depends on the
      byte order. */
  predicate UnOk(plat: Platform, ins: Instruction)
    requires ins.Un?
  {
    && ins.dst < R10 && plat.supports(if ins.is64 then Base64 else Base32)
    && (!ins.unOp.NEG? ==>
          && ins.is64 == (ins.unOp.SWAP16? || ins.unOp.SWAP32? || ins.unOp.SWAP64?)
          && plat.supports(if ins.unOp.BE64? || ins.unOp.LE64? || ins.unOp.SWAP64? then Base64 else Base32))
  }

  predicate JmpOk(plat: Platform, ins: Instruction, pc: nat)
    requires ins.Jmp?
  {
    && plat.supports(Base32) && plat.supports(Base64) && ins.target == InstructionLabel(ins.target.from)
    && match ins.cond
       case None => true
       case Some(c) => c.is64 && c.left <= R10 && ValueOk(c.right) && Fits16(ins.target.from - pc - 1)
  }

  predicate MemOk(plat: Platform, ins: Instruction)
    requires ins.Mem?
  {
    && plat.supports(if ins.access.width == 8 then Base64 else Base32)
    && ins.access.basereg <= R10 && ValueOk(ins.value) && (ins.isLoad && ins.value.Reg? ==> ins.value.reg < R10)
  }

  predicate PacketOk(plat: Platform, ins: Instruction)
    requires ins.Packet?
  {
    && plat.supports(Base32) && plat.supports(GroupPacket) && ins.width != 8
    && (ins.regoffset.Some? ==> ins.regoffset.value <= R10)
  }

  predicate AtomicOk(plat: Platform, ins: Instruction)
    requires ins.Atomic?
  {
    && (ins.access.width == 4 || ins.access.width == 8)
    && plat.supports(if ins.access.width == 8 then Base64 else Base32)
    && plat.supports(if ins.access.width == 8 then Atomic64 else Atomic32)
    && ins.access.basereg <= R10 && ins.valreg <= R10
    && (ins.atomicOp.AtomicXchg? || ins.atomicOp.AtomicCmpXchg? ==> ins.fetch)
  }

  /** Registers exist, helpers can be called, conditions are of 64 bits and reach their
      target with 16 bits, and there are no local calls. */
  predicate Canonical(plat: Platform, ins: Instruction, pc: nat) {
    match ins
    case Bin(_, _, _, _, _) => BinOk(plat, ins)
    case Un(_, _, _) => UnOk(plat, ins)
    case LoadMapFd(dst, _) => dst <= R10 && plat.supports(Base64)
    case Call(func) => plat.supports(Base32) && plat.isHelperUsable(func) && plat.hasPrototype(func)
    case Callx(r) => r <= R10 && plat.supports(GroupCallx) && plat.supports(Base32)
    case Exit(prefix) => prefix == "" && plat.supports(Base32)
    case Jmp(_, _) => JmpOk(plat, ins, pc)
    case Mem(_, _, _) => MemOk(plat, ins)
    case Packet(_, _, _) => PacketOk(plat, ins)
    case Atomic(_, _, _, _) => AtomicOk(plat, ins)
    case _ => false
  }

  // ----- one word -----

  lemma BinRoundTrip(plat: Platform, ins: Instruction)
    requires ins.Bin? && !ins.lddw && BinOk(plat, ins) && EncodeBin(ins.binOp, ins.dst, ins.v, ins.is64).Some?
    ensures var w := EncodeBin(ins.binOp, ins.dst, ins.v, ins.is64).value;
            && MakeAluOp(plat, w) == Some(ins)
            && Class(w.opcode) == (if ins.is64 then CLS_ALU64 else CLS_ALU)
  {
  }

  lemma UnRoundTrip(plat: Platform, ins: Instruction)
    requires ins.Un? && UnOk(plat, ins)
    ensures var w := EncodeUn(ins.unOp, ins.dst, ins.is64);
            && MakeAluOp(plat, w) == Some(ins)
            && Class(w.opcode) == (if ins.is64 then CLS_ALU64 else CLS_ALU)
  {
  }

  lemma MemRoundTrip(plat: Platform, ins: Instruction)
    requires ins.Mem? && MemOk(plat, ins) && EncodeMem(ins.access, ins.value, ins.isLoad).Some?
    ensures var w := EncodeMem(ins.access, ins.value, ins.isLoad).value;
            MakeMemOp(plat, w) == Some(ins) && Class(w.opcode) in {CLS_LDX, CLS_ST, CLS_STX}
  {
  }

  lemma PacketRoundTrip(plat: Platform, ins: Instruction)
    requires ins.Packet? && PacketOk(plat, ins) && EncodePacket(ins.width, ins.offset, ins.regoffset).Some?
    ensures var w := EncodePacket(ins.width, ins.offset, ins.regoffset).value;
            MakeMemOp(plat, w) == Some(ins) && Class(w.opcode) == CLS_LD && w.opcode != OP_LDDW_IMM && w.opcode != 0
  {
  }

  lemma AtomicRoundTrip(plat: Platform, ins: Instruction)
    requires ins.Atomic? && AtomicOk(plat, ins) && EncodeAtomic(ins.atomicOp, ins.fetch, ins.access, ins.valreg).Some?
    ensures var w := EncodeAtomic(ins.atomicOp, ins.fetch, ins.access, ins.valreg).value;
            MakeMemOp(plat, w) == Some(ins) && Class(w.opcode) == CLS_STX
  {
  }

  /** The target is a place where an instruction begins. */
  ghost predicate Lands(insts: seq<Inst>, target: Label) {
    0 <= target.from < |insts| && target.from <= INT_MAX && insts[target.from].opcode != 0
  }

  lemma JmpRoundTrip(plat: Platform, insts: seq<Inst>, ins: Instruction, pc: nat)
    requires ins.Jmp? && JmpOk(plat, ins, pc) && Lands(insts, ins.target) && EncodeJmp(ins.cond, ins.target, pc).Some?
    ensures var w := EncodeJmp(ins.cond, ins.target, pc).value;
            && MakeJmp(plat, w, insts, pc) == Some(ins)
            && (Class(w.opcode) == CLS_JMP || Class(w.opcode) == CLS_JMP32)
  {
    var w := EncodeJmp(ins.cond, ins.target, pc).value;
    var offset := if w.opcode == OP_JA32 then w.imm else w.offset;
    assert pc + 1 + offset == ins.target.from;
    assert GetJumpTarget(offset, insts, pc) == Some(ins.target);
  }

  /** A conditional jump survives exactly if it is of 64 bits and 16 bits reach its target:
      the width is not encoded, and a far target is encoded as the next instruction. */
  lemma CondJumpIff(plat: Platform, insts: seq<Inst>, ins: Instruction, pc: nat)
    requires ins.Jmp? && ins.cond.Some? && plat.supports(Base64) && pc <= INT_MAX
    requires ins.target == InstructionLabel(ins.target.from) && Lands(insts, ins.target)
    requires ins.cond.value.left <= R10 && ValueOk(ins.cond.value.right) && EncodeJmp(ins.cond, ins.target, pc).Some?
    ensures MakeJmp(plat, EncodeJmp(ins.cond, ins.target, pc).value, insts, pc) == Some(ins)
       <==> ins.cond.value.is64 && Fits16(ins.target.from - pc - 1)
  {
    var w := EncodeJmp(ins.cond, ins.target, pc).value;
    assert Class(w.opcode) == CLS_JMP && w.opcode != OP_JA32 && JumpCode(w.opcode) !in {0x0, 0x8, 0x9};
    if Fits16(ins.target.from - pc - 1) {
      assert GetJumpTarget(w.offset, insts, pc) == Some(ins.target);
    } else {
      assert w.offset == 0;
      assert (pc + 1) % TWO_32 != ins.target.from;
    }
  }

  /** A local call survives exactly if it goes to the next instruction, or further than 16 bits reach:
      otherwise its distance is written as zero. */
  lemma LocalCallIff(plat: Platform, insts: seq<Inst>, ins: Instruction, pc: nat)
    requires ins.CallLocal? && ins.framePrefix == "" && plat.supports(Base32) && pc <= INT_MAX
    requires ins.target == InstructionLabel(ins.target.from) && Lands(insts, ins.target) && Encode(ins, pc).Some?
    ensures |Encode(ins, pc).value| == 1
    ensures MakeJmp(plat, Encode(ins, pc).value[0], insts, pc) == Some(ins)
       <==> ins.target.from == pc + 1 || !Fits16(ins.target.from - pc - 1)
  {
    var w := Encode(ins, pc).value[0];
    assert JumpCode(w.opcode) == 0x8 && Class(w.opcode) == CLS_JMP && !HasSrcReg(w.opcode);
    if ins.target.from != pc + 1 && Fits16(ins.target.from - pc - 1) {
      assert w.imm == 0 && (pc + 1) % TWO_32 != ins.target.from;
    } else {
      assert GetJumpTarget(w.imm, insts, pc) == Some(ins.target);
    }
  }

  lemma CallRoundTrip(plat: Platform, insts: seq<Inst>, ins: Instruction, pc: nat)
    requires (ins.Call? || ins.Callx? || ins.Exit?) && Canonical(plat, ins, pc)
    ensures Encode(ins, pc).Some? && |Encode(ins, pc).value| == 1
    ensures var w := Encode(ins, pc).value[0];
            MakeJmp(plat, w, insts, pc) == Some(ins) && Class(w.opcode) == CLS_JMP
  {
  }

  // ----- one instruction -----

  /** The words of the instruction are at the pc. */
  ghost predicate At(insts: seq<Inst>, pc: nat, words: seq<Inst>) {
    pc + |words| <= |insts| && forall k :: 0 <= k < |words| ==> insts[pc + k] == words[k]
  }

  lemma AtSplit(insts: seq<Inst>, pc: nat, first: seq<Inst>, rest: seq<Inst>)
    requires At(insts, pc, first + rest)
    ensures At(insts, pc, first) && At(insts, pc + |first|, rest)
  {
    var words := first + rest;
    forall k | 0 <= k < |first|
      ensures insts[pc + k] == first[k]
    {
      assert insts[pc + k] == words[k];
    }
    forall k | 0 <= k < |rest|
      ensures insts[pc + |first| + k] == rest[k]
    {
      assert insts[pc + (|first| + k)] == words[|first| + k];
    }
  }

  /** The next word does not complete a pair of shifts. */
  ghost predicate NoFusion(plat: Platform, insts: seq<Inst>, pc: nat, ins: Instruction) {
    ins.Bin? && ins == Shift32(if ins.dst < 16 then ins.dst else 0, LSH) && pc + 1 < |insts|
    && Class(insts[pc + 1].opcode) == CLS_ALU64 ==>
      var next := MakeAluOp(plat, insts[pc + 1]);
      next.Some? && next.value != Shift32(ins.dst, RSH) && next.value != Shift32(ins.dst, ARSH)
  }

  lemma AluDecodes(plat: Platform, insts: seq<Inst>, pc: nat, ins: Instruction)
    requires pc < |insts| && pc <= INT_MAX && (ins.Un? || (ins.Bin? && !ins.lddw)) && ins.dst == insts[pc].dst
    requires MakeAluOp(plat, insts[pc]) == Some(ins) && Class(insts[pc].opcode) in {CLS_ALU, CLS_ALU64}
    requires NoFusion(plat, insts, pc, ins)
    ensures DecodeAt(plat, insts, pc) == Some(Decoded(ins, 1))
  {
  }

  lemma LddwRoundTrip(plat: Platform, insts: seq<Inst>, pc: nat, ins: Instruction)
    requires pc <= INT_MAX && Canonical(plat, ins, pc) && (ins.LoadMapFd? || (ins.Bin? && ins.lddw))
    requires Encode(ins, pc).Some? && At(insts, pc, Encode(ins, pc).value)
    ensures |Encode(ins, pc).value| == 2 && DecodeAt(plat, insts, pc) == Some(Decoded(ins, 2))
  {
    var words := Encode(ins, pc).value;
    assert insts[pc] == words[0] && insts[pc + 1] == words[1];
    if ins.Bin? {
      MergeOfSplit(ins.v.imm);
    }
  }

  /** An instruction decodes to itself where its words stand. */
  lemma InstructionRoundTrip(plat: Platform, insts: seq<Inst>, pc: nat, ins: Instruction)
    requires pc <= INT_MAX && Canonical(plat, ins, pc) && Encode(ins, pc).Some? && At(insts, pc, Encode(ins, pc).value)
    requires ins.Jmp? ==> Lands(insts, ins.target)
    requires NoFusion(plat, insts, pc, ins)
    ensures |Encode(ins, pc).value| == SizeOf(ins)
    ensures DecodeAt(plat, insts, pc) == Some(Decoded(ins, SizeOf(ins)))
  {
    var words := Encode(ins, pc).value;
    if SizeOf(ins) == 2 {
      LddwRoundTrip(plat, insts, pc, ins);
      return;
    }
    assert insts[pc] == words[0];
    match ins
    case Bin(_, _, _, _, _) =>
      BinRoundTrip(plat, ins);
      AluDecodes(plat, insts, pc, ins);
    case Un(_, _, _) =>
      UnRoundTrip(plat, ins);
      AluDecodes(plat, insts, pc, ins);
    case Jmp(_, _) => JmpRoundTrip(plat, insts, ins, pc);
    case Mem(_, _, _) => MemRoundTrip(plat, ins);
    case Packet(_, _, _) => PacketRoundTrip(plat, ins);
    case Atomic(_, _, _, _) => AtomicRoundTrip(plat, ins);
    case _ => CallRoundTrip(plat, insts, ins, pc);
  }

  /** No instruction begins with the opcode of a second word. */
  lemma FirstWord(plat: Platform, ins: Instruction, pc: nat)
    requires Canonical(plat, ins, pc) && Encode(ins, pc).Some?
    ensures |Encode(ins, pc).value| == SizeOf(ins) && Encode(ins, pc).value[0].opcode != 0
  {
    match ins
    case Bin(_, _, _, _, lddw) =>
      if !lddw {
        BinRoundTrip(plat, ins);
      }
    case Un(_, _, _) => UnRoundTrip(plat, ins);
    case Mem(_, _, _) => MemRoundTrip(plat, ins);
    case Packet(_, _, _) => PacketRoundTrip(plat, ins);
    case Atomic(_, _, _, _) => AtomicRoundTrip(plat, ins);
    case _ =>
  }

  /** When marshal does not throw: immediates are not negative, widths and offsets exist. */
  predicate Encodable(ins: Instruction, pc: nat) {
    match ins
    case Bin(_, _, v, _, lddw) => if lddw then v.Imm? else v.Imm? ==> v.imm <= INT32_MAX
    case Jmp(None, target) => Fits32(target.from - pc - 1)
    case Jmp(Some(c), _) => c.op != NSET && (c.right.Imm? ==> c.right.imm <= INT32_MAX)
    case Mem(access, value, isLoad) =>
      && access.width in {1, 2, 4, 8} && Fits16(access.offset)
      && (value.Imm? ==> !isLoad && value.imm <= INT32_MAX)
    case Packet(width, _, _) => width in {1, 2, 4}
    case Atomic(_, _, access, _) => Fits16(access.offset)
    case _ => true
  }

  lemma EncodeDefinedIff(plat: Platform, ins: Instruction, pc: nat)
    requires Canonical(plat, ins, pc)
    ensures Encode(ins, pc).Some? <==> Encodable(ins, pc)
  {
  }

  /** So an addition of a negative number can be decoded and never encoded again. */
  lemma NegativeIsLost(plat: Platform, w: Inst)
    requires w.imm < 0 && !HasSrcReg(w.opcode) && MakeAluOp(plat, w).Some? && MakeAluOp(plat, w).value.Bin?
    ensures Encode(MakeAluOp(plat, w).value, 0) == None
  {
  }

  /** For example r1 += -1. */
  lemma NegativeExample(plat: Platform)
    requires plat.supports(Base64)
    ensures var w, ins := Inst(0x07, 1, 0, 0, -1), Bin(ADD, 1, Imm(TWO_64 - 1), true, false);
            MakeAluOp(plat, w) == Some(ins) && Encode(ins, 0) == None
  {
  }

  // ----- a program -----

  /** Instructions labelled by their pc, from a pc on, with jumps to labels only. */
  ghost predicate Labelled(plat: Platform, prog: seq<LabeledInstruction>, pc: nat, labels: map<Label, nat>) {
    prog != [] ==>
    && pc <= INT_MAX && prog[0].lab == InstructionLabel(pc)
    && Canonical(plat, prog[0].ins, pc) && (prog[0].ins.Jmp? ==> prog[0].ins.target in labels)
    && Labelled(plat, prog[1..], pc + SizeOf(prog[0].ins), labels)
  }

  /** A shift left by 32 followed by a shift right by 32 of the same register. */
  predicate ShiftPair(a: Instruction, b: Instruction) {
    a.Bin? && a.dst < 16 && a == Shift32(a.dst, LSH) && (b == Shift32(a.dst, RSH) || b == Shift32(a.dst, ARSH))
  }

  ghost predicate NoShiftPair(prog: seq<LabeledInstruction>) {
    forall i :: 0 <= i < |prog| - 1 ==> !ShiftPair(prog[i].ins, prog[i + 1].ins)
  }

  lemma {:induction false} LabelsArePcs(plat: Platform, prog: seq<LabeledInstruction>, pc: nat, labels: map<Label, nat>)
    requires Labelled(plat, prog, pc, labels)
    ensures forall l :: l in PcOfLabels(prog, pc) ==>
              l == InstructionLabel(PcOfLabels(prog, pc)[l]) && PcOfLabels(prog, pc)[l] <= INT_MAX
  {
    if prog != [] {
      LabelsArePcs(plat, prog[1..], pc + SizeOf(prog[0].ins), labels);
    }
  }

  /** Resolving a jump changes nothing when labels are pcs. */
  lemma Unresolved(plat: Platform, ins: Instruction, pc: nat, pcOf: map<Label, nat>)
    requires Canonical(plat, ins, pc) && (ins.Jmp? ==> ins.target in pcOf)
    requires forall l :: l in pcOf ==> l == InstructionLabel(pcOf[l]) && pcOf[l] <= INT_MAX
    ensures Resolve(ins, pcOf) == Some(ins)
  {
  }

  /** What EncodeAll makes of the first instruction. */
  lemma EncodeFirst(
    plat: Platform, prog: seq<LabeledInstruction>, pc: nat, pcOf: map<Label, nat>, words: seq<Inst>)
    returns (first: seq<Inst>, rest: seq<Inst>)
    requires prog != [] && Labelled(plat, prog, pc, pcOf) && EncodeAll(prog, pcOf, pc) == Some(words)
    requires forall l :: l in pcOf ==> l == InstructionLabel(pcOf[l]) && pcOf[l] <= INT_MAX
    ensures Encode(prog[0].ins, pc) == Some(first) && |first| == SizeOf(prog[0].ins) && first[0].opcode != 0
    ensures EncodeAll(prog[1..], pcOf, pc + |first|) == Some(rest) && words == first + rest
  {
    var ins := prog[0].ins;
    Unresolved(plat, ins, pc, pcOf);
    first := EncodeResolved(ins, pcOf, pc).value;
    FirstWord(plat, ins, pc);
    rest := EncodeAll(prog[1..], pcOf, pc + |first|).value;
  }

  /** Every instruction can be encoded where it stands. */
  predicate AllEncodable(prog: seq<LabeledInstruction>, pc: nat) {
    prog != [] ==> Encodable(prog[0].ins, pc) && AllEncodable(prog[1..], pc + SizeOf(prog[0].ins))
  }

  /** The whole of marshal throws exactly if one instruction cannot be encoded where it stands. */
  lemma {:induction false} EncodesIff(
    plat: Platform, prog: seq<LabeledInstruction>, pc: nat, pcOf: map<Label, nat>)
    requires Labelled(plat, prog, pc, pcOf)
    requires forall l :: l in pcOf ==> l == InstructionLabel(pcOf[l]) && pcOf[l] <= INT_MAX
    ensures EncodeAll(prog, pcOf, pc).Some? <==> AllEncodable(prog, pc)
  {
    if prog != [] {
      var ins := prog[0].ins;
      Unresolved(plat, ins, pc, pcOf);
      EncodeDefinedIff(plat, ins, pc);
      if Encode(ins, pc).Some? {
        FirstWord(plat, ins, pc);
        EncodesIff(plat, prog[1..], pc + SizeOf(ins), pcOf);
      }
    }
  }

  lemma MarshalsIff(plat: Platform, prog: seq<LabeledInstruction>)
    requires Labelled(plat, prog, 0, PcOfLabels(prog, 0))
    ensures EncodeAll(prog, PcOfLabels(prog, 0), 0).Some? <==> AllEncodable(prog, 0)
  {
    LabelsArePcs(plat, prog, 0, PcOfLabels(prog, 0));
    EncodesIff(plat, prog, 0, PcOfLabels(prog, 0));
  }

  /** The words of each instruction in turn, the first of them with an opcode. */
  ghost predicate Laid(prog: seq<LabeledInstruction>, words: seq<Inst>) {
    prog != [] ==>
      && SizeOf(prog[0].ins) <= |words| && words[0].opcode != 0 && Laid(prog[1..], words[SizeOf(prog[0].ins)..])
  }

  lemma {:induction false} EncodedIsLaid(
    plat: Platform, prog: seq<LabeledInstruction>, pc: nat, pcOf: map<Label, nat>, words: seq<Inst>)
    requires Labelled(plat, prog, pc, pcOf) && EncodeAll(prog, pcOf, pc) == Some(words)
    requires forall l :: l in pcOf ==> l == InstructionLabel(pcOf[l]) && pcOf[l] <= INT_MAX
    ensures Laid(prog, words)
  {
    if prog != [] {
      var first, rest := EncodeFirst(plat, prog, pc, pcOf, words);
      EncodedIsLaid(plat, prog[1..], pc + |first|, pcOf, rest);
      assert words[|first|..] == rest;
    }
  }

  /** Labels are places where instructions begin. */
  lemma {:induction false} LabelsLand(prog: seq<LabeledInstruction>, pc: nat, words: seq<Inst>, l: Label)
    requires Laid(prog, words) && l in PcOfLabels(prog, pc)
    ensures FirstWordAt(words, PcOfLabels(prog, pc)[l] - pc)
  {
    var size := SizeOf(prog[0].ins);
    if l in PcOfLabels(prog[1..], pc + size) {
      LabelsLand(prog[1..], pc + size, words[size..], l);
    }
  }

  ghost predicate FirstWordAt(words: seq<Inst>, at: int) {
    0 <= at < |words| && words[at].opcode != 0
  }

  /** If the next word is arithmetic, it is the next instruction. */
  lemma NextIsNoPair(
    plat: Platform, prog: seq<LabeledInstruction>, pc: nat, pcOf: map<Label, nat>, insts: seq<Inst>, words: seq<Inst>)
    requires prog != [] && Labelled(plat, prog, pc, pcOf) && EncodeAll(prog, pcOf, pc) == Some(words)
    requires forall l :: l in pcOf ==> l == InstructionLabel(pcOf[l]) && pcOf[l] <= INT_MAX
    requires NoShiftPair(prog) && At(insts, pc, words) && pc + |words| == |insts|
    ensures NoFusion(plat, insts, pc, prog[0].ins)
  {
    var first, rest := EncodeFirst(plat, prog, pc, pcOf, words);
    AtSplit(insts, pc, first, rest);
    if |first| == 1 && |prog| > 1 {
      var next := prog[1..];
      var second, more := EncodeFirst(plat, next, pc + 1, pcOf, rest);
      assert insts[pc + 1 + 0] == rest[0] == second[0];
      assert !ShiftPair(prog[0].ins, prog[1].ins);
      NoPairHere(plat, insts, pc, prog[0].ins, next[0].ins);
    }
  }

  lemma NoPairHere(plat: Platform, insts: seq<Inst>, pc: nat, a: Instruction, b: Instruction)
    requires Canonical(plat, b, pc + 1) && Encode(b, pc + 1).Some? && |Encode(b, pc + 1).value| == SizeOf(b)
    requires pc + 1 < |insts| && insts[pc + 1] == Encode(b, pc + 1).value[0] && !ShiftPair(a, b)
    ensures NoFusion(plat, insts, pc, a)
  {
    NextIsAlu(plat, b, pc + 1);
  }

  lemma NextIsAlu(plat: Platform, ins: Instruction, pc: nat)
    requires Canonical(plat, ins, pc) && Encode(ins, pc).Some? && |Encode(ins, pc).value| == SizeOf(ins)
    ensures var w := Encode(ins, pc).value[0];
            Class(w.opcode) == CLS_ALU64 ==> MakeAluOp(plat, w) == Some(ins)
  {
    match ins
    case Bin(_, _, _, _, lddw) =>
      if !lddw {
        BinRoundTrip(plat, ins);
      }
    case Un(_, _, _) => UnRoundTrip(plat, ins);
    case Mem(_, _, _) => MemRoundTrip(plat, ins);
    case Packet(_, _, _) => PacketRoundTrip(plat, ins);
    case Atomic(_, _, _, _) => AtomicRoundTrip(plat, ins);
    case _ =>
  }

  lemma FirstDecodes(
    plat: Platform, prog: seq<LabeledInstruction>, pc: nat, pcOf: map<Label, nat>, insts: seq<Inst>, words: seq<Inst>)
    returns (first: seq<Inst>, rest: seq<Inst>)
    requires prog != [] && Labelled(plat, prog, pc, pcOf) && EncodeAll(prog, pcOf, pc) == Some(words)
    requires NoShiftPair(prog)
    requires forall l :: l in pcOf ==> l == InstructionLabel(pcOf[l]) && pcOf[l] <= INT_MAX && Lands(insts, l)
    requires At(insts, pc, words) && pc + |words| == |insts|
    ensures |first| == SizeOf(prog[0].ins) && words == first + rest && pc < |insts|
    ensures DecodeAt(plat, insts, pc) == Some(Decoded(prog[0].ins, |first|))
    ensures EncodeAll(prog[1..], pcOf, pc + |first|) == Some(rest) && At(insts, pc + |first|, rest)
  {
    first, rest := EncodeFirst(plat, prog, pc, pcOf, words);
    NextIsNoPair(plat, prog, pc, pcOf, insts, words);
    AtSplit(insts, pc, first, rest);
    InstructionRoundTrip(plat, insts, pc, prog[0].ins);
  }

  lemma DecodeOneMore(
    plat: Platform, insts: seq<Inst>, pc: nat, prog: seq<LabeledInstruction>, size: nat)
    requires prog != [] && pc < |insts| && prog[0].lab == InstructionLabel(pc)
    requires DecodeAt(plat, insts, pc) == Some(Decoded(prog[0].ins, size))
    requires DecodeFrom(plat, insts, pc + size) == Some(prog[1..])
    ensures DecodeFrom(plat, insts, pc) == Some(prog)
  {
    assert prog == [prog[0]] + prog[1..];
  }

  lemma {:induction false} DecodesFrom(
    plat: Platform, prog: seq<LabeledInstruction>, pc: nat, pcOf: map<Label, nat>, insts: seq<Inst>, words: seq<Inst>)
    requires Labelled(plat, prog, pc, pcOf) && EncodeAll(prog, pcOf, pc) == Some(words) && NoShiftPair(prog)
    requires forall l :: l in pcOf ==> l == InstructionLabel(pcOf[l]) && pcOf[l] <= INT_MAX && Lands(insts, l)
    requires At(insts, pc, words) && pc + |words| == |insts|
    ensures DecodeFrom(plat, insts, pc) == Some(prog)
    decreases prog
  {
    if prog != [] {
      var first, rest := FirstDecodes(plat, prog, pc, pcOf, insts, words);
      DecodesFrom(plat, prog[1..], pc + |first|, pcOf, insts, rest);
      DecodeOneMore(plat, insts, pc, prog, |first|);
    }
  }

  /** The round trip: whatever marshal makes of a program labelled by its pcs, unmarshal
      reads back as the same program. */
  lemma MarshalUnmarshal(plat: Platform, prog: seq<LabeledInstruction>)
    requires var pcOf := PcOfLabels(prog, 0);
             Labelled(plat, prog, 0, pcOf) && NoShiftPair(prog) && EncodeAll(prog, pcOf, 0).Some?
    ensures DecodeFrom(plat, EncodeAll(prog, PcOfLabels(prog, 0), 0).value, 0) == Some(prog)
  {
    var pcOf := PcOfLabels(prog, 0);
    var words := EncodeAll(prog, pcOf, 0).value;
    LabelsArePcs(plat, prog, 0, pcOf);
    EncodedIsLaid(plat, prog, 0, pcOf, words);
    forall l | l in pcOf
      ensures Lands(words, l)
    {
      LabelsLand(prog, 0, words, l);
    }
    DecodesFrom(plat, prog, 0, pcOf, words, words);
  }

  /** The same of the methods. */
  method RoundTrips(plat: Platform, prog: seq<LabeledInstruction>)
    returns (words: Option<seq<Inst>>, again: Option<seq<LabeledInstruction>>)
    requires Labelled(plat, prog, 0, PcOfLabels(prog, 0)) && NoShiftPair(prog) && prog != []
    ensures words.Some? ==> again == Some(prog)
  {
    words := Marshal(prog);
    if words.None? {
      return words, None;
    }
    MarshalUnmarshal(plat, prog);
    again := Unmarshal(plat, words.value);
  }
}
