/** Which instruction words are accepted (src/asm_unmarshal.cpp): a table of the opcodes and of what
    the fields of a word may hold, in the manner of appendix A of RFC 9669, and the proof that the
    decoder accepts exactly what is in the table. */
module WellFormedWords {
  import opened AsmSyntax
  import opened EbpfVmIsa
  import opened AsmUnmarshal

  /** The second operand is a register and there is no immediate, or the other way round. */
  predicate OperandIsOk(register: bool, w: Inst) {
    if register then w.src <= 10 && w.imm == 0 else w.src == 0
  }

  // ----- arithmetic -----

  /** The lower half of an arithmetic opcode: 32 or 64 bits, immediate or register. */
  predicate IsAluOpcode(op: bv8) {
    op & 0x0f in {0x04, 0x0c, 0x07, 0x0f}
  }

  predicate IsAluWord(plat: Platform, w: Inst) {
    var wide, register := w.opcode & 0x0f in {0x07, 0x0f}, w.opcode & 0x0f in {0x0c, 0x0f};
    var divmul := plat.supports(if wide then Divmul64 else Divmul32);
    && IsAluOpcode(w.opcode) && plat.supports(if wide then Base64 else Base32) && w.dst < 10
    && match w.opcode >> 4
       // add, sub, or, and, lsh, rsh, xor, arsh
       case 0x0 | 0x1 | 0x4 | 0x5 | 0x6 | 0x7 | 0xa | 0xc => w.offset == 0 && OperandIsOk(register, w)
       // mul
       case 0x2 => divmul && w.offset == 0 && OperandIsOk(register, w)
       // div, mod
       case 0x3 | 0x9 => divmul && w.offset in {0, 1} && OperandIsOk(register, w)
       // mov, movsx
       case 0xb => (w.offset == 0 || (register && w.offset in {8, 16, 32})) && OperandIsOk(register, w)
       // neg
       case 0x8 => !register && w.src == 0 && w.offset == 0 && w.imm == 0
       // le and be, or swap
       case 0xd =>
         && !(wide && register) && w.src == 0 && w.offset == 0
         && ((w.imm in {16, 32} && plat.supports(Base32)) || (w.imm == 64 && plat.supports(Base64)))
       case _ => false
  }

  // ----- jumps -----

  /** The lower half of the opcode of a jump. */
  predicate IsJumpOpcode(op: bv8) {
    op & 0x0f in {0x05, 0x0d, 0x06, 0x0e}
  }

  /** The distance leads into the program, and not to the second word of lddw. */
  predicate IsTarget(insts: seq<Inst>, pc: nat, distance: int) {
    var target := pc + 1 + distance;
    0 <= target < |insts| && target <= INT_MAX && insts[target].opcode != 0
  }

  predicate IsJumpWord(plat: Platform, w: Inst, insts: seq<Inst>, pc: nat) {
    var wide, register := w.opcode & 0x0f in {0x05, 0x0d}, w.opcode & 0x0f in {0x0d, 0x0e};
    && IsJumpOpcode(w.opcode)
    && match w.opcode >> 4
       // ja, with the distance in the offset or in the immediate
       case 0x0 =>
         && plat.supports(Base32) && (wide ==> plat.supports(Base64)) && !register && w.dst == 0 && w.src == 0
         && if wide then w.imm == 0 && IsTarget(insts, pc, w.offset) else w.offset == 0 && IsTarget(insts, pc, w.imm)
       // jeq, jgt, jge, jset, jne, jsgt, jsge, jlt, jle, jslt, jsle
       case 0x1 | 0x2 | 0x3 | 0x4 | 0x5 | 0x6 | 0x7 | 0xa | 0xb | 0xc | 0xd =>
         && plat.supports(if wide then Base64 else Base32) && w.dst <= 10 && OperandIsOk(register, w)
         && IsTarget(insts, pc, w.offset)
       case 0x8 => wide && plat.supports(Base32) && w.offset == 0 && IsCallWord(plat, register, w, insts, pc)
       // exit
       case 0x9 =>
         && wide && plat.supports(Base32) && !register
         && w.dst == 0 && w.src == 0 && w.offset == 0 && w.imm == 0
       case _ => false
  }

  predicate IsCallWord(plat: Platform, register: bool, w: Inst, insts: seq<Inst>, pc: nat) {
    // a local function
    || (!register && w.src == 1 && w.dst == 0 && IsTarget(insts, pc, w.imm))
    // a helper function
    || (!register && w.src == 0 && w.dst == 0 && plat.isHelperUsable(w.imm) && plat.hasPrototype(w.imm))
    // callx, with the register in dst or in the immediate
    || (register && w.src == 0 && plat.supports(GroupCallx)
        && ((w.imm == 0 && w.dst <= 10) || (w.dst == 0 && 0 < w.imm <= 10)))
  }

  // ----- memory -----

  /** A memory access: the registers exist, and each kind leaves some fields empty. */
  predicate IsMemoryWord(plat: Platform, w: Inst) {
    && w.dst <= 10 && w.src <= 10
    && match w.opcode
       // packet access
       case 0x20 | 0x28 | 0x30 =>
         plat.supports(Base32) && plat.supports(GroupPacket) && w.dst == 0 && w.src == 0 && w.offset == 0
       case 0x40 | 0x48 | 0x50 =>
         plat.supports(Base32) && plat.supports(GroupPacket) && w.dst == 0 && w.offset == 0
       // ldx, of which only the last has 64 bits; it does not write r10
       case 0x61 | 0x69 | 0x71 => plat.supports(Base32) && w.dst != 10 && w.imm == 0
       case 0x79 => plat.supports(Base64) && w.dst != 10 && w.imm == 0
       // st
       case 0x62 | 0x6a | 0x72 => plat.supports(Base32) && w.src == 0
       case 0x7a => plat.supports(Base64) && w.src == 0
       // stx
       case 0x63 | 0x6b | 0x73 => plat.supports(Base32) && w.imm == 0
       case 0x7b => plat.supports(Base64) && w.imm == 0
       // atomic
       case 0xc3 => plat.supports(Base32) && plat.supports(Atomic32) && IsAtomicOp(w.imm)
       case 0xdb => plat.supports(Base64) && plat.supports(Atomic64) && IsAtomicOp(w.imm)
       case _ => false
  }

  /** add, or, and, xor, each with fetch or without, xchg and cmpxchg. */
  predicate IsAtomicOp(imm: Int32) {
    imm in {0x00, 0x01, 0x40, 0x41, 0x50, 0x51, 0xa0, 0xa1, 0xe1, 0xf1}
  }

  // ----- two words -----

  /** lddw: the second word holds nothing but an immediate, and not even that for a map. */
  predicate IsLddw(plat: Platform, w: Inst, next: Inst) {
    && plat.supports(Base64) && w.dst <= 10 && w.offset == 0 && w.src in {0, 1} && (w.src == 1 ==> next.imm == 0)
    && next.opcode == 0 && next.dst == 0 && next.src == 0 && next.offset == 0
  }

  /** A shift of 64 bits to the left by 32. */
  predicate IsShiftLeft(w: Inst) {
    w.opcode == 0x67 && w.imm == 32
  }

  /** Followed by one of the same register to the right. */
  predicate IsShiftBack(w: Inst, next: Inst) {
    next.opcode in {0x77, 0xc7} && next.dst == w.dst && next.imm == 32
  }

  // ----- the word at a pc -----

  predicate IsWellFormed(plat: Platform, insts: seq<Inst>, pc: nat)
    requires pc < |insts|
  {
    var w := insts[pc];
    && pc <= INT_MAX
    && if w.opcode == 0x18 then pc + 1 < |insts| && IsLddw(plat, w, insts[pc + 1])
       else if IsAluOpcode(w.opcode) then
         && IsAluWord(plat, w)
         // the decoder looks at the arithmetic behind such a shift
         && (IsShiftLeft(w) && pc + 1 < |insts| && insts[pc + 1].opcode & 0x0f in {0x07, 0x0f} ==>
               IsAluWord(plat, insts[pc + 1]))
       else if IsJumpOpcode(w.opcode) then IsJumpWord(plat, w, insts, pc)
       else IsMemoryWord(plat, w)
  }

  predicate TakesTwoWords(insts: seq<Inst>, pc: nat)
    requires pc < |insts|
  {
    || insts[pc].opcode == 0x18
    || (IsShiftLeft(insts[pc]) && pc + 1 < |insts| && IsShiftBack(insts[pc], insts[pc + 1]))
  }

  // ----- the decoder accepts exactly this -----

  lemma AluOpcodes(op: bv8)
    ensures IsAluOpcode(op) <==> Class(op) == CLS_ALU || Class(op) == CLS_ALU64
    ensures IsAluOpcode(op) ==> (op & 0x0f in {0x07, 0x0f} <==> Class(op) == CLS_ALU64)
    ensures IsAluOpcode(op) ==> (op & 0x0f in {0x0c, 0x0f} <==> HasSrcReg(op))
    ensures op & 0x0f in {0x07, 0x0f} <==> Class(op) == CLS_ALU64
    ensures op >> 4 <= 0x0f && AluCode(op) == (op >> 4) << 4
  {
  }

  lemma AluIff(plat: Platform, w: Inst)
    requires Class(w.opcode) == CLS_ALU || Class(w.opcode) == CLS_ALU64
    ensures MakeAluOp(plat, w).Some? <==> IsAluWord(plat, w)
  {
    AluOpcodes(w.opcode);
  }

  lemma JumpOpcodes(op: bv8)
    ensures IsJumpOpcode(op) <==> Class(op) == CLS_JMP || Class(op) == CLS_JMP32
    ensures IsJumpOpcode(op) ==> (op & 0x0f in {0x05, 0x0d} <==> Class(op) == CLS_JMP)
    ensures IsJumpOpcode(op) ==> (op & 0x0f in {0x0d, 0x0e} <==> HasSrcReg(op))
    ensures JumpCode(op) == op >> 4
  {
  }

  lemma TargetIff(offset: Int32, insts: seq<Inst>, pc: nat)
    requires pc <= INT_MAX
    ensures GetJumpTarget(offset, insts, pc).Some? <==> IsTarget(insts, pc, offset)
  {
    var target := pc + 1 + offset;
    assert target < 0 ==> target % TWO_32 == target + TWO_32;
  }

  lemma CallIff(plat: Platform, w: Inst, insts: seq<Inst>, pc: nat)
    requires pc <= INT_MAX && JumpCode(w.opcode) == 0x8 && IsJumpOpcode(w.opcode)
    ensures MakeCall(plat, w, insts, pc).Some? <==> IsJumpWord(plat, w, insts, pc)
  {
    JumpOpcodes(w.opcode);
    TargetIff(w.imm, insts, pc);
  }

  lemma JumpIff(plat: Platform, w: Inst, insts: seq<Inst>, pc: nat)
    requires pc <= INT_MAX && (Class(w.opcode) == CLS_JMP || Class(w.opcode) == CLS_JMP32)
    ensures MakeJmp(plat, w, insts, pc).Some? <==> IsJumpWord(plat, w, insts, pc)
  {
    JumpOpcodes(w.opcode);
    TargetIff(w.imm, insts, pc);
    TargetIff(w.offset, insts, pc);
    GotoOpcodes(w.opcode);
    if JumpCode(w.opcode) == 0x8 {
      CallIff(plat, w, insts, pc);
    }
  }

  lemma GotoOpcodes(op: bv8)
    ensures op == OP_JA32 <==> JumpCode(op) == 0x0 && Class(op) == CLS_JMP32 && !HasSrcReg(op)
    ensures JumpCode(op) <= 0x0f
  {
  }

  lemma MemoryOpcodes(op: bv8)
    requires Class(op) !in {CLS_ALU, CLS_ALU64, CLS_JMP, CLS_JMP32}
    ensures op in {0x20, 0x28, 0x30} <==> Mode(op) == MODE_ABS && Class(op) == CLS_LD && Size(op) != 0x18
    ensures op in {0x40, 0x48, 0x50} <==> Mode(op) == MODE_IND && Class(op) == CLS_LD && Size(op) != 0x18
    ensures op in {0x61, 0x69, 0x71} <==> Mode(op) == MODE_MEM && Class(op) == CLS_LDX && Size(op) != 0x18
    ensures op == 0x79 <==> Mode(op) == MODE_MEM && Class(op) == CLS_LDX && Size(op) == 0x18
    ensures op in {0x62, 0x6a, 0x72} <==> Mode(op) == MODE_MEM && Class(op) == CLS_ST && Size(op) != 0x18
    ensures op == 0x7a <==> Mode(op) == MODE_MEM && Class(op) == CLS_ST && Size(op) == 0x18
    ensures op in {0x63, 0x6b, 0x73} <==> Mode(op) == MODE_MEM && Class(op) == CLS_STX && Size(op) != 0x18
    ensures op == 0x7b <==> Mode(op) == MODE_MEM && Class(op) == CLS_STX && Size(op) == 0x18
    ensures op == 0xc3 <==> Mode(op) == MODE_ATOMIC && Class(op) == CLS_STX && Size(op) == 0x00
    ensures op == 0xdb <==> Mode(op) == MODE_ATOMIC && Class(op) == CLS_STX && Size(op) == 0x18
    ensures Class(op) in {CLS_LD, CLS_LDX, CLS_ST, CLS_STX} && Size(op) in {0x00, 0x08, 0x10, 0x18}
    ensures op & 1 == 0 <==> Class(op) == CLS_LD || Class(op) == CLS_ST
  {
  }

  lemma AtomicIff(w: Inst)
    ensures GetAtomicOp(w).Some? <==> IsAtomicOp(w.imm)
  {
  }

  lemma MemoryIff(plat: Platform, w: Inst)
    requires Class(w.opcode) !in {CLS_ALU, CLS_ALU64, CLS_JMP, CLS_JMP32}
    ensures MakeMemOp(plat, w).Some? <==> IsMemoryWord(plat, w)
  {
    MemoryOpcodes(w.opcode);
    AtomicIff(w);
  }

  lemma ShiftIff(plat: Platform, w: Inst)
    requires MakeAluOp(plat, w).Some?
    ensures MakeAluOp(plat, w).value == Shift32(w.dst, LSH) <==> IsShiftLeft(w)
  {
    ShiftOpcodes(w.opcode);
  }

  lemma ShiftBackIff(plat: Platform, w: Inst, next: Inst)
    requires MakeAluOp(plat, next).Some?
    ensures MakeAluOp(plat, next).value in {Shift32(w.dst, RSH), Shift32(w.dst, ARSH)} <==> IsShiftBack(w, next)
  {
    ShiftOpcodes(next.opcode);
  }

  lemma ShiftOpcodes(op: bv8)
    ensures op == 0x67 <==> Class(op) == CLS_ALU64 && AluCode(op) == 0x60 && !HasSrcReg(op)
    ensures op == 0x77 <==> Class(op) == CLS_ALU64 && AluCode(op) == 0x70 && !HasSrcReg(op)
    ensures op == 0xc7 <==> Class(op) == CLS_ALU64 && AluCode(op) == 0xc0 && !HasSrcReg(op)
  {
  }

  lemma FuseIff(plat: Platform, insts: seq<Inst>, pc: nat)
    requires pc < |insts| && IsAluOpcode(insts[pc].opcode) && MakeAluOp(plat, insts[pc]).Some?
    ensures var r := Fuse(plat, insts, pc, MakeAluOp(plat, insts[pc]).value);
            && (r.Some? <==>
                  (IsShiftLeft(insts[pc]) && pc + 1 < |insts| && insts[pc + 1].opcode & 0x0f in {0x07, 0x0f} ==>
                     IsAluWord(plat, insts[pc + 1])))
            && (r.Some? ==> r.value.words == if TakesTwoWords(insts, pc) then 2 else 1)
  {
    var w := insts[pc];
    ShiftIff(plat, w);
    ShiftOpcodes(w.opcode);
    AluOpcodes(w.opcode);
    if pc + 1 < |insts| {
      var next := insts[pc + 1];
      AluOpcodes(next.opcode);
      ShiftOpcodes(next.opcode);
      if Class(next.opcode) == CLS_ALU64 {
        AluIff(plat, next);
        if MakeAluOp(plat, next).Some? {
          ShiftBackIff(plat, w, next);
        }
      }
    }
  }

  /** The decoder accepts exactly the well-formed words. */
  lemma DecodesIff(plat: Platform, insts: seq<Inst>, pc: nat)
    requires pc < |insts|
    ensures DecodeAt(plat, insts, pc).Some? <==> IsWellFormed(plat, insts, pc)
    ensures DecodeAt(plat, insts, pc).Some? ==>
              DecodeAt(plat, insts, pc).value.words == if TakesTwoWords(insts, pc) then 2 else 1
  {
    var w := insts[pc];
    AluOpcodes(w.opcode);
    JumpOpcodes(w.opcode);
    ShiftOpcodes(w.opcode);
    if pc <= INT_MAX && w.opcode != OP_LDDW_IMM {
      if IsAluOpcode(w.opcode) {
        AluIff(plat, w);
        if MakeAluOp(plat, w).Some? {
          FuseIff(plat, insts, pc);
        }
      } else if IsJumpOpcode(w.opcode) {
        JumpIff(plat, w, insts, pc);
      } else {
        MemoryIff(plat, w);
      }
    }
  }

  /** Every word at which an instruction begins is well formed. */
  predicate AllWellFormed(plat: Platform, insts: seq<Inst>, pc: nat)
    requires pc <= |insts|
    decreases |insts| - pc
  {
    pc == |insts|
    || (&& IsWellFormed(plat, insts, pc)
        && var next := pc + if TakesTwoWords(insts, pc) then 2 else 1;
           next <= |insts| && AllWellFormed(plat, insts, next))
  }

  /** So a program is accepted exactly if all its words are well formed. */
  lemma {:induction false} UnmarshalsIff(plat: Platform, insts: seq<Inst>, pc: nat)
    requires pc <= |insts|
    ensures DecodeFrom(plat, insts, pc).Some? <==> AllWellFormed(plat, insts, pc)
    decreases |insts| - pc
  {
    if pc < |insts| {
      DecodesIff(plat, insts, pc);
      if DecodeAt(plat, insts, pc).Some? {
        UnmarshalsIff(plat, insts, pc + DecodeAt(plat, insts, pc).value.words);
      }
    }
  }

  // ----- the frame pointer -----

  /** The registers an instruction may write; calls and packet access clobber r0 to r5. */
  predicate Writes(ins: Instruction, r: nat) {
    match ins
    case Bin(_, dst, _, _, _) => dst == r
    case Un(_, dst, _) => dst == r
    case LoadMapFd(dst, _) => dst == r
    case Mem(_, value, isLoad) => isLoad && value.Reg? && value.reg == r
    case Atomic(op, fetch, _, valreg) => fetch && r == if op == AtomicCmpXchg then 0 else valreg
    case Call(_) | CallLocal(_, _) | Callx(_) | Packet(_, _, _) => r <= 5
    case _ => false
  }

  predicate IsFetch(w: Inst) {
    w.opcode in {0xc3, 0xdb} && w.imm in {0x01, 0x41, 0x51, 0xa1, 0xe1}
  }

  /** Of the words that are accepted, lddw and the atomic operations that fetch may still write r10. */
  lemma WritesFramePointerIff(plat: Platform, insts: seq<Inst>, pc: nat)
    requires pc < |insts| && DecodeAt(plat, insts, pc).Some?
    ensures Writes(DecodeAt(plat, insts, pc).value.ins, 10) <==>
            (insts[pc].opcode == 0x18 && insts[pc].dst == 10) || (IsFetch(insts[pc]) && insts[pc].src == 10)
  {
    var w := insts[pc];
    AluOpcodes(w.opcode);
    JumpOpcodes(w.opcode);
    if w.opcode != OP_LDDW_IMM && !IsAluOpcode(w.opcode) && !IsJumpOpcode(w.opcode) {
      MemoryIff(plat, w);
      MemoryOpcodes(w.opcode);
    }
  }
}
