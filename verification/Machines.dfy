/** Two machines: one that executes instruction words as sections 4 and 5 of RFC 9669
    describe them, and one that executes decoded instructions. Memory, helper functions and
    the like are parameters. */
module Machines {
  import opened AsmSyntax
  import opened EbpfVmIsa
  import opened InstructionSeqToCfg
  import B = Bits
  import D = IntervalDivision

  type Regs = seq<Uint64>

  /** Where a local call returns to, and the registers of its caller. */
  datatype Frame = Frame(returnPc: int, saved: Regs)

  datatype State<M> = State(regs: Regs, mem: M, frames: seq<Frame>)

  datatype Config<M> = Running(pc: int, state: State<M>) | Halted(state: State<M>)

  /** What lies outside: memory, packets, atomic operations, functions, and the byte order. */
  datatype Env<!M> = Env(
    load: (M, int, Uint64) -> Uint64,
    store: (M, int, Uint64, Uint64) -> M,
    packet: (Regs, M, int, int, Option<Uint64>) -> (Regs, M),
    atomic: (Regs, M, int, bool, int, Uint64, int) -> (Regs, M),
    helper: (Regs, M, int) -> (Regs, M),
    indirect: (Regs, M, Uint64) -> (Regs, M),
    mapByFd: int -> Uint64,
    enter: Regs -> Regs,
    leave: (Regs, Regs) -> Regs,
    littleEndian: bool)

  function Get(regs: Regs, r: nat): Uint64 {
    if r < |regs| then regs[r] else 0
  }

  function Set(regs: Regs, r: nat, v: Uint64): Regs {
    if r < |regs| then regs[r := v] else regs
  }

  // ----- arithmetic -----

  function Modulus(is64: bool): int {
    if is64 then TWO_64 else TWO_32
  }

  function SignedDiv(x: int, y: int): int {
    if y == 0 then 0 else D.TruncDiv(x, y)
  }

  function Shift(amount: Uint64, is64: bool): nat {
    amount % (if is64 then 64 else 32)
  }

  /** What an arithmetic word computes, by its code and offset. */
  function WordAlu(code: bv8, offset: int, is64: bool, dst: Uint64, src: Uint64): Uint64 {
    var m := Modulus(is64);
    var x, y := dst % m, src % m;
    var sx, sy := Signed(dst, m), Signed(src, m);
    if code == 0x00 then (x + y) % m
    else if code == 0x10 then (x - y) % m
    else if code == 0x20 then (x * y) % m
    else if code == 0x30 then (if offset == 1 then SignedDiv(sx, sy) else D.UnsignedDiv(x, y)) % m
    else if code == 0x40 then B.Or(x, y) % m
    else if code == 0x50 then B.And(x, y) % m
    else if code == 0x60 then B.ShiftLeft(x, Shift(src, is64)) % m
    else if code == 0x70 then B.ShiftRight(x, Shift(src, is64)) % m
    else if code == 0x90 then (if offset == 1 then D.SignedMod(sx, sy) else D.UnsignedMod(x, y)) % m
    else if code == 0xa0 then B.Xor(x, y) % m
    else if code == 0xb0 then
      (if offset == 8 then Signed(src, 0x100)
       else if offset == 16 then Signed(src, 0x1_0000)
       else if offset == 32 then Signed(src, TWO_32)
       else y) % m
    else if code == 0xc0 then B.ShiftRight(sx, Shift(src, is64)) % m
    else 0
  }

  /** What a binary operation computes. */
  function OpAlu(op: BinOp, is64: bool, dst: Uint64, src: Uint64): Uint64 {
    var m := Modulus(is64);
    var x, y := dst % m, src % m;
    var sx, sy := Signed(dst, m), Signed(src, m);
    match op
    case MOV => y
    case ADD => (x + y) % m
    case SUB => (x - y) % m
    case MUL => (x * y) % m
    case UDIV => D.UnsignedDiv(x, y) % m
    case UMOD => D.UnsignedMod(x, y) % m
    case OR => B.Or(x, y) % m
    case AND => B.And(x, y) % m
    case LSH => B.ShiftLeft(x, Shift(src, is64)) % m
    case RSH => B.ShiftRight(x, Shift(src, is64)) % m
    case ARSH => B.ShiftRight(sx, Shift(src, is64)) % m
    case XOR => B.Xor(x, y) % m
    case SDIV => SignedDiv(sx, sy) % m
    case SMOD => D.SignedMod(sx, sy) % m
    case MOVSX8 => Signed(src, 0x100) % m
    case MOVSX16 => Signed(src, 0x1_0000) % m
    case MOVSX32 => Signed(src, TWO_32) % m
  }

  /** The lowest n bytes in reverse order. */
  function SwapBytes(v: Uint64, n: nat): int {
    if n == 0 then 0 else v % 256 * B.Pow2(8 * (n - 1)) + SwapBytes(v / 256, n - 1)
  }

  function Swap(v: Uint64, bits: int): Uint64 {
    SwapBytes(v, if bits == 16 then 2 else if bits == 32 then 4 else 8) % TWO_64
  }

  function Cut(v: Uint64, bits: int): Uint64 {
    if bits == 16 then v % 0x1_0000 else if bits == 32 then v % TWO_32 else v
  }

  /** A byte swap word: of the ALU64 class always, of the ALU class if the byte order it asks
      for is not the machine's own. */
  function WordEndian(little: bool, opcode: bv8, imm: int, v: Uint64): Uint64 {
    if Class(opcode) == CLS_ALU64 then Swap(v, imm)
    else if HasSrcReg(opcode) == little then Swap(v, imm)
    else Cut(v, imm)
  }

  function OpUnary(little: bool, op: UnOp, is64: bool, v: Uint64): Uint64 {
    match op
    case NEG => (0 - v % Modulus(is64)) % Modulus(is64)
    case SWAP16 => Swap(v, 16)
    case SWAP32 => Swap(v, 32)
    case SWAP64 => Swap(v, 64)
    case BE16 => if little then Swap(v, 16) else Cut(v, 16)
    case BE32 => if little then Swap(v, 32) else Cut(v, 32)
    case BE64 => if little then Swap(v, 64) else Cut(v, 64)
    case LE16 => if little then Cut(v, 16) else Swap(v, 16)
    case LE32 => if little then Cut(v, 32) else Swap(v, 32)
    case LE64 => if little then Cut(v, 64) else Swap(v, 64)
  }

  /** The condition of a jump word, by its code. */
  function WordTest(code: bv8, is64: bool, dst: Uint64, src: Uint64): bool {
    var m := Modulus(is64);
    var x, y := dst % m, src % m;
    var sx, sy := Signed(dst, m), Signed(src, m);
    if code == 0x1 then x == y
    else if code == 0x2 then x > y
    else if code == 0x3 then x >= y
    else if code == 0x4 then CommonBit(x, y)
    else if code == 0x5 then x != y
    else if code == 0x6 then sx > sy
    else if code == 0x7 then sx >= sy
    else if code == 0xa then x < y
    else if code == 0xb then x <= y
    else if code == 0xc then sx < sy
    else if code == 0xd then sx <= sy
    else false
  }

  // ----- effects -----

  function Address(base: Uint64, offset: int): Uint64 {
    (base + offset) % TWO_64
  }

  /** The bits of a value that a store of this width keeps. */
  function Kept(v: Uint64, width: int): Uint64 {
    if width == 1 then v % 0x100 else if width == 2 then v % 0x1_0000 else if width == 4 then v % TWO_32 else v
  }

  function WithReg<M>(s: State<M>, r: nat, v: Uint64): State<M> {
    s.(regs := Set(s.regs, r, v))
  }

  function With<M>(s: State<M>, effect: (Regs, M)): State<M> {
    s.(regs := effect.0, mem := effect.1)
  }

  function Enter<M>(env: Env<M>, target: int, returnPc: int, s: State<M>): Config<M> {
    Running(target, s.(regs := env.enter(s.regs), frames := s.frames + [Frame(returnPc, s.regs)]))
  }

  function Leave<M>(env: Env<M>, s: State<M>): Config<M> {
    if s.frames == [] then Halted(s)
    else
      var f := s.frames[|s.frames| - 1];
      Running(f.returnPc, s.(regs := env.leave(f.saved, s.regs), frames := s.frames[..|s.frames| - 1]))
  }

  // ----- the machine on words -----

  function WordArithmetic<M>(env: Env<M>, w: Inst, s: State<M>): State<M> {
    var dst, is64 := Get(s.regs, w.dst), Class(w.opcode) == CLS_ALU64;
    var src := if HasSrcReg(w.opcode) then Get(s.regs, w.src) else SignExtend(w.imm);
    WithReg(s, w.dst,
      if AluCode(w.opcode) == 0x80 then (0 - dst % Modulus(is64)) % Modulus(is64)
      else if AluCode(w.opcode) == 0xd0 then WordEndian(env.littleEndian, w.opcode, w.imm, dst)
      else WordAlu(AluCode(w.opcode), w.offset, is64, dst, src))
  }

  function WordMemory<M>(env: Env<M>, w: Inst, s: State<M>): State<M> {
    var cls, width := Class(w.opcode), OpcodeToWidth(w.opcode);
    if cls == CLS_LD then
      With(s, env.packet(s.regs, s.mem, width, w.imm,
                         if Mode(w.opcode) == MODE_IND then Some(Get(s.regs, w.src)) else None))
    else if cls == CLS_LDX then
      WithReg(s, w.dst, env.load(s.mem, width, Address(Get(s.regs, w.src), w.offset)))
    else if cls == CLS_ST then
      s.(mem := env.store(s.mem, width, Address(Get(s.regs, w.dst), w.offset), Kept(SignExtend(w.imm), width)))
    else if Mode(w.opcode) == MODE_ATOMIC then
      With(s, env.atomic(s.regs, s.mem, w.imm - w.imm % 2, w.imm % 2 == 1, width,
                         Address(Get(s.regs, w.dst), w.offset), w.src))
    else
      s.(mem := env.store(s.mem, width, Address(Get(s.regs, w.dst), w.offset), Kept(Get(s.regs, w.src), width)))
  }

  function WordJump<M>(env: Env<M>, w: Inst, pc: int, s: State<M>): Config<M> {
    var code := JumpCode(w.opcode);
    if code == 0x0 then
      Running(pc + 1 + (if Class(w.opcode) == CLS_JMP then w.offset else w.imm), s)
    else if code == 0x8 then
      if w.src == CALL_LOCAL then Enter(env, pc + 1 + w.imm, pc + 1, s)
      else if HasSrcReg(w.opcode) then
        Running(pc + 1, With(s, env.indirect(s.regs, s.mem, Get(s.regs, if w.imm != 0 then D.Abs(w.imm) else w.dst))))
      else Running(pc + 1, With(s, env.helper(s.regs, s.mem, w.imm)))
    else if code == 0x9 then Leave(env, s)
    else
      var src := if HasSrcReg(w.opcode) then Get(s.regs, w.src) else SignExtend(w.imm);
      if WordTest(code, Class(w.opcode) == CLS_JMP, Get(s.regs, w.dst), src)
      then Running(pc + 1 + w.offset, s) else Running(pc + 1, s)
  }

  /** One word, or two in the case of lddw. */
  function WordStep<M>(env: Env<M>, insts: seq<Inst>, c: Config<M>): Config<M> {
    if c.Halted? || !(0 <= c.pc < |insts|) then c
    else
      var pc, s, w := c.pc, c.state, insts[c.pc];
      var cls := Class(w.opcode);
      if w.opcode == OP_LDDW_IMM then
        if pc + 1 >= |insts| then c
        else
          var v := if w.src == 1 then env.mapByFd(w.imm) else Merge(w.imm, insts[pc + 1].imm);
          Running(pc + 2, WithReg(s, w.dst, v))
      else if cls == CLS_ALU || cls == CLS_ALU64 then Running(pc + 1, WordArithmetic(env, w, s))
      else if cls == CLS_JMP || cls == CLS_JMP32 then WordJump(env, w, pc, s)
      else Running(pc + 1, WordMemory(env, w, s))
  }

  // ----- the machine on instructions -----

  function Operand(regs: Regs, v: Value): Uint64 {
    match v
    case Imm(i) => i
    case Reg(r) => Get(regs, r)
  }

  /** One instruction; `next` is the pc of the one that follows in the list. */
  function Execute<M>(env: Env<M>, ins: Instruction, next: int, s: State<M>): Config<M> {
    match ins
    case Bin(op, dst, v, is64, lddw) =>
      Running(next, WithReg(s, dst, OpAlu(op, is64, Get(s.regs, dst), Operand(s.regs, v))))
    case Un(op, dst, is64) =>
      Running(next, WithReg(s, dst, OpUnary(env.littleEndian, op, is64, Get(s.regs, dst))))
    case LoadMapFd(dst, fd) => Running(next, WithReg(s, dst, env.mapByFd(fd)))
    case Call(func) => Running(next, With(s, env.helper(s.regs, s.mem, func)))
    case CallLocal(target, _) => Enter(env, target.from, next, s)
    case Callx(r) => Running(next, With(s, env.indirect(s.regs, s.mem, Get(s.regs, r))))
    case Exit(_) => Leave(env, s)
    case Jmp(cond, target) =>
      if cond.None? ||
         Compare(cond.value.op, cond.value.is64, Get(s.regs, cond.value.left), Operand(s.regs, cond.value.right))
      then Running(target.from, s) else Running(next, s)
    case Mem(access, value, isLoad) =>
      var address := Address(Get(s.regs, access.basereg), access.offset);
      if isLoad && value.Reg? then Running(next, WithReg(s, value.reg, env.load(s.mem, access.width, address)))
      else Running(next, s.(mem := env.store(s.mem, access.width, address, Kept(Operand(s.regs, value), access.width))))
    case Packet(width, offset, r) =>
      var value := if r.Some? then Some(Get(s.regs, r.value)) else None;
      Running(next, With(s, env.packet(s.regs, s.mem, width, offset, value)))
    case Atomic(op, fetch, access, valreg) =>
      Running(next, With(s, env.atomic(s.regs, s.mem, AtomicCode(op), fetch, access.width,
                                       Address(Get(s.regs, access.basereg), access.offset), valreg)))
    case Undefined(_) => Running(next, s)
    case Assume(_, _) => Running(next, s)
    case IncrementLoopCounter(_) => Running(next, s)
  }
}
