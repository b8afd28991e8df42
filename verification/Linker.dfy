/** Appending subprograms to their callers (src/asm_files.cpp). */
module Linker {
  import opened AsmSyntax
  import opened EbpfVmIsa

  /** raw_program */
  datatype Program = Program(section: string, name: string, code: seq<Inst>, resolved: bool)

  /** function_relocation, with what the symbol table says about its entry: the section of
      the callee, if the index it gives for it is valid. */
  datatype Reloc = Reloc(progIndex: nat, sourceOffset: nat, target: string, section: Option<string>)

  /** An error message and an exception. */
  datatype Outcome = Linked | Missing | Thrown

  // ----- what linking means -----

  /** append_subprograms tells by name which relocations are a program's. */
  predicate Belongs(programs: seq<Program>, r: Reloc, p: nat)
    requires p < |programs|
  {
    r.progIndex < |programs| && programs[r.progIndex].name == programs[p].name
  }

  predicate IsCallee(programs: seq<Program>, r: Reloc, q: nat) {
    q < |programs| && programs[q].name == r.target && r.section == Some(programs[q].section)
  }

  /** Relocations lie inside the programs they are applied to. */
  ghost predicate InRange(programs: seq<Program>, relocs: seq<Reloc>) {
    forall r, p :: r in relocs && 0 <= p < |programs| && Belongs(programs, r, p) ==> r.sourceOffset < |programs[p].code|
  }

  /** Function names are unique, callees are present and rank below their callers, and a
      call is relocated to one target only. */
  ghost predicate Linkable(programs: seq<Program>, relocs: seq<Reloc>, rank: nat -> nat) {
    && (forall p, q :: 0 <= p < |programs| && 0 <= q < |programs| && programs[p].name == programs[q].name ==> p == q)
    && (forall r :: r in relocs && r.progIndex < |programs| ==> HasCallee(programs, r, rank))
    && (forall r, s :: r in relocs && s in relocs && r.progIndex == s.progIndex && r.sourceOffset == s.sourceOffset ==>
          r.target == s.target)
  }

  ghost predicate HasCallee(programs: seq<Program>, r: Reloc, rank: nat -> nat)
    requires r.progIndex < |programs|
  {
    exists q :: IsCallee(programs, r, q) && rank(q) < rank(r.progIndex)
  }

  /** Where the call at s goes. */
  function Target(code: seq<Inst>, s: nat): int
    requires s < |code|
  {
    s + 1 + code[s].imm
  }

  predicate CopyAt(code: seq<Inst>, at: int, sub: seq<Inst>) {
    0 <= at && at + |sub| <= |code| && code[at..at + |sub|] == sub
  }

  /** Apart from the immediates of relocated calls, the body is as it was. */
  ghost predicate BodyAt(
    code: seq<Inst>, base: nat, programs: seq<Program>, relocs: seq<Reloc>, p: nat)
    requires p < |programs|
  {
    && base + |programs[p].code| <= |code|
    && forall i :: 0 <= i < |programs[p].code| ==>
         var was, now := programs[p].code[i], code[base + i];
         now == was.(imm := now.imm) && (Relocated(programs, relocs, p, i) || now == was)
  }

  ghost predicate Relocated(programs: seq<Program>, relocs: seq<Reloc>, p: nat, i: nat)
    requires p < |programs|
  {
    exists r :: r in relocs && Belongs(programs, r, p) && r.sourceOffset == i
  }

  /** Program p lies at `base` in the code, and every relocated call of it goes to a place
      where its callee lies in the same sense, and so on down. */
  ghost predicate Resolves(
    code: seq<Inst>, base: nat, programs: seq<Program>, relocs: seq<Reloc>, rank: nat -> nat, p: nat)
    requires p < |programs| && InRange(programs, relocs)
    decreases rank(p)
  {
    && BodyAt(code, base, programs, relocs, p)
    && forall r, q :: r in relocs && Belongs(programs, r, p) && IsCallee(programs, r, q) && rank(q) < rank(p) ==>
         var t := Target(code, base + r.sourceOffset);
         0 <= t && Resolves(code, t, programs, relocs, rank, q)
  }

  // ----- what is kept on the way -----

  /** The programs are the original ones but for code and flag, and untouched if not
      resolved. */
  ghost predicate Consistent(programs: seq<Program>, orig: seq<Program>) {
    && |programs| == |orig|
    && forall p :: 0 <= p < |programs| ==>
         && programs[p].section == orig[p].section && programs[p].name == orig[p].name
         && (!programs[p].resolved ==> programs[p] == orig[p])
  }

  /** Whatever is resolved but not in the set stays as it is. */
  ghost predicate Keeps(was: seq<Program>, now: seq<Program>, busy: set<nat>) {
    |was| == |now| && forall q :: 0 <= q < |was| && q !in busy && was[q].resolved ==> now[q] == was[q]
  }

  /** A copy of the function, as it is linked by now, lies at this place of the code. */
  ghost predicate Holds(
    programs: seq<Program>, orig: seq<Program>, busy: set<nat>, code: seq<Inst>, name: string, at: int)
  {
    exists q :: 0 <= q < |programs| && q < |orig| && orig[q].name == name && programs[q].resolved && q !in busy
                && CopyAt(code, at, programs[q].code)
  }

  lemma HoldsKept(
    was: seq<Program>, now: seq<Program>, orig: seq<Program>, busy: set<nat>, code: seq<Inst>, name: string, at: int)
    requires Holds(was, orig, busy, code, name, at) && Keeps(was, now, busy)
    ensures Holds(now, orig, busy, code, name, at)
  {
    var q :| 0 <= q < |was| && q < |orig| && orig[q].name == name && was[q].resolved && q !in busy
             && CopyAt(code, at, was[q].code);
    assert now[q] == was[q];
  }

  lemma HoldsLonger(
    programs: seq<Program>, orig: seq<Program>, busy: set<nat>,
    code: seq<Inst>, code': seq<Inst>, from: nat, name: string, at: int)
    requires Holds(programs, orig, busy, code, name, at) && from <= at && |code| <= |code'|
    requires forall i :: from <= i < |code| ==> code'[i] == code[i]
    ensures Holds(programs, orig, busy, code', name, at)
  {
    var q :| 0 <= q < |programs| && q < |orig| && orig[q].name == name && programs[q].resolved && q !in busy
             && CopyAt(code, at, programs[q].code);
    assert code'[at..at + |programs[q].code|] == code[at..at + |programs[q].code|];
  }

  /** A program is linked: its body is there, and each of its calls goes to a copy of the
      callee. */
  ghost predicate Good(programs: seq<Program>, orig: seq<Program>, relocs: seq<Reloc>, busy: set<nat>, p: nat) {
    && p < |programs| == |orig| && programs[p].resolved
    && BodyAt(programs[p].code, 0, orig, relocs, p)
    && forall r :: r in relocs && Belongs(orig, r, p) ==>
         r.sourceOffset < |programs[p].code|
         && Holds(programs, orig, busy, programs[p].code, r.target, Target(programs[p].code, r.sourceOffset))
  }

  /** Everything that counts as resolved is linked, but for what is being worked on. */
  ghost predicate AllGood(programs: seq<Program>, orig: seq<Program>, relocs: seq<Reloc>, busy: set<nat>) {
    forall q {:trigger Good(programs, orig, relocs, busy, q)} ::
      0 <= q < |programs| && programs[q].resolved && q !in busy ==> Good(programs, orig, relocs, busy, q)
  }

  lemma GoodKept(
    was: seq<Program>, now: seq<Program>, orig: seq<Program>, relocs: seq<Reloc>, busy: set<nat>, p: nat)
    requires Good(was, orig, relocs, busy, p) && Keeps(was, now, busy) && p !in busy
    ensures Good(now, orig, relocs, busy, p)
  {
    forall r | r in relocs && Belongs(orig, r, p)
      ensures Holds(now, orig, busy, now[p].code, r.target, Target(now[p].code, r.sourceOffset))
    {
      HoldsKept(was, now, orig, busy, was[p].code, r.target, Target(was[p].code, r.sourceOffset));
    }
  }

  /** Work on p begins: nobody depends on it yet. */
  lemma Begin(programs: seq<Program>, orig: seq<Program>, relocs: seq<Reloc>, busy: set<nat>, p: nat)
    requires AllGood(programs, orig, relocs, busy) && p < |programs| && !programs[p].resolved
    ensures AllGood(programs[p := programs[p].(resolved := true)], orig, relocs, busy + {p})
  {
    var now := programs[p := programs[p].(resolved := true)];
    forall q | 0 <= q < |now| && now[q].resolved && q !in busy + {p}
      ensures Good(now, orig, relocs, busy + {p}, q)
    {
      assert Good(programs, orig, relocs, busy, q);
      forall r | r in relocs && Belongs(orig, r, q)
        ensures Holds(now, orig, busy + {p}, now[q].code, r.target, Target(now[q].code, r.sourceOffset))
      {
        var c :| 0 <= c < |programs| && c < |orig| && orig[c].name == r.target && programs[c].resolved && c !in busy
                 && CopyAt(programs[q].code, Target(programs[q].code, r.sourceOffset), programs[c].code);
        assert now[c] == programs[c];
      }
    }
  }

  /** Work on p has changed p only. */
  lemma OthersStayGood(
    was: seq<Program>, now: seq<Program>, orig: seq<Program>, relocs: seq<Reloc>, busy: set<nat>)
    requires AllGood(was, orig, relocs, busy) && Keeps(was, now, busy)
    requires forall q :: 0 <= q < |now| && now[q].resolved && q !in busy ==> was[q].resolved
    ensures AllGood(now, orig, relocs, busy)
  {
    forall q | 0 <= q < |now| && now[q].resolved && q !in busy
      ensures Good(now, orig, relocs, busy, q)
    {
      assert Good(was, orig, relocs, busy, q);
      GoodKept(was, now, orig, relocs, busy, q);
    }
  }

  /** Work on p is done. */
  lemma Finish(
    programs: seq<Program>, orig: seq<Program>, relocs: seq<Reloc>, busy: set<nat>, p: nat)
    requires AllGood(programs, orig, relocs, busy + {p}) && Good(programs, orig, relocs, busy + {p}, p)
    ensures AllGood(programs, orig, relocs, busy)
  {
    forall q | 0 <= q < |programs| && programs[q].resolved && q !in busy
      ensures Good(programs, orig, relocs, busy, q)
    {
      assert Good(programs, orig, relocs, busy + {p}, q);
      forall r | r in relocs && Belongs(orig, r, q)
        ensures Holds(programs, orig, busy, programs[q].code, r.target, Target(programs[q].code, r.sourceOffset))
      {
        var c :| 0 <= c < |programs| && c < |orig| && orig[c].name == r.target && programs[c].resolved
                 && c !in busy + {p}
                 && CopyAt(programs[q].code, Target(programs[q].code, r.sourceOffset), programs[c].code);
      }
    }
  }

  /** Nested calls: in a verbatim copy of a linked program, at any place, all calls resolve,
      to any depth. */
  lemma {:induction false} CopyResolves(
    code: seq<Inst>, base: nat, programs: seq<Program>, orig: seq<Program>, relocs: seq<Reloc>,
    rank: nat -> nat, p: nat)
    requires p < |orig| && Consistent(programs, orig) && InRange(orig, relocs) && Linkable(orig, relocs, rank)
    requires programs[p].resolved && AllGood(programs, orig, relocs, {})
    requires CopyAt(code, base, programs[p].code)
    ensures Resolves(code, base, orig, relocs, rank, p)
    decreases rank(p)
  {
    var own := programs[p].code;
    assert Good(programs, orig, relocs, {}, p);
    CopyIndexes(code, base, own);
    forall r, q: nat | r in relocs && Belongs(orig, r, p) && IsCallee(orig, r, q) && rank(q) < rank(p)
      ensures var t := Target(code, base + r.sourceOffset);
              0 <= t && Resolves(code, t, orig, relocs, rank, q)
    {
      var t := Target(own, r.sourceOffset);
      assert Holds(programs, orig, {}, own, r.target, t);
      assert programs[q].resolved && CopyAt(own, t, programs[q].code);
      CopyInCopy(code, base, own, t, programs[q].code);
      CopyResolves(code, base + t, programs, orig, relocs, rank, q);
    }
  }

  lemma CopyInCopy(code: seq<Inst>, base: nat, own: seq<Inst>, t: int, sub: seq<Inst>)
    requires CopyAt(code, base, own) && CopyAt(own, t, sub)
    ensures CopyAt(code, base + t, sub)
  {
    CopyIndexes(code, base, own);
    CopyIndexes(own, t, sub);
    assert code[base + t..base + t + |sub|] == sub;
  }

  lemma CopyIndexes(code: seq<Inst>, at: int, sub: seq<Inst>)
    requires CopyAt(code, at, sub)
    ensures forall i {:trigger sub[i]} :: 0 <= i < |sub| ==> code[at + i] == sub[i]
  {
    forall i | 0 <= i < |sub|
      ensures code[at + i] == sub[i]
    {
      assert code[at..at + |sub|][i] == code[at + i];
    }
  }

  // ----- the loop over the relocations -----

  /** The functions appended so far are where the table says. */
  ghost predicate Placed(
    programs: seq<Program>, orig: seq<Program>, busy: set<nat>, code: seq<Inst>, from: nat, offsets: map<string, nat>)
  {
    forall t :: t in offsets ==> from <= offsets[t] && Holds(programs, orig, busy, code, t, offsets[t])
  }

  /** The calls relocated so far go where the table says. */
  ghost predicate Patched(
    orig: seq<Program>, relocs: seq<Reloc>, p: nat, code: seq<Inst>, offsets: map<string, nat>, j: nat)
    requires p < |orig| && j <= |relocs|
  {
    forall i :: 0 <= i < j && Belongs(orig, relocs[i], p) ==>
      && relocs[i].sourceOffset < |code| && relocs[i].target in offsets
      && Target(code, relocs[i].sourceOffset) == offsets[relocs[i].target]
  }

  /** All there is to know inside the loop, on the code of p. */
  ghost predicate Progress(
    programs: seq<Program>, orig: seq<Program>, relocs: seq<Reloc>, busy: set<nat>, p: nat,
    offsets: map<string, nat>, j: nat)
    requires p < |orig| && j <= |relocs|
  {
    && p < |programs|
    && Placed(programs, orig, busy, programs[p].code, |orig[p].code|, offsets)
    && Patched(orig, relocs, p, programs[p].code, offsets, j)
  }

  lemma ProgressKept(
    was: seq<Program>, now: seq<Program>, orig: seq<Program>, relocs: seq<Reloc>, busy: set<nat>, p: nat,
    offsets: map<string, nat>, j: nat)
    requires p < |orig| && j <= |relocs| && Progress(was, orig, relocs, busy, p, offsets, j)
    requires Keeps(was, now, busy) && now[p].code == was[p].code
    ensures Progress(now, orig, relocs, busy, p, offsets, j)
  {
    forall t | t in offsets
      ensures Holds(now, orig, busy, now[p].code, t, offsets[t])
    {
      HoldsKept(was, now, orig, busy, was[p].code, t, offsets[t]);
    }
  }

  /** A callee is appended. */
  lemma ProgressAppend(
    was: seq<Program>, now: seq<Program>, orig: seq<Program>, relocs: seq<Reloc>, busy: set<nat>, p: nat,
    offsets: map<string, nat>, j: nat, q: nat)
    requires p < |orig| && j <= |relocs| && Progress(was, orig, relocs, busy, p, offsets, j) && p in busy
    requires q < |was| == |orig| && q !in busy && was[q].resolved && orig[q].name !in offsets
    requires now == was[p := was[p].(code := was[p].code + was[q].code)] && |orig[p].code| <= |was[p].code|
    ensures Progress(now, orig, relocs, busy, p, offsets[orig[q].name := |was[p].code|], j)
  {
    var name, code := orig[q].name, was[p].code;
    var offsets' := offsets[name := |code|];
    forall t | t in offsets'
      ensures |orig[p].code| <= offsets'[t] && Holds(now, orig, busy, now[p].code, t, offsets'[t])
    {
      if t == name {
        assert CopyAt(now[p].code, |code|, now[q].code);
      } else {
        HoldsKept(was, now, orig, busy, code, t, offsets[t]);
        HoldsLonger(now, orig, busy, code, now[p].code, 0, t, offsets[t]);
      }
    }
  }

  /** The callee was linked, which changed nothing that counts as resolved, and appended. */
  lemma AppendStep(
    was: seq<Program>, mid: seq<Program>, now: seq<Program>, orig: seq<Program>, relocs: seq<Reloc>,
    rank: nat -> nat, busy: set<nat>, p: nat, offsets: map<string, nat>, j: nat, q: nat)
    requires p < |orig| == |was| == |mid| && j < |relocs| && p in busy && Keeps(was, mid, {}) && was[p].resolved
    requires q < |mid| && mid[q].resolved && orig[q].name !in offsets && |orig[p].code| <= |mid[p].code|
    requires now == mid[p := mid[p].(code := mid[p].code + mid[q].code)]
    ensures q !in busy && AllGood(mid, orig, relocs, busy) && Progress(was, orig, relocs, busy, p, offsets, j) ==>
              && AllGood(now, orig, relocs, busy)
              && Progress(now, orig, relocs, busy, p, offsets[orig[q].name := |mid[p].code|], j)
  {
    if q !in busy && AllGood(mid, orig, relocs, busy) && Progress(was, orig, relocs, busy, p, offsets, j) {
      ProgressKept(was, mid, orig, relocs, busy, p, offsets, j);
      ProgressAppend(mid, now, orig, relocs, busy, p, offsets, j, q);
      OthersStayGood(mid, now, orig, relocs, busy);
    }
  }

  /** One instruction of one program with another immediate. */
  function WithImmediate(programs: seq<Program>, p: nat, s: nat, imm: Int32): seq<Program>
    requires p < |programs| && s < |programs[p].code|
  {
    var code := programs[p].code;
    programs[p := programs[p].(code := code[s := code[s].(imm := imm)])]
  }

  /** A call is relocated. */
  lemma ProgressPatch(
    was: seq<Program>, now: seq<Program>, orig: seq<Program>, relocs: seq<Reloc>, rank: nat -> nat, busy: set<nat>,
    p: nat, offsets: map<string, nat>, j: nat)
    requires p < |orig| == |was| && j < |relocs| && Progress(was, orig, relocs, busy, p, offsets, j) && p in busy
    requires Linkable(orig, relocs, rank) && InRange(orig, relocs) && Belongs(orig, relocs[j], p)
    requires relocs[j].target in offsets && |orig[p].code| <= |was[p].code|
    requires var s := relocs[j].sourceOffset;
             s < |was[p].code| && INT32_MIN <= offsets[relocs[j].target] - s - 1 <= INT32_MAX &&
             now == WithImmediate(was, p, s, offsets[relocs[j].target] - s - 1)
    ensures Progress(now, orig, relocs, busy, p, offsets, j + 1)
  {
    var s, code := relocs[j].sourceOffset, was[p].code;
    assert relocs[j] in relocs;
    forall t | t in offsets
      ensures Holds(now, orig, busy, now[p].code, t, offsets[t])
    {
      HoldsKept(was, now, orig, busy, code, t, offsets[t]);
      HoldsLonger(now, orig, busy, code, now[p].code, |orig[p].code|, t, offsets[t]);
    }
    forall i | 0 <= i < j + 1 && Belongs(orig, relocs[i], p)
      ensures relocs[i].target in offsets && Target(now[p].code, relocs[i].sourceOffset) == offsets[relocs[i].target]
    {
      assert relocs[i] in relocs;
    }
  }

  lemma RelocateStep(
    was: seq<Program>, now: seq<Program>, orig: seq<Program>, relocs: seq<Reloc>, rank: nat -> nat, busy: set<nat>,
    p: nat, offsets: map<string, nat>, j: nat)
    requires p < |orig| == |was| && j < |relocs| && p in busy && InRange(orig, relocs) && Belongs(orig, relocs[j], p)
    requires relocs[j].target in offsets && |orig[p].code| <= |was[p].code|
    requires var s := relocs[j].sourceOffset;
             s < |was[p].code| && INT32_MIN <= offsets[relocs[j].target] - s - 1 <= INT32_MAX &&
             now == WithImmediate(was, p, s, offsets[relocs[j].target] - s - 1)
    ensures Linkable(orig, relocs, rank) && AllGood(was, orig, relocs, busy)
            && Progress(was, orig, relocs, busy, p, offsets, j) ==>
              AllGood(now, orig, relocs, busy) && Progress(now, orig, relocs, busy, p, offsets, j + 1)
    ensures Unresolved(now) == Unresolved(was)
  {
    if Linkable(orig, relocs, rank) && AllGood(was, orig, relocs, busy)
       && Progress(was, orig, relocs, busy, p, offsets, j) {
      ProgressPatch(was, now, orig, relocs, rank, busy, p, offsets, j);
      OthersStayGood(was, now, orig, relocs, busy);
    }
  }

  lemma BodyPatched(
    code: seq<Inst>, orig: seq<Program>, relocs: seq<Reloc>, p: nat, r: Reloc, imm: Int32)
    requires p < |orig| && BodyAt(code, 0, orig, relocs, p) && r in relocs && Belongs(orig, r, p)
    requires r.sourceOffset < |code|
    ensures BodyAt(code[r.sourceOffset := code[r.sourceOffset].(imm := imm)], 0, orig, relocs, p)
  {
  }

  lemma ProgressMakesGood(
    programs: seq<Program>, orig: seq<Program>, relocs: seq<Reloc>, busy: set<nat>, p: nat, offsets: map<string, nat>)
    requires p < |orig| == |programs| && Progress(programs, orig, relocs, busy, p, offsets, |relocs|)
    requires programs[p].resolved && BodyAt(programs[p].code, 0, orig, relocs, p)
    ensures Good(programs, orig, relocs, busy, p)
  {
    forall r | r in relocs && Belongs(orig, r, p)
      ensures r.sourceOffset < |programs[p].code|
      ensures Holds(programs, orig, busy, programs[p].code, r.target, Target(programs[p].code, r.sourceOffset))
    {
      var i :| 0 <= i < |relocs| && relocs[i] == r;
    }
  }

  // ----- how long the linked code is -----

  ghost predicate IsLower(orig: seq<Program>, r: Reloc, rank: nat -> nat, p: nat, q: nat) {
    IsCallee(orig, r, q) && rank(q) < rank(p)
  }

  ghost predicate HasLower(orig: seq<Program>, r: Reloc, rank: nat -> nat, p: nat) {
    exists q: nat :: IsLower(orig, r, rank, p, q)
  }

  /** The first call of its target in a program, for which the target is appended. */
  ghost predicate IsFirst(orig: seq<Program>, relocs: seq<Reloc>, p: nat, i: nat)
    requires p < |orig|
  {
    && i < |relocs| && Belongs(orig, relocs[i], p)
    && forall k :: 0 <= k < i && Belongs(orig, relocs[k], p) ==> relocs[k].target != relocs[i].target
  }

  /** The length of a program with the callees of its first j relocations appended. */
  ghost function LinkedSize(orig: seq<Program>, relocs: seq<Reloc>, rank: nat -> nat, p: nat, j: nat): nat
    requires p < |orig| && j <= |relocs|
    decreases rank(p), j
  {
    if j == 0 then |orig[p].code|
    else
      LinkedSize(orig, relocs, rank, p, j - 1)
      + if IsFirst(orig, relocs, p, j - 1) && HasLower(orig, relocs[j - 1], rank, p) then
          var q: nat :| IsLower(orig, relocs[j - 1], rank, p, q);
          LinkedSize(orig, relocs, rank, q, |relocs|)
        else 0
  }

  /** The distance from call i of a program to the copy of its callee, which is appended for call k,
      can be written to the call. */
  ghost predicate IsNear(orig: seq<Program>, relocs: seq<Reloc>, rank: nat -> nat, p: nat, i: nat, k: nat)
    requires p < |orig| && k <= i < |relocs|
  {
    IsFirst(orig, relocs, p, k) && relocs[k].target == relocs[i].target ==>
      LinkedSize(orig, relocs, rank, p, k) - relocs[i].sourceOffset - 1 <= INT32_MAX
  }

  ghost predicate FitsAt(orig: seq<Program>, relocs: seq<Reloc>, rank: nat -> nat, p: nat, i: nat)
    requires p < |orig| && i < |relocs|
  {
    forall k: nat {:trigger IsNear(orig, relocs, rank, p, i, k)} :: k <= i ==> IsNear(orig, relocs, rank, p, i, k)
  }

  ghost predicate FitsUpTo(orig: seq<Program>, relocs: seq<Reloc>, rank: nat -> nat, p: nat, j: nat)
    requires p < |orig| && j <= |relocs|
  {
    forall i: nat {:trigger FitsAt(orig, relocs, rank, p, i)} ::
      i < j && Belongs(orig, relocs[i], p) ==> FitsAt(orig, relocs, rank, p, i)
  }

  /** Every distance fits 32 bits. */
  ghost predicate AllFit(orig: seq<Program>, relocs: seq<Reloc>, rank: nat -> nat) {
    forall p: nat {:trigger FitsUpTo(orig, relocs, rank, p, |relocs|)} ::
      p < |orig| ==> FitsUpTo(orig, relocs, rank, p, |relocs|)
  }

  /** The table knows the place of the callee that is appended for call i. */
  ghost predicate Knows(
    offsets: map<string, nat>, orig: seq<Program>, relocs: seq<Reloc>, rank: nat -> nat, p: nat, i: nat)
    requires p < |orig| && i < |relocs|
  {
    IsFirst(orig, relocs, p, i) ==>
      relocs[i].target in offsets && offsets[relocs[i].target] == LinkedSize(orig, relocs, rank, p, i)
  }

  /** A call for which a target was appended. */
  ghost predicate HasFirst(orig: seq<Program>, relocs: seq<Reloc>, p: nat, j: nat, target: string)
    requires p < |orig| && j <= |relocs|
  {
    exists i: nat :: i < j && IsFirst(orig, relocs, p, i) && relocs[i].target == target
  }

  /** The code of p with the callees of its first j relocations, of which the first k fit. */
  ghost predicate Laying(
    code: seq<Inst>, orig: seq<Program>, relocs: seq<Reloc>, rank: nat -> nat, p: nat, offsets: map<string, nat>,
    j: nat, k: nat)
    requires p < |orig| && j <= |relocs| && k <= |relocs|
  {
    && |code| == LinkedSize(orig, relocs, rank, p, j) && FitsUpTo(orig, relocs, rank, p, k)
    && (forall i: nat {:trigger Knows(offsets, orig, relocs, rank, p, i)} ::
          i < j ==> Knows(offsets, orig, relocs, rank, p, i))
    && forall t {:trigger HasFirst(orig, relocs, p, j, t)} :: t in offsets ==> HasFirst(orig, relocs, p, j, t)
  }

  ghost predicate HasSize(
    programs: seq<Program>, orig: seq<Program>, relocs: seq<Reloc>, rank: nat -> nat, q: nat)
    requires q < |programs| == |orig|
  {
    && |programs[q].code| == LinkedSize(orig, relocs, rank, q, |relocs|)
    && FitsUpTo(orig, relocs, rank, q, |relocs|)
  }

  ghost predicate Measured(
    programs: seq<Program>, orig: seq<Program>, relocs: seq<Reloc>, rank: nat -> nat, busy: set<nat>)
  {
    && |programs| == |orig|
    && forall q: nat {:trigger HasSize(programs, orig, relocs, rank, q)} ::
         q < |programs| && programs[q].resolved && q !in busy ==> HasSize(programs, orig, relocs, rank, q)
  }

  lemma MeasuredStays(
    was: seq<Program>, now: seq<Program>, orig: seq<Program>, relocs: seq<Reloc>, rank: nat -> nat, busy: set<nat>)
    requires Measured(was, orig, relocs, rank, busy) && |now| == |was|
    requires forall q :: 0 <= q < |now| && now[q].resolved && q !in busy ==>
               was[q].resolved && now[q].code == was[q].code
    ensures Measured(now, orig, relocs, rank, busy)
  {
    forall q: nat | q < |now| && now[q].resolved && q !in busy ensures HasSize(now, orig, relocs, rank, q) {
      assert HasSize(was, orig, relocs, rank, q);
    }
  }

  /** Another program's relocation. */
  lemma LayingSkips(
    code: seq<Inst>, orig: seq<Program>, relocs: seq<Reloc>, rank: nat -> nat, p: nat, offsets: map<string, nat>,
    j: nat)
    requires p < |orig| && j < |relocs| && Laying(code, orig, relocs, rank, p, offsets, j, j)
    requires !Belongs(orig, relocs[j], p)
    ensures Laying(code, orig, relocs, rank, p, offsets, j + 1, j + 1)
  {
    KnowsMore(orig, relocs, rank, p, offsets, j);
  }

  /** Nothing is appended for call j. */
  lemma KnowsMore(
    orig: seq<Program>, relocs: seq<Reloc>, rank: nat -> nat, p: nat, offsets: map<string, nat>, j: nat)
    requires p < |orig| && j < |relocs| && !IsFirst(orig, relocs, p, j)
    requires forall i: nat {:trigger Knows(offsets, orig, relocs, rank, p, i)} ::
               i < j ==> Knows(offsets, orig, relocs, rank, p, i)
    requires forall t {:trigger HasFirst(orig, relocs, p, j, t)} :: t in offsets ==> HasFirst(orig, relocs, p, j, t)
    ensures LinkedSize(orig, relocs, rank, p, j + 1) == LinkedSize(orig, relocs, rank, p, j)
    ensures forall i: nat {:trigger Knows(offsets, orig, relocs, rank, p, i)} ::
              i < j + 1 ==> Knows(offsets, orig, relocs, rank, p, i)
    ensures forall t {:trigger HasFirst(orig, relocs, p, j + 1, t)} ::
              t in offsets ==> HasFirst(orig, relocs, p, j + 1, t)
  {
    forall t | t in offsets ensures HasFirst(orig, relocs, p, j + 1, t) {
      assert HasFirst(orig, relocs, p, j, t);
    }
  }

  /** A callee that has been appended before. */
  lemma LayingKnown(
    code: seq<Inst>, orig: seq<Program>, relocs: seq<Reloc>, rank: nat -> nat, p: nat, offsets: map<string, nat>,
    j: nat)
    requires p < |orig| && j < |relocs| && Laying(code, orig, relocs, rank, p, offsets, j, j)
    requires Belongs(orig, relocs[j], p) && relocs[j].target in offsets
    ensures Laying(code, orig, relocs, rank, p, offsets, j + 1, j)
  {
    assert HasFirst(orig, relocs, p, j, relocs[j].target);
    KnowsMore(orig, relocs, rank, p, offsets, j);
  }

  /** A callee that is appended now. */
  lemma LayingNew(
    code: seq<Inst>, more: seq<Inst>, orig: seq<Program>, relocs: seq<Reloc>, rank: nat -> nat, p: nat,
    offsets: map<string, nat>, j: nat, q: nat)
    requires p < |orig| && j < |relocs| && Laying(code, orig, relocs, rank, p, offsets, j, j)
    requires Belongs(orig, relocs[j], p) && relocs[j].target !in offsets
    requires Linkable(orig, relocs, rank) && IsLower(orig, relocs[j], rank, p, q)
    requires |more| == LinkedSize(orig, relocs, rank, q, |relocs|)
    ensures Laying(code + more, orig, relocs, rank, p, offsets[relocs[j].target := |code|], j + 1, j)
  {
    IsFirstNow(orig, relocs, rank, p, offsets, j);
    SizeNext(orig, relocs, rank, p, j, q);
    KnowsNew(orig, relocs, rank, p, offsets, j);
  }

  lemma SizeNext(orig: seq<Program>, relocs: seq<Reloc>, rank: nat -> nat, p: nat, j: nat, q: nat)
    requires p < |orig| && j < |relocs| && Linkable(orig, relocs, rank)
    requires IsFirst(orig, relocs, p, j) && IsLower(orig, relocs[j], rank, p, q)
    ensures LinkedSize(orig, relocs, rank, p, j + 1) ==
            LinkedSize(orig, relocs, rank, p, j) + LinkedSize(orig, relocs, rank, q, |relocs|)
  {
    assert HasLower(orig, relocs[j], rank, p);
    forall c: nat | IsLower(orig, relocs[j], rank, p, c) ensures c == q {
      assert orig[c].name == orig[q].name;
    }
  }

  lemma IsFirstNow(
    orig: seq<Program>, relocs: seq<Reloc>, rank: nat -> nat, p: nat, offsets: map<string, nat>, j: nat)
    requires p < |orig| && j < |relocs| && Belongs(orig, relocs[j], p) && relocs[j].target !in offsets
    requires forall i: nat {:trigger Knows(offsets, orig, relocs, rank, p, i)} ::
               i < j ==> Knows(offsets, orig, relocs, rank, p, i)
    ensures IsFirst(orig, relocs, p, j)
  {
    FirstOfTarget(orig, relocs, p, j, relocs[j].target);
    forall i: nat | i < j && IsFirst(orig, relocs, p, i) ensures relocs[i].target != relocs[j].target {
      assert Knows(offsets, orig, relocs, rank, p, i);
    }
  }

  lemma KnowsNew(
    orig: seq<Program>, relocs: seq<Reloc>, rank: nat -> nat, p: nat, offsets: map<string, nat>, j: nat)
    requires p < |orig| && j < |relocs| && IsFirst(orig, relocs, p, j)
    requires forall i: nat {:trigger Knows(offsets, orig, relocs, rank, p, i)} ::
               i < j ==> Knows(offsets, orig, relocs, rank, p, i)
    requires forall t {:trigger HasFirst(orig, relocs, p, j, t)} :: t in offsets ==> HasFirst(orig, relocs, p, j, t)
    ensures var now := offsets[relocs[j].target := LinkedSize(orig, relocs, rank, p, j)];
            && (forall i: nat {:trigger Knows(now, orig, relocs, rank, p, i)} ::
                  i < j + 1 ==> Knows(now, orig, relocs, rank, p, i))
            && forall t {:trigger HasFirst(orig, relocs, p, j + 1, t)} ::
                 t in now ==> HasFirst(orig, relocs, p, j + 1, t)
  {
    var now := offsets[relocs[j].target := LinkedSize(orig, relocs, rank, p, j)];
    forall i: nat | i < j + 1 ensures Knows(now, orig, relocs, rank, p, i) {
      if i < j {
        assert Knows(offsets, orig, relocs, rank, p, i);
      }
    }
    forall t | t in now ensures HasFirst(orig, relocs, p, j + 1, t) {
      if t != relocs[j].target {
        assert HasFirst(orig, relocs, p, j, t);
      }
    }
  }

  /** If a target has a call, it has a first one. */
  lemma {:induction false} FirstOfTarget(orig: seq<Program>, relocs: seq<Reloc>, p: nat, j: nat, target: string)
    requires p < |orig| && j <= |relocs|
    ensures HasFirst(orig, relocs, p, j, target)
            || forall i :: 0 <= i < j && Belongs(orig, relocs[i], p) ==> relocs[i].target != target
  {
    if j > 0 {
      FirstOfTarget(orig, relocs, p, j - 1, target);
      if HasFirst(orig, relocs, p, j - 1, target) {
        var i: nat :| i < j - 1 && IsFirst(orig, relocs, p, i) && relocs[i].target == target;
      } else if Belongs(orig, relocs[j - 1], p) && relocs[j - 1].target == target {
        assert IsFirst(orig, relocs, p, j - 1);
      }
    }
  }

  /** The distance is written, or does not fit. */
  lemma LayingFits(
    code: seq<Inst>, now: seq<Inst>, orig: seq<Program>, relocs: seq<Reloc>, rank: nat -> nat, p: nat,
    offsets: map<string, nat>, j: nat)
    requires p < |orig| && j < |relocs| && Laying(code, orig, relocs, rank, p, offsets, j + 1, j)
    requires Belongs(orig, relocs[j], p) && relocs[j].target in offsets && |now| == |code|
    ensures if offsets[relocs[j].target] - relocs[j].sourceOffset - 1 <= INT32_MAX
            then Laying(now, orig, relocs, rank, p, offsets, j + 1, j + 1)
            else !AllFit(orig, relocs, rank)
  {
    assert HasFirst(orig, relocs, p, j + 1, relocs[j].target);
    var i: nat :| i < j + 1 && IsFirst(orig, relocs, p, i) && relocs[i].target == relocs[j].target;
    assert Knows(offsets, orig, relocs, rank, p, i);
    OneFirst(orig, relocs, rank, p, i, j);
    if offsets[relocs[j].target] - relocs[j].sourceOffset - 1 > INT32_MAX {
      assert !IsNear(orig, relocs, rank, p, j, i);
      assert !FitsAt(orig, relocs, rank, p, j);
      assert !FitsUpTo(orig, relocs, rank, p, |relocs|);
    }
  }

  /** A call is near its callee if it is near the copy that was appended for the first such call. */
  lemma OneFirst(orig: seq<Program>, relocs: seq<Reloc>, rank: nat -> nat, p: nat, i: nat, j: nat)
    requires p < |orig| && i <= j < |relocs| && IsFirst(orig, relocs, p, i) && relocs[i].target == relocs[j].target
    ensures IsNear(orig, relocs, rank, p, j, i) ==> FitsAt(orig, relocs, rank, p, j)
  {
    forall k: nat | k <= j && k != i ensures IsNear(orig, relocs, rank, p, j, k) {
      assert !(IsFirst(orig, relocs, p, k) && relocs[k].target == relocs[j].target);
    }
  }

  /** A copy never lies in front of the program. */
  lemma {:induction false} SizeGrows(orig: seq<Program>, relocs: seq<Reloc>, rank: nat -> nat, p: nat, j: nat)
    requires p < |orig| && j <= |relocs|
    ensures |orig[p].code| <= LinkedSize(orig, relocs, rank, p, j)
    decreases j
  {
    if j > 0 {
      SizeGrows(orig, relocs, rank, p, j - 1);
    }
  }

  // ----- the linker -----

  /** find_subprogram: the first program of the section with this name. */
  method FindSubprogram(programs: seq<Program>, section: string, name: string) returns (q: Option<nat>)
    ensures q.Some? ==> q.value < |programs| && programs[q.value].section == section && programs[q.value].name == name
    ensures q.None? ==> forall i :: 0 <= i < |programs| ==> programs[i].section != section || programs[i].name != name
  {
    for i := 0 to |programs|
      invariant forall k :: 0 <= k < i ==> programs[k].section != section || programs[k].name != name
    {
      if programs[i].section == section && programs[i].name == name {
        return Some(i);
      }
    }
    return None;
  }

  ghost function Unresolved(programs: seq<Program>): set<nat> {
    set p | 0 <= p < |programs| && !programs[p].resolved
  }

  /** The programs of a file while their calls are being relocated. */
  class FileLinker {
    var programs: seq<Program>
    const relocs: seq<Reloc>
    ghost const orig: seq<Program>

    ghost predicate Valid()
      reads this
    {
      Consistent(programs, orig) && InRange(orig, relocs)
    }

    constructor (programs: seq<Program>, relocs: seq<Reloc>)
      requires InRange(programs, relocs) && forall p :: 0 <= p < |programs| ==> !programs[p].resolved
      ensures Valid() && this.programs == orig == programs && this.relocs == relocs
    {
      this.programs := programs;
      this.relocs := relocs;
      orig := programs;
    }

    /** append_subprograms. It stops whatever the calls look like, because a program counts
        as resolved from the start; if they are linkable, it links. */
    method AppendSubprograms(p: nat, ghost rank: nat -> nat, ghost busy: set<nat>) returns (status: Outcome)
      requires Valid() && p < |programs| && forall q :: q in busy && q < |programs| ==> programs[q].resolved
      modifies this`programs
      ensures Valid() && Keeps(old(programs), programs, {}) && programs[p].resolved
      ensures Linkable(orig, relocs, rank) ==> status != Missing
      ensures Linkable(orig, relocs, rank) && AllGood(old(programs), orig, relocs, busy)
              && (forall q :: q in busy ==> rank(q) > rank(p)) && status.Linked? ==>
                AllGood(programs, orig, relocs, busy)
      ensures Linkable(orig, relocs, rank) && (forall q :: q in busy ==> rank(q) > rank(p))
              && Measured(old(programs), orig, relocs, rank, busy) ==>
                if status.Linked? then Measured(programs, orig, relocs, rank, busy) else !AllFit(orig, relocs, rank)
      decreases Unresolved(programs), 0
    {
      if programs[p].resolved {
        return Linked;
      }
      ghost var linkable := Linkable(orig, relocs, rank) && AllGood(programs, orig, relocs, busy)
        && forall q :: q in busy ==> rank(q) > rank(p);
      ghost var measured := Linkable(orig, relocs, rank) && (forall q :: q in busy ==> rank(q) > rank(p))
        && Measured(programs, orig, relocs, rank, busy);
      if linkable {
        Begin(programs, orig, relocs, busy, p);
      }
      if measured {
        MeasuredStays(programs, programs[p := programs[p].(resolved := true)], orig, relocs, rank, busy + {p});
      }
      programs := programs[p := programs[p].(resolved := true)];
      ghost var before := programs;
      assert Unresolved(programs) < Unresolved(old(programs)) by {
        assert p in Unresolved(old(programs)) && p !in Unresolved(programs);
      }
      status := LinkCalls(p, rank, busy, linkable, measured);
      KeepsThrough(old(programs), before, programs, p);
      if status.Linked? && linkable {
        Finish(programs, orig, relocs, busy, p);
      }
      if status.Linked? && measured {
        MeasuredEnds(programs, orig, relocs, rank, busy, p);
      }
    }

    /** The loop over the relocations. */
    method LinkCalls(p: nat, ghost rank: nat -> nat, ghost busy: set<nat>, ghost linkable: bool, ghost measured: bool)
      returns (status: Outcome)
      requires Valid() && p < |programs| && programs[p] == orig[p].(resolved := true)
      requires forall q :: q in busy && q < |programs| ==> programs[q].resolved
      requires linkable || measured ==> Linkable(orig, relocs, rank) && forall q :: q in busy ==> rank(q) > rank(p)
      requires linkable ==> AllGood(programs, orig, relocs, busy + {p})
      requires measured ==> Measured(programs, orig, relocs, rank, busy + {p})
      modifies this`programs
      ensures Valid() && Keeps(old(programs), programs, {p}) && programs[p].resolved
      ensures Unresolved(programs) <= Unresolved(old(programs))
      ensures Linkable(orig, relocs, rank) ==> status != Missing
      ensures linkable && status.Linked? ==>
                AllGood(programs, orig, relocs, busy + {p}) && Good(programs, orig, relocs, busy + {p}, p)
      ensures measured ==>
                if status.Linked? then
                  Measured(programs, orig, relocs, rank, busy + {p}) && HasSize(programs, orig, relocs, rank, p)
                else !AllFit(orig, relocs, rank)
      decreases Unresolved(programs), 3
    {
      ghost var now := busy + {p};
      var offsets: map<string, nat> := map[];
      for j := 0 to |relocs|
        invariant Valid() && Keeps(old(programs), programs, {p}) && programs[p].resolved
        invariant Unresolved(programs) <= Unresolved(old(programs))
        invariant BodyAt(programs[p].code, 0, orig, relocs, p)
        invariant linkable ==> AllGood(programs, orig, relocs, now)
        invariant linkable ==> Progress(programs, orig, relocs, now, p, offsets, j)
        invariant measured ==> Measured(programs, orig, relocs, rank, now)
        invariant measured ==> Laying(programs[p].code, orig, relocs, rank, p, offsets, j, j)
      {
        status, offsets := Handle(p, j, offsets, rank, busy);
        if !status.Linked? {
          return;
        }
      }
      if linkable {
        ProgressMakesGood(programs, orig, relocs, now, p, offsets);
      }
      return Linked;
    }

    /** The loop body. */
    method Handle(p: nat, j: nat, known: map<string, nat>, ghost rank: nat -> nat, ghost busy: set<nat>)
      returns (status: Outcome, offsets: map<string, nat>)
      requires Valid() && p < |programs| && programs[p].resolved && j < |relocs|
      requires BodyAt(programs[p].code, 0, orig, relocs, p)
      requires forall q :: q in busy && q < |programs| ==> programs[q].resolved
      modifies this`programs
      ensures Valid() && Keeps(old(programs), programs, {p}) && programs[p].resolved
      ensures BodyAt(programs[p].code, 0, orig, relocs, p) && Unresolved(programs) <= Unresolved(old(programs))
      ensures Linkable(orig, relocs, rank) ==> status != Missing
      ensures Linkable(orig, relocs, rank) && (forall q :: q in busy ==> rank(q) > rank(p))
              && AllGood(old(programs), orig, relocs, busy + {p})
              && Progress(old(programs), orig, relocs, busy + {p}, p, known, j) && status.Linked? ==>
                && AllGood(programs, orig, relocs, busy + {p})
                && Progress(programs, orig, relocs, busy + {p}, p, offsets, j + 1)
      ensures Linkable(orig, relocs, rank) && (forall q :: q in busy ==> rank(q) > rank(p))
              && Measured(old(programs), orig, relocs, rank, busy + {p})
              && Laying(old(programs)[p].code, orig, relocs, rank, p, known, j, j) ==>
                if status.Linked? then
                  && Measured(programs, orig, relocs, rank, busy + {p})
                  && Laying(programs[p].code, orig, relocs, rank, p, offsets, j + 1, j + 1)
                else !AllFit(orig, relocs, rank)
      decreases Unresolved(programs), 2
    {
      var r := relocs[j];
      if r.progIndex >= |programs| || programs[r.progIndex].name != programs[p].name {
        if Laying(programs[p].code, orig, relocs, rank, p, known, j, j) {
          LayingSkips(programs[p].code, orig, relocs, rank, p, known, j);
        }
        return Linked, known;
      }
      status, offsets := AppendCallee(p, j, known, rank, busy);
      if status.Linked? {
        status := Relocate(p, j, offsets, rank, busy + {p});
      }
    }

    /** The first half of the loop body: the callee is linked and appended, if it has not
        been appended before. */
    method AppendCallee(p: nat, j: nat, known: map<string, nat>, ghost rank: nat -> nat, ghost busy: set<nat>)
      returns (status: Outcome, offsets: map<string, nat>)
      requires Valid() && p < |programs| && programs[p].resolved && j < |relocs| && Belongs(programs, relocs[j], p)
      requires BodyAt(programs[p].code, 0, orig, relocs, p)
      requires forall q :: q in busy && q < |programs| ==> programs[q].resolved
      modifies this`programs
      ensures Valid() && Keeps(old(programs), programs, {p}) && programs[p].resolved
      ensures BodyAt(programs[p].code, 0, orig, relocs, p) && Unresolved(programs) <= Unresolved(old(programs))
      ensures status.Linked? ==> relocs[j].target in offsets
      ensures Linkable(orig, relocs, rank) ==> status != Missing
      ensures Linkable(orig, relocs, rank) && (forall q :: q in busy ==> rank(q) > rank(p))
              && AllGood(old(programs), orig, relocs, busy + {p})
              && Progress(old(programs), orig, relocs, busy + {p}, p, known, j) && status.Linked? ==>
                && AllGood(programs, orig, relocs, busy + {p})
                && Progress(programs, orig, relocs, busy + {p}, p, offsets, j)
      ensures Linkable(orig, relocs, rank) && (forall q :: q in busy ==> rank(q) > rank(p))
              && Measured(old(programs), orig, relocs, rank, busy + {p})
              && Laying(old(programs)[p].code, orig, relocs, rank, p, known, j, j) ==>
                if status.Linked? then
                  && Measured(programs, orig, relocs, rank, busy + {p})
                  && Laying(programs[p].code, orig, relocs, rank, p, offsets, j + 1, j)
                else !AllFit(orig, relocs, rank)
      decreases Unresolved(programs), 1
    {
      ghost var now := busy + {p};
      offsets := known;
      var r := relocs[j];
      if r.target in offsets {
        if Laying(programs[p].code, orig, relocs, rank, p, known, j, j) {
          LayingKnown(programs[p].code, orig, relocs, rank, p, known, j);
        }
        return Linked, offsets;
      }
      if r.section.None? {
        LinkableHasCallee(orig, relocs, rank, j);
        return Thrown, offsets;
      }
      var found := FindSubprogram(programs, r.section.value, r.target);
      LinkableHasCallee(orig, relocs, rank, j);
      if found.None? {
        return Missing, offsets;
      }
      var q := found.value;
      assert IsCallee(orig, r, q);
      status := AppendSubprograms(q, rank, now);
      if !status.Linked? {
        return;
      }
      ghost var before := programs;
      offsets := offsets[r.target := |programs[p].code|];
      AppendCode(p, programs[q].code);
      AppendStep(old(programs), before, programs, orig, relocs, rank, now, p, known, j, q);
      MeasureStep(old(programs), before, programs, orig, relocs, rank, busy, p, known, j, q);
    }

    method AppendCode(p: nat, code: seq<Inst>)
      requires p < |programs|
      modifies this`programs
      ensures programs == old(programs)[p := old(programs[p]).(code := old(programs[p].code) + code)]
    {
      programs := programs[p := programs[p].(code := programs[p].code + code)];
    }

    /** The second half: the distance goes into the immediate of the call. */
    method Relocate(p: nat, j: nat, offsets: map<string, nat>, ghost rank: nat -> nat, ghost now: set<nat>)
      returns (status: Outcome)
      requires Valid() && p < |programs| && programs[p].resolved && j < |relocs| && Belongs(programs, relocs[j], p)
      requires BodyAt(programs[p].code, 0, orig, relocs, p) && relocs[j].target in offsets && p in now
      modifies this`programs
      ensures Valid() && Keeps(old(programs), programs, {p}) && programs[p].resolved && status != Missing
      ensures BodyAt(programs[p].code, 0, orig, relocs, p) && Unresolved(programs) == Unresolved(old(programs))
      ensures Linkable(orig, relocs, rank) && AllGood(old(programs), orig, relocs, now)
              && Progress(old(programs), orig, relocs, now, p, offsets, j) && status.Linked? ==>
                AllGood(programs, orig, relocs, now) && Progress(programs, orig, relocs, now, p, offsets, j + 1)
      ensures Measured(old(programs), orig, relocs, rank, now)
              && Laying(old(programs)[p].code, orig, relocs, rank, p, offsets, j + 1, j) ==>
                if status.Linked? then
                  && Measured(programs, orig, relocs, rank, now)
                  && Laying(programs[p].code, orig, relocs, rank, p, offsets, j + 1, j + 1)
                else !AllFit(orig, relocs, rank)
    {
      var r := relocs[j];
      var difference := offsets[r.target] - r.sourceOffset - 1;
      NoFurtherBack(programs[p].code, orig, relocs, rank, p, offsets, j);
      if difference < INT32_MIN || difference > INT32_MAX {
        return Thrown;
      }
      BodyPatched(programs[p].code, orig, relocs, p, r, difference);
      SetImmediate(p, r.sourceOffset, difference);
      RelocateStep(old(programs), programs, orig, relocs, rank, now, p, offsets, j);
      PatchStep(old(programs), programs, orig, relocs, rank, now, p, offsets, j);
      return Linked;
    }

    method SetImmediate(p: nat, s: nat, imm: Int32)
      requires p < |programs| && s < |programs[p].code|
      modifies this`programs
      ensures programs == WithImmediate(old(programs), p, s, imm)
    {
      var code := programs[p].code;
      programs := programs[p := programs[p].(code := code[s := code[s].(imm := imm)])];
    }

    /** The loop at the end of read_elf. If it returns, every program is linked: every
        relocated call, in the program itself and in the copies in it, to any depth, goes to
        the callee it was meant for. */
    method LinkAll(section: string, ghost rank: nat -> nat) returns (status: Outcome)
      requires Valid() && programs == orig && forall p :: 0 <= p < |programs| ==> !programs[p].resolved
      modifies this`programs
      ensures Valid()
      ensures status.Linked? ==> forall p :: 0 <= p < |programs| ==> programs[p].resolved
      ensures Linkable(orig, relocs, rank) ==> (status.Linked? <==> AllFit(orig, relocs, rank)) && status != Missing
      ensures Linkable(orig, relocs, rank) && status.Linked? ==>
                forall p :: 0 <= p < |programs| ==> Resolves(programs[p].code, 0, orig, relocs, rank, p)
    {
      for p := 0 to |programs|
        invariant Valid() && |programs| == |orig|
        invariant forall q :: 0 <= q < p ==> programs[q].resolved
        invariant Linkable(orig, relocs, rank) ==> AllGood(programs, orig, relocs, {})
        invariant Linkable(orig, relocs, rank) ==> Measured(programs, orig, relocs, rank, {})
      {
        ghost var before := programs;
        status := AppendSubprograms(p, rank, {});
        if status.Thrown? || (status.Missing? && programs[p].section == section) {
          return;
        }
        assert forall q :: 0 <= q < p ==> before[q].resolved && programs[q] == before[q];
      }
      if Linkable(orig, relocs, rank) {
        forall p: nat | p < |orig| ensures FitsUpTo(orig, relocs, rank, p, |relocs|) {
          assert HasSize(programs, orig, relocs, rank, p);
        }
        forall p | 0 <= p < |programs|
          ensures Resolves(programs[p].code, 0, orig, relocs, rank, p)
        {
          CopyResolves(programs[p].code, 0, programs, orig, relocs, rank, p);
        }
      }
      return Linked;
    }
  }

  /** Work on p is done. */
  lemma MeasuredEnds(
    programs: seq<Program>, orig: seq<Program>, relocs: seq<Reloc>, rank: nat -> nat, busy: set<nat>, p: nat)
    requires Measured(programs, orig, relocs, rank, busy + {p}) && p < |programs|
    requires HasSize(programs, orig, relocs, rank, p)
    ensures Measured(programs, orig, relocs, rank, busy)
  {
  }

  /** A callee was linked and appended. */
  lemma MeasureStep(
    was: seq<Program>, mid: seq<Program>, now: seq<Program>, orig: seq<Program>, relocs: seq<Reloc>,
    rank: nat -> nat, busy: set<nat>, p: nat, offsets: map<string, nat>, j: nat, q: nat)
    requires p < |orig| == |was| == |mid| && j < |relocs| && Keeps(was, mid, {}) && was[p].resolved
    requires q < |mid| && mid[q].resolved && relocs[j].target !in offsets && Belongs(orig, relocs[j], p)
    requires now == mid[p := mid[p].(code := mid[p].code + mid[q].code)] && IsCallee(orig, relocs[j], q)
    ensures Linkable(orig, relocs, rank) && (forall b :: b in busy ==> rank(b) > rank(p))
            && Measured(mid, orig, relocs, rank, busy + {p})
            && Laying(was[p].code, orig, relocs, rank, p, offsets, j, j) ==>
              && Measured(now, orig, relocs, rank, busy + {p})
              && Laying(now[p].code, orig, relocs, rank, p, offsets[relocs[j].target := |mid[p].code|], j + 1, j)
  {
    if Linkable(orig, relocs, rank) && (forall b :: b in busy ==> rank(b) > rank(p))
       && Measured(mid, orig, relocs, rank, busy + {p}) && Laying(was[p].code, orig, relocs, rank, p, offsets, j, j) {
      CalleeIsLower(orig, relocs, rank, p, j, q);
      assert HasSize(mid, orig, relocs, rank, q);
      LayingNew(mid[p].code, mid[q].code, orig, relocs, rank, p, offsets, j, q);
      MeasuredStays(mid, now, orig, relocs, rank, busy + {p});
    }
  }

  lemma CalleeIsLower(orig: seq<Program>, relocs: seq<Reloc>, rank: nat -> nat, p: nat, j: nat, q: nat)
    requires p < |orig| && j < |relocs| && Linkable(orig, relocs, rank) && Belongs(orig, relocs[j], p)
    requires IsCallee(orig, relocs[j], q)
    ensures IsLower(orig, relocs[j], rank, p, q)
  {
    LinkableHasCallee(orig, relocs, rank, j);
    var c: nat :| IsCallee(orig, relocs[j], c) && rank(c) < rank(relocs[j].progIndex);
    assert orig[c].name == orig[q].name && orig[relocs[j].progIndex].name == orig[p].name;
  }

  /** A distance was written. */
  lemma PatchStep(
    was: seq<Program>, now: seq<Program>, orig: seq<Program>, relocs: seq<Reloc>, rank: nat -> nat, busy: set<nat>,
    p: nat, offsets: map<string, nat>, j: nat)
    requires p < |orig| == |was| == |now| && p in busy && j < |relocs| && Belongs(orig, relocs[j], p)
    requires relocs[j].target in offsets && offsets[relocs[j].target] - relocs[j].sourceOffset - 1 <= INT32_MAX
    requires |now[p].code| == |was[p].code| && forall q :: 0 <= q < |was| && q != p ==> now[q] == was[q]
    ensures Measured(was, orig, relocs, rank, busy)
            && Laying(was[p].code, orig, relocs, rank, p, offsets, j + 1, j) ==>
              && Measured(now, orig, relocs, rank, busy)
              && Laying(now[p].code, orig, relocs, rank, p, offsets, j + 1, j + 1)
  {
    if Measured(was, orig, relocs, rank, busy) && Laying(was[p].code, orig, relocs, rank, p, offsets, j + 1, j) {
      LayingFits(was[p].code, now[p].code, orig, relocs, rank, p, offsets, j);
      MeasuredStays(was, now, orig, relocs, rank, busy);
    }
  }

  /** Copies lie behind their calls, so that a distance that does not fit is too large. */
  lemma NoFurtherBack(
    code: seq<Inst>, orig: seq<Program>, relocs: seq<Reloc>, rank: nat -> nat, p: nat, offsets: map<string, nat>,
    j: nat)
    requires p < |orig| && j < |relocs| && Belongs(orig, relocs[j], p) && relocs[j].target in offsets
    requires InRange(orig, relocs)
    ensures Laying(code, orig, relocs, rank, p, offsets, j + 1, j) ==>
              && offsets[relocs[j].target] - relocs[j].sourceOffset - 1 >= 0
              && (offsets[relocs[j].target] - relocs[j].sourceOffset - 1 > INT32_MAX ==> !AllFit(orig, relocs, rank))
  {
    if Laying(code, orig, relocs, rank, p, offsets, j + 1, j) {
      assert HasFirst(orig, relocs, p, j + 1, relocs[j].target);
      var i: nat :| i < j + 1 && IsFirst(orig, relocs, p, i) && relocs[i].target == relocs[j].target;
      assert Knows(offsets, orig, relocs, rank, p, i) && relocs[j] in relocs;
      SizeGrows(orig, relocs, rank, p, i);
      LayingFits(code, code, orig, relocs, rank, p, offsets, j);
    }
  }

  lemma KeepsThrough(was: seq<Program>, mid: seq<Program>, now: seq<Program>, p: nat)
    requires Keeps(was, mid, {}) && Keeps(mid, now, {p}) && p < |was| && !was[p].resolved
    ensures Keeps(was, now, {})
  {
    forall q | 0 <= q < |was| && was[q].resolved
      ensures now[q] == was[q]
    {
      assert mid[q] == was[q];
    }
  }

  lemma LinkableHasCallee(orig: seq<Program>, relocs: seq<Reloc>, rank: nat -> nat, j: nat)
    requires j < |relocs| && relocs[j].progIndex < |orig|
    ensures Linkable(orig, relocs, rank) ==> HasCallee(orig, relocs[j], rank)
  {
    assert relocs[j] in relocs;
  }
}
