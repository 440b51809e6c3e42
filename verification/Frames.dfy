/** Frames of unsatisfiable cores: the invariants the search keeps, and what they say
    about traces of every length. */
module Frames {
  import opened Formulas
  import opened Preprocess
  import opened Cnf
  import opened Encoding
  import opened Steps
  import opened CarSolvers

  type Core = seq<VLit>
  type Frame = seq<Core>

  // ------------------------------------------------- cores, frames and traces

  /** The first state of the trace satisfies every formula of the core. */
  ghost predicate CoreHolds(core: Core, tr: Trace, rd: Reading)
    requires |tr| > 0
  {
    forall l :: l in core ==> Sat(LitFormula(l), tr, 0, rd)
  }

  /** Some core of the frame holds in the first state of the trace. */
  ghost predicate Covered(frame: Frame, tr: Trace, rd: Reading)
    requires |tr| > 0
  {
    exists core :: core in frame && CoreHolds(core, tr, rd)
  }

  /** No state can satisfy the core and be the last one. */
  ghost predicate NotFinal(root: Formula, core: Core) {
    forall tr: Trace, rd: Reading :: |tr| == 1 && Allowed(root, rd) ==> !CoreHolds(core, tr, rd)
  }

  /** Every successor of a state that satisfies the core is covered by the frame. */
  ghost predicate LeadsInto(root: Formula, core: Core, frame: Frame) {
    forall tr: Trace, rd: Reading :: |tr| >= 2 && Allowed(root, rd) && CoreHolds(core, tr, rd) ==> Covered(frame, tr[1..], rd)
  }

  /** What makes a core fit to stand in frame j. */
  ghost predicate CoreOk(root: Formula, frames: seq<Frame>, j: nat, core: Core)
    requires j <= |frames|
  {
    StateLits(root, core) && if j == 0 then NotFinal(root, core) else LeadsInto(root, core, frames[j - 1])
  }

  /** The core consists of conjuncts of f. */
  predicate CoreOf(core: Core, f: Formula) { forall l :: l in core ==> exists g :: g in ToSet(f) && l == SatLit(g) }

  /** The frame holds a core of f. */
  predicate Blocks(frame: Frame, f: Formula) { exists core :: core in frame && CoreOf(core, f) }

  /** The invariant of the whole search. */
  ghost predicate FramesOk(root: Formula, frames: seq<Frame>) {
    && (forall j, core :: 0 <= j < |frames| && core in frames[j] ==> CoreOk(root, frames, j, core))
    && (forall j :: 0 <= j < |frames| ==> Blocks(frames[j], root))
  }

  /** The frames have only grown. */
  predicate Grown(before: seq<Frame>, after: seq<Frame>) {
    |before| == |after| && forall j :: 0 <= j < |before| ==> before[j] <= after[j]
  }

  lemma CoveredGrows(a: Frame, b: Frame, tr: Trace, rd: Reading)
    requires a <= b && |tr| > 0 && Covered(a, tr, rd)
    ensures Covered(b, tr, rd)
  {
    var core :| core in a && CoreHolds(core, tr, rd);
    assert core in b;
  }

  lemma LeadsIntoGrows(root: Formula, core: Core, a: Frame, b: Frame)
    requires a <= b && LeadsInto(root, core, a)
    ensures LeadsInto(root, core, b)
  {
    forall tr: Trace, rd: Reading | |tr| >= 2 && Allowed(root, rd) && CoreHolds(core, tr, rd)
      ensures Covered(b, tr[1..], rd)
    {
      CoveredGrows(a, b, tr[1..], rd);
    }
  }

  lemma CoreOkGrows(root: Formula, before: seq<Frame>, after: seq<Frame>, j: nat, core: Core)
    requires Grown(before, after) && j <= |before| && CoreOk(root, before, j, core)
    ensures CoreOk(root, after, j, core)
  {
    if j > 0 { LeadsIntoGrows(root, core, before[j - 1], after[j - 1]); }
  }

  /** Adding a fitting core to a frame keeps the invariant: what was learnt about later
      frames stays true when an earlier one grows. */
  lemma AddCoreKeeps(root: Formula, frames: seq<Frame>, k: nat, core: Core)
    requires FramesOk(root, frames) && k < |frames| && CoreOk(root, frames, k, core)
    ensures FramesOk(root, frames[k := frames[k] + [core]]) && Grown(frames, frames[k := frames[k] + [core]])
  {
    var after := frames[k := frames[k] + [core]];
    forall j, c | 0 <= j < |after| && c in after[j] ensures CoreOk(root, after, j, c) {
      assert CoreOk(root, frames, j, c);
      CoreOkGrows(root, frames, after, j, c);
    }
    forall j | 0 <= j < |after| ensures Blocks(after[j], root) {
      var c :| c in frames[j] && CoreOf(c, root);
      assert c in after[j];
    }
  }

  lemma AddFrameKeeps(root: Formula, frames: seq<Frame>, frame: Frame)
    requires FramesOk(root, frames)
    requires forall core :: core in frame ==> CoreOk(root, frames, |frames|, core)
    requires Blocks(frame, root)
    ensures FramesOk(root, frames + [frame])
  {
    var after := frames + [frame];
    forall j, c | 0 <= j < |after| && c in after[j] ensures CoreOk(root, after, j, c) {
      assert CoreOk(root, frames, j, c);
    }
  }

  /** No trace of length k + 1 satisfies a core of frame k. */
  lemma {:induction false} NoShortCore(root: Formula, frames: seq<Frame>, k: nat, core: Core, tr: Trace, rd: Reading)
    requires FramesOk(root, frames) && k < |frames| && core in frames[k]
    requires |tr| == k + 1 && Allowed(root, rd)
    ensures !CoreHolds(core, tr, rd)
  {
    assert CoreOk(root, frames, k, core);
    if k > 0 && CoreHolds(core, tr, rd) {
      var c :| c in frames[k - 1] && CoreHolds(c, tr[1..], rd);
      NoShortCore(root, frames, k - 1, c, tr[1..], rd);
    }
  }

  /** f has no trace of length k + 1 or less. */
  ghost predicate NoShort(root: Formula, f: Formula, k: nat) {
    forall tr: Trace, rd: Reading :: 1 <= |tr| <= k + 1 && Allowed(root, rd) ==> !Sat(f, tr, 0, rd)
  }

  lemma CoreOfHolds(core: Core, f: Formula, tr: Trace, rd: Reading)
    requires CoreOf(core, f) && |tr| > 0 && Sat(f, tr, 0, rd) && rd.looseFalse
    ensures CoreHolds(core, tr, rd)
  {
    ToSetSat(f, tr, 0, rd);
    assert AllSat(ToSet(f), tr, 0, rd);
    forall l | l in core ensures Sat(LitFormula(l), tr, 0, rd) {
      var g :| g in ToSet(f) && l == SatLit(g);
      assert LitFormula(l) == g && Sat(g, tr, 0, rd);
    }
  }

  lemma RootHasNoShort(root: Formula, frames: seq<Frame>, k: nat)
    requires Prepared(root) && FramesOk(root, frames) && k < |frames|
    ensures NoShort(root, root, k)
  {
    forall tr: Trace, rd: Reading | 1 <= |tr| <= k + 1 && Allowed(root, rd)
      ensures !Sat(root, tr, 0, rd)
    {
      var n := |tr| - 1;
      assert Blocks(frames[n], root);
      var core :| core in frames[n] && CoreOf(core, root);
      NoShortCore(root, frames, n, core, tr, rd);
      ToSetIsSub(root);
      NnfNegations(root);
      if Sat(root, tr, 0, rd) { CoreOfHolds(core, root, tr, rd); }
    }
  }

  lemma {:induction false} ToSetIsSub(f: Formula)
    ensures ToSet(f) <= Sub(f)
  {
    if f.And? {
      ToSetIsSub(f.l);
      ToSetIsSub(f.r);
      assert f.l in Operands(f) && f.r in Operands(f);
    }
  }

  // ------------------------------------------- what the step solver knows

  /** Besides the clauses it started with, the solver holds exactly the blocking clauses
      of the cores in the frames, except the discarded ones. */
  ghost predicate OnlyBlocks(root: Formula, cs: seq<VClause>, frames: seq<Frame>) {
    forall c :: c in cs ==> IsBase(root, c) || exists j: nat, core :: BlockOf(root, c, frames, j, core)
  }

  ghost predicate BlockOf(root: Formula, c: VClause, frames: seq<Frame>, j: nat, core: Core) {
    j < |frames| && core in frames[j] && !Discarded(root, core) && IsBlock(root, c, core, j)
  }

  ghost predicate AllBlocks(root: Formula, cs: seq<VClause>, frames: seq<Frame>) {
    forall j: nat, core :: j < |frames| && core in frames[j] ==> Discarded(root, core) || exists c :: c in cs && IsBlock(root, c, core, j)
  }

  lemma BaseHasNoFlags(root: Formula, c: VClause)
    requires IsBase(root, c)
    ensures forall l :: l in c ==> !l.v.Flag?
  {
    if IsEncoded(Sub(root), c) {
      var g :| g in Sub(root) && c in LocalClauses(g);
      LocalHasNoFlags(g);
    }
  }

  lemma LocalHasNoFlags(g: Formula)
    ensures forall c, l :: c in LocalClauses(g) && l in c ==> !l.v.Flag?
  {
  }

  lemma SameClause(m: set<Var>, k: nat, c: VClause)
    requires ClauseTrue(m, c) && forall l :: l in c ==> !l.v.Flag?
    ensures ClauseTrue(m + {Flag(k)}, c)
  {
    var l :| l in c && LitTrue(m, l);
    assert LitTrue(m + {Flag(k)}, l);
  }

  lemma StepModelHasNoFlags(root: Formula, tr: Trace, rd: Reading, j: nat)
    requires |tr| > 0
    ensures Flag(j) !in StepModel(root, tr, 0, rd)
  {
  }

  /** The first state of a trace whose rest avoids frame k is a model of the solver's
      clauses in which only that frame is on. */
  lemma TraceAvoidingFrame(root: Formula, cs: seq<VClause>, frames: seq<Frame>, k: nat, tr: Trace, rd: Reading)
    requires OnlyBlocks(root, cs, frames) && FramesOk(root, frames) && k < |frames|
    requires |tr| >= 2 && Allowed(root, rd) && !Covered(frames[k], tr[1..], rd)
    ensures Models(StepModel(root, tr, 0, rd) + {Flag(k)}, cs)
  {
    hide CoreOk, BlockOf, IsBase, ClauseTrue, StepModel, Allowed;
    var m := StepModel(root, tr, 0, rd);
    forall c | c in cs ensures ClauseTrue(m + {Flag(k)}, c) {
      if IsBase(root, c) {
        BaseTrue(root, c, k, tr, rd);
      } else {
        var j: nat, core :| BlockOf(root, c, frames, j, core);
        if j == k {
          BlockAvoided(root, c, frames, k, core, tr, rd);
        } else {
          OtherBlockTrue(root, c, frames, j, core, k, tr, rd);
        }
      }
    }
  }

  lemma BaseTrue(root: Formula, c: VClause, k: nat, tr: Trace, rd: Reading)
    requires IsBase(root, c) && |tr| > 0 && Allowed(root, rd)
    ensures ClauseTrue(StepModel(root, tr, 0, rd) + {Flag(k)}, c)
  {
    TraceGivesModel(root, tr, 0, rd);
    BaseHasNoFlags(root, c);
    SameClause(StepModel(root, tr, 0, rd), k, c);
  }

  lemma BlockAvoided(root: Formula, c: VClause, frames: seq<Frame>, k: nat, core: Core, tr: Trace, rd: Reading)
    requires FramesOk(root, frames) && k < |frames| && BlockOf(root, c, frames, k, core)
    requires |tr| >= 2 && Allowed(root, rd) && !Covered(frames[k], tr[1..], rd)
    ensures ClauseTrue(StepModel(root, tr, 0, rd) + {Flag(k)}, c)
  {
    hide StepModel, Allowed, IsBlock;
    assert CoreOk(root, frames, k, core);
    BlockTrue(root, c, core, k, tr, rd);
  }

  /** A block of another frame is true because that frame is off. */
  lemma OtherBlockTrue(root: Formula, c: VClause, frames: seq<Frame>, j: nat, core: Core, k: nat, tr: Trace, rd: Reading)
    requires BlockOf(root, c, frames, j, core) && j != k && |tr| > 0
    ensures ClauseTrue(StepModel(root, tr, 0, rd) + {Flag(k)}, c)
  {
    hide StepModel;
    StepModelHasNoFlags(root, tr, rd, j);
    assert Lit(Flag(j), false) in (set x | x in c);
  }

  lemma BlockTrue(root: Formula, c: VClause, core: Core, k: nat, tr: Trace, rd: Reading)
    requires IsBlock(root, c, core, k) && !Discarded(root, core) && StateLits(root, core)
    requires |tr| >= 2 && Allowed(root, rd) && !CoreHolds(core, tr[1..], rd)
    ensures ClauseTrue(StepModel(root, tr, 0, rd) + {Flag(k)}, c)
  {
    var l :| l in core && !Sat(LitFormula(l), tr[1..], 0, rd);
    var g := LitFormula(l);
    assert g in Blockable(root, core);
    NextValue(root, g, tr, rd);
    var x := Lit(NextVar(g), false);
    assert x in BlockLits(Blockable(root, core), k);
    assert x in c;
    assert LitTrue(StepModel(root, tr, 0, rd) + {Flag(k)}, x);
  }

  lemma NextValue(root: Formula, g: Formula, tr: Trace, rd: Reading)
    requires |tr| >= 2 && g in NextKeys(root)
    ensures NextVar(g) in StepModel(root, tr, 0, rd) <==> Sat(g, tr[1..], 0, rd)
  {
    SatSuffix(g, tr, 0, rd);
    TraceValues(root, tr, 0, rd);
    assert Next(g) in Universe(root);
  }

  /** A one-state trace is a model of the solver's clauses in which no frame is on. */
  lemma LastStateModel(root: Formula, cs: seq<VClause>, frames: seq<Frame>, tr: Trace, rd: Reading)
    requires OnlyBlocks(root, cs, frames) && |tr| == 1 && Allowed(root, rd)
    ensures Models(StepModel(root, tr, 0, rd), cs) && TAILVAR in StepModel(root, tr, 0, rd)
  {
    var m := StepModel(root, tr, 0, rd);
    TraceGivesModel(root, tr, 0, rd);
    assert TAIL in Universe(root);
    forall c | c in cs ensures ClauseTrue(m, c) {
      if !IsBase(root, c) {
        var j: nat, core :| BlockOf(root, c, frames, j, core);
        StepModelHasNoFlags(root, tr, rd, j);
        assert Lit(Flag(j), false) in (set x | x in c);
      }
    }
  }

  lemma CoreTrueInModel(root: Formula, core: Core, tr: Trace, rd: Reading)
    requires StateLits(root, core) && |tr| > 0 && Allowed(root, rd) && CoreHolds(core, tr, rd)
    ensures AllTrue(StepModel(root, tr, 0, rd), core)
  {
    TraceGivesModel(root, tr, 0, rd);
    assert True in Universe(root);
  }

  /** The part of a core that comes from the state, learnt while frame k was on, leads
      into frame k. */
  lemma LearnStep(root: Formula, cs: seq<VClause>, frames: seq<Frame>, k: nat, conflict: seq<VLit>, uc: Core)
    requires OnlyBlocks(root, cs, frames) && FramesOk(root, frames) && k < |frames|
    requires Unsat(cs, conflict) && (forall l :: l in conflict ==> l in uc || l == Pos(Flag(k)))
    requires StateLits(root, uc)
    ensures CoreOk(root, frames, k + 1, uc)
  {
    forall tr: Trace, rd: Reading | |tr| >= 2 && Allowed(root, rd) && CoreHolds(uc, tr, rd)
      ensures Covered(frames[k], tr[1..], rd)
    {
      if !Covered(frames[k], tr[1..], rd) {
        var m := StepModel(root, tr, 0, rd);
        TraceAvoidingFrame(root, cs, frames, k, tr, rd);
        CoreTrueInModel(root, uc, tr, rd);
        forall l | l in conflict ensures LitTrue(m + {Flag(k)}, l) {
          if l in uc { assert l.v.F?; }
        }
      }
    }
  }

  /** A core learnt from a failed final check is never true in a last state. */
  lemma LearnFinal(root: Formula, cs: seq<VClause>, frames: seq<Frame>, conflict: seq<VLit>, uc: Core)
    requires OnlyBlocks(root, cs, frames)
    requires Unsat(cs, conflict) && (forall l :: l in conflict ==> l in uc || l == Pos(TAILVAR))
    requires StateLits(root, uc)
    ensures NotFinal(root, uc)
  {
    forall tr: Trace, rd: Reading | |tr| == 1 && Allowed(root, rd)
      ensures !CoreHolds(uc, tr, rd)
    {
      if CoreHolds(uc, tr, rd) {
        LastStateModel(root, cs, frames, tr, rd);
        CoreTrueInModel(root, uc, tr, rd);
      }
    }
  }

  /** A core always names a formula of the state: the frames alone can never rule out
      every successor, because no trace of length k + 1 is covered by frame k. */
  lemma StepCoreNotEmpty(root: Formula, cs: seq<VClause>, frames: seq<Frame>, k: nat, conflict: seq<VLit>)
    requires OnlyBlocks(root, cs, frames) && FramesOk(root, frames) && k < |frames|
    requires Unsat(cs, conflict)
    ensures exists l :: l in conflict && l != Pos(Flag(k))
  {
    if forall l :: l in conflict ==> l == Pos(Flag(k)) {
      var rd := SomeReading(root);
      SomeReadingAllowed(root);
      var tr: Trace := seq(k + 2, _ => {});
      forall core | core in frames[k] ensures !CoreHolds(core, tr[1..], rd) {
        NoShortCore(root, frames, k, core, tr[1..], rd);
      }
      TraceAvoidingFrame(root, cs, frames, k, tr, rd);
      assert AllTrue(StepModel(root, tr, 0, rd) + {Flag(k)}, conflict);
    }
  }

  lemma FinalCoreNotEmpty(root: Formula, cs: seq<VClause>, frames: seq<Frame>, conflict: seq<VLit>)
    requires OnlyBlocks(root, cs, frames) && Unsat(cs, conflict)
    ensures exists l :: l in conflict && l != Pos(TAILVAR)
  {
    if forall l :: l in conflict ==> l == Pos(TAILVAR) {
      var rd := SomeReading(root);
      SomeReadingAllowed(root);
      LastStateModel(root, cs, frames, [{}], rd);
    }
  }
}
