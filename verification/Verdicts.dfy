/** Why the two verdicts of the search are right, and why it ends. */
module Verdicts {
  import opened Formulas
  import opened Preprocess
  import opened Cnf
  import opened Sets
  import opened Encoding
  import opened Steps
  import opened CarSolvers
  import opened Frames

  // ------------------------------------------------------- satisfiable verdict

  /** The atoms that a model makes true. */
  function StateOf(root: Formula, m: set<Var>): State {
    set a | a in Sub(root) && a.Atom? && F(a) in m :: a.op
  }

  /** The reading in which the last state's nexts are those of the model. */
  function ModelReading(root: Formula, m: set<Var>): Reading {
    Reading(true, false, set g | g in NextKeys(root) && NextVar(g) in m)
  }

  lemma ModelReadingAllowed(root: Formula, m: set<Var>)
    requires ModelsBase(root, m)
    ensures Allowed(root, ModelReading(root, m))
  {
    forall p, q | ConflictPair(root, p, q)
      ensures ModelReading(root, m).LastNext(p) != ModelReading(root, m).LastNext(q)
    {
      forall c | c in Equiv1(Pos(NextVar(p)), Pos(NextVar(q)).Neg()) ensures ClauseTrue(m, c) {
        assert IsConflict(root, c);
      }
      Equiv1Meaning(m, Pos(NextVar(p)), Pos(NextVar(q)).Neg());
    }
  }

  /** The trace has as many states as the path and satisfies its labels one by one. */
  ghost predicate Matches(path: seq<Formula>, tr: Trace, rd: Reading) {
    |tr| == |path| && forall i :: 0 <= i < |path| ==> Sat(path[i], tr, i, rd)
  }

  /** Traces matching the path exist, and they all satisfy f. */
  ghost predicate Proves(root: Formula, path: seq<Formula>, f: Formula, rd: Reading) {
    && |path| > 0 && Allowed(root, rd)
    && (exists tr :: Matches(path, tr, rd))
    && (forall tr :: Matches(path, tr, rd) ==> Sat(f, tr, 0, rd))
  }

  /** A model of the solver's clauses that satisfies the formulas of the state f, read
      through the cone of those formulas. */
  ghost predicate Transition(root: Formula, m: set<Var>, cone: set<Var>, f: Formula, lbl: Formula, next: Formula) {
    && Prepared(root) && ModelsBase(root, m)
    && (forall g :: g in ToSet(f) ==> g.True? || (g in Sub(root) && LitTrue(m, SatLit(g)) && Coi(g) - CONSTS <= cone))
    && ToSet(lbl) == OrTrue(LabelOf(root, m, cone))
    && ToSet(next) == OrTrue(NextsOf(root, m, cone))
  }

  /** The model's own state satisfies the label. */
  lemma LabelSat(root: Formula, m: set<Var>, C: set<Var>, tr: Trace, rd: Reading)
    requires Prepared(root) && |tr| > 0 && tr[0] == StateOf(root, m) && (TAILVAR in m <==> |tr| == 1)
    ensures AllSat(LabelOf(root, m, C), tr, 0, rd)
  {
    NnfNegations(root);
    forall g | g in LabelOf(root, m, C) ensures Sat(g, tr, 0, rd) {
      var a := if g.Not? then g.r else g;
      assert a in Sub(root) by {
        OperandsAreSub(g, root);
        if g.Not? { assert g.r in Operands(g); }
      }
    }
  }

  /** Label and next state of a transition entail the state it was taken from. */
  lemma TransitionSound(root: Formula, m: set<Var>, cone: set<Var>, f: Formula, lbl: Formula, next: Formula,
        tr: Trace, rd: Reading)
    requires Transition(root, m, cone, f, lbl, next)
    requires |tr| > 0 && rd.looseFalse && (TAILVAR in m <==> |tr| == 1)
    requires Sat(lbl, tr, 0, rd)
    requires if |tr| == 1 then rd == ModelReading(root, m) else Sat(next, tr[1..], 0, rd)
    ensures Sat(f, tr, 0, rd)
  {
    ToSetSat(lbl, tr, 0, rd);
    assert AllSat(LabelOf(root, m, cone), tr, 0, rd);
    if |tr| > 1 { ToSetSat(next, tr[1..], 0, rd); }
    forall g | g in NextsOf(root, m, cone) ensures Sat(Next(g), tr, 0, rd) {
      if |tr| > 1 {
        assert g in ToSet(next);
        SatSuffix(g, tr, 0, rd);
      }
    }
    forall g | g in ToSet(f) ensures Sat(g, tr, 0, rd) {
      if !g.True? { StepSound(root, m, cone, g, tr, rd); }
    }
    ToSetSat(f, tr, 0, rd);
  }

  /** The model itself continues with any trace of the next state. */
  lemma ModelTrace(root: Formula, m: set<Var>, cone: set<Var>, f: Formula, lbl: Formula, next: Formula,
        rest: Trace, rd: Reading)
    requires Transition(root, m, cone, f, lbl, next)
    requires rd.looseFalse && (TAILVAR in m <==> rest == [])
    requires if rest == [] then rd == ModelReading(root, m) else Sat(next, rest, 0, rd)
    ensures Sat(lbl, [StateOf(root, m)] + rest, 0, rd) && Sat(f, [StateOf(root, m)] + rest, 0, rd)
  {
    var tr := [StateOf(root, m)] + rest;
    assert tr[1..] == rest;
    LabelSat(root, m, cone, tr, rd);
    assert AllSat(ToSet(lbl), tr, 0, rd);
    ToSetSat(lbl, tr, 0, rd);
    TransitionSound(root, m, cone, f, lbl, next, tr, rd);
  }

  /** A successful final check proves the state with a path of one label. */
  lemma FinalProves(root: Formula, m: set<Var>, cone: set<Var>, f: Formula, lbl: Formula, next: Formula)
    requires Transition(root, m, cone, f, lbl, next) && TAILVAR in m
    ensures Proves(root, [lbl], f, ModelReading(root, m))
  {
    var rd := ModelReading(root, m);
    ModelReadingAllowed(root, m);
    ModelTrace(root, m, cone, f, lbl, next, [], rd);
    assert [StateOf(root, m)] + [] == [StateOf(root, m)];
    assert Matches([lbl], [StateOf(root, m)], rd);
    forall tr | Matches([lbl], tr, rd) ensures Sat(f, tr, 0, rd) {
      assert [lbl][0] == lbl;
      TransitionSound(root, m, cone, f, lbl, next, tr, rd);
    }
  }

  lemma MatchesTail(lbl: Formula, path: seq<Formula>, tr: Trace, rd: Reading)
    requires |path| > 0
    ensures Matches([lbl] + path, tr, rd) <==> |tr| == |path| + 1 && Sat(lbl, tr, 0, rd) && Matches(path, tr[1..], rd)
  {
    if |tr| == |path| + 1 {
      forall i | 0 <= i < |path|
        ensures Sat(([lbl] + path)[i + 1], tr, i + 1, rd) <==> Sat(path[i], tr[1..], i, rd)
      {
        SatSuffix(path[i], tr, i, rd);
      }
      if Matches([lbl] + path, tr, rd) {
        forall i | 0 <= i < |path| ensures Sat(path[i], tr[1..], i, rd) {
          assert Sat(([lbl] + path)[i + 1], tr, i + 1, rd);
        }
        assert ([lbl] + path)[0] == lbl;
      }
      if Sat(lbl, tr, 0, rd) && Matches(path, tr[1..], rd) {
        forall i | 0 <= i < |path| + 1 ensures Sat(([lbl] + path)[i], tr, i, rd) {
          if i > 0 { assert Sat(path[i - 1], tr[1..], i - 1, rd); }
        }
      }
    }
  }

  /** Putting the label of a transition in front of a path for its next state gives a
      path for the state it was taken from. */
  lemma StepProves(root: Formula, m: set<Var>, cone: set<Var>, f: Formula, lbl: Formula, next: Formula,
        path: seq<Formula>, rd: Reading)
    requires Transition(root, m, cone, f, lbl, next) && TAILVAR !in m
    requires Proves(root, path, next, rd)
    ensures Proves(root, [lbl] + path, f, rd)
  {
    var rest :| Matches(path, rest, rd);
    ModelTrace(root, m, cone, f, lbl, next, rest, rd);
    var tr := [StateOf(root, m)] + rest;
    assert tr[1..] == rest;
    MatchesTail(lbl, path, tr, rd);
    forall tr | Matches([lbl] + path, tr, rd) ensures Sat(f, tr, 0, rd) {
      MatchesTail(lbl, path, tr, rd);
      TransitionSound(root, m, cone, f, lbl, next, tr, rd);
    }
  }

  /** While f has no one-state trace, the models of its step query are not marked Tail. */
  lemma NotTail(root: Formula, m: set<Var>, cone: set<Var>, f: Formula, lbl: Formula, next: Formula, k: nat)
    requires Transition(root, m, cone, f, lbl, next) && NoShort(root, f, k)
    ensures TAILVAR !in m
  {
    if TAILVAR in m {
      var tr := [StateOf(root, m)] + [];
      assert |tr| == 1;
      ModelReadingAllowed(root, m);
      ModelTrace(root, m, cone, f, lbl, next, [], ModelReading(root, m));
    }
  }

  lemma NextHasNoShort(root: Formula, m: set<Var>, cone: set<Var>, f: Formula, lbl: Formula, next: Formula, k: nat)
    requires Transition(root, m, cone, f, lbl, next) && NoShort(root, f, k + 1)
    ensures NoShort(root, next, k)
  {
    NotTail(root, m, cone, f, lbl, next, k + 1);
    forall tr: Trace, rd: Reading | 1 <= |tr| <= k + 1 && Allowed(root, rd)
      ensures !Sat(next, tr, 0, rd)
    {
      if Sat(next, tr, 0, rd) {
        var longer := [StateOf(root, m)] + tr;
        assert 1 <= |longer| <= k + 2;
        ModelTrace(root, m, cone, f, lbl, next, tr, rd);
      }
    }
  }

  // ----------------------------------------------------- unsatisfiable verdict

  /** An assignment to the formulas' variables makes some core of the frame true. */
  predicate PropCovered(A: set<Var>, frame: Frame) { exists core :: core in frame && AllTrue(A, core) }

  /** Whatever lies in all frames before i lies in frame i. */
  ghost predicate Included(frames: seq<Frame>, i: nat)
    requires i < |frames|
  {
    forall A: set<Var> :: (forall j :: 0 <= j < i ==> PropCovered(A, frames[j])) ==> PropCovered(A, frames[i])
  }

  lemma PropIsTrace(root: Formula, frame: Frame, tr: Trace, rd: Reading)
    requires (forall core :: core in frame ==> StateLits(root, core)) && |tr| > 0 && Allowed(root, rd)
    ensures PropCovered(StepModel(root, tr, 0, rd), frame) <==> Covered(frame, tr, rd)
  {
    TraceGivesModel(root, tr, 0, rd);
    assert True in Universe(root);
    forall core | core in frame
      ensures AllTrue(StepModel(root, tr, 0, rd), core) <==> CoreHolds(core, tr, rd)
    {
      forall l | l in core ensures LitTrue(StepModel(root, tr, 0, rd), l) == Sat(LitFormula(l), tr, 0, rd) {}
    }
  }

  ghost predicate CoveredUpTo(frames: seq<Frame>, i: nat, tr: Trace, rd: Reading)
    requires i < |frames| && |tr| > 0
  {
    forall j :: 0 <= j <= i ==> Covered(frames[j], tr, rd)
  }

  /** When frame i covers what all earlier frames cover, their intersection is closed
      under successors and contains no last state: nothing in it has a trace, of any
      length. */
  lemma {:induction false} InvariantHasNoTrace(root: Formula, frames: seq<Frame>, i: nat, tr: Trace, rd: Reading)
    requires FramesOk(root, frames) && i < |frames| && Included(frames, i)
    requires |tr| > 0 && Allowed(root, rd)
    ensures !CoveredUpTo(frames, i, tr, rd)
    decreases |tr|
  {
    if |tr| == 1 {
      forall core | core in frames[0] ensures !CoreHolds(core, tr, rd) { NoShortCore(root, frames, 0, core, tr, rd); }
      assert !Covered(frames[0], tr, rd);
    } else if CoveredUpTo(frames, i, tr, rd) {
      SuccessorCovered(root, frames, i, tr, rd);
      InvariantHasNoTrace(root, frames, i, tr[1..], rd);
    }
  }

  lemma SuccessorCovered(root: Formula, frames: seq<Frame>, i: nat, tr: Trace, rd: Reading)
    requires FramesOk(root, frames) && i < |frames| && Included(frames, i)
    requires |tr| > 1 && Allowed(root, rd) && CoveredUpTo(frames, i, tr, rd)
    ensures CoveredUpTo(frames, i, tr[1..], rd)
  {
    forall j | 0 <= j < i ensures Covered(frames[j], tr[1..], rd) {
      SuccessorInFrame(root, frames, j, tr, rd);
    }
    IncludedOnTrace(root, frames, i, tr[1..], rd);
  }

  lemma IncludedOnTrace(root: Formula, frames: seq<Frame>, i: nat, tr: Trace, rd: Reading)
    requires FramesOk(root, frames) && i < |frames| && Included(frames, i)
    requires |tr| > 0 && Allowed(root, rd)
    requires forall j :: 0 <= j < i ==> Covered(frames[j], tr, rd)
    ensures Covered(frames[i], tr, rd)
  {
    var A := StepModel(root, tr, 0, rd);
    forall j | 0 <= j <= i ensures PropCovered(A, frames[j]) <==> Covered(frames[j], tr, rd) {
      StateLitsOfFrame(root, frames, j);
      PropIsTrace(root, frames[j], tr, rd);
    }
    assert PropCovered(A, frames[i]);
  }

  lemma SuccessorInFrame(root: Formula, frames: seq<Frame>, j: nat, tr: Trace, rd: Reading)
    requires FramesOk(root, frames) && j + 1 < |frames| && |tr| > 1 && Allowed(root, rd)
    requires Covered(frames[j + 1], tr, rd)
    ensures Covered(frames[j], tr[1..], rd)
  {
    var core :| core in frames[j + 1] && CoreHolds(core, tr, rd);
    assert CoreOk(root, frames, j + 1, core);
  }

  lemma StateLitsOfFrame(root: Formula, frames: seq<Frame>, j: nat)
    requires FramesOk(root, frames) && j < |frames|
    ensures forall core :: core in frames[j] ==> StateLits(root, core)
  {
    forall core | core in frames[j] ensures StateLits(root, core) { assert CoreOk(root, frames, j, core); }
  }

  /** No finite trace satisfies the formula, under any admissible reading. */
  ghost predicate NoTrace(root: Formula, f: Formula) {
    forall tr: Trace, rd: Reading :: |tr| > 0 && Allowed(root, rd) ==> !Sat(f, tr, 0, rd)
  }

  lemma InvariantMeansUnsat(root: Formula, frames: seq<Frame>, i: nat)
    requires FramesOk(root, frames) && i < |frames| && Included(frames, i)
    ensures NoTrace(root, root)
  {
    forall tr: Trace, rd: Reading | |tr| > 0 && Allowed(root, rd)
      ensures !Sat(root, tr, 0, rd)
    {
      if Sat(root, tr, 0, rd) {
        forall j | 0 <= j <= i ensures Covered(frames[j], tr, rd) {
          assert Blocks(frames[j], root);
          var core :| core in frames[j] && CoreOf(core, root);
          CoreOfHolds(core, root, tr, rd);
        }
        InvariantHasNoTrace(root, frames, i, tr, rd);
      }
    }
  }

  // ----------------------------------------------------- formulas G a | G b ...

  /** A global formula that holds anywhere holds in the last state. */
  lemma {:induction false} GlobalSatLast(f: Formula, tr: Trace, i: nat, rd: Reading)
    requires IsGlobal(f) && i < |tr| && Sat(f, tr, i, rd)
    ensures Sat(f, tr[|tr| - 1..], 0, rd)
    decreases f, |tr| - i
  {
    if f.Release? {
      if i + 1 < |tr| { GlobalSatLast(f, tr, i + 1, rd); } else { SatLast(f, tr, rd); }
    } else if f.And? {
      GlobalSatLast(f.l, tr, i, rd);
      GlobalSatLast(f.r, tr, i, rd);
    } else if Sat(f.l, tr, i, rd) {
      GlobalSatLast(f.l, tr, i, rd);
    } else {
      GlobalSatLast(f.r, tr, i, rd);
    }
  }

  lemma {:induction false} SatLast(f: Formula, tr: Trace, rd: Reading)
    requires |tr| > 0
    ensures Sat(f, tr, |tr| - 1, rd) == Sat(f, tr[|tr| - 1..], 0, rd)
    decreases |tr|
  {
    if |tr| > 1 {
      SatSuffix(f, tr, |tr| - 2, rd);
      SatLast(f, tr[1..], rd);
      assert tr[1..][|tr| - 2..] == tr[|tr| - 1..];
    } else {
      assert tr[0..] == tr;
    }
  }

  /** A global formula that no last state satisfies has no trace at all. */
  lemma GlobalUnsat(root: Formula, f: Formula)
    requires IsGlobal(f)
    requires forall tr: Trace, rd: Reading :: |tr| == 1 && Allowed(root, rd) ==> !Sat(f, tr, 0, rd)
    ensures NoTrace(root, f)
  {
    forall tr: Trace, rd: Reading | |tr| > 0 && Allowed(root, rd)
      ensures !Sat(f, tr, 0, rd)
    {
      if Sat(f, tr, 0, rd) {
        var last := tr[|tr| - 1..];
        assert |last| == 1;
        GlobalSatLast(f, tr, 0, rd);
      }
    }
  }

  // ------------------------------------------------------------- termination

  /** A state, as a set of formulas, contains all formulas of some core of the frame. */
  predicate CoversState(frame: Frame, S: set<Formula>) {
    exists core :: core in frame && forall l :: l in core ==> LitFormula(l) in S
  }

  /** The states a frame does not cover yet. */
  ghost function Uncovered(root: Formula, frame: Frame): set<set<Formula>> {
    set S | S <= NextKeys(root) + {True} && !CoversState(frame, S)
  }

  lemma UncoveredShrinks(root: Formula, before: Frame, after: Frame)
    requires before <= after
    ensures Uncovered(root, after) <= Uncovered(root, before)
  {
    forall S | CoversState(before, S) ensures CoversState(after, S) {
      var core :| core in before && forall l :: l in core ==> LitFormula(l) in S;
      assert core in after;
    }
  }

  /** A successor that frame k lets through is a state the frame did not cover. */
  lemma SuccessorIsNew(root: Formula, cs: seq<VClause>, frames: seq<Frame>, k: nat, m: set<Var>, cone: set<Var>,
        next: Formula)
    requires AllBlocks(root, cs, frames) && FramesOk(root, frames) && k < |frames|
    requires Models(m, cs) && Flag(k) in m
    requires ToSet(next) == OrTrue(NextsOf(root, m, cone))
    ensures ToSet(next) in Uncovered(root, frames[k])
  {
    forall core | core in frames[k] ensures exists l :: l in core && LitFormula(l) !in ToSet(next) {
      assert CoreOk(root, frames, k, core);
      if Discarded(root, core) {
        var g :| g in Blockable(root, core) && g !in NextKeys(root);
      } else {
        var c :| c in cs && IsBlock(root, c, core, k);
        BlockedSuccessor(root, m, c, core, k, NextsOf(root, m, cone));
      }
    }
    NextKeysAreSub(root);
  }

  /** A true blocking clause names a formula of the core that is not passed on. */
  lemma BlockedSuccessor(root: Formula, m: set<Var>, c: VClause, core: Core, k: nat, nexts: set<Formula>)
    requires IsBlock(root, c, core, k) && ClauseTrue(m, c) && Flag(k) in m
    requires forall g :: g in nexts ==> NextVar(g) in m
    ensures exists l :: l in core && LitFormula(l) !in nexts && !LitFormula(l).True?
  {
    var x :| x in c && LitTrue(m, x);
    assert x in (set y | y in c);
    assert x in BlockLits(Blockable(root, core), k) && x != Lit(Flag(k), false);
    assert x in (set g | g in Blockable(root, core) :: Lit(NextVar(g), false));
    var g :| g in Blockable(root, core) && x == Lit(NextVar(g), false);
    var l :| l in core && LitFormula(l) == g && !IsConst(g);
  }

  /** Covering one more of the uncovered states makes the measure smaller. */
  lemma CoveringProgress(root: Formula, before: Frame, after: Frame, S: set<Formula>)
    requires before <= after && S in Uncovered(root, before) && CoversState(after, S)
    ensures |Uncovered(root, after)| < |Uncovered(root, before)|
  {
    UncoveredShrinks(root, before, after);
    SubsetSize(Uncovered(root, after), Uncovered(root, before));
  }

  lemma BlocksCovers(frame: Frame, f: Formula)
    requires Blocks(frame, f)
    ensures CoversState(frame, ToSet(f))
  {
    var core :| core in frame && CoreOf(core, f);
    forall l | l in core ensures LitFormula(l) in ToSet(f) {
      var g :| g in ToSet(f) && l == SatLit(g);
    }
  }

  /** The assignments over V that all frames up to i cover. */
  ghost function Chain(V: set<Var>, frames: seq<Frame>, i: nat): set<set<Var>>
    requires i < |frames|
  {
    set A | A <= V && forall j :: 0 <= j <= i ==> PropCovered(A, frames[j])
  }

  /** Variables of the formulas in the cores. */
  predicate OverVars(V: set<Var>, frames: seq<Frame>) {
    forall j, core, l :: 0 <= j < |frames| && core in frames[j] && l in core ==> l.v in V
  }

  lemma PropRestrict(V: set<Var>, frames: seq<Frame>, j: nat, A: set<Var>)
    requires OverVars(V, frames) && j < |frames|
    ensures PropCovered(A, frames[j]) <==> PropCovered(A * V, frames[j])
  {
    forall core | core in frames[j] ensures AllTrue(A, core) <==> AllTrue(A * V, core) {}
  }

  /** Each failed inclusion test drops at least one assignment from the intersection. */
  lemma {:induction false} FailedInclusions(V: set<Var>, frames: seq<Frame>, i: nat)
    requires OverVars(V, frames) && i < |frames|
    requires forall j :: 1 <= j <= i ==> !Included(frames, j)
    ensures |Chain(V, frames, i)| + i <= |Chain(V, frames, 0)|
  {
    if i > 0 {
      FailedInclusions(V, frames, i - 1);
      assert !Included(frames, i);
      var A: set<Var> :| (forall j :: 0 <= j < i ==> PropCovered(A, frames[j])) && !PropCovered(A, frames[i]);
      forall j | 0 <= j <= i { PropRestrict(V, frames, j, A); }
      assert A * V in Chain(V, frames, i - 1) && A * V !in Chain(V, frames, i);
      assert Chain(V, frames, i) <= Chain(V, frames, i - 1);
      SubsetSize(Chain(V, frames, i), Chain(V, frames, i - 1));
    }
  }

  /** A set of subsets of V has at most 2^|V| elements. */
  lemma {:induction false} SubsetsBound<T>(V: set<T>, SS: set<set<T>>)
    requires forall S :: S in SS ==> S <= V
    ensures |SS| <= Pow2(|V|)
    decreases |V|
  {
    if V == {} {
      forall S | S in SS ensures S == {} {}
      SubsetSize(SS, {{}});
    } else {
      var x :| x in V;
      var W := V - {x};
      var without := set S | S in SS && x !in S;
      var with_ := set S | S in SS && x in S;
      var cut := set S | S in with_ :: S - {x};
      SubsetsBound(W, without);
      SubsetsBound(W, cut);
      CutSize(x, with_, cut);
      assert SS == without + with_;
    }
  }

  /** Removing an element that all the sets share leaves as many sets. */
  lemma {:induction false} CutSize<T>(x: T, SS: set<set<T>>, cut: set<set<T>>)
    requires forall S :: S in SS ==> x in S
    requires cut == set S | S in SS :: S - {x}
    ensures |cut| == |SS|
    decreases |SS|
  {
    if SS != {} {
      var S :| S in SS;
      var SS' := SS - {S};
      var cut' := cut - {S - {x}};
      assert cut' == set R | R in SS' :: R - {x} by {
        forall R | R in SS' ensures R - {x} != S - {x} {
          assert R == (R - {x}) + {x} && S == (S - {x}) + {x};
        }
      }
      CutSize(x, SS', cut');
    }
  }

  /** Frame 0 leaves out the state of a one-state trace. */
  lemma LastStateOutside(root: Formula, frames: seq<Frame>) returns (A: set<Var>)
    requires FramesOk(root, frames) && frames != []
    ensures !PropCovered(A, frames[0])
  {
    var rd := SomeReading(root);
    SomeReadingAllowed(root);
    A := StepModel(root, [{}], 0, rd);
    StateLitsOfFrame(root, frames, 0);
    PropIsTrace(root, frames[0], [{}], rd);
    forall core | core in frames[0] ensures !CoreHolds(core, [{}], rd) { assert CoreOk(root, frames, 0, core); }
  }

  /** As long as no frame is covered by the earlier ones, there are at most 2^n frames for
      n formula variables: frame 0 does not cover everything, and each further frame drops
      an assignment. */
  lemma FrameBound(root: Formula, V: set<Var>, frames: seq<Frame>)
    requires FramesOk(root, frames) && OverVars(V, frames) && frames != []
    requires forall j :: 1 <= j < |frames| ==> !Included(frames, j)
    ensures |frames| <= Pow2(|V|)
  {
    FailedInclusions(V, frames, |frames| - 1);
    var A := LastStateOutside(root, frames);
    PropRestrict(V, frames, 0, A);
    var all := Chain(V, frames, 0) + {A * V};
    SubsetsBound(V, all);
    SubsetSize(Chain(V, frames, 0), all);
  }
}
