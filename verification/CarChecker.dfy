/** The satisfiability checker: grows frames of cores until a path to a last state or a
    frame covered by the earlier ones is found. */
module CarCheckers {
  import opened Formulas
  import opened Preprocess
  import opened Cnf
  import opened Sets
  import opened Encoding
  import opened Steps
  import opened CarSolvers
  import AaltaSolver
  import opened Frames
  import opened Verdicts
  import opened InvSolvers

  /** The frames keep their invariant and the solver's clauses match them. */
  ghost predicate Knows(root: Formula, cs: seq<VClause>, frames: seq<Frame>) {
    FramesOk(root, frames) && OnlyBlocks(root, cs, frames) && AllBlocks(root, cs, frames)
  }

  lemma BlocksGrow(root: Formula, cs: seq<VClause>, frames: seq<Frame>, k: nat, uc: Core, cs2: seq<VClause>)
    requires Knows(root, cs, frames) && k < |frames| && CoreOk(root, frames, k, uc)
    requires Discarded(root, uc) ==> cs2 == cs
    requires !Discarded(root, uc) ==> exists c :: cs2 == cs + [c] && IsBlock(root, c, uc, k)
    ensures Knows(root, cs2, frames[k := frames[k] + [uc]])
  {
    var after := frames[k := frames[k] + [uc]];
    AddCoreKeeps(root, frames, k, uc);
    forall c | c in cs2 && !IsBase(root, c) ensures exists j: nat, core :: BlockOf(root, c, after, j, core) {
      if c in cs {
        var j: nat, core :| BlockOf(root, c, frames, j, core);
        assert BlockOf(root, c, after, j, core);
      } else {
        assert BlockOf(root, c, after, k, uc);
      }
    }
    forall j: nat, core | j < |after| && core in after[j]
      ensures Discarded(root, core) || exists c :: c in cs2 && IsBlock(root, c, core, j)
    {
      if !(j == k && core == uc) { assert core in frames[j]; }
    }
  }

  lemma GrownTransitive(a: seq<Frame>, b: seq<Frame>, c: seq<Frame>)
    requires Grown(a, b) && Grown(b, c)
    ensures Grown(a, c)
  {
  }

  /** A core of a failed final check, restricted to the state. */
  lemma FinalCore(root: Formula, cs: seq<VClause>, frames: seq<Frame>, f: Formula, conflict: seq<VLit>, uc: Core)
    requires Prepared(root) && Knows(root, cs, frames) && (forall g :: g in ToSet(f) ==> g in Sub(root) || g.True?)
    requires Unsat(cs, conflict)
    requires forall l :: l in conflict ==> l == Pos(TAILVAR) || l in uc
    requires forall l :: l in uc ==> exists g :: g in ToSet(f) && l == SatLit(g)
    ensures CoreOk(root, frames, 0, uc) && CoreOf(uc, f)
  {
    LitsOfState(root, f, uc);
    LearnFinal(root, cs, frames, conflict, uc);
  }

  lemma StepCore(root: Formula, cs: seq<VClause>, frames: seq<Frame>, k: nat, f: Formula, conflict: seq<VLit>, uc: Core)
    requires Prepared(root) && Knows(root, cs, frames) && (forall g :: g in ToSet(f) ==> g in Sub(root) || g.True?)
    requires k < |frames| && Unsat(cs, conflict)
    requires forall l :: l in conflict ==> l == Pos(Flag(k)) || l in uc
    requires forall l :: l in uc ==> exists g :: g in ToSet(f) && l == SatLit(g)
    ensures CoreOk(root, frames, k + 1, uc) && CoreOf(uc, f)
  {
    LitsOfState(root, f, uc);
    LearnStep(root, cs, frames, k, conflict, uc);
  }

  lemma LitsOfState(root: Formula, f: Formula, uc: Core)
    requires Prepared(root) && (forall g :: g in ToSet(f) ==> g in Sub(root) || g.True?)
    requires CoreOf(uc, f)
    ensures StateLits(root, uc)
  {
    forall l | l in uc ensures l == SatLit(LitFormula(l)) && (LitFormula(l) in Sub(root) || LitFormula(l).True?) {
      var g :| g in ToSet(f) && l == SatLit(g);
      assert LitFormula(l) == g;
    }
  }

  // ---------------------------------------------- the partial heuristic

  /** The disjuncts of a formula (`to_or_set`). */
  function ToOrSet(f: Formula): set<Formula> {
    if f.Or? then ToOrSet(f.l) + ToOrSet(f.r) else {f}
  }

  /** The only literal of G (!a | ...), as the atom a. */
  function TargetAtom(g: Formula): set<Formula> {
    if !IsGlobal(g) then {} else
      var ds := ToOrSet(g.r);
      var negated := set d | d in ds && d.Not? :: d.r;
      if (exists d :: d in ds && d.Atom?) || |negated| != 1 then {} else negated
  }

  /** A conjunct a next to a conjunct G (!a | ...). */
  ghost predicate Target(root: Formula, a: Formula, g: Formula) {
    a in ToSet(root) && g in ToSet(root) && a in TargetAtom(g)
  }

  ghost predicate PairHasTrace(a: Formula, g: Formula) { !NoTrace(And(a, g), And(a, g)) }

  lemma {:induction false} PreparedConjunct(f: Formula, g: Formula)
    requires Prepared(f) && g in ToSet(f)
    ensures Prepared(g)
  {
    if f.And? {
      if g in ToSet(f.l) { PreparedConjunct(f.l, g); } else { PreparedConjunct(f.r, g); }
    }
  }

  /** A conjunction of two conjuncts that has no trace leaves none to the whole. */
  lemma PartialNoTrace(root: Formula, a: Formula, g: Formula)
    requires Prepared(root) && a in ToSet(root) && g in ToSet(root) && NoTrace(And(a, g), And(a, g))
    ensures NoTrace(root, root)
  {
    hide Allowed;
    forall tr: Trace, rd: Reading | |tr| > 0 && Allowed(root, rd)
      ensures !Sat(root, tr, 0, rd)
    {
      PartAllowed(root, a, g, rd);
      PartSat(root, a, g, tr, rd);
    }
  }

  lemma PartSat(root: Formula, a: Formula, g: Formula, tr: Trace, rd: Reading)
    requires a in ToSet(root) && g in ToSet(root) && |tr| > 0
    ensures Sat(root, tr, 0, rd) ==> Sat(And(a, g), tr, 0, rd)
  {
    ToSetSat(root, tr, 0, rd);
    if Sat(root, tr, 0, rd) { assert AllSat(ToSet(root), tr, 0, rd); }
  }

  lemma PartAllowed(root: Formula, a: Formula, g: Formula, rd: Reading)
    requires a in ToSet(root) && g in ToSet(root) && Allowed(root, rd)
    ensures Allowed(And(a, g), rd)
  {
    PartNextKeys(root, a, g);
    forall p, q | ConflictPair(And(a, g), p, q) ensures rd.LastNext(p) != rd.LastNext(q) { PartPair(root, And(a, g), p, q); }
  }

  lemma PartNextKeys(root: Formula, a: Formula, g: Formula)
    requires a in ToSet(root) && g in ToSet(root)
    ensures NextKeys(And(a, g)) <= NextKeys(root)
  {
    hide Sub, ToSet;
    ToSetIsSub(root);
    SubTransitive(root, a);
    SubTransitive(root, g);
    SubOfAnd(a, g);
  }

  lemma SubOfAnd(a: Formula, g: Formula)
    ensures Sub(And(a, g)) <= {And(a, g)} + Sub(a) + Sub(g)
  {
    assert Operands(And(a, g)) == [a, g];
  }

  lemma {:induction false} PartPair(root: Formula, part: Formula, p: Formula, q: Formula)
    requires NextKeys(part) <= NextKeys(root) && ConflictPair(part, p, q)
    ensures ConflictPair(root, p, q)
  {
    if p.Next? { PartPair(root, part, p.r, q.r); }
  }

  class CarChecker {
    const toCheck: Formula
    const solver: CarSolver
    var frames: seq<Frame>
    var tmpFrame: Frame
    var evidence: seq<Formula>

    ghost predicate Inv()
      reads this`frames, solver`clauses, solver`formulaMap, solver`xMap, solver`xReverse, solver`coiMap, solver`frameFlags
      reads solver.Engine()
    {
      && solver.root == toCheck && solver.Valid() && solver.EngineOk()
      && |solver.frameFlags| == |frames|
      && Knows(toCheck, solver.clauses, frames)
    }

    /** The state consists of formulas the solver knows. */
    ghost predicate IsState(f: Formula) {
      forall g :: g in ToSet(f) ==> g in Sub(toCheck) || g.True?
    }

    constructor (f: Formula)
      requires Prepared(f)
      ensures toCheck == f && Inv() && frames == [] && tmpFrame == [] && evidence == []
      ensures fresh(solver) && fresh(solver.Engine())
    {
      toCheck := f;
      solver := new CarSolver(f);
      frames, tmpFrame, evidence := [], [], [];
    }

    // ------------------------------------------------------------------ frames

    /** Adds a core to a frame, or to the frame being collected. */
    method AddFrameElement(k: nat, uc: Core)
      requires Inv() && uc != [] && k <= |frames| && CoreOk(toCheck, frames, k, uc)
      modifies this`frames, this`tmpFrame, solver`clauses
      ensures Inv() && Grown(old(frames), frames)
      ensures k == |frames| ==> frames == old(frames) && tmpFrame == old(tmpFrame) + [uc]
      ensures k < |frames| ==> frames == old(frames)[k := old(frames)[k] + [uc]] && tmpFrame == old(tmpFrame)
    {
      hide Inv, CarSolver.Valid, CarSolver.EngineOk, Knows, CoreOk, Discarded, IsBlock;
      InvParts();
      if k == |frames| {
        tmpFrame := tmpFrame + [uc];
      } else {
        CoreIsState(uc, k);
        solver.AddClauseForFrame(uc, k);
        BlocksGrow(toCheck, old(solver.clauses), frames, k, uc, solver.clauses);
        frames := frames[k := frames[k] + [uc]];
      }
      InvWhole();
    }

    lemma CoreIsState(uc: Core, k: nat)
      requires k <= |frames| && CoreOk(toCheck, frames, k, uc)
      ensures StateLits(toCheck, uc)
    {
    }

    /** The collected cores become the last frame. */
    method AddNewFrame()
      requires Inv() && tmpFrame != [] && Blocks(tmpFrame, toCheck)
      requires forall core :: core in tmpFrame ==> CoreOk(toCheck, frames, |frames|, core)
      modifies this`frames, solver`clauses, solver`frameFlags
      ensures Inv() && frames == old(frames) + [tmpFrame]
    {
      AddFrameKeeps(toCheck, frames, tmpFrame);
      BlocksOfNewFrame(toCheck, solver.clauses, frames, tmpFrame);
      frames := frames + [tmpFrame];
      SolverAddNewFrame(old(frames));
    }

    lemma BlocksOfNewFrame(root: Formula, cs: seq<VClause>, frames: seq<Frame>, frame: Frame)
      requires OnlyBlocks(root, cs, frames) && AllBlocks(root, cs, frames)
      ensures OnlyBlocks(root, cs, frames + [frame]) && AllBlocks(root, cs, frames + [[]])
    {
      forall c | c in cs && !IsBase(root, c) ensures exists j: nat, core :: BlockOf(root, c, frames + [frame], j, core) {
        var j: nat, core :| BlockOf(root, c, frames, j, core);
        assert BlockOf(root, c, frames + [frame], j, core);
      }
    }

    /** Gives the last frame a flag and adds the blocking clauses of its cores. */
    method SolverAddNewFrame(ghost earlier: seq<Frame>)
      requires solver.root == toCheck && solver.Valid() && frames == earlier + [tmpFrame]
      requires |solver.frameFlags| == |earlier|
      requires solver.EngineOk()
      requires FramesOk(toCheck, frames)
      requires OnlyBlocks(toCheck, solver.clauses, frames) && AllBlocks(toCheck, solver.clauses, earlier + [[]])
      modifies solver`clauses, solver`frameFlags
      ensures Inv()
    {
      var k := |frames| - 1;
      solver.CreateFlagForFrame(k);
      for i := 0 to |tmpFrame|
        invariant solver.Valid() && |solver.frameFlags| == |frames| && solver.EngineOk()
        invariant OnlyBlocks(toCheck, solver.clauses, frames)
        invariant AllBlocks(toCheck, solver.clauses, earlier + [tmpFrame[..i]])
      {
        assert frames[k] == tmpFrame && tmpFrame[i] in frames[k];
        assert CoreOk(toCheck, frames, k, tmpFrame[i]);
        ghost var before := solver.clauses;
        solver.AddClauseForFrame(tmpFrame[i], k);
        NewFrameBlocks(toCheck, before, earlier, tmpFrame, i, solver.clauses);
      }
      assert tmpFrame[..|tmpFrame|] == tmpFrame;
    }

    lemma NewFrameBlocks(root: Formula, cs: seq<VClause>, frames: seq<Frame>, frame: Frame, i: nat, cs2: seq<VClause>)
      requires i < |frame| && OnlyBlocks(root, cs, frames + [frame]) && AllBlocks(root, cs, frames + [frame[..i]])
      requires Discarded(root, frame[i]) ==> cs2 == cs
      requires !Discarded(root, frame[i]) ==> exists c :: cs2 == cs + [c] && IsBlock(root, c, frame[i], |frames|)
      ensures OnlyBlocks(root, cs2, frames + [frame]) && AllBlocks(root, cs2, frames + [frame[..i + 1]])
    {
      forall c | c in cs2 && c !in cs ensures exists j: nat, core :: BlockOf(root, c, frames + [frame], j, core) {
        assert BlockOf(root, c, frames + [frame], |frames|, frame[i]);
      }
      var now, more := frames + [frame[..i]], frames + [frame[..i + 1]];
      forall j: nat, core | j < |more| && core in more[j]
        ensures Discarded(root, core) || exists c :: c in cs2 && IsBlock(root, c, core, j)
      {
        if !(j == |frames| && core == frame[i]) { assert core in now[j]; }
      }
    }

    // ------------------------------------------------------------------ search

    /** The solver's last query was about f, together with one more assumption, and failed. */
    ghost predicate Failed(f: Formula, extra: VLit)
      reads solver`clauses, solver`selected, solver`assumption, solver`model, solver`conflict
    {
      && solver.Answered(false)
      && solver.selected == (set g | g in ToSet(f) :: SatLit(g))
      && (forall l :: l in solver.assumption ==> l in solver.selected || l == extra)
    }

    lemma InvParts()
      requires Inv()
      ensures solver.root == toCheck && solver.Valid() && solver.EngineOk() && |solver.frameFlags| == |frames|
      ensures Knows(toCheck, solver.clauses, frames)
    {
    }

    lemma AssumedIsTrue(l: VLit)
      requires solver.Answered(true) && l in solver.assumption
      ensures LitTrue(solver.model, l)
    {
    }

    lemma NewSuccessor(k: nat, cone: set<Var>, next: Formula)
      requires Inv() && k < |frames| && solver.Answered(true) && Pos(Flag(k)) in solver.assumption
      requires ToSet(next) == OrTrue(NextsOf(toCheck, solver.model, cone))
      ensures ToSet(next) in Uncovered(toCheck, frames[k])
    {
      hide Inv, CarSolver.Answered, Uncovered, ToSet, FramesOk, AllBlocks, OnlyBlocks;
      InvParts();
      AssumedIsTrue(Pos(Flag(k)));
      ModelsClauses();
      SuccessorIsNew(toCheck, solver.clauses, frames, k, solver.model, cone, next);
    }

    lemma ModelsClauses()
      requires solver.Answered(true)
      ensures Models(solver.model, solver.clauses)
    {
    }

    lemma InvWhole()
      requires solver.root == toCheck && solver.Valid() && solver.EngineOk() && |solver.frameFlags| == |frames|
      requires Knows(toCheck, solver.clauses, frames)
      ensures Inv()
    {
    }

    /** Can the state be the last one?  If so its label is recorded. */
    method SatOnce(f: Formula) returns (res: bool, ghost lbl: Formula, ghost rd: Reading)
      requires Inv() && IsState(f)
      modifies this`evidence, solver`selected, solver`assumption, solver`model, solver`conflict, solver.Engine()
      ensures Inv()
      ensures res ==> Proves(toCheck, [lbl], f, rd) && evidence == old(evidence) + [lbl]
      ensures !res ==> evidence == old(evidence) && Failed(f, Pos(TAILVAR))
    {
      hide Inv, CarSolver.Valid, CarSolver.EngineOk, CarSolver.Answered, CarSolver.AssumptionsSound;
      hide Knows, NoShort, Proves, Uncovered, Transition, Sub, ToSet, ConeOf;
      InvParts();
      res := solver.CheckFinal(f);
      InvWhole();
      lbl, rd := True, LTLF;
      if res {
        var text, next;
        ghost var cone;
        text, next, cone := solver.GetTransition();
        IsTransition(f, text, next, cone);
        lbl, rd := text, ModelReading(toCheck, solver.model);
        AssumedIsTrue(Pos(TAILVAR));
        FinalProves(toCheck, solver.model, cone, f, text, next);
        evidence := evidence + [text];
      }
    }

    lemma IsTransition(f: Formula, lbl: Formula, next: Formula, cone: set<Var>)
      requires Inv() && IsState(f) && solver.Answered(true)
      requires forall g :: g in ToSet(f) ==> SatLit(g) in solver.assumption
      requires cone - CONSTS == ConeOf(toCheck, solver.assumption) - CONSTS
      requires ToSet(lbl) == OrTrue(LabelOf(toCheck, solver.model, cone))
      requires ToSet(next) == OrTrue(NextsOf(toCheck, solver.model, cone))
      ensures Transition(toCheck, solver.model, cone, f, lbl, next) && IsState(next)
    {
      hide Inv, CarSolver.Answered, ModelsBase, NextsOf, LabelOf, Sub, Coi, Prepared, ToSet, Transition, SatLit, ConeOf;
      ConesCovered(toCheck, solver.assumption, cone);
      ModelOfBase();
      AssumptionsTrue();
      TransitionFrom(toCheck, solver.model, solver.assumption, cone, f, lbl, next);
    }

    lemma AssumptionsTrue()
      requires solver.Answered(true)
      ensures forall l :: l in solver.assumption ==> LitTrue(solver.model, l)
    {
    }

    lemma ModelOfBase()
      requires Inv() && solver.Answered(true)
      ensures ModelsBase(toCheck, solver.model) && Prepared(toCheck)
    {
    }

    /** The core of the failed final check of f, as a core for frame 0. */
    method FinalUc(f: Formula) returns (uc: Core)
      requires Inv() && IsState(f) && Failed(f, Pos(TAILVAR))
      ensures uc != [] && CoreOk(toCheck, frames, 0, uc) && CoreOf(uc, f)
      ensures forall l :: l in uc <==> l in solver.conflict && l in solver.selected
    {
      FinalCoreNotEmpty(toCheck, solver.clauses, frames, solver.conflict);
      uc := solver.GetSelectedUc();
      FinalCore(toCheck, solver.clauses, frames, f, solver.conflict, uc);
    }

    /** The core of the failed step query of f at level k, as a core for frame k + 1. */
    method StepUc(f: Formula, k: nat) returns (uc: Core)
      requires Inv() && IsState(f) && k < |frames| && Failed(f, Pos(Flag(k)))
      ensures uc != [] && CoreOk(toCheck, frames, k + 1, uc) && CoreOf(uc, f)
      ensures forall l :: l in uc <==> l in solver.conflict && l in solver.selected
    {
      StepCoreNotEmpty(toCheck, solver.clauses, frames, k, solver.conflict);
      uc := solver.GetSelectedUc();
      StepCore(toCheck, solver.clauses, frames, k, f, solver.conflict, uc);
    }

    /** Asks for a successor of f outside frame k and records its label. */
    method TrySatisfyAt(f: Formula, k: nat) returns (sat: bool, lbl: Formula, next: Formula, ghost m: set<Var>, ghost cone: set<Var>)
      requires Inv() && IsState(f) && k < |frames| && NoShort(toCheck, f, k)
      modifies this`evidence, solver`selected, solver`assumption, solver`model, solver`conflict, solver.Engine()
      ensures Inv()
      ensures sat ==> Transition(toCheck, m, cone, f, lbl, next) && TAILVAR !in m && IsState(next)
      ensures frames == old(frames)
      ensures sat ==> ToSet(next) in Uncovered(toCheck, old(frames[k])) && evidence == old(evidence) + [lbl]
      ensures !sat ==> evidence == old(evidence) && Failed(f, Pos(Flag(k)))
    {
      hide Inv, CarSolver.Valid, CarSolver.EngineOk, CarSolver.Answered, CarSolver.AssumptionsSound;
      hide Knows, NoShort, Proves, Uncovered, Transition, Sub, ToSet, CoreOk, ConeOf;
      InvParts();
      sat := solver.SolveWithAssumption(f, k);
      InvWhole();
      lbl, next, m, cone := True, True, {}, {};
      if sat {
        lbl, next, cone := solver.GetTransition();
        m := solver.model;
        IsTransition(f, lbl, next, cone);
        NotTail(toCheck, m, cone, f, lbl, next, k);
        NewSuccessor(k, cone, next);
        evidence := evidence + [lbl];
      }
    }

    /** Searches for a path of k + 2 states from f to a last state.  `fails` counts the
        candidates for the last state that were turned down at level 0. */
    method TrySatisfy(f: Formula, k: nat) returns (res: bool, ghost path: seq<Formula>, ghost rd: Reading, ghost fails: nat)
      requires Inv() && IsState(f) && k < |frames| && NoShort(toCheck, f, k)
      modifies this`frames, this`tmpFrame, this`evidence
      modifies solver`clauses, solver`selected, solver`assumption, solver`model, solver`conflict, solver.Engine()
      ensures Inv() && Grown(old(frames), frames)
      ensures res ==> Proves(toCheck, path, f, rd) && |path| == k + 2 && tmpFrame == old(tmpFrame)
      ensures !res && k + 1 < |frames| ==> tmpFrame == old(tmpFrame) && Blocks(frames[k + 1], f)
      ensures !res && k + 1 == |frames| ==> exists uc :: tmpFrame == old(tmpFrame) + [uc] && CoreOk(toCheck, frames, k + 1, uc) && CoreOf(uc, f)
      ensures Recorded(old(evidence), evidence, if res then path else [], fails)
      decreases k, 2
    {
      hide Inv, FramesOk, OnlyBlocks, AllBlocks, CoreOk, NoShort, Proves, Uncovered, Transition, Sub, ToSet;
      path, rd, fails := [], LTLF, 0;
      while true
        invariant Inv() && Grown(old(frames), frames) && tmpFrame == old(tmpFrame)
        invariant Recorded(old(evidence), evidence, [], fails)
        decreases |Uncovered(toCheck, frames[k])|
      {
        var sat, found;
        ghost var path', fails';
        ghost var before := frames;
        sat, found, path', rd, fails' := OnePass(f, k);
        GrownTransitive(old(frames), before, frames);
        if !sat { break; }
        fails := fails + fails';
        if found { return true, path', rd, fails; }
      }
      var uc := StepUc(f, k);
      ghost var before := frames;
      AddFrameElement(k + 1, uc);
      GrownTransitive(old(frames), before, frames);
      res := false;
    }

    /** One pass of the search: either there is no successor left, or a path is found
        through one, or frame k covers one more state. */
    method OnePass(f: Formula, k: nat) returns (sat: bool, found: bool, ghost path: seq<Formula>, ghost rd: Reading, ghost fails: nat)
      requires Inv() && IsState(f) && k < |frames| && NoShort(toCheck, f, k)
      modifies this`frames, this`tmpFrame, this`evidence
      modifies solver`clauses, solver`selected, solver`assumption, solver`model, solver`conflict, solver.Engine()
      ensures Inv() && Grown(old(frames), frames) && tmpFrame == old(tmpFrame)
      ensures !sat ==> evidence == old(evidence) && Failed(f, Pos(Flag(k)))
      ensures sat ==> Recorded(old(evidence), evidence, if found then path else [], fails)
      ensures sat && found ==> Proves(toCheck, path, f, rd) && |path| == k + 2
      ensures sat && !found ==> |Uncovered(toCheck, frames[k])| < |Uncovered(toCheck, old(frames)[k])|
      decreases k, 1
    {
      hide Inv, FramesOk, OnlyBlocks, AllBlocks, CoreOk, NoShort, Proves, Uncovered, Transition, Sub, ToSet;
      var lbl, next;
      ghost var m, cone;
      found, path, rd, fails := false, [], LTLF, 0;
      sat, lbl, next, m, cone := TrySatisfyAt(f, k);
      if sat {
        if k > 0 { NextHasNoShort(toCheck, m, cone, f, lbl, next, k - 1); }
        found, path, rd, fails := FollowUp(next, k);
        if found {
          StepProves(toCheck, m, cone, f, lbl, next, path, rd);
          path := [lbl] + path;
        } else {
          BlocksCovers(frames[k], next);
          CoveringProgress(toCheck, old(frames)[k], frames[k], ToSet(next));
        }
      }
    }

    /** Goes on from the successor at level k; when that fails, the successor has been
        added to frame k.  The label of the step to it is on top of the evidence. */
    method FollowUp(next: Formula, k: nat) returns (found: bool, ghost path: seq<Formula>, ghost rd: Reading, ghost fails: nat)
      requires Inv() && IsState(next) && k < |frames| && evidence != []
      requires k > 0 ==> NoShort(toCheck, next, k - 1)
      modifies this`frames, this`tmpFrame, this`evidence
      modifies solver`clauses, solver`selected, solver`assumption, solver`model, solver`conflict, solver.Engine()
      ensures Inv() && Grown(old(frames), frames) && tmpFrame == old(tmpFrame)
      ensures found ==> Proves(toCheck, path, next, rd) && |path| == k + 1
      ensures found ==> Recorded(old(evidence), evidence, path, fails)
      ensures !found ==> Blocks(frames[k], next) && Recorded(old(evidence[..|evidence| - 1]), evidence, [], fails)
      decreases k, 0
    {
      hide Inv, FramesOk, OnlyBlocks, AllBlocks, CoreOk, NoShort, Proves, Uncovered, Transition, Sub, ToSet;
      path, fails := [], 0;
      if k == 0 {
        ghost var lbl;
        found, lbl, rd := SatOnce(next);
        if found { return true, [lbl], rd, 0; }
        var uc := FinalUc(next);
        AddFrameElement(0, uc);
        assert uc in frames[0];
        fails := 1;
      } else {
        found, path, rd, fails := TrySatisfy(next, k - 1);
        if found { return; }
        evidence := evidence[..|evidence| - 1];
        path := [];
      }
    }

    // --------------------------------------------------------------- invariant

    /** Is some frame covered by the earlier ones? */
    method InvFound() returns (res: bool)
      requires FramesOk(toCheck, frames) && frames != []
      ensures res ==> exists i: nat :: i < |frames| && Included(frames, i)
      ensures !res ==> forall j :: 1 <= j < |frames| ==> !Included(frames, j)
    {
      FrameLits(toCheck, frames);
      hide AaltaSolver.Incremental.Valid, FramesOk, OnlyBlocks, AllBlocks, CoreOk, Included, FormulaLits, Represents;
      var invSolver := new InvSolver();
      assert Represents(invSolver.clauses, invSolver.assumption, 0, frames, 0) by { EmptyRepresents(frames); }
      for i := 0 to |frames|
        invariant fresh(invSolver) && fresh(invSolver.Engine()) && invSolver.EngineOk()
        invariant Represents(invSolver.clauses, invSolver.assumption, invSolver.flagId, frames, i)
        invariant forall j :: 1 <= j < i ==> !Included(frames, j)
      {
        var found := InvFoundAt(invSolver, i);
        if found { return true; }
      }
      res := false;
    }

    method InvFoundAt(invSolver: InvSolver, i: nat) returns (found: bool)
      requires i < |frames| && FormulaLits(frames[i])
      requires Represents(invSolver.clauses, invSolver.assumption, invSolver.flagId, frames, i)
      requires invSolver.EngineOk()
      modifies invSolver, invSolver.Engine()
      ensures invSolver.EngineOk()
      ensures found ==> Included(frames, i)
      ensures !found && i > 0 ==> !Included(frames, i)
      ensures Represents(invSolver.clauses, invSolver.assumption, invSolver.flagId, frames, i + 1)
    {
      hide AaltaSolver.Incremental.Valid, Represents, Included, FormulaLits;
      if i == 0 {
        invSolver.AddFrameOr(frames[i]);
        OrRepresents(old(invSolver.clauses), invSolver.assumption, old(invSolver.flagId), frames, i, invSolver.clauses);
        found := false;
      } else {
        found := SolveInvAt(invSolver, i);
      }
    }

    method SolveInvAt(invSolver: InvSolver, i: nat) returns (found: bool)
      requires i < |frames| && FormulaLits(frames[i])
      requires Represents(invSolver.clauses, invSolver.assumption, invSolver.flagId, frames, i)
      requires invSolver.EngineOk()
      modifies invSolver, invSolver.Engine()
      ensures invSolver.EngineOk()
      ensures found <==> Included(frames, i)
      ensures Represents(invSolver.clauses, invSolver.assumption, invSolver.flagId, frames, i + 1)
    {
      hide AaltaSolver.Incremental.Valid, Represents, Included, FormulaLits, Unsat;
      var frame := frames[i];
      invSolver.AddFrameAnd(frame);
      ghost var cs, n := invSolver.clauses, invSolver.flagId;
      AndDecides(old(invSolver.clauses), old(invSolver.assumption), old(invSolver.flagId), frames, i, cs);
      var sat := invSolver.SolveAssumption();
      found := !sat;
      invSolver.DisableFrameAnd();
      assert invSolver.assumption == old(invSolver.assumption) + [Lit(Flag(n), false)];
      invSolver.AddFrameOr(frame);
      OrRepresents(cs, invSolver.assumption, n, frames, i, invSolver.clauses);
    }

    // ---------------------------------------------------------------- checking

    /** Decides whether a finite trace satisfies the formula.  A positive answer comes
        with a path of labels every matching trace of which is a witness; a negative one
        means that there is no trace of any length. */
    method CarCheck() returns (res: bool, ghost path: seq<Formula>, ghost rd: Reading, ghost fails: nat)
      requires Inv() && frames == [] && tmpFrame == [] && evidence == []
      modifies this`frames, this`tmpFrame, this`evidence
      modifies solver`clauses, solver`frameFlags, solver`selected, solver`assumption, solver`model, solver`conflict, solver.Engine()
      ensures res ==> Proves(toCheck, path, toCheck, rd) && Recorded([], evidence, path, fails)
      ensures !res ==> NoTrace(toCheck, toCheck)
      ensures |frames| <= Pow2(|StateVars(toCheck)|) + 1
    {
      hide Inv, FramesOk, Sub, ToSet, NoTrace, Proves, StateLits, NotFinal, CoreOf, StateVars, Pow2;
      ToSetIsSub(toCheck);
      InvKnowsFrames();
      ghost var lbl;
      path, rd, fails := [], LTLF, 0;
      res, lbl, rd := SatOnce(toCheck);
      if res { return true, [lbl], rd, 0; }
      var uc := FinalUc(toCheck);
      if IsGlobal(toCheck) {
        NotFinalUnsat(uc);
        return false, [], rd, 0;
      }
      tmpFrame := tmpFrame + [uc];
      assert uc in tmpFrame;
      AddNewFrame();
      res, path, rd, fails := Grow();
    }

    /** Looks for a conjunct a next to a conjunct G (!a | ...) and checks the first such pair
        alone. */
    method PartialUnsat() returns (res: bool)
      requires Prepared(toCheck)
      ensures res ==> NoTrace(toCheck, toCheck)
      ensures res ==> exists a, g :: Target(toCheck, a, g) && !PairHasTrace(a, g)
      ensures !res ==>
        (forall a, g :: !Target(toCheck, a, g)) || exists a, g :: Target(toCheck, a, g) && PairHasTrace(a, g)
    {
      hide NoTrace, Proves, TargetAtom;
      var cs := Elements(ToSet(toCheck));
      for i := 0 to |cs|
        invariant forall j, a :: 0 <= j < i ==> !Target(toCheck, a, cs[j])
      {
        var g := cs[i];
        assert g in ToSet(toCheck);
        if exists a :: a in TargetAtom(g) && a in cs {
          var a :| a in TargetAtom(g) && a in cs;
          assert Target(toCheck, a, g);
          res := PairUnsat(a, g);
          return;
        }
      }
      res := false;
      forall a, g ensures !Target(toCheck, a, g) {
        if g in cs { var j :| 0 <= j < |cs| && cs[j] == g; }
      }
    }

    /** A checker of its own for two conjuncts. */
    method PairUnsat(a: Formula, g: Formula) returns (res: bool)
      requires Prepared(toCheck) && Target(toCheck, a, g)
      ensures (res <==> !PairHasTrace(a, g)) && (res ==> NoTrace(toCheck, toCheck))
    {
      hide NoTrace, Proves, TargetAtom;
      PreparedConjunct(toCheck, a);
      PreparedConjunct(toCheck, g);
      var checker := new CarChecker(And(a, g));
      var sat;
      ghost var path, rd, fails;
      sat, path, rd, fails := checker.CarCheck();
      if sat { ProvenHasTrace(And(a, g), path, rd); } else { PartialNoTrace(toCheck, a, g); }
      res := !sat;
    }

    /** The verdict on the formula.  Loose constants are read as true, except when the
        whole formula is a constant. */
    method Check() returns (res: bool)
      requires Inv() && frames == [] && tmpFrame == [] && evidence == []
      modifies this`frames, this`tmpFrame, this`evidence
      modifies solver`clauses, solver`frameFlags, solver`selected, solver`assumption, solver`model, solver`conflict, solver.Engine()
      ensures toCheck.True? ==> res
      ensures toCheck.False? ==> !res
      ensures !IsConst(toCheck) ==> res == !NoTrace(toCheck, toCheck)
    {
      hide NoTrace, Proves, Target, PairHasTrace, TargetAtom;
      if toCheck.True? { evidence := evidence + [True]; return true; }
      if toCheck.False? { return false; }
      res := PartialUnsat();
      if res { return false; }
      ghost var path, rd, fails;
      res, path, rd, fails := CarCheck();
      if res { ProvenHasTrace(toCheck, path, rd); }
    }

    lemma NotFinalUnsat(uc: Core)
      requires Prepared(toCheck) && IsGlobal(toCheck) && NotFinal(toCheck, uc) && CoreOf(uc, toCheck)
      ensures NoTrace(toCheck, toCheck)
    {
      forall tr: Trace, rd: Reading | |tr| == 1 && Allowed(toCheck, rd) ensures !Sat(toCheck, tr, 0, rd) {
        if Sat(toCheck, tr, 0, rd) { CoreOfHolds(uc, toCheck, tr, rd); }
      }
      GlobalUnsat(toCheck, toCheck);
    }

    lemma InvKnowsFrames()
      requires Inv()
      ensures FramesOk(toCheck, frames) && Prepared(toCheck)
    {
    }

    /** The main loop: level by level, search, test for an invariant, add a frame. */
    method Grow() returns (res: bool, ghost path: seq<Formula>, ghost rd: Reading, ghost fails: nat)
      requires Inv() && |frames| == 1 && evidence == [] && ToSet(toCheck) <= Sub(toCheck)
      modifies this`frames, this`tmpFrame, this`evidence
      modifies solver`clauses, solver`frameFlags, solver`selected, solver`assumption, solver`model, solver`conflict, solver.Engine()
      ensures res ==> Proves(toCheck, path, toCheck, rd) && Recorded([], evidence, path, fails)
      ensures !res ==> NoTrace(toCheck, toCheck)
      ensures |frames| <= Pow2(|StateVars(toCheck)|) + 1
    {
      hide Inv, FramesOk, OnlyBlocks, AllBlocks, NoShort, Proves, NoTrace, Included, Uncovered, CoreOk, StateVars, Pow2;
      hide ToSet, Sub, Recorded;
      var k := 0;
      path, rd, fails := [], LTLF, 0;
      assert Recorded([], [], [], 0) by { NothingRecorded(); }
      while true
        invariant Inv() && |frames| == k + 1 <= Pow2(|StateVars(toCheck)|) + 1
        invariant Recorded([], evidence, [], fails)
        decreases Pow2(|StateVars(toCheck)|) + 1 - k
      {
        tmpFrame := [];
        InvKnowsFrames();
        RootHasNoShort(toCheck, frames, k);
        var found;
        ghost var path', fails';
        ghost var recorded := evidence;
        found, path', rd, fails' := TrySatisfy(toCheck, k);
        RecordedOn(recorded, evidence, if found then path' else [], fails, fails');
        fails := fails + fails';
        if found { return true, path', rd, fails; }
        InvKnowsFrames();
        var inv := InvFound();
        if inv {
          ghost var i: nat :| i < |frames| && Included(frames, i);
          InvariantMeansUnsat(toCheck, frames, i);
          return false, [], rd, fails;
        }
        FramesBounded(toCheck, frames);
        AddNewFrame();
        k := k + 1;
      }
    }
  }

  lemma TransitionFrom(root: Formula, m: set<Var>, assumption: seq<VLit>, cone: set<Var>, f: Formula,
        lbl: Formula, next: Formula)
    requires Prepared(root) && ModelsBase(root, m) && (forall l :: l in assumption ==> LitTrue(m, l))
    requires forall g :: g in ToSet(f) ==> (g in Sub(root) || g.True?) && SatLit(g) in assumption
    requires forall g :: g in Sub(root) && !g.And? && SatLit(g) in assumption ==> Coi(g) - CONSTS <= cone
    requires ToSet(lbl) == OrTrue(LabelOf(root, m, cone)) && ToSet(next) == OrTrue(NextsOf(root, m, cone))
    ensures Transition(root, m, cone, f, lbl, next) && forall g :: g in ToSet(next) ==> g in Sub(root) || g.True?
  {
    hide Prepared, ModelsBase, LabelOf, NextsOf, Coi, Sub, SatLit;
    NextsInSub(root, m, cone);
  }

  lemma NextsInSub(root: Formula, m: set<Var>, cone: set<Var>)
    ensures NextsOf(root, m, cone) <= Sub(root)
  {
    NextKeysAreSub(root);
  }

  lemma NothingRecorded()
    ensures Recorded([], [], [], 0)
  {
  }

  lemma RecordedOn(before: seq<Formula>, after: seq<Formula>, path: seq<Formula>, fails: nat, more: nat)
    requires Recorded([], before, [], fails) && Recorded(before, after, path, more)
    ensures Recorded([], after, path, fails + more)
  {
  }

  lemma ProvenHasTrace(root: Formula, path: seq<Formula>, rd: Reading)
    requires Proves(root, path, root, rd)
    ensures !NoTrace(root, root)
  {
    var tr :| Matches(path, tr, rd);
    assert Sat(root, tr, 0, rd);
  }

  /** The variables that cores range over. */
  function StateVars(root: Formula): set<Var> {
    set g | g in Sub(root) + {True} :: SatLit(g).v
  }

  lemma FramesBounded(root: Formula, frames: seq<Frame>)
    requires FramesOk(root, frames) && frames != []
    requires forall j :: 1 <= j < |frames| ==> !Included(frames, j)
    ensures |frames| <= Pow2(|StateVars(root)|)
  {
    FrameVars(root, frames);
    FrameBound(root, StateVars(root), frames);
  }

  lemma FrameVars(root: Formula, frames: seq<Frame>)
    requires FramesOk(root, frames)
    ensures OverVars(StateVars(root), frames)
  {
    forall j, core, l | 0 <= j < |frames| && core in frames[j] && l in core ensures l.v in StateVars(root) {
      assert CoreOk(root, frames, j, core);
      assert LitFormula(l) in Sub(root) + {True};
    }
  }

  lemma FrameLits(root: Formula, frames: seq<Frame>)
    requires FramesOk(root, frames)
    ensures forall i :: 0 <= i < |frames| ==> FormulaLits(frames[i])
  {
    forall i, core, l | 0 <= i < |frames| && core in frames[i] && l in core ensures l.v.F? {
      assert CoreOk(root, frames, i, core);
    }
  }

  lemma EmptyRepresents(frames: seq<Frame>)
    ensures Represents([], [], 0, frames, 0)
  {
    forall A: set<Var> | CoveredBelow(A, frames, 0) ensures exists m :: Extends(m, A, [], [], 0) {
      var m := set v | v in A && v.F?;
      assert Extends(m, A, [], [], 0);
    }
  }

  /** What a search has left on the evidence stack: below it nothing has changed, the
      failed candidates add one state each, and without any the path is all there is. */
  ghost predicate Recorded(before: seq<Formula>, after: seq<Formula>, path: seq<Formula>, fails: nat) {
    && before <= after
    && |after| == |before| + |path| + fails
    && (fails == 0 ==> after == before + path)
  }
}
