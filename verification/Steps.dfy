/** From models of the step encoding to positions of traces, and back. */
module Steps {
  import opened Formulas
  import opened Preprocess
  import opened Cnf
  import opened Encoding

  // ------------------------------------------------- every assignment extends

  /** The formulas that have a variable of their own. */
  function Universe(root: Formula): set<Formula> {
    Sub(root) + (set g | g in NextKeys(root) :: Next(g)) + {TAIL, True}
  }

  predicate AuxValue(f: Formula, b: set<Var>) {
    match f
    case Until(g, h) => (g.True? || Unfold(g, b)) && TAILVAR !in b && NextVar(f) in b
    case Release(g, h) => (!g.False? && Unfold(g, b)) || TAILVAR in b || NextVar(f) in b
    case _ => false
  }

  /** The assignment that gives every variable the value of its one-step unfolding. */
  function Extend(root: Formula, b: set<Var>): set<Var> {
    (set g | g in Universe(root) && Unfold(g, b) :: F(g)) + (set g | g in Sub(root) && AuxValue(g, b) :: Aux(g))
  }

  lemma OperandsAreSub(f: Formula, root: Formula)
    requires f in Sub(root)
    ensures forall o :: o in Operands(f) ==> o in Sub(root)
  {
    SubTransitive(root, f);
    forall o | o in Operands(f) ensures o in Sub(f) { assert o in Sub(o); }
  }

  lemma ExtendValue(root: Formula, b: set<Var>, g: Formula)
    requires g in Sub(root)
    ensures LitTrue(Extend(root, b), SatLit(g)) == Unfold(g, b)
  {
    OperandsAreSub(g, root);
    if g.Not? { assert g.r in Operands(g); }
  }

  /** Each assignment to atoms, Tail, next variables and constants extends to a model
      of the clauses; the extension does not change what it was given. */
  lemma EncodingExtends(root: Formula, b: set<Var>)
    ensures ModelsEncoded(Sub(root), Extend(root, b))
    ensures forall g :: g in Universe(root) && (g.Atom? || g.Next? || g.True? || g.False?) ==> (F(g) in Extend(root, b) <==> F(g) in b)
  {
    var m := Extend(root, b);
    forall g | g in Sub(root) ensures LocalMeaning(g, m) {
      ExtendValue(root, b, g);
      OperandsAreSub(g, root);
      forall o | o in Operands(g) { ExtendValue(root, b, o); }
      ExtendLocally(root, b, g);
    }
    ModelsEncodedLocally(Sub(root), m);
  }

  lemma ExtendLocally(root: Formula, b: set<Var>, f: Formula)
    requires f in Sub(root)
    requires forall o :: o in Operands(f) || o == f ==> LitTrue(Extend(root, b), SatLit(o)) == Unfold(o, b)
    ensures LocalMeaning(f, Extend(root, b))
  {
    match f
    case Or(g, h) => assert g in Operands(f) && h in Operands(f);
    case And(g, h) => assert g in Operands(f) && h in Operands(f);
    case Until(g, h) =>
      assert f in NextKeys(root);
      assert h in Operands(f) && (g.True? || g in Operands(f));
    case Release(g, h) =>
      assert f in NextKeys(root);
      assert h in Operands(f) && (g.False? || g in Operands(f));
    case _ =>
  }

  // ------------------------------------------------------- traces give models

  /** Readings the clauses admit: loose constants are true, and the nexts of the last
      state respect the clauses for pairs (Xa, X!a). */
  ghost predicate Allowed(root: Formula, rd: Reading) {
    && rd.looseFalse
    && forall p, q :: ConflictPair(root, p, q) ==> rd.LastNext(p) != rd.LastNext(q)
  }

  /** The literal or formula under a tower of nexts. */
  function Bottom(f: Formula): Formula { if f.Next? then Bottom(f.r) else f }

  function SomeReading(root: Formula): Reading {
    Reading(true, false, set p | p in NextKeys(root) && Bottom(p).Atom?)
  }

  lemma {:induction false} BottomOfPair(root: Formula, p: Formula, q: Formula)
    requires ConflictPair(root, p, q)
    ensures Bottom(p).Atom? && Bottom(q) == Not(Bottom(p))
  {
    if p.Next? { BottomOfPair(root, p.r, q.r); }
  }

  lemma SomeReadingAllowed(root: Formula)
    ensures Allowed(root, SomeReading(root))
  {
    forall p, q | ConflictPair(root, p, q) { BottomOfPair(root, p, q); }
  }

  lemma {:induction false} PairOpposite(root: Formula, p: Formula, q: Formula, tr: Trace, i: nat, rd: Reading)
    requires ConflictPair(root, p, q) && i < |tr| && Allowed(root, rd)
    ensures Sat(p, tr, i, rd) != Sat(q, tr, i, rd)
  {
    if p.Next? && i + 1 < |tr| { PairOpposite(root, p.r, q.r, tr, i + 1, rd); }
  }

  /** The values a position of a trace gives to all formulas. */
  ghost function TraceBase(root: Formula, tr: Trace, i: nat, rd: Reading): set<Var>
    requires i < |tr|
  {
    set g | g in Universe(root) && Sat(g, tr, i, rd) :: F(g)
  }

  ghost function StepModel(root: Formula, tr: Trace, i: nat, rd: Reading): set<Var>
    requires i < |tr|
  {
    Extend(root, TraceBase(root, tr, i, rd))
  }

  lemma {:induction false} UnfoldTrace(root: Formula, f: Formula, tr: Trace, i: nat, rd: Reading)
    requires i < |tr| && f in Universe(root)
    ensures Unfold(f, TraceBase(root, tr, i, rd)) == Sat(f, tr, i, rd)
  {
    if f in Sub(root) {
      OperandsAreSub(f, root);
      forall o | o in Operands(f) { UnfoldTrace(root, o, tr, i, rd); }
      var b := TraceBase(root, tr, i, rd);
      assert f.Until? || f.Release? ==> f in NextKeys(root);
      assert forall g :: F(g) in b <==> g in Universe(root) && Sat(g, tr, i, rd);
      assert TAIL in Universe(root);
      UnfoldTraceLocally(b, f, tr, i, rd);
    }
  }

  lemma UnfoldTraceLocally(b: set<Var>, f: Formula, tr: Trace, i: nat, rd: Reading)
    requires i < |tr|
    requires forall o :: o in Operands(f) ==> Unfold(o, b) == Sat(o, tr, i, rd)
    requires f.True? || f.False? || f.Atom? || f.Next? || f.WNext? ==> (F(f) in b <==> Sat(f, tr, i, rd))
    requires f.Until? || f.Release? ==> (NextVar(f) in b <==> Sat(Next(f), tr, i, rd))
    requires TAILVAR in b <==> i + 1 == |tr|
    ensures Unfold(f, b) == Sat(f, tr, i, rd)
  {
    match f
    case True | False | Atom(_) | Next(_) | WNext(_) =>
    case Not(g) => assert g in Operands(f);
    case Or(g, h) => assert g in Operands(f) && h in Operands(f);
    case And(g, h) => assert g in Operands(f) && h in Operands(f);
    case Until(g, h) => assert h in Operands(f) && (g.True? || g in Operands(f));
    case Release(g, h) => assert h in Operands(f) && (g.False? || g in Operands(f));
  }

  lemma TraceValues(root: Formula, tr: Trace, i: nat, rd: Reading)
    requires i < |tr|
    ensures forall g :: g in Universe(root) ==> (F(g) in StepModel(root, tr, i, rd) <==> Sat(g, tr, i, rd))
    ensures forall g :: g in Sub(root) ==> LitTrue(StepModel(root, tr, i, rd), SatLit(g)) == Sat(g, tr, i, rd)
  {
    forall g | g in Universe(root) ensures F(g) in StepModel(root, tr, i, rd) <==> Sat(g, tr, i, rd) {
      UnfoldTrace(root, g, tr, i, rd);
    }
    forall g | g in Sub(root) && g.Not? ensures g.r in Universe(root) {
      OperandsAreSub(g, root);
      assert g.r in Operands(g);
    }
  }

  lemma TraceModelsPair(root: Formula, p: Formula, q: Formula, tr: Trace, i: nat, rd: Reading)
    requires i < |tr| && Allowed(root, rd) && ConflictPair(root, p, q)
    ensures Models(StepModel(root, tr, i, rd), Equiv1(Pos(NextVar(p)), Pos(NextVar(q)).Neg()))
  {
    if i + 1 < |tr| { PairOpposite(root, p, q, tr, i + 1, rd); }
    assert Next(p) in Universe(root) && Next(q) in Universe(root);
    TraceValues(root, tr, i, rd);
    Equiv1Meaning(StepModel(root, tr, i, rd), Pos(NextVar(p)), Pos(NextVar(q)).Neg());
  }

  /** Every position of every trace is a model of the clauses the solver starts with,
      in which a formula's literal is true exactly when the formula holds there. */
  lemma TraceGivesModel(root: Formula, tr: Trace, i: nat, rd: Reading)
    requires i < |tr| && Allowed(root, rd)
    ensures ModelsBase(root, StepModel(root, tr, i, rd))
    ensures forall g :: g in Sub(root) ==> LitTrue(StepModel(root, tr, i, rd), SatLit(g)) == Sat(g, tr, i, rd)
    ensures forall g :: g in Universe(root) ==> (F(g) in StepModel(root, tr, i, rd) <==> Sat(g, tr, i, rd))
  {
    EncodingExtends(root, TraceBase(root, tr, i, rd));
    forall c | IsConflict(root, c) ensures ClauseTrue(StepModel(root, tr, i, rd), c) {
      var p, q :| ConflictPair(root, p, q) && c in Equiv1(Pos(NextVar(p)), Pos(NextVar(q)).Neg());
      TraceModelsPair(root, p, q, tr, i, rd);
    }
    TraceValues(root, tr, i, rd);
  }

  // ------------------------------------------------------- models give traces

  /** The variables that decide a formula now: atoms and next variables. */
  function Coi(f: Formula): set<Var> {
    match f
    case True | False | Atom(_) | Next(_) | WNext(_) => {F(f)}
    case Not(g) => Coi(g)
    case Or(g, h) => Coi(g) + Coi(h)
    case And(g, h) => Coi(g) + Coi(h)
    case Until(g, h) => {NextVar(f)} + Coi(g) + Coi(h)
    case Release(g, h) => {NextVar(f)} + Coi(g) + Coi(h)
  }

  const CONSTS: set<Var> := {F(True), F(False)}

  /** The obligations a model, cut down to the variables in C, passes on. */
  function NextsOf(root: Formula, m: set<Var>, C: set<Var>): set<Formula> {
    set g | g in NextKeys(root) && NextVar(g) in m * C
  }

  /** The literals of a model, cut down to C, that occur in the formula. */
  function LabelOf(root: Formula, m: set<Var>, C: set<Var>): set<Formula> {
    set g | g in Sub(root) && (g.Atom? || g.Not?) && SatLit(g).v in C && LitTrue(m, SatLit(g))
  }

  ghost predicate AllSat(S: set<Formula>, tr: Trace, i: nat, rd: Reading)
    requires i < |tr|
  {
    forall g :: g in S ==> Sat(g, tr, i, rd)
  }

  /** Label and next obligations together entail the current formula, even though the
      model has been cut down to the variables that decide it. */
  lemma {:induction false} StepSound(root: Formula, m: set<Var>, C: set<Var>, f: Formula, tr: Trace, rd: Reading)
    requires Prepared(root) && ModelsEncoded(Sub(root), m) && f in Sub(root)
    requires LitTrue(m, SatLit(f)) && Coi(f) - CONSTS <= C
    requires |tr| > 0 && rd.looseFalse && (TAILVAR in m <==> |tr| == 1)
    requires AllSat(LabelOf(root, m, C), tr, 0, rd)
    requires forall g :: g in NextsOf(root, m, C) ==> Sat(Next(g), tr, 0, rd)
    ensures Sat(f, tr, 0, rd)
  {
    NnfNegations(root);
    EncodingIsExact(root, m);
    OperandsAreSub(f, root);
    assert Unfold(f, m);
    match f
    case True | False =>
    case Atom(_) => assert f in LabelOf(root, m, C);
    case Not(g) => assert f in LabelOf(root, m, C);
    case Next(g) => assert g in NextKeys(root); assert g in NextsOf(root, m, C);
    case WNext(g) => assert false;
    case Or(g, h) =>
      assert g in Operands(f) && h in Operands(f);
      if Unfold(g, m) { StepSound(root, m, C, g, tr, rd); } else { StepSound(root, m, C, h, tr, rd); }
    case And(g, h) =>
      assert g in Operands(f) && h in Operands(f);
      StepSound(root, m, C, g, tr, rd); StepSound(root, m, C, h, tr, rd);
    case Until(g, h) =>
      assert h in Operands(f) && f in NextKeys(root);
      if Unfold(h, m) { StepSound(root, m, C, h, tr, rd); }
      else {
        if !g.True? { assert g in Operands(f); StepSound(root, m, C, g, tr, rd); }
        assert f in NextsOf(root, m, C);
      }
    case Release(g, h) =>
      assert h in Operands(f) && f in NextKeys(root);
      StepSound(root, m, C, h, tr, rd);
      if !g.False? && Unfold(g, m) { assert g in Operands(f); StepSound(root, m, C, g, tr, rd); }
      else if TAILVAR !in m { assert f in NextsOf(root, m, C); }
  }

  // ------------------------------------------------------------ moving along

  /** What holds at a later position of a trace holds in the trace without its first state. */
  lemma {:induction false} SatSuffix(f: Formula, tr: Trace, i: nat, rd: Reading)
    requires i + 1 < |tr|
    ensures Sat(f, tr, i + 1, rd) == Sat(f, tr[1..], i, rd)
    decreases f, |tr| - i
  {
    match f
    case True | False | Atom(_) =>
    case Not(g) => SatSuffix(g, tr, i, rd);
    case Or(g, h) => SatSuffix(g, tr, i, rd); SatSuffix(h, tr, i, rd);
    case And(g, h) => SatSuffix(g, tr, i, rd); SatSuffix(h, tr, i, rd);
    case Next(g) => if i + 2 < |tr| { SatSuffix(g, tr, i + 1, rd); }
    case WNext(g) => if i + 2 < |tr| { SatSuffix(g, tr, i + 1, rd); }
    case Until(g, h) =>
      SatSuffix(g, tr, i, rd); SatSuffix(h, tr, i, rd);
      if i + 2 < |tr| { SatSuffix(f, tr, i + 1, rd); }
    case Release(g, h) =>
      SatSuffix(g, tr, i, rd); SatSuffix(h, tr, i, rd);
      if i + 2 < |tr| { SatSuffix(f, tr, i + 1, rd); }
  }
}
