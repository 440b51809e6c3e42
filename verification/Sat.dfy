/** Satisfiability of a list of LTLf formulas: preparation followed by the checker. */
module SatCheck {
  import opened Formulas
  import opened Preprocess
  import opened Steps
  import opened Verdicts
  import opened CarCheckers

  /** Some finite trace satisfies all the formulas. */
  ghost predicate Consistent(S: seq<Formula>) { exists tr: Trace :: AllHold(S, tr) }

  ghost predicate AllHold(S: seq<Formula>, tr: Trace) { tr != [] && forall f :: f in S ==> Holds(f, tr, 0) }

  lemma {:induction false} ConjunctionHolds(S: seq<Formula>, tr: Trace)
    requires S != [] && tr != []
    ensures Holds(FormulaFrom(S), tr, 0) <==> AllHold(S, tr)
    decreases |S|
  {
    var init, last := S[..|S| - 1], S[|S| - 1];
    assert S == init + [last];
    assert AllHold(S, tr) <==> AllHold(init, tr) && Holds(last, tr, 0) by {
      assert forall f :: f in S <==> f in init || f == last;
    }
    if |S| > 1 {
      ConjunctionHolds(init, tr);
      assert FormulaFrom(S) == And(FormulaFrom(init), last);
      assert Holds(FormulaFrom(S), tr, 0) <==> Holds(FormulaFrom(init), tr, 0) && Holds(last, tr, 0);
    }
  }

  lemma ConjunctionSatisfiable(S: seq<Formula>)
    requires S != []
    ensures Satisfiable(FormulaFrom(S)) <==> Consistent(S)
  {
    if tr: Trace :| Holds(FormulaFrom(S), tr, 0) { ConjunctionHolds(S, tr); }
    if tr: Trace :| AllHold(S, tr) { ConjunctionHolds(S, tr); }
  }

  // -------------------------------------------------- how the checker reads False

  /** The formula with every False read as true, except as the left operand of G. */
  function FalseAsTrue(f: Formula): Formula {
    match f
    case True | False => True
    case Atom(_) => f
    case Not(g) => Not(FalseAsTrue(g))
    case Or(g, h) => Or(FalseAsTrue(g), FalseAsTrue(h))
    case And(g, h) => And(FalseAsTrue(g), FalseAsTrue(h))
    case Next(g) => Next(FalseAsTrue(g))
    case WNext(g) => WNext(FalseAsTrue(g))
    case Until(g, h) => Until(FalseAsTrue(g), FalseAsTrue(h))
    case Release(g, h) => Release(if g.False? then g else FalseAsTrue(g), FalseAsTrue(h))
  }

  /** The checker's reading of a formula is the meaning of that other formula. */
  lemma {:induction false} LooseReading(f: Formula, tr: Trace, i: nat, dflt: bool)
    requires i < |tr| && IsNnf(f)
    ensures Sat(f, tr, i, Reading(true, dflt, {})) == Sat(FalseAsTrue(f), tr, i, Reading(false, dflt, {}))
    decreases f, |tr| - i
  {
    match f
    case True | False | Atom(_) | Not(_) =>
    case Or(g, h) => LooseReading(g, tr, i, dflt); LooseReading(h, tr, i, dflt);
    case And(g, h) => LooseReading(g, tr, i, dflt); LooseReading(h, tr, i, dflt);
    case Next(g) => if i + 1 < |tr| { LooseReading(g, tr, i + 1, dflt); }
    case WNext(g) => if i + 1 < |tr| { LooseReading(g, tr, i + 1, dflt); }
    case Until(g, h) =>
      LooseReading(g, tr, i, dflt); LooseReading(h, tr, i, dflt);
      if i + 1 < |tr| { LooseReading(f, tr, i + 1, dflt); }
    case Release(g, h) =>
      if !g.False? { LooseReading(g, tr, i, dflt); }
      LooseReading(h, tr, i, dflt);
      if i + 1 < |tr| { LooseReading(f, tr, i + 1, dflt); }
  }

  lemma {:induction false} ReadsNoTail(f: Formula)
    requires NoTail(f)
    ensures NoTail(FalseAsTrue(f)) && NoTail(Nnf(f)) && NoTail(NnfNot(f))
  {
    match f
    case True | False | Atom(_) =>
    case Not(g) => ReadsNoTail(g); if g.Not? { ReadsNoTail(g.r); }
    case Next(g) => ReadsNoTail(g);
    case WNext(g) => ReadsNoTail(g);
    case Or(g, h) => ReadsNoTail(g); ReadsNoTail(h);
    case And(g, h) => ReadsNoTail(g); ReadsNoTail(h);
    case Until(g, h) => ReadsNoTail(g); ReadsNoTail(h);
    case Release(g, h) => ReadsNoTail(g); ReadsNoTail(h);
  }

  /** The formula that the verdict on f is about. */
  function AsRead(f: Formula): Formula {
    if Nnf(f).False? then False else FalseAsTrue(Nnf(f))
  }

  lemma PrepareKeepsConstants(f: Formula)
    ensures Prepare(f).True? == Nnf(f).True? && Prepare(f).False? == Nnf(f).False?
  {
    SplitNextConstants(RemoveWNext(AddTail(Nnf(f))));
  }

  lemma PrepareReading(f: Formula, tr: Trace, dflt: bool)
    requires tr != [] && NoTail(f)
    ensures Sat(Prepare(f), tr, 0, Reading(true, dflt, {})) <==> Holds(FalseAsTrue(Nnf(f)), tr, 0)
  {
    var rd, g := Reading(true, dflt, {}), Nnf(f);
    SplitNextMeaning(RemoveWNext(AddTail(g)), tr, 0, rd);
    RemoveWNextMeaning(AddTail(g), tr, 0, rd);
    AddTailMeaning(g, tr, 0, rd);
    NnfShape(f);
    LooseReading(g, tr, 0, false);
    ReadsNoTail(f);
    ReadsNoTail(g);
    SatIsHolds(FalseAsTrue(g), tr, 0);
  }

  /** A prepared formula has a trace in the checker's reading exactly when the formula
      that is read has one. */
  lemma PreparedHasTrace(f: Formula)
    requires NoTail(f)
    ensures Satisfiable(FalseAsTrue(Nnf(f))) <==> !NoTrace(Prepare(f), Prepare(f))
  {
    var g, h := Prepare(f), FalseAsTrue(Nnf(f));
    PrepareShape(f);
    if Satisfiable(h) {
      var tr: Trace :| Holds(h, tr, 0);
      PrepareReading(f, tr, false);
      SomeReadingAllowed(g);
      SatMonotone(g, tr, 0, Reading(true, false, {}), SomeReading(g));
    }
    if !NoTrace(g, g) {
      var tr: Trace, rd: Reading :| |tr| > 0 && Allowed(g, rd) && Sat(g, tr, 0, rd);
      SatMonotone(g, tr, 0, rd, Reading(true, true, {}));
      PrepareReading(f, tr, true);
    }
  }

  /** What holds also holds as it is read. */
  lemma ReadHolds(f: Formula, tr: Trace)
    requires NoTail(f) && IsNnf(f) && Holds(f, tr, 0)
    ensures Holds(FalseAsTrue(f), tr, 0)
  {
    SatIsHolds(f, tr, 0);
    SatMonotone(f, tr, 0, LTLF, Reading(true, false, {}));
    LooseReading(f, tr, 0, false);
    ReadsNoTail(f);
    SatIsHolds(FalseAsTrue(f), tr, 0);
  }

  /** A formula that has a trace also has one as it is read. */
  lemma ReadingIsWeaker(f: Formula)
    requires NoTail(f) && Satisfiable(f)
    ensures Satisfiable(AsRead(f))
  {
    var tr: Trace :| Holds(f, tr, 0);
    var g := Nnf(f);
    NnfShape(f);
    ReadsNoTail(f);
    SatIsHolds(f, tr, 0);
    NnfMeaning(f, tr, 0);
    SatIsHolds(g, tr, 0);
    ReadHolds(g, tr);
  }

  lemma {:induction false} FitReadsItself(f: Formula)
    requires IsNnf(f)
    ensures Nnf(f) == f && (NoLooseFalse(f) ==> FalseAsTrue(f) == f)
  {
    match f
    case True | False | Atom(_) | Not(_) =>
    case Next(g) => FitReadsItself(g);
    case WNext(g) => FitReadsItself(g);
    case Or(g, h) => FitReadsItself(g); FitReadsItself(h);
    case And(g, h) => FitReadsItself(g); FitReadsItself(h);
    case Until(g, h) => FitReadsItself(g); FitReadsItself(h);
    case Release(g, h) => FitReadsItself(g); FitReadsItself(h);
  }

  lemma {:induction false} ConjunctionFit(S: seq<Formula>)
    requires S != []
    ensures (forall f :: f in S ==> NoTail(f)) ==> NoTail(FormulaFrom(S))
    ensures (forall f :: f in S ==> Fit(f)) ==> Fit(FormulaFrom(S))
    decreases |S|
  {
    var init, last := S[..|S| - 1], S[|S| - 1];
    assert last in S && forall f :: f in init ==> f in S;
    if |S| > 1 {
      ConjunctionFit(init);
      assert FormulaFrom(S) == And(FormulaFrom(init), last);
    }
  }

  /** The verdict on a conjunction is that on the conjunction as it is read, and so exact
      for formulas without loose False. */
  method IsSat(S: seq<Formula>) returns (res: bool)
    requires S != [] && forall f :: f in S ==> NoTail(f)
    ensures res <==> Satisfiable(AsRead(FormulaFrom(S)))
    ensures Consistent(S) ==> res
    ensures (forall f :: f in S ==> Fit(f)) ==> (res <==> Consistent(S))
  {
    hide Prepare, NoTrace, Satisfiable, Consistent, FormulaFrom, Prepared, Nnf, FalseAsTrue, NoTail, NoLooseFalse, IsNnf;
    var af := FormulaFrom(S);
    ConjunctionFit(S);
    ConjunctionSatisfiable(S);
    PrepareShape(af);
    PrepareKeepsConstants(af);
    PreparedHasTrace(af);
    ConstantVerdicts();
    var checker := new CarChecker(Prepare(af));
    res := checker.Check();
    if Fit(af) { FitReadsItself(af); FitNotFalse(af); }
    if Consistent(S) { ReadingIsWeaker(af); }
  }

  lemma FitNotFalse(f: Formula)
    requires NoLooseFalse(f)
    ensures !f.False?
  {
  }

  lemma ConstantVerdicts()
    ensures FalseAsTrue(True) == True && Satisfiable(True) && !Satisfiable(False)
  {
    assert Holds(True, [{}], 0);
  }

  /** Without loose False, or for False alone, the verdict is right. */
  lemma ReadAsMeant(f: Formula)
    requires NoTail(f) && (NoLooseFalse(Nnf(f)) || Nnf(f).False?)
    ensures Satisfiable(AsRead(f)) <==> Satisfiable(f)
  {
    NnfShape(f);
    FitReadsItself(Nnf(f));
    ReadsNoTail(f);
    forall tr: Trace ensures Holds(Nnf(f), tr, 0) <==> Holds(f, tr, 0) {
      if tr != [] {
        SatIsHolds(f, tr, 0);
        SatIsHolds(Nnf(f), tr, 0);
        NnfMeaning(f, tr, 0);
      }
    }
  }

  /** With loose False it can be wrong: `false | false` has no trace, but the checker finds
      one. */
  lemma LooseFalseFails()
    ensures var f := Or(False, False); !Satisfiable(f) && Satisfiable(AsRead(f))
  {
    var f := Or(False, False);
    assert Nnf(f) == f;
    forall tr: Trace ensures !Holds(f, tr, 0) { assert Positions(False, tr) == {}; }
    var g := AsRead(f);
    assert g == Or(True, True);
    assert Positions(True, [{}]) == {0} by { assert 0 in Positions(True, [{}]); }
    assert Holds(g, [{}], 0);
  }
}
