/** Formulas as the parser delivers them, their meaning, and the construction of the
    checker's formulas from them. */
module ParsedFormulas {
  import opened Formulas
  import opened Sets

  datatype Parsed =
    | ETrue | EFalse
    | ELiteral(v: nat)
    | ENot(r: Parsed)
    | ENext(r: Parsed)
    | EWNext(r: Parsed)
    | EGlobally(r: Parsed)
    | EFuture(r: Parsed)
    | EUntil(l: Parsed, r: Parsed)
    | EWUntil(l: Parsed, r: Parsed)
    | ERelease(l: Parsed, r: Parsed)
    | EAnd(l: Parsed, r: Parsed)
    | EOr(l: Parsed, r: Parsed)
    | EImplies(l: Parsed, r: Parsed)
    | EEquiv(l: Parsed, r: Parsed)

  /** Textbook meaning on finite traces: the positions where the formula holds. */
  ghost function Where(f: Parsed, tr: Trace): (s: set<nat>)
    ensures forall i :: i in s ==> i < |tr|
  {
    var n := |tr|;
    var all := Below(n);
    match f
    case ETrue => all
    case EFalse => {}
    case ELiteral(p) => set i | i in all && p in tr[i]
    case ENot(g) => all - Where(g, tr)
    case ENext(g) => var G := Where(g, tr); set i | i in all && i + 1 in G
    case EWNext(g) => var G := Where(g, tr); set i | i in all && (i + 1 == n || i + 1 in G)
    case EGlobally(g) => var G := Where(g, tr); set i | i in all && ReleaseAt({}, G, n, i)
    case EFuture(g) => var G := Where(g, tr); set i | i in all && UntilAt(all, G, n, i)
    case EUntil(g, h) => var G, H := Where(g, tr), Where(h, tr); set i | i in all && UntilAt(G, H, n, i)
    case EWUntil(g, h) =>
      var G, H := Where(g, tr), Where(h, tr); set i | i in all && (ReleaseAt({}, G, n, i) || UntilAt(G, H, n, i))
    case ERelease(g, h) => var G, H := Where(g, tr), Where(h, tr); set i | i in all && ReleaseAt(G, H, n, i)
    case EAnd(g, h) => Where(g, tr) * Where(h, tr)
    case EOr(g, h) => Where(g, tr) + Where(h, tr)
    case EImplies(g, h) => (all - Where(g, tr)) + Where(h, tr)
    case EEquiv(g, h) => var G, H := Where(g, tr), Where(h, tr); set i | i in all && (i in G <==> i in H)
  }

  // ------------------------------------------------------------- construction

  function Size(f: Parsed): nat {
    match f
    case ETrue | EFalse | ELiteral(_) => 1
    case ENot(g) => Size(g) + 1
    case ENext(g) => Size(g) + 1
    case EWNext(g) => Size(g) + 1
    case EGlobally(g) => Size(g) + 1
    case EFuture(g) => Size(g) + 1
    case EEquiv(g, h) => 2 * Size(g) + 2 * Size(h) + 6
    case EUntil(g, h) => Size(g) + Size(h) + 1
    case EWUntil(g, h) => Size(g) + Size(h) + 1
    case ERelease(g, h) => Size(g) + Size(h) + 1
    case EAnd(g, h) => Size(g) + Size(h) + 1
    case EOr(g, h) => Size(g) + Size(h) + 1
    case EImplies(g, h) => Size(g) + Size(h) + 1
  }

  /** The conjunction of two implications that an equivalence is rewritten to. */
  function BothWays(g: Parsed, h: Parsed): (e: Parsed)
    ensures Size(e) < Size(EEquiv(g, h))
  {
    var there := EOr(ENot(g), h);
    var back := EOr(ENot(h), g);
    assert Size(there) == Size(ENot(g)) + Size(h) + 1;
    assert Size(back) == Size(ENot(h)) + Size(g) + 1;
    assert Size(EAnd(there, back)) == Size(there) + Size(back) + 1;
    EAnd(there, back)
  }

  /** The checker's formula, with the negation above, if any, pushed down to the atoms. */
  function Build(f: Parsed, negated: bool): Formula
    decreases Size(f)
  {
    match f
    case ETrue => if negated then False else True
    case EFalse => if negated then True else False
    case ELiteral(p) => if negated then Not(Atom(p)) else Atom(p)
    case ENot(g) => Build(g, !negated)
    case ENext(g) => if negated then WNext(Build(g, negated)) else Next(Build(g, negated))
    case EWNext(g) => if negated then Next(Build(g, negated)) else WNext(Build(g, negated))
    case EGlobally(g) => if negated then Until(True, Build(g, negated)) else Release(False, Build(g, negated))
    case EFuture(g) => if negated then Release(False, Build(g, negated)) else Until(True, Build(g, negated))
    case EUntil(g, h) =>
      if negated then Release(Build(g, negated), Build(h, negated)) else Until(Build(g, negated), Build(h, negated))
    case EWUntil(g, h) =>
      var l, r := Build(g, negated), Build(h, negated);
      if negated then And(Until(True, l), Release(l, r)) else Or(Release(False, l), Until(l, r))
    case ERelease(g, h) =>
      if negated then Until(Build(g, negated), Build(h, negated)) else Release(Build(g, negated), Build(h, negated))
    case EAnd(g, h) =>
      if negated then Or(Build(g, negated), Build(h, negated)) else And(Build(g, negated), Build(h, negated))
    case EOr(g, h) =>
      if negated then And(Build(g, negated), Build(h, negated)) else Or(Build(g, negated), Build(h, negated))
    case EImplies(g, h) =>
      if negated then And(Build(g, !negated), Build(h, negated)) else Or(Build(g, !negated), Build(h, negated))
    case EEquiv(g, h) => Build(BothWays(g, h), negated)
  }

  /** The reserved atom is not mentioned. */
  predicate Unreserved(f: Parsed) {
    match f
    case ETrue | EFalse => true
    case ELiteral(p) => p != 0
    case ENot(g) => Unreserved(g)
    case ENext(g) => Unreserved(g)
    case EWNext(g) => Unreserved(g)
    case EGlobally(g) => Unreserved(g)
    case EFuture(g) => Unreserved(g)
    case EUntil(g, h) => Unreserved(g) && Unreserved(h)
    case EWUntil(g, h) => Unreserved(g) && Unreserved(h)
    case ERelease(g, h) => Unreserved(g) && Unreserved(h)
    case EAnd(g, h) => Unreserved(g) && Unreserved(h)
    case EOr(g, h) => Unreserved(g) && Unreserved(h)
    case EImplies(g, h) => Unreserved(g) && Unreserved(h)
    case EEquiv(g, h) => Unreserved(g) && Unreserved(h)
  }

  /** No constant is written in the formula. */
  predicate NoConstants(f: Parsed) {
    match f
    case ETrue | EFalse => false
    case ELiteral(_) => true
    case ENot(g) => NoConstants(g)
    case ENext(g) => NoConstants(g)
    case EWNext(g) => NoConstants(g)
    case EGlobally(g) => NoConstants(g)
    case EFuture(g) => NoConstants(g)
    case EUntil(g, h) => NoConstants(g) && NoConstants(h)
    case EWUntil(g, h) => NoConstants(g) && NoConstants(h)
    case ERelease(g, h) => NoConstants(g) && NoConstants(h)
    case EAnd(g, h) => NoConstants(g) && NoConstants(h)
    case EOr(g, h) => NoConstants(g) && NoConstants(h)
    case EImplies(g, h) => NoConstants(g) && NoConstants(h)
    case EEquiv(g, h) => NoConstants(g) && NoConstants(h)
  }

  /** What is built has negations at atoms only. */
  lemma {:induction false} BuildNnf(f: Parsed, negated: bool)
    ensures IsNnf(Build(f, negated))
    decreases Size(f)
  {
    match f
    case ETrue | EFalse | ELiteral(_) =>
    case ENot(g) => BuildNnf(g, !negated);
    case ENext(g) => BuildNnf(g, negated);
    case EWNext(g) => BuildNnf(g, negated);
    case EGlobally(g) => BuildNnf(g, negated);
    case EFuture(g) => BuildNnf(g, negated);
    case EUntil(g, h) => BuildNnf(g, negated); BuildNnf(h, negated);
    case EWUntil(g, h) => BuildNnf(g, negated); BuildNnf(h, negated);
    case ERelease(g, h) => BuildNnf(g, negated); BuildNnf(h, negated);
    case EAnd(g, h) => BuildNnf(g, negated); BuildNnf(h, negated);
    case EOr(g, h) => BuildNnf(g, negated); BuildNnf(h, negated);
    case EImplies(g, h) => BuildNnf(g, !negated); BuildNnf(h, negated);
    case EEquiv(g, h) => BuildNnf(BothWays(g, h), negated);
  }

  /** What is built mentions Tail only where the parsed formula does. */
  lemma {:induction false} BuildNoTail(f: Parsed, negated: bool)
    requires Unreserved(f)
    ensures NoTail(Build(f, negated))
    decreases Size(f)
  {
    match f
    case ETrue | EFalse | ELiteral(_) =>
    case ENot(g) => BuildNoTail(g, !negated);
    case ENext(g) => BuildNoTail(g, negated);
    case EWNext(g) => BuildNoTail(g, negated);
    case EGlobally(g) => BuildNoTail(g, negated);
    case EFuture(g) => BuildNoTail(g, negated);
    case EUntil(g, h) => BuildNoTail(g, negated); BuildNoTail(h, negated);
    case EWUntil(g, h) =>
      BuildNoTail(g, negated); BuildNoTail(h, negated);
      var l, r := Build(g, negated), Build(h, negated);
      assert NoTail(Release(False, l)) && NoTail(Until(True, l)) && NoTail(Until(l, r)) && NoTail(Release(l, r));
    case ERelease(g, h) => BuildNoTail(g, negated); BuildNoTail(h, negated);
    case EAnd(g, h) => BuildNoTail(g, negated); BuildNoTail(h, negated);
    case EOr(g, h) => BuildNoTail(g, negated); BuildNoTail(h, negated);
    case EImplies(g, h) => BuildNoTail(g, !negated); BuildNoTail(h, negated);
    case EEquiv(g, h) =>
      assert Unreserved(EOr(ENot(g), h)) && Unreserved(EOr(ENot(h), g));
      BuildNoTail(BothWays(g, h), negated);
  }

  /** From a formula without constants, constants are made only as left operands of F and G. */
  lemma {:induction false} BuildNoLooseFalse(f: Parsed, negated: bool)
    requires NoConstants(f)
    ensures NoLooseFalse(Build(f, negated))
    decreases Size(f)
  {
    match f
    case ELiteral(_) =>
    case ENot(g) => BuildNoLooseFalse(g, !negated);
    case ENext(g) => BuildNoLooseFalse(g, negated);
    case EWNext(g) => BuildNoLooseFalse(g, negated);
    case EGlobally(g) => BuildNoLooseFalse(g, negated);
    case EFuture(g) => BuildNoLooseFalse(g, negated);
    case EUntil(g, h) => BuildNoLooseFalse(g, negated); BuildNoLooseFalse(h, negated);
    case EWUntil(g, h) =>
      BuildNoLooseFalse(g, negated); BuildNoLooseFalse(h, negated);
      var l, r := Build(g, negated), Build(h, negated);
      assert NoLooseFalse(Release(False, l)) && NoLooseFalse(Until(True, l));
      assert NoLooseFalse(Until(l, r)) && NoLooseFalse(Release(l, r));
    case ERelease(g, h) => BuildNoLooseFalse(g, negated); BuildNoLooseFalse(h, negated);
    case EAnd(g, h) => BuildNoLooseFalse(g, negated); BuildNoLooseFalse(h, negated);
    case EOr(g, h) => BuildNoLooseFalse(g, negated); BuildNoLooseFalse(h, negated);
    case EImplies(g, h) => BuildNoLooseFalse(g, !negated); BuildNoLooseFalse(h, negated);
    case EEquiv(g, h) =>
      assert NoConstants(EOr(ENot(g), h)) && NoConstants(EOr(ENot(h), g));
      BuildNoLooseFalse(BothWays(g, h), negated);
  }

  // ------------------------------------------------------------------ meaning

  /** The positions where the formula has the value that is asked for. */
  ghost function WhereNot(f: Parsed, negated: bool, tr: Trace): set<nat> {
    if negated then Below(|tr|) - Where(f, tr) else Where(f, tr)
  }

  /** The formula stands for the parsed one, or for its negation. */
  ghost predicate Means(b: Formula, f: Parsed, negated: bool, tr: Trace) {
    Positions(b, tr) == WhereNot(f, negated, tr)
  }

  lemma UntilDual(G: set<nat>, H: set<nat>, n: nat, i: nat)
    requires i < n
    ensures UntilAt(Below(n) - G, Below(n) - H, n, i) <==> !ReleaseAt(G, H, n, i)
  {
    var all := Below(n);
    if !ReleaseAt(G, H, n, i) {
      var k: nat :| i <= k < n && !(k in H || exists j: nat :: i <= j < k && j in G);
      assert k in all - H && forall j: nat :: i <= j < k ==> j in all - G;
    }
  }

  lemma ReleaseDual(G: set<nat>, H: set<nat>, n: nat, i: nat)
    requires i < n && G <= Below(n) && H <= Below(n)
    ensures ReleaseAt(Below(n) - G, Below(n) - H, n, i) <==> !UntilAt(G, H, n, i)
  {
    UntilDual(Below(n) - G, Below(n) - H, n, i);
    assert Below(n) - (Below(n) - G) == G && Below(n) - (Below(n) - H) == H;
  }

  lemma MeansUntil(l: Formula, r: Formula, g: Parsed, h: Parsed, negated: bool, tr: Trace)
    requires Means(l, g, negated, tr) && Means(r, h, negated, tr)
    ensures Means(if negated then Release(l, r) else Until(l, r), EUntil(g, h), negated, tr)
  {
    hide UntilAt, ReleaseAt;
    var n, G, H := |tr|, Where(g, tr), Where(h, tr);
    if negated {
      forall i | i in Below(n)
        ensures ReleaseAt(Below(n) - G, Below(n) - H, n, i) <==> !UntilAt(G, H, n, i)
      {
        ReleaseDual(G, H, n, i);
      }
      assert Positions(Release(l, r), tr) == Below(n) - Where(EUntil(g, h), tr);
    }
  }

  lemma MeansRelease(l: Formula, r: Formula, g: Parsed, h: Parsed, negated: bool, tr: Trace)
    requires Means(l, g, negated, tr) && Means(r, h, negated, tr)
    ensures Means(if negated then Until(l, r) else Release(l, r), ERelease(g, h), negated, tr)
  {
    hide UntilAt, ReleaseAt;
    var n, G, H := |tr|, Where(g, tr), Where(h, tr);
    if negated {
      forall i | i in Below(n)
        ensures UntilAt(Below(n) - G, Below(n) - H, n, i) <==> !ReleaseAt(G, H, n, i)
      {
        UntilDual(G, H, n, i);
      }
      assert Positions(Until(l, r), tr) == Below(n) - Where(ERelease(g, h), tr);
    }
  }

  lemma MeansFuture(r: Formula, g: Parsed, negated: bool, tr: Trace)
    requires Means(r, g, negated, tr)
    ensures Means(if negated then Release(False, r) else Until(True, r), EFuture(g), negated, tr)
  {
    MeansUntil(if negated then False else True, r, ETrue, g, negated, tr);
    assert Where(EFuture(g), tr) == Where(EUntil(ETrue, g), tr);
  }

  lemma MeansGlobally(r: Formula, g: Parsed, negated: bool, tr: Trace)
    requires Means(r, g, negated, tr)
    ensures Means(if negated then Until(True, r) else Release(False, r), EGlobally(g), negated, tr)
  {
    MeansRelease(if negated then True else False, r, EFalse, g, negated, tr);
    assert Where(EGlobally(g), tr) == Where(ERelease(EFalse, g), tr);
  }

  lemma MeansWUntil(l: Formula, r: Formula, g: Parsed, h: Parsed, negated: bool, tr: Trace)
    requires Means(l, g, negated, tr) && Means(r, h, negated, tr)
    ensures negated ==> Means(And(Until(True, l), Release(l, r)), EWUntil(g, h), negated, tr)
    ensures !negated ==> Means(Or(Release(False, l), Until(l, r)), EWUntil(g, h), negated, tr)
  {
    hide UntilAt, ReleaseAt;
    MeansUntil(l, r, g, h, negated, tr);
    MeansGlobally(l, g, negated, tr);
    assert Where(EWUntil(g, h), tr) == Where(EGlobally(g), tr) + Where(EUntil(g, h), tr);
  }

  lemma MeansNext(r: Formula, g: Parsed, negated: bool, tr: Trace)
    requires Means(r, g, negated, tr)
    ensures Means(if negated then WNext(r) else Next(r), ENext(g), negated, tr)
    ensures Means(if negated then Next(r) else WNext(r), EWNext(g), negated, tr)
  {
  }

  lemma MeansBothWays(b: Formula, g: Parsed, h: Parsed, negated: bool, tr: Trace)
    requires Means(b, BothWays(g, h), negated, tr)
    ensures Means(b, EEquiv(g, h), negated, tr)
  {
    hide UntilAt, ReleaseAt;
    var there, back := EOr(ENot(g), h), EOr(ENot(h), g);
    var n, G, H := |tr|, Where(g, tr), Where(h, tr);
    assert Where(there, tr) == Where(ENot(g), tr) + H && Where(back, tr) == Where(ENot(h), tr) + G;
    assert Where(BothWays(g, h), tr) == Where(there, tr) * Where(back, tr);
    assert Where(BothWays(g, h), tr) == Where(EEquiv(g, h), tr);
  }

  lemma MeansOr(l: Formula, r: Formula, g: Parsed, h: Parsed, negated: bool, tr: Trace)
    requires Means(l, g, negated, tr) && Means(r, h, negated, tr)
    ensures Means(if negated then And(l, r) else Or(l, r), EOr(g, h), negated, tr)
    ensures Means(if negated then Or(l, r) else And(l, r), EAnd(g, h), negated, tr)
  {
    hide UntilAt, ReleaseAt;
  }

  lemma MeansImplies(l: Formula, r: Formula, g: Parsed, h: Parsed, negated: bool, tr: Trace)
    requires Means(l, g, !negated, tr) && Means(r, h, negated, tr)
    ensures Means(if negated then And(l, r) else Or(l, r), EImplies(g, h), negated, tr)
  {
    hide UntilAt, ReleaseAt;
  }

  lemma MeansLeaf(f: Parsed, negated: bool, tr: Trace)
    requires f.ETrue? || f.EFalse? || f.ELiteral?
    ensures Means(Build(f, negated), f, negated, tr)
  {
  }

  lemma MeansNot(b: Formula, g: Parsed, negated: bool, tr: Trace)
    requires Means(b, g, !negated, tr)
    ensures Means(b, ENot(g), negated, tr)
  {
  }

  /** What is built means what was parsed, or its negation. */
  lemma {:induction false} BuildMeaning(f: Parsed, negated: bool, tr: Trace)
    ensures Means(Build(f, negated), f, negated, tr)
    decreases Size(f)
  {
    hide Means;
    match f
    case ETrue | EFalse | ELiteral(_) => MeansLeaf(f, negated, tr);
    case ENot(g) => BuildMeaning(g, !negated, tr); MeansNot(Build(g, !negated), g, negated, tr);
    case ENext(g) => BuildMeaning(g, negated, tr); MeansNext(Build(g, negated), g, negated, tr);
    case EWNext(g) => BuildMeaning(g, negated, tr); MeansNext(Build(g, negated), g, negated, tr);
    case EGlobally(g) => BuildMeaning(g, negated, tr); MeansGlobally(Build(g, negated), g, negated, tr);
    case EFuture(g) => BuildMeaning(g, negated, tr); MeansFuture(Build(g, negated), g, negated, tr);
    case EUntil(g, h) =>
      BuildMeaning(g, negated, tr); BuildMeaning(h, negated, tr);
      MeansUntil(Build(g, negated), Build(h, negated), g, h, negated, tr);
    case EWUntil(g, h) =>
      BuildMeaning(g, negated, tr); BuildMeaning(h, negated, tr);
      MeansWUntil(Build(g, negated), Build(h, negated), g, h, negated, tr);
    case ERelease(g, h) =>
      BuildMeaning(g, negated, tr); BuildMeaning(h, negated, tr);
      MeansRelease(Build(g, negated), Build(h, negated), g, h, negated, tr);
    case EAnd(g, h) =>
      BuildMeaning(g, negated, tr); BuildMeaning(h, negated, tr);
      MeansOr(Build(g, negated), Build(h, negated), g, h, negated, tr);
    case EOr(g, h) =>
      BuildMeaning(g, negated, tr); BuildMeaning(h, negated, tr);
      MeansOr(Build(g, negated), Build(h, negated), g, h, negated, tr);
    case EImplies(g, h) =>
      BuildMeaning(g, !negated, tr); BuildMeaning(h, negated, tr);
      MeansImplies(Build(g, !negated), Build(h, negated), g, h, negated, tr);
    case EEquiv(g, h) =>
      BuildMeaning(BothWays(g, h), negated, tr);
      MeansBothWays(Build(f, negated), g, h, negated, tr);
  }

  /** Some trace satisfies the parsed formula. */
  ghost predicate HasTrace(f: Parsed) { exists tr: Trace :: 0 in Where(f, tr) }

  /** The checker's formula has a trace exactly if the parsed formula has one. */
  lemma BuildSatisfiable(f: Parsed)
    ensures Satisfiable(Build(f, false)) <==> HasTrace(f)
  {
    var b := Build(f, false);
    forall tr: Trace ensures Positions(b, tr) == Where(f, tr) { BuildMeaning(f, false, tr); }
    if HasTrace(f) {
      var tr: Trace :| 0 in Where(f, tr);
      assert Holds(b, tr, 0);
    }
  }
}
