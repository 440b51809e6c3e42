/** Obligation formulas: propositional tests that are sufficient for a formula to be
    satisfiable (`off`, `ofr`), and the exact test for traces of one state (`ofg`). */
module Obligations {
  import opened Formulas

  /** The value of a boolean formula in a state. */
  predicate Eval(f: Formula, s: State) {
    match f
    case True => true
    case Atom(p) => p in s
    case Not(g) => !Eval(g, s)
    case Or(g, h) => Eval(g, s) || Eval(h, s)
    case And(g, h) => Eval(g, s) && Eval(h, s)
    case _ => false
  }

  /** No constant below And or Or. */
  predicate ConstantFree(f: Formula) {
    match f
    case True | False => false
    case Or(g, h) => ConstantFree(g) && ConstantFree(h)
    case And(g, h) => ConstantFree(g) && ConstantFree(h)
    case _ => true
  }

  /** What holds in every state that repeats s for ever. */
  function Ofr(f: Formula): (r: Formula)
    ensures IsNnf(f) ==> IsBoolean(r)
  {
    match f
    case Or(g, h) => Or(Ofr(g), Ofr(h))
    case And(g, h) => And(Ofr(g), Ofr(h))
    case Next(_) | WNext(_) => False
    case Until(_, h) => Ofr(h)
    case Release(_, h) => Ofr(h)
    case _ => f
  }

  function Off(f: Formula): (r: Formula)
    ensures IsNnf(f) ==> IsBoolean(r)
  {
    match f
    case Or(g, h) => Or(Off(g), Off(h))
    case And(g, h) => And(Off(g), Off(h))
    case Next(g) => Off(g)
    case WNext(g) => Off(g)
    case Until(_, h) => Off(h)
    case Release(_, h) => Ofr(h)
    case _ => f
  }

  function Ofg(f: Formula): (r: Formula)
    ensures IsNnf(f) ==> IsBoolean(r)
  {
    match f
    case Or(g, h) => Or(Ofg(g), Ofg(h))
    case And(g, h) => And(Ofg(g), Ofg(h))
    case Next(_) => False
    case WNext(_) => True
    case Until(_, h) => Ofg(h)
    case Release(_, h) => Ofg(h)
    case _ => f
  }

  // ------------------------------------------------------------ repeated states

  ghost function Repeat(s: State, n: nat): (tr: Trace)
    ensures |tr| == n && forall i :: 0 <= i < n ==> tr[i] == s
  {
    seq(n, i => s)
  }

  /** How far ahead nested nexts look. */
  function Depth(f: Formula): nat {
    match f
    case True | False | Atom(_) => 0
    case Not(g) => Depth(g)
    case Next(g) => Depth(g) + 1
    case WNext(g) => Depth(g) + 1
    case Or(g, h) => if Depth(g) < Depth(h) then Depth(h) else Depth(g)
    case And(g, h) => if Depth(g) < Depth(h) then Depth(h) else Depth(g)
    case Until(g, h) => if Depth(g) < Depth(h) then Depth(h) else Depth(g)
    case Release(g, h) => if Depth(g) < Depth(h) then Depth(h) else Depth(g)
  }

  /** A state that satisfies ofr(f) satisfies f wherever it is repeated to the end. */
  lemma {:induction false} OfrHolds(f: Formula, s: State, n: nat, i: nat)
    requires IsNnf(f) && Eval(Ofr(f), s) && i < n
    ensures Holds(f, Repeat(s, n), i)
  {
    match f
    case True | False | Atom(_) | Not(_) | Next(_) | WNext(_) =>
    case Or(g, h) => if Eval(Ofr(g), s) { OfrHolds(g, s, n, i); } else { OfrHolds(h, s, n, i); }
    case And(g, h) => OfrHolds(g, s, n, i); OfrHolds(h, s, n, i);
    case Until(_, h) => OfrHolds(h, s, n, i);
    case Release(g, h) =>
      var tr := Repeat(s, n);
      forall k: nat | i <= k < n ensures k in Positions(h, tr) { OfrHolds(h, s, n, k); }
      assert ReleaseAt(Positions(g, tr), Positions(h, tr), n, i);
  }

  /** A state that satisfies off(f), repeated on any trace that is long enough for the
      nexts, satisfies f. */
  lemma {:induction false} OffHolds(f: Formula, s: State, n: nat, i: nat)
    requires IsNnf(f) && Eval(Off(f), s) && i + Depth(f) < n
    ensures Holds(f, Repeat(s, n), i)
  {
    match f
    case True | False | Atom(_) | Not(_) =>
    case Or(g, h) => if Eval(Off(g), s) { OffHolds(g, s, n, i); } else { OffHolds(h, s, n, i); }
    case And(g, h) => OffHolds(g, s, n, i); OffHolds(h, s, n, i);
    case Next(g) => OffHolds(g, s, n, i + 1);
    case WNext(g) => OffHolds(g, s, n, i + 1);
    case Until(_, h) => OffHolds(h, s, n, i);
    case Release(g, h) =>
      var tr := Repeat(s, n);
      forall k: nat | i <= k < n ensures k in Positions(h, tr) { OfrHolds(h, s, n, k); }
      assert ReleaseAt(Positions(g, tr), Positions(h, tr), n, i);
  }

  // ------------------------------------------- what the obligations leave out

  /** No next among the parts that ofr looks at. */
  predicate NextFree(f: Formula) {
    match f
    case True | False | Atom(_) | Not(_) => true
    case Next(_) | WNext(_) => false
    case Or(g, h) => NextFree(g) && NextFree(h)
    case And(g, h) => NextFree(g) && NextFree(h)
    case Until(_, h) => NextFree(h)
    case Release(_, h) => NextFree(h)
  }

  /** The formula with those nexts, which a state repeated to the end need not satisfy,
      replaced by False. */
  function Cut(f: Formula): Formula {
    match f
    case True | False | Atom(_) | Not(_) => f
    case Next(_) | WNext(_) => False
    case Or(g, h) => Or(Cut(g), Cut(h))
    case And(g, h) => And(Cut(g), Cut(h))
    case Until(g, h) => Until(g, Cut(h))
    case Release(g, h) => Release(g, Cut(h))
  }

  /** The formula with nexts below G and R cut, and all others strong. */
  function Blunt(f: Formula): Formula {
    match f
    case True | False | Atom(_) | Not(_) => f
    case Next(g) => Next(Blunt(g))
    case WNext(g) => Next(Blunt(g))
    case Or(g, h) => Or(Blunt(g), Blunt(h))
    case And(g, h) => And(Blunt(g), Blunt(h))
    case Until(g, h) => Until(g, Blunt(h))
    case Release(g, h) => Release(g, Cut(h))
  }

  lemma {:induction false} CutIsSame(f: Formula)
    requires NextFree(f)
    ensures Cut(f) == f
  {
    match f
    case True | False | Atom(_) | Not(_) =>
    case Or(g, h) => CutIsSame(g); CutIsSame(h);
    case And(g, h) => CutIsSame(g); CutIsSame(h);
    case Until(_, h) => CutIsSame(h);
    case Release(_, h) => CutIsSame(h);
  }

  lemma BooleanAtRepeat(f: Formula, s: State, n: nat, i: nat)
    requires i < n && IsNnf(f) && (f.True? || f.False? || f.Atom? || f.Not?)
    ensures Holds(f, Repeat(s, n), i) <==> Eval(f, s)
  {
    if f.Not? { assert Holds(f, Repeat(s, n), i) <==> !Holds(f.r, Repeat(s, n), i); }
  }

  lemma UntilHoldsSomewhere(g: Formula, h: Formula, tr: Trace, i: nat) returns (k: nat)
    requires Holds(Until(g, h), tr, i)
    ensures i <= k < |tr| && Holds(h, tr, k)
  {
    k :| i <= k < |tr| && k in Positions(h, tr) && forall j: nat :: i <= j < k ==> j in Positions(g, tr);
  }

  lemma UntilHoldsNow(g: Formula, h: Formula, tr: Trace, i: nat)
    requires Holds(h, tr, i)
    ensures Holds(Until(g, h), tr, i)
  {
    assert UntilAt(Positions(g, tr), Positions(h, tr), |tr|, i);
  }

  lemma ReleaseHoldsNow(g: Formula, h: Formula, tr: Trace, i: nat)
    ensures Holds(Release(g, h), tr, i) ==> Holds(h, tr, i)
    ensures i < |tr| && (forall k: nat :: i <= k < |tr| ==> Holds(h, tr, k)) ==> Holds(Release(g, h), tr, i)
  {
    var G, H := Positions(g, tr), Positions(h, tr);
    if ReleaseAt(G, H, |tr|, i) && i < |tr| { assert i in H; }
    if i < |tr| && forall k: nat :: i <= k < |tr| ==> Holds(h, tr, k) {
      forall k: nat | i <= k < |tr| ensures k in H { assert Holds(h, tr, k); }
      assert ReleaseAt(G, H, |tr|, i);
    }
  }

  /** ofr(f) is true in exactly those states that, repeated, satisfy f with its nexts cut,
      at every position. */
  lemma {:induction false} OfrExact(f: Formula, s: State, n: nat, i: nat)
    requires IsNnf(f) && i < n
    ensures Eval(Ofr(f), s) <==> Holds(Cut(f), Repeat(s, n), i)
  {
    hide Positions, Repeat;
    var tr := Repeat(s, n);
    match f
    case True | False | Atom(_) | Not(_) => BooleanAtRepeat(f, s, n, i);
    case Next(_) | WNext(_) => BooleanAtRepeat(False, s, n, i);
    case Or(g, h) => OfrExact(g, s, n, i); OfrExact(h, s, n, i); HoldsOr(Cut(g), Cut(h), tr, i);
    case And(g, h) => OfrExact(g, s, n, i); OfrExact(h, s, n, i); HoldsAnd(Cut(g), Cut(h), tr, i);
    case Until(g, h) =>
      OfrExact(h, s, n, i);
      if Holds(Cut(h), tr, i) { UntilHoldsNow(g, Cut(h), tr, i); }
      if Holds(Cut(f), tr, i) {
        var k := UntilHoldsSomewhere(g, Cut(h), tr, i);
        OfrExact(h, s, n, k);
      }
    case Release(g, h) =>
      ReleaseHoldsNow(g, Cut(h), tr, i);
      OfrExact(h, s, n, i);
      forall k: nat | i <= k < n && Eval(Ofr(h), s) ensures Holds(Cut(h), tr, k) { OfrExact(h, s, n, k); }
  }

  /** Without such nexts ofr(f) is exact for f itself. */
  lemma OfrNextFree(f: Formula, s: State, n: nat, i: nat)
    requires IsNnf(f) && NextFree(f) && i < n
    ensures Eval(Ofr(f), s) <==> Holds(f, Repeat(s, n), i)
  {
    CutIsSame(f);
    OfrExact(f, s, n, i);
  }

  lemma HoldsOr(g: Formula, h: Formula, tr: Trace, i: nat)
    ensures Holds(Or(g, h), tr, i) <==> Holds(g, tr, i) || Holds(h, tr, i)
  {
  }

  lemma HoldsAnd(g: Formula, h: Formula, tr: Trace, i: nat)
    ensures Holds(And(g, h), tr, i) <==> Holds(g, tr, i) && Holds(h, tr, i)
  {
  }

  lemma HoldsNext(g: Formula, tr: Trace, i: nat)
    ensures Holds(Next(g), tr, i) <==> i + 1 < |tr| && Holds(g, tr, i + 1)
  {
  }

  /** What the blunt formula needs at any position, off demands of the state. */
  lemma {:induction false} BluntNeedsOff(f: Formula, s: State, n: nat, i: nat)
    requires IsNnf(f) && i < n && Holds(Blunt(f), Repeat(s, n), i)
    ensures Eval(Off(f), s)
  {
    hide Positions, Repeat;
    var tr := Repeat(s, n);
    match f
    case True | False | Atom(_) | Not(_) => BooleanAtRepeat(f, s, n, i);
    case Next(g) => HoldsNext(Blunt(g), tr, i); BluntNeedsOff(g, s, n, i + 1);
    case WNext(g) => HoldsNext(Blunt(g), tr, i); BluntNeedsOff(g, s, n, i + 1);
    case Or(g, h) =>
      HoldsOr(Blunt(g), Blunt(h), tr, i);
      if Holds(Blunt(g), tr, i) { BluntNeedsOff(g, s, n, i); } else { BluntNeedsOff(h, s, n, i); }
    case And(g, h) => HoldsAnd(Blunt(g), Blunt(h), tr, i); BluntNeedsOff(g, s, n, i); BluntNeedsOff(h, s, n, i);
    case Until(g, h) =>
      var k := UntilHoldsSomewhere(g, Blunt(h), tr, i);
      BluntNeedsOff(h, s, n, k);
    case Release(g, h) =>
      ReleaseHoldsNow(g, Cut(h), tr, i);
      OfrExact(h, s, n, i);
  }

  lemma {:induction false} OffGivesBlunt(f: Formula, s: State, n: nat, i: nat)
    requires IsNnf(f) && Eval(Off(f), s) && i + Depth(f) < n
    ensures Holds(Blunt(f), Repeat(s, n), i)
  {
    hide Positions, Repeat;
    var tr := Repeat(s, n);
    match f
    case True | False | Atom(_) | Not(_) => BooleanAtRepeat(f, s, n, i);
    case Next(g) => OffGivesBlunt(g, s, n, i + 1); HoldsNext(Blunt(g), tr, i);
    case WNext(g) => OffGivesBlunt(g, s, n, i + 1); HoldsNext(Blunt(g), tr, i);
    case Or(g, h) =>
      if Eval(Off(g), s) { OffGivesBlunt(g, s, n, i); } else { OffGivesBlunt(h, s, n, i); }
      HoldsOr(Blunt(g), Blunt(h), tr, i);
    case And(g, h) => OffGivesBlunt(g, s, n, i); OffGivesBlunt(h, s, n, i); HoldsAnd(Blunt(g), Blunt(h), tr, i);
    case Until(g, h) => OffGivesBlunt(h, s, n, i); UntilHoldsNow(g, Blunt(h), tr, i);
    case Release(g, h) =>
      forall k: nat | i <= k < n ensures Holds(Cut(h), tr, k) { OfrExact(h, s, n, k); }
      ReleaseHoldsNow(g, Cut(h), tr, i);
  }

  /** off(f) is true in exactly those states that satisfy the blunt formula when they are
      repeated often enough. */
  lemma OffExact(f: Formula, s: State, n: nat)
    requires IsNnf(f) && Depth(f) < n
    ensures Eval(Off(f), s) <==> Holds(Blunt(f), Repeat(s, n), 0)
  {
    if Eval(Off(f), s) { OffGivesBlunt(f, s, n, 0); }
    if Holds(Blunt(f), Repeat(s, n), 0) { BluntNeedsOff(f, s, n, 0); }
  }

  /** No next below a release, and no weak next below an until. */
  predicate Steady(f: Formula, inUntil: bool) {
    match f
    case True | False | Atom(_) | Not(_) => true
    case Next(g) => Steady(g, inUntil)
    case WNext(g) => !inUntil && Steady(g, inUntil)
    case Or(g, h) => Steady(g, inUntil) && Steady(h, inUntil)
    case And(g, h) => Steady(g, inUntil) && Steady(h, inUntil)
    case Until(_, h) => Steady(h, true)
    case Release(_, h) => NextFree(h)
  }

  /** On such formulas off is not only sufficient: a repeated state that satisfies the
      formula satisfies off(f). */
  lemma {:induction false} OffComplete(f: Formula, s: State, n: nat, i: nat, inUntil: bool)
    requires IsNnf(f) && Steady(f, inUntil) && i < n && (inUntil || i + Depth(f) < n)
    requires Holds(f, Repeat(s, n), i)
    ensures Eval(Off(f), s)
  {
    hide Positions, Repeat;
    var tr := Repeat(s, n);
    match f
    case True | False | Atom(_) | Not(_) => BooleanAtRepeat(f, s, n, i);
    case Next(g) => HoldsNext(g, tr, i); OffComplete(g, s, n, i + 1, inUntil);
    case WNext(g) => HoldsWeakNext(g, tr, i); OffComplete(g, s, n, i + 1, inUntil);
    case Or(g, h) =>
      HoldsOr(g, h, tr, i);
      if Holds(g, tr, i) { OffComplete(g, s, n, i, inUntil); } else { OffComplete(h, s, n, i, inUntil); }
    case And(g, h) => HoldsAnd(g, h, tr, i); OffComplete(g, s, n, i, inUntil); OffComplete(h, s, n, i, inUntil);
    case Until(g, h) =>
      var k := UntilHoldsSomewhere(g, h, tr, i);
      OffComplete(h, s, n, k, true);
    case Release(g, h) =>
      ReleaseHoldsNow(g, h, tr, i);
      CutIsSame(h);
      OfrExact(h, s, n, i);
  }

  lemma HoldsWeakNext(g: Formula, tr: Trace, i: nat)
    ensures Holds(WNext(g), tr, i) && i + 1 < |tr| ==> Holds(g, tr, i + 1)
  {
  }

  /** Both exceptions are needed: G N a and F N a hold on repeated states that their
      obligations refuse. */
  lemma OffMisses()
    ensures var f := Release(False, WNext(Atom(1))); Holds(f, Repeat({1}, 3), 0) && !Eval(Off(f), {1})
    ensures var f := Until(True, WNext(Atom(1))); Holds(f, Repeat({}, 3), 0) && !Eval(Off(f), {})
  {
    var n := WNext(Atom(1));
    var one, none := Repeat({1}, 3), Repeat({}, 3);
    forall k: nat | 0 <= k < 3 ensures Holds(n, one, k) { assert k + 1 == 3 || k + 1 in Positions(Atom(1), one); }
    ReleaseHoldsNow(False, n, one, 0);
    assert 2 in Positions(n, none);
    assert forall j: nat :: 0 <= j < 2 ==> j in Positions(True, none);
    assert UntilAt(Positions(True, none), Positions(n, none), 3, 0);
  }

  // ---------------------------------------------------------- global formulas

  /** ofg(f) is true in a state exactly when the trace of that one state satisfies f. */
  lemma {:induction false} OfgIsOneState(f: Formula, s: State)
    requires IsNnf(f)
    ensures Eval(Ofg(f), s) <==> Holds(f, [s], 0)
  {
    match f
    case True | False | Atom(_) =>
    case Not(g) => assert Holds(f, [s], 0) <==> !Holds(g, [s], 0);
    case Next(_) => assert !Holds(f, [s], 0);
    case WNext(_) => assert Holds(f, [s], 0);
    case Or(g, h) => OfgIsOneState(g, s); OfgIsOneState(h, s);
    case And(g, h) => OfgIsOneState(g, s); OfgIsOneState(h, s);
    case Until(g, h) => OfgIsOneState(h, s);
      if 0 in Positions(h, [s]) { assert UntilAt(Positions(g, [s]), Positions(h, [s]), 1, 0); }
    case Release(g, h) => OfgIsOneState(h, s);
      assert ReleaseAt(Positions(g, [s]), Positions(h, [s]), 1, 0) <==> 0 in Positions(h, [s]);
  }

  /** What holds in the last state holds of that state alone. */
  lemma {:induction false} LastStateAlone(f: Formula, tr: Trace)
    requires tr != []
    ensures var n := |tr| - 1; Holds(f, tr, n) <==> Holds(f, [tr[n]], 0)
  {
    var n := |tr| - 1;
    match f
    case True | False | Atom(_) | Next(_) | WNext(_) =>
    case Not(g) => LastStateAlone(g, tr);
    case Or(g, h) => LastStateAlone(g, tr); LastStateAlone(h, tr);
    case And(g, h) => LastStateAlone(g, tr); LastStateAlone(h, tr);
    case Until(g, h) =>
      LastStateAlone(h, tr);
      UntilUnfolds(Positions(g, tr), Positions(h, tr), n + 1, n);
      UntilUnfolds(Positions(g, [tr[n]]), Positions(h, [tr[n]]), 1, 0);
    case Release(g, h) =>
      LastStateAlone(h, tr);
      ReleaseUnfolds(Positions(g, tr), Positions(h, tr), n + 1, n);
      ReleaseUnfolds(Positions(g, [tr[n]]), Positions(h, [tr[n]]), 1, 0);
  }

  /** A global formula that holds anywhere on a trace still holds in its last state. */
  lemma {:induction false} GlobalHoldsLast(f: Formula, tr: Trace, i: nat)
    requires IsGlobal(f) && Holds(f, tr, i)
    ensures Holds(f, tr, |tr| - 1)
  {
    if f.Release? {
      var n := |tr| - 1;
      assert Positions(f.l, tr) == {};
      assert n in Positions(f.r, tr);
      assert ReleaseAt(Positions(f.l, tr), Positions(f.r, tr), |tr|, n);
    } else if f.And? {
      GlobalHoldsLast(f.l, tr, i);
      GlobalHoldsLast(f.r, tr, i);
    } else if Holds(f.l, tr, i) {
      GlobalHoldsLast(f.l, tr, i);
    } else {
      GlobalHoldsLast(f.r, tr, i);
    }
  }

  /** A global formula is satisfiable exactly when its one-state test is. */
  lemma GlobalCollapse(f: Formula)
    requires IsNnf(f) && IsGlobal(f)
    ensures Satisfiable(f) <==> exists s: State :: Eval(Ofg(f), s)
  {
    if tr: Trace :| Holds(f, tr, 0) {
      GlobalHoldsLast(f, tr, 0);
      LastStateAlone(f, tr);
      OfgIsOneState(f, tr[|tr| - 1]);
    }
    if s: State :| Eval(Ofg(f), s) {
      OfgIsOneState(f, s);
    }
  }
}
