/** Formulas of linear temporal logic on finite traces, as the checker represents
    them, together with their meaning. */
module Formulas {
  import opened Sets

  /** A formula node.  Operator codes above the operator range are atoms;
      `F g` is stored as `Until(True, g)` and `G g` as `Release(False, g)`. */
  datatype Formula =
    | True
    | False
    | Atom(op: nat)
    | Not(r: Formula)
    | Or(l: Formula, r: Formula)
    | And(l: Formula, r: Formula)
    | Next(r: Formula)
    | WNext(r: Formula)
    | Until(l: Formula, r: Formula)
    | Release(l: Formula, r: Formula)

  /** The reserved atom that marks the last state of a trace. */
  const TAIL := Atom(0)

  type State = set<nat>
  type Trace = seq<State>

  // ---------------------------------------------------------------- meaning

  /** Textbook meaning of an LTLf formula: the positions of a finite trace at
      which it holds. */
  ghost function Positions(f: Formula, tr: Trace): (s: set<nat>)
    ensures forall i :: i in s ==> i < |tr|
  {
    var n := |tr|;
    var all := Below(n);
    match f
    case True => all
    case False => {}
    case Atom(p) => set i | i in all && p in tr[i]
    case Not(g) => all - Positions(g, tr)
    case Or(g, h) => Positions(g, tr) + Positions(h, tr)
    case And(g, h) => Positions(g, tr) * Positions(h, tr)
    case Next(g) => var G := Positions(g, tr); set i | i in all && i + 1 < n && i + 1 in G
    case WNext(g) => var G := Positions(g, tr); set i | i in all && (i + 1 == n || i + 1 in G)
    case Until(g, h) =>
      var G, H := Positions(g, tr), Positions(h, tr); set i | i in all && UntilAt(G, H, n, i)
    case Release(g, h) =>
      var G, H := Positions(g, tr), Positions(h, tr); set i | i in all && ReleaseAt(G, H, n, i)
  }

  /** Some position from i on is in H, and all positions before it are in G. */
  ghost predicate UntilAt(G: set<nat>, H: set<nat>, n: nat, i: nat) {
    exists k: nat :: i <= k < n && k in H && forall j: nat :: i <= j < k ==> j in G
  }

  /** Every position from i on is in H, except those after a position in G. */
  ghost predicate ReleaseAt(G: set<nat>, H: set<nat>, n: nat, i: nat) {
    forall k: nat :: i <= k < n ==> k in H || exists j: nat :: i <= j < k && j in G
  }

  ghost predicate Holds(f: Formula, tr: Trace, i: nat) { i in Positions(f, tr) }

  ghost predicate Satisfiable(f: Formula) {
    exists tr: Trace :: Holds(f, tr, 0)
  }

  /** How to read the two things that a trace leaves open for the step encoding:
      the value of a constant that is not the left operand of F or G, and the
      value of `X g` in the last state (`dflt`, flipped for the formulas in
      `flips`). */
  datatype Reading = Reading(looseFalse: bool, dflt: bool, flips: set<Formula>)
  {
    predicate LastNext(g: Formula) { dflt != (g in flips) }
  }

  /** LTLf: constants are what they say and `X g` fails in the last state. */
  const LTLF := Reading(false, false, {})

  /** Meaning on a trace whose last state, and no other, is marked Tail.  This is
      the fixpoint reading the step encoding uses. */
  ghost predicate Sat(f: Formula, tr: Trace, i: nat, rd: Reading)
    requires i < |tr|
    decreases f, |tr| - i
  {
    match f
    case True => true
    case False => rd.looseFalse
    case Atom(p) => if p == 0 then i + 1 == |tr| else p in tr[i]
    case Not(g) => !Sat(g, tr, i, rd)
    case Or(g, h) => Sat(g, tr, i, rd) || Sat(h, tr, i, rd)
    case And(g, h) => Sat(g, tr, i, rd) && Sat(h, tr, i, rd)
    case Next(g) => if i + 1 < |tr| then Sat(g, tr, i + 1, rd) else rd.LastNext(g)
    case WNext(g) => i + 1 < |tr| ==> Sat(g, tr, i + 1, rd)
    case Until(g, h) =>
      || Sat(h, tr, i, rd)
      || ((g.True? || Sat(g, tr, i, rd)) && i + 1 < |tr| && Sat(f, tr, i + 1, rd))
    case Release(g, h) =>
      && Sat(h, tr, i, rd)
      && ((!g.False? && Sat(g, tr, i, rd)) || i + 1 == |tr| || Sat(f, tr, i + 1, rd))
  }

  // ------------------------------------------------------------- shape tests

  /** The formula does not mention the reserved atom. */
  predicate NoTail(f: Formula) {
    match f
    case True | False => true
    case Atom(p) => p != 0
    case Not(g) => NoTail(g)
    case Next(g) => NoTail(g)
    case WNext(g) => NoTail(g)
    case Or(g, h) => NoTail(g) && NoTail(h)
    case And(g, h) => NoTail(g) && NoTail(h)
    case Until(g, h) => NoTail(g) && NoTail(h)
    case Release(g, h) => NoTail(g) && NoTail(h)
  }

  /** Constants occur only as the left operand of F and G. */
  predicate NoLooseConstants(f: Formula) {
    match f
    case True | False => false
    case Atom(_) => true
    case Not(g) => NoLooseConstants(g)
    case Next(g) => NoLooseConstants(g)
    case WNext(g) => NoLooseConstants(g)
    case Or(g, h) => NoLooseConstants(g) && NoLooseConstants(h)
    case And(g, h) => NoLooseConstants(g) && NoLooseConstants(h)
    case Until(g, h) => (g.True? || NoLooseConstants(g)) && NoLooseConstants(h)
    case Release(g, h) => (g.False? || NoLooseConstants(g)) && NoLooseConstants(h)
  }

  /** In a negation normal form, False occurs only as the left operand of G. */
  predicate NoLooseFalse(f: Formula) {
    match f
    case False => false
    case True | Atom(_) | Not(_) => true
    case Next(g) => NoLooseFalse(g)
    case WNext(g) => NoLooseFalse(g)
    case Or(g, h) => NoLooseFalse(g) && NoLooseFalse(h)
    case And(g, h) => NoLooseFalse(g) && NoLooseFalse(h)
    case Until(g, h) => NoLooseFalse(g) && NoLooseFalse(h)
    case Release(g, h) => (g.False? || NoLooseFalse(g)) && NoLooseFalse(h)
  }

  /** What the checker reads as it is meant: negation normal forms that do not mention
      the reserved atom and have no loose False. */
  predicate Fit(f: Formula) { NoTail(f) && NoLooseFalse(f) && IsNnf(f) }

  /** Negation only in front of atoms. */
  predicate IsNnf(f: Formula) {
    match f
    case True | False | Atom(_) => true
    case Not(g) => g.Atom?
    case Next(g) => IsNnf(g)
    case WNext(g) => IsNnf(g)
    case Or(g, h) => IsNnf(g) && IsNnf(h)
    case And(g, h) => IsNnf(g) && IsNnf(h)
    case Until(g, h) => IsNnf(g) && IsNnf(h)
    case Release(g, h) => IsNnf(g) && IsNnf(h)
  }

  /** Built from constants and literals by And and Or. */
  predicate IsBoolean(f: Formula) {
    match f
    case True | False | Atom(_) => true
    case Not(g) => g.Atom?
    case Or(g, h) => IsBoolean(g) && IsBoolean(h)
    case And(g, h) => IsBoolean(g) && IsBoolean(h)
    case _ => false
  }

  predicate NoWNext(f: Formula) {
    match f
    case True | False | Atom(_) => true
    case WNext(_) => false
    case Not(g) => NoWNext(g)
    case Next(g) => NoWNext(g)
    case Or(g, h) => NoWNext(g) && NoWNext(h)
    case And(g, h) => NoWNext(g) && NoWNext(h)
    case Until(g, h) => NoWNext(g) && NoWNext(h)
    case Release(g, h) => NoWNext(g) && NoWNext(h)
  }

  predicate IsAndOr(f: Formula) { f.And? || f.Or? }

  /** No conjunction or disjunction directly under a (weak) next. */
  predicate NextSplit(f: Formula) {
    match f
    case True | False | Atom(_) => true
    case Next(g) => !IsAndOr(g) && NextSplit(g)
    case WNext(g) => !IsAndOr(g) && NextSplit(g)
    case Not(g) => NextSplit(g)
    case Or(g, h) => NextSplit(g) && NextSplit(h)
    case And(g, h) => NextSplit(g) && NextSplit(h)
    case Until(g, h) => NextSplit(g) && NextSplit(h)
    case Release(g, h) => NextSplit(g) && NextSplit(h)
  }

  /** Built from G formulas by And and Or (`is_global`). */
  predicate IsGlobal(f: Formula) {
    if f.Release? && f.l.False? then true
    else if IsAndOr(f) then IsGlobal(f.l) && IsGlobal(f.r)
    else false
  }

  // -------------------------------------------------- conjunctions as sets

  /** The conjuncts of a formula (`to_set`). */
  function ToSet(f: Formula): (s: set<Formula>)
    ensures s != {} && forall g :: g in s ==> !g.And?
  {
    if f.And? then ToSet(f.l) + ToSet(f.r) else {f}
  }

  lemma {:induction false} ToSetSat(f: Formula, tr: Trace, i: nat, rd: Reading)
    requires i < |tr|
    ensures Sat(f, tr, i, rd) <==> forall g :: g in ToSet(f) ==> Sat(g, tr, i, rd)
  {
    if f.And? {
      ToSetSat(f.l, tr, i, rd);
      ToSetSat(f.r, tr, i, rd);
    }
  }

  lemma {:induction false} ToSetHolds(f: Formula, tr: Trace, i: nat)
    requires i < |tr|
    ensures Holds(f, tr, i) <==> forall g :: g in ToSet(f) ==> Holds(g, tr, i)
  {
    if f.And? {
      ToSetHolds(f.l, tr, i);
      ToSetHolds(f.r, tr, i);
    }
  }

  /** The conjunction of a list, left-nested; an empty list gives True (`formula_from`). */
  function FormulaFrom(ands: seq<Formula>): Formula {
    if ands == [] then True
    else if |ands| == 1 then ands[0]
    else And(FormulaFrom(ands[..|ands| - 1]), ands[|ands| - 1])
  }

  /** Taking a list of non-conjunctions apart again gives back exactly its elements. */
  lemma {:induction false} ToSetFormulaFrom(ands: seq<Formula>)
    requires forall g :: g in ands ==> !g.And?
    ensures ToSet(FormulaFrom(ands)) == if ands == [] then {True} else set g | g in ands
  {
    if |ands| > 1 {
      var init := ands[..|ands| - 1];
      ToSetFormulaFrom(init);
      assert ands == init + [ands[|ands| - 1]];
    }
  }

  // ------------------------------------------ the two meanings of a formula

  /** On formulas that do not mention Tail the fixpoint reading is the textbook one. */
  lemma {:induction false} SatIsHolds(f: Formula, tr: Trace, i: nat)
    requires i < |tr| && NoTail(f)
    ensures Sat(f, tr, i, LTLF) == Holds(f, tr, i)
    decreases f, |tr| - i
  {
    match f
    case True | False | Atom(_) =>
    case Not(g) => SatIsHolds(g, tr, i);
    case Or(g, h) => SatIsHolds(g, tr, i); SatIsHolds(h, tr, i);
    case And(g, h) => SatIsHolds(g, tr, i); SatIsHolds(h, tr, i);
    case Next(g) => if i + 1 < |tr| { SatIsHolds(g, tr, i + 1); }
    case WNext(g) => if i + 1 < |tr| { SatIsHolds(g, tr, i + 1); }
    case Until(g, h) =>
      SatIsHolds(g, tr, i); SatIsHolds(h, tr, i);
      if i + 1 < |tr| { SatIsHolds(f, tr, i + 1); }
      UntilUnfolds(Positions(g, tr), Positions(h, tr), |tr|, i);
    case Release(g, h) =>
      SatIsHolds(g, tr, i); SatIsHolds(h, tr, i);
      if i + 1 < |tr| { SatIsHolds(f, tr, i + 1); }
      ReleaseUnfolds(Positions(g, tr), Positions(h, tr), |tr|, i);
  }

  lemma UntilUnfolds(G: set<nat>, H: set<nat>, n: nat, i: nat)
    requires i < n
    ensures UntilAt(G, H, n, i) <==> i in H || (i in G && UntilAt(G, H, n, i + 1))
  {
    var m := i + 1;
    if UntilAt(G, H, n, m) && i in G {
      var k: nat :| m <= k < n && k in H && forall j: nat :: m <= j < k ==> j in G;
      assert forall j: nat :: i <= j < k ==> j in G;
    }
  }

  lemma ReleaseUnfolds(G: set<nat>, H: set<nat>, n: nat, i: nat)
    requires i < n
    ensures ReleaseAt(G, H, n, i) <==> i in H && (i in G || ReleaseAt(G, H, n, i + 1))
  {
    var m := i + 1;
    if ReleaseAt(G, H, n, i) && i !in G {
      forall k: nat | m <= k < n && k !in H
        ensures exists j: nat :: m <= j < k && j in G
      {
        var j: nat :| i <= j < k && j in G;
        assert m <= j;
      }
    }
  }

  /** The value of a loose False does not matter when there is none. */
  lemma {:induction false} LooseFalseIrrelevant(f: Formula, tr: Trace, i: nat, rd: Reading)
    requires i < |tr| && NoLooseConstants(f)
    ensures Sat(f, tr, i, rd) == Sat(f, tr, i, rd.(looseFalse := !rd.looseFalse))
    decreases f, |tr| - i
  {
    match f
    case Atom(_) =>
    case Not(g) => LooseFalseIrrelevant(g, tr, i, rd);
    case Or(g, h) => LooseFalseIrrelevant(g, tr, i, rd); LooseFalseIrrelevant(h, tr, i, rd);
    case And(g, h) => LooseFalseIrrelevant(g, tr, i, rd); LooseFalseIrrelevant(h, tr, i, rd);
    case Next(g) => if i + 1 < |tr| { LooseFalseIrrelevant(g, tr, i + 1, rd); }
    case WNext(g) => if i + 1 < |tr| { LooseFalseIrrelevant(g, tr, i + 1, rd); }
    case Until(g, h) =>
      if !g.True? { LooseFalseIrrelevant(g, tr, i, rd); }
      LooseFalseIrrelevant(h, tr, i, rd);
      if i + 1 < |tr| { LooseFalseIrrelevant(f, tr, i + 1, rd); }
    case Release(g, h) =>
      if !g.False? { LooseFalseIrrelevant(g, tr, i, rd); }
      LooseFalseIrrelevant(h, tr, i, rd);
      if i + 1 < |tr| { LooseFalseIrrelevant(f, tr, i + 1, rd); }
  }

  /** Reading more nexts as true in the last state can only make a negation normal
      form true. */
  lemma {:induction false} SatMonotone(f: Formula, tr: Trace, i: nat, lo: Reading, hi: Reading)
    requires i < |tr| && IsNnf(f) && Sat(f, tr, i, lo)
    requires lo.looseFalse ==> hi.looseFalse
    requires forall g :: lo.LastNext(g) ==> hi.LastNext(g)
    ensures Sat(f, tr, i, hi)
    decreases f, |tr| - i
  {
    match f
    case True | False | Atom(_) =>
    case Not(_) =>
    case Or(g, h) => if Sat(g, tr, i, lo) { SatMonotone(g, tr, i, lo, hi); } else { SatMonotone(h, tr, i, lo, hi); }
    case And(g, h) => SatMonotone(g, tr, i, lo, hi); SatMonotone(h, tr, i, lo, hi);
    case Next(g) => if i + 1 < |tr| { SatMonotone(g, tr, i + 1, lo, hi); }
    case WNext(g) => if i + 1 < |tr| { SatMonotone(g, tr, i + 1, lo, hi); }
    case Until(g, h) =>
      if Sat(h, tr, i, lo) { SatMonotone(h, tr, i, lo, hi); }
      else {
        if !g.True? { SatMonotone(g, tr, i, lo, hi); }
        SatMonotone(f, tr, i + 1, lo, hi);
      }
    case Release(g, h) =>
      SatMonotone(h, tr, i, lo, hi);
      if !g.False? && Sat(g, tr, i, lo) { SatMonotone(g, tr, i, lo, hi); }
      else if i + 1 < |tr| { SatMonotone(f, tr, i + 1, lo, hi); }
  }
}
