/** The four rewrites applied to a formula before it is checked. */
module Preprocess {
  import opened Formulas

  // ------------------------------------------------- negation normal form

  function Nnf(f: Formula): Formula
    decreases f, 1
  {
    match f
    case True | False | Atom(_) => f
    case Not(g) => if g.Not? then Nnf(g.r) else NnfNot(g)
    case Or(g, h) => Or(Nnf(g), Nnf(h))
    case And(g, h) => And(Nnf(g), Nnf(h))
    case Next(g) => Next(Nnf(g))
    case WNext(g) => WNext(Nnf(g))
    case Until(g, h) => Until(Nnf(g), Nnf(h))
    case Release(g, h) => Release(Nnf(g), Nnf(h))
  }

  /** Negation normal form of the negation of f. */
  function NnfNot(f: Formula): Formula
    decreases f, 0
  {
    match f
    case True => False
    case False => True
    case Atom(_) => Not(f)
    case Not(g) => Nnf(g)
    case Or(g, h) => And(NnfNot(g), NnfNot(h))
    case And(g, h) => Or(NnfNot(g), NnfNot(h))
    case Next(g) => WNext(NnfNot(g))
    case WNext(g) => Next(NnfNot(g))
    case Until(g, h) => Release(NnfNot(g), NnfNot(h))
    case Release(g, h) => Until(NnfNot(g), NnfNot(h))
  }

  lemma {:induction false} NnfShape(f: Formula)
    ensures IsNnf(Nnf(f)) && IsNnf(NnfNot(f))
    ensures NoLooseConstants(f) ==> NoLooseConstants(Nnf(f)) && NoLooseConstants(NnfNot(f))
  {
    match f
    case True | False | Atom(_) =>
    case Not(g) => NnfShape(g); if g.Not? { NnfShape(g.r); }
    case Next(g) => NnfShape(g);
    case WNext(g) => NnfShape(g);
    case Or(g, h) => NnfShape(g); NnfShape(h);
    case And(g, h) => NnfShape(g); NnfShape(h);
    case Until(g, h) => NnfShape(g); NnfShape(h);
    case Release(g, h) => NnfShape(g); NnfShape(h);
  }

  lemma {:induction false} NnfMeaning(f: Formula, tr: Trace, i: nat)
    requires i < |tr|
    ensures Sat(Nnf(f), tr, i, LTLF) == Sat(f, tr, i, LTLF)
    ensures Sat(NnfNot(f), tr, i, LTLF) == !Sat(f, tr, i, LTLF)
    decreases f, |tr| - i
  {
    match f
    case True | False | Atom(_) =>
    case Not(g) => NnfMeaning(g, tr, i); if g.Not? { NnfMeaning(g.r, tr, i); }
    case Next(g) => if i + 1 < |tr| { NnfMeaning(g, tr, i + 1); }
    case WNext(g) => if i + 1 < |tr| { NnfMeaning(g, tr, i + 1); }
    case Or(g, h) => NnfMeaning(g, tr, i); NnfMeaning(h, tr, i);
    case And(g, h) => NnfMeaning(g, tr, i); NnfMeaning(h, tr, i);
    case Until(g, h) =>
      NnfMeaning(g, tr, i); NnfMeaning(h, tr, i);
      if i + 1 < |tr| { NnfMeaning(f, tr, i + 1); }
    case Release(g, h) =>
      NnfMeaning(g, tr, i); NnfMeaning(h, tr, i);
      if i + 1 < |tr| { NnfMeaning(f, tr, i + 1); }
  }

  // ------------------------------------------------------ guarding the nexts

  /** X g becomes !Tail & X g. */
  function AddTail(f: Formula): Formula {
    match f
    case True | False | Atom(_) => f
    case Next(g) => And(Not(TAIL), Next(AddTail(g)))
    case Not(g) => Not(AddTail(g))
    case WNext(g) => WNext(AddTail(g))
    case Or(g, h) => Or(AddTail(g), AddTail(h))
    case And(g, h) => And(AddTail(g), AddTail(h))
    case Until(g, h) => Until(AddTail(g), AddTail(h))
    case Release(g, h) => Release(AddTail(g), AddTail(h))
  }

  /** N g becomes Tail | X g. */
  function RemoveWNext(f: Formula): Formula {
    match f
    case True | False | Atom(_) => f
    case WNext(g) => Or(TAIL, Next(RemoveWNext(g)))
    case Next(g) => Next(RemoveWNext(g))
    case Not(g) => Not(RemoveWNext(g))
    case Or(g, h) => Or(RemoveWNext(g), RemoveWNext(h))
    case And(g, h) => And(RemoveWNext(g), RemoveWNext(h))
    case Until(g, h) => Until(RemoveWNext(g), RemoveWNext(h))
    case Release(g, h) => Release(RemoveWNext(g), RemoveWNext(h))
  }

  lemma {:induction false} GuardShape(f: Formula)
    requires IsNnf(f)
    ensures IsNnf(AddTail(f)) && (NoLooseConstants(f) ==> NoLooseConstants(AddTail(f)))
    ensures IsNnf(RemoveWNext(f)) && NoWNext(RemoveWNext(f))
    ensures NoLooseConstants(f) ==> NoLooseConstants(RemoveWNext(f))
  {
    match f
    case True | False | Atom(_) =>
    case Not(g) => GuardShape(g);
    case Next(g) => GuardShape(g);
    case WNext(g) => GuardShape(g);
    case Or(g, h) => GuardShape(g); GuardShape(h);
    case And(g, h) => GuardShape(g); GuardShape(h);
    case Until(g, h) => GuardShape(g); GuardShape(h);
    case Release(g, h) => GuardShape(g); GuardShape(h);
  }

  /** After AddTail the value of a next in the last state no longer matters. */
  lemma {:induction false} AddTailMeaning(f: Formula, tr: Trace, i: nat, rd: Reading)
    requires i < |tr|
    ensures Sat(AddTail(f), tr, i, rd) == Sat(f, tr, i, Reading(rd.looseFalse, false, {}))
    decreases f, |tr| - i
  {
    match f
    case True | False | Atom(_) =>
    case Not(g) => AddTailMeaning(g, tr, i, rd);
    case Next(g) =>
      assert Sat(Not(TAIL), tr, i, rd) == (i + 1 < |tr|);
      if i + 1 < |tr| { AddTailMeaning(g, tr, i + 1, rd); }
    case WNext(g) => if i + 1 < |tr| { AddTailMeaning(g, tr, i + 1, rd); }
    case Or(g, h) => AddTailMeaning(g, tr, i, rd); AddTailMeaning(h, tr, i, rd);
    case And(g, h) => AddTailMeaning(g, tr, i, rd); AddTailMeaning(h, tr, i, rd);
    case Until(g, h) =>
      AddTailMeaning(g, tr, i, rd); AddTailMeaning(h, tr, i, rd);
      if i + 1 < |tr| { AddTailMeaning(f, tr, i + 1, rd); }
    case Release(g, h) =>
      AddTailMeaning(g, tr, i, rd); AddTailMeaning(h, tr, i, rd);
      if i + 1 < |tr| { AddTailMeaning(f, tr, i + 1, rd); }
  }

  lemma {:induction false} RemoveWNextMeaning(f: Formula, tr: Trace, i: nat, rd: Reading)
    requires i < |tr| && rd.flips == {}
    ensures Sat(RemoveWNext(f), tr, i, rd) == Sat(f, tr, i, rd)
    decreases f, |tr| - i
  {
    match f
    case True | False | Atom(_) =>
    case Not(g) => RemoveWNextMeaning(g, tr, i, rd);
    case Next(g) => if i + 1 < |tr| { RemoveWNextMeaning(g, tr, i + 1, rd); }
    case WNext(g) => if i + 1 < |tr| { RemoveWNextMeaning(g, tr, i + 1, rd); }
    case Or(g, h) => RemoveWNextMeaning(g, tr, i, rd); RemoveWNextMeaning(h, tr, i, rd);
    case And(g, h) => RemoveWNextMeaning(g, tr, i, rd); RemoveWNextMeaning(h, tr, i, rd);
    case Until(g, h) =>
      RemoveWNextMeaning(g, tr, i, rd); RemoveWNextMeaning(h, tr, i, rd);
      if i + 1 < |tr| { RemoveWNextMeaning(f, tr, i + 1, rd); }
    case Release(g, h) =>
      RemoveWNextMeaning(g, tr, i, rd); RemoveWNextMeaning(h, tr, i, rd);
      if i + 1 < |tr| { RemoveWNextMeaning(f, tr, i + 1, rd); }
  }

  // --------------------------------------------------- distributing the next

  /** The termination measure of SplitNext: a next doubles the weight of what is
      under it, so distributing a next over a connective makes the formula lighter. */
  function Weight(f: Formula): (w: nat)
    ensures w > 0
  {
    match f
    case True | False | Atom(_) => 1
    case Not(g) => 1 + Weight(g)
    case Next(g) => 2 * Weight(g)
    case WNext(g) => 2 * Weight(g)
    case Or(g, h) => Weight(g) + Weight(h) + 1
    case And(g, h) => Weight(g) + Weight(h) + 1
    case Until(g, h) => Weight(g) + Weight(h) + 1
    case Release(g, h) => Weight(g) + Weight(h) + 1
  }

  /** X g, or N g for the weak next. */
  function NextOf(weak: bool, g: Formula): Formula { if weak then WNext(g) else Next(g) }

  predicate IsNext(f: Formula) { f.Next? || f.WNext? }

  function SplitNext(f: Formula): (res: Formula)
    ensures Weight(res) <= Weight(f)
    ensures IsAndOr(res) && !IsAndOr(f) ==> Weight(res) < Weight(f)
    decreases Weight(f)
  {
    match f
    case True | False | Atom(_) => f
    case Next(g) => SplitUnder(f.WNext?, g)
    case WNext(g) => SplitUnder(f.WNext?, g)
    case Not(g) => Not(SplitNext(g))
    case Or(g, h) => Or(SplitNext(g), SplitNext(h))
    case And(g, h) => And(SplitNext(g), SplitNext(h))
    case Until(g, h) => Until(SplitNext(g), SplitNext(h))
    case Release(g, h) => Release(SplitNext(g), SplitNext(h))
  }

  /** SplitNext of a next over g. */
  function SplitUnder(weak: bool, g: Formula): (res: Formula)
    ensures Weight(res) <= 2 * Weight(g)
    ensures IsAndOr(res) ==> Weight(res) < 2 * Weight(g)
    decreases 2 * Weight(g), 0
  {
    if g.And? then And(SplitUnder(weak, g.l), SplitUnder(weak, g.r))
    else if g.Or? then Or(SplitUnder(weak, g.l), SplitUnder(weak, g.r))
    else
      var g' := SplitNext(g);
      if IsAndOr(g') then SplitUnder(weak, g') else NextOf(weak, g')
  }

  lemma {:induction false} SplitUnderConstants(weak: bool, g: Formula)
    ensures !SplitUnder(weak, g).True? && !SplitUnder(weak, g).False?
    decreases Weight(g)
  {
    if !IsAndOr(g) && IsAndOr(SplitNext(g)) { SplitUnderConstants(weak, SplitNext(g)); }
  }

  lemma SplitNextConstants(f: Formula)
    ensures SplitNext(f).True? == f.True? && SplitNext(f).False? == f.False?
  {
    if IsNext(f) { SplitUnderConstants(f.WNext?, f.r); }
  }

  /** The shapes that splitting keeps, and the one it establishes. */
  predicate Keeps(f: Formula, res: Formula) {
    && (IsNnf(f) ==> IsNnf(res) && NextSplit(res))
    && (NoWNext(f) ==> NoWNext(res))
    && (NoLooseConstants(f) ==> NoLooseConstants(res))
  }

  lemma {:induction false} SplitNextShape(f: Formula)
    ensures Keeps(f, SplitNext(f))
    decreases Weight(f)
  {
    match f
    case True | False | Atom(_) =>
    case Next(g) => SplitUnderShape(false, g);
    case WNext(g) => SplitUnderShape(true, g);
    case Not(g) => SplitNextShape(g);
    case Or(g, h) => SplitNextShape(g); SplitNextShape(h);
    case And(g, h) => SplitNextShape(g); SplitNextShape(h);
    case Until(g, h) => SplitNextShape(g); SplitNextShape(h); SplitNextConstants(g);
    case Release(g, h) => SplitNextShape(g); SplitNextShape(h); SplitNextConstants(g);
  }

  lemma {:induction false} SplitUnderShape(weak: bool, g: Formula)
    ensures Keeps(NextOf(weak, g), SplitUnder(weak, g))
    decreases 2 * Weight(g), 0
  {
    hide Keeps;
    if IsAndOr(g) {
      SplitUnderShape(weak, g.l);
      SplitUnderShape(weak, g.r);
      KeepsUnder(weak, g, SplitUnder(weak, g));
    } else {
      SplitNextShape(g);
      if IsAndOr(SplitNext(g)) { SplitUnderShape(weak, SplitNext(g)); }
      KeepsThen(weak, g, SplitNext(g), SplitUnder(weak, g));
    }
  }

  lemma KeepsThen(weak: bool, g: Formula, g': Formula, res: Formula)
    requires Keeps(g, g') && if IsAndOr(g') then Keeps(NextOf(weak, g'), res) else res == NextOf(weak, g')
    ensures Keeps(NextOf(weak, g), res)
  {
  }

  lemma KeepsUnder(weak: bool, g: Formula, res: Formula)
    requires (g.And? && res.And?) || (g.Or? && res.Or?)
    requires Keeps(NextOf(weak, g.l), res.l) && Keeps(NextOf(weak, g.r), res.r)
    ensures Keeps(NextOf(weak, g), res)
  {
    assert IsNnf(g) == (IsNnf(g.l) && IsNnf(g.r));
    assert NoWNext(g) == (NoWNext(g.l) && NoWNext(g.r));
    assert NoLooseConstants(g) == (NoLooseConstants(g.l) && NoLooseConstants(g.r));
  }

  /** Distributing is sound when the nexts of the last state are all read alike. */
  lemma {:induction false} SplitNextMeaning(f: Formula, tr: Trace, i: nat, rd: Reading)
    requires i < |tr| && rd.flips == {}
    ensures Sat(SplitNext(f), tr, i, rd) == Sat(f, tr, i, rd)
    decreases Weight(f), |tr| - i
  {
    match f
    case True | False | Atom(_) =>
    case Next(g) => SplitUnderMeaning(false, g, tr, i, rd);
    case WNext(g) => SplitUnderMeaning(true, g, tr, i, rd);
    case Not(g) => SplitNextMeaning(g, tr, i, rd);
    case Or(g, h) => SplitNextMeaning(g, tr, i, rd); SplitNextMeaning(h, tr, i, rd);
    case And(g, h) => SplitNextMeaning(g, tr, i, rd); SplitNextMeaning(h, tr, i, rd);
    case Until(g, h) =>
      SplitNextMeaning(g, tr, i, rd); SplitNextMeaning(h, tr, i, rd); SplitNextConstants(g);
      if i + 1 < |tr| { SplitNextMeaning(f, tr, i + 1, rd); }
    case Release(g, h) =>
      SplitNextMeaning(g, tr, i, rd); SplitNextMeaning(h, tr, i, rd); SplitNextConstants(g);
      if i + 1 < |tr| { SplitNextMeaning(f, tr, i + 1, rd); }
  }

  lemma {:induction false} SplitUnderMeaning(weak: bool, g: Formula, tr: Trace, i: nat, rd: Reading)
    requires i < |tr| && rd.flips == {}
    ensures Sat(SplitUnder(weak, g), tr, i, rd) == Sat(NextOf(weak, g), tr, i, rd)
    decreases 2 * Weight(g), |tr| - i, 0
  {
    if IsAndOr(g) {
      SplitUnderMeaning(weak, g.l, tr, i, rd);
      SplitUnderMeaning(weak, g.r, tr, i, rd);
      NextDistributes(weak, g, tr, i, rd);
      SatAndOr(g, SplitUnder(weak, g), SplitUnder(weak, g.l), SplitUnder(weak, g.r), tr, i, rd);
    } else {
      if i + 1 < |tr| { SplitNextMeaning(g, tr, i + 1, rd); }
      if IsAndOr(SplitNext(g)) { SplitUnderMeaning(weak, SplitNext(g), tr, i, rd); }
    }
  }

  /** A connective over two formulas, read through g's operator. */
  ghost predicate SatBoth(g: Formula, a: Formula, b: Formula, tr: Trace, i: nat, rd: Reading)
    requires i < |tr|
  {
    if g.And? then Sat(a, tr, i, rd) && Sat(b, tr, i, rd) else Sat(a, tr, i, rd) || Sat(b, tr, i, rd)
  }

  lemma NextDistributes(weak: bool, g: Formula, tr: Trace, i: nat, rd: Reading)
    requires IsAndOr(g) && i < |tr| && rd.flips == {}
    ensures Sat(NextOf(weak, g), tr, i, rd) == SatBoth(g, NextOf(weak, g.l), NextOf(weak, g.r), tr, i, rd)
  {
    if i + 1 < |tr| {
      assert Sat(NextOf(weak, g), tr, i, rd) == Sat(g, tr, i + 1, rd);
    }
  }

  lemma SatAndOr(g: Formula, f: Formula, a: Formula, b: Formula, tr: Trace, i: nat, rd: Reading)
    requires i < |tr|
    requires (g.And? && f == And(a, b)) || (g.Or? && f == Or(a, b))
    ensures Sat(f, tr, i, rd) == SatBoth(g, a, b, tr, i, rd)
  {
  }

  // -------------------------------------------------------- the whole pipeline

  function Prepare(f: Formula): Formula {
    SplitNext(RemoveWNext(AddTail(Nnf(f))))
  }

  /** What the checker is handed: negation normal form, no weak next, and nexts
      distributed over conjunction and disjunction. */
  predicate Prepared(f: Formula) { IsNnf(f) && NoWNext(f) && NextSplit(f) }

  lemma PrepareShape(f: Formula)
    ensures Prepared(Prepare(f))
    ensures NoLooseConstants(f) ==> NoLooseConstants(Prepare(f))
  {
    NnfShape(f);
    GuardShape(Nnf(f));
    GuardShape(AddTail(Nnf(f)));
    SplitNextShape(RemoveWNext(AddTail(Nnf(f))));
  }

  lemma PrepareMeaningUniform(f: Formula, tr: Trace, i: nat, dflt: bool)
    requires i < |tr|
    ensures Sat(Prepare(f), tr, i, Reading(false, dflt, {})) == Sat(f, tr, i, LTLF)
  {
    var rd := Reading(false, dflt, {});
    SplitNextMeaning(RemoveWNext(AddTail(Nnf(f))), tr, i, rd);
    RemoveWNextMeaning(AddTail(Nnf(f)), tr, i, rd);
    AddTailMeaning(Nnf(f), tr, i, rd);
    NnfMeaning(f, tr, i);
  }

  /** Preparing a formula keeps its meaning at every position of every trace, and
      leaves it independent of what a next means in the last state: the two uniform
      readings agree, and every other reading lies between them. */
  lemma PrepareMeaning(f: Formula, tr: Trace, i: nat, rd: Reading)
    requires i < |tr| && NoTail(f) && !rd.looseFalse
    ensures Sat(Prepare(f), tr, i, rd) == Holds(f, tr, i)
  {
    var none, all := Reading(false, false, {}), Reading(false, true, {});
    PrepareShape(f);
    PrepareMeaningUniform(f, tr, i, false);
    PrepareMeaningUniform(f, tr, i, true);
    SatIsHolds(f, tr, i);
    if Sat(Prepare(f), tr, i, rd) { SatMonotone(Prepare(f), tr, i, rd, all); }
    if Sat(Prepare(f), tr, i, none) { SatMonotone(Prepare(f), tr, i, none, rd); }
  }
}
