/** The syntactic test that two formulas cannot hold together (`is_conflict`). */
module Conflicts {
  import opened Formulas
  import opened Words

  /** A size that every rewriting step of the simplifier lowers. */
  function Weight(f: Formula): (n: nat)
    ensures n > 0
  {
    match f
    case True | False => 1
    case Atom(_) => 2
    case Not(g) => Weight(g) + 1
    case Next(g) => Weight(g) + 1
    case WNext(g) => Weight(g) + 1
    case Or(g, h) => Weight(g) + Weight(h) + 1
    case And(g, h) => Weight(g) + Weight(h) + 1
    case Until(g, h) => Weight(g) + Weight(h) + 2
    case Release(g, h) => Weight(g) + Weight(h) + 2
  }

  function Total(fs: seq<Formula>): nat {
    if fs == [] then 0 else Weight(fs[0]) + Total(fs[1..])
  }

  lemma {:induction false} TotalAppend(fs: seq<Formula>, f: Formula)
    ensures Total(fs + [f]) == Total(fs) + Weight(f)
  {
    if fs != [] {
      TotalAppend(fs[1..], f);
      assert (fs + [f])[1..] == fs[1..] + [f];
    }
  }

  lemma {:induction false} TotalBounds(fs: seq<Formula>, i: nat, j: nat)
    requires i < j < |fs|
    ensures Weight(fs[i]) + Weight(fs[j]) <= Total(fs)
  {
    if i > 0 { TotalBounds(fs[1..], i - 1, j - 1); } else { TotalBound(fs[1..], j - 1); }
  }

  lemma {:induction false} TotalBound(fs: seq<Formula>, i: nat)
    requires i < |fs|
    ensures Weight(fs[i]) <= Total(fs)
  {
    if i > 0 { TotalBound(fs[1..], i - 1); }
  }

  /** The conjuncts of a formula and of a worklist, in the order in which `split` finds
      them: right operands wait in a queue. */
  function Conjuncts(f: Formula, store: seq<Formula>): (fs: seq<Formula>)
    ensures Total(fs) <= Weight(f) + Total(store) && (f.And? ==> Total(fs) < Weight(f) + Total(store))
    decreases Weight(f) + Total(store)
  {
    TotalAppend(store, if f.And? then f.r else f);
    if f.And? then Conjuncts(f.l, store + [f.r])
    else if store == [] then [f]
    else [f] + Conjuncts(store[0], store[1..])
  }

  /** Comparison of the two operator codes. */
  predicate SameOper(f: Formula, g: Formula) {
    match f
    case True => g.True?
    case False => g.False?
    case Atom(_) => f == g
    case Not(_) => g.Not?
    case Or(_, _) => g.Or?
    case And(_, _) => g.And?
    case Next(_) => g.Next?
    case WNext(_) => g.WNext?
    case Until(_, _) => g.Until?
    case Release(_, _) => g.Release?
  }

  /** The pairs for which the test exchanges its arguments. */
  predicate Swaps(f: Formula, g: Formula) {
    && !f.False? && !g.False?
    && match f
      case Until(_, _) => !g.Until? && !g.Or? && !g.Release? && !g.And?
      case Or(_, _) => !g.Or? && !g.And? && !g.Release?
      case And(_, _) => !g.And? && !g.Release?
      case _ => false
  }

  lemma {:induction false} TotalSum(fs: seq<Formula>, gs: seq<Formula>)
    ensures Total(fs + gs) == Total(fs) + Total(gs)
  {
    if fs == [] {
      assert fs + gs == gs;
    } else {
      TotalSum(fs[1..], gs);
      assert (fs + gs)[1..] == fs[1..] + gs;
    }
  }

  lemma PairsBelow(fs: seq<Formula>, gs: seq<Formula>, bound: nat)
    requires Total(fs) + Total(gs) < bound
    ensures forall i, j :: 0 <= i < j < |fs + gs| ==> Weight((fs + gs)[i]) + Weight((fs + gs)[j]) < bound
  {
    TotalSum(fs, gs);
    forall i, j | 0 <= i < j < |fs + gs| { TotalBounds(fs + gs, i, j); }
  }

  predicate IsConflict(f: Formula, g: Formula)
    decreases Weight(f) + Weight(g), if Swaps(f, g) then 2 else 1
  {
    if f.False? || g.False? then true
    else if f.Next? then
      if g.Next? then IsConflict(f.r, g.r)
      else if g.Until? || g.Or? then IsConflict(f, g.l) && IsConflict(f, g.r)
      else if g.Release? then IsConflict(f, g.r)
      else if g.And? then IsConflict(f, g.l) || IsConflict(f, g.r)
      else false
    else if f.Until? then
      if g.Until? || g.Or? then IsConflict(f, g.l) && IsConflict(f, g.r)
      else if g.Release? then IsConflict(f, g.r)
      else if g.And? then ListConflict([f], g, Weight(f) + Weight(g))
      else IsConflict(g, f)
    else if f.Release? then
      if g.Or? then IsConflict(f.r, g.l) && IsConflict(f.r, g.r)
      else if g.Release? then IsConflict(f.r, g.r)
      else if g.And? then IsConflict(f.r, g.l) || IsConflict(f.r, g.r)
      else IsConflict(g, f.r)
    else if f.Or? then
      if g.Or? then IsConflict(f, g.l) && IsConflict(f, g.r)
      else if g.And? then IsConflict(f, g.l) || IsConflict(f, g.r)
      else if g.Release? then IsConflict(f, g.r)
      else IsConflict(g, f)
    else if f.And? then
      if g.And? then ListConflict(Conjuncts(f, []), g, Weight(f) + Weight(g))
      else if g.Release? then IsConflict(f, g.r)
      else IsConflict(g, f)
    else
      if g.Next? then false
      else if g.Until? || g.Or? then IsConflict(f, g.l) && IsConflict(f, g.r)
      else if g.Release? then IsConflict(f, g.r)
      else if g.And? then ListConflict([f], g, Weight(f) + Weight(g))
      else (f.Not? && SameOper(f.r, g)) || (g.Not? && SameOper(g.r, f))
  }

  /** Two of the formulas in the list, followed by the conjuncts of g, conflict. */
  predicate ListConflict(fs: seq<Formula>, g: Formula, bound: nat)
    requires g.And? && Total(fs) + Weight(g) <= bound
    decreases bound, 0
  {
    var all := fs + Conjuncts(g, []);
    PairsBelow(fs, Conjuncts(g, []), bound);
    exists i, j :: 0 <= i < j < |all| && IsConflict(all[i], all[j])
  }

  // ------------------------------------------------------------------- soundness

  /** No position of the word satisfies both formulas. */
  ghost predicate Apart(f: Formula, g: Formula, w: Word) {
    forall i: nat :: !(i in WordPositions(f, w) && i in WordPositions(g, w))
  }

  /** All the formulas hold at position i. */
  ghost predicate AllHold(fs: seq<Formula>, w: Word, i: nat) {
    forall f :: f in fs ==> i in WordPositions(f, w)
  }

  lemma {:induction false} ConjunctsHold(f: Formula, store: seq<Formula>, w: Word, i: nat)
    ensures AllHold(Conjuncts(f, store), w, i) <==> i in WordPositions(f, w) && AllHold(store, w, i)
    decreases Weight(f) + Total(store)
  {
    TotalAppend(store, if f.And? then f.r else f);
    if f.And? {
      ConjunctsHold(f.l, store + [f.r], w, i);
      assert AllHold(store + [f.r], w, i) <==> AllHold(store, w, i) && i in WordPositions(f.r, w) by {
        assert forall g :: g in store + [f.r] <==> g in store || g == f.r;
      }
    } else if store != [] {
      ConjunctsHold(store[0], store[1..], w, i);
      assert forall g :: g in store <==> g == store[0] || g in store[1..];
      assert forall g :: g in Conjuncts(f, store) <==> g == f || g in Conjuncts(store[0], store[1..]);
    }
  }

  lemma {:induction false} ConjunctsNnf(f: Formula, store: seq<Formula>)
    requires IsNnf(f) && forall g :: g in store ==> IsNnf(g)
    ensures forall g :: g in Conjuncts(f, store) ==> IsNnf(g)
    decreases Weight(f) + Total(store)
  {
    TotalAppend(store, if f.And? then f.r else f);
    if f.And? {
      ConjunctsNnf(f.l, store + [f.r]);
    } else if store != [] {
      ConjunctsNnf(store[0], store[1..]);
    }
  }

  lemma UntilApart(f: Formula, g: Formula, w: Word)
    requires (g.Until? || g.Or?) && Apart(f, g.l, w) && Apart(f, g.r, w)
    ensures Apart(f, g, w)
  {
    if g.Until? {
      forall i: nat { UntilStep(WordPositions(g.l, w), WordPositions(g.r, w), i); }
    }
  }

  lemma ReleaseApart(f: Formula, g: Formula, w: Word)
    requires g.Release? && Apart(f, g.r, w)
    ensures Apart(f, g, w)
  {
    forall i: nat { ReleaseStep(WordPositions(g.l, w), WordPositions(g.r, w), i); }
  }

  lemma AndApart(f: Formula, g: Formula, w: Word)
    requires g.And? && (Apart(f, g.l, w) || Apart(f, g.r, w))
    ensures Apart(f, g, w)
  {
  }

  lemma ApartSwaps(f: Formula, g: Formula, w: Word)
    requires Apart(g, f, w)
    ensures Apart(f, g, w)
  {
  }

  lemma NextApart(f: Formula, g: Formula, w: Word)
    requires f.Next? && g.Next? && Apart(f.r, g.r, w)
    ensures Apart(f, g, w)
  {
    forall i: nat ensures i in WordPositions(f, w) ==> NextIn(WordPositions(f.r, w), i) {}
    forall i: nat ensures i in WordPositions(g, w) ==> NextIn(WordPositions(g.r, w), i) {}
  }

  lemma PartsHold(f: Formula, w: Word)
    ensures forall i: nat :: i in WordPositions(f, w) ==> AllHold([f], w, i) && AllHold(Conjuncts(f, []), w, i)
  {
    forall i: nat { ConjunctsHold(f, [], w, i); }
  }

  /** The test is sound: conflicting formulas never hold together. */
  lemma {:induction false} ConflictSound(f: Formula, g: Formula, w: Word)
    requires IsNnf(f) && IsNnf(g) && IsConflict(f, g)
    ensures Apart(f, g, w)
    decreases Weight(f) + Weight(g), if Swaps(f, g) then 2 else 1
  {
    hide Apart;
    if f.False? || g.False? {
      FalseApart(f, g, w);
    } else if g.And? && (f.And? || !(f.Next? || f.Release? || f.Or?)) {
      ConjunctsNnf(f, []);
      PartsHold(f, w);
      ListApart(if f.And? then Conjuncts(f, []) else [f], f, g, w);
    } else if Swaps(f, g) {
      ConflictSound(g, f, w);
      ApartSwaps(f, g, w);
    } else if f.Release? {
      ReleaseConflict(f, g, w);
    } else if g.Release? {
      ConflictSound(f, g.r, w);
      ReleaseApart(f, g, w);
    } else if g.Until? || g.Or? {
      ConflictSound(f, g.l, w);
      ConflictSound(f, g.r, w);
      UntilApart(f, g, w);
    } else if g.And? {
      if IsConflict(f, g.l) { ConflictSound(f, g.l, w); } else { ConflictSound(f, g.r, w); }
      AndApart(f, g, w);
    } else if f.Next? {
      ConflictSound(f.r, g.r, w);
      NextApart(f, g, w);
    } else {
      AtomsApart(f, g, w);
    }
  }

  lemma FalseApart(f: Formula, g: Formula, w: Word)
    requires f.False? || g.False?
    ensures Apart(f, g, w)
  {
  }

  lemma AtomsApart(f: Formula, g: Formula, w: Word)
    requires IsNnf(f) && IsNnf(g) && ((f.Not? && SameOper(f.r, g)) || (g.Not? && SameOper(g.r, f)))
    ensures Apart(f, g, w)
  {
  }

  lemma ReleaseConflict(f: Formula, g: Formula, w: Word)
    requires f.Release? && !g.False? && IsNnf(f) && IsNnf(g) && IsConflict(f, g)
    ensures Apart(f, g, w)
    decreases Weight(f) + Weight(g), 0
  {
    hide Apart;
    if g.Or? {
      ConflictSound(f.r, g.l, w);
      ConflictSound(f.r, g.r, w);
      UntilApart(f.r, g, w);
    } else if g.Release? {
      ConflictSound(f.r, g.r, w);
      ReleaseApart(f.r, g, w);
    } else if g.And? {
      if IsConflict(f.r, g.l) { ConflictSound(f.r, g.l, w); } else { ConflictSound(f.r, g.r, w); }
      AndApart(f.r, g, w);
    } else {
      ConflictSound(g, f.r, w);
      ApartSwaps(f.r, g, w);
    }
    ApartSwaps(g, f.r, w);
    ReleaseApart(g, f, w);
    ApartSwaps(f, g, w);
  }

  lemma ListApart(fs: seq<Formula>, f: Formula, g: Formula, w: Word)
    requires IsNnf(g) && (forall h :: h in fs ==> IsNnf(h)) && g.And? && Total(fs) <= Weight(f)
    requires forall i: nat :: i in WordPositions(f, w) ==> AllHold(fs, w, i)
    requires ListConflict(fs, g, Weight(f) + Weight(g))
    ensures Apart(f, g, w)
    decreases Weight(f) + Weight(g), 0
  {
    var all := fs + Conjuncts(g, []);
    PairsBelow(fs, Conjuncts(g, []), Weight(f) + Weight(g));
    ConjunctsNnf(g, []);
    var i, j :| 0 <= i < j < |all| && IsConflict(all[i], all[j]);
    assert all[i] in all && all[j] in all;
    ConflictSound(all[i], all[j], w);
    forall k: nat | k in WordPositions(f, w) && k in WordPositions(g, w) ensures false {
      ConjunctsHold(g, [], w, k);
      assert AllHold(all, w, k);
    }
  }

  // ---------------------------------------------------------------- completeness

  /** A literal, under any number of nexts. */
  predicate IsClaim(o: Formula) {
    if o.Next? then IsClaim(o.r) else o.Atom? || (o.Not? && o.r.Atom?)
  }

  function Opposite(o: Formula): (p: Formula)
    requires IsClaim(o)
    ensures IsClaim(p)
  {
    match o
    case Next(p) => Next(Opposite(p))
    case Not(p) => p
    case _ => Not(o)
  }

  /** The claim can be read off the formula: it stands in a conjunct, in both sides of a
      disjunction or an until, or on the right of a release. */
  predicate Claims(f: Formula, o: Formula)
    requires IsClaim(o)
    decreases f
  {
    match f
    case False => true
    case And(g, h) => Claims(g, o) || Claims(h, o)
    case Or(g, h) => Claims(g, o) && Claims(h, o)
    case Until(g, h) => Claims(g, o) && Claims(h, o)
    case Release(_, h) => Claims(h, o)
    case Next(g) => o.Next? && Claims(g, o.r)
    case _ => f == o
  }

  lemma {:induction false} OppositeTwice(o: Formula)
    requires IsClaim(o)
    ensures Opposite(Opposite(o)) == o
  {
    if o.Next? { OppositeTwice(o.r); }
  }

  /** What a formula claims, it implies. */
  lemma {:induction false} ClaimsHold(f: Formula, o: Formula, w: Word, i: nat)
    requires IsClaim(o) && Claims(f, o) && i in WordPositions(f, w)
    ensures i in WordPositions(o, w)
    decreases f, 0
  {
    match f
    case And(g, h) => if Claims(g, o) { ClaimsHold(g, o, w, i); } else { ClaimsHold(h, o, w, i); }
    case Or(g, h) => if i in WordPositions(g, w) { ClaimsHold(g, o, w, i); } else { ClaimsHold(h, o, w, i); }
    case Until(g, h) =>
      UntilStep(WordPositions(g, w), WordPositions(h, w), i);
      if i in WordPositions(g, w) { ClaimsHold(g, o, w, i); } else { ClaimsHold(h, o, w, i); }
    case Release(g, h) =>
      ReleaseStep(WordPositions(g, w), WordPositions(h, w), i);
      ClaimsHold(h, o, w, i);
    case Next(g) =>
      assert NextIn(WordPositions(g, w), i);
      ClaimsHold(g, o.r, w, i + 1);
      assert NextIn(WordPositions(o.r, w), i);
    case _ =>
  }

  lemma {:induction false} ClaimingConjunct(f: Formula, store: seq<Formula>, o: Formula)
    requires IsClaim(o) && (Claims(f, o) || exists g :: g in store && Claims(g, o))
    ensures exists g :: g in Conjuncts(f, store) && Claims(g, o)
    decreases Weight(f) + Total(store)
  {
    TotalAppend(store, if f.And? then f.r else f);
    if f.And? {
      var next := store + [f.r];
      assert f.r in next && forall g :: g in store ==> g in next;
      ClaimingConjunct(f.l, next, o);
    } else if Claims(f, o) {
      assert f in Conjuncts(f, store);
    } else {
      assert forall g :: g in store <==> g == store[0] || g in store[1..];
      ClaimingConjunct(store[0], store[1..], o);
      assert forall g :: g in Conjuncts(store[0], store[1..]) ==> g in Conjuncts(f, store);
    }
  }

  /** The test misses no pair of formulas that claim opposites: literals, or literals under
      as many nexts, wherever they stand. */
  lemma {:induction false} ConflictComplete(f: Formula, g: Formula, o: Formula)
    requires IsClaim(o) && Claims(f, o) && Claims(g, Opposite(o))
    ensures IsConflict(f, g)
    decreases Weight(f) + Weight(g), if Swaps(f, g) then 2 else 1
  {
    var p := Opposite(o);
    OppositeTwice(o);
    if f.False? || g.False? {
    } else if g.And? && (f.And? || !(f.Next? || f.Release? || f.Or?)) {
      var fs := if f.And? then Conjuncts(f, []) else [f];
      if f.And? { ClaimingConjunct(f, [], o); } else { assert f in fs; }
      ListComplete(fs, f, g, o);
    } else if Swaps(f, g) {
      ConflictComplete(g, f, p);
    } else if f.Release? {
      ReleaseComplete(f, g, o);
    } else if g.Release? {
      ConflictComplete(f, g.r, o);
    } else if g.Until? || g.Or? {
      ConflictComplete(f, g.l, o);
      ConflictComplete(f, g.r, o);
    } else if g.And? {
      if Claims(g.l, p) { ConflictComplete(f, g.l, o); } else { ConflictComplete(f, g.r, o); }
    } else if f.Next? {
      OppositeTwice(o.r);
      ConflictComplete(f.r, g.r, o.r);
    }
  }

  lemma ReleaseComplete(f: Formula, g: Formula, o: Formula)
    requires f.Release? && !g.False?
    requires IsClaim(o) && Claims(f, o) && Claims(g, Opposite(o))
    ensures IsConflict(f, g)
    decreases Weight(f) + Weight(g), 0
  {
    OppositeTwice(o);
    if g.Or? {
      ConflictComplete(f.r, g.l, o);
      ConflictComplete(f.r, g.r, o);
    } else if g.Release? {
      ConflictComplete(f.r, g.r, o);
    } else if g.And? {
      if Claims(g.l, Opposite(o)) { ConflictComplete(f.r, g.l, o); } else { ConflictComplete(f.r, g.r, o); }
    } else {
      ConflictComplete(g, f.r, Opposite(o));
    }
  }

  lemma PairAt(fs: seq<Formula>, gs: seq<Formula>, a: Formula, b: Formula) returns (i: nat, j: nat)
    requires a in fs && b in gs
    ensures i < j < |fs + gs| && (fs + gs)[i] == a && (fs + gs)[j] == b
  {
    i :| 0 <= i < |fs| && fs[i] == a;
    var k :| 0 <= k < |gs| && gs[k] == b;
    j := |fs| + k;
  }

  lemma ListComplete(fs: seq<Formula>, f: Formula, g: Formula, o: Formula)
    requires g.And? && Total(fs) <= Weight(f) && IsClaim(o) && Claims(g, Opposite(o))
    requires exists h :: h in fs && Claims(h, o)
    ensures ListConflict(fs, g, Weight(f) + Weight(g))
    decreases Weight(f) + Weight(g), 0
  {
    var cs := Conjuncts(g, []);
    var all := fs + cs;
    PairsBelow(fs, cs, Weight(f) + Weight(g));
    ClaimingConjunct(g, [], Opposite(o));
    var a :| a in fs && Claims(a, o);
    var b :| b in cs && Claims(b, Opposite(o));
    var i, j := PairAt(fs, cs, a, b);
    ConflictComplete(a, b, o);
  }
}
