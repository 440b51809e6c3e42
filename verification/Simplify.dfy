/** The simplifier: rewriting by the laws of linear temporal logic, with a cache. */
module Simplification {
  import opened Formulas
  import opened Words
  import opened Conflicts
  import opened Ends
  import opened NormalForms
  import Stutter

  /** What reaches the simplifier: negation at atoms only, weak next already removed. */
  predicate Ready(f: Formula) { IsNnf(f) && NoWNext(f) }

  /** A constant, or a formula with constants only in F and G. */
  predicate Settled(f: Formula) { f.True? || f.False? || NoLooseConstants(f) }

  /** A result for f: fit to replace it, with no law left to apply, settled, no larger, and
      propositional if f is. */
  ghost predicate Simplified(f: Formula, s: Formula) {
    && Ready(s) && Settled(s) && Normal(s) && Weight(s) <= Weight(f) && Becomes(f, s)
    && (IsBoolean(f) ==> IsBoolean(s))
  }

  ghost predicate CacheOk(simp: map<Formula, Formula>) { forall f :: f in simp ==> Simplified(f, simp[f]) }

  // -------------------------------------------------- conjunctions and disjunctions

  ghost predicate AllOf(fs: seq<Formula>, v: View) { forall f :: f in fs ==> Value(f, v) }

  ghost predicate SomeOf(fs: seq<Formula>, v: View) { exists f :: f in fs && Value(f, v) }

  ghost predicate Together(op: Op, fs: seq<Formula>, v: View) {
    if op.Conj? then AllOf(fs, v) else SomeOf(fs, v)
  }

  ghost predicate AllDeep(fs: seq<Formula>) { forall f :: f in fs ==> Deep(f) }

  /** As far as the view shows, the list may replace the formula. */
  ghost predicate Shows(op: Op, fs: seq<Formula>, f: Formula, v: View) {
    && (Upward(v) && Value(f, v) ==> Together(op, fs, v))
    && (Downward(v) && Together(op, fs, v) ==> Value(f, v))
  }

  /** The list, joined by the operator, may replace the formula. */
  ghost predicate Represents(op: Op, fs: seq<Formula>, f: Formula) {
    && (Deep(f) ==> AllDeep(fs))
    && forall v: View :: v.OnWord? || Deep(f) ==> Shows(op, fs, f, v)
  }

  lemma RepresentsSelf(op: Op, f: Formula)
    ensures Represents(op, [f], f)
  {
    forall v: View ensures Value(f, v) <==> Together(op, [f], v) {
      if Value(f, v) { assert f in [f]; }
    }
  }

  /** Another list that says the same in every view. */
  lemma RepresentsLike(op: Op, fs: seq<Formula>, gs: seq<Formula>, f: Formula)
    requires Represents(op, fs, f) && (AllDeep(fs) ==> AllDeep(gs))
    requires forall v: View :: Together(op, fs, v) <==> Together(op, gs, v)
    ensures Represents(op, gs, f)
  {
    hide Together, AllDeep, Value;
    forall v: View | v.OnWord? || Deep(f) ensures Shows(op, gs, f, v) { assert Shows(op, fs, f, v); }
  }

  /** Only which formulas are in the list matters. */
  lemma RepresentsSame(op: Op, fs: seq<Formula>, gs: seq<Formula>, f: Formula)
    requires Represents(op, fs, f) && forall g :: g in fs <==> g in gs
    ensures Represents(op, gs, f)
  {
    hide Represents, Value, Deep;
    forall v: View ensures Together(op, fs, v) <==> Together(op, gs, v) {}
    RepresentsLike(op, fs, gs, f);
  }

  lemma RepresentsSplit(op: Op, out: seq<Formula>, x: Formula, store: seq<Formula>, f: Formula)
    requires Represents(op, out + [x] + store, f) && Is(op, x)
    ensures Represents(op, out + [x.l] + (store + [x.r]), f)
  {
    hide Represents;
    var fs, gs := out + [x] + store, out + [x.l] + (store + [x.r]);
    assert forall g :: g in fs <==> g in out || g == x || g in store;
    assert forall g :: g in gs <==> g in out || g == x.l || g in store || g == x.r;
    assert x in fs && x.l in gs && x.r in gs;
    forall v: View ensures Together(op, fs, v) <==> Together(op, gs, v) { ValueOfMake(op, x.l, x.r, v); }
    RepresentsLike(op, fs, gs, f);
  }

  lemma ValueOfMake(op: Op, l: Formula, r: Formula, v: View)
    ensures Value(Make(op, l, r), v) <==>
            if op.Conj? then Value(l, v) && Value(r, v) else Value(l, v) || Value(r, v)
    ensures Deep(Make(op, l, r)) <==> Deep(l) && Deep(r)
  {
  }

  lemma RepresentsReplace(op: Op, out: seq<Formula>, x: Formula, y: Formula, store: seq<Formula>, f: Formula)
    requires Represents(op, out + [x] + store, f) && Becomes(x, y)
    ensures Represents(op, out + [y] + store, f)
  {
    hide Becomes, Value, Deep, Together;
    var fs, gs := out + [x] + store, out + [y] + store;
    if Deep(f) {
      assert x in fs;
      BecomesDeep(x, y);
      forall g | g in gs ensures Deep(g) { assert g == y || g in fs; }
    }
    forall v: View | v.OnWord? || Deep(f) ensures Shows(op, gs, f, v) {
      assert Shows(op, fs, f, v);
      BecomesShows(x, y, v) by { assert x in fs; }
      TogetherReplace(op, out, x, y, store, v);
    }
  }

  lemma TogetherReplace(op: Op, out: seq<Formula>, x: Formula, y: Formula, store: seq<Formula>, v: View)
    ensures (Value(x, v) ==> Value(y, v)) && Together(op, out + [x] + store, v) ==> Together(op, out + [y] + store, v)
    ensures (Value(y, v) ==> Value(x, v)) && Together(op, out + [y] + store, v) ==> Together(op, out + [x] + store, v)
  {
    hide Value;
    assert forall g :: g in out + [x] + store <==> g in out || g == x || g in store;
    assert forall g :: g in out + [y] + store <==> g in out || g == y || g in store;
  }

  lemma BecomesDeep(f: Formula, g: Formula)
    requires Becomes(f, g) && Deep(f)
    ensures Deep(g)
  {
  }

  lemma BecomesShows(f: Formula, g: Formula, v: View)
    requires Becomes(f, g) && (v.OnWord? || Deep(f))
    ensures Upward(v) && Value(f, v) ==> Value(g, v)
    ensures Downward(v) && Value(g, v) ==> Value(f, v)
  {
    hide Deep;
    if v.OnWord? { assert WordPositions(f, v.w) == WordPositions(g, v.w); }
  }

  lemma TogetherSum(op: Op, fs: seq<Formula>, gs: seq<Formula>, v: View)
    ensures op.Conj? ==> (AllOf(fs + gs, v) <==> AllOf(fs, v) && AllOf(gs, v))
    ensures op.Disj? ==> (SomeOf(fs + gs, v) <==> SomeOf(fs, v) || SomeOf(gs, v))
  {
    hide Value;
    assert forall h :: h in fs + gs <==> h in fs || h in gs;
  }

  lemma RepresentsAt(op: Op, fs: seq<Formula>, f: Formula, v: View)
    requires Represents(op, fs, f) && (v.OnWord? || Deep(f))
    ensures Shows(op, fs, f, v)
  {
  }

  lemma RepresentsMake(op: Op, fs: seq<Formula>, gs: seq<Formula>, f: Formula, g: Formula)
    requires Represents(op, fs, f) && Represents(op, gs, g)
    ensures Represents(op, fs + gs, Make(op, f, g))
  {
    hide Value, Deep, Make;
    var h := Make(op, f, g);
    forall v: View | v.OnWord? || Deep(h) ensures Shows(op, fs + gs, h, v) {
      ValueOfMake(op, f, g, v);
      RepresentsAt(op, fs, f, v);
      RepresentsAt(op, gs, g, v);
      TogetherSum(op, fs, gs, v);
    }
    if Deep(h) {
      ValueOfMake(op, f, g, AtEnd({}, true));
      forall x | x in fs + gs ensures Deep(x) {}
    }
  }

  /** A formula that says exactly what the list says. */
  ghost predicate Exact(op: Op, fs: seq<Formula>, g: Formula) {
    (AllDeep(fs) ==> Deep(g)) && forall v: View :: Value(g, v) <==> Together(op, fs, v)
  }

  lemma RepresentsExact(op: Op, fs: seq<Formula>, f: Formula, g: Formula)
    requires Represents(op, fs, f) && Exact(op, fs, g)
    ensures Becomes(f, g)
  {
    hide Together, AllDeep, Deep;
    forall v: View | v.OnWord? || Deep(f)
      ensures (Upward(v) && Value(f, v) ==> Value(g, v)) && (Downward(v) && Value(g, v) ==> Value(f, v))
    {
      assert Shows(op, fs, f, v);
    }
    BecomesIf(f, g);
  }

  lemma BecomesIf(f: Formula, g: Formula)
    requires Deep(f) ==> Deep(g)
    requires forall v: View :: (v.OnWord? || Deep(f)) && Upward(v) && Value(f, v) ==> Value(g, v)
    requires forall v: View :: (v.OnWord? || Deep(f)) && Downward(v) && Value(g, v) ==> Value(f, v)
    ensures Becomes(f, g)
  {
    hide Deep, Value, WordPositions;
    forall w: Word ensures WordPositions(f, w) == WordPositions(g, w) {
      forall i: nat ensures i in WordPositions(f, w) <==> i in WordPositions(g, w) {
        ValueOnWord(f, w, i);
        ValueOnWord(g, w, i);
      }
    }
  }

  lemma ValueOnWord(f: Formula, w: Word, i: nat)
    ensures Value(f, OnWord(w, i)) <==> i in WordPositions(f, w)
  {
  }

  /** The unit of the operator can be dropped. */
  lemma RepresentsUnit(op: Op, out: seq<Formula>, x: Formula, store: seq<Formula>, f: Formula)
    requires Represents(op, out + [x] + store, f) && (if op.Conj? then x.True? else x.False?)
    ensures Represents(op, out + store, f)
  {
    hide Represents;
    var fs, gs := out + [x] + store, out + store;
    assert forall g :: g in fs <==> g in out || g == x || g in store;
    assert forall g :: g in gs <==> g in out || g in store;
    forall v: View ensures Together(op, fs, v) <==> Together(op, gs, v) {}
    RepresentsLike(op, fs, gs, f);
  }

  lemma {:induction false} ChainExact(op: Op, fs: seq<Formula>)
    requires fs != []
    ensures Exact(op, fs, Chain(op, fs))
  {
    hide Value, Deep;
    if |fs| == 1 {
      assert fs == [fs[0]];
    } else {
      ChainExact(op, fs[1..]);
      assert fs == [fs[0]] + fs[1..];
      assert AllDeep(fs) ==> Deep(fs[0]) && AllDeep(fs[1..]);
      forall v: View ensures Value(Chain(op, fs), v) <==> Together(op, fs, v) {
        ValueOfMake(op, fs[0], Chain(op, fs[1..]), v);
        TogetherSum(op, [fs[0]], fs[1..], v);
      }
      ValueOfMake(op, fs[0], Chain(op, fs[1..]), AtEnd({}, true));
    }
  }

  /** The elements of a propositional formula are propositional. */
  ghost predicate BooleanParts(f: Formula, fs: seq<Formula>) { IsBoolean(f) ==> forall g :: g in fs ==> IsBoolean(g) }

  lemma {:induction false} ChainBoolean(op: Op, fs: seq<Formula>)
    requires fs != [] && forall g :: g in fs ==> IsBoolean(g)
    ensures IsBoolean(Chain(op, fs))
  {
    assert fs[0] in fs;
    if |fs| > 1 { ChainBoolean(op, fs[1..]); }
  }

  /** Ready for use as a piece of a larger result. */
  predicate Piece(f: Formula) { Ready(f) && NoLooseConstants(f) }

  function Cost(fs: seq<Formula>): nat { Total(fs) + |fs| }

  lemma CostSum(fs: seq<Formula>, gs: seq<Formula>)
    ensures Cost(fs + gs) == Cost(fs) + Cost(gs)
  {
    TotalSum(fs, gs);
  }

  lemma {:induction false} ChainShape(op: Op, fs: seq<Formula>)
    requires fs != [] && forall f :: f in fs ==> Piece(f)
    ensures Piece(Chain(op, fs)) && Weight(Chain(op, fs)) + 1 == Cost(fs)
  {
    assert fs[0] in fs;
    if |fs| > 1 {
      ChainShape(op, fs[1..]);
    } else {
      assert Total(fs[1..]) == 0;
    }
  }

  lemma SimplifiedSelf(f: Formula)
    requires Ready(f) && Settled(f) && Normal(f)
    ensures Simplified(f, f)
  {
    BecomesSelf(f);
  }

  /** Duplicates are dropped (the program sorts by address first). */
  method Distinct(fs: seq<Formula>) returns (ds: seq<Formula>)
    ensures forall g :: g in ds <==> g in fs
    ensures forall i, j :: 0 <= i < j < |ds| ==> ds[i] != ds[j]
    ensures Cost(ds) <= Cost(fs)
  {
    ds := [];
    for k := 0 to |fs|
      invariant forall g :: g in ds <==> g in fs[..k]
      invariant forall i, j :: 0 <= i < j < |ds| ==> ds[i] != ds[j]
      invariant Cost(ds) <= Cost(fs[..k])
    {
      assert fs[..k + 1] == fs[..k] + [fs[k]];
      CostSum(fs[..k], [fs[k]]);
      if fs[k] !in ds {
        CostSum(ds, [fs[k]]);
        ds := ds + [fs[k]];
      }
    }
    assert fs[..|fs|] == fs;
  }

  // ------------------------------------------------------- complementary disjuncts

  /** Each positive atom, and the negation of each negative one, implies the disjunction. */
  ghost predicate Covered(pos: set<nat>, neg: set<nat>, fs: seq<Formula>) {
    && (forall a, v: View :: a in pos && Value(Atom(a), v) ==> SomeOf(fs, v))
    && (forall a, v: View :: a in neg && !Value(Atom(a), v) ==> SomeOf(fs, v))
  }

  ghost predicate Below(f: Formula, fs: seq<Formula>) { forall v: View :: Value(f, v) ==> SomeOf(fs, v) }

  ghost predicate Always(fs: seq<Formula>) { forall v: View :: SomeOf(fs, v) }

  method Mutex(f: Formula, pos: set<nat>, neg: set<nat>, ghost fs: seq<Formula>)
    returns (clash: bool, pos': set<nat>, neg': set<nat>)
    requires Covered(pos, neg, fs) && Below(f, fs) && !f.False?
    ensures Covered(pos', neg', fs)
    ensures clash ==> Always(fs)
    ensures clash <==> (f.Not? && f.r.Atom? && f.r.op in pos) || (f.Atom? && f.op in neg)
    ensures !clash ==> forall a :: a in pos' <==> a in pos || f == Atom(a)
    ensures !clash ==> forall a :: a in neg' <==> a in neg || f == Not(Atom(a))
  {
    clash, pos', neg' := false, pos, neg;
    if f.Not? {
      if f.r.Atom? {
        if f.r.op in pos {
          clash := true;
          forall v: View ensures SomeOf(fs, v) {
            if Value(f.r, v) { assert Value(Atom(f.r.op), v); }
            else { assert Value(f, v); }
          }
        } else {
          neg' := neg + {f.r.op};
          forall v: View | !Value(Atom(f.r.op), v) ensures SomeOf(fs, v) {
            assert Value(f, v);
          }
        }
      }
    } else if f.Atom? {
      if f.op in neg {
        clash := true;
        forall v: View ensures SomeOf(fs, v) {
          assert Value(Atom(f.op), v) ==> Value(f, v);
        }
      } else {
        pos' := pos + {f.op};
      }
    }
  }

  lemma ChainBelow(f: Formula, fs: seq<Formula>)
    requires f.Or? && Below(f, fs)
    ensures Below(f.l, fs) && Below(f.r, fs)
  {
    forall v: View ensures Value(f.l, v) || Value(f.r, v) ==> Value(f, v) { ValueOfMake(Disj, f.l, f.r, v); }
  }

  /** What the marks say: the atoms and the negated atoms found so far, none in both. */
  ghost predicate Marks(pos: set<nat>, neg: set<nat>, found: set<Formula>) {
    && (forall a :: a in pos <==> Atom(a) in found)
    && (forall a :: a in neg <==> Not(Atom(a)) in found)
    && pos !! neg
  }

  /** One more formula has been found. */
  lemma MarksMore(pos: set<nat>, neg: set<nat>, pos': set<nat>, neg': set<nat>, found: set<Formula>, f: Formula)
    requires Marks(pos, neg, found)
    requires !((f.Not? && f.r.Atom? && f.r.op in pos) || (f.Atom? && f.op in neg))
    requires forall a :: a in pos' <==> a in pos || f == Atom(a)
    requires forall a :: a in neg' <==> a in neg || f == Not(Atom(a))
    ensures Marks(pos', neg', found + {f})
  {
  }

  /** An atom and its negation are in the set. */
  ghost predicate Opposed(found: set<Formula>) { exists a: nat :: Atom(a) in found && Not(Atom(a)) in found }

  lemma ClashOpposes(pos: set<nat>, neg: set<nat>, found: set<Formula>, f: Formula)
    requires Marks(pos, neg, found)
    requires (f.Not? && f.r.Atom? && f.r.op in pos) || (f.Atom? && f.op in neg)
    ensures Opposed(found + {f})
  {
    if f.Atom? { assert Atom(f.op) in found + {f}; } else { assert Atom(f.r.op) in found + {f}; }
  }

  /** The same test for every disjunct on the right spine of a formula. */
  method MutexChain(f: Formula, pos: set<nat>, neg: set<nat>, ghost fs: seq<Formula>, ghost found: set<Formula>)
    returns (clash: bool, pos': set<nat>, neg': set<nat>)
    requires Covered(pos, neg, fs) && Below(f, fs) && NoLooseConstants(f) && Marks(pos, neg, found)
    ensures Covered(pos', neg', fs)
    ensures clash ==> Always(fs) && Opposed(found + Members(Spine(Disj, f)))
    ensures !clash ==> Marks(pos', neg', found + Members(Spine(Disj, f)))
  {
    hide Covered, Below, Always, Marks, Opposed;
    pos', neg' := pos, neg;
    var af := f;
    ghost var seen := {};
    assert found + seen == found;
    while af.Or?
      invariant Covered(pos', neg', fs) && Below(af, fs) && NoLooseConstants(af)
      invariant Marks(pos', neg', found + seen) && Members(Spine(Disj, f)) == seen + Members(Spine(Disj, af))
      decreases af
    {
      ChainBelow(af, fs);
      SpineMembers(af);
      ghost var p, n := pos', neg';
      clash, pos', neg' := Mutex(af.l, pos', neg', fs);
      if clash {
        ClashOpposes(p, n, found + seen, af.l);
        OpposedMore(found + seen + {af.l}, found + Members(Spine(Disj, f)));
        return;
      }
      MarksMore(p, n, pos', neg', found + seen, af.l);
      assert found + seen + {af.l} == found + (seen + {af.l});
      seen := seen + {af.l};
      af := af.r;
    }
    SpineMembers(af);
    ghost var p, n := pos', neg';
    clash, pos', neg' := Mutex(af, pos', neg', fs);
    assert found + seen + {af} == found + Members(Spine(Disj, f));
    if clash { ClashOpposes(p, n, found + seen, af); } else { MarksMore(p, n, pos', neg', found + seen, af); }
  }

  lemma OpposedMore(found: set<Formula>, more: set<Formula>)
    requires Opposed(found) && found <= more
    ensures Opposed(more)
  {
  }

  lemma SpineMembers(f: Formula)
    ensures f.Or? ==> Members(Spine(Disj, f)) == {f.l} + Members(Spine(Disj, f.r))
    ensures !f.Or? ==> Members(Spine(Disj, f)) == {f}
  {
  }

  /** All that the test of complementary disjuncts looks at. */
  ghost function Found(fs: seq<Formula>): set<Formula> {
    if fs == [] then {} else Found(fs[..|fs| - 1]) + FoundIn(fs[|fs| - 1])
  }

  ghost function FoundIn(f: Formula): set<Formula> {
    {f} + if f.Until? then Members(Spine(Disj, f.r)) else {}
  }

  lemma {:induction false} FoundIs(fs: seq<Formula>)
    ensures forall x :: x in Found(fs) <==> Has(fs, x)
  {
    if fs != [] {
      var init, f := fs[..|fs| - 1], fs[|fs| - 1];
      FoundIs(init);
      assert forall u :: u in fs <==> u in init || u == f;
      forall x ensures x in Found(fs) <==> Has(fs, x) {
        if Has(init, x) && x !in init { var u :| u in init && InBody(u, x); assert u in fs; }
        if Has(fs, x) && x !in fs {
          var u :| u in fs && InBody(u, x);
          if u in init { assert Has(init, x); }
        }
        if f.Until? && x in Members(Spine(Disj, f.r)) { assert f in fs && InBody(f, x); }
      }
    }
  }

  lemma OpposedIs(fs: seq<Formula>)
    ensures Opposed(Found(fs)) <==> Complementary(fs)
  {
    hide Has, Found;
    FoundIs(fs);
    if Opposed(Found(fs)) {
      var a: nat :| Atom(a) in Found(fs) && Not(Atom(a)) in Found(fs);
      assert Has(fs, Atom(a)) && Has(fs, Not(Atom(a)));
    }
    if Complementary(fs) {
      var a: nat :| Has(fs, Atom(a)) && Has(fs, Not(Atom(a)));
      assert Atom(a) in Found(fs) && Not(Atom(a)) in Found(fs);
    }
  }

  lemma MarksApart(pos: set<nat>, neg: set<nat>, fs: seq<Formula>)
    requires Marks(pos, neg, Found(fs))
    ensures !Complementary(fs)
  {
    hide Found;
    OpposedIs(fs);
  }

  lemma InBelow(f: Formula, fs: seq<Formula>)
    requires f in fs
    ensures Below(f, fs)
    ensures f.Until? ==> Below(f.r, fs)
  {
    if f.Until? { BodyEntails(f); }
  }

  lemma UntilPiece(f: Formula)
    requires f.Until? && Settled(f)
    ensures NoLooseConstants(f.r)
  {
  }

  lemma FoundNext(fs: seq<Formula>, k: nat)
    requires k < |fs|
    ensures Found(fs[..k + 1]) == Found(fs[..k]) + FoundIn(fs[k])
    ensures Opposed(Found(fs[..k + 1])) ==> Complementary(fs)
  {
    hide FoundIn, Has, Opposed;
    var init := fs[..k + 1];
    assert init[..k] == fs[..k] && init[k] == fs[k];
    OpposedIs(init);
    ComplementaryMore(init, fs);
  }

  lemma ComplementaryMore(gs: seq<Formula>, fs: seq<Formula>)
    requires forall g :: g in gs ==> g in fs
    ensures Complementary(gs) ==> Complementary(fs)
  {
    if Complementary(gs) {
      var a: nat :| Has(gs, Atom(a)) && Has(gs, Not(Atom(a)));
      HasMore(gs, fs, Atom(a));
      HasMore(gs, fs, Not(Atom(a)));
    }
  }

  lemma HasMore(gs: seq<Formula>, fs: seq<Formula>, x: Formula)
    requires Has(gs, x) && forall g :: g in gs ==> g in fs
    ensures Has(fs, x)
  {
    if x !in gs {
      var u :| u in gs && InBody(u, x);
      assert u in fs;
    }
  }

  /** Both tests for one disjunct. */
  method MutexBoth(f: Formula, pos: set<nat>, neg: set<nat>, ghost fs: seq<Formula>, ghost found: set<Formula>)
    returns (clash: bool, pos': set<nat>, neg': set<nat>)
    requires f in fs && Settled(f) && !f.True? && !f.False? && Covered(pos, neg, fs) && Marks(pos, neg, found)
    ensures Covered(pos', neg', fs)
    ensures clash ==> Always(fs) && Opposed(found + FoundIn(f))
    ensures !clash ==> Marks(pos', neg', found + FoundIn(f))
  {
    hide Covered, Below, Always, Marks, Opposed, Settled;
    InBelow(f, fs);
    ghost var seen := found;
    pos', neg' := pos, neg;
    if f.Until? {
      UntilPiece(f);
      seen := found + Members(Spine(Disj, f.r));
      clash, pos', neg' := MutexChain(f.r, pos', neg', fs, found);
      if clash {
        OpposedMore(seen, found + FoundIn(f));
        return;
      }
    }
    ghost var p, n := pos', neg';
    clash, pos', neg' := Mutex(f, pos', neg', fs);
    assert seen + {f} == found + FoundIn(f);
    if clash { ClashOpposes(p, n, seen, f); } else { MarksMore(p, n, pos', neg', seen, f); }
  }

  /** Constants go, and a disjunction that cannot fail is recognised: it has True among its
      disjuncts, or some atom and its negation there or in the bodies of untils. */
  method ScanDisjuncts(fs: seq<Formula>) returns (always: bool, out: seq<Formula>)
    requires forall f :: f in fs ==> Ready(f) && Settled(f)
    ensures always ==> Always(fs)
    ensures always <==> True in fs || Complementary(fs)
    ensures !always ==> forall g :: g in out <==> g in fs && !g.False?
    ensures Cost(out) <= Cost(fs)
  {
    hide Covered, Below, Always, Ready, Settled, Marks, Opposed, Complementary, Found, FoundIn;
    out := [];
    var pos: set<nat>, neg: set<nat> := {}, {};
    assert Covered(pos, neg, fs) by { NothingCovered(fs); }
    NothingMarked(fs);
    always := false;
    for k := 0 to |fs|
      invariant Covered(pos, neg, fs) && Marks(pos, neg, Found(fs[..k]))
      invariant forall g :: g in out <==> g in fs[..k] && !g.False?
      invariant True !in fs[..k]
      invariant Cost(out) <= Cost(fs[..k])
    {
      var f := fs[k];
      assert f in fs;
      assert fs[..k + 1] == fs[..k] + [f];
      CostSum(fs[..k], [f]);
      TakeCost(fs, k);
      FoundNext(fs, k);
      if f.True? {
        always := true;
        TrueAlways(fs);
        return;
      }
      if f.False? {
        FalseMarks(pos, neg, Found(fs[..k]));
      } else {
        always, pos, neg := MutexBoth(f, pos, neg, fs, Found(fs[..k]));
        if always { return; }
        CostSum(out, [f]);
        out := out + [f];
      }
    }
    assert fs[..|fs|] == fs;
    MarksApart(pos, neg, fs);
  }

  lemma NothingMarked(fs: seq<Formula>)
    ensures Marks({}, {}, Found(fs[..0]))
  {
  }

  lemma FalseMarks(pos: set<nat>, neg: set<nat>, found: set<Formula>)
    requires Marks(pos, neg, found)
    ensures Marks(pos, neg, found + FoundIn(False))
  {
  }

  lemma NothingCovered(fs: seq<Formula>)
    ensures Covered({}, {}, fs)
  {
  }

  lemma TrueAlways(fs: seq<Formula>)
    requires True in fs
    ensures Always(fs)
  {
    forall v: View ensures SomeOf(fs, v) { assert Value(True, v); }
  }

  lemma TakeCost(fs: seq<Formula>, k: nat)
    requires k <= |fs|
    ensures Cost(fs[..k]) <= Cost(fs)
  {
    CostSum(fs[..k], fs[k..]);
    assert fs == fs[..k] + fs[k..];
  }

  // -------------------------------------------------------------------- absorption

  ghost predicate Stays(f: Formula, fs: seq<Formula>) { f in fs && !Dropped(f, Members(fs), Bodies(fs)) }

  /** Every until is implied by an until that stays. */
  lemma {:induction false} UntilStays(f: Formula, fs: seq<Formula>) returns (g: Formula)
    requires f in fs && f.Until?
    ensures Stays(g, fs) && Entails(f, g)
    decreases Total(fs) - Weight(f)
  {
    MemberWeight(f, fs);
    if f in Bodies(fs) {
      var u :| u in fs && u.Until? && u.r == f;
      MemberWeight(u, fs);
      BodyEntails(u);
      g := UntilStays(u, fs);
    } else {
      g := f;
    }
  }

  lemma MemberWeight(f: Formula, fs: seq<Formula>)
    requires f in fs
    ensures Weight(f) <= Total(fs)
  {
    var i :| 0 <= i < |fs| && fs[i] == f;
    TotalBound(fs, i);
  }

  lemma BodyEntails(u: Formula)
    ensures u.Until? ==> Entails(u.r, u)
    ensures u.Release? ==> Entails(u, u.r)
  {
    forall v: View
      ensures u.Until? && Value(u.r, v) ==> Value(u, v)
      ensures u.Release? && Value(u, v) ==> Value(u.r, v)
    {
      match v
      case OnWord(w, i) =>
        if u.Until? { UntilStep(WordPositions(u.l, w), WordPositions(u.r, w), i); }
        if u.Release? { ReleaseStep(WordPositions(u.l, w), WordPositions(u.r, w), i); }
      case AtEnd(st, next) => if u.Until? || u.Release? { TemporalAtEnd(u, st, next); }
    }
  }

  lemma BodyImplies(u: Formula)
    ensures u.Until? ==> Implies(u.r, u)
    ensures u.Release? ==> Implies(u, u.r)
  {
    BodyEntails(u);
    if u.Until? { EntailsOnWords(u.r, u); }
    if u.Release? { EntailsOnWords(u, u.r); }
  }

  /** No disjunct is lost: what is dropped implies something that stays, so disjuncts are
      never justified in a circle. */
  lemma {:induction false} DroppedEntails(f: Formula, fs: seq<Formula>) returns (g: Formula)
    requires f in fs
    ensures Stays(g, fs) && Entails(f, g)
    decreases Weight(f)
  {
    if f in Bodies(fs) {
      var u :| u in fs && u.Until? && u.r == f;
      BodyEntails(u);
      g := UntilStays(u, fs);
    } else if f.Release? && f.r in fs {
      BodyEntails(f);
      g := DroppedEntails(f.r, fs);
    } else {
      g := f;
    }
  }

  lemma AbsorptionKeeps(fs: seq<Formula>, kept: seq<Formula>, f: Formula)
    requires forall g :: g in kept <==> Stays(g, fs)
    requires Represents(Disj, fs, f)
    ensures Represents(Disj, kept, f)
    ensures fs != [] ==> kept != []
  {
    hide Stays, Represents, Value, Deep;
    forall g | g in kept ensures g in fs { StaysIn(g, fs); }
    forall v: View ensures SomeOf(fs, v) <==> SomeOf(kept, v) {
      if SomeOf(fs, v) {
        var x :| x in fs && Value(x, v);
        var g := DroppedEntails(x, fs);
        assert Value(g, v);
      }
    }
    RepresentsLike(Disj, fs, kept, f);
    if fs != [] {
      var g := DroppedEntails(fs[0], fs);
      assert g in kept;
    }
  }

  lemma StaysIn(f: Formula, fs: seq<Formula>)
    requires Stays(f, fs)
    ensures f in fs
  {
  }

  method Absorb(fs: seq<Formula>, ghost f: Formula) returns (kept: seq<Formula>)
    requires Represents(Disj, fs, f) && forall i, j :: 0 <= i < j < |fs| ==> fs[i] != fs[j]
    ensures Represents(Disj, kept, f)
    ensures fs != [] ==> kept != []
    ensures forall g :: g in kept <==> Stays(g, fs)
    ensures forall i, j :: 0 <= i < j < |kept| ==> kept[i] != kept[j]
    ensures Cost(kept) <= Cost(fs)
  {
    hide Represents;
    var s1, s2 := Members(fs), Bodies(fs);
    kept := [];
    for k := 0 to |fs|
      invariant forall g :: g in kept <==> g in fs[..k] && !Dropped(g, s1, s2)
      invariant forall i, j :: 0 <= i < j < |kept| ==> kept[i] != kept[j]
      invariant Cost(kept) <= Cost(fs[..k])
    {
      assert fs[..k + 1] == fs[..k] + [fs[k]];
      CostSum(fs[..k], [fs[k]]);
      if !Dropped(fs[k], s1, s2) {
        CostSum(kept, [fs[k]]);
        kept := kept + [fs[k]];
      }
    }
    assert fs[..|fs|] == fs;
    AbsorptionKeeps(fs, kept, f);
  }

  // ----------------------------------------------------------------- until, release

  lemma {:induction false} PartImplies(op: Op, f: Formula, g: Formula)
    requires HasPart(op, f, g)
    ensures op.Conj? ==> Implies(f, g)
    ensures op.Disj? ==> Implies(g, f)
  {
    if Is(op, f) {
      if HasPart(op, f.l, g) { PartImplies(op, f.l, g); } else { PartImplies(op, f.r, g); }
    }
  }

  lemma {:induction false} UntilPartImplies(f: Formula, g: Formula)
    requires HasUntilPart(f, g)
    ensures Implies(g, f)
  {
    if f.Or? {
      if HasUntilPart(f.l, g) { UntilPartImplies(f.l, g); } else { UntilPartImplies(f.r, g); }
    } else {
      BodyImplies(f);
    }
  }

  lemma UntilRight(l: Formula, r: Formula)
    requires UntilGivesRight(l, r)
    ensures Becomes(Until(l, r), r)
  {
    assert forall st, next :: Value(Until(l, r), AtEnd(st, next)) == Value(r, AtEnd(st, next)) by {
      forall st: State, next: bool { TemporalAtEnd(Until(l, r), st, next); }
    }
    assert Equal(Until(l, r), r) by { UntilRightOnWords(l, r); }
  }

  lemma UntilRightOnWords(l: Formula, r: Formula)
    requires UntilGivesRight(l, r)
    ensures Equal(Until(l, r), r)
  {
    if HasPart(Disj, r, l) { PartImplies(Disj, r, l); }
    BodyImplies(r);
    BodyImplies(l);
    forall w: Word ensures WordPositions(Until(l, r), w) == WordPositions(r, w) {
      var G, H := WordPositions(l, w), WordPositions(r, w);
      forall i: nat | i in G && NextIn(H, i) ensures i in H {
        if r.Until? { UntilStep(WordPositions(r.l, w), WordPositions(r.r, w), i); }
        if r.Release? { ReleaseStep(WordPositions(r.l, w), WordPositions(r.r, w), i); }
      }
      UntilIsRight(G, H);
    }
  }

  lemma ReleaseRight(l: Formula, r: Formula)
    requires ReleaseGivesRight(l, r)
    ensures Becomes(Release(l, r), r)
  {
    assert forall st, next :: Value(Release(l, r), AtEnd(st, next)) == Value(r, AtEnd(st, next)) by {
      forall st: State, next: bool { TemporalAtEnd(Release(l, r), st, next); }
    }
    assert Equal(Release(l, r), r) by { ReleaseRightOnWords(l, r); }
  }

  lemma ReleaseRightOnWords(l: Formula, r: Formula)
    requires ReleaseGivesRight(l, r)
    ensures Equal(Release(l, r), r)
  {
    if HasPart(Conj, r, l) { PartImplies(Conj, r, l); }
    if HasPart(Disj, l, r) { PartImplies(Disj, l, r); }
    if HasUntilPart(l, r) { UntilPartImplies(l, r); }
    BodyImplies(r);
    forall w: Word ensures WordPositions(Release(l, r), w) == WordPositions(r, w) {
      var G, H := WordPositions(l, w), WordPositions(r, w);
      forall i: nat | i in H ensures i in G || NextIn(H, i) {
        if r.Until? { UntilStep(WordPositions(r.l, w), WordPositions(r.r, w), i); }
        if r.Release? { ReleaseStep(WordPositions(r.l, w), WordPositions(r.r, w), i); }
      }
      ReleaseIsRight(G, H);
    }
  }

  /** (a U b) U a = b U a */
  lemma UntilTurnsOnWords(l: Formula, r: Formula)
    requires l.Until? && l.l == r
    ensures Equal(Until(l, r), Until(l.r, l.l))
  {
    hide Eventually;
    forall w: Word ensures WordPositions(Until(l, r), w) == WordPositions(Until(l.r, l.l), w) {
      UntilTurns(WordPositions(l.l, w), WordPositions(l.r, w));
    }
  }

  /** (b U a) U a = b U a */
  lemma UntilLeftOnWords(l: Formula, r: Formula)
    requires l.Until? && l.r == r
    ensures Equal(Until(l, r), l)
  {
    hide Eventually;
    forall w: Word ensures WordPositions(Until(l, r), w) == WordPositions(l, w) {
      UntilLeft(WordPositions(l.r, w), WordPositions(l.l, w));
    }
  }

  /** X a U a = X a | a */
  lemma UntilOfNextOnWords(l: Formula, r: Formula)
    requires l.Next? && l.r == r
    ensures Equal(Until(l, r), Or(l, r))
  {
    hide Eventually;
    forall w: Word ensures WordPositions(Until(l, r), w) == WordPositions(Or(l, r), w) {
      UntilOfNext(WordPositions(l.r, w));
    }
  }

  /** X a U X b = X (a U b) */
  lemma UntilNextsOnWords(l: Formula, r: Formula)
    requires l.Next? && r.Next?
    ensures Equal(Until(l, r), Next(Until(l.r, r.r)))
  {
    hide Eventually;
    forall w: Word ensures WordPositions(Until(l, r), w) == WordPositions(Next(Until(l.r, r.r)), w) {
      UntilNexts(WordPositions(l.r, w), WordPositions(r.r, w));
    }
  }

  /** (a R b) R a = b R a */
  lemma ReleaseTurnsOnWords(l: Formula, r: Formula)
    requires l.Release? && l.l == r
    ensures Equal(Release(l, r), Release(l.r, l.l))
  {
    hide Forever;
    forall w: Word ensures WordPositions(Release(l, r), w) == WordPositions(Release(l.r, l.l), w) {
      ReleaseTurns(WordPositions(l.l, w), WordPositions(l.r, w));
    }
  }

  /** (b R a) R a = b R a */
  lemma ReleaseLeftOnWords(l: Formula, r: Formula)
    requires l.Release? && l.r == r
    ensures Equal(Release(l, r), l)
  {
    hide Forever;
    forall w: Word ensures WordPositions(Release(l, r), w) == WordPositions(l, w) {
      ReleaseLeft(WordPositions(l.r, w), WordPositions(l.l, w));
    }
  }

  /** X a R X b = X (a R b) */
  lemma ReleaseNextsOnWords(l: Formula, r: Formula)
    requires l.Next? && r.Next?
    ensures Equal(Release(l, r), Next(Release(l.r, r.r)))
  {
    hide Forever;
    forall w: Word ensures WordPositions(Release(l, r), w) == WordPositions(Next(Release(l.r, r.r)), w) {
      ReleaseNexts(WordPositions(l.r, w), WordPositions(r.r, w));
    }
  }

  /** !a R a = False R a */
  lemma ReleaseNeverOnWords(l: Formula, r: Formula)
    requires l == Not(r) || r == Not(l)
    ensures Equal(Release(l, r), Release(False, r))
  {
    hide Forever;
    forall w: Word ensures WordPositions(Release(l, r), w) == WordPositions(Release(False, r), w) {
      ReleaseNever(WordPositions(l, w), WordPositions(r, w));
    }
  }

  /** An equal formula with the same right operand is the same at the end, too. */
  lemma TemporalBecomes(f: Formula, g: Formula)
    requires (f.Until? || f.Release?) && (g.Until? || g.Release?) && f.r == g.r
    requires Equal(f, g) && (Deep(f) ==> Deep(g))
    ensures Becomes(f, g)
  {
    hide Equal, Value, Deep;
    forall st: State, next: bool ensures Value(f, AtEnd(st, next)) == Value(g, AtEnd(st, next)) {
      TemporalAtEnd(f, st, next);
      TemporalAtEnd(g, st, next);
    }
  }

  /** With a next for an operand, only equality counts. */
  lemma NextBecomes(f: Formula, g: Formula)
    requires (f.Until? || f.Release?) && f.l.Next? && Equal(f, g)
    ensures Becomes(f, g)
  {
    hide Equal, Value;
    NextIsLoose(f.l);
  }

  lemma DeepParts(f: Formula)
    requires f.Until? || f.Release?
    ensures Deep(f) ==> Deep(f.l)
    ensures Deep(f) && (f.l.Until? || f.l.Release?) ==> Deep(Until(f.l.r, f.l.l)) && Deep(Release(f.l.r, f.l.l))
    ensures Deep(f) ==> Deep(Release(False, f.r))
  {
    hide Value;
    assert Tight(False) by { TightFalse(); }
  }

  lemma TightFalse()
    ensures Tight(False)
  {
  }

  lemma UntilLaws(l: Formula, r: Formula)
    ensures l.Until? && l.l == r ==> Becomes(Until(l, r), Until(l.r, l.l))
    ensures l.Until? && l.r == r ==> Becomes(Until(l, r), l)
    ensures l.Next? && l.r == r ==> Becomes(Until(l, r), Or(l, r))
    ensures l.Next? && r.Next? ==> Becomes(Until(l, r), Next(Until(l.r, r.r)))
  {
    hide Equal, Becomes, Deep;
    var f := Until(l, r);
    DeepParts(f);
    if l.Until? && l.l == r {
      UntilTurnsOnWords(l, r);
      TemporalBecomes(f, Until(l.r, l.l));
    }
    if l.Until? && l.r == r {
      UntilLeftOnWords(l, r);
      TemporalBecomes(f, l);
    }
    if l.Next? && l.r == r {
      UntilOfNextOnWords(l, r);
      NextBecomes(f, Or(l, r));
    }
    if l.Next? && r.Next? {
      UntilNextsOnWords(l, r);
      NextBecomes(f, Next(Until(l.r, r.r)));
    }
  }

  lemma ReleaseLaws(l: Formula, r: Formula)
    ensures l.Release? && l.l == r ==> Becomes(Release(l, r), Release(l.r, l.l))
    ensures l.Release? && l.r == r ==> Becomes(Release(l, r), l)
    ensures l.Next? && r.Next? ==> Becomes(Release(l, r), Next(Release(l.r, r.r)))
    ensures l == Not(r) || r == Not(l) ==> Becomes(Release(l, r), Release(False, r))
  {
    hide Equal, Becomes, Deep;
    var f := Release(l, r);
    DeepParts(f);
    if l.Release? && l.l == r {
      ReleaseTurnsOnWords(l, r);
      TemporalBecomes(f, Release(l.r, l.l));
    }
    if l.Release? && l.r == r {
      ReleaseLeftOnWords(l, r);
      TemporalBecomes(f, l);
    }
    if l.Next? && r.Next? {
      ReleaseNextsOnWords(l, r);
      NextBecomes(f, Next(Release(l.r, r.r)));
    }
    if l == Not(r) || r == Not(l) {
      ReleaseNeverOnWords(l, r);
      TemporalBecomes(f, Release(False, r));
    }
  }

  lemma CongruentNext(f: Formula, g: Formula)
    requires Becomes(f, g)
    ensures Becomes(Next(f), if g.True? || g.False? then g else Next(g))
  {
    if g.True? || g.False? { NextBecomesConst(f, g); } else { BecomesNext(f, g); }
  }

  lemma SimplifiedParts(f: Formula, s: Formula)
    requires Simplified(f, s)
    ensures Ready(s) && Settled(s) && Normal(s) && Weight(s) <= Weight(f) && Becomes(f, s)
    ensures IsBoolean(f) ==> IsBoolean(s)
  {
  }

  // ---------------------------------------------------------- steps of the simplifier

  /** The elements that splitting gives: simplified, and none of them joined by op. */
  ghost predicate Pieces(op: Op, fs: seq<Formula>) {
    forall f :: f in fs ==> Ready(f) && Settled(f) && Normal(f) && !Is(op, f)
  }

  /** The state of the split loop: what was found, the current formula, the queue. */
  ghost predicate Splitting(op: Op, out: seq<Formula>, af: Formula, store: seq<Formula>, f: Formula) {
    && Represents(op, out + [af] + store, f)
    && Pieces(op, out) && Ready(af) && (forall g :: g in store ==> Ready(g))
    && Cost(out) + Weight(af) + 1 + Cost(store) <= Weight(f) + 1
    && BooleanParts(f, out) && BooleanParts(f, store) && (IsBoolean(f) ==> IsBoolean(af))
  }

  lemma SplittingStarts(op: Op, f: Formula)
    requires Ready(f)
    ensures Splitting(op, [], f, [], f)
  {
    RepresentsSelf(op, f);
    assert [] + [f] + [] == [f];
  }

  lemma SplittingDown(op: Op, out: seq<Formula>, af: Formula, store: seq<Formula>, f: Formula)
    requires Splitting(op, out, af, store, f) && Is(op, af)
    ensures Splitting(op, out, af.l, store + [af.r], f)
    ensures Weight(af.l) + Total(store + [af.r]) < Weight(af) + Total(store)
  {
    RepresentsSplit(op, out, af, store, f);
    assert out + [af.l] + (store + [af.r]) == out + [af.l] + store + [af.r];
    TotalAppend(store, af.r);
  }

  lemma SplittingReplaces(op: Op, out: seq<Formula>, af: Formula, s: Formula, store: seq<Formula>, f: Formula)
    requires Splitting(op, out, af, store, f) && Simplified(af, s)
    ensures Splitting(op, out, s, store, f)
  {
    RepresentsReplace(op, out, af, s, store, f);
  }

  lemma SplittingMoves(op: Op, out: seq<Formula>, af: Formula, store: seq<Formula>, f: Formula)
    requires Splitting(op, out, af, store, f) && Settled(af) && Normal(af) && !Is(op, af)
    ensures store != [] ==> Splitting(op, out + [af], store[0], store[1..], f)
    ensures store == [] ==> Represents(op, out + [af], f) && Pieces(op, out + [af]) && Cost(out + [af]) <= Weight(f) + 1
    ensures store == [] ==> BooleanParts(f, out + [af])
  {
    CostSum(out, [af]);
    CostOne(af);
    if store != [] {
      CostSum([store[0]], store[1..]);
      CostOne(store[0]);
      assert store == [store[0]] + store[1..];
      assert out + [af] + store == out + [af] + [store[0]] + store[1..];
    } else {
      assert out + [af] + store == out + [af];
    }
  }

  lemma SplittingBound(op: Op, out: seq<Formula>, af: Formula, store: seq<Formula>, f: Formula)
    requires Splitting(op, out, af, store, f)
    ensures Weight(af) <= Weight(f)
  {
  }

  lemma SplittingReady(op: Op, out: seq<Formula>, af: Formula, store: seq<Formula>, f: Formula)
    requires Splitting(op, out, af, store, f)
    ensures Ready(af)
  {
  }

  /** The elements that make up a result. */
  predicate Parts(fs: seq<Formula>) { forall f :: f in fs ==> Piece(f) }

  lemma ChainSimplified(op: Op, fs: seq<Formula>, f: Formula)
    requires Neat(op, fs) && Parts(fs) && Represents(op, fs, f) && Cost(fs) <= Weight(f) + 1 && BooleanParts(f, fs)
    ensures Simplified(f, Chain(op, fs))
  {
    hide Normal, Deep, Value, Fits;
    ChainNormal(op, fs);
    if IsBoolean(f) { ChainBoolean(op, fs); }
    ChainShape(op, fs);
    ChainExact(op, fs);
    RepresentsExact(op, fs, f, Chain(op, fs));
  }

  lemma EmptySimplified(op: Op, f: Formula)
    requires Represents(op, [], f)
    ensures Simplified(f, if op.Conj? then True else False)
  {
    var g := if op.Conj? then True else False;
    assert Exact(op, [], g);
    RepresentsExact(op, [], f, g);
  }

  lemma AlwaysSimplified(fs: seq<Formula>, f: Formula)
    requires Represents(Disj, fs, f) && Always(fs)
    ensures Simplified(f, True)
  {
    hide Deep;
    forall v: View | v.OnWord? || Deep(f) ensures Downward(v) ==> Value(f, v) {
      RepresentsAt(Disj, fs, f, v);
      assert SomeOf(fs, v);
    }
    assert Deep(True) by { ConstantsDeep(); }
    BecomesIf(f, True);
  }

  lemma ConstantsDeep()
    ensures Deep(True) && Deep(False)
  {
  }

  /** Nothing shows the formula true. */
  lemma NeverSimplified(f: Formula)
    requires forall v: View :: (v.OnWord? || Deep(f)) && Upward(v) ==> !Value(f, v)
    ensures Simplified(f, False)
  {
    ConstantsDeep();
    BecomesIf(f, False);
  }

  lemma FalseSimplified(fs: seq<Formula>, f: Formula)
    requires Represents(Conj, fs, f) && False in fs
    ensures Simplified(f, False)
  {
    forall v: View | (v.OnWord? || Deep(f)) && Upward(v) ensures !Value(f, v) { RepresentsAt(Conj, fs, f, v); }
    NeverSimplified(f);
  }

  lemma WithoutUnit(op: Op, fs: seq<Formula>, out: seq<Formula>, f: Formula)
    requires Represents(op, fs, f)
    requires forall g :: g in out <==> g in fs && !(if op.Conj? then g.True? else g.False?)
    ensures Represents(op, out, f)
  {
    hide Represents;
    forall v: View ensures Together(op, fs, v) <==> Together(op, out, v) {
      if op.Conj? && AllOf(out, v) {
        forall g | g in fs ensures Value(g, v) {
          if g in out {} else { assert g == True; }
        }
      }
      if op.Disj? && SomeOf(fs, v) {
        var g :| g in fs && Value(g, v);
        assert g in out;
      }
    }
    RepresentsLike(op, fs, out, f);
  }

  /** Conflicting formulas are not both true in a view, except where nexts are. */
  lemma ConflictNever(a: Formula, b: Formula, v: View)
    requires Ready(a) && Ready(b) && IsConflict(a, b) && Upward(v)
    ensures !(Value(a, v) && Value(b, v))
  {
    hide IsConflict, Stutter.Stuttering, Stutter.Stutters;
    if Value(a, v) && Value(b, v) {
      var x := if v.OnWord? then v else OnWord(Stutter.Stuttering([v.st]), 0);
      if v.AtEnd? { EndOnWord(a, v.st); EndOnWord(b, v.st); }
      ConflictSound(a, b, x.w);
    }
  }

  lemma ConflictSimplified(fs: seq<Formula>, f: Formula, a: Formula, b: Formula)
    requires Represents(Conj, fs, f) && a in fs && b in fs && Ready(a) && Ready(b) && IsConflict(a, b)
    ensures Simplified(f, False)
  {
    hide Value, Deep, IsConflict;
    forall v: View | (v.OnWord? || Deep(f)) && Upward(v) ensures !Value(f, v) {
      RepresentsAt(Conj, fs, f, v);
      ConflictNever(a, b, v);
    }
    NeverSimplified(f);
  }

  /** The lists of the two operands, put together. */
  lemma PiecesTogether(op: Op, fs: seq<Formula>, gs: seq<Formula>, l: Formula, r: Formula)
    requires Represents(op, fs, l) && Pieces(op, fs) && Cost(fs) <= Weight(l) + 1 && BooleanParts(l, fs)
    requires Represents(op, gs, r) && Pieces(op, gs) && Cost(gs) <= Weight(r) + 1 && BooleanParts(r, gs)
    ensures Represents(op, fs + gs, Make(op, l, r)) && Pieces(op, fs + gs)
    ensures Cost(fs + gs) <= Weight(Make(op, l, r)) + 1 && BooleanParts(Make(op, l, r), fs + gs)
  {
    hide Represents;
    RepresentsMake(op, fs, gs, l, r);
    CostSum(fs, gs);
  }

  lemma PiecesParts(op: Op, fs: seq<Formula>, out: seq<Formula>, f: Formula)
    requires Pieces(op, fs) && forall g :: g in out ==> g in fs && !g.True? && !g.False?
    requires BooleanParts(f, fs)
    ensures Parts(out) && BooleanParts(f, out)
  {
  }

  lemma AbsorbedNeat(fs: seq<Formula>, ds: seq<Formula>, kept: seq<Formula>)
    requires Pieces(Disj, fs) && !Complementary(fs) && kept != [] && forall g :: g in ds ==> g in fs
    requires (forall g :: g in kept <==> Stays(g, ds)) && forall i, j :: 0 <= i < j < |kept| ==> kept[i] != kept[j]
    ensures Neat(Disj, kept)
  {
    hide Ready, Settled, Normal, Complementary;
    ComplementaryMore(ds, fs);
    CompatibleLess(ds, kept);
    NeatList(Disj, kept);
  }

  lemma UnclashedNeat(fs: seq<Formula>, ds: seq<Formula>)
    requires Pieces(Conj, fs) && ds != [] && forall g :: g in ds ==> g in fs
    requires forall i, j :: 0 <= i < j < |ds| ==> !IsConflict(ds[i], ds[j])
    ensures Neat(Conj, ds)
  {
    hide Ready, Settled, Normal, IsConflict;
    FreeIf(ds);
    NeatList(Conj, ds);
  }

  lemma ChainIsOwn(op: Op, fs: seq<Formula>, n: nat)
    requires n < |fs| && Parts(fs) && Neat(op, fs)
    ensures Simplified(Chain(op, fs[n..]), Chain(op, fs[n..]))
  {
    hide Normal, Neat;
    NeatFrom(op, fs, n);
    ChainNormal(op, fs[n..]);
    ChainShape(op, fs[n..]);
    SimplifiedSelf(Chain(op, fs[n..]));
  }

  lemma CacheHas(simp: map<Formula, Formula>, f: Formula)
    requires CacheOk(simp) && f in simp
    ensures Simplified(f, simp[f])
  {
  }

  /** The formula h means what f means, and the simplifier may be called for it. */
  ghost predicate Rewrites(f: Formula, h: Formula) {
    Ready(h) && Weight(h) < Weight(f) && Becomes(f, h) && !IsBoolean(f)
  }

  lemma ThenSimplified(f: Formula, h: Formula, s: Formula)
    requires Rewrites(f, h) && Simplified(h, s)
    ensures Simplified(f, s)
  {
    hide Becomes;
    BecomesTrans(f, h, s);
  }

  lemma {:induction false} WeightOfNext(h: Formula, u: Formula)
    requires Weight(u) <= Weight(h)
    ensures Weight(Next(u)) <= Weight(Next(h)) && (Ready(u) ==> Ready(Next(u)))
  {
  }

  lemma UnderNext(f: Formula, h: Formula, u: Formula)
    requires Simplified(h, u) && Becomes(f, Next(h)) && Weight(Next(h)) < Weight(f) && !IsBoolean(f)
    ensures Rewrites(f, Next(u)) && Ready(Next(u)) && Weight(Next(u)) < Weight(f)
  {
    hide *;
    SimplifiedParts(h, u);
    BecomesNext(h, u);
    BecomesTrans(f, Next(h), Next(u));
    WeightOfNext(h, u);
    MakesRewrites(f, Next(u));
  }

  lemma MakesRewrites(f: Formula, h: Formula)
    requires Ready(h) && Weight(h) < Weight(f) && Becomes(f, h) && !IsBoolean(f)
    ensures Rewrites(f, h)
  {
  }

  /** The operands of f have been simplified, which gave g. */
  ghost predicate Inner(f: Formula, g: Formula) { Becomes(f, g) && Weight(g) <= Weight(f) && !IsBoolean(f) }

  lemma Gives(f: Formula, g: Formula, s: Formula)
    requires Inner(f, g) && Becomes(g, s) && Ready(s) && Settled(s) && Normal(s) && Weight(s) <= Weight(g)
    ensures Simplified(f, s)
  {
    hide Becomes;
    BecomesTrans(f, g, s);
  }

  lemma Goes(f: Formula, g: Formula, h: Formula)
    requires Inner(f, g) && Becomes(g, h) && Ready(h) && Weight(h) < Weight(g)
    ensures Continues(f, h)
  {
    hide Becomes;
    BecomesTrans(f, g, h);
  }

  lemma GoesNext(f: Formula, g: Formula, h: Formula)
    requires Inner(f, g) && Becomes(g, Next(h)) && Ready(h) && Weight(Next(h)) < Weight(g)
    ensures ContinuesNext(f, h)
  {
    hide Becomes;
    BecomesTrans(f, g, Next(h));
    assert Weight(h) < Weight(Next(h));
  }

  /** Sizes and shapes of the formulas that the cases build. */
  lemma CaseShapes(l: Formula, r: Formula)
    requires Ready(l) && Ready(r)
    ensures Ready(Until(l, r)) && Ready(Release(l, r)) && Ready(Or(l, r)) && Weight(Until(l, r)) == Weight(Release(l, r))
    ensures Weight(Or(l, r)) < Weight(Until(l, r)) && Weight(l) < Weight(Until(l, r)) && Weight(r) < Weight(Until(l, r))
    ensures l.Until? || l.Release? || l.Next? ==> Ready(l.r) && Weight(l.r) < Weight(l)
    ensures l.Until? || l.Release? ==> Ready(l.l) && Weight(l.l) < Weight(l)
    ensures r == Not(l) ==> Ready(Release(False, r)) && Weight(Release(False, r)) < Weight(Release(l, r))
    ensures l == Not(r) ==> Ready(Release(False, r)) && Weight(Release(False, r)) < Weight(Release(l, r))
  {
  }

  lemma TurnedWeight(l: Formula, r: Formula)
    ensures l.Until? && l.l == r ==> Weight(Until(l.r, l.l)) < Weight(Until(l, r))
    ensures l.Release? && l.l == r ==> Weight(Release(l.r, l.l)) < Weight(Release(l, r))
  {
  }

  lemma NextsWeight(l: Formula, r: Formula)
    requires l.Next? && r.Next?
    ensures Weight(Next(Until(l.r, r.r))) < Weight(Until(l, r))
    ensures Weight(Next(Release(l.r, r.r))) < Weight(Release(l, r))
  {
  }

  lemma InnerUntil(l: Formula, r: Formula, ls: Formula, rs: Formula)
    requires Simplified(l, ls) && Simplified(r, rs)
    ensures Inner(Until(l, r), Until(ls, rs)) && Inner(Release(l, r), Release(ls, rs))
    ensures Weight(Until(l, r)) == Weight(l) + Weight(r) + 2 == Weight(Release(l, r))
  {
    hide Becomes;
    BecomesTemporal(Until(l, r), Until(ls, rs));
    BecomesTemporal(Release(l, r), Release(ls, rs));
  }

  /** What the cases of `simplify_until` return, or go on with, is right. */
  lemma UntilCases(l: Formula, r: Formula, ls: Formula, rs: Formula)
    requires Ready(l) && Ready(r) && Simplified(l, ls) && Simplified(r, rs)
    ensures var f := Until(l, r);
            && (UntilGivesRight(ls, rs) ==> Simplified(f, rs))
            && (ls.Until? && ls.l == rs ==> Continues(f, Until(ls.r, ls.l)))
            && (ls.Until? && ls.r == rs ==> Simplified(f, ls))
            && (ls.Next? && ls.r == rs ==> Continues(f, Or(ls, rs)))
            && (ls.Next? && rs.Next? ==> ContinuesNext(f, Until(ls.r, rs.r)))
            && (!UntilGivesRight(ls, rs) && !UntilGivesOther(ls, rs) ==> Simplified(f, Until(ls, rs)))
            && Weight(f) == Weight(l) + Weight(r) + 2
  {
    hide *;
    var f, g := Until(l, r), Until(ls, rs);
    SimplifiedParts(l, ls);
    SimplifiedParts(r, rs);
    InnerUntil(l, r, ls, rs);
    UntilLaws(ls, rs);
    CaseShapes(ls, rs);
    if UntilGivesRight(ls, rs) {
      UntilRight(ls, rs);
      Gives(f, g, rs);
    } else if !UntilGivesOther(ls, rs) {
      NotRight(ls, rs);
      InnerSimplified(f, g);
    }
    if ls.Until? && ls.l == rs { TurnedWeight(ls, rs); CaseShapes(ls.r, ls.l); Goes(f, g, Until(ls.r, ls.l)); }
    if ls.Until? && ls.r == rs { Gives(f, g, ls); }
    if ls.Next? && ls.r == rs { Goes(f, g, Or(ls, rs)); }
    if ls.Next? && rs.Next? {
      CaseShapes(rs, ls);
      CaseShapes(ls.r, rs.r);
      NextsWeight(ls, rs);
      GoesNext(f, g, Until(ls.r, rs.r));
    }
  }

  lemma InnerSimplified(f: Formula, g: Formula)
    requires Inner(f, g) && Ready(g) && Settled(g) && Normal(g)
    ensures Simplified(f, g)
  {
  }

  /** What the cases of `simplify_release` return, or go on with, is right. */
  lemma ReleaseCases(l: Formula, r: Formula, ls: Formula, rs: Formula)
    requires Ready(l) && Ready(r) && Simplified(l, ls) && Simplified(r, rs)
    ensures var f := Release(l, r);
            && (ReleaseGivesRight(ls, rs) ==> Simplified(f, rs))
            && (ls.Release? && ls.l == rs ==> Continues(f, Release(ls.r, ls.l)))
            && (ls.Release? && ls.r == rs ==> Simplified(f, ls))
            && (ls.Next? && rs.Next? ==> ContinuesNext(f, Release(ls.r, rs.r)))
            && (ls == Not(rs) || rs == Not(ls) ==> Continues(f, Release(False, rs)))
            && (!ReleaseGivesRight(ls, rs) && !ReleaseGivesOther(ls, rs) ==> Simplified(f, Release(ls, rs)))
            && Weight(f) == Weight(l) + Weight(r) + 2
  {
    hide *;
    var f, g := Release(l, r), Release(ls, rs);
    SimplifiedParts(l, ls);
    SimplifiedParts(r, rs);
    InnerUntil(l, r, ls, rs);
    ReleaseLaws(ls, rs);
    CaseShapes(ls, rs);
    if ReleaseGivesRight(ls, rs) {
      ReleaseRight(ls, rs);
      Gives(f, g, rs);
    } else if !ReleaseGivesOther(ls, rs) {
      NotRight(ls, rs);
      InnerSimplified(f, g);
    }
    if ls.Release? && ls.l == rs { TurnedWeight(ls, rs); CaseShapes(ls.r, ls.l); Goes(f, g, Release(ls.r, ls.l)); }
    if ls.Release? && ls.r == rs { Gives(f, g, ls); }
    if ls == Not(rs) || rs == Not(ls) { Goes(f, g, Release(False, rs)); }
    if ls.Next? && rs.Next? {
      CaseShapes(rs, ls);
      CaseShapes(ls.r, rs.r);
      NextsWeight(ls, rs);
      GoesNext(f, g, Release(ls.r, rs.r));
    }
  }

  /** The rewritten formula, and what calling the simplifier for it needs. */
  ghost predicate Continues(f: Formula, h: Formula) {
    Rewrites(f, h) && Ready(h) && Weight(h) < Weight(f)
  }

  ghost predicate ContinuesNext(f: Formula, h: Formula) {
    Ready(h) && Weight(h) < Weight(f) && Becomes(f, Next(h)) && Weight(Next(h)) < Weight(f) && !IsBoolean(f)
  }

  /** What is left after the other cases has constants only in F and G. */
  lemma NotRight(l: Formula, r: Formula)
    requires Settled(l) && Settled(r) && Normal(l) && Normal(r)
    ensures !UntilGivesRight(l, r) ==> Settled(Until(l, r))
    ensures !UntilGivesRight(l, r) && !UntilGivesOther(l, r) ==> Normal(Until(l, r))
    ensures !ReleaseGivesRight(l, r) ==> Settled(Release(l, r))
    ensures !ReleaseGivesRight(l, r) && !ReleaseGivesOther(l, r) ==> Normal(Release(l, r))
  {
  }

  method WithoutTrue(fs: seq<Formula>) returns (out: seq<Formula>)
    ensures forall g :: g in out <==> g in fs && !g.True?
    ensures Cost(out) <= Cost(fs)
  {
    out := [];
    for k := 0 to |fs|
      invariant forall g :: g in out <==> g in fs[..k] && !g.True?
      invariant Cost(out) <= Cost(fs[..k])
    {
      assert fs[..k + 1] == fs[..k] + [fs[k]];
      CostSum(fs[..k], [fs[k]]);
      if !fs[k].True? {
        CostSum(out, [fs[k]]);
        out := out + [fs[k]];
      }
    }
    assert fs[..|fs|] == fs;
  }

  method FindConflict(fs: seq<Formula>, ghost f: Formula) returns (conflict: bool)
    requires Represents(Conj, fs, f) && Parts(fs)
    ensures conflict ==> Simplified(f, False)
    ensures conflict <==> exists i, j :: 0 <= i < j < |fs| && IsConflict(fs[i], fs[j])
  {
    hide Represents, Simplified, IsConflict;
    for i := 0 to |fs|
      invariant forall a, b :: 0 <= a < i && a < b < |fs| ==> !IsConflict(fs[a], fs[b])
    {
      for j := i + 1 to |fs|
        invariant forall b :: i < b < j ==> !IsConflict(fs[i], fs[b])
      {
        if IsConflict(fs[i], fs[j]) {
          ConflictSimplified(fs, f, fs[i], fs[j]);
          return true;
        }
      }
    }
    return false;
  }

  // ---------------------------------------------------- walking along two chains

  /** A position in a chain of conjunctions; the program's null pointer is End. */
  datatype Cursor = End | At(f: Formula)

  function Now(f: Formula): Formula { if f.And? then f.l else f }

  function Rest(f: Formula): Cursor { if f.And? then At(f.r) else End }

  function Items(c: Cursor): seq<Formula> { if c.End? then [] else [c.f] }

  /** The conjuncts from the cursor on. */
  ghost function Along(c: Cursor): seq<Formula> { if c.End? then [] else Spine(Conj, c.f) }

  lemma AlongMoves(f: Formula)
    ensures Along(At(f)) == [Now(f)] + Along(Rest(f))
  {
  }

  ghost predicate Within(fs: seq<Formula>, gs: seq<Formula>) { forall f :: f in fs ==> f in gs }

  /** What the cursor stands at is implied by the formula where it started. */
  ghost predicate Inside(c: Cursor, f: Formula) { c.At? ==> Ready(c.f) && Entails(f, c.f) }

  lemma InsideMoves(c: Formula, f: Formula)
    requires Inside(At(c), f)
    ensures Inside(Rest(c), f) && Inside(At(Now(c)), f)
    ensures Rest(c).At? ==> Weight(Rest(c).f) < Weight(c)
  {
    forall v: View ensures c.And? && Value(c, v) ==> Value(c.l, v) && Value(c.r, v) {
      if c.And? { ValueOfMake(Conj, c.l, c.r, v); }
    }
  }

  lemma InsideConflict(a: Formula, b: Formula, ls: Formula, rs: Formula, l: Formula, r: Formula)
    requires Inside(At(a), ls) && Inside(At(b), rs) && IsConflict(a, b)
    requires Becomes(l, ls) && Becomes(r, rs)
    ensures Simplified(And(l, r), False)
  {
    hide Value, Deep, IsConflict, Becomes;
    var f := Make(Conj, l, r);
    forall v: View | (v.OnWord? || Deep(f)) && Upward(v) ensures !Value(f, v) {
      ValueOfMake(Conj, l, r, v);
      BecomesShows(l, ls, v);
      BecomesShows(r, rs, v);
      ConflictNever(a, b, v);
    }
    NeverSimplified(f);
  }

  /** A conjunct of the chain conflicts with a. */
  ghost predicate RowClash(a: Formula, rs: Formula) { exists b :: b in Spine(Conj, rs) && IsConflict(a, b) }

  ghost predicate ChainsClash(ls: Formula, rs: Formula) { exists a :: a in Spine(Conj, ls) && RowClash(a, rs) }

  method RowConflict(a: Formula, ls: Formula, rs: Formula, ghost l: Formula, ghost r: Formula) returns (conflict: bool)
    requires Inside(At(a), ls) && Simplified(l, ls) && Simplified(r, rs)
    ensures conflict ==> Simplified(And(l, r), False)
    ensures conflict <==> RowClash(a, rs)
  {
    hide Inside, Simplified, IsConflict, Spine;
    InsideStarts(r, rs);
    var rn := At(rs);
    while rn.At?
      invariant Inside(rn, rs) && Within(Along(rn), Spine(Conj, rs))
      invariant forall b :: b in Spine(Conj, rs) && IsConflict(a, b) ==> b in Along(rn)
      decreases if rn.At? then Weight(rn.f) else 0
    {
      InsideMoves(rn.f, rs);
      AlongMoves(rn.f);
      if IsConflict(a, Now(rn.f)) {
        InsideConflict(a, Now(rn.f), ls, rs, l, r) by { SimplifiedParts(l, ls); SimplifiedParts(r, rs); }
        assert Now(rn.f) in Along(rn);
        return true;
      }
      rn := Rest(rn.f);
    }
    return false;
  }

  method ChainsConflict(ls: Formula, rs: Formula, ghost l: Formula, ghost r: Formula) returns (conflict: bool)
    requires Simplified(l, ls) && Simplified(r, rs)
    ensures conflict ==> Simplified(And(l, r), False)
    ensures conflict <==> ChainsClash(ls, rs)
  {
    hide Inside, Simplified, RowClash, Spine;
    InsideStarts(l, ls);
    var ln := At(ls);
    while ln.At?
      invariant Inside(ln, ls) && Within(Along(ln), Spine(Conj, ls))
      invariant forall a :: a in Spine(Conj, ls) && RowClash(a, rs) ==> a in Along(ln)
      decreases if ln.At? then Weight(ln.f) else 0
    {
      InsideMoves(ln.f, ls);
      AlongMoves(ln.f);
      var now := Now(ln.f);
      conflict := RowConflict(now, ls, rs, l, r);
      if conflict {
        assert now in Along(ln);
        return;
      }
      ln := Rest(ln.f);
    }
    conflict := false;
  }

  lemma InsideStarts(f: Formula, s: Formula)
    requires Simplified(f, s)
    ensures Inside(At(s), s)
  {
  }

  lemma FalseClashes(ls: Formula, rs: Formula)
    requires ls.False? || rs.False?
    ensures ChainsClash(ls, rs)
  {
    var a, b := Spine(Conj, ls)[0], Spine(Conj, rs)[0];
    assert a in Spine(Conj, ls) && b in Spine(Conj, rs) && IsConflict(a, b);
    assert RowClash(a, rs);
  }

  /** The state of the merge: the output and the two cursors. */
  ghost predicate Merging(out: seq<Formula>, lc: Cursor, rc: Cursor, f: Formula) {
    && Represents(Conj, out + Items(lc) + Items(rc), f)
    && Parts(out) && MergeItem(lc) && MergeItem(rc)
    && Cost(out) + Cost(Items(lc)) + Cost(Items(rc)) <= Weight(f) + 1
    && BooleanParts(f, out) && BooleanParts(f, Items(lc)) && BooleanParts(f, Items(rc))
  }

  predicate MergeItem(c: Cursor) { c.At? ==> Ready(c.f) && (c.f.True? || NoLooseConstants(c.f)) }

  lemma MergingStarts(ls: Formula, rs: Formula, l: Formula, r: Formula)
    requires Simplified(l, ls) && Simplified(r, rs) && !ls.False? && !rs.False?
    ensures Merging([], At(ls), At(rs), Make(Conj, l, r))
  {
    RepresentsSelf(Conj, ls);
    RepresentsSelf(Conj, rs);
    RepresentsMake(Conj, [ls], [rs], ls, rs);
    var f := Make(Conj, l, r);
    MakeBecomes(l, ls, r, rs);
    assert [] + Items(At(ls)) + Items(At(rs)) == [ls] + [rs];
    RepresentsOther(Conj, [ls] + [rs], Make(Conj, ls, rs), f);
    CostOne(ls);
    CostOne(rs);
  }

  lemma MakeBecomes(l: Formula, ls: Formula, r: Formula, rs: Formula)
    requires Becomes(l, ls) && Becomes(r, rs)
    ensures Becomes(Make(Conj, l, r), Make(Conj, ls, rs))
  {
    hide Value, Deep, Becomes;
    var f, g := Make(Conj, l, r), Make(Conj, ls, rs);
    ValueOfMake(Conj, l, r, AtEnd({}, true));
    ValueOfMake(Conj, ls, rs, AtEnd({}, true));
    if Deep(f) { BecomesDeep(l, ls); BecomesDeep(r, rs); }
    forall v: View | v.OnWord? || Deep(f)
      ensures (Upward(v) && Value(f, v) ==> Value(g, v)) && (Downward(v) && Value(g, v) ==> Value(f, v))
    {
      ValueOfMake(Conj, l, r, v);
      ValueOfMake(Conj, ls, rs, v);
      BecomesShows(l, ls, v);
      BecomesShows(r, rs, v);
    }
    BecomesIf(f, g);
  }

  lemma RepresentsOther(op: Op, fs: seq<Formula>, f: Formula, g: Formula)
    requires Represents(op, fs, f) && Becomes(g, f)
    ensures Represents(op, fs, g)
  {
    hide Value, Deep, Becomes, Together, AllDeep;
    if Deep(g) { BecomesDeep(g, f); }
    forall v: View | v.OnWord? || Deep(g) ensures Shows(op, fs, g, v) {
      RepresentsAt(op, fs, f, v);
      BecomesShows(g, f, v);
    }
  }

  lemma CostOne(f: Formula)
    ensures Cost([f]) == Weight(f) + 1
  {
    assert Total([f][1..]) == 0;
  }

  lemma MergingSwaps(out: seq<Formula>, lc: Cursor, rc: Cursor, f: Formula)
    requires Merging(out, lc, rc, f)
    ensures Merging(out, rc, lc, f)
  {
    RepresentsSame(Conj, out + Items(lc) + Items(rc), out + Items(rc) + Items(lc), f);
  }

  function Push(out: seq<Formula>, f: Formula): seq<Formula> { if f.True? then out else out + [f] }

  lemma MoveRepresents(out: seq<Formula>, lc: Formula, rs: seq<Formula>, f: Formula)
    requires Represents(Conj, out + [lc] + rs, f)
    ensures Represents(Conj, Push(out, Now(lc)) + Items(Rest(lc)) + rs, f)
  {
    hide Represents;
    var now, rest := Now(lc), Items(Rest(lc)) + rs;
    if lc.And? {
      RepresentsSplit(Conj, out, lc, rs, f);
      RepresentsSame(Conj, out + [lc.l] + (rs + [lc.r]), out + [now] + rest, f);
    } else {
      assert out + [now] + rest == out + [lc] + rs;
    }
    assert out + [now] + Items(Rest(lc)) + rs == out + [now] + rest;
    if now.True? {
      RepresentsUnit(Conj, out, now, rest, f);
      assert out + rest == out + Items(Rest(lc)) + rs;
    }
  }

  lemma MoveCost(out: seq<Formula>, lc: Formula)
    ensures Cost(Push(out, Now(lc))) + Cost(Items(Rest(lc))) <= Cost(out) + Cost([lc])
  {
    CostOne(lc);
    CostOne(Now(lc));
    CostSum(out, [Now(lc)]);
    if lc.And? { CostOne(lc.r); } else { assert Cost([]) == 0; }
  }

  /** The left cursor moves on, and what it stood at goes to the output. */
  lemma MergingMoves(out: seq<Formula>, lc: Formula, rc: Cursor, f: Formula)
    requires Merging(out, At(lc), rc, f)
    ensures Merging(Push(out, Now(lc)), Rest(lc), rc, f)
  {
    hide Represents, Cost;
    assert lc in Items(At(lc)) && (IsBoolean(f) ==> IsBoolean(lc));
    MoveRepresents(out, lc, Items(rc), f);
    MoveCost(out, lc);
  }

  /** Both cursors stand at the same formula, which is needed once. */
  lemma MergingSkips(out: seq<Formula>, now: Formula, rc: Cursor, lc: Cursor, f: Formula)
    requires Merging(out + [now] + [now], lc, rc, f)
    ensures Merging(out + [now], lc, rc, f)
  {
    var a, b := out + [now] + [now] + Items(lc) + Items(rc), out + [now] + Items(lc) + Items(rc);
    RepresentsSame(Conj, a, b, f);
    CostSum(out + [now], [now]);
  }

  lemma MergingEnds(out: seq<Formula>, lc: Cursor, f: Formula)
    requires Merging(out, lc, End, f)
    ensures var all := if lc.At? then Push(out, lc.f) else out;
            Represents(Conj, all, f) && Parts(all) && Cost(all) <= Weight(f) + 1 && BooleanParts(f, all)
  {
    var fs := out + Items(lc) + Items(End);
    if lc.At? {
      CostSum(out, [lc.f]);
      assert fs == out + [lc.f] + [];
      assert fs == out + [lc.f];
      if lc.f.True? {
        RepresentsUnit(Conj, out, lc.f, [], f);
        assert out + [] == out;
      }
    } else {
      assert fs == out;
    }
  }

  /** What the merge has put out and what the cursors have before them is normal, and no two
      of these conjuncts conflict. */
  ghost predicate Sorting(out: seq<Formula>, lc: Cursor, rc: Cursor) {
    && (forall g :: g in out ==> Normal(g) && !g.And?)
    && (lc.At? ==> Normal(lc.f)) && (rc.At? ==> Normal(rc.f))
    && Free(out + Along(lc) + Along(rc))
  }

  lemma ChainsCross(ls: Formula, rs: Formula)
    requires !ChainsClash(ls, rs)
    ensures Cross(Spine(Conj, ls), Spine(Conj, rs))
  {
    hide Spine, IsConflict;
    forall a, b | a in Spine(Conj, ls) && b in Spine(Conj, rs) ensures !Clashing(a, b) {
      assert !RowClash(a, rs);
    }
  }

  lemma SortingStarts(ls: Formula, rs: Formula)
    requires Normal(ls) && Normal(rs) && !ChainsClash(ls, rs)
    ensures Sorting([], At(ls), At(rs))
  {
    hide Normal, Spine, Cross, Free, ChainsClash;
    ChainsCross(ls, rs);
    SpineFree(ls);
    SpineFree(rs);
    FreeSum(Spine(Conj, ls), Spine(Conj, rs));
    assert [] + Along(At(ls)) + Along(At(rs)) == Spine(Conj, ls) + Spine(Conj, rs);
  }

  lemma SortingSwaps(out: seq<Formula>, lc: Cursor, rc: Cursor)
    requires Sorting(out, lc, rc)
    ensures Sorting(out, rc, lc)
  {
    hide Free, Normal;
    FreeSwap(out, Along(lc), Along(rc));
  }

  lemma StepNormal(f: Formula)
    requires Normal(f)
    ensures Normal(Now(f)) && !Now(f).And? && (Rest(f).At? ==> Normal(Rest(f).f))
  {
  }

  lemma SortingMoves(out: seq<Formula>, lc: Formula, rc: Cursor)
    requires Sorting(out, At(lc), rc)
    ensures Sorting(Push(out, Now(lc)), Rest(lc), rc)
  {
    hide Free, Normal, Along, Now, Rest;
    var now, rest := Now(lc), Along(Rest(lc)) + Along(rc);
    StepNormal(lc);
    AlongMoves(lc);
    assert out + Along(At(lc)) + Along(rc) == out + [now] + rest;
    FreeDrop(out, [now], rest);
    assert out + [now] + rest == out + [now] + Along(Rest(lc)) + Along(rc);
    assert out + rest == out + Along(Rest(lc)) + Along(rc);
  }

  lemma SortingSkips(out: seq<Formula>, now: Formula, lc: Cursor, rc: Cursor)
    requires Sorting(out + [now] + [now], lc, rc)
    ensures Sorting(out + [now], lc, rc)
  {
    hide Free, Normal, Along, Spine;
    var rest := Along(lc) + Along(rc);
    assert forall g :: g in out + [now] ==> g in out + [now] + [now];
    assert out + [now] + [now] + Along(lc) + Along(rc) == out + [now] + [now] + rest;
    FreeDrop(out + [now], [now], rest);
    assert out + [now] + rest == out + [now] + Along(lc) + Along(rc);
  }

  lemma SortingEnds(out: seq<Formula>, lc: Cursor)
    requires Sorting(out, lc, End)
    ensures var all := if lc.At? then Push(out, lc.f) else out; all != [] ==> Neat(Conj, all)
  {
    hide Free, Normal;
    assert out + Along(lc) + Along(End) == out + Along(lc);
    if lc.At? && !lc.f.True? {
      assert (out + [lc.f])[..|out|] == out;
    } else {
      FreeDrop(out, Along(lc), []);
      assert out + [] == out;
      if out != [] { NeatList(Conj, out); }
    }
  }

  /** The merge of two chains; which of two different heads comes first depends on their
      addresses, so either may. */
  method Merge(ls: Formula, rs: Formula, ghost l: Formula, ghost r: Formula) returns (out: seq<Formula>)
    requires Simplified(l, ls) && Simplified(r, rs) && !ChainsClash(ls, rs)
    ensures Represents(Conj, out, Make(Conj, l, r)) && Parts(out) && Cost(out) <= Weight(Make(Conj, l, r)) + 1
    ensures out != [] ==> Neat(Conj, out)
    ensures BooleanParts(Make(Conj, l, r), out)
  {
    hide Merging, Simplified, Parts, Represents, Sorting, Neat, ChainsClash;
    ghost var f := Make(Conj, l, r);
    if ls.False? || rs.False? { FalseClashes(ls, rs); }
    MergingStarts(ls, rs, l, r);
    SimplifiedParts(l, ls);
    SimplifiedParts(r, rs);
    SortingStarts(ls, rs);
    var ln, rn := At(ls), At(rs);
    out := [];
    while ln.At? && rn.At?
      invariant Merging(out, ln, rn, f) && Sorting(out, ln, rn)
      decreases (if ln.At? then Weight(ln.f) else 0) + (if rn.At? then Weight(rn.f) else 0)
    {
      var lnow, rnow := Now(ln.f), Now(rn.f);
      if lnow == rnow {
        BothMove(out, ln.f, rn.f, f);
        out := Push(out, lnow);
        ln, rn := Rest(ln.f), Rest(rn.f);
      } else if * {
        MergingMoves(out, ln.f, rn, f);
        SortingMoves(out, ln.f, rn);
        out := Push(out, lnow);
        ln := Rest(ln.f);
      } else {
        RightMoves(out, ln, rn.f, f);
        out := Push(out, rnow);
        rn := Rest(rn.f);
      }
    }
    if ln.At? {
      MergingEnds(out, ln, f);
      SortingEnds(out, ln);
      out := Push(out, ln.f);
    } else {
      MergingSwaps(out, ln, rn, f);
      SortingSwaps(out, ln, rn);
      MergingEnds(out, rn, f);
      SortingEnds(out, rn);
      if rn.At? { out := Push(out, rn.f); }
    }
  }

  lemma RightMoves(out: seq<Formula>, lc: Cursor, rc: Formula, f: Formula)
    requires Merging(out, lc, At(rc), f) && Sorting(out, lc, At(rc))
    ensures Merging(Push(out, Now(rc)), lc, Rest(rc), f) && Sorting(Push(out, Now(rc)), lc, Rest(rc))
  {
    hide Merging, Sorting;
    MergingSwaps(out, lc, At(rc), f);
    MergingMoves(out, rc, lc, f);
    MergingSwaps(Push(out, Now(rc)), Rest(rc), lc, f);
    SortingSwaps(out, lc, At(rc));
    SortingMoves(out, rc, lc);
    SortingSwaps(Push(out, Now(rc)), Rest(rc), lc);
  }

  lemma BothMove(out: seq<Formula>, lc: Formula, rc: Formula, f: Formula)
    requires Merging(out, At(lc), At(rc), f) && Sorting(out, At(lc), At(rc)) && Now(lc) == Now(rc)
    ensures Merging(Push(out, Now(lc)), Rest(lc), Rest(rc), f) && Sorting(Push(out, Now(lc)), Rest(lc), Rest(rc))
  {
    hide Merging, Sorting;
    var now := Now(lc);
    MergingMoves(out, lc, At(rc), f);
    SortingMoves(out, lc, At(rc));
    RightMoves(Push(out, now), Rest(lc), rc, f);
    if !now.True? {
      assert Push(Push(out, now), Now(rc)) == out + [now] + [now];
      MergingSkips(out, now, Rest(rc), Rest(lc), f);
      SortingSkips(out, now, Rest(lc), Rest(rc));
    }
  }

  class Simplifier {
    /** The `_simp` pointers of the shared formula nodes. */
    var simp: map<Formula, Formula>

    constructor ()
      ensures CacheOk(simp)
    {
      simp := map[];
    }

    /** The operands of a chain of op, each simplified. */
    method Split(op: Op, f: Formula) returns (out: seq<Formula>)
      requires CacheOk(simp) && Ready(f)
      modifies this
      ensures CacheOk(simp)
      ensures Represents(op, out, f) && Pieces(op, out) && Cost(out) <= Weight(f) + 1 && BooleanParts(f, out)
      decreases Weight(f), 3
    {
      hide CacheOk, Represents, Pieces, Simplified, Ready, Settled;
      out := [];
      var af, store := f, [];
      SplittingStarts(op, f);
      while true
        invariant CacheOk(simp) && Splitting(op, out, af, store, f)
        decreases Weight(af) + Total(store), if Is(op, af) then 0 else 1
      {
        if Is(op, af) {
          SplittingDown(op, out, af, store, f);
          store, af := store + [af.r], af.l;
        } else {
          SplittingBound(op, out, af, store, f);
          SplittingReady(op, out, af, store, f);
          var s := Simplify(af);
          SimplifiedParts(af, s);
          SplittingReplaces(op, out, af, s, store, f);
          af := s;
          if !Is(op, af) {
            SplittingMoves(op, out, af, store, f);
            out := out + [af];
            if store == [] { return; }
            af, store := store[0], store[1..];
          }
        }
      }
    }

    method Simplify(f: Formula) returns (s: Formula)
      requires CacheOk(simp) && Ready(f)
      modifies this
      ensures CacheOk(simp) && Simplified(f, s)
      decreases Weight(f), 2
    {
      if f in simp { return simp[f]; }
      s := Work(f);
      SimplifiedSelf(s);
      simp := simp[f := s][s := s];
    }

    method Work(f: Formula) returns (s: Formula)
      requires CacheOk(simp) && Ready(f)
      modifies this
      ensures CacheOk(simp) && Simplified(f, s)
      decreases Weight(f), 1
    {
      hide CacheOk, Simplified;
      match f
      case And(l, r) => s := SimplifyAnd(l, r);
      case Or(l, r) => s := SimplifyOr(l, r);
      case Next(g) => s := SimplifyNext(g);
      case Until(l, r) => s := SimplifyUntil(l, r);
      case Release(l, r) => s := SimplifyRelease(l, r);
      case _ =>
        SimplifiedSelf(f);
        s := f;
    }

    /** Builds the chain; every chain on the way is its own simplification. */
    method Rebuild(op: Op, fs: seq<Formula>) returns (s: Formula)
      requires CacheOk(simp) && Neat(op, fs) && Parts(fs)
      modifies this
      ensures CacheOk(simp) && s == Chain(op, fs)
    {
      hide Simplified, Piece, Spread, Fits, Normal;
      var n := |fs| - 1;
      s := fs[n];
      while n > 0
        invariant 0 <= n < |fs| && CacheOk(simp) && s == Chain(op, fs[n..])
      {
        n := n - 1;
        s := Make(op, fs[n], s);
        assert fs[n..][1..] == fs[n + 1..];
        ChainIsOwn(op, fs, n);
        simp := simp[s := s];
      }
      assert fs[0..] == fs;
    }

    method SimplifyNext(g: Formula) returns (s: Formula)
      requires CacheOk(simp) && Ready(g)
      modifies this
      ensures CacheOk(simp) && Simplified(Next(g), s)
      decreases Weight(g) + 1, 0
    {
      hide CacheOk;
      NormalConstants();
      s := Simplify(g);
      CongruentNext(g, s);
      if !s.True? && !s.False? { s := Next(s); }
    }

    method SimplifyOr(l: Formula, r: Formula) returns (s: Formula)
      requires CacheOk(simp) && Ready(l) && Ready(r)
      modifies this
      ensures CacheOk(simp) && Simplified(Or(l, r), s)
      decreases Weight(l) + Weight(r) + 1, 0
    {
      hide CacheOk, Represents, Simplified, Ready, Always, Cost, Parts, Settled, Normal, Neat, Complementary;
      var left := Split(Disj, l);
      var right := Split(Disj, r);
      var fs := left + right;
      ghost var f := Make(Disj, l, r);
      PiecesTogether(Disj, left, right, l, r);
      var always, out := ScanDisjuncts(fs);
      if always {
        AlwaysSimplified(fs, f);
        return True;
      }
      WithoutUnit(Disj, fs, out, f);
      if out == [] {
        EmptySimplified(Disj, f);
        return False;
      }
      var ds := Distinct(out);
      RepresentsSame(Disj, out, ds, f);
      var kept := Absorb(ds, f);
      assert ds != [] by { assert out[0] in ds; }
      PiecesParts(Disj, fs, kept, f);
      AbsorbedNeat(fs, ds, kept);
      s := Rebuild(Disj, kept);
      ChainSimplified(Disj, kept, f);
    }

    method SimplifyAnd(l: Formula, r: Formula) returns (s: Formula)
      requires CacheOk(simp) && Ready(l) && Ready(r)
      modifies this
      ensures CacheOk(simp) && Simplified(And(l, r), s)
      decreases Weight(l) + Weight(r) + 1, 0
    {
      hide CacheOk, Represents, Simplified, Ready, Cost, Parts, Settled, Pieces, Neat, IsConflict;
      if l in simp && r in simp {
        s := SimplifyAndWeak(l, r);
        return;
      }
      var left := Split(Conj, l);
      var right := Split(Conj, r);
      var fs := left + right;
      ghost var f := Make(Conj, l, r);
      PiecesTogether(Conj, left, right, l, r);
      if False in fs {
        FalseSimplified(fs, f);
        return False;
      }
      var out := WithoutTrue(fs);
      WithoutUnit(Conj, fs, out, f);
      if out == [] {
        EmptySimplified(Conj, f);
        return True;
      }
      var ds := Distinct(out);
      RepresentsSame(Conj, out, ds, f);
      assert ds != [] by { assert out[0] in ds; }
      PiecesParts(Conj, fs, ds, f);
      var conflict := FindConflict(ds, f);
      if conflict { return False; }
      UnclashedNeat(fs, ds);
      s := Rebuild(Conj, ds);
      ChainSimplified(Conj, ds, f);
    }

    /** The conjunction of two formulas that are already simplified: their chains are merged. */
    method SimplifyAndWeak(l: Formula, r: Formula) returns (s: Formula)
      requires CacheOk(simp) && l in simp && r in simp
      modifies this
      ensures CacheOk(simp) && Simplified(And(l, r), s)
    {
      hide CacheOk, Represents, Simplified, Ready, Cost, Parts, Settled, Neat, ChainsClash;
      var ls, rs := simp[l], simp[r];
      ghost var f := Make(Conj, l, r);
      assert Simplified(l, ls) && Simplified(r, rs) by { CacheHas(simp, l); CacheHas(simp, r); }
      var conflict := ChainsConflict(ls, rs, l, r);
      if conflict { return False; }
      var out := Merge(ls, rs, l, r);
      if out == [] {
        EmptySimplified(Conj, f);
        return True;
      }
      s := Rebuild(Conj, out);
      ChainSimplified(Conj, out, f);
    }

    method SimplifyUntil(l: Formula, r: Formula) returns (s: Formula)
      requires CacheOk(simp) && Ready(l) && Ready(r)
      modifies this
      ensures CacheOk(simp) && Simplified(Until(l, r), s)
      decreases Weight(l) + Weight(r) + 2, 0
    {
      hide CacheOk, Simplified, UntilGivesRight, Ready, Weight, Becomes;
      var ls := Simplify(l);
      var rs := Simplify(r);
      ghost var f := Until(l, r);
      UntilCases(l, r, ls, rs);
      if UntilGivesRight(ls, rs) {
        s := rs;
      } else if ls.Until? && ls.l == rs {
        s := Work(Until(ls.r, ls.l));
        ThenSimplified(f, Until(ls.r, ls.l), s);
      } else if ls.Until? && ls.r == rs {
        s := ls;
      } else if ls.Next? && ls.r == rs {
        s := Work(Or(ls, rs));
        ThenSimplified(f, Or(ls, rs), s);
      } else if ls.Next? && rs.Next? {
        ghost var h := Until(ls.r, rs.r);
        s := Work(Until(ls.r, rs.r));
        UnderNext(f, h, s);
        ghost var g := Next(s);
        s := Work(Next(s));
        ThenSimplified(f, g, s);
      } else {
        s := Until(ls, rs);
      }
    }

    method SimplifyRelease(l: Formula, r: Formula) returns (s: Formula)
      requires CacheOk(simp) && Ready(l) && Ready(r)
      modifies this
      ensures CacheOk(simp) && Simplified(Release(l, r), s)
      decreases Weight(l) + Weight(r) + 2, 0
    {
      hide CacheOk, Simplified, ReleaseGivesRight, Ready, Weight, Becomes;
      var ls := Simplify(l);
      var rs := Simplify(r);
      ghost var f := Release(l, r);
      ReleaseCases(l, r, ls, rs);
      if ReleaseGivesRight(ls, rs) {
        s := rs;
      } else if ls.Release? && ls.l == rs {
        s := Work(Release(ls.r, ls.l));
        ThenSimplified(f, Release(ls.r, ls.l), s);
      } else if ls.Release? && ls.r == rs {
        s := ls;
      } else if ls.Next? && rs.Next? {
        ghost var h := Release(ls.r, rs.r);
        s := Work(Release(ls.r, rs.r));
        UnderNext(f, h, s);
        ghost var g := Next(s);
        s := Work(Next(s));
        ThenSimplified(f, g, s);
      } else if ls == Not(rs) || rs == Not(ls) {
        s := Work(Release(False, rs));
        ThenSimplified(f, Release(False, rs), s);
      } else {
        s := Release(ls, rs);
      }
    }
  }
}
