/** The check that the program makes before it looks for a core: the formula is
    simplified as well, by laws of infinite words. */
module FirstCheck {
  import opened Formulas
  import opened Preprocess
  import opened Encoding
  import Steps
  import W = Words
  import opened Stutter
  import opened Ends
  import Simplification
  import opened Verdicts
  import opened CarSolvers
  import opened CarCheckers

  /** Complementary nexts stay complementary. */
  lemma {:induction false} PairComplements(root: Formula, p: Formula, q: Formula, w: W.Word)
    requires ConflictPair(root, p, q)
    ensures forall i: nat :: i in W.WordPositions(p, w) <==> i !in W.WordPositions(q, w)
  {
    if p.Next? {
      PairComplements(root, p.r, q.r, w);
      forall i: nat ensures i in W.WordPositions(p, w) <==> i !in W.WordPositions(q, w) {
        assert W.NextIn(W.WordPositions(p.r, w), i) <==> !W.NextIn(W.WordPositions(q.r, w), i);
      }
    }
  }

  /** A stuttering word that satisfies a formula is a trace that the checker looks for. */
  lemma TraceOfWord(g: Formula, tr: Trace, w: W.Word)
    requires NoLooseConstants(g) && NoWNext(g) && Stutters(w, tr) && 0 in W.WordPositions(g, w)
    ensures !NoTrace(g, g)
  {
    var rd := StutterReading(g, w, tr);
    SatStutters(g, g, w, tr, 0);
    LooseFalseIrrelevant(g, tr, 0, rd);
    var rd' := rd.(looseFalse := true);
    forall p, q | ConflictPair(g, p, q) ensures rd'.LastNext(p) != rd'.LastNext(q) { PairComplements(g, p, q, w); }
    assert Steps.Allowed(g, rd') && Sat(g, tr, 0, rd');
  }

  /** Distributing a next over conjunction and disjunction keeps the meaning on words. */
  lemma {:induction false} SplitNextOnWords(f: Formula, w: W.Word)
    ensures W.WordPositions(SplitNext(f), w) == W.WordPositions(f, w)
    decreases Preprocess.Weight(f)
  {
    match f
    case True | False | Atom(_) =>
    case Next(g) => SplitUnderOnWords(false, g, w);
    case WNext(g) => SplitUnderOnWords(true, g, w);
    case Not(g) => SplitNextOnWords(g, w);
    case Or(g, h) => SplitNextOnWords(g, w); SplitNextOnWords(h, w);
    case And(g, h) => SplitNextOnWords(g, w); SplitNextOnWords(h, w);
    case Until(g, h) => SplitNextOnWords(g, w); SplitNextOnWords(h, w);
    case Release(g, h) => SplitNextOnWords(g, w); SplitNextOnWords(h, w);
  }

  lemma {:induction false} SplitUnderOnWords(weak: bool, g: Formula, w: W.Word)
    ensures W.WordPositions(SplitUnder(weak, g), w) == W.NextOf(W.WordPositions(g, w))
    decreases 2 * Preprocess.Weight(g), 0
  {
    if IsAndOr(g) {
      SplitUnderOnWords(weak, g.l, w);
      SplitUnderOnWords(weak, g.r, w);
      NextOverBoth(W.WordPositions(g.l, w), W.WordPositions(g.r, w));
    } else {
      SplitNextOnWords(g, w);
      if IsAndOr(SplitNext(g)) { SplitUnderOnWords(weak, SplitNext(g), w); }
    }
  }

  lemma NextOverBoth(G: iset<nat>, H: iset<nat>)
    ensures W.NextOf(G * H) == W.NextOf(G) * W.NextOf(H) && W.NextOf(G + H) == W.NextOf(G) + W.NextOf(H)
  {
    forall i: nat
      ensures W.NextIn(G * H, i) <==> W.NextIn(G, i) && W.NextIn(H, i)
      ensures W.NextIn(G + H, i) <==> W.NextIn(G, i) || W.NextIn(H, i)
    {
    }
  }

  function Guarded(f: Formula): Formula { RemoveWNext(AddTail(Nnf(f))) }

  lemma GuardedIsReady(f: Formula)
    ensures Simplification.Ready(Guarded(f))
  {
    NnfShape(f);
    GuardShape(Nnf(f));
    GuardShape(AddTail(Nnf(f)));
  }

  /** Splitting the nexts of a simplified formula gives the checker a formula it accepts. */
  lemma SplitIsPrepared(s: Formula)
    requires Simplification.Ready(s) && Simplification.Settled(s)
    ensures Prepared(SplitNext(s)) && (IsConst(SplitNext(s)) <==> IsConst(s))
    ensures !IsConst(s) ==> NoLooseConstants(SplitNext(s))
    ensures s.True? <==> SplitNext(s).True?
  {
    SplitNextShape(s);
    SplitNextConstants(s);
  }

  /** A satisfiable formula leaves the checker something to find. */
  lemma SimplifiedHasTrace(f: Formula, s: Formula)
    requires NoTail(f) && Satisfiable(f) && Simplification.Simplified(Guarded(f), s)
    ensures !s.False? && (!s.True? ==> !NoTrace(SplitNext(s), SplitNext(s)))
  {
    var g, h, none := Guarded(f), SplitNext(s), Reading(false, false, {});
    var tr: Trace :| Holds(f, tr, 0);
    var w := Stuttering(tr);
    SatIsHolds(f, tr, 0);
    NnfMeaning(f, tr, 0);
    AddTailMeaning(Nnf(f), tr, 0, none);
    RemoveWNextMeaning(AddTail(Nnf(f)), tr, 0, none);
    GuardedIsReady(f);
    WordOfTrace(g, tr, w);
    assert W.WordPositions(g, w) == W.WordPositions(s, w);
    SplitNextOnWords(s, w);
    if !IsConst(s) {
      SplitIsPrepared(s);
      TraceOfWord(h, tr, w);
    }
  }

  // ------------------------------------------------------- positive answers

  /** Guards make what stands under them independent of the nexts at the end. */
  lemma {:induction false} GuardedIsDeep(f: Formula)
    requires IsNnf(f)
    ensures var g := RemoveWNext(AddTail(f)); Deep(g) && Tight(g)
  {
    hide Tight, Deep;
    match f
    case True | False | Atom(_) => LeafIsDeep(f);
    case Not(_) => LeafIsDeep(f);
    case Next(g) => GuardedIsDeep(g); GuardIsDeep(RemoveWNext(AddTail(g)));
    case WNext(g) => GuardedIsDeep(g); GuardIsDeep(RemoveWNext(AddTail(g)));
    case Or(g, h) => GuardedIsDeep(g); GuardedIsDeep(h); DeepBoth(RemoveWNext(AddTail(f)));
    case And(g, h) => GuardedIsDeep(g); GuardedIsDeep(h); DeepBoth(RemoveWNext(AddTail(f)));
    case Until(g, h) => GuardedIsDeep(g); GuardedIsDeep(h); DeepBoth(RemoveWNext(AddTail(f)));
    case Release(g, h) => GuardedIsDeep(g); GuardedIsDeep(h); DeepBoth(RemoveWNext(AddTail(f)));
  }

  lemma LeafIsDeep(f: Formula)
    requires IsNnf(f) && (f.True? || f.False? || f.Atom? || f.Not?)
    ensures RemoveWNext(AddTail(f)) == f && Deep(f) && Tight(f)
  {
    if f.Not? {
      forall st: State, next: bool ensures Value(f, AtEnd(st, next)) == !Value(f.r, AtEnd(st, next)) {}
    }
  }

  lemma GuardIsDeep(g: Formula)
    requires Deep(g) && Tight(g)
    ensures Deep(And(Not(TAIL), Next(g))) && Tight(And(Not(TAIL), Next(g)))
    ensures Deep(Or(TAIL, Next(g))) && Tight(Or(TAIL, Next(g)))
  {
    assert Deep(Next(g)) && Deep(TAIL) && Deep(Not(TAIL));
    forall st: State, next: bool ensures Value(TAIL, AtEnd(st, next)) && !Value(Not(TAIL), AtEnd(st, next)) {}
  }

  lemma DeepBoth(f: Formula)
    requires IsAndOr(f) || f.Until? || f.Release?
    requires Deep(f.l) && Tight(f.l) && Deep(f.r) && Tight(f.r)
    ensures Deep(f) && Tight(f)
  {
    forall st: State | Value(f, AtEnd(st, true)) ensures Value(f, AtEnd(st, false)) {
      if Value(f.l, AtEnd(st, true)) { assert Value(f.l, AtEnd(st, false)); }
      if Value(f.r, AtEnd(st, true)) { assert Value(f.r, AtEnd(st, false)); }
    }
  }

  /** A trace whose stuttering word satisfies the guarded formula satisfies the original. */
  lemma WordGivesTrace(f: Formula, tr: Trace, w: W.Word)
    requires NoTail(f) && Stutters(w, tr) && 0 in W.WordPositions(Guarded(f), w)
    ensures Satisfiable(f)
  {
    var g, hi := Guarded(f), Reading(false, true, {});
    GuardedIsReady(f);
    SatStutters(g, g, w, tr, 0);
    SatMonotone(g, tr, 0, StutterReading(g, w, tr), hi);
    RemoveWNextMeaning(AddTail(Nnf(f)), tr, 0, hi);
    AddTailMeaning(Nnf(f), tr, 0, hi);
    NnfMeaning(f, tr, 0);
    SatIsHolds(f, tr, 0);
  }

  /** What the checker finds for the simplified formula is a trace of the original. */
  lemma SimplifiedFindsTrace(f: Formula, s: Formula)
    requires NoTail(f) && Simplification.Simplified(Guarded(f), s)
    requires s.True? || (!s.False? && !NoTrace(SplitNext(s), SplitNext(s)))
    ensures Satisfiable(f)
  {
    hide Satisfiable, Deep, Tight, Stutters, NoTrace;
    var g, h, hi, lo := Guarded(f), SplitNext(s), Reading(false, true, {}), Reading(false, false, {});
    NnfShape(f);
    GuardedIsDeep(Nnf(f));
    NarrowTight(g, s);
    SplitIsPrepared(s);
    var tr: Trace := [{}];
    if !s.True? { tr := FoundTrace(h); SplitNextMeaning(s, tr, 0, hi); }
    var w := Stuttering(tr);
    DeepReadsAlike(s, tr, 0);
    WordOfTrace(s, tr, w);
    assert W.WordPositions(g, w) == W.WordPositions(s, w);
    WordGivesTrace(f, tr, w);
  }

  lemma FoundTrace(h: Formula) returns (tr: Trace)
    requires !NoTrace(h, h) && Prepared(h) && NoLooseConstants(h)
    ensures tr != [] && Sat(h, tr, 0, Reading(false, true, {}))
  {
    var rd: Reading;
    tr, rd :| |tr| > 0 && Steps.Allowed(h, rd) && Sat(h, tr, 0, rd);
    LooseFalseIrrelevant(h, tr, 0, rd);
    SatMonotone(h, tr, 0, rd.(looseFalse := false), Reading(false, true, {}));
  }

  /** The verdict is exact. */
  method CheckSimplified(f: Formula) returns (res: bool)
    requires NoTail(f)
    ensures res <==> Satisfiable(f)
  {
    hide Satisfiable, Simplification.Simplified, Simplification.Ready, Simplification.Settled, Guarded, NoTrace, Prepared;
    GuardedIsReady(f);
    var simplifier := new Simplification.Simplifier();
    var s := simplifier.Simplify(Guarded(f));
    Simplification.SimplifiedParts(Guarded(f), s);
    SplitIsPrepared(s);
    var checker := new CarChecker(SplitNext(s));
    res := checker.Check();
    if Satisfiable(f) { SimplifiedHasTrace(f, s); }
    if res { SimplifiedFindsTrace(f, s); }
  }

  /** The laws for next need infinite words: on finite traces `X true` fails in the last
      state, and `X a R X b` differs from `X (a R b)`. */
  lemma LawsFailOnTraces()
    ensures Holds(True, [{}], 0) && !Holds(Next(True), [{}], 0)
    ensures var a, b := Atom(1), Atom(2);
            Holds(Next(Release(a, b)), [{}, {2}], 0) && !Holds(Release(Next(a), Next(b)), [{}, {2}], 0)
  {
    var a, b, tr := Atom(1), Atom(2), [{}, {2}];
    assert Positions(a, tr) == {} && Positions(b, tr) == {1};
    assert Positions(Next(a), tr) == {} && Positions(Next(b), tr) == {0};
    assert ReleaseAt({}, {1}, 2, 1);
    assert 1 in Positions(Release(a, b), tr);
    assert !ReleaseAt({}, {0}, 2, 0) by { assert 1 !in {0}; }
  }
}
