/** Traces as infinite words: the last state repeats forever. */
module Stutter {
  import opened Formulas
  import opened Encoding
  import W = Words

  /** The word repeats the last state of the trace, marked Tail, forever. */
  ghost predicate Stutters(w: W.Word, tr: Trace) {
    && tr != []
    && (forall i: nat :: 0 in w(i) <==> i + 1 >= |tr|)
    && (forall i: nat, p: nat :: p != 0 ==> (p in w(i) <==> p in tr[if i < |tr| then i else |tr| - 1]))
  }

  ghost function Stuttering(tr: Trace): (w: W.Word)
    requires tr != []
    ensures Stutters(w, tr)
  {
    (i: nat) => if i + 1 < |tr| then tr[i] - {0} else tr[|tr| - 1] + {0}
  }

  /** From m on, nothing changes. */
  ghost predicate Settles(G: iset<nat>, m: nat) { forall i: nat :: i >= m ==> (i in G <==> m in G) }

  lemma UntilSettles(G: iset<nat>, H: iset<nat>, m: nat)
    requires Settles(H, m)
    ensures Settles(W.UntilOf(G, H), m) && (m in W.UntilOf(G, H) <==> m in H)
  {
    forall i: nat | i >= m ensures i in W.UntilOf(G, H) <==> m in H {
      if k: nat :| i <= k && k in H && W.AllIn(G, i, k) { assert m in H; }
      if m in H { W.UntilStep(G, H, i); }
    }
  }

  lemma ReleaseSettles(G: iset<nat>, H: iset<nat>, m: nat)
    requires Settles(H, m)
    ensures Settles(W.ReleaseOf(G, H), m) && (m in W.ReleaseOf(G, H) <==> m in H)
  {
    forall i: nat | i >= m ensures i in W.ReleaseOf(G, H) <==> m in H {
      W.ReleaseStep(G, H, i);
      if m in H { assert W.Forever(G, H, i); }
    }
  }

  lemma {:induction false} WordSettles(f: Formula, w: W.Word, tr: Trace)
    requires Stutters(w, tr)
    ensures Settles(W.WordPositions(f, w), |tr| - 1)
  {
    match f
    case True | False | Atom(_) =>
    case Not(g) => WordSettles(g, w, tr);
    case Or(g, h) => WordSettles(g, w, tr); WordSettles(h, w, tr);
    case And(g, h) => WordSettles(g, w, tr); WordSettles(h, w, tr);
    case Next(g) => WordSettles(g, w, tr); NextSettles(W.WordPositions(g, w), |tr| - 1);
    case WNext(g) => WordSettles(g, w, tr); NextSettles(W.WordPositions(g, w), |tr| - 1);
    case Until(g, h) =>
      WordSettles(h, w, tr); UntilSettles(W.WordPositions(g, w), W.WordPositions(h, w), |tr| - 1);
    case Release(g, h) =>
      WordSettles(h, w, tr); ReleaseSettles(W.WordPositions(g, w), W.WordPositions(h, w), |tr| - 1);
  }

  lemma NextSettles(G: iset<nat>, m: nat)
    requires Settles(G, m)
    ensures Settles(W.NextOf(G), m) && (m in W.NextOf(G) <==> m in G)
  {
    forall i: nat | i >= m ensures i in W.NextOf(G) <==> m in G { assert W.NextIn(G, i) <==> i + 1 in G; }
  }

  /** What `X g` means in the last state of a trace that stutters: g itself. */
  ghost function StutterReading(root: Formula, w: W.Word, tr: Trace): Reading
    requires tr != []
  {
    Reading(false, false, set p | p in NextKeys(root) && |tr| - 1 in W.WordPositions(p, w))
  }

  /** The trace and the word agree on f at position i. */
  ghost predicate Match(f: Formula, w: W.Word, tr: Trace, i: nat, rd: Reading)
    requires i < |tr|
  {
    Sat(f, tr, i, rd) <==> i in W.WordPositions(f, w)
  }

  lemma MatchLeaf(f: Formula, w: W.Word, tr: Trace, i: nat, rd: Reading)
    requires Stutters(w, tr) && i < |tr| && !rd.looseFalse && (f.True? || f.False? || f.Atom?)
    ensures Match(f, w, tr, i, rd)
  {
  }

  lemma MatchBoolean(f: Formula, w: W.Word, tr: Trace, i: nat, rd: Reading)
    requires i < |tr| && (f.Not? || IsAndOr(f)) && Match(f.r, w, tr, i, rd) && (IsAndOr(f) ==> Match(f.l, w, tr, i, rd))
    ensures Match(f, w, tr, i, rd)
  {
  }

  lemma MatchNext(f: Formula, w: W.Word, tr: Trace, i: nat, rd: Reading)
    requires Stutters(w, tr) && i < |tr| && f.Next?
    requires rd.LastNext(f.r) <==> |tr| - 1 in W.WordPositions(f.r, w)
    requires i + 1 < |tr| ==> Match(f.r, w, tr, i + 1, rd)
    ensures Match(f, w, tr, i, rd)
  {
    hide Stutters;
    var G := W.WordPositions(f.r, w);
    WordSettles(f.r, w, tr);
    NextSettles(G, |tr| - 1);
    assert W.NextIn(G, i) <==> i in W.NextOf(G);
  }

  lemma MatchUntil(f: Formula, w: W.Word, tr: Trace, i: nat, rd: Reading)
    requires Stutters(w, tr) && i < |tr| && f.Until?
    requires (f.l.True? || Match(f.l, w, tr, i, rd)) && Match(f.r, w, tr, i, rd)
    requires i + 1 < |tr| ==> Match(f, w, tr, i + 1, rd)
    ensures Match(f, w, tr, i, rd)
  {
    hide Stutters;
    var G, H := W.WordPositions(f.l, w), W.WordPositions(f.r, w);
    W.UntilStep(G, H, i);
    WordSettles(f.r, w, tr);
    UntilSettles(G, H, |tr| - 1);
  }

  lemma MatchRelease(f: Formula, w: W.Word, tr: Trace, i: nat, rd: Reading)
    requires Stutters(w, tr) && i < |tr| && f.Release?
    requires (f.l.False? || Match(f.l, w, tr, i, rd)) && Match(f.r, w, tr, i, rd)
    requires i + 1 < |tr| ==> Match(f, w, tr, i + 1, rd)
    ensures Match(f, w, tr, i, rd)
  {
    hide Stutters;
    var G, H := W.WordPositions(f.l, w), W.WordPositions(f.r, w);
    W.ReleaseStep(G, H, i);
    WordSettles(f.r, w, tr);
    ReleaseSettles(G, H, |tr| - 1);
  }

  /** Under that reading a trace and its stuttering word satisfy the same formulas. */
  lemma {:induction false} SatStutters(root: Formula, f: Formula, w: W.Word, tr: Trace, i: nat)
    requires Stutters(w, tr) && i < |tr| && f in Sub(root) && NoWNext(f)
    ensures Match(f, w, tr, i, StutterReading(root, w, tr))
    decreases f, |tr| - i
  {
    hide Stutters, Match, Sub;
    var rd := StutterReading(root, w, tr);
    OperandsInSub(root, f);
    match f
    case True | False | Atom(_) => MatchLeaf(f, w, tr, i, rd);
    case Not(g) => SatStutters(root, g, w, tr, i); MatchBoolean(f, w, tr, i, rd);
    case Or(g, h) => SatStutters(root, g, w, tr, i); SatStutters(root, h, w, tr, i); MatchBoolean(f, w, tr, i, rd);
    case And(g, h) => SatStutters(root, g, w, tr, i); SatStutters(root, h, w, tr, i); MatchBoolean(f, w, tr, i, rd);
    case Next(g) =>
      if i + 1 < |tr| { SatStutters(root, g, w, tr, i + 1); }
      MatchNext(f, w, tr, i, rd);
    case Until(g, h) =>
      if !g.True? { SatStutters(root, g, w, tr, i); }
      SatStutters(root, h, w, tr, i);
      if i + 1 < |tr| { SatStutters(root, f, w, tr, i + 1); }
      MatchUntil(f, w, tr, i, rd);
    case Release(g, h) =>
      if !g.False? { SatStutters(root, g, w, tr, i); }
      SatStutters(root, h, w, tr, i);
      if i + 1 < |tr| { SatStutters(root, f, w, tr, i + 1); }
      MatchRelease(f, w, tr, i, rd);
  }

  lemma OperandsInSub(root: Formula, f: Formula)
    requires f in Sub(root)
    ensures forall g :: g in Operands(f) ==> g in Sub(root)
  {
    SubTransitive(root, f);
    forall g | g in Operands(f) ensures g in Sub(f) { assert g in Sub(g); }
  }

  /** A trace of a guarded formula satisfies it as a stuttering word. */
  lemma WordOfTrace(g: Formula, tr: Trace, w: W.Word)
    requires IsNnf(g) && NoWNext(g) && Stutters(w, tr) && Sat(g, tr, 0, Reading(false, false, {}))
    ensures 0 in W.WordPositions(g, w)
  {
    SatMonotone(g, tr, 0, Reading(false, false, {}), StutterReading(g, w, tr));
    SatStutters(g, g, w, tr, 0);
  }
}
