/** What a formula says where a trace ends, as far as that depends on the reading of the
    nexts there, and what a simplification must keep of it. */
module Ends {
  import opened Formulas
  import opened Words
  import opened Stutter

  /** A place to look at formulas: a position of a word, or the end of a trace, where all
      nexts are false or all are true. */
  datatype View = OnWord(w: Word, i: nat) | AtEnd(st: State, next: bool)

  ghost predicate Value(f: Formula, v: View) {
    match v
    case OnWord(w, i) => i in WordPositions(f, w)
    case AtEnd(st, next) => Sat(f, [st], 0, Reading(false, next, {}))
  }

  /** At the end of a trace nexts do not matter. */
  ghost predicate Tight(f: Formula) {
    forall st: State :: Value(f, AtEnd(st, true)) ==> Value(f, AtEnd(st, false))
  }

  /** The same for every operand of a temporal operator. */
  ghost predicate Deep(f: Formula) {
    match f
    case True | False | Atom(_) | Not(_) => true
    case Or(g, h) => Deep(g) && Deep(h)
    case And(g, h) => Deep(g) && Deep(h)
    case Next(g) => Tight(g) && Deep(g)
    case WNext(g) => Tight(g) && Deep(g)
    case Until(g, h) => Tight(g) && Tight(h) && Deep(g) && Deep(h)
    case Release(g, h) => Tight(g) && Tight(h) && Deep(g) && Deep(h)
  }

  /** The second formula depends no more on nexts at the end than the first. */
  ghost predicate Narrows(f: Formula, g: Formula) {
    && (forall st: State :: Value(f, AtEnd(st, false)) ==> Value(g, AtEnd(st, false)))
    && (forall st: State :: Value(g, AtEnd(st, true)) ==> Value(f, AtEnd(st, true)))
  }

  /** The second formula may replace the first: it means the same on words, and depends no
      more on nexts at the end of a trace. */
  ghost predicate Becomes(f: Formula, g: Formula) {
    Equal(f, g) && (Deep(f) ==> Deep(g) && Narrows(f, g))
  }

  /** Wherever the first formula holds, the second does. */
  ghost predicate Entails(f: Formula, g: Formula) { forall v: View :: Value(f, v) ==> Value(g, v) }

  lemma EntailsOnWords(f: Formula, g: Formula)
    requires Entails(f, g)
    ensures Implies(f, g)
  {
    forall w: Word, i: nat | i in WordPositions(f, w) ensures i in WordPositions(g, w) {
      assert Value(f, OnWord(w, i)) && Value(g, OnWord(w, i));
    }
  }

  lemma BecomesSelf(f: Formula)
    ensures Becomes(f, f)
  {
  }

  lemma BecomesTrans(f: Formula, g: Formula, h: Formula)
    requires Becomes(f, g) && Becomes(g, h)
    ensures Becomes(f, h)
  {
    hide Deep, Equal, Narrows;
    EqualTrans(f, g, h);
    if Deep(f) { NarrowsTrans(f, g, h); }
  }

  lemma EqualTrans(f: Formula, g: Formula, h: Formula)
    requires Equal(f, g) && Equal(g, h)
    ensures Equal(f, h)
  {
  }

  lemma NarrowsTrans(f: Formula, g: Formula, h: Formula)
    requires Narrows(f, g) && Narrows(g, h)
    ensures Narrows(f, h)
  {
    hide Value;
  }

  /** A view in which a replacement must hold wherever the formula does. */
  ghost predicate Upward(v: View) { v.AtEnd? ==> !v.next }

  /** A view in which a replacement may hold only where the formula does. */
  ghost predicate Downward(v: View) { v.AtEnd? ==> v.next }

  lemma NarrowTight(f: Formula, g: Formula)
    requires Tight(f) && Narrows(f, g)
    ensures Tight(g)
  {
  }

  /** A next is not tight. */
  lemma NextIsLoose(f: Formula)
    requires f.Next?
    ensures !Tight(f)
  {
    assert Value(f, AtEnd({}, true)) && !Value(f, AtEnd({}, false));
  }

  /** Until and release are their right operand at the end. */
  lemma TemporalAtEnd(f: Formula, st: State, next: bool)
    requires f.Until? || f.Release?
    ensures Value(f, AtEnd(st, next)) == Value(f.r, AtEnd(st, next))
  {
  }

  lemma Congruent(f: Formula, g: Formula)
    requires (f.Until? && g.Until?) || (f.Release? && g.Release?)
    requires Equal(f.l, g.l) && Equal(f.r, g.r)
    ensures Equal(f, g)
  {
  }

  lemma BecomesTemporal(f: Formula, g: Formula)
    requires (f.Until? && g.Until?) || (f.Release? && g.Release?)
    requires Becomes(f.l, g.l) && Becomes(f.r, g.r)
    ensures Becomes(f, g)
  {
    assert Equal(f, g) by { Congruent(f, g); }
    hide Equal, Value;
    if Deep(f) {
      NarrowTight(f.l, g.l);
      NarrowTight(f.r, g.r);
      forall st: State, next: bool ensures Value(f, AtEnd(st, next)) == Value(f.r, AtEnd(st, next)) {
        TemporalAtEnd(f, st, next);
      }
      forall st: State, next: bool ensures Value(g, AtEnd(st, next)) == Value(g.r, AtEnd(st, next)) {
        TemporalAtEnd(g, st, next);
      }
    }
  }

  lemma BecomesNext(f: Formula, g: Formula)
    requires Becomes(f, g)
    ensures Becomes(Next(f), Next(g))
  {
    forall w: Word ensures WordPositions(Next(f), w) == WordPositions(Next(g), w) {
      assert WordPositions(f, w) == WordPositions(g, w);
    }
    if Deep(Next(f)) { NarrowTight(f, g); }
  }

  lemma NextBecomesConst(f: Formula, g: Formula)
    requires Becomes(f, g) && (g.True? || g.False?)
    ensures Becomes(Next(f), g)
  {
    forall w: Word ensures WordPositions(Next(f), w) == WordPositions(g, w) {
      assert NextOf(All()) == All() && NextOf(iset{}) == iset{};
    }
  }

  /** What holds at the end when all nexts are false holds on the word that repeats the end. */
  lemma EndOnWord(f: Formula, st: State)
    requires IsNnf(f) && NoWNext(f) && Value(f, AtEnd(st, false))
    ensures Value(f, OnWord(Stuttering([st]), 0))
  {
    WordOfTrace(f, [st], Stuttering([st]));
  }

  // ------------------------------------------------------- readings of whole traces

  /** The last state of a trace alone decides what holds there. */
  lemma {:induction false} LastAlone(f: Formula, tr: Trace, i: nat, rd: Reading)
    requires i + 1 == |tr|
    ensures Sat(f, tr, i, rd) == Sat(f, [tr[i]], 0, rd)
  {
    match f
    case True | False | Atom(_) =>
    case Not(g) => LastAlone(g, tr, i, rd);
    case Next(_) =>
    case WNext(_) =>
    case Or(g, h) => LastAlone(g, tr, i, rd); LastAlone(h, tr, i, rd);
    case And(g, h) => LastAlone(g, tr, i, rd); LastAlone(h, tr, i, rd);
    case Until(g, h) => LastAlone(h, tr, i, rd);
    case Release(g, h) => LastAlone(h, tr, i, rd);
  }

  lemma TightAtLast(f: Formula, tr: Trace, i: nat)
    requires i + 1 == |tr| && Tight(f) && Sat(f, tr, i, Reading(false, true, {}))
    ensures Sat(f, tr, i, Reading(false, false, {}))
  {
    LastAlone(f, tr, i, Reading(false, true, {}));
    LastAlone(f, tr, i, Reading(false, false, {}));
    assert Value(f, AtEnd(tr[i], true));
  }

  /** All readings of nexts at the end of a trace agree. */
  lemma {:induction false} DeepReadsAlike(f: Formula, tr: Trace, i: nat)
    requires i < |tr| && Deep(f) && IsNnf(f) && (i + 1 == |tr| ==> Tight(f))
    requires Sat(f, tr, i, Reading(false, true, {}))
    ensures Sat(f, tr, i, Reading(false, false, {}))
    decreases f, |tr| - i
  {
    hide Tight;
    var hi := Reading(false, true, {});
    if i + 1 == |tr| { TightAtLast(f, tr, i); return; }
    match f
    case True | False | Atom(_) | Not(_) =>
    case Or(g, h) => if Sat(g, tr, i, hi) { DeepReadsAlike(g, tr, i); } else { DeepReadsAlike(h, tr, i); }
    case And(g, h) => DeepReadsAlike(g, tr, i); DeepReadsAlike(h, tr, i);
    case Next(g) => DeepReadsAlike(g, tr, i + 1);
    case WNext(g) => DeepReadsAlike(g, tr, i + 1);
    case Until(g, h) =>
      TightTemporal(f);
      if Sat(h, tr, i, hi) { DeepReadsAlike(h, tr, i); }
      else {
        if !g.True? { DeepReadsAlike(g, tr, i); }
        DeepReadsAlike(f, tr, i + 1);
      }
    case Release(g, h) =>
      TightTemporal(f);
      DeepReadsAlike(h, tr, i);
      if !g.False? && Sat(g, tr, i, hi) { DeepReadsAlike(g, tr, i); }
      else { DeepReadsAlike(f, tr, i + 1); }
  }

  lemma TightTemporal(f: Formula)
    requires (f.Until? || f.Release?) && Tight(f.r)
    ensures Tight(f)
  {
    forall st: State | Value(f, AtEnd(st, true)) ensures Value(f, AtEnd(st, false)) {
      TemporalAtEnd(f, st, true);
      TemporalAtEnd(f, st, false);
    }
  }
}
