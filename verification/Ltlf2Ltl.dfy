/** The translation of formulas over finite traces to formulas over infinite words in
    which a finite trace is followed by Tail states forever. */
module Translation {
  import opened Formulas
  import opened ParsedFormulas
  import opened Words

  datatype Option<T> = Some(value: T) | None

  /** The positions of an infinite word where a parsed formula holds. */
  ghost function On(f: Parsed, w: Word): iset<nat> {
    match f
    case ETrue => All()
    case EFalse => iset{}
    case ELiteral(p) => iset i: nat | p in w(i)
    case ENot(g) => All() - On(g, w)
    case ENext(g) => NextOf(On(g, w))
    case EWNext(g) => NextOf(On(g, w))
    case EGlobally(g) => ReleaseOf(iset{}, On(g, w))
    case EFuture(g) => UntilOf(All(), On(g, w))
    case EUntil(g, h) => UntilOf(On(g, w), On(h, w))
    case EWUntil(g, h) => ReleaseOf(iset{}, On(g, w)) + UntilOf(On(g, w), On(h, w))
    case ERelease(g, h) => ReleaseOf(On(g, w), On(h, w))
    case EAnd(g, h) => On(g, w) * On(h, w)
    case EOr(g, h) => On(g, w) + On(h, w)
    case EImplies(g, h) => (All() - On(g, w)) + On(h, w)
    case EEquiv(g, h) => iset i: nat | i in On(g, w) <==> i in On(h, w)
  }

  const TAIL_LITERAL := ELiteral(0)

  function Live(f: Parsed): Parsed { EAnd(ENot(TAIL_LITERAL), f) }

  function Over(f: Parsed): Parsed { EOr(TAIL_LITERAL, f) }

  /** The program stops with an error on a weak next or a weak until. */
  function Translate(f: Parsed): Option<Parsed>
  {
    match f
    case ETrue | EFalse | ELiteral(_) => Some(f)
    case ENot(g) => var r := Translate(g); if r.None? then None else Some(ENot(r.value))
    case ENext(g) => var r := Translate(g); if r.None? then None else Some(ENext(Live(r.value)))
    case EFuture(g) => var r := Translate(g); if r.None? then None else Some(EFuture(Live(r.value)))
    case EGlobally(g) => var r := Translate(g); if r.None? then None else Some(EGlobally(Over(r.value)))
    case EUntil(g, h) =>
      var l, r := Translate(g), Translate(h);
      if l.None? || r.None? then None else Some(EUntil(l.value, Live(r.value)))
    case ERelease(g, h) =>
      var l, r := Translate(g), Translate(h);
      if l.None? || r.None? then None else Some(ERelease(l.value, Over(r.value)))
    case EAnd(g, h) =>
      var l, r := Translate(g), Translate(h); if l.None? || r.None? then None else Some(EAnd(l.value, r.value))
    case EOr(g, h) =>
      var l, r := Translate(g), Translate(h); if l.None? || r.None? then None else Some(EOr(l.value, r.value))
    case EImplies(g, h) =>
      var l, r := Translate(g), Translate(h); if l.None? || r.None? then None else Some(EImplies(l.value, r.value))
    case EEquiv(g, h) =>
      var l, r := Translate(g), Translate(h); if l.None? || r.None? then None else Some(EEquiv(l.value, r.value))
    case EWNext(_) | EWUntil(_, _) => None
  }

  /** What main appends: Tail is false first, and once true it stays true. */
  function TailConstraint(): Parsed {
    EAnd(ENot(TAIL_LITERAL), EUntil(ENot(TAIL_LITERAL), EGlobally(TAIL_LITERAL)))
  }

  /** The operators that the translation does not know. */
  predicate HasWeak(f: Parsed) {
    match f
    case ETrue | EFalse | ELiteral(_) => false
    case EWNext(_) | EWUntil(_, _) => true
    case ENot(g) => HasWeak(g)
    case ENext(g) => HasWeak(g)
    case EGlobally(g) => HasWeak(g)
    case EFuture(g) => HasWeak(g)
    case EUntil(g, h) => HasWeak(g) || HasWeak(h)
    case ERelease(g, h) => HasWeak(g) || HasWeak(h)
    case EAnd(g, h) => HasWeak(g) || HasWeak(h)
    case EOr(g, h) => HasWeak(g) || HasWeak(h)
    case EImplies(g, h) => HasWeak(g) || HasWeak(h)
    case EEquiv(g, h) => HasWeak(g) || HasWeak(h)
  }

  lemma {:induction false} TranslateFails(f: Parsed)
    ensures Translate(f).None? <==> HasWeak(f)
  {
    match f
    case ETrue | EFalse | ELiteral(_) | EWNext(_) | EWUntil(_, _) =>
    case ENot(g) => TranslateFails(g);
    case ENext(g) => TranslateFails(g);
    case EGlobally(g) => TranslateFails(g);
    case EFuture(g) => TranslateFails(g);
    case EUntil(g, h) => TranslateFails(g); TranslateFails(h);
    case ERelease(g, h) => TranslateFails(g); TranslateFails(h);
    case EAnd(g, h) => TranslateFails(g); TranslateFails(h);
    case EOr(g, h) => TranslateFails(g); TranslateFails(h);
    case EImplies(g, h) => TranslateFails(g); TranslateFails(h);
    case EEquiv(g, h) => TranslateFails(g); TranslateFails(h);
  }

  /** The word is the trace, without Tail, followed by Tail forever. */
  ghost predicate Extends(w: Word, tr: Trace) {
    && (forall i: nat :: 0 in w(i) <==> i >= |tr|)
    && (forall i: nat, p: nat :: i < |tr| && p != 0 ==> (p in w(i) <==> p in tr[i]))
  }

  /** The two sets have the same positions below n. */
  ghost predicate Same(G: iset<nat>, S: set<nat>, n: nat) { forall i: nat :: i < n ==> (i in G <==> i in S) }

  lemma LiveOver(g: Parsed, f: Parsed, w: Word, tr: Trace)
    requires Extends(w, tr)
    ensures forall i: nat :: i in On(Live(g), w) <==> i < |tr| && i in On(g, w)
    ensures forall i: nat :: i in On(Over(g), w) <==> i >= |tr| || i in On(g, w)
  {
    assert forall i: nat :: i in On(ENot(TAIL_LITERAL), w) <==> i < |tr|;
  }

  lemma UntilCut(G: iset<nat>, H: iset<nat>, L: iset<nat>, S: set<nat>, T: set<nat>, n: nat, i: nat)
    requires i < n && Same(G, S, n) && Same(H, T, n) && forall k: nat :: k in L <==> k < n && k in H
    ensures Eventually(G, L, i) <==> UntilAt(S, T, n, i)
  {
    if Eventually(G, L, i) {
      var k: nat :| i <= k && k in L && AllIn(G, i, k);
      assert k in T && forall j: nat :: i <= j < k ==> j in S;
    }
    if UntilAt(S, T, n, i) {
      var k: nat :| i <= k < n && k in T && forall j: nat :: i <= j < k ==> j in S;
      assert k in L && AllIn(G, i, k);
    }
  }

  lemma ReleaseCut(G: iset<nat>, H: iset<nat>, O: iset<nat>, S: set<nat>, T: set<nat>, n: nat, i: nat)
    requires i < n && Same(G, S, n) && Same(H, T, n) && forall k: nat :: k in O <==> k >= n || k in H
    ensures Forever(G, O, i) <==> ReleaseAt(S, T, n, i)
  {
    forall k: nat | i <= k < n
      ensures (k in O || SomeIn(G, i, k)) <==> (k in T || exists j: nat :: i <= j < k && j in S)
    {
      if SomeIn(G, i, k) {
        var j: nat :| i <= j < k && j in G;
        assert j in S;
      }
      if j: nat :| i <= j < k && j in S {
        assert j in G;
      }
    }
  }

  /** The translation holds on the extended word where the formula holds on the trace. */
  ghost predicate Agrees(g: Parsed, f: Parsed, w: Word, tr: Trace) { Same(On(g, w), Where(f, tr), |tr|) }

  lemma AgreesUntil(gl: Parsed, gr: Parsed, l: Parsed, r: Parsed, w: Word, tr: Trace)
    requires Extends(w, tr) && Agrees(gl, l, w, tr) && Agrees(gr, r, w, tr)
    ensures Agrees(EUntil(gl, Live(gr)), EUntil(l, r), w, tr)
  {
    hide UntilAt, Eventually, Extends;
    LiveOver(gr, r, w, tr);
    forall i: nat | i < |tr|
      ensures i in On(EUntil(gl, Live(gr)), w) <==> i in Where(EUntil(l, r), tr)
    {
      UntilCut(On(gl, w), On(gr, w), On(Live(gr), w), Where(l, tr), Where(r, tr), |tr|, i);
    }
  }

  lemma AgreesRelease(gl: Parsed, gr: Parsed, l: Parsed, r: Parsed, w: Word, tr: Trace)
    requires Extends(w, tr) && Agrees(gl, l, w, tr) && Agrees(gr, r, w, tr)
    ensures Agrees(ERelease(gl, Over(gr)), ERelease(l, r), w, tr)
  {
    hide ReleaseAt, Forever, Extends;
    LiveOver(gr, r, w, tr);
    forall i: nat | i < |tr|
      ensures i in On(ERelease(gl, Over(gr)), w) <==> i in Where(ERelease(l, r), tr)
    {
      ReleaseCut(On(gl, w), On(gr, w), On(Over(gr), w), Where(l, tr), Where(r, tr), |tr|, i);
    }
  }

  lemma AgreesFuture(g: Parsed, f: Parsed, w: Word, tr: Trace)
    requires Extends(w, tr) && Agrees(g, f, w, tr)
    ensures Agrees(EFuture(Live(g)), EFuture(f), w, tr)
  {
    AgreesUntil(ETrue, g, ETrue, f, w, tr);
    assert On(EFuture(Live(g)), w) == On(EUntil(ETrue, Live(g)), w);
    assert Where(EFuture(f), tr) == Where(EUntil(ETrue, f), tr);
  }

  lemma AgreesGlobally(g: Parsed, f: Parsed, w: Word, tr: Trace)
    requires Extends(w, tr) && Agrees(g, f, w, tr)
    ensures Agrees(EGlobally(Over(g)), EGlobally(f), w, tr)
  {
    AgreesRelease(EFalse, g, EFalse, f, w, tr);
    assert On(EGlobally(Over(g)), w) == On(ERelease(EFalse, Over(g)), w);
    assert Where(EGlobally(f), tr) == Where(ERelease(EFalse, f), tr);
  }

  lemma AgreesNext(g: Parsed, f: Parsed, w: Word, tr: Trace)
    requires Extends(w, tr) && Agrees(g, f, w, tr)
    ensures Agrees(ENext(Live(g)), ENext(f), w, tr)
  {
    LiveOver(g, f, w, tr);
  }

  lemma AgreesBoolean(gl: Parsed, gr: Parsed, l: Parsed, r: Parsed, w: Word, tr: Trace)
    requires Agrees(gl, l, w, tr) && Agrees(gr, r, w, tr)
    ensures Agrees(EAnd(gl, gr), EAnd(l, r), w, tr) && Agrees(EOr(gl, gr), EOr(l, r), w, tr)
  {
  }

  lemma AgreesNot(g: Parsed, f: Parsed, w: Word, tr: Trace)
    requires Agrees(g, f, w, tr)
    ensures Agrees(ENot(g), ENot(f), w, tr)
  {
  }

  lemma AgreesImplies(gl: Parsed, gr: Parsed, l: Parsed, r: Parsed, w: Word, tr: Trace)
    requires Agrees(gl, l, w, tr) && Agrees(gr, r, w, tr)
    ensures Agrees(EImplies(gl, gr), EImplies(l, r), w, tr) && Agrees(EEquiv(gl, gr), EEquiv(l, r), w, tr)
  {
  }

  lemma {:induction false} TranslationAgrees(f: Parsed, w: Word, tr: Trace)
    requires Unreserved(f) && Translate(f).Some? && Extends(w, tr)
    ensures Agrees(Translate(f).value, f, w, tr)
  {
    hide Agrees;
    match f
    case ETrue | EFalse | ELiteral(_) => AgreesLeaf(f, w, tr);
    case ENot(g) => TranslationAgrees(g, w, tr); AgreesNot(Translate(g).value, g, w, tr);
    case ENext(g) => TranslationAgrees(g, w, tr); AgreesNext(Translate(g).value, g, w, tr);
    case EFuture(g) => TranslationAgrees(g, w, tr); AgreesFuture(Translate(g).value, g, w, tr);
    case EGlobally(g) => TranslationAgrees(g, w, tr); AgreesGlobally(Translate(g).value, g, w, tr);
    case EUntil(g, h) =>
      TranslationAgrees(g, w, tr); TranslationAgrees(h, w, tr);
      AgreesUntil(Translate(g).value, Translate(h).value, g, h, w, tr);
    case ERelease(g, h) =>
      TranslationAgrees(g, w, tr); TranslationAgrees(h, w, tr);
      AgreesRelease(Translate(g).value, Translate(h).value, g, h, w, tr);
    case EAnd(g, h) =>
      TranslationAgrees(g, w, tr); TranslationAgrees(h, w, tr);
      AgreesBoolean(Translate(g).value, Translate(h).value, g, h, w, tr);
    case EOr(g, h) =>
      TranslationAgrees(g, w, tr); TranslationAgrees(h, w, tr);
      AgreesBoolean(Translate(g).value, Translate(h).value, g, h, w, tr);
    case EImplies(g, h) =>
      TranslationAgrees(g, w, tr); TranslationAgrees(h, w, tr);
      AgreesImplies(Translate(g).value, Translate(h).value, g, h, w, tr);
    case EEquiv(g, h) =>
      TranslationAgrees(g, w, tr); TranslationAgrees(h, w, tr);
      AgreesImplies(Translate(g).value, Translate(h).value, g, h, w, tr);
  }

  lemma AgreesLeaf(f: Parsed, w: Word, tr: Trace)
    requires Unreserved(f) && Extends(w, tr) && (f.ETrue? || f.EFalse? || f.ELiteral?)
    ensures Agrees(f, f, w, tr)
  {
  }

  // --------------------------------------------------------- the Tail constraint

  /** The word of a trace. */
  ghost function Extension(tr: Trace): (w: Word)
    ensures Extends(w, tr)
  {
    (i: nat) => if i < |tr| then tr[i] - {0} else {0}
  }

  /** The constraint holds exactly on the words that extend a non-empty trace. */
  lemma TailConstraintMeans(w: Word)
    ensures 0 in On(TailConstraint(), w) <==> exists tr: Trace :: tr != [] && Extends(w, tr)
  {
    var Tail, Not, Stays := On(TAIL_LITERAL, w), On(ENot(TAIL_LITERAL), w), On(EGlobally(TAIL_LITERAL), w);
    if 0 in On(TailConstraint(), w) {
      var n: nat :| 0 <= n && n in Stays && AllIn(Not, 0, n);
      var tr := seq(n, i requires 0 <= i => w(i));
      forall i: nat ensures 0 in w(i) <==> i >= n {
        if i >= n { assert i in Tail || SomeIn(iset{}, n, i); } else { assert i in Not; }
      }
      assert Extends(w, tr) && tr != [];
    }
    if tr: Trace :| tr != [] && Extends(w, tr) {
      var n: nat := |tr|;
      assert n in Stays by {
        forall k: nat | n <= k ensures k in Tail || SomeIn(iset{}, n, k) { assert 0 in w(k); }
      }
      assert AllIn(Not, 0, n);
      assert Eventually(Not, Stays, 0);
    }
  }

  /** A formula has a finite trace exactly if its translation, with the constraint, has
      an infinite word. */
  lemma TranslationSatisfiable(f: Parsed)
    requires Unreserved(f) && !HasWeak(f)
    ensures Translate(f).Some?
    ensures HasTrace(f) <==> exists w: Word :: 0 in On(EAnd(Translate(f).value, TailConstraint()), w)
  {
    hide On, Where, Translate, HasWeak, Unreserved, Extends;
    TranslateFails(f);
    var g := Translate(f).value;
    if HasTrace(f) {
      var tr: Trace :| 0 in Where(f, tr);
      var w := Extension(tr);
      TranslationAgrees(f, w, tr);
      TailConstraintMeans(w);
      OnAnd(g, TailConstraint(), w);
    }
    if w: Word :| 0 in On(EAnd(g, TailConstraint()), w) {
      OnAnd(g, TailConstraint(), w);
      TailConstraintMeans(w);
      var tr: Trace :| tr != [] && Extends(w, tr);
      TranslationAgrees(f, w, tr);
    }
  }

  lemma OnAnd(g: Parsed, h: Parsed, w: Word)
    ensures On(EAnd(g, h), w) == On(g, w) * On(h, w)
  {
  }
}
