/** The form in which the simplifier leaves formulas: none of its laws applies any more. */
module NormalForms {
  import opened Formulas
  import opened Conflicts

  // -------------------------------------------------- conjunctions and disjunctions

  datatype Op = Conj | Disj

  predicate Is(op: Op, f: Formula) { if op.Conj? then f.And? else f.Or? }

  function Make(op: Op, l: Formula, r: Formula): Formula { if op.Conj? then And(l, r) else Or(l, r) }

  /** The right-nested formula that is built from a list. */
  function Chain(op: Op, fs: seq<Formula>): Formula
    requires fs != []
  {
    if |fs| == 1 then fs[0] else Make(op, fs[0], Chain(op, fs[1..]))
  }

  /** The operands on the right spine. */
  function Spine(op: Op, f: Formula): (fs: seq<Formula>)
    ensures fs != []
  {
    match f
    case And(l, r) => if op.Conj? then [l] + Spine(op, r) else [f]
    case Or(l, r) => if op.Disj? then [l] + Spine(op, r) else [f]
    case _ => [f]
  }

  // ------------------------------------------------------------------------ the laws

  /** An operand of the form that `contain (All, op, g)` looks for. */
  predicate HasPart(op: Op, f: Formula, g: Formula) {
    if Is(op, f) then HasPart(op, f.l, g) || HasPart(op, f.r, g) else f == g
  }

  /** A disjunct `b U g`. */
  predicate HasUntilPart(f: Formula, g: Formula) {
    if f.Or? then HasUntilPart(f.l, g) || HasUntilPart(f.r, g) else f.Until? && f.r == g
  }

  /** The cases in which `l U r` is r. */
  predicate UntilGivesRight(l: Formula, r: Formula) {
    || l.False? || r.False? || r.True?
    || HasPart(Disj, r, l)
    || (r.Until? && r.l == l)
    || (r.Until? && r.r == l)
    || (r.Release? && r.r == l)
    || (l.Release? && l.r == r)
  }

  /** The other cases in which `l U r` is rewritten. */
  predicate UntilGivesOther(l: Formula, r: Formula) {
    || (l.Until? && (l.l == r || l.r == r))
    || (l.Next? && (l.r == r || r.Next?))
  }

  /** The cases in which `l R r` is r. */
  predicate ReleaseGivesRight(l: Formula, r: Formula) {
    || l.True? || r.False? || r.True?
    || HasPart(Conj, r, l)
    || HasPart(Disj, l, r)
    || (r.Release? && r.l == l)
    || (r.Release? && r.r == l)
    || (r.Until? && r.r == l)
    || HasUntilPart(l, r)
  }

  /** The other cases in which `l R r` is rewritten. */
  predicate ReleaseGivesOther(l: Formula, r: Formula) {
    || (l.Release? && (l.l == r || l.r == r))
    || (l.Next? && r.Next?)
    || l == Not(r) || r == Not(l)
  }

  /** `b R a` is dropped next to a, and a is dropped next to `b U a`. */
  predicate Dropped(f: Formula, s1: set<Formula>, s2: set<Formula>) {
    (f.Release? && f.r in s1) || f in s2
  }

  function Bodies(fs: seq<Formula>): set<Formula> { set f | f in fs && f.Until? :: f.r }

  function Members(fs: seq<Formula>): set<Formula> { set f | f in fs }

  // ------------------------------------------------- operands that may stand together

  /** Reported as conflicting, in either order. */
  ghost predicate Clashing(f: Formula, g: Formula) { IsConflict(f, g) && IsConflict(g, f) }

  ghost predicate Cross(fs: seq<Formula>, gs: seq<Formula>) {
    forall f, g :: f in fs && g in gs ==> !Clashing(f, g)
  }

  /** No two of the formulas conflict. */
  ghost predicate Free(fs: seq<Formula>) { fs == [] || (Cross([fs[0]], fs[1..]) && Free(fs[1..])) }

  lemma CrossSwap(fs: seq<Formula>, gs: seq<Formula>)
    ensures Cross(fs, gs) <==> Cross(gs, fs)
  {
    assert forall f, g :: Clashing(f, g) <==> Clashing(g, f);
  }

  lemma CrossSum(fs: seq<Formula>, gs: seq<Formula>, hs: seq<Formula>)
    ensures Cross(fs + gs, hs) <==> Cross(fs, hs) && Cross(gs, hs)
    ensures Cross(hs, fs + gs) <==> Cross(hs, fs) && Cross(hs, gs)
  {
    hide Clashing;
    assert forall f :: f in fs + gs <==> f in fs || f in gs;
  }

  lemma {:induction false} FreeSum(fs: seq<Formula>, gs: seq<Formula>)
    ensures Free(fs + gs) <==> Free(fs) && Free(gs) && Cross(fs, gs)
  {
    hide Cross;
    if fs == [] {
      assert fs + gs == gs;
      CrossNone(gs);
    } else {
      var x, rest := [fs[0]], fs[1..];
      FreeSum(rest, gs);
      assert fs == x + rest && (fs + gs)[1..] == rest + gs && (fs + gs)[0] == fs[0];
      CrossSum(x, rest, gs);
      CrossSum(rest, gs, x);
    }
  }

  lemma CrossNone(fs: seq<Formula>)
    ensures Cross([], fs) && Cross(fs, [])
  {
  }

  /** Two neighbouring stretches may be exchanged. */
  lemma FreeSwap(fs: seq<Formula>, gs: seq<Formula>, hs: seq<Formula>)
    requires Free(fs + gs + hs)
    ensures Free(fs + hs + gs)
  {
    hide Free, Cross;
    FreeSum(fs + gs, hs);
    FreeSum(fs, gs);
    FreeSum(fs + hs, gs);
    FreeSum(fs, hs);
    CrossSum(fs, gs, hs);
    CrossSum(fs, hs, gs);
    CrossSwap(gs, hs);
  }

  /** A stretch may be left out. */
  lemma FreeDrop(fs: seq<Formula>, gs: seq<Formula>, hs: seq<Formula>)
    requires Free(fs + gs + hs)
    ensures Free(fs + hs)
  {
    hide Free, Cross;
    FreeSum(fs + gs, hs);
    FreeSum(fs, gs);
    FreeSum(fs, hs);
    CrossSum(fs, gs, hs);
  }

  lemma {:induction false} FreeIf(fs: seq<Formula>)
    requires forall i, j :: 0 <= i < j < |fs| ==> !IsConflict(fs[i], fs[j])
    ensures Free(fs)
  {
    hide IsConflict;
    if fs != [] {
      FreeIf(fs[1..]);
      forall g | g in fs[1..] ensures !Clashing(fs[0], g) {
        var j :| 0 <= j < |fs[1..]| && fs[1..][j] == g;
        assert fs[j + 1] == g;
      }
    }
  }

  /** The formula is a disjunct, or a disjunct of the body of a disjunct `b U ...`. */
  ghost predicate Has(fs: seq<Formula>, x: Formula) { x in fs || exists u :: u in fs && InBody(u, x) }

  ghost predicate InBody(u: Formula, x: Formula) { u.Until? && x in Spine(Disj, u.r) }

  /** Some atom and its negation are among those. */
  ghost predicate Complementary(fs: seq<Formula>) { exists a: nat :: Has(fs, Atom(a)) && Has(fs, Not(Atom(a))) }

  /** Disjuncts each once, none absorbed by the others, and none complementary. */
  ghost predicate Compatible(fs: seq<Formula>) {
    && (forall i, j :: 0 <= i < j < |fs| ==> fs[i] != fs[j])
    && (forall f :: f in fs ==> !Dropped(f, Members(fs), Bodies(fs)))
    && !Complementary(fs)
  }

  lemma CompatibleLess(fs: seq<Formula>, gs: seq<Formula>)
    requires !Complementary(fs) && (forall g :: g in gs ==> g in fs && !Dropped(g, Members(fs), Bodies(fs)))
    requires forall i, j :: 0 <= i < j < |gs| ==> gs[i] != gs[j]
    ensures Compatible(gs)
  {
    forall x ensures Has(gs, x) ==> Has(fs, x) {
      if x !in gs && Has(gs, x) {
        var u :| u in gs && InBody(u, x);
        assert u in fs;
      }
    }
    assert Members(gs) <= Members(fs) && Bodies(gs) <= Bodies(fs);
  }

  ghost predicate Fits(op: Op, fs: seq<Formula>) { if op.Conj? then Free(fs) else Compatible(fs) }

  lemma FitsTail(op: Op, fs: seq<Formula>)
    requires fs != [] && Fits(op, fs)
    ensures Fits(op, fs[1..])
  {
    if op.Disj? { CompatibleLess(fs, fs[1..]); }
  }

  // ------------------------------------------------------------------ normal formulas

  /** No law of the simplifier applies, here or below: no two conjuncts of a chain conflict,
      no disjunct is absorbed or met by its complement, and no next, until or release is one
      that is rewritten. */
  ghost predicate Normal(f: Formula) {
    match f
    case Next(g) => !g.True? && !g.False? && Normal(g)
    case And(l, r) => !l.And? && Normal(l) && Normal(r) && Free([l] + Spine(Conj, r))
    case Or(l, r) => !l.Or? && Normal(l) && Normal(r) && Compatible([l] + Spine(Disj, r))
    case Until(l, r) => Normal(l) && Normal(r) && !UntilGivesRight(l, r) && !UntilGivesOther(l, r)
    case Release(l, r) => Normal(l) && Normal(r) && !ReleaseGivesRight(l, r) && !ReleaseGivesOther(l, r)
    case _ => true
  }

  lemma NormalConstants()
    ensures Normal(True) && Normal(False)
  {
  }

  lemma SpineFree(f: Formula)
    requires Normal(f)
    ensures Free(Spine(Conj, f))
  {
    if !f.And? {
      CrossNone([f]);
      assert [f][1..] == [];
    }
  }

  /** The operands of the chain that the list makes. */
  ghost function Spread(op: Op, fs: seq<Formula>): seq<Formula>
    requires fs != []
  {
    fs[..|fs| - 1] + Spine(op, fs[|fs| - 1])
  }

  /** Normal formulas that may be joined as they stand; the last may be a chain. */
  ghost predicate Neat(op: Op, fs: seq<Formula>) {
    && fs != [] && (forall f :: f in fs ==> Normal(f))
    && (forall i :: 0 <= i < |fs| - 1 ==> !Is(op, fs[i]))
    && Fits(op, Spread(op, fs))
  }

  lemma NeatTail(op: Op, fs: seq<Formula>)
    requires |fs| > 1 && Neat(op, fs)
    ensures Neat(op, fs[1..]) && Spread(op, fs) == [fs[0]] + Spread(op, fs[1..])
  {
    hide Normal, Fits;
    assert fs[..|fs| - 1] == [fs[0]] + fs[1..][..|fs| - 2];
    assert Spread(op, fs) == [fs[0]] + Spread(op, fs[1..]);
    FitsTail(op, Spread(op, fs));
    assert Spread(op, fs)[1..] == Spread(op, fs[1..]);
  }

  lemma {:induction false} NeatFrom(op: Op, fs: seq<Formula>, n: nat)
    requires n < |fs| && Neat(op, fs)
    ensures Neat(op, fs[n..])
  {
    hide Neat;
    if n > 0 {
      NeatTail(op, fs);
      NeatFrom(op, fs[1..], n - 1);
      assert fs[1..][n - 1..] == fs[n..];
    } else {
      assert fs[0..] == fs;
    }
  }

  /** A list without chains. */
  lemma NeatList(op: Op, fs: seq<Formula>)
    requires fs != [] && (forall f :: f in fs ==> Normal(f) && !Is(op, f)) && Fits(op, fs)
    ensures Neat(op, fs)
  {
    hide Normal, Fits;
    var n := |fs| - 1;
    assert fs[n] in fs && Spine(op, fs[n]) == [fs[n]];
    assert fs[..n] + [fs[n]] == fs;
  }

  lemma {:induction false} ChainNormal(op: Op, fs: seq<Formula>)
    requires Neat(op, fs)
    ensures Normal(Chain(op, fs)) && Spine(op, Chain(op, fs)) == Spread(op, fs)
  {
    hide Fits;
    if |fs| == 1 {
      assert fs[..0] == [];
    } else {
      NeatTail(op, fs);
      ChainNormal(op, fs[1..]);
      MakeNormal(op, fs[0], Chain(op, fs[1..]));
    }
  }

  lemma MakeNormal(op: Op, l: Formula, r: Formula)
    requires !Is(op, l) && Normal(l) && Normal(r) && Fits(op, [l] + Spine(op, r))
    ensures Normal(Make(op, l, r)) && Spine(op, Make(op, l, r)) == [l] + Spine(op, r)
  {
  }

  lemma {:induction false} FreeAt(fs: seq<Formula>, i: nat, j: nat)
    requires Free(fs) && i < j < |fs|
    ensures !Clashing(fs[i], fs[j])
  {
    hide Clashing;
    if i == 0 {
      assert fs[1..][j - 1] == fs[j];
      assert fs[0] in [fs[0]] && fs[j] in fs[1..];
    } else {
      FreeAt(fs[1..], i - 1, j - 1);
    }
  }

  /** In a normal conjunction no two conjuncts claim opposites. */
  lemma NormalIsConsistent(f: Formula, i: nat, j: nat, o: Formula)
    requires Normal(f) && i < |Spine(Conj, f)| && j < |Spine(Conj, f)| && i != j && IsClaim(o)
    ensures !(Claims(Spine(Conj, f)[i], o) && Claims(Spine(Conj, f)[j], Opposite(o)))
  {
    hide Claims, IsConflict;
    var fs := Spine(Conj, f);
    SpineFree(f);
    FreeAt(fs, if i < j then i else j, if i < j then j else i);
    OppositeTwice(o);
    if Claims(fs[i], o) && Claims(fs[j], Opposite(o)) {
      ConflictComplete(fs[i], fs[j], o);
      ConflictComplete(fs[j], fs[i], Opposite(o));
    }
  }
}
