/** The propositional step encoding of a formula: what its clauses mean, and how
    their models correspond to positions of traces. */
module Encoding {
  import opened Formulas
  import opened Preprocess
  import opened Cnf

  /** Solver variables.  `F(g)` is the id of formula g; `F(Next(g))` also stands for
      the fresh id of X g when X g is not itself a subformula.  `Aux(g)` is the
      helper id of an until or release, `Flag(k)` the id that switches frame k on. */
  datatype Var = F(f: Formula) | Aux(f: Formula) | Flag(k: nat)

  type VLit = Lit<Var>
  type VClause = Clause<Var>

  function Pos(v: Var): VLit { Lit(v, true) }

  /** The literal of a formula: the negated id of the atom for a negated atom. */
  function SatLit(f: Formula): VLit {
    if f.Not? then Lit(F(f.r), false) else Lit(F(f), true)
  }

  /** The formula whose literal this is. */
  function LitFormula(l: VLit): Formula {
    if !l.v.F? then True else if l.pos then l.v.f else Not(l.v.f)
  }

  function NextVar(f: Formula): Var { F(Next(f)) }

  const TAILVAR := F(TAIL)

  // ---------------------------------------------------------------- clauses

  /** l <-> r1 */
  function Equiv1(l: VLit, r1: VLit): seq<VClause> {
    [[l.Neg(), r1], [l, r1.Neg()]]
  }

  /** l <-> r1 & r2 */
  function Equiv2(l: VLit, r1: VLit, r2: VLit): seq<VClause> {
    [[l.Neg(), r1], [l.Neg(), r2], [l, r1.Neg(), r2.Neg()]]
  }

  /** l <-> r1 & r2 & r3 */
  function Equiv3(l: VLit, r1: VLit, r2: VLit, r3: VLit): seq<VClause> {
    [[l.Neg(), r1], [l.Neg(), r2], [l.Neg(), r3], [l, r1.Neg(), r2.Neg(), r3.Neg()]]
  }

  /** The clauses added for one node, its operands aside. */
  function LocalClauses(f: Formula): seq<VClause> {
    match f
    case Until(g, h) =>
      Equiv2(SatLit(f).Neg(), SatLit(h).Neg(), Pos(Aux(f)).Neg())
      + (if g.True? then Equiv2(Pos(Aux(f)), Pos(TAILVAR).Neg(), Pos(NextVar(f)))
         else Equiv3(Pos(Aux(f)), SatLit(g), Pos(TAILVAR).Neg(), Pos(NextVar(f))))
    case Release(g, h) =>
      Equiv2(SatLit(f), SatLit(h), Pos(Aux(f)))
      + (if g.False? then Equiv2(Pos(Aux(f)).Neg(), Pos(TAILVAR).Neg(), Pos(NextVar(f)).Neg())
         else Equiv3(Pos(Aux(f)).Neg(), SatLit(g).Neg(), Pos(TAILVAR).Neg(), Pos(NextVar(f)).Neg()))
    case And(g, h) => Equiv2(SatLit(f), SatLit(g), SatLit(h))
    case Or(g, h) => Equiv2(SatLit(f).Neg(), SatLit(g).Neg(), SatLit(h).Neg())
    case _ => []
  }

  /** The operands that the encoding descends into. */
  function Operands(f: Formula): (s: seq<Formula>)
    ensures forall g :: g in s ==> g < f
  {
    match f
    case True | False | Atom(_) => []
    case Not(g) => [g]
    case Next(g) => [g]
    case WNext(g) => [g]
    case Until(g, h) => if g.True? then [h] else [g, h]
    case Release(g, h) => if g.False? then [h] else [g, h]
    case And(g, h) => [g, h]
    case Or(g, h) => [g, h]
  }

  /** All formulas the encoding of f visits. */
  function Sub(f: Formula): (s: set<Formula>)
    ensures f in s
  {
    {f} + set g, s | g in Operands(f) && s in Sub(g) :: s
  }

  lemma {:induction false} SubTransitive(f: Formula, g: Formula)
    requires g in Sub(f)
    ensures Sub(g) <= Sub(f)
  {
    if g != f {
      var o :| o in Operands(f) && g in Sub(o);
      SubTransitive(o, g);
    }
  }

  ghost predicate IsEncoded(S: set<Formula>, c: VClause) { exists g :: g in S && c in LocalClauses(g) }

  /** The formulas g for which there is a variable for X g. */
  function NextKeys(root: Formula): (s: set<Formula>)
    ensures forall g :: g in s <==> (g in Sub(root) && (g.Until? || g.Release?)) || Next(g) in Sub(root)
  {
    (set g | g in Sub(root) && (g.Until? || g.Release?)) + (set g | g in Sub(root) && g.Next? :: g.r)
  }

  lemma NextKeysAreSub(root: Formula)
    ensures NextKeys(root) <= Sub(root)
  {
    forall g | g in NextKeys(root) ensures g in Sub(root) {
      if Next(g) in Sub(root) { SubTransitive(root, Next(g)); assert g in Operands(Next(g)) && g in Sub(g); }
    }
  }

  /** Pairs (X..Xa, X..X!a) that are both followed by a next variable. */
  predicate ConflictPair(root: Formula, p: Formula, q: Formula) {
    && p in NextKeys(root) && q in NextKeys(root)
    && (|| (p.Atom? && q == Not(p))
        || (p.Next? && q.Next? && ConflictPair(root, p.r, q.r)))
  }

  ghost predicate IsConflict(root: Formula, c: VClause) {
    exists p, q :: ConflictPair(root, p, q) && c in Equiv1(Pos(NextVar(p)), Pos(NextVar(q)).Neg())
  }

  /** The clauses a solver for the formula starts with. */
  ghost predicate IsBase(root: Formula, c: VClause) { IsEncoded(Sub(root), c) || IsConflict(root, c) }

  ghost predicate ModelsBase(root: Formula, m: set<Var>) {
    forall c :: IsBase(root, c) ==> ClauseTrue(m, c)
  }

  ghost predicate ModelsEncoded(S: set<Formula>, m: set<Var>) {
    forall c :: IsEncoded(S, c) ==> ClauseTrue(m, c)
  }

  // --------------------------------------------- the encoding is exact

  /** One-step unfolding of a formula over the values of atoms, Tail, next
      variables and loose constants. */
  predicate Unfold(f: Formula, b: set<Var>) {
    match f
    case True | False | Atom(_) | Next(_) | WNext(_) => F(f) in b
    case Not(g) => !Unfold(g, b)
    case Or(g, h) => Unfold(g, b) || Unfold(h, b)
    case And(g, h) => Unfold(g, b) && Unfold(h, b)
    case Until(g, h) => Unfold(h, b) || ((g.True? || Unfold(g, b)) && TAILVAR !in b && NextVar(f) in b)
    case Release(g, h) => Unfold(h, b) && ((!g.False? && Unfold(g, b)) || TAILVAR in b || NextVar(f) in b)
  }

  lemma ClauseCons(m: set<Var>, l: VLit, c: VClause)
    ensures ClauseTrue(m, [l] + c) <==> LitTrue(m, l) || ClauseTrue(m, c)
  {
    assert forall x :: x in [l] + c <==> x == l || x in c;
  }

  lemma Clause2(m: set<Var>, x: VLit, y: VLit)
    ensures ClauseTrue(m, [x, y]) <==> LitTrue(m, x) || LitTrue(m, y)
  {
    ClauseCons(m, y, []);
    ClauseCons(m, x, [y]);
    assert [x, y] == [x] + [y] && [y] + [] == [y];
  }

  lemma Clause3(m: set<Var>, x: VLit, y: VLit, z: VLit)
    ensures ClauseTrue(m, [x, y, z]) <==> LitTrue(m, x) || LitTrue(m, y) || LitTrue(m, z)
  {
    Clause2(m, y, z);
    ClauseCons(m, x, [y, z]);
    assert [x, y, z] == [x] + [y, z];
  }

  lemma Clause4(m: set<Var>, x: VLit, y: VLit, z: VLit, w: VLit)
    ensures ClauseTrue(m, [x, y, z, w]) <==> LitTrue(m, x) || LitTrue(m, y) || LitTrue(m, z) || LitTrue(m, w)
  {
    Clause3(m, y, z, w);
    ClauseCons(m, x, [y, z, w]);
    assert [x, y, z, w] == [x] + [y, z, w];
  }

  lemma Equiv1Meaning(m: set<Var>, l: VLit, r1: VLit)
    ensures Models(m, Equiv1(l, r1)) <==> (LitTrue(m, l) <==> LitTrue(m, r1))
  {
    Clause2(m, l.Neg(), r1);
    Clause2(m, l, r1.Neg());
    assert Equiv1(l, r1)[0] in Equiv1(l, r1) && Equiv1(l, r1)[1] in Equiv1(l, r1);
  }

  lemma Equiv2Meaning(m: set<Var>, l: VLit, r1: VLit, r2: VLit)
    ensures Models(m, Equiv2(l, r1, r2)) <==> (LitTrue(m, l) <==> LitTrue(m, r1) && LitTrue(m, r2))
  {
    var cs := Equiv2(l, r1, r2);
    Clause2(m, l.Neg(), r1);
    Clause2(m, l.Neg(), r2);
    Clause3(m, l, r1.Neg(), r2.Neg());
    assert cs[0] in cs && cs[1] in cs && cs[2] in cs;
  }

  lemma Equiv3Meaning(m: set<Var>, l: VLit, r1: VLit, r2: VLit, r3: VLit)
    ensures Models(m, Equiv3(l, r1, r2, r3)) <==> (LitTrue(m, l) <==> LitTrue(m, r1) && LitTrue(m, r2) && LitTrue(m, r3))
  {
    var cs := Equiv3(l, r1, r2, r3);
    Clause2(m, l.Neg(), r1);
    Clause2(m, l.Neg(), r2);
    Clause2(m, l.Neg(), r3);
    Clause4(m, l, r1.Neg(), r2.Neg(), r3.Neg());
    assert cs[0] in cs && cs[1] in cs && cs[2] in cs && cs[3] in cs;
  }

  /** What the clauses of one node say about its variable. */
  ghost predicate LocalMeaning(f: Formula, m: set<Var>) {
    var val := LitTrue(m, SatLit(f));
    match f
    case Until(g, h) =>
      && (Aux(f) in m <==> (g.True? || LitTrue(m, SatLit(g))) && TAILVAR !in m && NextVar(f) in m)
      && (val <==> LitTrue(m, SatLit(h)) || Aux(f) in m)
    case Release(g, h) =>
      && (Aux(f) in m <==> (!g.False? && LitTrue(m, SatLit(g))) || TAILVAR in m || NextVar(f) in m)
      && (val <==> LitTrue(m, SatLit(h)) && Aux(f) in m)
    case And(g, h) => val <==> LitTrue(m, SatLit(g)) && LitTrue(m, SatLit(h))
    case Or(g, h) => val <==> LitTrue(m, SatLit(g)) || LitTrue(m, SatLit(h))
    case _ => true
  }

  lemma ModelsAppend(m: set<Var>, a: seq<VClause>, b: seq<VClause>)
    ensures Models(m, a + b) <==> Models(m, a) && Models(m, b)
  {
    forall c | c in a || c in b ensures c in a + b {}
  }

  lemma LocalClausesMeaning(f: Formula, m: set<Var>)
    ensures Models(m, LocalClauses(f)) <==> LocalMeaning(f, m)
  {
    var x, t, n := Pos(Aux(f)), Pos(TAILVAR), Pos(NextVar(f));
    match f {
      case Until(g, h) =>
        var top := Equiv2(SatLit(f).Neg(), SatLit(h).Neg(), x.Neg());
        Equiv2Meaning(m, SatLit(f).Neg(), SatLit(h).Neg(), x.Neg());
        if g.True? {
          Equiv2Meaning(m, x, t.Neg(), n);
          ModelsAppend(m, top, Equiv2(x, t.Neg(), n));
        } else {
          Equiv3Meaning(m, x, SatLit(g), t.Neg(), n);
          ModelsAppend(m, top, Equiv3(x, SatLit(g), t.Neg(), n));
        }
      case Release(g, h) =>
        var top := Equiv2(SatLit(f), SatLit(h), x);
        Equiv2Meaning(m, SatLit(f), SatLit(h), x);
        if g.False? {
          Equiv2Meaning(m, x.Neg(), t.Neg(), n.Neg());
          ModelsAppend(m, top, Equiv2(x.Neg(), t.Neg(), n.Neg()));
        } else {
          Equiv3Meaning(m, x.Neg(), SatLit(g).Neg(), t.Neg(), n.Neg());
          ModelsAppend(m, top, Equiv3(x.Neg(), SatLit(g).Neg(), t.Neg(), n.Neg()));
        }
      case And(g, h) => Equiv2Meaning(m, SatLit(f), SatLit(g), SatLit(h));
      case Or(g, h) => Equiv2Meaning(m, SatLit(f).Neg(), SatLit(g).Neg(), SatLit(h).Neg());
      case _ =>
    }
  }

  lemma ModelsEncodedLocally(S: set<Formula>, m: set<Var>)
    ensures ModelsEncoded(S, m) <==> forall g :: g in S ==> LocalMeaning(g, m)
  {
    forall g | g in S ensures Models(m, LocalClauses(g)) <==> LocalMeaning(g, m) { LocalClausesMeaning(g, m); }
    if ModelsEncoded(S, m) {
      forall g, c | g in S && c in LocalClauses(g) ensures ClauseTrue(m, c) { assert IsEncoded(S, c); }
      assert forall g :: g in S ==> Models(m, LocalClauses(g));
    }
  }

  lemma UnfoldsLocally(f: Formula, m: set<Var>)
    requires LocalMeaning(f, m) && (f.Not? ==> f.r.Atom?)
    requires forall o :: o in Operands(f) ==> LitTrue(m, SatLit(o)) == Unfold(o, m)
    ensures LitTrue(m, SatLit(f)) == Unfold(f, m)
  {
    match f
    case True | False | Atom(_) | Next(_) | WNext(_) =>
    case Not(g) => assert g in Operands(f);
    case Or(g, h) => assert g in Operands(f) && h in Operands(f);
    case And(g, h) => assert g in Operands(f) && h in Operands(f);
    case Until(g, h) => assert h in Operands(f) && (g.True? || g in Operands(f));
    case Release(g, h) => assert h in Operands(f) && (g.False? || g in Operands(f));
  }

  /** In every model of the clauses, the variable of each subformula has the value of
      its one-step unfolding. */
  lemma {:induction false} EncodingIsExact(f: Formula, m: set<Var>)
    requires ModelsEncoded(Sub(f), m) && NegationBeforeAtoms(f)
    ensures forall g :: g in Sub(f) ==> LitTrue(m, SatLit(g)) == Unfold(g, m)
  {
    ModelsEncodedLocally(Sub(f), m);
    forall o | o in Operands(f)
      ensures forall g :: g in Sub(o) ==> LitTrue(m, SatLit(g)) == Unfold(g, m)
    {
      forall g | g in Sub(o) ensures g in Sub(f) {}
      ModelsEncodedLocally(Sub(o), m);
      EncodingIsExact(o, m);
    }
    UnfoldsLocally(f, m);
  }

  /** The encoding keeps the id of !a as the negated id of a, which is only right
      when negation stands before atoms. */
  predicate NegationBeforeAtoms(f: Formula) { forall g :: g in Sub(f) && g.Not? ==> g.r.Atom? }

  lemma {:induction false} NnfNegations(f: Formula)
    requires IsNnf(f)
    ensures NegationBeforeAtoms(f)
    ensures NoWNext(f) ==> forall g :: g in Sub(f) ==> !g.WNext?
    ensures NextSplit(f) ==> forall g :: Next(g) in Sub(f) ==> !IsAndOr(g)
  {
    forall o | o in Operands(f) ensures IsNnf(o) && (NoWNext(f) ==> NoWNext(o)) && (NextSplit(f) ==> NextSplit(o)) {}
    forall o | o in Operands(f) && IsNnf(o) { NnfNegations(o); }
  }
}
