/** The step solver: builds the clauses of a formula once, answers queries about one
    state under assumptions, and extracts transitions from models. */
module CarSolvers {
  import opened Formulas
  import opened Preprocess
  import AaltaSolver
  import opened Cnf
  import opened Encoding
  import opened Steps

  predicate IsConst(f: Formula) { f.True? || f.False? }

  /** Formulas whose variables are looked up in the cone-of-influence table. */
  predicate HasCone(f: Formula) { f.Until? || f.Release? || f.Or? }

  /** A set of conjuncts; the empty conjunction is True. */
  function OrTrue(s: set<Formula>): set<Formula> { if s == {} then {True} else s }

  predicate IsLabel(f: Formula) { f.Not? || f.Atom? }

  ghost predicate HasBase(root: Formula, cs: seq<VClause>) { forall c :: IsBase(root, c) ==> c in cs }

  ghost predicate OnlyBase(root: Formula, cs: seq<VClause>) { forall c :: c in cs ==> IsBase(root, c) }

  // ------------------------------------------------------- blocking clauses

  /** The formulas of a core that the solver knows (`formula_set_of`); constants are
      not among them. */
  function Blockable(root: Formula, core: seq<VLit>): set<Formula> {
    set l | l in core && LitFormula(l) in Sub(root) && !IsConst(LitFormula(l)) :: LitFormula(l)
  }

  /** The core mentions a formula for which there is no next variable. */
  predicate Discarded(root: Formula, core: seq<VLit>) { !(Blockable(root, core) <= NextKeys(root)) }

  /** The clause that keeps the next state from satisfying the core while frame k is on. */
  ghost predicate IsBlock(root: Formula, c: VClause, core: seq<VLit>, k: nat) {
    (set x | x in c) == BlockLits(Blockable(root, core), k)
  }

  /** One negated next literal for each formula, and the negated flag of the frame. */
  function BlockLits(ands: set<Formula>, k: nat): set<VLit> {
    (set g | g in ands :: Lit(NextVar(g), false)) + {Lit(Flag(k), false)}
  }

  /** The literals of state formulas. */
  predicate StateLits(root: Formula, core: seq<VLit>) {
    forall l :: l in core ==> l == SatLit(LitFormula(l)) && (LitFormula(l) in Sub(root) || LitFormula(l).True?)
  }

  // ------------------------------------------------------- cone of influence

  /** Besides constants, cones hold variables of atoms and of nexts. */
  ghost predicate ConeVar(root: Formula, v: Var) {
    v.F? && ((v.f.Atom? && v.f in Sub(root)) || (v.f.Next? && v.f.r in NextKeys(root)))
  }

  lemma {:induction false} ConeVars(root: Formula, f: Formula)
    requires f in Sub(root) && forall g :: g in Sub(root) ==> !g.WNext?
    ensures forall v :: v in Coi(f) - CONSTS ==> ConeVar(root, v)
  {
    OperandsAreSub(f, root);
    forall o | o in Operands(f) { ConeVars(root, o); }
    CoiByChildren(f);
    forall c | c in Children(f) ensures c in Operands(f) || IsConst(c) {}
    forall v | v in Coi(f) - CONSTS ensures ConeVar(root, v) {
      if v !in OwnCoi(f) { CoiUnionMember(Children(f), v); }
    }
  }

  /** The left and right operand, where there is one. */
  function Children(f: Formula): (s: seq<Formula>)
    ensures forall g :: g in s ==> g < f
  {
    match f
    case True | False | Atom(_) => []
    case Not(g) => [g]
    case Next(g) => [g]
    case WNext(g) => [g]
    case Or(g, h) => [g, h]
    case And(g, h) => [g, h]
    case Until(g, h) => [g, h]
    case Release(g, h) => [g, h]
  }

  lemma NextInChildren(f: Formula, g: Formula)
    ensures Next(g) in Sub(f) <==> f == Next(g) || exists c :: c in Children(f) && Next(g) in Sub(c)
  {
    forall c | c in Children(f) && Next(g) in Sub(c) ensures c in Operands(f) {}
    forall c | c in Operands(f) ensures c in Children(f) {}
  }

  lemma SubInChildren(f: Formula)
    ensures forall g :: g in Sub(f) ==> g == f || exists c :: c in Children(f) && g in Sub(c)
  {
    forall c | c in Operands(f) ensures c in Children(f) {}
  }

  /** Formulas that are their own cone. */
  predicate IsLeaf(f: Formula) { IsConst(f) || f.Atom? || f.Next? || f.WNext? }

  /** What a formula adds to the cones of its operands. */
  function OwnCoi(f: Formula): set<Var> {
    if IsLeaf(f) then {F(f)} else if f.Until? || f.Release? then {NextVar(f)} else {}
  }

  function CoiUnion(cs: seq<Formula>): set<Var> {
    if cs == [] then {} else CoiUnion(cs[..|cs| - 1]) + Coi(cs[|cs| - 1])
  }

  lemma {:induction false} CoiByChildren(f: Formula)
    ensures Coi(f) == if IsLeaf(f) then OwnCoi(f) else OwnCoi(f) + CoiUnion(Children(f))
  {
    hide CoiUnion;
    match f
    case True | False | Atom(_) | Next(_) | WNext(_) =>
    case Not(g) => CoiUnionOne(g);
    case Or(g, h) => CoiUnionTwo(g, h);
    case And(g, h) => CoiUnionTwo(g, h);
    case Until(g, h) => CoiUnionTwo(g, h);
    case Release(g, h) => CoiUnionTwo(g, h);
  }

  lemma {:induction false} CoiUnionOne(c: Formula)
    ensures CoiUnion([c]) == Coi(c)
  {
    assert [c][..0] == [] && CoiUnion([]) == {};
  }

  lemma {:induction false} CoiUnionTwo(c: Formula, d: Formula)
    ensures CoiUnion([c, d]) == Coi(c) + Coi(d)
  {
    CoiUnionOne(c);
    assert [c, d][..1] == [c];
  }

  lemma {:induction false} CoiUnionMember(cs: seq<Formula>, v: Var)
    requires v in CoiUnion(cs)
    ensures exists c :: c in cs && v in Coi(c)
  {
    if v !in Coi(cs[|cs| - 1]) { CoiUnionMember(cs[..|cs| - 1], v); }
  }

  // ----------------------------------------------------------- bounded towers

  function Height(f: Formula): nat {
    match f
    case True | False | Atom(_) => 0
    case Not(g) => 1 + Height(g)
    case Next(g) => 1 + Height(g)
    case WNext(g) => 1 + Height(g)
    case Or(g, h) => 1 + Height(g) + Height(h)
    case And(g, h) => 1 + Height(g) + Height(h)
    case Until(g, h) => 1 + Height(g) + Height(h)
    case Release(g, h) => 1 + Height(g) + Height(h)
  }

  lemma {:induction false} SubHeight(root: Formula, f: Formula)
    requires f in Sub(root)
    ensures Height(f) <= Height(root)
  {
    if f != root {
      var o :| o in Operands(root) && f in Sub(o);
      SubHeight(o, f);
    }
  }

  /** (p2, q2) is (p, q) with the same number of nexts put in front of both. */
  predicate Above(p2: Formula, q2: Formula, p: Formula, q: Formula) {
    (p2 == p && q2 == q) || (p2.Next? && q2.Next? && Above(p2.r, q2.r, p, q))
  }

  /** A pair above one that has no next variables is not a pair with next variables. */
  lemma {:induction false} PairBelow(root: Formula, p2: Formula, q2: Formula, p: Formula, q: Formula)
    requires Above(p2, q2, p, q) && ConflictPair(root, p2, q2)
    requires (p.Atom? && q == Not(p)) || (p.Next? && q.Next? && ConflictPair(root, p.r, q.r))
    ensures ConflictPair(root, p, q)
  {
    if !(p2 == p && q2 == q) { PairBelow(root, p2.r, q2.r, p, q); }
  }

  lemma {:induction false} AboveStep(p2: Formula, q2: Formula, p: Formula, q: Formula)
    requires Above(p2, q2, p, q) && !(p2 == p && q2 == q)
    ensures Above(p2, q2, Next(p), Next(q))
  {
    if !(p2.r == p && q2.r == q) { AboveStep(p2.r, q2.r, p, q); }
  }

  lemma {:induction false} PairAboveBottom(root: Formula, p: Formula, q: Formula)
    requires ConflictPair(root, p, q)
    ensures Above(p, q, Bottom(p), Bottom(q)) && ConflictPair(root, Bottom(p), Bottom(q))
  {
    if p.Next? { PairAboveBottom(root, p.r, q.r); }
  }

  /** Lists the elements of a set, in some order. */
  method Elements<T(==)>(s: set<T>) returns (xs: seq<T>)
    ensures forall x :: x in xs <==> x in s
  {
    xs := [];
    var rest := s;
    while rest != {}
      invariant forall x :: x in s <==> x in xs || x in rest
      decreases rest
    {
      var x :| x in rest;
      xs, rest := xs + [x], rest - {x};
    }
  }

  /** With a formula, the set contains its operands, constants aside. */
  ghost predicate ClosedUnderOperands(S: set<Formula>) {
    forall g, o :: g in S && o in Operands(g) ==> IsConst(o) || o in S
  }

  lemma ClosedPlus(S: set<Formula>, f: Formula)
    requires ClosedUnderOperands(S)
    requires forall o :: o in Operands(f) ==> IsConst(o) || o in S
    ensures ClosedUnderOperands(S + {f})
  {
  }

  lemma {:induction false} ClosedCoversSub(S: set<Formula>, f: Formula)
    requires ClosedUnderOperands(S) && (IsConst(f) || f in S)
    ensures forall h :: h in Sub(f) && !IsConst(h) ==> h in S
    decreases f
  {
    forall h | h in Sub(f) && !IsConst(h) ensures h in S {
      if h != f {
        var o :| o in Operands(f) && h in Sub(o);
        ClosedCoversSub(S, o);
      }
    }
  }

  ghost predicate ClausesOf(cs: seq<VClause>, S: set<Formula>) {
    forall c :: c in cs <==> IsEncoded(S, c)
  }

  lemma ClausesPlus(cs: seq<VClause>, S: set<Formula>, f: Formula)
    requires ClausesOf(cs, S)
    ensures ClausesOf(cs + LocalClauses(f), S + {f})
  {
    forall c | c in cs ensures IsEncoded(S + {f}, c) {
      var g :| g in S && c in LocalClauses(g);
      assert g in S + {f};
    }
    forall c | c in LocalClauses(f) ensures IsEncoded(S + {f}, c) {
      assert f in S + {f};
    }
  }

  /** The formulas have their literals and next variables in the tables. */
  predicate Registered(lits: set<VLit>, keys: set<Formula>, S: set<Formula>) {
    forall g :: g in S ==> SatLit(g) in lits && (g.Until? || g.Release? ==> g in keys)
  }

  lemma RegisteredPlus(lits: set<VLit>, keys: set<Formula>, lits2: set<VLit>, keys2: set<Formula>,
        S: set<Formula>, f: Formula)
    requires Registered(lits, keys, S) && lits <= lits2 && keys <= keys2
    requires SatLit(f) in lits2 && (f.Until? || f.Release? ==> f in keys2)
    ensures Registered(lits2, keys2, S + {f})
  {
  }

  lemma OperandHeights(f: Formula)
    ensures forall o :: o in Operands(f) ==> Height(o) < Height(f)
  {
  }

  /** The table is closed under operands, holds cones, and the formulas in it that
      are to be dropped again are listed. */
  ghost predicate CoiTable(table: map<Formula, set<Var>>, ids: seq<Formula>) {
    && (forall g :: g in table ==> table[g] == Coi(g) && (HasCone(g) || g in ids))
    && (forall g, c :: g in table && c in Children(g) ==> c in table)
    && (forall g :: g in ids ==> !HasCone(g))
  }

  lemma CoiTablePlus(table: map<Formula, set<Var>>, ids: seq<Formula>, f: Formula)
    requires CoiTable(table, ids) && forall c :: c in Children(f) ==> c in table
    ensures CoiTable(table[f := Coi(f)], if HasCone(f) then ids else ids + [f])
  {
  }

  lemma {:induction false} CoiCoversSub(table: map<Formula, set<Var>>, ids: seq<Formula>, f: Formula)
    requires CoiTable(table, ids) && f in table
    ensures Sub(f) <= table.Keys
    decreases f
  {
    SubInChildren(f);
    forall c | c in Children(f) { CoiCoversSub(table, ids, c); }
  }

  /** The clauses of a list of formulas, one formula after the other. */
  function AllLocal(fs: seq<Formula>): seq<VClause> {
    if fs == [] then [] else AllLocal(fs[..|fs| - 1]) + LocalClauses(fs[|fs| - 1])
  }

  /** The clauses are those of the subformulas in S, each encoded once, in that order. */
  ghost predicate EncodedBy(root: Formula, cs: seq<VClause>, order: seq<Formula>, S: set<Formula>) {
    && (forall g :: g in S ==> g in Sub(root) && !IsConst(g))
    && (forall g :: g in S <==> g in order) && NoneTwice(order)
    && cs == AllLocal(order) && ClausesOf(cs, S)
  }

  lemma EncodedByPlus(root: Formula, cs: seq<VClause>, order: seq<Formula>, S: set<Formula>, f: Formula)
    requires EncodedBy(root, cs, order, S) && f in Sub(root) && !IsConst(f) && f !in S
    ensures EncodedBy(root, cs + LocalClauses(f), order + [f], S + {f})
  {
    hide Sub, LocalClauses, ClausesOf;
    ClausesPlus(cs, S, f);
    AllLocalPush(order, f);
  }

  predicate NoneTwice(fs: seq<Formula>) { forall i, j :: 0 <= i < j < |fs| ==> fs[i] != fs[j] }

  /** The clauses of each subformula that is not a constant, once, and after them nothing
      but clauses for pairs of conflicting nexts. */
  ghost predicate EncodedOnce(root: Formula, cs: seq<VClause>, order: seq<Formula>) {
    && NoneTwice(order) && (forall g :: g in order <==> g in Sub(root) && !IsConst(g))
    && AllLocal(order) <= cs && ConflictsFrom(root, cs, |AllLocal(order)|)
  }

  ghost predicate ConflictsFrom(root: Formula, cs: seq<VClause>, n: nat) {
    forall k :: n <= k < |cs| ==> IsConflict(root, cs[k])
  }

  lemma ConflictsFromKnown(root: Formula, before: seq<VClause>, after: seq<VClause>)
    requires before <= after && ConflictsFrom(root, after, |before|)
    ensures forall c :: c in after ==> c in before || IsConflict(root, c)
  {
    forall c | c in after ensures c in before || IsConflict(root, c) {
      var k :| 0 <= k < |after| && after[k] == c;
      if k < |before| { assert before[k] == c; }
    }
  }

  lemma AllLocalPush(fs: seq<Formula>, f: Formula)
    requires NoneTwice(fs) && f !in fs
    ensures AllLocal(fs + [f]) == AllLocal(fs) + LocalClauses(f) && NoneTwice(fs + [f])
  {
    assert (fs + [f])[..|fs|] == fs;
  }

  /** The cones of the formulas that the literals assume. */
  ghost function ConeOf(root: Formula, ls: seq<VLit>): set<Var> {
    set g, v | g in Sub(root) && !g.And? && SatLit(g) in ls && v in Coi(g) :: v
  }

  /** The cone of every assumed formula is covered. */
  lemma ConesCovered(root: Formula, ls: seq<VLit>, cone: set<Var>)
    requires cone - CONSTS == ConeOf(root, ls) - CONSTS
    ensures forall g :: g in Sub(root) && !g.And? && SatLit(g) in ls ==> Coi(g) - CONSTS <= cone
  {
    forall g, v | g in Sub(root) && !g.And? && SatLit(g) in ls && v in Coi(g) - CONSTS ensures v in cone {
      assert v in ConeOf(root, ls) - CONSTS;
    }
  }

  class CarSolver {
    const root: Formula
    const sat: AaltaSolver.Incremental<Var>
    var clauses: seq<VClause>
    var clausesAdded: set<Formula>
    ghost var encoded: set<Formula>  // the formulas whose own clauses have been added
    ghost var order: seq<Formula>  // the same, in the order in which they were added
    var formulaMap: map<VLit, Formula>
    var xMap: map<Formula, Var>
    var xReverse: map<Var, Formula>
    var coiMap: map<Formula, set<Var>>
    var frameFlags: seq<Var>
    var assumption: seq<VLit>
    var selected: set<VLit>
    // The last answer of the SAT solver.
    var model: set<Var>
    var conflict: seq<VLit>

    // ------------------------------------------------------------ consistency

    /** The look-up tables mention only what they should. */
    ghost predicate MapsSound()
      reads this`formulaMap, this`xMap, this`xReverse
    {
      && (forall l :: l in formulaMap ==> formulaMap[l] in Sub(root) && !IsConst(formulaMap[l]) && SatLit(formulaMap[l]) == l)
      && (forall g :: g in xMap ==> g in NextKeys(root) && xMap[g] == NextVar(g) && (Next(g) in Sub(root) || (NextVar(g) in xReverse && xReverse[NextVar(g)] == g)))
      && (forall v :: v in xReverse ==> xReverse[v] in NextKeys(root) && v == NextVar(xReverse[v]))
    }

    /** The clauses are those of the encoded formulas, which are all registered. */
    ghost predicate Encodes()
      reads this`formulaMap, this`xMap, this`clauses, this`encoded, this`order
    {
      EncodedBy(root, clauses, order, encoded) && Registered(formulaMap.Keys, xMap.Keys, encoded)
    }

    /** What has been added is encoded, and its operands have been added too. */
    ghost predicate AddedDone()
      reads this`clausesAdded, this`encoded
    {
      clausesAdded <= encoded && ClosedUnderOperands(clausesAdded)
    }

    /** All formulas are registered, and so are exactly the next variables there are. */
    ghost predicate MapsComplete()
      reads this`formulaMap, this`xMap
    {
      && (forall g :: g in Sub(root) && !IsConst(g) ==> SatLit(g) in formulaMap)
      && xMap.Keys == NextKeys(root)
    }

    ghost predicate ConesComplete()
      reads this`coiMap
    {
      && (forall g :: g in coiMap ==> HasCone(g) && coiMap[g] == Coi(g))
      && (forall g :: g in Sub(root) && HasCone(g) ==> g in coiMap)
    }

    ghost predicate FlagsOk()
      reads this`frameFlags
    {
      forall i :: 0 <= i < |frameFlags| ==> frameFlags[i] == Flag(i)
    }

    /** The SAT solver's own state. */
    function Engine(): set<object> { {sat, sat.solver, sat.solver.orderHeap} }

    /** The SAT solver has been handed a prefix of the clauses; the rest follows before the
        next query. */
    ghost predicate EngineOk()
      reads this`clauses, Engine()
    {
      sat.Valid() && sat.clauses <= clauses
    }

    /** Everything that construction establishes and later calls keep. */
    ghost predicate Valid()
      reads this`clauses, this`formulaMap, this`xMap, this`xReverse, this`coiMap, this`frameFlags
    {
      Prepared(root) && MapsSound() && MapsComplete() && ConesComplete() && HasBase(root, clauses) && FlagsOk()
    }

    constructor (f: Formula)
      requires Prepared(f)
      ensures Valid() && root == f && frameFlags == []
      ensures OnlyBase(f, clauses) && EngineOk() && fresh(Engine())
      ensures EncodedOnce(f, clauses, order)
    {
      hide AaltaSolver.Incremental.Valid, HasBase, OnlyBase, Prepared, MapsComplete, ConesComplete, Sub, NextKeys;
      hide NextVar;
      root := f;
      sat := new AaltaSolver.Incremental<Var>();
      clauses, clausesAdded, encoded, order := [], {}, {}, [];
      formulaMap, xMap, xReverse, coiMap := map[], map[], map[], map[];
      frameFlags, assumption, selected, model, conflict := [], [], {}, {}, [];
      new;
      BuildXMapPreliminary(f);
      GenerateClauses();
      CoiSetUp();
    }

    // --------------------------------------------------------- building clauses

    /** Registers X g for every next subformula. */
    method BuildXMapPreliminary(f: Formula)
      modifies this`xMap
      ensures forall g :: g in xMap <==> g in old(xMap) || Next(g) in Sub(f)
      ensures forall g :: g in xMap ==> xMap[g] == if g in old(xMap) then old(xMap)[g] else NextVar(g)
      decreases f
    {
      if f.Next? && f.r !in xMap { xMap := xMap[f.r := NextVar(f.r)]; }
      var cs := Children(f);
      for i := 0 to |cs|
        invariant forall g :: g in xMap <==> g in old(xMap) || f == Next(g) || exists j :: 0 <= j < i && Next(g) in Sub(cs[j])
        invariant forall g :: g in xMap ==> xMap[g] == if g in old(xMap) then old(xMap)[g] else NextVar(g)
      {
        BuildXMapPreliminary(cs[i]);
      }
      forall g ensures g in xMap <==> g in old(xMap) || Next(g) in Sub(f) { NextInChildren(f, g); }
    }

    method GenerateClauses()
      requires Prepared(root) && MapsSound() && clauses == [] && clausesAdded == encoded == {} && order == []
      requires forall g :: Next(g) in Sub(root) ==> g in xMap
      modifies this`clauses, this`clausesAdded, this`encoded, this`order, this`formulaMap, this`xMap, this`xReverse
      ensures MapsSound() && MapsComplete() && HasBase(root, clauses)
      ensures OnlyBase(root, clauses) && EncodedOnce(root, clauses, order)
    {
      AddClausesFor(root);
      AllEncoded();
      AddXConflicts();
    }

    lemma AllEncoded()
      requires MapsSound() && Encodes() && AddedDone() && Added(root)
      requires forall g :: Next(g) in Sub(root) ==> g in xMap
      ensures MapsComplete()
      ensures forall c :: c in clauses <==> IsEncoded(Sub(root), c)
      ensures forall g :: g in order <==> g in Sub(root) && !IsConst(g)
    {
      ClosedCoversSub(clausesAdded, root);
      forall c | IsEncoded(Sub(root), c) ensures c in clauses {
        var g :| g in Sub(root) && c in LocalClauses(g);
        assert g in encoded;
        assert IsEncoded(encoded, c);
      }
    }

    /** Registers X f for an until or release. */
    method BuildXMap(f: Formula)
      requires MapsSound() && f in Sub(root) && (f.Until? || f.Release?)
      modifies this`xMap, this`xReverse
      ensures MapsSound() && f in xMap && old(xMap.Keys) <= xMap.Keys
    {
      if f !in xMap {
        xMap := xMap[f := NextVar(f)];
        xReverse := xReverse[NextVar(f) := f];
      }
    }

    method BuildFormulaMap(f: Formula)
      requires MapsSound() && f in Sub(root) && !IsConst(f)
      modifies this`formulaMap
      ensures MapsSound() && SatLit(f) in formulaMap && old(formulaMap.Keys) <= formulaMap.Keys
    {
      if SatLit(f) !in formulaMap { formulaMap := formulaMap[SatLit(f) := f]; }
    }

    /** Adds the clauses of f itself. */
    method AddNode(f: Formula)
      requires MapsSound() && Encodes() && f in Sub(root) && !IsConst(f) && f !in encoded
      modifies this`clauses, this`encoded, this`order, this`formulaMap, this`xMap, this`xReverse
      ensures MapsSound() && Encodes() && encoded == old(encoded) + {f}
      ensures old(xMap.Keys) <= xMap.Keys
    {
      hide Sub, SatLit, EncodedBy, Registered, NextKeys, LocalClauses;
      if f.Until? || f.Release? { BuildXMap(f); }
      BuildFormulaMap(f);
      EncodedByPlus(root, clauses, order, encoded, f);
      RegisteredPlus(old(formulaMap.Keys), old(xMap.Keys), formulaMap.Keys, xMap.Keys, encoded, f);
      clauses := clauses + LocalClauses(f);
      encoded, order := encoded + {f}, order + [f];
    }

    /** Adds the clauses of f and of everything under it, each subformula once: what has
        been encoded without its operands is above f. */
    method AddClausesFor(f: Formula)
      requires MapsSound() && Encodes() && AddedDone() && f in Sub(root)
      requires forall g :: g in Open() ==> Height(g) > Height(f)
      modifies this`clauses, this`clausesAdded, this`encoded, this`order, this`formulaMap, this`xMap, this`xReverse
      ensures MapsSound() && Encodes() && AddedDone() && Added(f)
      ensures old(clausesAdded) <= clausesAdded && old(encoded) <= encoded
      ensures Open() <= old(Open())
      ensures old(xMap.Keys) <= xMap.Keys
      decreases Height(f), 1
    {
      hide MapsSound, Encodes, Height, Operands, ClosedUnderOperands, Sub;
      if f in clausesAdded || IsConst(f) { return; }
      OperandsAreSub(f, root);
      OperandHeights(f);
      assert f !in encoded by { assert f !in Open(); }
      AddNode(f);
      assert Open() == old(Open()) + {f};
      AddOperands(Operands(f), Height(f));
      ClosedPlus(clausesAdded, f);
      clausesAdded := clausesAdded + {f};
    }

    method AddOperands(ops: seq<Formula>, ghost h: nat)
      requires MapsSound() && Encodes() && AddedDone()
      requires forall o :: o in ops ==> o in Sub(root) && Height(o) < h
      requires forall g :: g in Open() ==> Height(g) >= h
      modifies this`clauses, this`clausesAdded, this`encoded, this`order, this`formulaMap, this`xMap, this`xReverse
      ensures MapsSound() && Encodes() && AddedDone()
      ensures forall o :: o in ops ==> Added(o)
      ensures old(clausesAdded) <= clausesAdded && old(encoded) <= encoded
      ensures Open() <= old(Open())
      ensures old(xMap.Keys) <= xMap.Keys
      decreases h, 0
    {
      hide MapsSound, Encodes, AddedDone, Height, Open;
      for i := 0 to |ops|
        invariant MapsSound() && Encodes() && AddedDone()
        invariant forall j :: 0 <= j < i ==> Added(ops[j])
        invariant old(clausesAdded) <= clausesAdded && old(encoded) <= encoded
        invariant Open() <= old(Open())
        invariant old(xMap.Keys) <= xMap.Keys
      {
        AddClausesFor(ops[i]);
      }
    }

    /** The formulas whose operands are still being encoded. */
    ghost function Open(): set<Formula>
      reads this`encoded, this`clausesAdded
    {
      encoded - clausesAdded
    }

    predicate Added(f: Formula)
      reads this`clausesAdded
    {
      IsConst(f) || f in clausesAdded
    }

    /** Adds X..Xa <-> !X..X!a for every pair of literals that occur in the formula. */
    method AddXConflicts()
      requires MapsSound() && Prepared(root) && MapsComplete()
      modifies this`clauses
      ensures old(clauses) <= clauses && ConflictsFrom(root, clauses, |old(clauses)|)
      ensures forall c :: c in clauses <==> c in old(clauses) || IsConflict(root, c)
    {
      var rest := formulaMap.Keys;
      while rest != {}
        invariant rest <= formulaMap.Keys
        invariant old(clauses) <= clauses && ConflictsFrom(root, clauses, |old(clauses)|)
        invariant forall l :: l in formulaMap && l !in rest && l.pos && l.Neg() in formulaMap
                    ==> TowerDone(formulaMap[l], formulaMap[l.Neg()])
        decreases rest
      {
        var l :| l in rest;
        rest := rest - {l};
        if l.pos && l.Neg() in formulaMap {
          OppositeLiterals(l);
          AddXConflictForPair(formulaMap[l], formulaMap[l.Neg()]);
        }
      }
      ConflictsFromKnown(root, old(clauses), clauses);
      forall c | IsConflict(root, c) ensures c in clauses { ConflictsAdded(c); }
    }

    lemma OppositeLiterals(l: VLit)
      requires MapsSound() && Prepared(root) && l.pos && l in formulaMap && l.Neg() in formulaMap
      ensures formulaMap[l].Atom? && formulaMap[l.Neg()] == Not(formulaMap[l])
    {
      NnfNegations(root);
      assert formulaMap[l.Neg()].Not?;
    }

    lemma ConflictsAdded(c: VClause)
      requires MapsSound() && MapsComplete() && IsConflict(root, c)
      requires forall l :: l in formulaMap && l.pos && l.Neg() in formulaMap ==> TowerDone(formulaMap[l], formulaMap[l.Neg()])
      ensures c in clauses
    {
      NextKeysAreSub(root);
      var p, q :| ConflictPair(root, p, q) && c in Equiv1(Pos(NextVar(p)), Pos(NextVar(q)).Neg());
      PairAboveBottom(root, p, q);
      BottomOfPair(root, p, q);
      var l := SatLit(Bottom(p));
      assert l in formulaMap && l.Neg() == SatLit(Bottom(q)) && l.Neg() in formulaMap;
      assert PairDone(p, q);
    }

    ghost predicate TowerDone(p: Formula, q: Formula)
      reads this`clauses
    {
      forall p2, q2 :: Above(p2, q2, p, q) && ConflictPair(root, p2, q2) ==> PairDone(p2, q2)
    }

    ghost predicate PairDone(p: Formula, q: Formula)
      reads this`clauses
    {
      forall c :: c in Equiv1(Pos(NextVar(p)), Pos(NextVar(q)).Neg()) ==> c in clauses
    }

    method AddPair(p: Formula, q: Formula)
      requires MapsSound() && ConflictPair(root, p, q) && p in xMap && q in xMap
      modifies this`clauses
      ensures old(clauses) <= clauses && PairDone(p, q) && ConflictsFrom(root, clauses, |old(clauses)|)
    {
      clauses := clauses + Equiv1(Pos(xMap[p]), Pos(xMap[q]).Neg());
    }

    method AddXConflictForPair(p: Formula, q: Formula)
      requires MapsSound() && MapsComplete()
      requires (p.Atom? && q == Not(p)) || (p.Next? && q.Next? && ConflictPair(root, p.r, q.r))
      modifies this`clauses
      ensures old(clauses) <= clauses && ConflictsFrom(root, clauses, |old(clauses)|)
      ensures TowerDone(p, q)
      decreases Height(root) + 1 - Height(p)
    {
      if p in xMap && q in xMap {
        assert ConflictPair(root, p, q);
        NextKeysAreSub(root);
        SubHeight(root, p);
        AddPair(p, q);
        AddXConflictForPair(Next(p), Next(q));
        forall p2, q2 | Above(p2, q2, p, q) && ConflictPair(root, p2, q2) ensures PairDone(p2, q2) {
          if !(p2 == p && q2 == q) { AboveStep(p2, q2, p, q); }
        }
      } else {
        forall p2, q2 | Above(p2, q2, p, q) && ConflictPair(root, p2, q2) ensures false {
          PairBelow(root, p2, q2, p, q);
        }
      }
    }

    // ------------------------------------------------------- cone of influence

    method CoiSetUp()
      requires coiMap == map[]
      modifies this`coiMap
      ensures ConesComplete()
    {
      var ids := ComputeFullCoi(root, []);
      CoiCoversSub(coiMap, ids, root);
      ShrinkCoi(ids);
    }

    /** Computes the cone of every subformula; returns, after the given ones, the
        formulas whose cone need not be stored. */
    method ComputeFullCoi(f: Formula, ids: seq<Formula>) returns (ids': seq<Formula>)
      requires CoiTable(coiMap, ids)
      modifies this`coiMap
      ensures CoiTable(coiMap, ids') && f in coiMap && old(coiMap.Keys) <= coiMap.Keys
      decreases f, 1
    {
      ids' := ids;
      if f in coiMap { return; }
      var v;
      ids', v := ComputeChildren(f, Children(f), ids');
      v := if IsLeaf(f) then OwnCoi(f) else OwnCoi(f) + v;
      CoiByChildren(f);
      CoiTablePlus(coiMap, ids', f);
      coiMap := coiMap[f := v];
      if !HasCone(f) { ids' := ids' + [f]; }
    }

    method ComputeChildren(ghost f: Formula, cs: seq<Formula>, ids: seq<Formula>) returns (ids': seq<Formula>, v: set<Var>)
      requires CoiTable(coiMap, ids) && forall j :: 0 <= j < |cs| ==> cs[j] < f
      modifies this`coiMap
      ensures CoiTable(coiMap, ids') && v == CoiUnion(cs) && old(coiMap.Keys) <= coiMap.Keys
      ensures forall c :: c in cs ==> c in coiMap
      decreases f, 0, |cs|
    {
      if cs == [] { return ids, {}; }
      var last := cs[|cs| - 1];
      assert last in cs;
      ids', v := ComputeChildren(f, cs[..|cs| - 1], ids);
      ids' := ComputeFullCoi(last, ids');
      v := v + coiMap[last];
    }

    /** Drops the cones of the listed formulas. */
    method ShrinkCoi(ids: seq<Formula>)
      modifies this`coiMap
      ensures coiMap == old(coiMap) - set g | g in ids
    {
      for i := 0 to |ids|
        invariant coiMap == old(coiMap) - set g | g in ids[..i]
      {
        coiMap := coiMap - {ids[i]};
        assert ids[..i + 1] == ids[..i] + [ids[i]];
      }
      assert ids[..|ids|] == ids;
    }

    /** Assumptions are state literals, the Tail literal and frame flags. */
    ghost predicate AssumptionsSound()
      reads this`assumption
    {
      forall l :: l in assumption ==> l.v.Flag? || l == Pos(TAILVAR) || StateLits(root, [l])
    }

    /** Merges the cone of one assumption into what has been collected so far. */
    function CoiOf(l: VLit, res: set<Var>): set<Var>
      reads this
    {
      if l.v.F? && l.v.f in coiMap then res + coiMap[l.v.f]
      else if l in formulaMap && (IsLabel(formulaMap[l]) || formulaMap[l].Next?) then res + {l.v}
      else res - {l.v}
    }

    /** The cone of the current assumptions: the cones of the assumed formulas, constants
        apart. */
    method CoiOfAssumption() returns (res: set<Var>)
      requires Valid() && AssumptionsSound()
      ensures res - CONSTS == ConeOf(root, assumption) - CONSTS
    {
      res := {};
      for i := 0 to |assumption|
        invariant res <= ConeOf(root, assumption[..i])
        invariant forall g :: g in Sub(root) && !g.And? && SatLit(g) in assumption[..i] ==> Coi(g) - CONSTS <= res
      {
        ghost var before := res;
        res := CoiOf(assumption[i], res);
        forall g | g in Sub(root) && !g.And? && SatLit(g) in assumption[..i + 1]
          ensures Coi(g) - CONSTS <= res
        {
          if SatLit(g) == assumption[i] { ConeTaken(g, before); } else { ConeKept(assumption[i], before, g); }
        }
        assert assumption[..i + 1] == assumption[..i] + [assumption[i]];
        ConeBounded(assumption[i], before, assumption[..i]);
      }
      assert assumption[..|assumption|] == assumption;
    }

    /** Nothing but the cone of the assumed formula is added. */
    lemma ConeBounded(l: VLit, before: set<Var>, ls: seq<VLit>)
      requires Valid() && before <= ConeOf(root, ls)
      requires l.v.Flag? || l == Pos(TAILVAR) || StateLits(root, [l])
      ensures CoiOf(l, before) <= ConeOf(root, ls + [l])
    {
      hide Sub;
      assert ConeOf(root, ls) <= ConeOf(root, ls + [l]);
      if l.v.F? && l.v.f in coiMap {
        NnfNegations(root);
        assert l in [l];
        assert l == SatLit(l.v.f) && l.v.f in Sub(root);
      } else if l in formulaMap && (IsLabel(formulaMap[l]) || formulaMap[l].Next?) {
        NnfNegations(root);
        var g := formulaMap[l];
        assert g in Sub(root) && SatLit(g) == l && l.v in Coi(g);
      }
    }

    lemma ConeTaken(g: Formula, before: set<Var>)
      requires Valid() && g in Sub(root) && !g.And?
      ensures Coi(g) - CONSTS <= CoiOf(SatLit(g), before)
    {
      NnfNegations(root);
    }

    lemma ConeKept(l: VLit, before: set<Var>, g: Formula)
      requires Valid() && g in Sub(root)
      requires l.v.Flag? || l == Pos(TAILVAR) || StateLits(root, [l])
      requires Coi(g) - CONSTS <= before
      ensures Coi(g) - CONSTS <= CoiOf(l, before)
    {
      if l.v in Coi(g) - CONSTS && !(l.v.F? && l.v.f in coiMap) {
        NnfNegations(root);
        ConeVars(root, g);
        ConeVarKept(l, before);
      }
    }

    lemma ConeVarKept(l: VLit, before: set<Var>)
      requires Valid() && ConeVar(root, l.v)
      requires l == Pos(TAILVAR) || StateLits(root, [l])
      ensures l.v in CoiOf(l, before) || l.v.f in coiMap
    {
      assert l in [l];
      assert l in formulaMap;
    }

    // ------------------------------------------------------------- transitions

    /** The label and the next state that the last model describes, cut down to the
        cone of the assumptions. */
    method GetTransition() returns (lbl: Formula, next: Formula, ghost cone: set<Var>)
      requires Valid() && AssumptionsSound()
      ensures cone - CONSTS == ConeOf(root, assumption) - CONSTS
      ensures ToSet(lbl) == OrTrue(LabelOf(root, model, cone))
      ensures ToSet(next) == OrTrue(NextsOf(root, model, cone))
    {
      var coi := CoiOfAssumption();
      var labels, nexts := ReadModel(coi);
      ToSetFormulaFrom(labels);
      ToSetFormulaFrom(nexts);
      lbl, next, cone := FormulaFrom(labels), FormulaFrom(nexts), coi;
    }

    /** Goes through the variables in coi with their value in the model. */
    method ReadModel(coi: set<Var>) returns (labels: seq<Formula>, nexts: seq<Formula>)
      requires Valid()
      ensures (set g | g in labels) == LabelOf(root, model, coi)
      ensures (set g | g in nexts) == NextsOf(root, model, coi)
      ensures forall g :: g in labels || g in nexts ==> !g.And?
    {
      var rest := coi;
      ghost var done := {};
      labels, nexts := [], [];
      while rest != {}
        invariant done + rest == coi
        invariant forall g :: g in labels <==> g in LabelOf(root, model, done)
        invariant forall g :: g in nexts <==> g in NextsOf(root, model, done)
        decreases rest
      {
        var v :| v in rest;
        rest := rest - {v};
        var l := Lit(v, v in model);
        LabelOfVariable(v);
        NextsOfVariable(v);
        if l in formulaMap {
          if IsLabel(formulaMap[l]) { labels := labels + [formulaMap[l]]; }
          else if formulaMap[l].Next? { nexts := nexts + [formulaMap[l].r]; }
        } else if l.pos && v in xReverse {
          nexts := nexts + [xReverse[v]];
        }
        UnionOfCones(done, v);
        done := done + {v};
      }
      assert done == coi;
      KeysAreNotAnd();
    }

    lemma UnionOfCones(done: set<Var>, v: Var)
      ensures LabelOf(root, model, done + {v}) == LabelOf(root, model, done) + LabelOf(root, model, {v})
      ensures NextsOf(root, model, done + {v}) == NextsOf(root, model, done) + NextsOf(root, model, {v})
    {
    }

    lemma KeysAreNotAnd()
      requires Prepared(root)
      ensures forall g :: g in NextKeys(root) ==> !g.And?
    {
      NnfNegations(root);
    }

    /** What one variable of the model contributes to the label. */
    lemma LabelOfVariable(v: Var)
      requires MapsSound() && MapsComplete()
      ensures var l := Lit(v, v in model);
        LabelOf(root, model, {v}) == if l in formulaMap && IsLabel(formulaMap[l]) then {formulaMap[l]} else {}
    {
      var l := Lit(v, v in model);
      forall g | g in LabelOf(root, model, {v})
        ensures l in formulaMap && formulaMap[l] == g
      {
      }
    }

    /** What one variable of the model contributes to the next state. */
    lemma NextsOfVariable(v: Var)
      requires MapsSound() && MapsComplete()
      ensures var l := Lit(v, v in model);
        NextsOf(root, model, {v}) ==
          if l in formulaMap then if formulaMap[l].Next? then {formulaMap[l].r} else {}
          else if l.pos && v in xReverse then {xReverse[v]} else {}
    {
      var l := Lit(v, v in model);
      forall g | g in NextsOf(root, model, {v})
        ensures if l in formulaMap then formulaMap[l] == Next(g) else l.pos && v in xReverse && xReverse[v] == g
      {
        assert g in xMap;
      }
      if l in formulaMap && formulaMap[l].Next? {
        assert formulaMap[l].r in NextKeys(root);
      }
    }

    // ------------------------------------------------------------------ queries

    /** The state is made of formulas the solver has clauses for (or is empty). */
    ghost predicate IsState(f: Formula) {
      forall g :: g in ToSet(f) ==> g in Sub(root) || g.True?
    }

    ghost predicate Answered(sat: bool)
      reads this`clauses, this`assumption, this`model, this`conflict
    {
      if sat then Models(model, clauses) && AllTrue(model, assumption)
      else
        && (forall l :: l in conflict ==> l in assumption) && Unsat(clauses, conflict)
        && AaltaSolver.BlamedCore(clauses, assumption, conflict)
    }

    method SetSelectedAssumption(f: Formula)
      modifies this`selected
      ensures selected == set g | g in ToSet(f) :: SatLit(g)
    {
      selected := set g | g in ToSet(f) :: SatLit(g);
    }

    method GetAssumptionFrom(f: Formula)
      requires IsState(f) && Prepared(root)
      modifies this`assumption
      ensures AssumptionsSound()
      ensures forall l :: l in assumption <==> exists g :: g in ToSet(f) && l == SatLit(g)
    {
      var gs := Elements(ToSet(f));
      assumption := [];
      for i := 0 to |gs|
        invariant forall l :: l in assumption <==> exists j :: 0 <= j < i && l == SatLit(gs[j])
      {
        assumption := assumption + [SatLit(gs[i])];
      }
      StateAssumptions(f);
    }

    /** Hands over the clauses added since the last query and solves under the assumptions. */
    method SolveAssumption() returns (res: bool)
      requires EngineOk()
      modifies this`model, this`conflict, Engine()
      ensures EngineOk() && Answered(res)
    {
      hide AaltaSolver.Incremental.Valid, AaltaSolver.BlamedCore;
      sat.Follow(clauses);
      var ans := sat.Solve(assumption);
      match ans
      case Model(m) => model := m; res := true;
      case Core(c) => conflict := c; res := false;
    }

    /** Is there a successor of f that frame k does not block? */
    method SolveWithAssumption(f: Formula, k: nat) returns (res: bool)
      requires Valid() && IsState(f) && k < |frameFlags| && EngineOk()
      modifies this`selected, this`assumption, this`model, this`conflict, Engine()
      ensures AssumptionsSound() && Answered(res) && EngineOk()
      ensures selected == set g | g in ToSet(f) :: SatLit(g)
      ensures forall l :: l in assumption <==> l in selected || l == Pos(Flag(k))
    {
      hide AaltaSolver.Incremental.Valid, Valid, EngineOk, Sub, Prepared, StateLits, Answered;
      FlagsKnown();
      SetSelectedAssumption(f);
      GetAssumptionFrom(f);
      assumption := assumption + [Pos(frameFlags[k])];
      res := SolveAssumption();
    }

    /** Can f hold in the last state? */
    method CheckFinal(f: Formula) returns (res: bool)
      requires Valid() && IsState(f) && EngineOk()
      modifies this`selected, this`assumption, this`model, this`conflict, Engine()
      ensures AssumptionsSound() && Answered(res) && EngineOk()
      ensures selected == set g | g in ToSet(f) :: SatLit(g)
      ensures forall l :: l in assumption <==> l in selected || l == Pos(TAILVAR)
    {
      hide AaltaSolver.Incremental.Valid, Valid, EngineOk, Sub, Prepared, StateLits, Answered;
      FlagsKnown();
      SetSelectedAssumption(f);
      GetAssumptionFrom(f);
      assumption := assumption + [Pos(TAILVAR)];
      res := SolveAssumption();
    }

    lemma FlagsKnown()
      requires Valid()
      ensures Prepared(root) && forall i :: 0 <= i < |frameFlags| ==> frameFlags[i] == Flag(i)
    {
    }

    lemma StateAssumptions(f: Formula)
      requires IsState(f) && Prepared(root)
      ensures forall g :: g in ToSet(f) ==> StateLits(root, [SatLit(g)])
    {
      NnfNegations(root);
    }

    /** The part of the last core that comes from the state. */
    method GetSelectedUc() returns (res: seq<VLit>)
      requires exists l :: l in conflict && l in selected
      ensures forall l :: l in res <==> l in conflict && l in selected
      ensures res != []
    {
      res := [];
      for i := 0 to |conflict|
        invariant forall l :: l in res <==> l in conflict[..i] && l in selected
      {
        if conflict[i] in selected { res := res + [conflict[i]]; }
      }
      ghost var l :| l in conflict && l in selected;
      assert l in res;
    }

    /** Blocks a core in the next state while frame k is on, unless it mentions a formula
        that has no next variable. */
    method AddClauseForFrame(uc: seq<VLit>, k: nat)
      requires Valid() && StateLits(root, uc) && k < |frameFlags|
      modifies this`clauses
      ensures Valid() && (old(EngineOk()) ==> EngineOk())
      ensures Discarded(root, uc) ==> clauses == old(clauses)
      ensures !Discarded(root, uc) ==> exists c :: clauses == old(clauses) + [c] && IsBlock(root, c, uc, k)
    {
      var ands := FormulaSetOf(uc);
      if !(ands <= xMap.Keys) { return; }
      var v := BlockElements(ands, k);
      assert IsBlock(root, v, uc, k);
      AddClause(v);
    }

    method BlockElements(ands: set<Formula>, k: nat) returns (v: VClause)
      requires forall g :: g in ands ==> g in xMap && xMap[g] == NextVar(g)
      requires k < |frameFlags| && frameFlags[k] == Flag(k)
      ensures (set x | x in v) == BlockLits(ands, k)
    {
      v := [Lit(frameFlags[k], false)];
      var rest := ands;
      ghost var done := {};
      while rest != {}
        invariant done + rest == ands
        invariant (set x | x in v) == BlockLits(done, k)
        decreases rest
      {
        var g :| g in rest;
        rest, done := rest - {g}, done + {g};
        ghost var before := set x | x in v;
        v := v + [Lit(xMap[g], false)];
        assert (set x | x in v) == before + {Lit(NextVar(g), false)};
      }
      assert done == ands;
    }

    method AddClause(v: VClause)
      requires Valid()
      modifies this`clauses
      ensures Valid() && clauses == old(clauses) + [v] && (old(EngineOk()) ==> EngineOk())
    {
      clauses := clauses + [v];
    }

    /** The formulas of the literals that the solver knows. */
    method FormulaSetOf(uc: seq<VLit>) returns (res: set<Formula>)
      requires Valid() && StateLits(root, uc)
      ensures res == Blockable(root, uc)
    {
      res := {};
      for i := 0 to |uc|
        invariant res == Blockable(root, uc[..i])
      {
        var g := LitFormula(uc[i]);
        assert uc[i] in uc;
        if uc[i] in formulaMap { res := res + {formulaMap[uc[i]]}; }
        assert uc[..i + 1] == uc[..i] + [uc[i]];
      }
      assert uc[..|uc|] == uc;
    }

    method CreateFlagForFrame(k: nat)
      requires Valid() && k == |frameFlags|
      modifies this`frameFlags
      ensures Valid() && |frameFlags| == k + 1
    {
      frameFlags := frameFlags + [Flag(k)];
    }
  }
}
