/** Unsatisfiable cores of one conjunction relative to others, found on the obligation
    formulas. */
module UcSolvers {
  import opened Formulas
  import AaltaSolver
  import opened Cnf
  import opened Obligations
  import opened SatCheck
  import Simplification
  import Words

  type Id = Formula

  /** The clauses that make the variable of a node stand for it. */
  function Definition(f: Formula): seq<Clause<Id>> {
    match f
    case Not(g) => [[Lit(f, true), Lit(g, true)], [Lit(f, false), Lit(g, false)]]
    case And(g, h) =>
      [[Lit(f, false), Lit(g, true)], [Lit(f, false), Lit(h, true)],
       [Lit(f, true), Lit(g, false), Lit(h, false)]]
    case Or(g, h) =>
      [[Lit(f, true), Lit(g, false)], [Lit(f, true), Lit(h, false)],
       [Lit(f, false), Lit(g, true), Lit(h, true)]]
    case _ => []
  }

  function Definitions(f: Formula): seq<Clause<Id>> {
    if IsAndOr(f) then Definition(f) + (Definitions(f.l) + Definitions(f.r)) else Definition(f)
  }

  /** The state that a model of the clauses describes. */
  ghost function StateIn(m: set<Id>): State { set g | g in m && g.Atom? :: g.op }

  /** A model of the definitions gives every node its value. */
  lemma {:induction false} DefinitionsMean(f: Formula, m: set<Id>)
    requires IsBoolean(f) && ConstantFree(f) && Models(m, Definitions(f))
    ensures f in m <==> Eval(f, StateIn(m))
  {
    var cs := Definitions(f);
    match f
    case Atom(_) =>
    case Not(g) =>
      assert ClauseTrue(m, cs[0]) && ClauseTrue(m, cs[1]);
      assert LitTrue(m, Lit(f, true)) || LitTrue(m, Lit(g, true));
      assert LitTrue(m, Lit(f, false)) || LitTrue(m, Lit(g, false));
    case And(g, h) =>
      assert forall c :: c in Definitions(g) || c in Definitions(h) ==> c in cs;
      DefinitionsMean(g, m);
      DefinitionsMean(h, m);
      assert ClauseTrue(m, cs[0]) && ClauseTrue(m, cs[1]) && ClauseTrue(m, cs[2]);
    case Or(g, h) =>
      assert forall c :: c in Definitions(g) || c in Definitions(h) ==> c in cs;
      DefinitionsMean(g, m);
      DefinitionsMean(h, m);
      assert ClauseTrue(m, cs[0]) && ClauseTrue(m, cs[1]) && ClauseTrue(m, cs[2]);
  }

  /** An obligation formula of f after simplification: the same value in every state, and
      no constant inside. */
  ghost predicate Obliges(f: Formula, g: Formula) {
    && IsNnf(f) && IsBoolean(g) && (g.True? || g.False? || ConstantFree(g))
    && forall s: State :: Eval(g, s) == Eval(Off(f), s)
  }

  /** A propositional formula holds at the start of a word exactly if it is true there. */
  lemma {:induction false} BooleanOnWord(f: Formula, s: State)
    requires IsBoolean(f)
    ensures 0 in Words.WordPositions(f, i => s) <==> Eval(f, s)
  {
    match f
    case Or(g, h) => BooleanOnWord(g, s); BooleanOnWord(h, s);
    case And(g, h) => BooleanOnWord(g, s); BooleanOnWord(h, s);
    case _ =>
  }

  lemma {:induction false} SettledBoolean(f: Formula)
    requires IsBoolean(f)
    ensures Simplification.Ready(f)
    ensures NoLooseConstants(f) ==> ConstantFree(f)
  {
    if IsAndOr(f) {
      SettledBoolean(f.l);
      SettledBoolean(f.r);
    }
  }

  /** Simplifying a propositional formula keeps its value in every state. */
  lemma SimplifiedEval(f: Formula, g: Formula)
    requires IsBoolean(f) && Simplification.Simplified(f, g)
    ensures IsBoolean(g) && (g.True? || g.False? || ConstantFree(g))
    ensures forall s: State :: Eval(g, s) == Eval(f, s)
  {
    SettledBoolean(g);
    forall s: State ensures Eval(g, s) == Eval(f, s) {
      BooleanOnWord(f, s);
      BooleanOnWord(g, s);
      assert Words.WordPositions(f, i => s) == Words.WordPositions(g, i => s);
    }
  }

  /** The obligation formula, simplified at every step of the recursion. */
  method SimplifiedOff(f: Formula, simplifier: Simplification.Simplifier) returns (g: Formula)
    requires IsNnf(f) && Simplification.CacheOk(simplifier.simp)
    modifies simplifier
    ensures Simplification.CacheOk(simplifier.simp) && Obliges(f, g)
    decreases f
  {
    hide Simplification.Simplified, Simplification.CacheOk, Simplification.Ready;
    var result := f;
    match f {
      case Or(l, r) =>
        var a := SimplifiedOff(l, simplifier);
        var b := SimplifiedOff(r, simplifier);
        result := Or(a, b);
      case And(l, r) =>
        var a := SimplifiedOff(l, simplifier);
        var b := SimplifiedOff(r, simplifier);
        result := And(a, b);
      case Next(r) => result := SimplifiedOff(r, simplifier);
      case WNext(r) => result := SimplifiedOff(r, simplifier);
      case Until(_, r) => result := SimplifiedOff(r, simplifier);
      case Release(_, r) => result := Ofr(r);
      case _ =>
    }
    assert IsBoolean(result) && forall s: State :: Eval(result, s) == Eval(Off(f), s);
    SettledBoolean(result);
    g := simplifier.Simplify(result);
    SimplifiedEval(result, g);
  }

  /** The one-state test, simplified at every step of the recursion. */
  method SimplifiedOfg(f: Formula, simplifier: Simplification.Simplifier) returns (g: Formula)
    requires IsNnf(f) && Simplification.CacheOk(simplifier.simp)
    modifies simplifier
    ensures Simplification.CacheOk(simplifier.simp) && IsBoolean(g)
    ensures forall s: State :: Eval(g, s) <==> Holds(f, [s], 0)
    decreases f
  {
    hide Simplification.Simplified, Simplification.CacheOk, Simplification.Ready, Positions;
    var result := f;
    match f {
      case Or(l, r) =>
        var a := SimplifiedOfg(l, simplifier);
        var b := SimplifiedOfg(r, simplifier);
        result := Or(a, b);
      case And(l, r) =>
        var a := SimplifiedOfg(l, simplifier);
        var b := SimplifiedOfg(r, simplifier);
        result := And(a, b);
      case Next(_) => result := False;
      case WNext(_) => result := True;
      case Until(_, r) => result := SimplifiedOfg(r, simplifier);
      case Release(_, r) => result := SimplifiedOfg(r, simplifier);
      case _ =>
    }
    forall s: State ensures Eval(result, s) <==> Holds(f, [s], 0) { OneStateStep(f, result, s); }
    SettledBoolean(result);
    g := simplifier.Simplify(result);
    SimplifiedEval(result, g);
  }

  lemma OneStateStep(f: Formula, g: Formula, s: State)
    requires IsNnf(f)
    requires match f
      case Or(l, r) => g.Or? && (Eval(g.l, s) <==> Holds(l, [s], 0)) && (Eval(g.r, s) <==> Holds(r, [s], 0))
      case And(l, r) => g.And? && (Eval(g.l, s) <==> Holds(l, [s], 0)) && (Eval(g.r, s) <==> Holds(r, [s], 0))
      case Next(_) => g == False
      case WNext(_) => g == True
      case Until(_, r) => Eval(g, s) <==> Holds(r, [s], 0)
      case Release(_, r) => Eval(g, s) <==> Holds(r, [s], 0)
      case _ => g == f
    ensures Eval(g, s) <==> Holds(f, [s], 0)
  {
    OfgIsOneState(f, s);
    match f
    case Or(l, r) => OfgIsOneState(l, s); OfgIsOneState(r, s);
    case And(l, r) => OfgIsOneState(l, s); OfgIsOneState(r, s);
    case Until(_, r) => OfgIsOneState(r, s);
    case Release(_, r) => OfgIsOneState(r, s);
    case _ =>
  }

  /** The obligations of all items hold in one state: the items are consistent. */
  lemma {:induction false} ObligationsSuffice(items: seq<Formula>, s: State)
    requires forall f :: f in items ==> IsNnf(f) && Eval(Off(f), s)
    ensures Consistent(items)
  {
    var n := MaxDepth(items) + 1;
    forall f | f in items ensures Holds(f, Repeat(s, n), 0) { OffHolds(f, s, n, 0); }
    assert AllHold(items, Repeat(s, n));
  }

  ghost function MaxDepth(items: seq<Formula>): (d: nat)
    ensures forall f :: f in items ==> Depth(f) <= d
  {
    if items == [] then 0 else
      var d, e := MaxDepth(items[1..]), Depth(items[0]);
      if d < e then e else d
  }

  lemma {:induction false} ConjunctsNnf(f: Formula)
    requires IsNnf(f)
    ensures forall g :: g in ToSet(f) ==> IsNnf(g)
  {
    if f.And? {
      ConjunctsNnf(f.l);
      ConjunctsNnf(f.r);
    }
  }

  /** A literal read in a state. */
  predicate TrueIn(s: State, l: Lit<Id>) { Eval(l.v, s) == l.pos }

  predicate ClauseTrueIn(s: State, c: Clause<Id>) { exists l :: l in c && TrueIn(s, l) }

  /** Every state gives all nodes values that satisfy the definitions. */
  lemma {:induction false} DefinitionsHold(f: Formula, s: State)
    requires IsBoolean(f)
    ensures forall c :: c in Definitions(f) ==> ClauseTrueIn(s, c)
  {
    var cs := Definitions(f);
    match f
    case True | False | Atom(_) =>
    case Not(g) =>
      assert TrueIn(s, cs[0][0]) || TrueIn(s, cs[0][1]);
      assert TrueIn(s, cs[1][0]) || TrueIn(s, cs[1][1]);
    case And(g, h) =>
      DefinitionsHold(g, s);
      DefinitionsHold(h, s);
      assert TrueIn(s, cs[0][0]) || TrueIn(s, cs[0][1]);
      assert TrueIn(s, cs[1][0]) || TrueIn(s, cs[1][1]);
      assert TrueIn(s, cs[2][0]) || TrueIn(s, cs[2][1]) || TrueIn(s, cs[2][2]);
    case Or(g, h) =>
      DefinitionsHold(g, s);
      DefinitionsHold(h, s);
      assert TrueIn(s, cs[0][0]) || TrueIn(s, cs[0][1]);
      assert TrueIn(s, cs[1][0]) || TrueIn(s, cs[1][1]);
      assert TrueIn(s, cs[2][0]) || TrueIn(s, cs[2][1]) || TrueIn(s, cs[2][2]);
  }

  /** The values of all variables of the clauses in a state. */
  lemma StateGivesModel(clauses: seq<Clause<Id>>, ls: seq<Lit<Id>>, s: State) returns (m: set<Id>)
    requires forall c :: c in clauses ==> ClauseTrueIn(s, c)
    requires forall l :: l in ls ==> TrueIn(s, l)
    ensures Models(m, clauses) && AllTrue(m, ls)
  {
    var vars := (set c, l | c in clauses && l in c :: l.v) + Vars(ls);
    m := set g | g in vars && Eval(g, s);
    forall c | c in clauses ensures ClauseTrue(m, c) {
      var l :| l in c && TrueIn(s, l);
      assert LitTrue(m, l);
    }
  }

  ghost predicate Defined(f: Formula, clauses: seq<Clause<Id>>) {
    forall c :: c in Definitions(f) ==> c in clauses
  }

  /** In a model where the variable of an obligation is true, the obligation holds. */
  lemma ObligationHolds(f: Formula, g: Formula, clauses: seq<Clause<Id>>, m: set<Id>)
    requires Obliges(f, g) && !g.False? && Defined(g, clauses) && Models(m, clauses) && g in m
    ensures Eval(Off(f), StateIn(m))
  {
    assert Models(m, Definitions(g));
    if !g.True? { DefinitionsMean(g, m); }
  }

  lemma ObligesBoolean(f: Formula, g: Formula)
    requires Obliges(f, g)
    ensures IsBoolean(g) && IsNnf(f)
    ensures forall s: State :: Eval(g, s) == Eval(Off(f), s)
  {
  }

  /** No state satisfies the obligation. */
  ghost predicate Never(f: Formula) { forall s: State :: !Eval(Off(f), s) }

  /** That is so of a conjunct of the chosen item, or of another item. */
  ghost predicate SomeNever(items: seq<Formula>, index: nat)
    requires index < |items|
  {
    || (exists f :: f in ToSet(items[index]) && Never(f))
    || (exists i :: 0 <= i < |items| && i != index && Never(items[i]))
  }

  /** Some state satisfies the obligations of all items. */
  ghost predicate Obligable(items: seq<Formula>) { exists s: State :: AllOblige(items, s) }

  ghost predicate AllOblige(items: seq<Formula>, s: State) { forall f :: f in items ==> Eval(Off(f), s) }

  lemma FalseIsNever(f: Formula, g: Formula)
    requires Obliges(f, g) && g.False?
    ensures Never(f)
  {
    forall s: State ensures !Eval(Off(f), s) { assert Eval(g, s) == Eval(Off(f), s); }
  }

  lemma FalseLiteral(s: State, l: Lit<Id>)
    requires l.pos && !TrueIn(s, l)
    ensures !Eval(l.v, s)
  {
  }

  class UCSolver {
    const items: seq<Formula>
    const index: nat
    var clauses: seq<Clause<Id>>
    var assumption: seq<Lit<Id>>
    var idFormulaMap: map<Id, Formula>
    var falseDetected: bool
    var conflict: seq<Lit<Id>>

    ghost predicate Inputs() { index < |items| && forall f :: f in items ==> IsNnf(f) }

    /** The formula g is an obligation that the solver knows about. */
    ghost predicate Known(f: Formula, g: Formula)
      reads this`clauses, this`falseDetected
    {
      Obliges(f, g) && Defined(g, clauses) && (g.False? ==> falseDetected)
    }

    /** The obligation of a conjunct of the chosen item is an assumption. */
    ghost predicate Assumed(f: Formula)
      reads this`clauses, this`falseDetected, this`assumption
    {
      exists g :: Known(f, g) && Lit(g, true) in assumption
    }

    /** The obligation of another item is a unit clause. */
    ghost predicate Fixed(f: Formula)
      reads this`clauses, this`falseDetected
    {
      exists g :: Known(f, g) && [Lit(g, true)] in clauses
    }

    /** The state satisfies the obligations of all items but the chosen one. */
    ghost predicate OthersHold(s: State)
      requires Inputs()
    {
      forall i :: 0 <= i < |items| && i != index ==> Eval(Off(items[i]), s)
    }

    /** Each assumption stands for a conjunct of the chosen item, and the clauses say no
        more than the definitions and the other items do. */
    ghost predicate Sound()
      reads this`clauses, this`assumption, this`idFormulaMap, this`falseDetected
    {
      && Inputs()
      && (forall l :: l in assumption ==> l.pos && l.v in idFormulaMap)
      && (forall id :: id in idFormulaMap ==>
            idFormulaMap[id] in ToSet(items[index]) && Obliges(idFormulaMap[id], id))
      && (forall s: State, c :: OthersHold(s) && c in clauses ==> ClauseTrueIn(s, c))
      && (falseDetected ==> SomeNever(items, index))
    }

    ghost predicate Valid()
      reads this`clauses, this`assumption, this`idFormulaMap, this`falseDetected
    {
      && Sound()
      && (forall f :: f in ToSet(items[index]) ==> Assumed(f))
      && (forall i :: 0 <= i < |items| && i != index ==> Fixed(items[i]))
    }

    constructor (afs: seq<Formula>, assumptionIdx: nat)
      requires assumptionIdx < |afs| && forall f :: f in afs ==> IsNnf(f)
      ensures Valid() && items == afs && index == assumptionIdx && conflict == []
    {
      hide Definitions, ClauseTrueIn, OthersHold, ToSet, Obliges, Simplification.CacheOk, IsNnf, SomeNever, Assumed;
      hide Fixed;
      items, index := afs, assumptionIdx;
      clauses, assumption, idFormulaMap, falseDetected, conflict := [], [], map[], false, [];
      new;
      ConjunctsNnf(items[index]);
      var simplifier := new Simplification.Simplifier();
      AssumeConjuncts(simplifier);
      FixOthers(simplifier);
    }

    method AssumeConjuncts(simplifier: Simplification.Simplifier)
      requires Sound() && forall f :: f in ToSet(items[index]) ==> IsNnf(f)
      requires Simplification.CacheOk(simplifier.simp)
      modifies this, simplifier
      ensures Simplification.CacheOk(simplifier.simp)
      ensures Sound() && conflict == old(conflict)
      ensures forall f :: f in ToSet(items[index]) ==> Assumed(f)
    {
      var rest := ToSet(items[index]);
      while rest != {}
        invariant rest <= ToSet(items[index]) && Simplification.CacheOk(simplifier.simp)
        invariant Sound() && conflict == old(conflict)
        invariant forall f :: f in ToSet(items[index]) - rest ==> Assumed(f)
        decreases rest
      {
        var f :| f in rest;
        AssumeConjunct(f, simplifier);
        rest := rest - {f};
      }
    }

    method AssumeConjunct(f: Formula, simplifier: Simplification.Simplifier)
      requires Sound() && f in ToSet(items[index]) && IsNnf(f) && Simplification.CacheOk(simplifier.simp)
      modifies this, simplifier
      ensures Simplification.CacheOk(simplifier.simp)
      ensures Sound() && Assumed(f) && conflict == old(conflict)
      ensures forall g :: old(Assumed(g)) ==> Assumed(g)
    {
      hide Definitions, ClauseTrueIn, OthersHold, ToSet, Obliges, Simplification.CacheOk;
      var af := SimplifiedOff(f, simplifier);
      ObligesBoolean(f, af);
      if af == False {
        FalseIsNever(f, af);
        falseDetected := true;
      }
      if af !in idFormulaMap { idFormulaMap := idFormulaMap[af := f]; }
      assumption := assumption + [Lit(af, true)];
      CreateClausesFor(af);
      KnownKept(old(clauses), Definitions(af));
      assert Known(f, af);
    }

    method FixOthers(simplifier: Simplification.Simplifier)
      requires Sound() && forall f :: f in ToSet(items[index]) ==> Assumed(f)
      requires Simplification.CacheOk(simplifier.simp)
      modifies this, simplifier
      ensures Valid() && conflict == old(conflict)
    {
      hide Assumed, Fixed, ToSet, Simplification.CacheOk, ClauseTrueIn, OthersHold, Obliges, IsNnf;
      var i := 0;
      while i < |items|
        invariant i <= |items| && Simplification.CacheOk(simplifier.simp)
        invariant Sound() && conflict == old(conflict)
        invariant forall f :: f in ToSet(items[index]) ==> Assumed(f)
        invariant forall j :: 0 <= j < i && j != index ==> Fixed(items[j])
      {
        if i != index { FixOther(i, simplifier); }
        i := i + 1;
      }
    }

    method FixOther(i: nat, simplifier: Simplification.Simplifier)
      requires Sound() && i < |items| && i != index && Simplification.CacheOk(simplifier.simp)
      modifies this, simplifier
      ensures Simplification.CacheOk(simplifier.simp)
      ensures Sound() && Fixed(items[i]) && conflict == old(conflict)
      ensures forall g :: old(Assumed(g)) ==> Assumed(g)
      ensures forall g :: old(Fixed(g)) ==> Fixed(g)
    {
      hide Definitions, ToSet, Obliges, Simplification.CacheOk;
      var af := SimplifiedOff(items[i], simplifier);
      ObligesBoolean(items[i], af);
      if af == False {
        FalseIsNever(items[i], af);
        falseDetected := true;
      }
      forall s: State | OthersHold(s) ensures ClauseTrueIn(s, [Lit(af, true)]) {
        assert TrueIn(s, [Lit(af, true)][0]);
      }
      clauses := clauses + [[Lit(af, true)]];
      CreateClausesFor(af);
      KnownKept(old(clauses), [[Lit(af, true)]] + Definitions(af));
      assert Known(items[i], af);
    }

    lemma KnownKept(before: seq<Clause<Id>>, more: seq<Clause<Id>>)
      requires clauses == before + more
      ensures forall g: Formula :: Defined(g, before) ==> Defined(g, clauses)
    {
    }

    /** Adds the definitions of the nodes below af. */
    method CreateClausesFor(af: Formula)
      requires IsBoolean(af)
      requires Inputs() && forall s: State, c :: OthersHold(s) && c in clauses ==> ClauseTrueIn(s, c)
      modifies this`clauses
      ensures clauses == old(clauses) + Definitions(af)
      ensures forall s: State, c :: OthersHold(s) && c in clauses ==> ClauseTrueIn(s, c)
    {
      forall s: State, c | c in Definitions(af) ensures ClauseTrueIn(s, c) { DefinitionsHold(af, s); }
      AddDefinitions(af);
    }

    method AddDefinitions(af: Formula)
      modifies this`clauses
      ensures clauses == old(clauses) + Definitions(af)
    {
      hide Definition;
      clauses := clauses + Definition(af);
      if IsAndOr(af) {
        AddDefinitions(af.l);
        AddDefinitions(af.r);
      }
    }

    /** A model of the clauses and assumptions shows the items consistent. */
    lemma ModelMeansConsistent(m: set<Id>)
      requires Valid() && !falseDetected && Models(m, clauses) && AllTrue(m, assumption)
      ensures Consistent(items) && Obligable(items)
    {
      var s := StateIn(m);
      forall f | f in items ensures Eval(Off(f), s) {
        var i :| 0 <= i < |items| && items[i] == f;
        if i == index {
          forall g | g in ToSet(f) ensures Eval(Off(g), s) {
            assert Assumed(g);
            var o :| Known(g, o) && Lit(o, true) in assumption;
            assert LitTrue(m, Lit(o, true));
            ObligationHolds(g, o, clauses, m);
          }
          OffOfConjunction(f, s);
        } else {
          assert Fixed(f);
          var o :| Known(f, o) && [Lit(o, true)] in clauses;
          assert ClauseTrue(m, [Lit(o, true)]);
          ObligationHolds(f, o, clauses, m);
        }
      }
      assert AllOblige(items, s);
      ObligationsSuffice(items, s);
    }

    /** The literals of assumed obligations hold in a state that satisfies them all. */
    lemma ObligableHasModel()
      requires Valid() && Obligable(items)
      ensures !Unsat(clauses, assumption)
    {
      hide ToSet, Off, Eval, Assumed, Fixed;
      var s: State :| AllOblige(items, s);
      assert OthersHold(s);
      forall l | l in assumption ensures TrueIn(s, l) {
        assert Eval(Off(items[index]), s);
        PartsObliged(items[index], s);
        ObligesBoolean(idFormulaMap[l.v], l.v);
        assert Eval(l.v, s) == Eval(Off(idFormulaMap[l.v]), s);
      }
      var m := StateGivesModel(clauses, assumption, s);
    }

    /** If no obligation is false, the answer is whether one state satisfies all
        obligations, which makes the items consistent: for inconsistent items there is
        always a core. */
    method SAT() returns (sat: bool)
      requires Valid()
      modifies this`conflict
      ensures Valid() && (sat <==> !Unsat(clauses, assumption))
      ensures !falseDetected ==> (sat <==> Obligable(items)) && (sat ==> Consistent(items))
      ensures !sat ==> (forall l :: l in conflict ==> l in assumption) && Unsat(clauses, conflict)
      ensures !sat ==> AaltaSolver.BlamedCore(clauses, assumption, conflict)
    {
      hide Valid, Consistent, Obligable, AaltaSolver.BlamedCore;
      var ans := AaltaSolver.SolveLimited(clauses, assumption);
      sat := ans.Model?;
      if sat {
        if !falseDetected { ModelMeansConsistent(ans.model); }
      } else {
        conflict := ans.core;
        CoreOfAssumptions(clauses, assumption, conflict);
        if Obligable(items) { ObligableHasModel(); }
      }
    }

    /** The conjuncts of the chosen item whose obligations are in the conflict: these
        obligations contradict those of the other items. */
    method GetUcFormulas() returns (res: seq<Formula>)
      requires Valid() && (forall l :: l in conflict ==> l in assumption) && Unsat(clauses, conflict)
      ensures Blames(res) && forall f :: f in res ==> f in ToSet(items[index]) && IsNnf(f)
      ensures forall s: State :: OthersHold(s) ==> exists f :: f in res && !Eval(Off(f), s)
    {
      hide ToSet, IsNnf, Off, Eval, OthersHold, ClauseTrueIn, Assumed, Fixed, Unsat, SomeNever;
      res := [];
      var i := 0;
      while i < |conflict|
        invariant i == |res| <= |conflict|
        invariant forall f :: f in res ==> f in ToSet(items[index]) && IsNnf(f)
        invariant forall j :: 0 <= j < i ==> conflict[j] in assumption && res[j] == idFormulaMap[conflict[j].v]
      {
        assert conflict[i] in assumption;
        res := res + [idFormulaMap[conflict[i].v]];
        i := i + 1;
      }
      forall s: State | OthersHold(s)
        ensures exists f :: f in res && !Eval(Off(f), s)
      {
        CoreFails(res, s);
      }
    }

    /** The formulas are those that the obligations of the conflict come from. */
    ghost predicate Blames(res: seq<Formula>)
      reads this`conflict, this`idFormulaMap
    {
      && |res| == |conflict|
      && forall i :: 0 <= i < |conflict| ==> conflict[i].v in idFormulaMap && res[i] == idFormulaMap[conflict[i].v]
    }

    /** A state of the other items in which all obligations of the core held would be a
        model of the conflict. */
    lemma CoreFails(res: seq<Formula>, s: State)
      requires Sound() && Unsat(clauses, conflict) && OthersHold(s)
      requires forall l :: l in conflict ==> l in assumption && idFormulaMap[l.v] in res
      ensures exists f :: f in res && !Eval(Off(f), s)
    {
      hide Off, Eval, ToSet;
      if forall l :: l in conflict ==> TrueIn(s, l) {
        var m := StateGivesModel(clauses, conflict, s);
      } else {
        var l :| l in conflict && !TrueIn(s, l);
        ObligesBoolean(idFormulaMap[l.v], l.v);
        assert Eval(l.v, s) == Eval(Off(idFormulaMap[l.v]), s);
        FalseLiteral(s, l);
      }
    }
  }

  lemma {:induction false} PartsObliged(f: Formula, s: State)
    requires Eval(Off(f), s)
    ensures forall g :: g in ToSet(f) ==> Eval(Off(g), s)
  {
    if f.And? {
      PartsObliged(f.l, s);
      PartsObliged(f.r, s);
    }
  }

  lemma CoreOfAssumptions(clauses: seq<Clause<Id>>, assumption: seq<Lit<Id>>, core: seq<Lit<Id>>)
    requires Unsat(clauses, core) && forall l :: l in core ==> l in assumption
    ensures Unsat(clauses, assumption)
  {
    forall m: set<Id> | Models(m, clauses) ensures !AllTrue(m, assumption) { assert !AllTrue(m, core); }
  }

  lemma {:induction false} OffOfConjunction(f: Formula, s: State)
    requires forall g :: g in ToSet(f) ==> Eval(Off(g), s)
    ensures Eval(Off(f), s)
  {
    if f.And? {
      OffOfConjunction(f.l, s);
      OffOfConjunction(f.r, s);
    }
  }
}
