/** The solver as the checkers use it: over their own variables, under assumptions. */
module AaltaSolver {
  import opened Cnf
  import opened Trails
  import opened Progress
  import opened CdclSolver

  /** A numbering of variables, without gaps. */
  datatype Numbering<!V> = Numbering(order: seq<V>, index: map<V, nat>)
  {
    ghost predicate Valid() {
      && (forall i :: 0 <= i < |order| ==> order[i] in index && index[order[i]] == i)
      && (forall v :: v in index ==> index[v] < |order| && order[index[v]] == v)
    }
  }

  /** The literal over numbers. */
  function NumberedLit<V>(n: Numbering<V>, l: Lit<V>): L
    requires l.v in n.index
  {
    Lit(n.index[l.v], l.pos)
  }

  predicate Numbered<V(==)>(n: Numbering<V>, c: seq<Lit<V>>) { forall l :: l in c ==> l.v in n.index }

  function NumberedClause<V>(n: Numbering<V>, c: seq<Lit<V>>): (r: seq<L>)
    requires Numbered(n, c)
    ensures |r| == |c| && forall i :: 0 <= i < |c| ==> r[i] == NumberedLit(n, c[i])
  {
    seq(|c|, i requires 0 <= i < |c| => NumberedLit(n, c[i]))
  }

  /** The same assignment over numbers and over variables. */
  ghost predicate Agree<V(!new)>(n: Numbering<V>, m: set<V>, k: set<nat>) {
    forall v :: v in n.index ==> (v in m <==> n.index[v] in k)
  }

  lemma ClauseAgree<V(!new)>(n: Numbering<V>, c: seq<Lit<V>>, m: set<V>, k: set<nat>)
    requires Numbered(n, c) && Agree(n, m, k)
    ensures ClauseTrue(m, c) <==> ClauseTrue(k, NumberedClause(n, c))
    ensures AllTrue(m, c) <==> AllTrue(k, NumberedClause(n, c))
  {
    var d := NumberedClause(n, c);
    assert forall i :: 0 <= i < |c| ==> (LitTrue(m, c[i]) <==> LitTrue(k, d[i]));
    if l :| l in c && LitTrue(m, l) {
      var i :| 0 <= i < |c| && c[i] == l;
      assert d[i] in d;
    }
    if l :| l in d && LitTrue(k, l) {
      var i :| 0 <= i < |d| && d[i] == l;
      assert c[i] in c;
    }
    if AllTrue(k, d) {
      forall l | l in c ensures LitTrue(m, l) {
        var i :| 0 <= i < |c| && c[i] == l;
        assert d[i] in d;
      }
    }
  }

  /** The clauses over numbers. */
  ghost predicate Renamed<V>(n: Numbering<V>, clauses: seq<Clause<V>>, F: seq<Clause<nat>>) {
    && |F| == |clauses|
    && forall i :: 0 <= i < |clauses| ==> Numbered(n, clauses[i]) && F[i] == NumberedClause(n, clauses[i])
  }

  lemma ModelsAgree<V(!new)>(n: Numbering<V>, clauses: seq<Clause<V>>, F: seq<Clause<nat>>, m: set<V>, k: set<nat>)
    requires Renamed(n, clauses, F) && Agree(n, m, k)
    ensures Models(m, clauses) <==> Models(k, F)
  {
    forall i | 0 <= i < |F| ensures ClauseTrue(m, clauses[i]) <==> ClauseTrue(k, F[i]) { ClauseAgree(n, clauses[i], m, k); }
    if Models(m, clauses) {
      forall d | d in F ensures ClauseTrue(k, d) {
        var i :| 0 <= i < |F| && F[i] == d;
        assert clauses[i] in clauses;
      }
    }
    if Models(k, F) {
      forall c | c in clauses ensures ClauseTrue(m, c) {
        var i :| 0 <= i < |F| && clauses[i] == c;
        assert F[i] in F;
      }
    }
  }

  /** The variables whose numbers are true. */
  function Denumber<V(==)>(n: Numbering<V>, k: set<nat>): set<V> { set v | v in n.index && n.index[v] in k }

  lemma DenumberAgrees<V(!new)>(n: Numbering<V>, k: set<nat>)
    ensures Agree(n, Denumber(n, k), k)
  {
  }

  /** The numbers of the true variables. */
  ghost function Numbers<V>(n: Numbering<V>, m: set<V>): set<nat> { set v | v in m && v in n.index :: n.index[v] }

  lemma NumbersAgree<V(!new)>(n: Numbering<V>, m: set<V>)
    requires n.Valid()
    ensures Agree(n, m, Numbers(n, m))
  {
    forall v | v in n.index && n.index[v] in Numbers(n, m) ensures v in m {
      var w :| w in m && w in n.index && n.index[w] == n.index[v];
      assert n.order[n.index[w]] == w && n.order[n.index[v]] == v;
    }
  }

  /** The core consists of the negations of the literals of the conflict, in that order. */
  ghost predicate Names<V>(n: Numbering<V>, core: seq<Lit<V>>, conflict: seq<L>) {
    && |core| == |conflict|
    && forall i :: 0 <= i < |core| ==> core[i].v in n.index && NumberedLit(n, core[i]) == conflict[i].Neg()
  }

  /** Over some numbering of the variables, the core consists of an assumption found false
      and of those that led to that, or is empty. */
  ghost predicate BlamedCore<V(!new)>(clauses: seq<Clause<V>>, assumptions: seq<Lit<V>>, core: seq<Lit<V>>) {
    exists n: Numbering<V>, F: seq<Clause<nat>>, conflict: seq<L> ::
      && n.Valid() && Renamed(n, clauses, F) && Numbered(n, assumptions) && Names(n, core, conflict)
      && (conflict == [] || Blamed(F, NumberedClause(n, assumptions), conflict))
  }

  /** The assumptions that the final conflict names. */
  method GetUc<V(==)>(n: Numbering<V>, assumptions: seq<Lit<V>>, conflict: seq<L>) returns (core: seq<Lit<V>>)
    requires n.Valid() && Numbered(n, assumptions)
    requires forall l :: l in conflict ==> l.Neg() in NumberedClause(n, assumptions)
    ensures Names(n, core, conflict) && forall l :: l in core ==> l in assumptions
  {
    core := [];
    var i := 0;
    while i < |conflict|
      invariant i == |core| <= |conflict|
      invariant forall j :: 0 <= j < i ==> core[j] in assumptions && core[j].v in n.index && NumberedLit(n, core[j]) == conflict[j].Neg()
    {
      assert conflict[i].Neg() in NumberedClause(n, assumptions);
      ghost var j :| 0 <= j < |assumptions| && NumberedClause(n, assumptions)[j] == conflict[i].Neg();
      assert assumptions[j] in assumptions && NumberedLit(n, assumptions[j]) == conflict[i].Neg();
      core := core + [Lit(n.order[conflict[i].v], !conflict[i].pos)];
      i := i + 1;
    }
  }

  lemma CoreIsUnsat<V(!new)>(n: Numbering<V>, clauses: seq<Clause<V>>, F: seq<Clause<nat>>, core: seq<Lit<V>>, conflict: seq<L>)
    requires n.Valid() && Renamed(n, clauses, F) && Entails(F, conflict) && Names(n, core, conflict)
    ensures Unsat(clauses, core)
  {
    forall m: set<V> | Models(m, clauses) ensures !AllTrue(m, core) {
      var k := Numbers(n, m);
      NumbersAgree(n, m);
      ModelsAgree(n, clauses, F, m, k);
      assert ClauseTrue(k, conflict);
      var l :| l in conflict && LitTrue(k, l);
      var i :| 0 <= i < |conflict| && conflict[i] == l;
      assert core[i] in core && !LitTrue(m, core[i]);
    }
  }

  /** Numbering more variables does not change what the clauses are over numbers. */
  lemma RenamedMore<V>(n: Numbering<V>, n2: Numbering<V>, clauses: seq<Clause<V>>, F: seq<Clause<nat>>)
    requires Renamed(n, clauses, F) && Extends(n, n2)
    ensures Renamed(n2, clauses, F)
  {
    forall i | 0 <= i < |clauses| ensures Numbered(n2, clauses[i]) && F[i] == NumberedClause(n2, clauses[i]) {}
  }

  ghost predicate Extends<V>(n: Numbering<V>, n2: Numbering<V>) {
    forall v :: v in n.index ==> v in n2.index && n2.index[v] == n.index[v]
  }

  /** One solver over a stream of clauses and queries. */
  class Incremental<V(==,!new)> {
    const solver: Solver
    var n: Numbering<V>
    var count: nat
    ghost var clauses: seq<Clause<V>>

    ghost predicate Open(b: bool) { true }

    /** What callers carry from call to call.  The quantifier keeps the details out of their
        proofs: it says Whole() as soon as Open is mentioned. */
    ghost predicate Valid()
      reads this, solver, solver.orderHeap
    {
      forall b: bool {:trigger Open(b)} :: Open(b) ==> Whole()
    }

    /** The solver has exactly the clauses given so far, over the numbers of their variables. */
    ghost predicate Whole()
      reads this, solver, solver.orderHeap
    {
      && solver.Valid() && solver.AllDecide()
      && n.Valid() && |n.order| == |solver.assigns| && count == |clauses|
      && Renamed(n, clauses, solver.formula)
    }

    constructor ()
      ensures Valid() && clauses == [] && fresh(solver) && fresh(solver.orderHeap)
    {
      hide Solver.Valid;
      solver := new Solver(2, 2, true);
      n, count, clauses := Numbering([], map[]), 0, [];
      new;
      assert Renamed(n, clauses, solver.formula);
      assert Open(true) && Whole();
    }

    /** Gives every variable of the literals a number, and the solver a variable for it. */
    method NumberVars(c: seq<Lit<V>>)
      requires Valid()
      modifies this, solver, solver.orderHeap
      ensures Valid() && clauses == old(clauses) && Numbered(n, c)
    {
      hide Solver.Valid, Renamed;
      assert Open(true);
      var i := 0;
      while i < |c|
        invariant i <= |c| && Whole() && clauses == old(clauses)
        invariant forall j :: 0 <= j < i ==> c[j].v in n.index
      {
        if c[i].v !in n.index {
          var v := solver.NewVar(true, true);
          var n2 := Numbering(n.order + [c[i].v], n.index[c[i].v := v]);
          RenamedMore(n, n2, clauses, solver.formula);
          n := n2;
        }
        i := i + 1;
      }
    }

    method AddClause(c: Clause<V>)
      requires Valid()
      modifies this, solver, solver.orderHeap
      ensures Valid() && clauses == old(clauses) + [c]
    {
      hide Solver.Valid;
      NumberVars(c);
      assert Open(true) && Whole();
      var res := solver.AddClause(NumberedClause(n, c));
      clauses, count := clauses + [c], count + 1;
      assert Whole();
    }

    /** Adds those of the clauses that have not been added before. */
    method Follow(all: seq<Clause<V>>)
      requires Valid() && clauses <= all
      modifies this, solver, solver.orderHeap
      ensures Valid() && clauses == all
    {
      hide Solver.Valid, Renamed;
      assert Open(true);
      while count < |all|
        invariant Valid() && Whole() && clauses <= all
        decreases |all| - count
      {
        AddClause(all[count]);
      }
    }

    /** A model of all clauses so far and of the assumptions, or assumptions that the
        clauses refute. */
    method Solve(assumptions: seq<Lit<V>>) returns (ans: Answer<V>)
      requires Valid()
      modifies this, solver, solver.orderHeap
      ensures Valid() && clauses == old(clauses)
      ensures ans.Model? ==> Models(ans.model, clauses) && AllTrue(ans.model, assumptions)
      ensures ans.Core? ==> (forall l :: l in ans.core ==> l in assumptions) && Unsat(clauses, ans.core)
      ensures ans.Core? ==> BlamedCore(clauses, assumptions, ans.core)
    {
      hide Solver.Valid, Blamed;
      NumberVars(assumptions);
      assert Open(true) && Whole();
      var status := solver.Solve(NumberedClause(n, assumptions));
      if status == LTrue {
        var k := TrueVars(solver.model);
        var m := Denumber(n, k);
        DenumberAgrees(n, k);
        ModelsAgree(n, clauses, solver.formula, m, k);
        ClauseAgree(n, assumptions, m, k);
        ans := Model(m);
      } else {
        var core := GetUc(n, assumptions, solver.conflict);
        CoreIsUnsat(n, clauses, solver.formula, core, solver.conflict);
        ans := Core(core);
      }
    }
  }

  /** A single query to a solver of its own. */
  method SolveLimited<V(==,!new)>(clauses: seq<Clause<V>>, assumptions: seq<Lit<V>>) returns (ans: Answer<V>)
    ensures ans.Model? ==> Models(ans.model, clauses) && AllTrue(ans.model, assumptions)
    ensures ans.Core? ==> (forall l :: l in ans.core ==> l in assumptions) && Unsat(clauses, ans.core)
    ensures ans.Core? ==> BlamedCore(clauses, assumptions, ans.core)
  {
    hide Solver.Valid, Incremental.Valid, BlamedCore;
    var s := new Incremental<V>();
    s.Follow(clauses);
    ans := s.Solve(assumptions);
  }
}
