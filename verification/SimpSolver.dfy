/** The simplifying solver: clauses are subsumed, strengthened, and distributed to get rid
    of variables; a model found afterwards is extended to the variables that are gone. */
module SimpSolvers {
  import opened Cnf
  import opened Trails
  import opened Elimination
  import opened Sets

  // ---------------------------------------------------------------- subsumption

  /** The result of comparing two clauses: nothing, subsumed, or a literal of the first
      whose negation can be deleted from the second. */
  datatype Comparison = Nothing | Subsumed | Strengthens(p: L)

  ghost predicate Subset(c: seq<L>, d: seq<L>) { forall l :: l in c ==> l in d }

  /** All literals of c but p are in d, and the negation of p is. */
  ghost predicate SubsetBut(c: seq<L>, d: seq<L>, p: L) {
    p in c && p.Neg() in d && forall l :: l in c && l != p ==> l in d
  }

  /** Variables modulo 32, as in the 32-bit abstraction of a clause. */
  function Abstraction(c: seq<L>): set<nat> { set l | l in c :: l.v % 32 }

  method Position(d: seq<L>, l: L) returns (found: bool, same: bool)
    requires Distinct(d)
    ensures found <==> l in d || l.Neg() in d
    ensures found ==> (same <==> l in d)
  {
    found, same := FindVar(d, l);
    if l in d || l.Neg() in d {
      var k :| 0 <= k < |d| && d[k].v == l.v;
    }
    if found {
      var k :| 0 <= k < |d| && d[k].v == l.v;
      assert d[k] == l || d[k] == l.Neg();
      assert d[k] in d;
    }
  }

  lemma {:induction false} DistinctVars(c: seq<L>)
    requires Distinct(c)
    ensures |Vars(c)| == |c|
  {
    if c != [] {
      var k := |c| - 1;
      DistinctVars(c[..k]);
      assert c == c[..k] + [c[k]];
      forall l | l in c[..k] ensures l.v != c[k].v {
        var i :| 0 <= i < k && c[..k][i] == l;
        assert c[i].v != c[k].v;
      }
      assert Vars(c) == Vars(c[..k]) + {c[k].v};
    }
  }

  /** Either relation needs all variables of c in d. */
  lemma SharesVars(c: seq<L>, d: seq<L>)
    requires Distinct(c) && Distinct(d)
    requires Subset(c, d) || exists p :: SubsetBut(c, d, p)
    ensures |c| <= |d| && Abstraction(c) <= Abstraction(d)
  {
    DistinctVars(c);
    DistinctVars(d);
    forall l | l in c ensures l in d || l.Neg() in d {}
    forall v | v in Vars(c) ensures v in Vars(d) {
      var l :| l in c && l.v == v;
      if l !in d { assert l.Neg() in d; }
    }
    SubsetSize(Vars(c), Vars(d));
    forall a | a in Abstraction(c) ensures a in Abstraction(d) {
      var l :| l in c && a == l.v % 32;
      if l !in d { assert l.Neg() in d; }
    }
  }

  /** Exactly one of three: c is part of d; c is part of d but for one literal that d has
      negated; or neither. */
  method Subsumes(c: seq<L>, d: seq<L>) returns (r: Comparison)
    requires Distinct(c) && Distinct(d)
    ensures r == Subsumed <==> Subset(c, d)
    ensures forall p :: r == Strengthens(p) <==> SubsetBut(c, d, p)
  {
    if Subset(c, d) || exists p :: SubsetBut(c, d, p) { SharesVars(c, d); }
    if |d| < |c| || !(Abstraction(c) <= Abstraction(d)) { return Nothing; }
    r := Subsumed;
    var i := 0;
    while i < |c|
      invariant i <= |c| && r != Nothing
      invariant r == Subsumed ==> forall l :: l in c[..i] ==> l in d
      invariant r.Strengthens? ==> r.p in c[..i] && r.p.Neg() in d && forall l :: l in c[..i] && l != r.p ==> l in d
    {
      var found, same := Position(d, c[i]);
      assert c[..i + 1] == c[..i] + [c[i]] && c[i] in c;
      if !found || (!same && r != Subsumed) {
        NotEither(c, d, i, r);
        return Nothing;
      }
      if !same {
        OppositeAbsent(d, c[i]);
        r := Strengthens(c[i]);
      }
      i := i + 1;
    }
    assert c[..i] == c;
    Outcome(c, d, r);
  }

  lemma OppositeAbsent(d: seq<L>, l: L)
    requires Distinct(d)
    ensures !(l in d && l.Neg() in d)
  {
    if l in d && l.Neg() in d { SameVar(d, l, l.Neg()); }
  }

  lemma NotEither(c: seq<L>, d: seq<L>, i: nat, r: Comparison)
    requires Distinct(c) && Distinct(d) && i < |c| && c[i] !in d
    requires c[i].Neg() !in d || (r.Strengthens? && r.p in c[..i] && r.p.Neg() in d)
    ensures !Subset(c, d) && forall p :: !SubsetBut(c, d, p)
  {
    assert c[i] in c;
    forall p ensures !SubsetBut(c, d, p) {
      if SubsetBut(c, d, p) {
        assert p == c[i];
        var k :| 0 <= k < i && c[..i][k] == r.p;
        assert c[k] in c && c[k] != c[i];
        OppositeAbsent(d, r.p);
      }
    }
  }

  lemma Outcome(c: seq<L>, d: seq<L>, r: Comparison)
    requires Distinct(c) && Distinct(d) && r != Nothing
    requires r == Subsumed ==> Subset(c, d)
    requires r.Strengthens? ==> SubsetBut(c, d, r.p)
    ensures r == Subsumed <==> Subset(c, d)
    ensures forall p :: r == Strengthens(p) <==> SubsetBut(c, d, p)
  {
    forall p | SubsetBut(c, d, p) ensures r == Strengthens(p) {
      OppositeAbsent(d, p);
      if r.Strengthens? { OppositeAbsent(d, r.p); }
    }
    if r.Strengthens? { OppositeAbsent(d, r.p); }
  }

  // ------------------------------------------------- what deleting and cutting mean

  /** Without the literal l. */
  function Strengthened(d: seq<L>, l: L): seq<L> {
    if d == [] then [] else
      var init := Strengthened(d[..|d| - 1], l);
      if d[|d| - 1] == l then init else init + [d[|d| - 1]]
  }

  lemma {:induction false} StrengthenedIs(d: seq<L>, l: L)
    requires Distinct(d)
    ensures Distinct(Strengthened(d, l)) && forall x :: x in Strengthened(d, l) <==> x in d && x != l
  {
    if d != [] {
      var k := |d| - 1;
      StrengthenedIs(d[..k], l);
      assert d == d[..k] + [d[k]];
      forall x | x in d[..k] ensures x.v != d[k].v {
        var i :| 0 <= i < k && d[..k][i] == x;
        assert d[i].v != d[k].v;
      }
    }
  }

  /** In any assignment, a subsumed clause is true if the other is. */
  lemma SubsumedTrue(M: Assignment, m: set<nat>, c: seq<L>, d: seq<L>)
    requires Subset(c, d)
    ensures SatBy(M, c) ==> SatBy(M, d)
    ensures ClauseTrue(m, c) ==> ClauseTrue(m, d)
  {
  }

  /** Cutting the literal ~p out of d changes nothing beside c. */
  lemma StrengthenedTrue(M: Assignment, m: set<nat>, c: seq<L>, d: seq<L>, p: L)
    requires SubsetBut(c, d, p) && Distinct(c) && Distinct(d)
    ensures SatBy(M, Strengthened(d, p.Neg())) ==> SatBy(M, d)
    ensures ClauseTrue(m, c) && ClauseTrue(m, d) ==> ClauseTrue(m, Strengthened(d, p.Neg()))
  {
    StrengthenedIs(d, p.Neg());
    if ClauseTrue(m, c) && ClauseTrue(m, d) {
      var l :| l in d && LitTrue(m, l);
      if l == p.Neg() {
        var k :| k in c && LitTrue(m, k);
        OppositeAbsent(c, p);
        assert k != p && k in d && k != p.Neg();
      }
    }
  }

  // -------------------------------------------------------------------- the solver

  ghost function SetOf(b: seq<bool>): set<nat> { set x: nat | x in Below(|b|) && b[x] }

  /** The records turn every model of the clauses into a model of the original ones. */
  ghost predicate Restores(original: seq<seq<L>>, clauses: seq<seq<L>>, rs: seq<seq<L>>, n: nat, V: set<nat>) {
    forall M: Assignment :: DefinedBut(M, n, V) && AllSat(M, clauses) ==>
      DefinedBut(ExtendAll(M, rs), n, {}) && AllSat(ExtendAll(M, rs), original)
  }

  ghost predicate Follows(original: seq<seq<L>>, clauses: seq<seq<L>>) {
    forall m: set<nat> :: Models(m, original) ==> Models(m, clauses)
  }

  /** One elimination, put before the earlier ones. */
  lemma RestoresStep(original: seq<seq<L>>, F: seq<seq<L>>, G: seq<seq<L>>, l: L, rs: seq<seq<L>>,
        more: seq<seq<L>>, n: nat, V: set<nat>)
    requires Restores(original, F, rs, n, V) && Over(F, n, V) && l.v < n && l.v !in V
    requires RecordsOf(F, l, more) && Eliminates(F, l, G)
    ensures Restores(original, G, rs + (more + [[l.Neg()]]), n, V + {l.v})
  {
    hide RecordsOf, Eliminates, Over, DefinedBut, AllSat;
    forall M: Assignment | DefinedBut(M, n, V + {l.v}) && AllSat(M, G)
      ensures DefinedBut(ExtendAll(M, rs + (more + [[l.Neg()]])), n, {})
      ensures AllSat(ExtendAll(M, rs + (more + [[l.Neg()]])), original)
    {
      RecordsRestore(F, l, G, more, M, n, V);
      ExtendAppend(M, rs, more + [[l.Neg()]]);
    }
  }

  lemma FollowsStep(original: seq<seq<L>>, F: seq<seq<L>>, v: nat, G: seq<seq<L>>)
    requires Follows(original, F) && FromOld(F, v, G) && forall c :: c in F ==> Distinct(c)
    ensures Follows(original, G)
  {
    hide FromOld, Models, Distinct;
    forall m: set<nat> | Models(m, original) ensures Models(m, G) { ModelsReduced(F, v, G, m); }
  }

  class SimpSolver {
    const nVars: nat
    const grow: int
    const clauseLim: int
    var clauses: seq<seq<L>>
    var frozen: seq<bool>
    var eliminated: seq<bool>
    var elimclauses: seq<nat>
    ghost var original: seq<seq<L>>
    ghost var records: seq<seq<L>>

    ghost predicate Valid()
      reads this
    {
      && |frozen| == |eliminated| == nVars && Over(clauses, nVars, SetOf(eliminated))
      && elimclauses == Flat(records)
      && (forall r: seq<L> :: r in records ==> r != [] && r[0].v < nVars)
      && Restores(original, clauses, records, nVars, SetOf(eliminated))
      && Follows(original, clauses)
    }

    constructor (n: nat, grow: int, clauseLim: int, cs: seq<seq<L>>)
      requires Over(cs, n, {})
      ensures Valid() && original == clauses == cs && nVars == n && eliminated == seq(n, _ => false)
    {
      this.nVars, this.grow, this.clauseLim := n, grow, clauseLim;
      clauses, original, records, elimclauses := cs, cs, [], [];
      frozen, eliminated := seq(n, _ => false), seq(n, _ => false);
      new;
      assert SetOf(eliminated) == {};
    }

    /** A record of the default value of a variable: literal l. */
    method MkElimUnit(l: L)
      requires elimclauses == Flat(records)
      modifies this`elimclauses, this`records
      ensures records == old(records) + [[l]] && elimclauses == Flat(records)
    {
      FlatPush(records, [l]);
      assert Encode([l]) == [ToInt(l), 1];
      elimclauses := elimclauses + [ToInt(l)];
      elimclauses := elimclauses + [1];
      records := records + [[l]];
    }

    /** A record of a clause, with the literal of v moved to the front. */
    method MkElimClause(v: nat, c: seq<L>, ghost l: L)
      requires elimclauses == Flat(records) && Distinct(c) && l in c && l.v == v
      modifies this`elimclauses, this`records
      ensures |records| == |old(records)| + 1 && records[..|old(records)|] == old(records)
      ensures elimclauses == Flat(records) && IsRecord(c, l, records[|old(records)|])
    {
      hide Flat, Encode, Distinct, IsRecord;
      var first := |elimclauses|;
      var vPos := 0;
      var i := 0;
      while i < |c|
        invariant i <= |c| && |elimclauses| == first + i && elimclauses[..first] == old(elimclauses)
        invariant forall k :: 0 <= k < i ==> elimclauses[first + k] == ToInt(c[k])
        invariant (exists k :: 0 <= k < i && c[k].v == v) ==> vPos < i && c[vPos].v == v
        invariant records == old(records)
      {
        elimclauses := elimclauses + [ToInt(c[i])];
        if c[i].v == v { vPos := i; }
        i := i + 1;
      }
      ghost var k :| 0 <= k < |c| && c[k] == l;
      SameVar(c, c[vPos], l);
      ghost var r := c[vPos := c[0]][0 := c[vPos]];
      SwapEncoded(old(elimclauses), elimclauses, c, vPos);
      var tmp := elimclauses[first + vPos];
      elimclauses := elimclauses[first + vPos := elimclauses[first]];
      elimclauses := elimclauses[first := tmp];
      elimclauses := elimclauses + [|c|];
      SwapRecord(c, vPos, l);
      FlatPush(records, r);
      records := records + [r];
    }
  
    /** The clauses with the variable, by its sign, and those without it. */
    method Split(v: nat) returns (pos: seq<seq<L>>, neg: seq<seq<L>>, rest: seq<seq<L>>)
      requires Over(clauses, nVars, SetOf(eliminated))
      ensures Sorted(clauses, v, pos, neg, rest)
      ensures pos == With(clauses, Lit(v, true)) && neg == With(clauses, Lit(v, false))
    {
      pos, neg, rest := [], [], [];
      var i := 0;
      while i < |clauses|
        invariant i <= |clauses| && Sorted(clauses[..i], v, pos, neg, rest)
        invariant pos == With(clauses[..i], Lit(v, true)) && neg == With(clauses[..i], Lit(v, false))
      {
        var c := clauses[i];
        assert clauses[..i + 1] == clauses[..i] + [c] && c in clauses;
        OppositeAbsent(c, Lit(v, true));
        SortedPush(clauses[..i], v, pos, neg, rest, c);
        if Lit(v, true) in c { pos := pos + [c]; }
        else if Lit(v, false) in c { neg := neg + [c]; }
        else { rest := rest + [c]; }
        i := i + 1;
      }
      assert clauses[..i] == clauses;
    }

    /** Would distribution make too many clauses, or too long ones? */
    method TooCostly(pos: seq<seq<L>>, neg: seq<seq<L>>, v: nat) returns (costly: bool)
      requires (forall c :: c in pos ==> Distinct(c)) && forall c :: c in neg ==> Distinct(c)
      ensures costly <==> Costs(pos, neg, v, grow, clauseLim)
    {
      hide Clash, IsResolvent, Distinct, ResolventLits;
      var cnt, i := 0, 0;
      while i < |pos|
        invariant i <= |pos| && cnt == PairCount(pos[..i], neg, v)
        invariant Modest(cnt, |pos| + |neg| + grow) && (clauseLim != -1 ==> !Long(pos[..i], neg, v, clauseLim))
      {
        var j := 0;
        while j < |neg|
          invariant j <= |neg| && cnt == PairCount(pos[..i], neg, v) + RowCount(pos[i], neg[..j], v)
          invariant Modest(cnt, |pos| + |neg| + grow) && (clauseLim != -1 ==> !Long([pos[i]], neg[..j], v, clauseLim))
        {
          assert pos[i] in pos && neg[j] in neg;
          var fine, out := Merge(pos[i], neg[j], v);
          RowNext(pos[i], neg, v, j, clauseLim);
          CountMore(pos, neg, v, i, j);
          if fine {
            ResolventSize(pos[i], neg[j], v, out);
            cnt := cnt + 1;
            if cnt > |pos| + |neg| + grow || (clauseLim != -1 && |out| > clauseLim) { return true; }
          }
          j := j + 1;
        }
        assert neg[..j] == neg;
        PairNext(pos, neg, v, i, clauseLim);
        i := i + 1;
      }
      assert pos[..i] == pos;
      costly := false;
    }

    /** Records for all clauses that contain l. */
    method RecordAll(cs: seq<seq<L>>, l: L)
      requires elimclauses == Flat(records) && forall c :: c in cs ==> Distinct(c) && l in c
      modifies this`elimclauses, this`records
      ensures elimclauses == Flat(records) && |records| == |old(records)| + |cs|
      ensures records[..|old(records)|] == old(records)
      ensures forall i :: 0 <= i < |cs| ==> IsRecord(cs[i], l, records[|old(records)| + i])
    {
      hide Flat, IsRecord;
      var i := 0;
      while i < |cs|
        invariant i <= |cs| && elimclauses == Flat(records)
        invariant |records| == |old(records)| + i && records[..|old(records)|] == old(records)
        invariant forall k :: 0 <= k < i ==> IsRecord(cs[k], l, records[|old(records)| + k])
      {
        assert cs[i] in cs;
        ghost var was := records;
        MkElimClause(l.v, cs[i], l);
        assert forall k :: 0 <= k < |was| ==> records[k] == was[k];
        i := i + 1;
      }
    }
  
    /** Deletes the clause at place j, which the one at place i subsumes. */
    method RemoveSubsumed(i: nat, j: nat)
      requires Valid() && i < |clauses| && j < |clauses| && i != j && Subset(clauses[i], clauses[j])
      modifies this`clauses
      ensures Valid() && clauses == DropAt(old(clauses), j) && Narrows(old(clauses), clauses)
    {
      hide Restores, Follows, Over, Distinct, Flat, Subset;
      DropKeeps(clauses, i, j);
      DropNarrows(clauses, i, j);
      Rewritten(original, clauses, DropAt(clauses, j), records, nVars, SetOf(eliminated));
      clauses := DropAt(clauses, j);
    }

    /** Deletes literal ~p from the clause at place j. */
    method StrengthenClause(i: nat, j: nat, p: L)
      requires Valid() && i < |clauses| && j < |clauses| && i != j && SubsetBut(clauses[i], clauses[j], p)
      modifies this`clauses
      ensures Valid() && clauses == old(clauses)[j := Strengthened(old(clauses)[j], p.Neg())]
      ensures Narrows(old(clauses), clauses)
    {
      hide Restores, Follows, Flat, SubsetBut;
      CutKeeps(clauses, i, j, p, nVars, SetOf(eliminated));
      var G := clauses[j := Strengthened(clauses[j], p.Neg())];
      ClauseDistinct(j);
      CutNarrows(clauses, j, p);
      Rewritten(original, clauses, G, records, nVars, SetOf(eliminated));
      clauses := G;
    }

    /** Compares the clause at place i0 with all others; what it strengthens is to be
        looked at again. */
    method SubsumeWith(i0: nat, ghost queue: seq<seq<L>>) returns (changed: seq<seq<L>>)
      requires Valid() && i0 < |clauses|
      modifies this`clauses
      ensures old(AllSeen(clauses, [clauses[i0]] + queue)) ==> AllSeen(clauses, queue + changed)
      ensures Valid() && (Size(clauses) < Size(old(clauses)) || (Size(clauses) == Size(old(clauses)) && changed == []))
      ensures Narrows(old(clauses), clauses)
    {
      hide Valid, Over, Distinct, Subset, SubsetBut, Strengthened, AllSeen, Scanning, Reduces, DropAt, Size, Narrows;
      NarrowsSame(clauses);
      changed := [];
      var i: nat, j: nat := i0, 0;
      ghost var all := AllSeen(clauses, [clauses[i0]] + queue);
      assert queue + changed == queue;
      if all { ScanStart(clauses, i, queue); }
      while j < |clauses|
        invariant Valid() && i < |clauses| && clauses[i] == old(clauses)[i0] && j <= |clauses|
        invariant Size(clauses) < Size(old(clauses)) || (Size(clauses) == Size(old(clauses)) && changed == [])
        invariant all ==> Scanning(clauses, i, j, queue + changed)
        invariant Narrows(old(clauses), clauses)
        decreases |clauses| - j
      {
        if j == i {
          if all { ScanSkip(clauses, i, j, queue + changed); }
          j := j + 1;
        } else {
          ClauseDistinct(i);
          ClauseDistinct(j);
          var r := Subsumes(clauses[i], clauses[j]);
          SizeDrop(clauses, j);
          match r
          case Nothing =>
            if all {
              NoReduction(clauses[i], clauses[j], r);
              ScanSkip(clauses, i, j, queue + changed);
            }
            j := j + 1;
          case Subsumed =>
            if all { ScanDrop(clauses, i, j, queue + changed); }
            DropAtIndex(clauses, i, j);
            ghost var was := clauses;
            RemoveSubsumed(i, j);
            NarrowsOn(old(clauses), was, clauses);
            if j < i { i := i - 1; }
          case Strengthens(p) =>
            var cut := Strengthened(clauses[j], p.Neg());
            if all {
              ScanCut(clauses, i, j, p, queue + changed);
              assert queue + changed + [cut] == queue + (changed + [cut]);
            }
            SizeCut(clauses, i, j, p);
            ghost var was := clauses;
            StrengthenClause(i, j, p);
            NarrowsOn(old(clauses), was, clauses);
            changed := changed + [cut];
            j := j + 1;
        }
      }
      if all { ScanEnd(clauses, i, queue + changed); }
    }

    lemma ClauseDistinct(i: nat)
      requires Valid() && i < |clauses|
      ensures Distinct(clauses[i])
    {
      assert clauses[i] in clauses;
    }

    /** Until the queue is empty: every queued clause that is still there is compared with
        all others. */
    method BackwardSubsumptionCheck(queue0: seq<seq<L>>)
      requires Valid()
      modifies this`clauses
      ensures Valid() && Size(clauses) <= Size(old(clauses)) && Narrows(old(clauses), clauses)
      ensures old(AllSeen(clauses, queue0)) ==> Irreducible(clauses)
    {
      hide Valid, AllSeen, Narrows;
      NarrowsSame(clauses);
      ghost var all := AllSeen(clauses, queue0);
      var queue := queue0;
      while queue != []
        invariant Valid() && Size(clauses) <= Size(old(clauses)) && (all ==> AllSeen(clauses, queue))
        invariant Narrows(old(clauses), clauses)
        decreases Size(clauses), |queue|
      {
        var c := queue[0];
        assert queue == [c] + queue[1..];
        queue := queue[1..];
        if c in clauses {
          var i :| 0 <= i < |clauses| && clauses[i] == c;
          ghost var was := clauses;
          var changed := SubsumeWith(i, queue);
          NarrowsOn(old(clauses), was, clauses);
          queue := queue + changed;
        } else if all {
          NotThere(clauses, c, queue);
        }
      }
      if all { AllSeenNone(clauses); }
    }

    /** Replaces the clauses of a variable by their resolvents, unless that costs too
        much, and records what is needed to give the variable a value later. */
    method EliminateVar(v: nat) returns (done: bool)
      requires Valid() && v < nVars && !frozen[v] && !eliminated[v]
      modifies this
      ensures Valid() && original == old(original) && frozen == old(frozen)
      ensures done <==> !Costs(With(old(clauses), Lit(v, true)), With(old(clauses), Lit(v, false)), v, grow, clauseLim)
      ensures done ==> eliminated == old(eliminated)[v := true]
      ensures done ==> Eliminates(old(clauses), Lit(v, true), clauses) && OnlyResolvents(old(clauses), v, clauses)
      ensures done ==> Recorded(old(clauses), Rarer(old(clauses), v), old(records), records)
      ensures !done ==> clauses == old(clauses) && eliminated == old(eliminated) && elimclauses == old(elimclauses)
    {
      hide Restores, Follows, Over, Distinct, Sorted, Flat, PairDone, FromPair, RecordsOf, Eliminates, FromOld, Costs;
      hide With, OnlyResolvents, Recorded;
      var pos, neg, rest := Split(v);
      SortedDistinct(clauses, v, pos, neg, rest, nVars, SetOf(eliminated));
      var costly := TooCostly(pos, neg, v);
      if costly { return false; }
      ghost var rs := records;
      ghost var l, more := RecordVariable(v, pos, neg, rest);
      var res := Distribute(pos, neg, v);
      Distributed(clauses, v, pos, neg, rest, res, Lit(v, true), nVars, SetOf(eliminated));
      ResolventsOnly(clauses, v, rest, res);
      RecordedIs(clauses, l, rs, more, records);
      Replace(v, l, pos, neg, rest, res, rs, more);
      done := true;
    }

    /** Records the clauses of the rarer sign, and the other sign as the default. */
    method RecordVariable(v: nat, pos: seq<seq<L>>, neg: seq<seq<L>>, ghost rest: seq<seq<L>>)
      returns (ghost l: L, ghost more: seq<seq<L>>)
      requires elimclauses == Flat(records) && Sorted(clauses, v, pos, neg, rest)
      requires (forall c :: c in pos ==> Distinct(c)) && forall c :: c in neg ==> Distinct(c)
      modifies this`elimclauses, this`records
      ensures elimclauses == Flat(records) && records == old(records) + (more + [[l.Neg()]])
      ensures l == (if |pos| > |neg| then Lit(v, false) else Lit(v, true)) && RecordsOf(clauses, l, more)
      ensures forall i :: 0 <= i < |more| ==> more[i] != [] && more[i][0] == l
    {
      hide Distinct, Sorted, Flat, RecordsOf;
      var k := if |pos| > |neg| then Lit(v, false) else Lit(v, true);
      var cs := if |pos| > |neg| then neg else pos;
      l := k;
      ghost var rs := records;
      SortedHas(clauses, v, pos, neg, rest, l);
      RecordAll(cs, k);
      more := records[|rs|..];
      AllRecorded(clauses, l, cs, more);
      MkElimUnit(k.Neg());
      assert records == rs + (more + [[l.Neg()]]);
    }

    /** The clauses of the variable give way to their resolvents. */
    method Replace(v: nat, ghost l: L, ghost pos: seq<seq<L>>, ghost neg: seq<seq<L>>, rest: seq<seq<L>>, res: seq<seq<L>>,
                   ghost rs: seq<seq<L>>, ghost more: seq<seq<L>>)
      requires |frozen| == |eliminated| == nVars && v < nVars && !eliminated[v] && l.v == v
      requires Over(clauses, nVars, SetOf(eliminated)) && Sorted(clauses, v, pos, neg, rest)
      requires Restores(original, clauses, rs, nVars, SetOf(eliminated)) && Follows(original, clauses)
      requires elimclauses == Flat(records) && records == rs + (more + [[l.Neg()]]) && RecordsOf(clauses, l, more)
      requires forall r: seq<L> :: r in rs ==> r != [] && r[0].v < nVars
      requires forall i :: 0 <= i < |more| ==> more[i] != [] && more[i][0] == l
      requires forall c, d :: c in pos && d in neg ==> PairDone(c, d, v, res)
      requires forall r :: r in res ==> FromPair(pos, neg, v, r)
      modifies this`clauses, this`eliminated
      ensures Valid() && clauses == rest + res && eliminated == old(eliminated)[v := true]
    {
      hide Restores, Follows, Over, Distinct, Sorted, Flat, PairDone, FromPair, RecordsOf, Eliminates, FromOld;
      Distributed(clauses, v, pos, neg, rest, res, l, nVars, SetOf(eliminated));
      EliminatedOne(eliminated, v);
      RestoresStep(original, clauses, rest + res, l, rs, more, nVars, SetOf(eliminated));
      OverDistinct(clauses, nVars, SetOf(eliminated));
      FollowsStep(original, clauses, v, rest + res);
      RecordsInRange(rs, more, l, nVars);
      eliminated := eliminated[v := true];
      clauses := rest + res;
    }

    /** Gives the eliminated variables values: a model of the original clauses. */
    method ExtendModel(model: Assignment) returns (full: Assignment)
      requires Valid() && DefinedBut(model, nVars, SetOf(eliminated)) && AllSat(model, clauses)
      ensures DefinedBut(full, nVars, {}) && AllSat(full, original)
    {
      full := Elimination.ExtendModel(elimclauses, model, records);
    }
  }

  lemma SortedDistinct(F: seq<seq<L>>, v: nat, pos: seq<seq<L>>, neg: seq<seq<L>>, rest: seq<seq<L>>, n: nat, V: set<nat>)
    requires Sorted(F, v, pos, neg, rest) && Over(F, n, V)
    ensures (forall c :: c in pos ==> Distinct(c)) && forall c :: c in neg ==> Distinct(c)
  {
  }

  lemma SortedHas(F: seq<seq<L>>, v: nat, pos: seq<seq<L>>, neg: seq<seq<L>>, rest: seq<seq<L>>, l: L)
    requires Sorted(F, v, pos, neg, rest) && l.v == v
    ensures forall c :: c in (if l.pos then pos else neg) <==> c in F && l in c
  {
  }

  lemma OverDistinct(F: seq<seq<L>>, n: nat, V: set<nat>)
    requires Over(F, n, V)
    ensures forall c :: c in F ==> Distinct(c)
  {
  }

  lemma EliminatedOne(b: seq<bool>, v: nat)
    requires v < |b| && !b[v]
    ensures SetOf(b[v := true]) == SetOf(b) + {v} && v !in SetOf(b)
  {
  }

  lemma AllRecorded(F: seq<seq<L>>, l: L, cs: seq<seq<L>>, more: seq<seq<L>>)
    requires |more| == |cs| && forall c :: c in cs <==> c in F && l in c
    requires forall i :: 0 <= i < |cs| ==> IsRecord(cs[i], l, more[i])
    ensures RecordsOf(F, l, more)
  {
    forall i | 0 <= i < |more| ensures RecordIn(F, l, more[i]) { assert cs[i] in cs; }
    forall c | c in F && l in c ensures HasRecord(more, c, l) {
      assert c in cs;
      var i :| 0 <= i < |cs| && cs[i] == c;
      assert IsRecord(c, l, more[i]);
    }
  }

  lemma RecordsInRange(rs: seq<seq<L>>, more: seq<seq<L>>, l: L, n: nat)
    requires forall r: seq<L> :: r in rs ==> r != [] && r[0].v < n
    requires forall i :: 0 <= i < |more| ==> more[i] != [] && more[i][0] == l
    requires l.v < n
    ensures forall r: seq<L> :: r in rs + (more + [[l.Neg()]]) ==> r != [] && r[0].v < n
  {
  }

  lemma Distributed(F: seq<seq<L>>, v: nat, pos: seq<seq<L>>, neg: seq<seq<L>>, rest: seq<seq<L>>,
        res: seq<seq<L>>, l: L, n: nat, V: set<nat>)
    requires Sorted(F, v, pos, neg, rest) && Over(F, n, V) && l.v == v
    requires forall c, d :: c in pos && d in neg ==> PairDone(c, d, v, res)
    requires forall r :: r in res ==> FromPair(pos, neg, v, r)
    ensures Eliminates(F, l, rest + res) && FromOld(F, v, rest + res) && Over(rest + res, n, V + {v})
  {
    hide PairDone;
    var G := rest + res;
    forall c, d | c in F && d in F && l in c && l.Neg() in d
      ensures Clash(c, d, l.v) || exists r :: r in G && IsResolvent(c, d, l.v, r)
    {
      if l.pos { PairResult(c, d, v, rest, res); } else { PairResult(d, c, v, rest, res); SwapPair(d, c, v, G); }
    }
    forall r | r in res ensures r in F || exists c, d :: c in F && d in F && Lit(v, true) in c && Lit(v, false) in d && IsResolvent(c, d, v, r) {
      assert FromPair(pos, neg, v, r);
    }
    forall r | r in res ensures Distinct(r) && forall x :: x in r ==> x.v < n && x.v !in V + {v} {
      var c, d :| c in pos && d in neg && IsResolvent(c, d, v, r);
    }
    forall c | c in rest ensures Distinct(c) && forall x :: x in c ==> x.v < n && x.v !in V + {v} {
      forall x | x in c ensures x.v != v { assert x == Lit(x.v, true) || x == Lit(x.v, false); }
    }
  }

  lemma PairResult(c: seq<L>, d: seq<L>, v: nat, rest: seq<seq<L>>, res: seq<seq<L>>)
    requires PairDone(c, d, v, res)
    ensures Clash(c, d, v) || exists r :: r in rest + res && IsResolvent(c, d, v, r)
  {
    if r :| r in res && IsResolvent(c, d, v, r) { assert r in rest + res; }
  }

  lemma SwapPair(c: seq<L>, d: seq<L>, v: nat, G: seq<seq<L>>)
    requires Clash(c, d, v) || exists r :: r in G && IsResolvent(c, d, v, r)
    ensures Clash(d, c, v) || exists r :: r in G && IsResolvent(d, c, v, r)
  {
    ClashSymmetric(c, d, v);
    if r :| r in G && IsResolvent(c, d, v, r) { assert IsResolvent(d, c, v, r); }
  }

  // ------------------------------------------------------------ rewriting clauses

  function DropAt(F: seq<seq<L>>, j: nat): seq<seq<L>>
    requires j < |F|
  {
    F[..j] + F[j + 1..]
  }

  /** The number of literals. */
  function Size(F: seq<seq<L>>): nat { if F == [] then 0 else Size(F[..|F| - 1]) + |F[|F| - 1]| }

  lemma {:induction false} SizeSet(F: seq<seq<L>>, j: nat, d: seq<L>)
    requires j < |F|
    ensures Size(F[j := d]) == Size(F) - |F[j]| + |d|
  {
    var k := |F| - 1;
    if j < k {
      SizeSet(F[..k], j, d);
      assert F[j := d][..k] == F[..k][j := d];
    } else {
      assert F[j := d][..k] == F[..k];
    }
  }

  lemma {:induction false} SizeDrop(F: seq<seq<L>>, j: nat)
    requires j < |F|
    ensures Size(DropAt(F, j)) == Size(F) - |F[j]|
    ensures |F[j]| == 0 ==> Size(DropAt(F, j)) == Size(F)
  {
    var k := |F| - 1;
    if j < k {
      SizeDrop(F[..k], j);
      assert DropAt(F, j)[..k - 1] == DropAt(F[..k], j);
    } else {
      assert DropAt(F, j) == F[..k];
    }
  }

  lemma SizeCut(F: seq<seq<L>>, i: nat, j: nat, p: L)
    requires i < |F| && j < |F| && SubsetBut(F[i], F[j], p)
    ensures Size(F[j := Strengthened(F[j], p.Neg())]) < Size(F)
  {
    SizeSet(F, j, Strengthened(F[j], p.Neg()));
    CutShorter(F[j], p.Neg());
  }

  lemma {:induction false} CutShorter(d: seq<L>, l: L)
    ensures |Strengthened(d, l)| <= |d| && (l in d ==> |Strengthened(d, l)| < |d|)
  {
    if d != [] {
      var k := |d| - 1;
      CutShorter(d[..k], l);
      assert d == d[..k] + [d[k]];
    }
  }

  lemma DropAtIndex(F: seq<seq<L>>, i: nat, j: nat)
    requires i < |F| && j < |F| && i != j
    ensures |DropAt(F, j)| == |F| - 1
    ensures var k := if j < i then i - 1 else i; k < |DropAt(F, j)| && DropAt(F, j)[k] == F[i]
  {
  }

  // ------------------------------------------------------ what is left to be compared

  /** The first clause subsumes the second, or strengthens it. */
  ghost predicate Reduces(c: seq<L>, d: seq<L>) { Subset(c, d) || exists p :: SubsetBut(c, d, p) }

  /** The clause at place i reduces no other. */
  ghost predicate Passive(F: seq<seq<L>>, i: nat)
    requires i < |F|
  {
    forall j :: 0 <= j < |F| && j != i ==> !Reduces(F[i], F[j])
  }

  /** Every clause that still reduces another is in the queue. */
  ghost predicate AllSeen(F: seq<seq<L>>, queue: seq<seq<L>>) {
    forall i :: 0 <= i < |F| ==> F[i] in queue || Passive(F, i)
  }

  /** No clause reduces another. */
  ghost predicate Irreducible(F: seq<seq<L>>) { forall i :: 0 <= i < |F| ==> Passive(F, i) }

  /** The clause at place i has been compared with those before place j. */
  ghost predicate Scanning(F: seq<seq<L>>, i: nat, j: nat, queue: seq<seq<L>>)
    requires i < |F|
  {
    && (forall k :: 0 <= k < |F| ==> k == i || F[k] == F[i] || F[k] in queue || Passive(F, k))
    && (forall k :: 0 <= k < |F| && k < j && k != i ==> !Reduces(F[i], F[k]))
  }

  lemma ScanStart(F: seq<seq<L>>, i: nat, queue: seq<seq<L>>)
    requires i < |F| && AllSeen(F, [F[i]] + queue)
    ensures Scanning(F, i, 0, queue)
  {
    hide Reduces, Passive;
    forall k | 0 <= k < |F| && F[k] in [F[i]] + queue ensures F[k] == F[i] || F[k] in queue {}
  }

  lemma ScanSkip(F: seq<seq<L>>, i: nat, j: nat, queue: seq<seq<L>>)
    requires i < |F| && j < |F| && Scanning(F, i, j, queue) && (j == i || !Reduces(F[i], F[j]))
    ensures Scanning(F, i, j + 1, queue)
  {
  }

  lemma PassiveDrop(F: seq<seq<L>>, k: nat, j: nat)
    requires k < |F| && j < |F| && k != j && Passive(F, k)
    ensures var m := if j < k then k - 1 else k; m < |DropAt(F, j)| && Passive(DropAt(F, j), m)
  {
    hide Reduces;
    var G, m := DropAt(F, j), if j < k then k - 1 else k;
    forall x | 0 <= x < |G| && x != m ensures !Reduces(G[m], G[x]) {
      assert G[x] == F[if x < j then x else x + 1] && G[m] == F[k];
    }
  }

  lemma ScanDrop(F: seq<seq<L>>, i: nat, j: nat, queue: seq<seq<L>>)
    requires i < |F| && j < |F| && i != j && Scanning(F, i, j, queue)
    ensures var m := if j < i then i - 1 else i; m < |DropAt(F, j)| && Scanning(DropAt(F, j), m, j, queue)
  {
    hide Reduces, Passive;
    var G, m := DropAt(F, j), if j < i then i - 1 else i;
    forall x | 0 <= x < |G| ensures x == m || G[x] == G[m] || G[x] in queue || Passive(G, x) {
      var k := if x < j then x else x + 1;
      assert G[x] == F[k] && G[m] == F[i];
      if Passive(F, k) { PassiveDrop(F, k, j); }
    }
    forall x | 0 <= x < |G| && x < j && x != m ensures !Reduces(G[m], G[x]) {
      assert G[x] == F[x] && G[m] == F[i];
    }
  }

  /** What reduces the cut clause reduced the clause before. */
  lemma CutReduces(c: seq<L>, d: seq<L>, l: L)
    requires Distinct(d) && Reduces(c, Strengthened(d, l))
    ensures Reduces(c, d)
  {
    StrengthenedIs(d, l);
    if p :| SubsetBut(c, Strengthened(d, l), p) { assert SubsetBut(c, d, p); }
  }

  /** A clause does not reduce what it has cut. */
  lemma CutIsDone(c: seq<L>, d: seq<L>, p: L)
    requires Distinct(d) && SubsetBut(c, d, p)
    ensures !Reduces(c, Strengthened(d, p.Neg()))
  {
    StrengthenedIs(d, p.Neg());
    OppositeAbsent(d, p.Neg());
  }

  lemma ScanCut(F: seq<seq<L>>, i: nat, j: nat, p: L, queue: seq<seq<L>>)
    requires i < |F| && j < |F| && i != j && Scanning(F, i, j, queue)
    requires SubsetBut(F[i], F[j], p) && Distinct(F[j])
    ensures var d := Strengthened(F[j], p.Neg()); Scanning(F[j := d], i, j + 1, queue + [d])
  {
    hide Reduces, SubsetBut, Strengthened, Distinct;
    var d := Strengthened(F[j], p.Neg());
    var G := F[j := d];
    CutIsDone(F[i], F[j], p);
    forall k | 0 <= k < |F| ensures k == i || G[k] == G[i] || G[k] in queue + [d] || Passive(G, k) {
      if k != j && Passive(F, k) {
        forall x | 0 <= x < |G| && x != k ensures !Reduces(G[k], G[x]) {
          if x == j && Reduces(G[k], d) { CutReduces(F[k], F[j], p.Neg()); }
        }
      }
    }
  }

  lemma ScanEnd(F: seq<seq<L>>, i: nat, queue: seq<seq<L>>)
    requires i < |F| && Scanning(F, i, |F|, queue)
    ensures AllSeen(F, queue)
  {
    assert Subset(F[i], F[i]) && Reduces(F[i], F[i]);
  }

  lemma AllSeenNone(F: seq<seq<L>>)
    requires AllSeen(F, [])
    ensures Irreducible(F)
  {
  }

  lemma NoReduction(c: seq<L>, d: seq<L>, r: Comparison)
    requires r == Nothing && (r == Subsumed <==> Subset(c, d)) && forall p :: r == Strengthens(p) <==> SubsetBut(c, d, p)
    ensures !Reduces(c, d)
  {
  }

  lemma NotThere(F: seq<seq<L>>, c: seq<L>, queue: seq<seq<L>>)
    requires AllSeen(F, [c] + queue) && c !in F
    ensures AllSeen(F, queue)
  {
    hide Passive;
    forall i | 0 <= i < |F| && F[i] in [c] + queue ensures F[i] in queue { assert F[i] in F; }
  }

  /** Every clause has a part among the new ones, and every new one is a part of a clause. */
  ghost predicate Narrows(F: seq<seq<L>>, G: seq<seq<L>>) {
    && (forall c :: c in F ==> HasPart(G, c))
    && (forall d :: d in G ==> IsPart(F, d))
  }

  ghost predicate HasPart(G: seq<seq<L>>, c: seq<L>) { exists d :: d in G && Subset(d, c) }

  ghost predicate IsPart(F: seq<seq<L>>, d: seq<L>) { exists c :: c in F && Subset(d, c) }

  lemma NarrowsSame(F: seq<seq<L>>)
    ensures Narrows(F, F)
  {
    forall c | c in F ensures HasPart(F, c) && IsPart(F, c) { assert Subset(c, c); }
  }

  lemma NarrowsOn(F: seq<seq<L>>, G: seq<seq<L>>, H: seq<seq<L>>)
    requires Narrows(F, G) && Narrows(G, H)
    ensures Narrows(F, H)
  {
    forall c | c in F ensures HasPart(H, c) {
      assert HasPart(G, c);
      var d :| d in G && Subset(d, c);
      assert HasPart(H, d);
      var e :| e in H && Subset(e, d);
      assert Subset(e, c);
    }
    forall e | e in H ensures IsPart(F, e) {
      assert IsPart(G, e);
      var d :| d in G && Subset(e, d);
      assert IsPart(F, d);
      var c :| c in F && Subset(d, c);
      assert Subset(e, c);
    }
  }

  lemma DropNarrows(F: seq<seq<L>>, i: nat, j: nat)
    requires i < |F| && j < |F| && i != j && Subset(F[i], F[j])
    ensures Narrows(F, DropAt(F, j))
  {
    hide Subset;
    var G := DropAt(F, j);
    forall k | 0 <= k < |F| && k != j ensures F[k] in G { assert F[k] == G[if k < j then k else k - 1]; }
    forall c | c in F ensures HasPart(G, c) {
      var k :| 0 <= k < |F| && F[k] == c;
      PartOfItself(c);
      if k == j { assert F[i] in G && Subset(F[i], c); }
    }
    forall d | d in G ensures IsPart(F, d) { PartOfItself(d); }
  }

  lemma CutNarrows(F: seq<seq<L>>, j: nat, p: L)
    requires j < |F| && Distinct(F[j])
    ensures Narrows(F, F[j := Strengthened(F[j], p.Neg())])
  {
    StrengthenedIs(F[j], p.Neg());
    var cut := Strengthened(F[j], p.Neg());
    var G := F[j := cut];
    assert Subset(cut, F[j]) && cut == G[j];
    hide Subset, Strengthened;
    forall c | c in F ensures HasPart(G, c) {
      var k :| 0 <= k < |F| && F[k] == c;
      PartOfItself(c);
      if k == j { assert cut in G; } else { assert c == G[k]; }
    }
    forall d | d in G ensures IsPart(F, d) {
      PartOfItself(d);
      if d == cut { assert F[j] in F; }
    }
  }

  lemma PartOfItself(c: seq<L>)
    ensures Subset(c, c)
  {
  }

  /** The new clauses are at least as strong in every assignment, and follow from the old. */
  ghost predicate Rewrites(F: seq<seq<L>>, G: seq<seq<L>>) {
    && (forall M: Assignment :: AllSat(M, G) ==> AllSat(M, F))
    && (forall m: set<nat> :: Models(m, F) ==> Models(m, G))
  }

  lemma Rewritten(original: seq<seq<L>>, F: seq<seq<L>>, G: seq<seq<L>>, rs: seq<seq<L>>, n: nat, V: set<nat>)
    requires Rewrites(F, G) && Restores(original, F, rs, n, V) && Follows(original, F)
    ensures Restores(original, G, rs, n, V) && Follows(original, G)
  {
    hide AllSat, Models, DefinedBut;
  }

  lemma DropKeeps(F: seq<seq<L>>, i: nat, j: nat)
    requires i < |F| && j < |F| && i != j && Subset(F[i], F[j])
    ensures Rewrites(F, DropAt(F, j))
    ensures forall n, V :: Over(F, n, V) ==> Over(DropAt(F, j), n, V)
  {
    var G := DropAt(F, j);
    forall c ensures (c in G ==> c in F) && (c in F && c != F[j] ==> c in G) {
      if c in F && c != F[j] {
        var k :| 0 <= k < |F| && F[k] == c;
        assert G[if k < j then k else k - 1] == c;
      }
    }
    assert F[i] in G by { DropAtIndex(F, i, j); }
    forall M: Assignment | AllSat(M, G) ensures AllSat(M, F) {
      forall c | c in F ensures SatBy(M, c) { if c == F[j] { SubsumedTrue(M, {}, F[i], F[j]); } }
    }
  }

  lemma CutKeeps(F: seq<seq<L>>, i: nat, j: nat, p: L, n: nat, V: set<nat>)
    requires i < |F| && j < |F| && i != j && SubsetBut(F[i], F[j], p) && Over(F, n, V)
    ensures Rewrites(F, F[j := Strengthened(F[j], p.Neg())])
    ensures Over(F[j := Strengthened(F[j], p.Neg())], n, V)
  {
    var d := Strengthened(F[j], p.Neg());
    var G := F[j := d];
    assert F[i] in F && F[j] in F;
    StrengthenedIs(F[j], p.Neg());
    assert G[j] == d && G[i] == F[i];
    forall c | c in G ensures c in F || c == d { var k :| 0 <= k < |G| && G[k] == c; assert k != j ==> F[k] == c; }
    forall M: Assignment | AllSat(M, G) ensures AllSat(M, F) {
      forall c | c in F ensures SatBy(M, c) {
        var k :| 0 <= k < |F| && F[k] == c;
        if k == j { StrengthenedTrue(M, {}, F[i], F[j], p); assert SatBy(M, G[j]); } else { assert G[k] == c; }
      }
    }
    forall m: set<nat> | Models(m, F) ensures Models(m, G) {
      StrengthenedTrue([], m, F[i], F[j], p);
    }
  }

  // ------------------------------------------------------------ what distribution costs

  /** The clauses with the literal, in order. */
  function With(F: seq<seq<L>>, l: L): seq<seq<L>> {
    if F == [] then []
    else With(F[..|F| - 1], l) + (if l in F[|F| - 1] then [F[|F| - 1]] else [])
  }

  ghost function ResolventLits(c: seq<L>, d: seq<L>, v: nat): set<L> {
    (set l | l in c && l.v != v) + (set l | l in d && l.v != v)
  }

  lemma {:induction false} DistinctSize(r: seq<L>)
    requires Distinct(r)
    ensures |set l | l in r| == |r|
  {
    if r != [] {
      var k := |r| - 1;
      DistinctSize(r[..k]);
      assert r == r[..k] + [r[k]];
      assert r[k] !in r[..k];
      assert (set l | l in r) == (set l | l in r[..k]) + {r[k]};
    }
  }

  lemma ResolventSize(c: seq<L>, d: seq<L>, v: nat, r: seq<L>)
    requires IsResolvent(c, d, v, r)
    ensures |r| == |ResolventLits(c, d, v)|
  {
    DistinctSize(r);
    assert (set l | l in r) == ResolventLits(c, d, v);
  }

  /** How many of the pairs have a resolvent that is no tautology. */
  ghost function RowCount(c: seq<L>, neg: seq<seq<L>>, v: nat): nat {
    if neg == [] then 0 else RowCount(c, neg[..|neg| - 1], v) + if Clash(c, neg[|neg| - 1], v) then 0 else 1
  }

  ghost function PairCount(pos: seq<seq<L>>, neg: seq<seq<L>>, v: nat): nat {
    if pos == [] then 0 else PairCount(pos[..|pos| - 1], neg, v) + RowCount(pos[|pos| - 1], neg, v)
  }

  /** Some resolvent is longer than the limit. */
  ghost predicate Long(pos: seq<seq<L>>, neg: seq<seq<L>>, v: nat, lim: int) {
    exists i, j :: 0 <= i < |pos| && 0 <= j < |neg| && !Clash(pos[i], neg[j], v) && |ResolventLits(pos[i], neg[j], v)| > lim
  }

  predicate Modest(cnt: nat, bound: int) { cnt == 0 || cnt <= bound }

  /** There are more resolvents than the clauses they replace and the growth allowed, or
      one that is too long. */
  ghost predicate Costs(pos: seq<seq<L>>, neg: seq<seq<L>>, v: nat, grow: int, lim: int) {
    !Modest(PairCount(pos, neg, v), |pos| + |neg| + grow) || (lim != -1 && Long(pos, neg, v, lim))
  }

  lemma RowNext(c: seq<L>, neg: seq<seq<L>>, v: nat, j: nat, lim: int)
    requires j < |neg|
    ensures RowCount(c, neg[..j + 1], v) == RowCount(c, neg[..j], v) + if Clash(c, neg[j], v) then 0 else 1
    ensures Long([c], neg[..j + 1], v, lim) <==>
              Long([c], neg[..j], v, lim) || (!Clash(c, neg[j], v) && |ResolventLits(c, neg[j], v)| > lim)
  {
    hide Clash, ResolventLits;
    var longer := neg[..j + 1];
    assert longer[..j] == neg[..j] && longer[j] == neg[j];
    forall k | 0 <= k < j ensures neg[..j][k] == longer[k] {}
    if !Clash(c, neg[j], v) && |ResolventLits(c, neg[j], v)| > lim { assert [c][0] == c && longer[j] == neg[j]; }
  }

  lemma PairNext(pos: seq<seq<L>>, neg: seq<seq<L>>, v: nat, i: nat, lim: int)
    requires i < |pos|
    ensures PairCount(pos[..i + 1], neg, v) == PairCount(pos[..i], neg, v) + RowCount(pos[i], neg, v)
    ensures Long(pos[..i + 1], neg, v, lim) <==> Long(pos[..i], neg, v, lim) || Long([pos[i]], neg, v, lim)
  {
    hide Clash, ResolventLits;
    var longer := pos[..i + 1];
    assert longer[..i] == pos[..i] && longer[i] == pos[i];
    forall k | 0 <= k < i ensures pos[..i][k] == longer[k] {}
    assert [pos[i]][0] == longer[i];
  }

  /** A count, or a long resolvent, found on the way is there in the end. */
  lemma CountMore(pos: seq<seq<L>>, neg: seq<seq<L>>, v: nat, i: nat, j: nat)
    requires i < |pos| && j < |neg|
    ensures PairCount(pos[..i], neg, v) + RowCount(pos[i], neg[..j + 1], v) <= PairCount(pos, neg, v)
  {
    hide Clash;
    RowMore(pos[i], neg, v, j + 1);
    PairMoreRows(pos, neg, v, i + 1);
    PairNext(pos, neg, v, i, 0);
  }

  lemma {:induction false} RowMore(c: seq<L>, neg: seq<seq<L>>, v: nat, j: nat)
    requires j <= |neg|
    ensures RowCount(c, neg[..j], v) <= RowCount(c, neg, v)
  {
    if j == |neg| {
      assert neg[..j] == neg;
    } else {
      var init := neg[..|neg| - 1];
      RowMore(c, init, v, j);
      assert init[..j] == neg[..j];
    }
  }

  lemma {:induction false} PairMoreRows(pos: seq<seq<L>>, neg: seq<seq<L>>, v: nat, i: nat)
    requires i <= |pos|
    ensures PairCount(pos[..i], neg, v) <= PairCount(pos, neg, v)
  {
    if i == |pos| {
      assert pos[..i] == pos;
    } else {
      var init := pos[..|pos| - 1];
      PairMoreRows(init, neg, v, i);
      assert init[..i] == pos[..i];
    }
  }

  /** The clauses sorted into those with v, those with its negation, and the others. */
  ghost predicate Sorted(F: seq<seq<L>>, v: nat, pos: seq<seq<L>>, neg: seq<seq<L>>, rest: seq<seq<L>>) {
    && (forall c :: c in pos <==> c in F && Lit(v, true) in c)
    && (forall c :: c in neg <==> c in F && Lit(v, false) in c)
    && (forall c :: c in rest <==> c in F && Lit(v, true) !in c && Lit(v, false) !in c)
  }

  lemma SortedPush(F: seq<seq<L>>, v: nat, pos: seq<seq<L>>, neg: seq<seq<L>>, rest: seq<seq<L>>, c: seq<L>)
    requires Sorted(F, v, pos, neg, rest) && !(Lit(v, true) in c && Lit(v, false) in c)
    ensures Lit(v, true) in c ==> Sorted(F + [c], v, pos + [c], neg, rest)
    ensures Lit(v, false) in c ==> Sorted(F + [c], v, pos, neg + [c], rest)
    ensures Lit(v, true) !in c && Lit(v, false) !in c ==> Sorted(F + [c], v, pos, neg, rest + [c])
  {
  }

  // --------------------------------------------------------------- distribution

  /** The pair clashes, or its resolvent is among the new clauses. */
  ghost predicate PairDone(c: seq<L>, d: seq<L>, v: nat, res: seq<seq<L>>) {
    Clash(c, d, v) || exists r :: r in res && IsResolvent(c, d, v, r)
  }

  ghost predicate FromPair(pos: seq<seq<L>>, neg: seq<seq<L>>, v: nat, r: seq<L>) {
    exists c, d :: c in pos && d in neg && !Clash(c, d, v) && IsResolvent(c, d, v, r)
  }

  /** Nothing but clauses without the variable and resolvents on it that can be false. */
  ghost predicate OnlyResolvents(F: seq<seq<L>>, v: nat, G: seq<seq<L>>) {
    forall r :: r in G ==>
      || (r in F && Lit(v, true) !in r && Lit(v, false) !in r)
      || FromPair(With(F, Lit(v, true)), With(F, Lit(v, false)), v, r)
  }

  lemma ResolventsOnly(F: seq<seq<L>>, v: nat, rest: seq<seq<L>>, res: seq<seq<L>>)
    requires Sorted(F, v, With(F, Lit(v, true)), With(F, Lit(v, false)), rest)
    requires forall r :: r in res ==> FromPair(With(F, Lit(v, true)), With(F, Lit(v, false)), v, r)
    ensures OnlyResolvents(F, v, rest + res)
  {
    hide FromPair, With;
  }

  /** The sign of the variable that fewer clauses have, the positive one if there is no
      difference. */
  function Rarer(F: seq<seq<L>>, v: nat): L {
    Lit(v, |With(F, Lit(v, true))| <= |With(F, Lit(v, false))|)
  }

  /** The records of the clauses with the literal have been added, and then its negation. */
  ghost predicate Recorded(F: seq<seq<L>>, l: L, was: seq<seq<L>>, now: seq<seq<L>>) {
    && was < now && now[|now| - 1] == [l.Neg()]
    && RecordsOf(F, l, now[|was|..|now| - 1])
  }

  lemma RecordedIs(F: seq<seq<L>>, l: L, was: seq<seq<L>>, more: seq<seq<L>>, now: seq<seq<L>>)
    requires RecordsOf(F, l, more) && now == was + (more + [[l.Neg()]])
    ensures Recorded(F, l, was, now)
  {
    assert now[|was|..|now| - 1] == more;
  }

  /** All resolvents of two lists of clauses that are not always true. */
  method Distribute(pos: seq<seq<L>>, neg: seq<seq<L>>, v: nat) returns (res: seq<seq<L>>)
    requires (forall c :: c in pos ==> Distinct(c)) && forall c :: c in neg ==> Distinct(c)
    ensures forall c, d :: c in pos && d in neg ==> PairDone(c, d, v, res)
    ensures forall r :: r in res ==> FromPair(pos, neg, v, r)
  {
    res := [];
    var i := 0;
    while i < |pos|
      invariant i <= |pos|
      invariant forall c, d :: c in pos[..i] && d in neg ==> PairDone(c, d, v, res)
      invariant forall r :: r in res ==> FromPair(pos, neg, v, r)
    {
      assert pos[..i + 1] == pos[..i] + [pos[i]] && pos[i] in pos;
      var more := DistributeOne(pos[i], neg, v, pos);
      forall c, d | c in pos[..i + 1] && d in neg ensures PairDone(c, d, v, res + more) {
        if c in pos[..i] { PairMore(c, d, v, res, more); } else { PairMore(c, d, v, more, res); }
      }
      res := res + more;
      i := i + 1;
    }
    assert pos[..i] == pos;
  }

  lemma PairMore(c: seq<L>, d: seq<L>, v: nat, res: seq<seq<L>>, more: seq<seq<L>>)
    requires PairDone(c, d, v, res)
    ensures PairDone(c, d, v, res + more) && PairDone(c, d, v, more + res)
  {
    if r :| r in res && IsResolvent(c, d, v, r) { assert r in res + more && r in more + res; }
  }

  method DistributeOne(c: seq<L>, neg: seq<seq<L>>, v: nat, ghost pos: seq<seq<L>>) returns (res: seq<seq<L>>)
    requires c in pos && Distinct(c) && forall d :: d in neg ==> Distinct(d)
    ensures forall d :: d in neg ==> PairDone(c, d, v, res)
    ensures forall r :: r in res ==> FromPair(pos, neg, v, r)
  {
    res := [];
    var j := 0;
    while j < |neg|
      invariant j <= |neg|
      invariant forall d :: d in neg[..j] ==> PairDone(c, d, v, res)
      invariant forall r :: r in res ==> FromPair(pos, neg, v, r)
    {
      assert neg[..j + 1] == neg[..j] + [neg[j]] && neg[j] in neg;
      var fine, out := Merge(c, neg[j], v);
      if fine {
        forall d | d in neg[..j] ensures PairDone(c, d, v, res + [out]) { PairMore(c, d, v, res, [out]); }
        assert out in res + [out];
        res := res + [out];
      }
      j := j + 1;
    }
    assert neg[..j] == neg;
  }

  lemma SwapEncoded(before: seq<nat>, now: seq<nat>, c: seq<L>, k: nat)
    requires k < |c| && |now| == |before| + |c| && now[..|before|] == before
    requires forall i :: 0 <= i < |c| ==> now[|before| + i] == ToInt(c[i])
    ensures var f := |before|;
            now[f + k := now[f]][f := now[f + k]] + [|c|] == before + Encode(c[k := c[0]][0 := c[k]])
  {
    var f := |before|;
    var e, r := now[f + k := now[f]][f := now[f + k]] + [|c|], c[k := c[0]][0 := c[k]];
    assert |e| == |before + Encode(r)|;
    forall i | 0 <= i < |e| ensures e[i] == (before + Encode(r))[i] {
      if i < f { assert e[i] == now[..f][i]; }
    }
  }

  lemma SwapRecord(c: seq<L>, k: nat, l: L)
    requires Distinct(c) && k < |c| && c[k] == l
    ensures IsRecord(c, l, c[k := c[0]][0 := c[k]])
  {
    var r := c[k := c[0]][0 := c[k]];
    forall x ensures x in r <==> x in c {
      if x in c { var i :| 0 <= i < |c| && c[i] == x; assert r[if i == k then 0 else if i == 0 then k else i] == x; }
      if x in r { var i :| 0 <= i < |r| && r[i] == x; assert c[if i == k then 0 else if i == 0 then k else i] == x; }
    }
  }
}
