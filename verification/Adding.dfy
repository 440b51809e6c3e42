/** Adding a clause at the root level: sorting, dropping what is false or repeated, and
    what that means for the clauses stored so far. */
module Adding {
  import opened Cnf
  import opened Trails
  import opened WatchLists
  import opened Resolution
  import opened Analysis
  import opened Progress

  // -------------------------------------------------------------------- sorting

  ghost predicate Sorted(s: seq<L>) { forall i, j :: 0 <= i < j < |s| ==> ToInt(s[i]) <= ToInt(s[j]) }

  lemma InsertSorted(s: seq<L>, i: nat, l: L)
    requires Sorted(s) && i <= |s| && (i > 0 ==> ToInt(s[i - 1]) <= ToInt(l)) && (i < |s| ==> ToInt(l) <= ToInt(s[i]))
    ensures Sorted(s[..i] + [l] + s[i..])
  {
    var r := s[..i] + [l] + s[i..];
    forall j, k | 0 <= j < k < |r| ensures ToInt(r[j]) <= ToInt(r[k]) {
      assert j < i ==> ToInt(s[j]) <= ToInt(l);
      assert k > i ==> ToInt(l) <= ToInt(s[k - 1]);
    }
  }

  method Insert(s: seq<L>, l: L) returns (r: seq<L>)
    requires Sorted(s)
    ensures Sorted(r) && multiset(r) == multiset(s) + multiset{l}
  {
    var i := |s|;
    while i > 0 && ToInt(s[i - 1]) > ToInt(l)
      invariant 0 <= i <= |s| && (i < |s| ==> ToInt(s[i]) > ToInt(l))
    {
      i := i - 1;
    }
    InsertSorted(s, i, l);
    assert s == s[..i] + s[i..];
    r := s[..i] + [l] + s[i..];
  }

  method SortLits(ps: seq<L>) returns (s: seq<L>)
    ensures Sorted(s) && multiset(s) == multiset(ps)
  {
    s := [];
    var i := 0;
    while i < |ps|
      invariant i <= |ps| && Sorted(s) && multiset(s) == multiset(ps[..i])
    {
      s := Insert(s, ps[i]);
      assert ps[..i + 1] == ps[..i] + [ps[i]];
      i := i + 1;
    }
    assert ps[..i] == ps;
  }

  // ------------------------------------------------------------- what is dropped

  /** Some literal is true, or both literals of a variable occur. */
  ghost predicate TriviallyTrue(assigns: seq<LBool>, ps: seq<L>) {
    (exists l :: l in ps && Value(assigns, l) == LTrue) || (exists l :: l in ps && l.Neg() in ps)
  }

  /** What is left: unassigned literals of distinct variables; the others are false. */
  ghost predicate Kept(assigns: seq<LBool>, ps: seq<L>, out: seq<L>) {
    && (forall l :: l in out ==> l in ps && Value(assigns, l) == LUndef)
    && (forall l :: l in ps ==> l in out || Value(assigns, l) == LFalse)
    && (forall i, j :: 0 <= i < j < |out| ==> out[i].v != out[j].v)
  }

  lemma SortedDistinct(out: seq<L>)
    requires forall i, j :: 0 <= i < j < |out| ==> ToInt(out[i]) < ToInt(out[j])
    requires forall i :: 0 < i < |out| ==> out[i] != out[i - 1].Neg()
    ensures forall i, j :: 0 <= i < j < |out| ==> out[i].v != out[j].v
  {
    forall i, j | 0 <= i < j < |out| ensures out[i].v != out[j].v {
      if i + 1 < j { assert ToInt(out[i]) < ToInt(out[i + 1]) < ToInt(out[j]); }
      if i + 1 == j { assert out[j] != out[j - 1].Neg(); }
    }
  }

  method ReduceClause(ps: seq<L>, assigns: seq<LBool>) returns (satisfied: bool, out: seq<L>)
    requires Sorted(ps)
    ensures satisfied ==> TriviallyTrue(assigns, ps)
    ensures !satisfied ==> Kept(assigns, ps, out)
  {
    satisfied, out := false, [];
    var i := 0;
    while i < |ps|
      invariant i <= |ps|
      invariant forall l :: l in out ==> l in ps[..i] && Value(assigns, l) == LUndef
      invariant forall l :: l in ps[..i] ==> l in out || Value(assigns, l) == LFalse
      invariant forall j, k :: 0 <= j < k < |out| ==> ToInt(out[j]) < ToInt(out[k])
      invariant forall j :: 0 < j < |out| ==> out[j] != out[j - 1].Neg()
    {
      var l := ps[i];
      assert ps[..i + 1] == ps[..i] + [l];
      if out != [] { LastBefore(ps, i, out); }
      if Value(assigns, l) == LTrue || (out != [] && l == out[|out| - 1].Neg()) {
        if out != [] { assert out[|out| - 1] in out; }
        return true, out;
      }
      if Value(assigns, l) != LFalse && (out == [] || l != out[|out| - 1]) { out := out + [l]; }
      i := i + 1;
    }
    assert ps[..i] == ps;
    SortedDistinct(out);
  }

  lemma LastBefore(ps: seq<L>, i: nat, out: seq<L>)
    requires Sorted(ps) && i < |ps| && out != [] && forall l :: l in out ==> l in ps[..i]
    ensures forall k :: 0 <= k < |out| ==> ToInt(out[k]) <= ToInt(ps[i])
    ensures ToInt(out[|out| - 1]) == ToInt(ps[i]) ==> out[|out| - 1] == ps[i]
    ensures out[|out| - 1] in ps
  {
    forall k | 0 <= k < |out| ensures ToInt(out[k]) <= ToInt(ps[i]) && out[k] in ps {
      assert out[k] in out;
      var j :| 0 <= j < i && ps[..i][j] == out[k];
      assert ps[j] == out[k];
    }
  }

  // ------------------------------------------------------------- what it means

  lemma RootValues(t: Trail, db: Db, m: set<nat>, l: L)
    requires TrailOk(t, db) && t.lim == [] && RootTrue(m, t) && Value(t.assigns, l) != LUndef
    ensures LitTrue(m, l) <==> Value(t.assigns, l) == LTrue
  {
    var i := t.pos[l.v];
    assert t.lits[i].v == l.v && LevelOf(t, t.lits[i]) == 0;
    assert LitTrue(m, t.lits[i]);
  }

  lemma TrivialClause(t: Trail, db: Db, ps: seq<L>, m: set<nat>)
    requires TrailOk(t, db) && t.lim == [] && RootTrue(m, t) && TriviallyTrue(t.assigns, ps)
    ensures ClauseTrue(m, ps)
  {
    if l :| l in ps && Value(t.assigns, l) == LTrue {
      RootValues(t, db, m, l);
    } else {
      var l :| l in ps && l.Neg() in ps;
      assert LitTrue(m, l) || LitTrue(m, l.Neg());
    }
  }

  /** Under the root literals the clause and what is left of it are the same. */
  lemma KeptMeans(t: Trail, db: Db, ps: seq<L>, out: seq<L>, m: set<nat>)
    requires TrailOk(t, db) && t.lim == [] && RootTrue(m, t) && Kept(t.assigns, ps, out)
    ensures ClauseTrue(m, ps) <==> ClauseTrue(m, out)
  {
    if l :| l in ps && LitTrue(m, l) {
      if l !in out { RootValues(t, db, m, l); }
    }
    if l :| l in out && LitTrue(m, l) { assert l in ps; }
  }

  lemma RootsTrueIn(F: Cnfs, t: Trail, m: set<nat>)
    requires RootsEntailed(F, t) && Models(m, F)
    ensures RootTrue(m, t)
  {
    forall i | 0 <= i < |t.lits| && LevelOf(t, t.lits[i]) == 0 ensures LitTrue(m, t.lits[i]) {
      assert ClauseTrue(m, [t.lits[i]]);
      SingleTrue(m, t.lits[i]);
    }
  }

  lemma MoreEntails(F: Cnfs, ps: seq<L>, c: seq<L>)
    requires Entails(F, c)
    ensures Entails(F + [ps], c)
  {
    forall m: set<nat> | Models(m, F + [ps]) ensures ClauseTrue(m, c) { FewerModels(F, ps, m); }
  }

  lemma FewerModels(F: Cnfs, ps: seq<L>, m: set<nat>)
    ensures Models(m, F + [ps]) <==> Models(m, F) && ClauseTrue(m, ps)
  {
    assert forall c :: c in F + [ps] <==> c in F || c == ps;
  }

  lemma MoreSound(F: Cnfs, ps: seq<L>, db: Db, t: Trail)
    requires AllEntailed(F, db) && RootsEntailed(F, t)
    ensures AllEntailed(F + [ps], db) && RootsEntailed(F + [ps], t)
  {
    hide Entails;
    forall cr | 0 <= cr < |db| ensures Entails(F + [ps], db[cr]) { MoreEntails(F, ps, db[cr]); }
    forall i | 0 <= i < |t.lits| && LevelOf(t, t.lits[i]) == 0 ensures Entails(F + [ps], [t.lits[i]]) {
      MoreEntails(F, ps, [t.lits[i]]);
    }
  }

  lemma StillUnsat(F: Cnfs, ps: seq<L>)
    requires Unsat(F, [])
    ensures Unsat(F + [ps], [])
  {
    forall m: set<nat> ensures !Models(m, F + [ps]) {
      FewerModels(F, ps, m);
      assert Models(m, F) ==> !AllTrue<nat>(m, []);
    }
  }

  /** The clause is true at the root level already. */
  lemma GoodAddTrue(F: Cnfs, cs: seq<nat>, db: Db, deleted: set<nat>, t: Trail, assumptions: seq<L>, q: nat, ps: seq<L>)
    requires Good(F, cs, db, deleted, t, assumptions, q) && t.lim == [] && TriviallyTrue(t.assigns, ps)
    ensures Good(F + [ps], cs, db, deleted, t, assumptions, q)
  {
    hide Linked, Levelled, Reasoned, Propagated, Entails, TriviallyTrue;
    MoreSound(F, ps, db, t);
    forall m: set<nat> | AllHold(m, cs, db) && RootTrue(m, t) ensures Models(m, F + [ps]) {
      TrivialClause(t, db, ps, m);
      FewerModels(F, ps, m);
    }
  }

  /** Nothing is left of the clause. */
  lemma AddFalse(F: Cnfs, db: Db, t: Trail, ps: seq<L>)
    requires TrailOk(t, db) && t.lim == [] && RootsEntailed(F, t) && Kept(t.assigns, ps, [])
    ensures Unsat(F + [ps], [])
  {
    forall m: set<nat> ensures !Models(m, F + [ps]) {
      FewerModels(F, ps, m);
      if Models(m, F) {
        RootsTrueIn(F, t, m);
        KeptMeans(t, db, ps, [], m);
      }
    }
  }

  lemma KeptEntailed(F: Cnfs, db: Db, t: Trail, ps: seq<L>, out: seq<L>)
    requires TrailOk(t, db) && t.lim == [] && RootsEntailed(F, t) && Kept(t.assigns, ps, out)
    ensures Entails(F + [ps], out)
  {
    forall m: set<nat> | Models(m, F + [ps]) ensures ClauseTrue(m, out) {
      FewerModels(F, ps, m);
      RootsTrueIn(F, t, m);
      KeptMeans(t, db, ps, out, m);
    }
  }

  /** One literal is left: it is a fact. */
  lemma GoodAddUnit(F: Cnfs, cs: seq<nat>, db: Db, deleted: set<nat>, t: Trail, assumptions: seq<L>, q: nat,
        ps: seq<L>, p: L)
    requires Good(F, cs, db, deleted, t, assumptions, q) && t.lim == [] && q <= |t.lits|
    requires Kept(t.assigns, ps, [p]) && p.v < |t.assigns|
    ensures |t.assigns| == |t.level| == |t.reason| == |t.pos| && Value(t.assigns, p) == LUndef
    ensures Good(F + [ps], cs, db, deleted, Push(t, p, CRefUndef), assumptions, q)
  {
    hide Reasoned, Propagated, Entails;
    assert p in [p];
    var u := Push(t, p, CRefUndef);
    GoodPushed(F, cs, db, deleted, t, assumptions, q, ps, p);
    forall m: set<nat> | AllHold(m, cs, db) && RootTrue(m, u) ensures Models(m, F + [ps]) {
      forall i | 0 <= i < |t.lits| && LevelOf(t, t.lits[i]) == 0 ensures LitTrue(m, t.lits[i]) {
        assert u.lits[i] == t.lits[i] && t.lits[i].v != p.v && LevelOf(u, u.lits[i]) == 0;
      }
      assert u.lits[|t.lits|] == p && LevelOf(u, u.lits[|t.lits|]) == 0;
      assert LitTrue(m, p);
      assert RootTrue(m, t);
      KeptMeans(t, db, ps, [p], m);
      FewerModels(F, ps, m);
    }
  }

  lemma GoodPushed(F: Cnfs, cs: seq<nat>, db: Db, deleted: set<nat>, t: Trail, assumptions: seq<L>, q: nat,
        ps: seq<L>, p: L)
    requires Good(F, cs, db, deleted, t, assumptions, q) && t.lim == [] && q <= |t.lits|
    requires Kept(t.assigns, ps, [p]) && p.v < |t.assigns| && Value(t.assigns, p) == LUndef
    ensures |t.assigns| == |t.level| == |t.reason| == |t.pos|
    ensures var u := Push(t, p, CRefUndef);
      && TrailOk(u, db) && AllEntailed(F + [ps], db) && RootsEntailed(F + [ps], u)
      && Rooted(u) && Propagated(u, db, deleted, q) && Assumed(u, assumptions)
  {
    hide Levelled, Reasoned, Propagated, AllEntailed, Entails, RootsEntailed, Accounted, Rooted, Kept;
    PushOk(t, db, p, CRefUndef);
    MoreSound(F, ps, db, t);
    KeptEntailed(F, db, t, ps, [p]);
    RootsPush(F + [ps], t, p, CRefUndef);
    RootedPush(t, db, p, CRefUndef);
    PropagatedPush(t, db, deleted, p, CRefUndef, q);
    AssumedPush(t, p, CRefUndef, assumptions);
  }

  /** At least two literals are left: they are stored as a clause. */
  lemma GoodAddClause(F: Cnfs, cs: seq<nat>, db: Db, deleted: set<nat>, t: Trail, assumptions: seq<L>, q: nat,
        ps: seq<L>, out: seq<L>)
    requires Good(F, cs, db, deleted, t, assumptions, q) && t.lim == []
    requires Kept(t.assigns, ps, out) && |out| >= 2 && Present(cs, db, deleted)
    ensures Good(F + [ps], cs + [|db|], db + [out], deleted, t, assumptions, q)
  {
    hide Linked, Levelled, Reasoned, Propagated, Entails;
    var db2 := db + [out];
    MoreSound(F, ps, db, t);
    KeptEntailed(F, db, t, ps, out);
    ReasonsKept(t, db, db2);
    NewClauseSafe(t, out, q, ps);
    PropagatedLonger(t, db, deleted, out, q);
    forall m: set<nat> | AllHold(m, cs + [|db|], db2) && RootTrue(m, t) ensures Models(m, F + [ps]) {
      forall cr | cr in cs && cr < |db| ensures ClauseTrue(m, db[cr]) { assert db2[cr] == db[cr] && cr in cs + [|db|]; }
      assert |db| in cs + [|db|] && db2[|db|] == out;
      KeptMeans(t, db, ps, out, m);
      FewerModels(F, ps, m);
    }
  }

  lemma NewClauseSafe(t: Trail, out: seq<L>, q: nat, ps: seq<L>)
    requires Kept(t.assigns, ps, out) && |out| >= 2
    ensures WatchLists.Safe(t, out, q)
  {
    assert out[0] in out && out[1] in out;
    assert SafeAt(t, out, 0, q) && SafeAt(t, out, 1, q);
  }
}
