/** Why the search is right and why it ends: the stored clauses and root literals account
    for all clauses added, and the trail, read as a number, only grows. */
module Progress {
  import opened Cnf
  import opened Sets
  import opened Trails
  import opened WatchLists
  import opened Resolution
  import opened Analysis

  // ------------------------------------------------------- nothing is forgotten

  ghost predicate RootTrue(m: set<nat>, t: Trail) {
    forall i :: 0 <= i < |t.lits| && LevelOf(t, t.lits[i]) == 0 ==> LitTrue(m, t.lits[i])
  }

  ghost predicate Present(cs: seq<nat>, db: Db, deleted: set<nat>) {
    forall cr :: cr in cs ==> cr < |db| && cr !in deleted
  }

  ghost predicate AllHold(m: set<nat>, cs: seq<nat>, db: Db) {
    forall cr :: cr in cs && cr < |db| ==> ClauseTrue(m, db[cr])
  }

  /** Whatever satisfies the problem clauses and the root literals satisfies all clauses
      that were ever added. */
  ghost predicate Accounted(F: Cnfs, cs: seq<nat>, db: Db, t: Trail) {
    forall m: set<nat> :: AllHold(m, cs, db) && RootTrue(m, t) ==> Models(m, F)
  }

  lemma SameHolds(m: set<nat>, c: seq<L>, d: seq<L>)
    requires SameLits(c, d)
    ensures ClauseTrue(m, c) <==> ClauseTrue(m, d)
  {
  }

  lemma AccountedGrew(F: Cnfs, cs: seq<nat>, db: Db, t: Trail, db2: Db, u: Trail)
    requires Accounted(F, cs, db, t) && SameDb(db, db2) && Grew(t, u) && Linked(t)
    ensures Accounted(F, cs, db2, u)
  {
    forall m: set<nat> | AllHold(m, cs, db2) && RootTrue(m, u) ensures Models(m, F) {
      forall cr | cr in cs && cr < |db| ensures ClauseTrue(m, db[cr]) { SameHolds(m, db[cr], db2[cr]); }
      forall i | 0 <= i < |t.lits| && LevelOf(t, t.lits[i]) == 0 ensures LitTrue(m, t.lits[i]) {
        assert u.lits[i] == t.lits[i];
      }
    }
  }

  lemma AccountedCancel(F: Cnfs, cs: seq<nat>, db: Db, t: Trail, lv: nat)
    requires Accounted(F, cs, db, t) && TrailOk(t, db) && lv < |t.lim|
    ensures Accounted(F, cs, db, Cancel(t, lv))
  {
    var u := Cancel(t, lv);
    forall m: set<nat> | AllHold(m, cs, db) && RootTrue(m, u) ensures Models(m, F) {
      forall i | 0 <= i < |t.lits| && LevelOf(t, t.lits[i]) == 0 ensures LitTrue(m, t.lits[i]) {
        assert i < t.lim[lv] && u.lits[i] == t.lits[i];
      }
    }
  }

  lemma RootsCancel(F: Cnfs, db: Db, t: Trail, lv: nat)
    requires RootsEntailed(F, t) && TrailOk(t, db) && lv < |t.lim|
    ensures RootsEntailed(F, Cancel(t, lv))
  {
    var u := Cancel(t, lv);
    forall i | 0 <= i < |u.lits| && LevelOf(u, u.lits[i]) == 0 ensures Entails(F, [u.lits[i]]) {
      assert u.lits[i] == t.lits[i] && LevelOf(t, t.lits[i]) == 0;
    }
  }

  /** A clause that is false at the root level refutes the formula. */
  lemma RootConflict(F: Cnfs, t: Trail, c: seq<L>)
    requires Linked(t) && Levelled(t) && t.lim == [] && RootsEntailed(F, t) && Entails(F, c)
    requires forall j :: 0 <= j < |c| ==> IsFalse(t, c[j])
    ensures Unsat(F, [])
  {
    forall m: set<nat> ensures !Models(m, F) {
      if Models(m, F) {
        assert ClauseTrue(m, c);
        var l :| l in c && LitTrue(m, l);
        var j :| 0 <= j < |c| && c[j] == l;
        var i := FalseOnTrail(t, l);
        assert t.level[t.lits[i].v] == 0;
        RootFalse(F, t, m, l);
      }
    }
  }

  // ------------------------------------------------------------ the trail grows

  function Pow3(k: nat): (r: nat)
    ensures r > 0
  {
    if k == 0 then 1 else 3 * Pow3(k - 1)
  }

  /** A decision counts 1, an implied literal 2. */
  ghost function Digit(t: Trail, i: nat): nat { if IsDecision(t, i) then 1 else 2 }

  /** The first k places of the trail as the leading digits of a number in base 3. */
  ghost function Rank(t: Trail, k: nat, n: nat): nat
    requires k <= n
  {
    if k == 0 then 0 else Rank(t, k - 1, n) + Digit(t, k - 1) * Pow3(n - k)
  }

  lemma {:induction false} RankBound(t: Trail, k: nat, n: nat)
    requires k <= n
    ensures Rank(t, k, n) + Pow3(n - k) <= Pow3(n)
  {
    if k > 0 {
      RankBound(t, k - 1, n);
      assert Pow3(n - (k - 1)) == 3 * Pow3(n - k);
      DigitTimes(t, k - 1, Pow3(n - k));
    }
  }

  lemma DigitTimes(t: Trail, i: nat, w: nat)
    ensures w <= Digit(t, i) * w <= 2 * w
  {
  }

  lemma {:induction false} RankSame(t: Trail, u: Trail, k: nat, n: nat)
    requires k <= n && forall i :: 0 <= i < k ==> Digit(t, i) == Digit(u, i)
    ensures Rank(t, k, n) == Rank(u, k, n)
  {
    if k > 0 { RankSame(t, u, k - 1, n); }
  }

  /** Later digits add less than one unit of an earlier one. */
  lemma {:induction false} RankTail(t: Trail, j: nat, k: nat, n: nat)
    requires j <= k <= n
    ensures Rank(t, j, n) <= Rank(t, k, n) && Rank(t, k, n) + Pow3(n - k) <= Rank(t, j, n) + Pow3(n - j)
  {
    if j < k {
      RankTail(t, j, k - 1, n);
      assert Pow3(n - (k - 1)) == 3 * Pow3(n - k);
      DigitTimes(t, k - 1, Pow3(n - k));
    }
  }

  /** The number that the whole trail stands for. */
  ghost function Height(t: Trail): nat
    requires |t.lits| <= |t.assigns|
  {
    Rank(t, |t.lits|, |t.assigns|)
  }

  lemma HeightBound(t: Trail)
    requires |t.lits| <= |t.assigns|
    ensures Height(t) < Pow3(|t.assigns|)
  {
    RankBound(t, |t.lits|, |t.assigns|);
  }

  lemma HeightGrew(t: Trail, u: Trail)
    requires Linked(t) && Grew(t, u) && |u.lits| <= |u.assigns|
    ensures |t.lits| <= |t.assigns| && Height(t) <= Height(u)
  {
    forall i | 0 <= i < |t.lits| ensures Digit(t, i) == Digit(u, i) { assert u.lits[i] == t.lits[i]; }
    RankSame(t, u, |t.lits|, |t.assigns|);
    RankTail(u, |t.lits|, |u.lits|, |t.assigns|);
  }

  lemma HeightPush(t: Trail, p: L, from: CRef)
    requires Linked(t) && p.v < |t.assigns| && Value(t.assigns, p) == LUndef && |t.lits| < |t.assigns|
    ensures Height(t) < Height(Push(t, p, from))
  {
    var u := Push(t, p, from);
    forall i | 0 <= i < |t.lits| ensures Digit(t, i) == Digit(u, i) {
      assert u.lits[i] == t.lits[i] && t.lits[i].v != p.v;
    }
    RankSame(t, u, |t.lits|, |t.assigns|);
    DigitTimes(u, |t.lits|, Pow3(|t.assigns| - |u.lits|));
  }

  lemma HeightNewLevel(t: Trail)
    requires |t.lits| <= |t.assigns|
    ensures Height(NewLevel(t)) == Height(t)
  {
    RankSame(t, NewLevel(t), |t.lits|, |t.assigns|);
  }

  /** The first literal of a level that is not empty is its decision. */
  ghost predicate Rooted(t: Trail) {
    forall k :: 0 <= k < |t.lim| && t.lim[k] < |t.lits| ==>
      t.lits[t.lim[k]].v < |t.reason| && t.reason[t.lits[t.lim[k]].v] == CRefUndef
  }

  /** Returning to a level and adding an implied literal there makes the number greater:
      the digit of a decision becomes that of an implied literal. */
  lemma HeightBackjump(t: Trail, db: Db, lv: nat, p: L, from: CRef)
    requires TrailOk(t, db) && Rooted(t) && lv < |t.lim| && t.lim[lv] < |t.lits| <= |t.assigns|
    requires p.v < |t.assigns| && Value(Cancel(t, lv).assigns, p) == LUndef
    requires from.CRef? || lv == 0
    ensures |Push(Cancel(t, lv), p, from).lits| <= |t.assigns|
    ensures Height(t) < Height(Push(Cancel(t, lv), p, from))
  {
    hide Reasoned, Rank;
    var n := |t.assigns|;
    var k := t.lim[lv];
    var u := Push(Cancel(t, lv), p, from);
    CancelOk(t, db, lv);
    BackjumpDigits(t, db, lv, p, from);
    RankSame(t, u, k, n);
    RankNext(t, k, n);
    RankNext(u, k, n);
    RankTail(t, k + 1, |t.lits|, n);
  }

  lemma RankNext(t: Trail, k: nat, n: nat)
    requires k < n
    ensures Rank(t, k + 1, n) == Rank(t, k, n) + Digit(t, k) * Pow3(n - (k + 1))
  {
  }

  lemma BackjumpDigits(t: Trail, db: Db, lv: nat, p: L, from: CRef)
    requires TrailOk(t, db) && Rooted(t) && lv < |t.lim| && t.lim[lv] < |t.lits| <= |t.assigns|
    requires p.v < |t.assigns| && Value(Cancel(t, lv).assigns, p) == LUndef && Linked(Cancel(t, lv))
    requires from.CRef? || lv == 0
    ensures var u := Push(Cancel(t, lv), p, from); var k := t.lim[lv];
      && |u.lits| == k + 1 <= |t.assigns|
      && (forall i :: 0 <= i < k ==> Digit(t, i) == Digit(u, i))
      && Digit(t, k) == 1 && Digit(u, k) == 2
  {
    hide Reasoned;
    var k := t.lim[lv];
    var u := Push(Cancel(t, lv), p, from);
    forall i | 0 <= i < k ensures Digit(t, i) == Digit(u, i) {
      assert u.lits[i] == t.lits[i] && Cancel(t, lv).lits[i].v != p.v;
    }
    assert t.level[t.lits[k].v] > lv && IsDecision(t, k);
    assert u.lits[k] == p && !IsDecision(u, k);
  }

  lemma RootedGrew(t: Trail, u: Trail)
    requires Linked(t) && Rooted(t) && Grew(t, u)
    requires forall k :: 0 <= k < |t.lim| ==> t.lim[k] < |t.lits|
    ensures Rooted(u)
  {
    forall k | 0 <= k < |u.lim| && u.lim[k] < |u.lits|
      ensures u.lits[u.lim[k]].v < |u.reason| && u.reason[u.lits[u.lim[k]].v] == CRefUndef
    {
      assert u.lits[t.lim[k]] == t.lits[t.lim[k]];
    }
  }

  lemma RootedCancel(t: Trail, db: Db, lv: nat)
    requires TrailOk(t, db) && Rooted(t) && lv < |t.lim|
    ensures Rooted(Cancel(t, lv))
  {
    var u := Cancel(t, lv);
    forall k | 0 <= k < |u.lim| && u.lim[k] < |u.lits|
      ensures u.lits[u.lim[k]].v < |u.reason| && u.reason[u.lits[u.lim[k]].v] == CRefUndef
    {
      assert u.lits[u.lim[k]] == t.lits[t.lim[k]];
    }
  }

  /** A decision on a new level, or an implied literal on a level that is not empty. */
  lemma RootedPush(t: Trail, db: Db, p: L, from: CRef)
    requires TrailOk(t, db) && Rooted(t) && p.v < |t.assigns| && Value(t.assigns, p) == LUndef
    requires from.CRef? ==> t.lim == [] || Start(t) < |t.lits|
    ensures Rooted(Push(t, p, from))
  {
    hide Reasoned;
    var u := Push(t, p, from);
    forall k | 0 <= k < |u.lim| && u.lim[k] < |u.lits|
      ensures u.lits[u.lim[k]].v < |u.reason| && u.reason[u.lits[u.lim[k]].v] == CRefUndef
    {
      if t.lim[k] < |t.lits| {
        assert u.lits[t.lim[k]] == t.lits[t.lim[k]];
        assert t.lits[t.lim[k]].v != p.v;
      }
    }
  }

  // ------------------------------------------------------------------ assumptions

  /** The first levels belong to the assumptions: each holds, by its own level at the
      latest, and the decisions there are assumptions. */
  ghost predicate Assumed(t: Trail, assumptions: seq<L>) {
    && (forall k :: 0 <= k < |t.lim| && k < |assumptions| ==>
          Value(t.assigns, assumptions[k]) == LTrue && LevelOf(t, assumptions[k]) <= k + 1)
    && (forall i :: 0 <= i < |t.lits| && IsDecision(t, i) && LevelOf(t, t.lits[i]) <= |assumptions| ==>
          t.lits[i] in assumptions)
  }

  lemma AssumedGrew(t: Trail, u: Trail, assumptions: seq<L>)
    requires Linked(t) && Grew(t, u) && Assumed(t, assumptions)
    ensures Assumed(u, assumptions)
  {
    forall i | 0 <= i < |u.lits| && IsDecision(u, i) && LevelOf(u, u.lits[i]) <= |assumptions|
      ensures u.lits[i] in assumptions
    {
      if i < |t.lits| { assert u.lits[i] == t.lits[i] && IsDecision(t, i); }
    }
  }

  lemma AssumedCancel(t: Trail, db: Db, lv: nat, assumptions: seq<L>)
    requires TrailOk(t, db) && lv < |t.lim| && Assumed(t, assumptions)
    ensures Assumed(Cancel(t, lv), assumptions)
  {
    var u := Cancel(t, lv);
    CancelOk(t, db, lv);
    hide Linked, Levelled, Reasoned, Cancel;
    CancelShape(t, lv);
    forall i | 0 <= i < |u.lits| && IsDecision(u, i) && LevelOf(u, u.lits[i]) <= |assumptions|
      ensures u.lits[i] in assumptions
    {
      assert u.lits[i] == t.lits[i] && IsDecision(t, i);
    }
  }

  lemma CancelShape(t: Trail, lv: nat)
    requires lv < |t.lim| && t.lim[lv] <= |t.lits| && |t.pos| == |t.assigns|
    ensures var u := Cancel(t, lv);
      u.lits == t.lits[..t.lim[lv]] && u.lim == t.lim[..lv] && u.level == t.level && u.reason == t.reason && u.pos == t.pos
      && |u.assigns| == |t.assigns|
  {
  }

  /** An implied literal, or the decision of a level that is just opened. */
  lemma AssumedPush(t: Trail, p: L, from: CRef, assumptions: seq<L>)
    requires Linked(t) && p.v < |t.assigns| && Value(t.assigns, p) == LUndef
    requires forall k :: 0 <= k < |t.lim| && k < |assumptions| && assumptions[k] != p ==>
               Value(t.assigns, assumptions[k]) == LTrue && LevelOf(t, assumptions[k]) <= k + 1
    requires forall k :: 0 <= k < |t.lim| && k < |assumptions| && assumptions[k] == p ==> k + 1 == |t.lim|
    requires forall i :: 0 <= i < |t.lits| && IsDecision(t, i) && LevelOf(t, t.lits[i]) <= |assumptions| ==>
               t.lits[i] in assumptions
    requires from == CRefUndef && 0 < |t.lim| <= |assumptions| ==> p in assumptions
    ensures Assumed(Push(t, p, from), assumptions)
  {
    var u := Push(t, p, from);
    forall i | 0 <= i < |u.lits| && IsDecision(u, i) && LevelOf(u, u.lits[i]) <= |assumptions|
      ensures u.lits[i] in assumptions
    {
      if i < |t.lits| { assert u.lits[i] == t.lits[i] && t.lits[i].v != p.v && IsDecision(t, i); }
    }
  }

  /** The watch lists and the lists of clauses are in order. */
  ghost predicate StoreOk(w: Lists, dirty: set<L>, db: Db, deleted: set<nat>, cs: seq<nat>, ls: seq<nat>, n: nat) {
    && WatchesOk(w, db, deleted, n) && DirtyOk(w, dirty, deleted)
    && Present(cs, db, deleted) && Present(ls, db, deleted) && Known(deleted, db) && NoDup(cs + ls)
  }

  ghost predicate NoDup(s: seq<nat>) { forall i, j :: 0 <= i < j < |s| ==> s[i] != s[j] }

  // ------------------------------------------------------- the state of the search

  /** What every step of the search keeps, when the first q literals are propagated. */
  ghost predicate Good(F: Cnfs, cs: seq<nat>, db: Db, deleted: set<nat>, t: Trail, assumptions: seq<L>, q: nat) {
    && TrailOk(t, db) && AllEntailed(F, db) && RootsEntailed(F, t) && Accounted(F, cs, db, t)
    && Rooted(t) && Propagated(t, db, deleted, q) && Assumed(t, assumptions)
  }

  lemma GoodParts(F: Cnfs, cs: seq<nat>, db: Db, deleted: set<nat>, t: Trail, assumptions: seq<L>, q: nat)
    requires Good(F, cs, db, deleted, t, assumptions, q)
    ensures TrailOk(t, db) && Linked(t) && Levelled(t) && Rooted(t) && AllEntailed(F, db) && RootsEntailed(F, t)
    ensures |t.assigns| == |t.level| == |t.reason| == |t.pos|
    ensures Accounted(F, cs, db, t) && Propagated(t, db, deleted, q) && Assumed(t, assumptions)
  {
  }

  lemma StoreParts(w: Lists, dirty: set<L>, db: Db, deleted: set<nat>, cs: seq<nat>, ls: seq<nat>, n: nat)
    requires StoreOk(w, dirty, db, deleted, cs, ls, n)
    ensures WatchesOk(w, db, deleted, n) && DbOk(db, n) && Present(cs, db, deleted) && DirtyOk(w, dirty, deleted)
  {
  }

  lemma GoodGrew(F: Cnfs, cs: seq<nat>, db: Db, deleted: set<nat>, t: Trail, assumptions: seq<L>, q: nat,
        db2: Db, u: Trail, q2: nat)
    requires Good(F, cs, db, deleted, t, assumptions, q) && Grew(t, u) && SameDb(db, db2)
    requires TrailOk(u, db2) && AllEntailed(F, db2) && RootsEntailed(F, u) && Propagated(u, db2, deleted, q2)
    requires t.lim == [] || Start(t) < |t.lits|
    ensures Good(F, cs, db2, deleted, u, assumptions, q2) && (u.lim == [] || Start(u) < |u.lits|)
  {
    hide Reasoned, Propagated, AllEntailed, Entails, RootsEntailed, Accounted, Assumed, SameDb;
    AccountedGrew(F, cs, db, t, db2, u);
    assert forall k :: 0 <= k < |t.lim| ==> t.lim[k] < |t.lits|;
    RootedGrew(t, u);
    AssumedGrew(t, u, assumptions);
  }

  lemma GoodCancel(F: Cnfs, cs: seq<nat>, db: Db, deleted: set<nat>, t: Trail, assumptions: seq<L>, q: nat, lv: nat)
    requires Good(F, cs, db, deleted, t, assumptions, q) && lv < |t.lim| && t.lim[lv] <= q
    ensures Good(F, cs, db, deleted, Cancel(t, lv), assumptions, t.lim[lv])
  {
    hide Linked, Levelled, Reasoned, Propagated, AllEntailed, Entails, RootsEntailed, Accounted, Assumed, Rooted, Cancel;
    CancelOk(t, db, lv);
    RootsCancel(F, db, t, lv);
    AccountedCancel(F, cs, db, t, lv);
    RootedCancel(t, db, lv);
    PropagatedCancel(t, db, deleted, lv, q);
    AssumedCancel(t, db, lv, assumptions);
  }

  /** A literal that is entailed at the root level. */
  lemma RootsPush(F: Cnfs, t: Trail, p: L, from: CRef)
    requires Linked(t) && RootsEntailed(F, t) && p.v < |t.assigns| && Value(t.assigns, p) == LUndef
    requires t.lim == [] ==> Entails(F, [p])
    ensures RootsEntailed(F, Push(t, p, from))
  {
    hide Entails;
    var u := Push(t, p, from);
    forall i | 0 <= i < |u.lits| && LevelOf(u, u.lits[i]) == 0 ensures Entails(F, [u.lits[i]]) {
      if i < |t.lits| {
        assert u.lits[i] == t.lits[i] && t.lits[i].v != p.v && LevelOf(t, t.lits[i]) == 0;
      }
    }
  }

  lemma AccountedPush(F: Cnfs, cs: seq<nat>, db: Db, t: Trail, p: L, from: CRef)
    requires Linked(t) && Accounted(F, cs, db, t) && p.v < |t.assigns| && Value(t.assigns, p) == LUndef
    ensures Accounted(F, cs, db, Push(t, p, from))
  {
    var u := Push(t, p, from);
    forall m: set<nat> | RootTrue(m, u) ensures RootTrue(m, t) {
      forall i | 0 <= i < |t.lits| && LevelOf(t, t.lits[i]) == 0 ensures LitTrue(m, t.lits[i]) {
        assert u.lits[i] == t.lits[i] && t.lits[i].v != p.v;
        assert LevelOf(u, u.lits[i]) == 0;
      }
    }
  }

  lemma GoodPush(F: Cnfs, cs: seq<nat>, db: Db, deleted: set<nat>, t: Trail, assumptions: seq<L>, q: nat, p: L,
        from: CRef)
    requires Good(F, cs, db, deleted, t, assumptions, q) && q <= |t.lits|
    requires p.v < |t.assigns| && Value(t.assigns, p) == LUndef
    requires from.CRef? ==> from.id < |db| && db[from.id] != [] && db[from.id][0] == p
                            && forall j :: 1 <= j < |db[from.id]| ==> Value(t.assigns, db[from.id][j]) == LFalse
    requires from.CRef? ==> t.lim == [] || Start(t) < |t.lits|
    requires from == CRefUndef ==> t.lim == []
    requires t.lim == [] ==> Entails(F, [p])
    ensures |t.assigns| == |t.level| == |t.reason| == |t.pos|
    ensures Good(F, cs, db, deleted, Push(t, p, from), assumptions, q)
  {
    hide Levelled, Reasoned, Propagated, AllEntailed, Entails, RootsEntailed, Accounted, Rooted;
    PushOk(t, db, p, from);
    RootsPush(F, t, p, from);
    AccountedPush(F, cs, db, t, p, from);
    RootedPush(t, db, p, from);
    PropagatedPush(t, db, deleted, p, from, q);
    AssumedPush(t, p, from, assumptions);
  }

  // ------------------------------------------------------------- learning a clause

  /** After returning to the level btLevel, the learnt clause is unit. */
  lemma LearntUnit(t: Trail, db: Db, c: seq<L>, bt: nat)
    requires TrailOk(t, db) && LearntOk(t, c, bt)
    ensures bt < |t.lim| && t.lim[bt] < |t.lits| && t.lim[bt] <= Start(t) && |t.pos| == |t.assigns|
    ensures c != [] && c[0].v < |t.assigns| && (|c| > 1 ==> c[1].v != c[0].v)
    ensures var u := Cancel(t, bt);
      && Value(u.assigns, c[0]) == LUndef
      && (forall j :: 1 <= j < |c| ==> Value(u.assigns, c[j]) == LFalse && LevelOf(u, c[j]) <= bt)
      && (|c| > 1 ==> LevelOf(u, c[1]) == bt && u.lim != [] && Start(u) < |u.lits|)
      && (|c| == 1 ==> u.lim == [])
    ensures |c| > 1 ==> ClauseOk(c, |t.assigns|)
  {
    hide Reasoned;
    CancelOk(t, db, bt);
    hide Cancel;
    CancelShape(t, bt);
    var i := FalseOnTrail(t, c[0]);
    assert t.level[t.lits[i].v] > bt;
    forall j | 0 <= j < |c| ensures c[j].v < |t.assigns| { var k := FalseOnTrail(t, c[j]); }
    if |c| > 1 {
      var k := FalseOnTrail(t, c[1]);
      assert LevelOf(t, c[1]) == bt > 0;
      assert k >= t.lim[bt - 1] && k < t.lim[bt];
    }
  }

  /** The new clause is safe once its first literal is true. */
  lemma LearntSafe(t: Trail, c: seq<L>, from: CRef, q: nat)
    requires Linked(t) && |c| >= 2 && c[0].v < |t.assigns| && Value(t.assigns, c[0]) == LUndef
    requires c[1].v != c[0].v && LevelOf(t, c[1]) == |t.lim|
    ensures WatchLists.Safe(Push(t, c[0], from), c, q)
  {
    var u := Push(t, c[0], from);
    assert Value(u.assigns, c[0]) == LTrue && LevelOf(u, c[0]) == |t.lim|;
    if Value(u.assigns, c[1]) == LFalse { assert LevelOf(u, c[1]) == |t.lim|; assert Guarded(u, c, 1); }
    assert SafeAt(u, c, 0, q) && SafeAt(u, c, 1, q);
  }

  lemma LongerKeeps(F: Cnfs, cs: seq<nat>, db: Db, deleted: set<nat>, t: Trail, c: seq<L>)
    requires TrailOk(t, db) && AllEntailed(F, db) && Accounted(F, cs, db, t) && Entails(F, c)
    requires Present(cs, db, deleted)
    ensures TrailOk(t, db + [c]) && AllEntailed(F, db + [c]) && Accounted(F, cs, db + [c], t)
    ensures Present(cs, db + [c], deleted)
  {
    var db2 := db + [c];
    ReasonsKept(t, db, db2);
    forall m: set<nat> | AllHold(m, cs, db2) && RootTrue(m, t) ensures Models(m, F) {
      forall cr | cr in cs && cr < |db| ensures ClauseTrue(m, db[cr]) { assert db2[cr] == db[cr]; }
      assert AllHold(m, cs, db);
    }
  }

  lemma PropagatedLonger(t: Trail, db: Db, deleted: set<nat>, c: seq<L>, q: nat)
    requires Propagated(t, db, deleted, q) && WatchLists.Safe(t, c, q)
    ensures Propagated(t, db + [c], deleted, q)
  {
    var db2 := db + [c];
    forall cr | 0 <= cr < |db2| && cr !in deleted ensures WatchLists.Safe(t, db2[cr], q) {
      if cr < |db| { assert db2[cr] == db[cr]; }
    }
  }

  /** The learnt clause is stored and its first literal implied by it. */
  lemma GoodLearn(F: Cnfs, cs: seq<nat>, db: Db, deleted: set<nat>, t: Trail, assumptions: seq<L>, c: seq<L>, q: nat)
    requires Good(F, cs, db, deleted, t, assumptions, q) && q <= |t.lits| && Entails(F, c) && Present(cs, db, deleted)
    requires |c| >= 2 && c[0].v < |t.assigns| && Value(t.assigns, c[0]) == LUndef && c[1].v != c[0].v
    requires forall j :: 1 <= j < |c| ==> Value(t.assigns, c[j]) == LFalse
    requires t.lim != [] && Start(t) < |t.lits| && LevelOf(t, c[1]) == |t.lim|
    ensures |t.assigns| == |t.level| == |t.reason| == |t.pos|
    ensures Good(F, cs, db + [c], deleted, Push(t, c[0], CRef(|db|)), assumptions, q)
  {
    hide Levelled, Reasoned, Propagated, AllEntailed, Entails, RootsEntailed, Accounted, Rooted, WatchLists.Safe;
    hide Assumed, Present;
    var u := Push(t, c[0], CRef(|db|));
    LongerKeeps(F, cs, db, deleted, t, c);
    PushOk(t, db + [c], c[0], CRef(|db|));
    RootsPush(F, t, c[0], CRef(|db|));
    AccountedPush(F, cs, db + [c], t, c[0], CRef(|db|));
    RootedPush(t, db + [c], c[0], CRef(|db|));
    PropagatedPush(t, db, deleted, c[0], CRef(|db|), q);
    LearntSafe(t, c, CRef(|db|), q);
    PropagatedLonger(u, db, deleted, c, q);
    AssumedImplied(t, c[0], CRef(|db|), assumptions);
  }

  lemma AssumedImplied(t: Trail, p: L, from: CRef, assumptions: seq<L>)
    requires Linked(t) && p.v < |t.assigns| && Value(t.assigns, p) == LUndef && from.CRef? && Assumed(t, assumptions)
    ensures Assumed(Push(t, p, from), assumptions)
  {
    AssumedPush(t, p, from, assumptions);
  }

  // ------------------------------------------------------------------- deciding

  lemma GoodNewLevel(F: Cnfs, cs: seq<nat>, db: Db, deleted: set<nat>, t: Trail, assumptions: seq<L>, q: nat)
    requires Good(F, cs, db, deleted, t, assumptions, q)
    requires |t.lim| < |assumptions| ==> Value(t.assigns, assumptions[|t.lim|]) == LTrue
    ensures Good(F, cs, db, deleted, NewLevel(t), assumptions, q)
  {
    hide Reasoned, Propagated, AllEntailed, Entails;
    var u := NewLevel(t);
    NewLevelOk(t, db);
    PropagatedNewLevel(t, db, deleted, q);
    forall m: set<nat> | RootTrue(m, u) ensures RootTrue(m, t) {}
    forall i | 0 <= i < |u.lits| && IsDecision(u, i) && LevelOf(u, u.lits[i]) <= |assumptions|
      ensures u.lits[i] in assumptions
    {
      assert IsDecision(t, i);
    }
    if |t.lim| < |assumptions| {
      var l := assumptions[|t.lim|];
      assert t.lits[t.pos[l.v]].v == l.v;
    }
  }

  /** Opens a level with an unassigned literal; for the first levels, with the next
      assumption. */
  lemma GoodDecide(F: Cnfs, cs: seq<nat>, db: Db, deleted: set<nat>, t: Trail, assumptions: seq<L>, q: nat, p: L)
    requires Good(F, cs, db, deleted, t, assumptions, q) && q <= |t.lits|
    requires p.v < |t.assigns| && Value(t.assigns, p) == LUndef
    requires |t.lim| < |assumptions| ==> p == assumptions[|t.lim|]
    ensures |t.assigns| == |t.level| == |t.reason| == |t.pos|
    ensures Good(F, cs, db, deleted, Push(NewLevel(t), p, CRefUndef), assumptions, q)
  {
    hide Levelled, Reasoned, Propagated, AllEntailed, Entails, RootsEntailed, Accounted, Rooted;
    var u := NewLevel(t);
    NewLevelOk(t, db);
    NewLevelRest(F, cs, db, deleted, t, q);
    PushOk(u, db, p, CRefUndef);
    RootsPush(F, u, p, CRefUndef);
    AccountedPush(F, cs, db, u, p, CRefUndef);
    RootedPush(u, db, p, CRefUndef);
    PropagatedPush(u, db, deleted, p, CRefUndef, q);
    DecisionAssumed(t, p, assumptions);
  }

  lemma NewLevelRest(F: Cnfs, cs: seq<nat>, db: Db, deleted: set<nat>, t: Trail, q: nat)
    requires RootsEntailed(F, t) && Accounted(F, cs, db, t) && Rooted(t) && Propagated(t, db, deleted, q)
    ensures var u := NewLevel(t);
      RootsEntailed(F, u) && Accounted(F, cs, db, u) && Rooted(u) && Propagated(u, db, deleted, q)
  {
    hide Propagated, Entails;
    PropagatedNewLevel(t, db, deleted, q);
    forall m: set<nat> | RootTrue(m, NewLevel(t)) ensures RootTrue(m, t) {}
  }

  lemma DecisionAssumed(t: Trail, p: L, assumptions: seq<L>)
    requires Linked(t) && Assumed(t, assumptions) && p.v < |t.assigns| && Value(t.assigns, p) == LUndef
    requires |t.lim| < |assumptions| ==> p == assumptions[|t.lim|]
    ensures Assumed(Push(NewLevel(t), p, CRefUndef), assumptions)
  {
    var u := NewLevel(t);
    forall i | 0 <= i < |u.lits| && IsDecision(u, i) && LevelOf(u, u.lits[i]) <= |assumptions|
      ensures u.lits[i] in assumptions
    {
      assert IsDecision(t, i);
    }
    AssumedPush(u, p, CRefUndef, assumptions);
  }

  lemma HeightDecide(t: Trail, p: L)
    requires Linked(t) && p.v < |t.assigns| && Value(t.assigns, p) == LUndef && |t.lits| < |t.assigns|
    ensures Height(t) < Height(Push(NewLevel(t), p, CRefUndef))
  {
    HeightNewLevel(t);
    assert Linked(NewLevel(t));
    HeightPush(NewLevel(t), p, CRefUndef);
  }

  /** An unassigned variable leaves room on the trail. */
  lemma RoomLeft(t: Trail, x: nat)
    requires Linked(t) && x < |t.assigns| && t.assigns[x] == LUndef
    ensures |t.lits| < |t.assigns|
  {
    PrefixBound(t, |t.lits|);
    var s := set i | 0 <= i < |t.lits| :: t.lits[i].v;
    assert s <= Below(|t.assigns|) - {x};
    BelowSize(|t.assigns|);
    SubsetSize(s, Below(|t.assigns|) - {x});
  }

  /** The final clause speaks of assumptions only. */
  lemma FinalOfAssumptions(t: Trail, conflict: seq<L>, p: L, assumptions: seq<L>)
    requires Assumed(t, assumptions) && FinalLits(t, conflict, p) && p.Neg() in assumptions
    requires forall i :: 0 <= i < |t.lits| ==> LevelOf(t, t.lits[i]) <= |assumptions|
    ensures forall l :: l in conflict ==> l.Neg() in assumptions
  {
    forall l | l in conflict && l != p ensures l.Neg() in assumptions {
      assert FromDecision(t, l);
      var i :| 0 <= i < |t.lits| && IsDecision(t, i) && l == t.lits[i].Neg();
      assert l.Neg() == t.lits[i];
    }
  }

  // ------------------------------------------------------------ deleting clauses

  function Without(s: seq<nat>, i: nat): seq<nat>
    requires i < |s|
  {
    s[..i] + s[i + 1..]
  }

  lemma WithoutParts(s: seq<nat>, i: nat)
    requires i < |s|
    ensures |Without(s, i)| == |s| - 1 && forall j :: 0 <= j < i ==> Without(s, i)[j] == s[j]
    ensures forall x :: x in s ==> x in Without(s, i) || x == s[i]
    ensures forall x :: x in Without(s, i) ==> x in s
  {
    assert s == s[..i] + [s[i]] + s[i + 1..];
  }

  /** Some literal of the clause is true. */
  ghost predicate HasTrue(assigns: seq<LBool>, c: seq<L>) {
    exists j :: 0 <= j < |c| && Value(assigns, c[j]) == LTrue
  }

  /** The clauses that are left are the ones without a true literal. */
  ghost predicate TrueOnesGone(cs: seq<nat>, before: seq<nat>, assigns: seq<LBool>, db: Db) {
    && TrueOnesGoneTo(cs, before, assigns, db, |cs|)
  }

  ghost predicate TrueOnesGoneTo(cs: seq<nat>, before: seq<nat>, assigns: seq<LBool>, db: Db, i: nat) {
    && (forall j :: 0 <= j < |cs| && j < i ==> cs[j] < |db| && !HasTrue(assigns, db[cs[j]]))
    && (forall cr :: cr in before && cr !in cs ==> cr < |db| && HasTrue(assigns, db[cr]))
    && (forall cr :: cr in cs ==> cr in before)
  }

  lemma TrueOneGoes(cs: seq<nat>, before: seq<nat>, assigns: seq<LBool>, db: Db, i: nat)
    requires TrueOnesGoneTo(cs, before, assigns, db, i) && i < |cs| && cs[i] < |db| && HasTrue(assigns, db[cs[i]])
    ensures TrueOnesGoneTo(Without(cs, i), before, assigns, db, i) && |Without(cs, i)| == |cs| - 1
  {
    hide HasTrue;
    WithoutParts(cs, i);
  }

  lemma FalseOneStays(cs: seq<nat>, before: seq<nat>, assigns: seq<LBool>, db: Db, i: nat)
    requires TrueOnesGoneTo(cs, before, assigns, db, i) && i < |cs| && cs[i] < |db| && !HasTrue(assigns, db[cs[i]])
    ensures TrueOnesGoneTo(cs, before, assigns, db, i + 1)
  {
  }

  lemma NothingGone(cs: seq<nat>, assigns: seq<LBool>, db: Db)
    ensures TrueOnesGoneTo(cs, cs, assigns, db, 0)
  {
  }

  lemma WithoutPresent(s: seq<nat>, i: nat, db: Db, deleted: set<nat>)
    requires i < |s| && Present(s, db, deleted) && NoDup(s)
    ensures Present(Without(s, i), db, deleted + {s[i]})
  {
    WithoutMembers(s, i);
  }

  lemma WithoutMembers(s: seq<nat>, i: nat)
    requires i < |s| && NoDup(s)
    ensures forall x :: x in Without(s, i) ==> x in s && x != s[i]
    ensures forall x :: x in s && x != s[i] ==> x in Without(s, i)
  {
    forall x | x in Without(s, i) ensures x in s && x != s[i] {
      var k :| 0 <= k < |Without(s, i)| && Without(s, i)[k] == x;
      assert s[if k < i then k else k + 1] == x;
    }
    forall x | x in s && x != s[i] ensures x in Without(s, i) {
      var k :| 0 <= k < |s| && s[k] == x;
      assert Without(s, i)[if k < i then k else k - 1] == x;
    }
  }

  lemma NoDupParts(cs: seq<nat>, ls: seq<nat>)
    requires NoDup(cs + ls)
    ensures NoDup(cs) && NoDup(ls) && forall x :: x in cs ==> x !in ls
  {
    forall i, j | 0 <= i < j < |cs| ensures cs[i] != cs[j] { assert (cs + ls)[i] != (cs + ls)[j]; }
    forall i, j | 0 <= i < j < |ls| ensures ls[i] != ls[j] { assert (cs + ls)[|cs| + i] != (cs + ls)[|cs| + j]; }
    forall x | x in cs ensures x !in ls {
      var i :| 0 <= i < |cs| && cs[i] == x;
      forall j | 0 <= j < |ls| ensures ls[j] != x { assert (cs + ls)[i] != (cs + ls)[|cs| + j]; }
    }
  }

  lemma NoDupWhole(cs: seq<nat>, ls: seq<nat>)
    requires NoDup(cs) && NoDup(ls) && forall x :: x in cs ==> x !in ls
    ensures NoDup(cs + ls)
  {
    var all := cs + ls;
    forall i, j | 0 <= i < j < |all| ensures all[i] != all[j] {
      if i < |cs| && j >= |cs| { assert cs[i] in cs && ls[j - |cs|] in ls; }
    }
  }

  lemma WithoutNoDup(s: seq<nat>, i: nat)
    requires i < |s| && NoDup(s)
    ensures NoDup(Without(s, i))
  {
    var r := Without(s, i);
    forall j, k | 0 <= j < k < |r| ensures r[j] != r[k] {
      assert r[j] == s[if j < i then j else j + 1] && r[k] == s[if k < i then k else k + 1];
    }
  }

  /** Deleting a clause after marking its two lists as dirty. */
  lemma DeleteClean(w: Lists, dirty: set<L>, db: Db, deleted: set<nat>, n: nat, cr: nat)
    requires WatchesOk(w, db, deleted, n) && DirtyOk(w, dirty, deleted) && cr < |db|
    ensures |db[cr]| >= 2 && db[cr][0].Neg() in w && db[cr][1].Neg() in w
    ensures DirtyOk(w, dirty + {db[cr][0].Neg(), db[cr][1].Neg()}, deleted + {cr})
    ensures WatchesOk(w, db, deleted + {cr}, n)
  {
    WatchesParts(w, db, deleted, n);
    var c := db[cr];
    assert ClauseOk(c, n);
    assert c[0].v < n && c[1].v < n;
    assert c[0].Neg() in w && c[1].Neg() in w;
    var dirty2 := dirty + {c[0].Neg(), c[1].Neg()};
    forall p: L, i: nat | p in w && p !in dirty2 && 0 <= i < |w[p]| ensures w[p][i].cref !in deleted + {cr} {
      assert ListOk(w[p], p, db);
    }
    DeleteLists(w, db, deleted, n, cr);
  }

  lemma PropagatedFewer(t: Trail, db: Db, deleted: set<nat>, q: nat, cr: nat)
    requires Propagated(t, db, deleted, q)
    ensures Propagated(t, db, deleted + {cr}, q)
  {
  }

  /** The root literal that the clause implied stands without a reason. */
  function Unlock(t: Trail, x: nat): Trail
    requires x < |t.reason|
  {
    t.(reason := t.reason[x := CRefUndef])
  }

  lemma UnlockOk(t: Trail, db: Db, x: nat)
    requires TrailOk(t, db) && x < |t.reason| && (t.assigns[x] != LUndef ==> t.level[x] == 0)
    ensures TrailOk(Unlock(t, x), db)
  {
    var u := Unlock(t, x);
    forall i | 0 <= i < |u.lits| && u.reason[u.lits[i].v].CRef? ensures Implied(u, db, i) {
      assert Implied(t, db, i);
      var c := db[t.reason[t.lits[i].v].id];
      forall j | 1 <= j < |c| ensures FalseBefore(u, c[j], i) { assert FalseBefore(t, c[j], i); }
    }
  }

  lemma GoodUnlock(F: Cnfs, cs: seq<nat>, db: Db, deleted: set<nat>, t: Trail, assumptions: seq<L>, q: nat, x: nat)
    requires Good(F, cs, db, deleted, t, assumptions, q) && x < |t.reason| && t.lim == []
    requires Linked(t) && (t.assigns[x] != LUndef ==> t.level[x] == 0)
    ensures Good(F, cs, db, deleted, Unlock(t, x), assumptions, q)
  {
    hide Reasoned, Entails;
    var u := Unlock(t, x);
    UnlockOk(t, db, x);
    forall m: set<nat> | RootTrue(m, u) ensures RootTrue(m, t) {
      forall i | 0 <= i < |t.lits| && LevelOf(t, t.lits[i]) == 0 ensures LitTrue(m, t.lits[i]) { assert u.lits[i] == t.lits[i]; }
    }
    UnlockPropagated(t, db, deleted, q, x);
    assert forall i :: 0 <= i < |t.lits| ==> t.level[t.lits[i].v] == 0;
  }

  lemma UnlockPropagated(t: Trail, db: Db, deleted: set<nat>, q: nat, x: nat)
    requires x < |t.reason| && Propagated(t, db, deleted, q)
    ensures Propagated(Unlock(t, x), db, deleted, q)
  {
    var u := Unlock(t, x);
    forall cr | 0 <= cr < |db| && cr !in deleted ensures WatchLists.Safe(u, db[cr], q) {
      var c := db[cr];
      assert WatchLists.Safe(t, c, q);
      if |c| >= 2 {
        forall k | 0 <= k < 2 ensures SafeAt(u, c, k, q) {
          assert SafeAt(t, c, k, q);
          if Value(t.assigns, c[k]) == LFalse && PosOf(t, c[k]) < q {
            var j :| 0 <= j < |c| && Value(t.assigns, c[j]) == LTrue && LevelOf(t, c[j]) <= LevelOf(t, c[k]);
            assert Value(u.assigns, c[j]) == LTrue;
          }
        }
        assert SafeAt(u, c, 0, q) && SafeAt(u, c, 1, q);
      }
    }
  }

  /** A problem clause that is true at the root level may go. */
  lemma AccountedSatisfied(F: Cnfs, cs: seq<nat>, i: nat, db: Db, t: Trail, l: L)
    requires Accounted(F, cs, db, t) && TrailOk(t, db) && t.lim == [] && i < |cs| && cs[i] < |db| && NoDup(cs)
    requires l in db[cs[i]] && Value(t.assigns, l) == LTrue
    ensures Accounted(F, Without(cs, i), db, t)
  {
    forall m: set<nat> | AllHold(m, Without(cs, i), db) && RootTrue(m, t) ensures Models(m, F) {
      var k := t.pos[l.v];
      assert t.lits[k] == l && LevelOf(t, t.lits[k]) == 0;
      assert LitTrue(m, l) && ClauseTrue(m, db[cs[i]]);
      WithoutMembers(cs, i);
      forall cr | cr in cs && cr < |db| ensures ClauseTrue(m, db[cr]) {}
    }
  }

  lemma StoreDropClause(w: Lists, dirty: set<L>, db: Db, deleted: set<nat>, cs: seq<nat>, ls: seq<nat>, n: nat, i: nat)
    requires StoreOk(w, dirty, db, deleted, cs, ls, n) && i < |cs|
    ensures cs[i] < |db| && cs[i] !in deleted && |db[cs[i]]| >= 2
    ensures StoreOk(w, dirty + {db[cs[i]][0].Neg(), db[cs[i]][1].Neg()}, db, deleted + {cs[i]}, Without(cs, i), ls, n)
  {
    hide WatchesOk, DirtyOk, Without;
    assert cs[i] in cs;
    NoDupParts(cs, ls);
    WithoutPresent(cs, i, db, deleted);
    WithoutMembers(cs, i);
    WithoutNoDup(cs, i);
    NoDupWhole(Without(cs, i), ls);
    DeleteClean(w, dirty, db, deleted, n, cs[i]);
  }

  lemma StoreDropLearnt(w: Lists, dirty: set<L>, db: Db, deleted: set<nat>, cs: seq<nat>, ls: seq<nat>, n: nat, i: nat)
    requires StoreOk(w, dirty, db, deleted, cs, ls, n) && i < |ls|
    ensures ls[i] < |db| && ls[i] !in deleted && |db[ls[i]]| >= 2
    ensures StoreOk(w, dirty + {db[ls[i]][0].Neg(), db[ls[i]][1].Neg()}, db, deleted + {ls[i]}, cs, Without(ls, i), n)
  {
    hide WatchesOk, DirtyOk, Without;
    assert ls[i] in ls;
    NoDupParts(cs, ls);
    WithoutPresent(ls, i, db, deleted);
    WithoutMembers(ls, i);
    WithoutNoDup(ls, i);
    NoDupWhole(cs, Without(ls, i));
    DeleteClean(w, dirty, db, deleted, n, ls[i]);
  }

  lemma HeightUnlock(t: Trail, x: nat)
    requires Linked(t) && Levelled(t) && t.lim == [] && x < |t.reason| && |t.lits| <= |t.assigns|
    ensures Height(Unlock(t, x)) == Height(t)
  {
    RankSame(t, Unlock(t, x), |t.lits|, |t.assigns|);
  }

  /** With the reason of x gone if the clause was locked. */
  function Freed(t: Trail, db: Db, cr: nat): Trail
    requires cr < |db| && |db[cr]| >= 1
  {
    var x := db[cr][0].v;
    if Value(t.assigns, db[cr][0]) == LTrue && x < |t.reason| && t.reason[x] == CRef(cr) then Unlock(t, x) else t
  }

  lemma GoodDropClause(F: Cnfs, cs: seq<nat>, db: Db, deleted: set<nat>, t: Trail, assumptions: seq<L>, q: nat,
        i: nat, l: L)
    requires Good(F, cs, db, deleted, t, assumptions, q) && t.lim == [] && i < |cs| && cs[i] < |db| && |db[cs[i]]| >= 1
    requires NoDup(cs) && l in db[cs[i]] && Value(t.assigns, l) == LTrue && |t.lits| <= |t.assigns|
    ensures Good(F, Without(cs, i), db, deleted + {cs[i]}, Freed(t, db, cs[i]), assumptions, q)
    ensures Height(Freed(t, db, cs[i])) == Height(t)
  {
    hide Reasoned, Entails, Propagated, Rooted, AllEntailed, RootsEntailed, Without;
    var x := db[cs[i]][0].v;
    AccountedSatisfied(F, cs, i, db, t, l);
    PropagatedFewer(t, db, deleted, q, cs[i]);
    if Freed(t, db, cs[i]) != t {
      assert t.lits[t.pos[x]].v == x;
      GoodUnlock(F, Without(cs, i), db, deleted + {cs[i]}, t, assumptions, q, x);
      HeightUnlock(t, x);
    }
  }

  lemma GoodDropLearnt(F: Cnfs, cs: seq<nat>, db: Db, deleted: set<nat>, t: Trail, assumptions: seq<L>, q: nat, cr: nat)
    requires Good(F, cs, db, deleted, t, assumptions, q) && cr < |db| && |db[cr]| >= 1 && |t.lits| <= |t.assigns|
    requires t.lim == [] || Freed(t, db, cr) == t
    ensures Good(F, cs, db, deleted + {cr}, Freed(t, db, cr), assumptions, q)
    ensures Height(Freed(t, db, cr)) == Height(t)
  {
    hide Reasoned, Entails, Propagated, Rooted, AllEntailed, RootsEntailed;
    var x := db[cr][0].v;
    PropagatedFewer(t, db, deleted, q, cr);
    if Freed(t, db, cr) != t {
      assert t.lits[t.pos[x]].v == x;
      GoodUnlock(F, cs, db, deleted + {cr}, t, assumptions, q, x);
      HeightUnlock(t, x);
    }
  }

  // ---------------------------------------------------------------------- answers

  /** The true variables of an assignment. */
  function TrueVars(assigns: seq<LBool>): (m: set<nat>)
    ensures forall x: nat :: x in m <==> x < |assigns| && assigns[x] == LTrue
  {
    if assigns == [] then {}
    else
      var k := |assigns| - 1;
      var init := TrueVars(assigns[..k]);
      if assigns[k] == LTrue then init + {k} else init
  }

  lemma TrueInModel(assigns: seq<LBool>, l: L)
    requires Value(assigns, l) != LUndef
    ensures LitTrue(TrueVars(assigns), l) <==> Value(assigns, l) == LTrue
  {
  }

  /** When everything is assigned and propagated, the assignment satisfies all clauses. */
  lemma FullAssignmentModels(F: Cnfs, cs: seq<nat>, db: Db, deleted: set<nat>, t: Trail, assumptions: seq<L>, n: nat)
    requires Good(F, cs, db, deleted, t, assumptions, |t.lits|) && Present(cs, db, deleted)
    requires DbOk(db, |t.assigns|) && |t.lim| >= |assumptions|
    requires forall x :: 0 <= x < |t.assigns| ==> t.assigns[x] != LUndef
    ensures Models(TrueVars(t.assigns), F) && AllTrue(TrueVars(t.assigns), assumptions)
  {
    hide Levelled, Reasoned, Propagated;
    var m := TrueVars(t.assigns);
    forall cr | cr in cs && cr < |db| ensures ClauseTrue(m, db[cr]) {
      assert ClauseOk(db[cr], |t.assigns|);
      NoUnitLeft(t, db, deleted, |t.assigns|, cr);
      var j :| 0 <= j < |db[cr]| && Value(t.assigns, db[cr][j]) == LTrue;
      TrueInModel(t.assigns, db[cr][j]);
    }
    forall i | 0 <= i < |t.lits| ensures LitTrue(m, t.lits[i]) { TrueInModel(t.assigns, t.lits[i]); }
    forall l | l in assumptions ensures LitTrue(m, l) {
      var k :| 0 <= k < |assumptions| && assumptions[k] == l;
      TrueInModel(t.assigns, l);
    }
  }

  // --------------------------------------------------------------------- restarts

  /** The finite pieces of the Luby sequence, as exponents of two. */
  function Piece(j: nat): (s: seq<nat>)
    ensures |s| + 1 == Pow2(j + 1) && s[|s| - 1] == j
  {
    if j == 0 then assert Pow2(1) == 2 * Pow2(0); [0] else Piece(j - 1) + Piece(j - 1) + [j]
  }

  /** Where the j-th piece ends. */
  function PieceEnd(j: nat): nat { |Piece(j)| - 1 }

  /** Each piece begins with the one before. */
  lemma {:induction false} PiecePrefix(j: nat, k: nat, x: nat)
    requires j <= k && x < |Piece(j)|
    ensures x < |Piece(k)| && Piece(k)[x] == Piece(j)[x]
  {
    if j < k { PiecePrefix(j, k - 1, x); }
  }

  /** The exponent of entry x of the Luby sequence. */
  method LubyExponent(x: nat) returns (k: nat)
    ensures forall j: nat :: x < |Piece(j)| ==> k == Piece(j)[x]
  {
    var size, sq: nat := 1, 0;
    while size < x + 1
      invariant size == |Piece(sq)|
      decreases x + 1 - size
    {
      assert |Piece(sq + 1)| == 2 * |Piece(sq)| + 1;
      sq, size := sq + 1, 2 * size + 1;
    }
    ghost var whole := sq;
    var y: nat := x;
    while size - 1 != y
      invariant y < size == |Piece(sq)| && Piece(sq)[y] == Piece(whole)[x]
      decreases size
    {
      HalfPiece(sq, y);
      size := (size - 1) / 2;
      sq := sq - 1;
      y := y % size;
    }
    k := sq;
    forall j: nat | x < |Piece(j)| ensures k == Piece(j)[x] {
      if j <= whole { PiecePrefix(j, whole, x); } else { PiecePrefix(whole, j, x); }
    }
  }

  /** An entry that is not the last of its piece is an entry of the piece before. */
  lemma HalfPiece(j: nat, y: nat)
    requires y < |Piece(j)| - 1
    ensures j > 0 && |Piece(j)| == 2 * |Piece(j - 1)| + 1 && |Piece(j - 1)| > 0
    ensures y % |Piece(j - 1)| < |Piece(j - 1)| && Piece(j)[y] == Piece(j - 1)[y % |Piece(j - 1)|]
  {
    var half := Piece(j - 1);
    assert Piece(j) == half + half + [j];
    RemainderBelow(y, |half|);
  }

  lemma RemainderBelow(y: nat, size: nat)
    requires 0 < size && y < 2 * size
    ensures y % size == if y < size then y else y - size
  {
  }
}
