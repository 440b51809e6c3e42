/** What leads to a literal: the places of the trail that replacing literals by the reasons
    for them meets, and the literals that follow from marked ones. */
module Causes {
  import opened Cnf
  import opened Trails
  import opened WatchLists
  import opened Resolution
  import opened Analysis

  /** The literal at place k is one of the other literals of the reason at place m. */
  ghost predicate InReason(t: Trail, db: Db, m: nat, k: nat)
    requires m < |t.lits| && k < |t.lits|
  {
    var x := t.lits[m].v;
    && x < |t.reason| && t.reason[x].CRef? && t.reason[x].id < |db|
    && OccursFrom(db[t.reason[x].id], 1, t.lits[k].v)
  }

  /** The variable occurs in the clause, from number `from` on. */
  ghost predicate OccursFrom(c: seq<L>, from: nat, x: nat) { exists j :: from <= j < |c| && c[j].v == x }

  /** Starting from the clause, and replacing what stands at places from b on by its reason,
      the literal at place k is met. */
  ghost predicate Met(t: Trail, db: Db, c: seq<L>, b: nat, k: nat)
    requires k < |t.lits|
    decreases |t.lits| - k
  {
    || OccursFrom(c, 0, t.lits[k].v)
    || exists m :: b <= m < |t.lits| && k < m && Met(t, db, c, b, m) && InReason(t, db, m, k)
  }

  /** What is met at a place depends on later places only. */
  lemma {:induction false} MetStable(t: Trail, db: Db, c: seq<L>, a: nat, b: nat, k: nat)
    requires k < |t.lits| && a <= k + 1 && b <= k + 1
    ensures Met(t, db, c, a, k) <==> Met(t, db, c, b, k)
    decreases |t.lits| - k
  {
    forall m | k < m < |t.lits| ensures Met(t, db, c, a, m) <==> Met(t, db, c, b, m) { MetStable(t, db, c, a, b, m); }
    if m :| a <= m < |t.lits| && k < m && Met(t, db, c, a, m) && InReason(t, db, m, k) {
      assert b <= m && Met(t, db, c, b, m);
    }
    if m :| b <= m < |t.lits| && k < m && Met(t, db, c, b, m) && InReason(t, db, m, k) {
      assert a <= m && Met(t, db, c, a, m);
    }
  }

  lemma {:induction false} MetMore(t: Trail, db: Db, c: seq<L>, a: nat, b: nat, k: nat)
    requires k < |t.lits| && a <= b && Met(t, db, c, b, k)
    ensures Met(t, db, c, a, k)
    decreases |t.lits| - k
  {
    if !OccursFrom(c, 0, t.lits[k].v) {
      var m :| b <= m < |t.lits| && k < m && Met(t, db, c, b, m) && InReason(t, db, m, k);
      MetMore(t, db, c, a, b, m);
    }
  }

  /** Replacing one more literal adds what occurs in its reason. */
  lemma MetStep(t: Trail, db: Db, c: seq<L>, i: nat, k: nat)
    requires k < i < |t.lits|
    ensures Met(t, db, c, i, k) <==>
            Met(t, db, c, i + 1, k) || (Met(t, db, c, i + 1, i) && InReason(t, db, i, k))
  {
    MetStable(t, db, c, i, i + 1, i);
    if Met(t, db, c, i, k) && !OccursFrom(c, 0, t.lits[k].v) {
      var m :| i <= m < |t.lits| && k < m && Met(t, db, c, i, m) && InReason(t, db, m, k);
      MetStable(t, db, c, i, i + 1, m);
    }
    if Met(t, db, c, i + 1, k) { MetMore(t, db, c, i, i + 1, k); }
  }

  /** Places that are not met add nothing. */
  lemma {:induction false} MetSkip(t: Trail, db: Db, c: seq<L>, a: nat, b: nat, k: nat)
    requires k < a <= b <= |t.lits|
    requires forall m :: a <= m < b ==> !Met(t, db, c, b, m)
    ensures Met(t, db, c, a, k) <==> Met(t, db, c, b, k)
    decreases b - a
  {
    if a < b {
      MetSkip(t, db, c, a + 1, b, k);
      MetSkip(t, db, c, a + 1, b, a);
      MetStep(t, db, c, a, k);
    }
  }

  /** The literal at place k is met when everything that is met is replaced. */
  ghost predicate Reached(t: Trail, db: Db, c: seq<L>, k: nat)
    requires k < |t.lits|
  {
    Met(t, db, c, 0, k)
  }

  lemma ReachedIs(t: Trail, db: Db, c: seq<L>, b: nat, k: nat)
    requires k < |t.lits| && b <= k + 1
    ensures Reached(t, db, c, k) <==> Met(t, db, c, b, k)
  {
    MetStable(t, db, c, 0, b, k);
  }

  // ------------------------------------------------------- the first implication point

  /** Resolving from the clause back to place i leaves the literal there as the only one of
      the current level. */
  ghost predicate IsUip(t: Trail, db: Db, c: seq<L>, i: nat) {
    && Start(t) <= i < |t.lits| && Reached(t, db, c, i)
    && var b := i + 1; forall k :: Start(t) <= k < i ==> !Met(t, db, c, b, k)
  }

  /** The last place with that property. */
  ghost predicate FirstUip(t: Trail, db: Db, c: seq<L>, i: nat) {
    IsUip(t, db, c, i) && forall m :: i < m < |t.lits| ==> !IsUip(t, db, c, m)
  }

  /** Exactly the places before i that are met, above the root level, are marked. */
  ghost predicate MarksMet(t: Trail, db: Db, c: seq<L>, b: nat, i: nat, seen: seq<bool>) {
    forall k :: 0 <= k < |t.lits| ==>
      (IsSeen(seen, t.lits[k].v) <==> k < i && Met(t, db, c, b, k) && LevelOf(t, t.lits[k]) > 0)
  }

  /** The marks of a clause. */
  ghost predicate MarkedBy(t: Trail, was: seq<bool>, seen: seq<bool>, c: seq<L>, from: nat) {
    forall x: nat :: IsSeen(seen, x) <==>
      IsSeen(was, x) || (OccursFrom(c, from, x) && x < |t.level| && t.level[x] > 0)
  }

  lemma MarkedByNone(t: Trail, seen: seq<bool>, c: seq<L>, from: nat)
    requires from <= |c|
    ensures MarkedBy(t, seen, seen, c[..from], from)
  {
  }

  lemma MarkedByNext(t: Trail, was: seq<bool>, seen: seq<bool>, c: seq<L>, from: nat, j: nat)
    requires from <= j < |c| && MarkedBy(t, was, seen, c[..j], from) && c[j].v < |seen| == |t.level|
    ensures MarkedBy(t, was, if t.level[c[j].v] > 0 then seen[c[j].v := true] else seen, c[..j + 1], from)
  {
    assert forall x :: OccursFrom(c[..j + 1], from, x) <==> OccursFrom(c[..j], from, x) || c[j].v == x by {
      forall x ensures OccursFrom(c[..j + 1], from, x) <==> OccursFrom(c[..j], from, x) || c[j].v == x {
        if k :| from <= k < |c[..j]| && c[..j][k].v == x { assert c[..j + 1][k].v == x; }
        if c[j].v == x { assert c[..j + 1][j].v == x; }
        if OccursFrom(c[..j + 1], from, x) {
          var k :| from <= k < |c[..j + 1]| && c[..j + 1][k].v == x;
          if k < j { assert c[..j][k].v == x; }
        }
      }
    }
  }

  lemma MarkedByStart(t: Trail, db: Db, was: seq<bool>, seen: seq<bool>, c: seq<L>)
    requires Linked(t) && SeenClear(was) && MarkedBy(t, was, seen, c, 0)
    ensures MarksMet(t, db, c, |t.lits|, |t.lits|, seen)
  {
    forall k | 0 <= k < |t.lits|
      ensures IsSeen(seen, t.lits[k].v) <==> Met(t, db, c, |t.lits|, k) && LevelOf(t, t.lits[k]) > 0
    {
      assert !IsSeen(was, t.lits[k].v);
    }
  }

  lemma MarkedByReason(t: Trail, db: Db, c: seq<L>, i: nat, was: seq<bool>, seen: seq<bool>)
    requires Linked(t) && i < |t.lits| && MarksMet(t, db, c, i + 1, i, was) && Reached(t, db, c, i)
    requires t.reason[t.lits[i].v].CRef? && t.reason[t.lits[i].v].id < |db|
    requires var r := db[t.reason[t.lits[i].v].id];
             MarkedBy(t, was, seen, r, 1) && forall j :: 1 <= j < |r| ==> PosOf(t, r[j]) < i && IsFalse(t, r[j])
    ensures MarksMet(t, db, c, i, i, seen)
  {
    var r := db[t.reason[t.lits[i].v].id];
    ReachedIs(t, db, c, i + 1, i);
    forall k | 0 <= k < |t.lits|
      ensures IsSeen(seen, t.lits[k].v) <==> k < i && Met(t, db, c, i, k) && LevelOf(t, t.lits[k]) > 0
    {
      if k < i { MetStep(t, db, c, i, k); }
      if OccursFrom(r, 1, t.lits[k].v) {
        var j :| 1 <= j < |r| && r[j].v == t.lits[k].v;
        assert t.pos[t.lits[k].v] == k;
      }
    }
  }

  /** The last marked place is taken, and its mark with it. */
  lemma TakenIsMet(t: Trail, db: Db, c: seq<L>, b: nat, i: nat, seen: seq<bool>)
    requires Linked(t) && i < b <= |t.lits| && MarksMet(t, db, c, b, b, seen)
    requires IsSeen(seen, t.lits[i].v) && forall k :: i < k < b ==> !IsSeen(seen, t.lits[k].v)
    requires forall k :: i < k < b ==> LevelOf(t, t.lits[k]) > 0
    ensures Reached(t, db, c, i) && forall k :: i < k < b ==> !Reached(t, db, c, k)
    ensures t.lits[i].v < |seen| && MarksMet(t, db, c, i + 1, i, seen[t.lits[i].v := false])
  {
    hide Met, Reached;
    forall m | i < m < b ensures !Met(t, db, c, b, m) { assert !IsSeen(seen, t.lits[m].v); }
    forall k | i <= k < b ensures Reached(t, db, c, k) <==> Met(t, db, c, b, k) {
      MetSkip(t, db, c, k + 1, b, k);
      ReachedIs(t, db, c, k + 1, k);
    }
    var now := seen[t.lits[i].v := false];
    forall k | 0 <= k < |t.lits|
      ensures IsSeen(now, t.lits[k].v) <==> k < i && Met(t, db, c, i + 1, k) && LevelOf(t, t.lits[k]) > 0
    {
      if k <= i { MetSkip(t, db, c, i + 1, b, k); }
      if k != i { assert t.lits[k].v != t.lits[i].v; }
    }
  }

  /** Another marked place of the current level: not yet an implication point. */
  lemma NotYetUip(t: Trail, db: Db, c: seq<L>, i: nat, k: nat, seen: seq<bool>)
    requires i < |t.lits| && MarksMet(t, db, c, i + 1, i, seen) && Start(t) <= k < i && IsSeen(seen, t.lits[k].v)
    ensures !IsUip(t, db, c, i)
  {
    assert Met(t, db, c, i + 1, k);
  }

  lemma UnreachedIsNoUip(t: Trail, db: Db, c: seq<L>, i: nat)
    requires i < |t.lits| && !Reached(t, db, c, i)
    ensures !IsUip(t, db, c, i)
  {
  }

  /** No marked place of the current level is left: an implication point. */
  lemma NowUip(t: Trail, db: Db, c: seq<L>, i: nat, seen: seq<bool>)
    requires TrailOk(t, db) && t.lim != [] && Start(t) <= i < |t.lits| && Reached(t, db, c, i)
    requires MarksMet(t, db, c, i + 1, i, seen) && forall k :: Start(t) <= k < i ==> !IsSeen(seen, t.lits[k].v)
    ensures IsUip(t, db, c, i)
  {
    hide Reasoned, Met, Reached;
    var b := i + 1;
    forall k | Start(t) <= k < i ensures !Met(t, db, c, b, k) {
      assert !IsSeen(seen, t.lits[k].v);
      assert t.level[t.lits[k].v] > |t.lim| - 1;
    }
  }

  // ------------------------------------------------------------ redundant literals

  /** The literal at place k follows from the marked ones: it is false at the root, or
      marked, or of a level that is allowed and implied by literals that follow. */
  ghost predicate Follows(t: Trail, db: Db, seen: seq<bool>, levels: set<nat>, k: nat)
    requires k < |t.lits|
    decreases k
  {
    var x := t.lits[k].v;
    || LevelOf(t, t.lits[k]) == 0 || IsSeen(seen, x)
    || (t.level[x] % 32 in levels && x < |t.reason| && t.reason[x].CRef? && t.reason[x].id < |db|
        && var c := db[t.reason[x].id];
           forall j :: 1 <= j < |c| ==> PosOf(t, c[j]) < k && Follows(t, db, seen, levels, PosOf(t, c[j])))
  }

  /** All other literals of the reason of x follow. */
  ghost predicate Redundant(t: Trail, db: Db, seen: seq<bool>, levels: set<nat>, x: nat) {
    && x < |t.reason| && t.reason[x].CRef? && t.reason[x].id < |db|
    && var c := db[t.reason[x].id];
       forall j :: 1 <= j < |c| ==> PosOf(t, c[j]) < |t.lits| && Follows(t, db, seen, levels, PosOf(t, c[j]))
  }

  /** The extra marks follow from the old ones. */
  ghost predicate MarksFollow(t: Trail, db: Db, was: seq<bool>, seen: seq<bool>, levels: set<nat>) {
    forall k :: 0 <= k < |t.lits| && IsSeen(seen, t.lits[k].v) && !IsSeen(was, t.lits[k].v) ==> Follows(t, db, was, levels, k)
  }

  /** Marking what follows does not change what follows. */
  lemma {:induction false} FollowsSame(t: Trail, db: Db, was: seq<bool>, seen: seq<bool>, levels: set<nat>, k: nat)
    requires k < |t.lits| && MarksFollow(t, db, was, seen, levels)
    requires forall x :: IsSeen(was, x) ==> IsSeen(seen, x)
    ensures Follows(t, db, seen, levels, k) <==> Follows(t, db, was, levels, k)
    decreases k
  {
    forall m | 0 <= m < k ensures Follows(t, db, seen, levels, m) <==> Follows(t, db, was, levels, m) {
      FollowsSame(t, db, was, seen, levels, m);
    }
  }

  lemma RedundantSame(t: Trail, db: Db, was: seq<bool>, seen: seq<bool>, levels: set<nat>, x: nat)
    requires MarksFollow(t, db, was, seen, levels)
    requires forall x :: IsSeen(was, x) ==> IsSeen(seen, x)
    ensures Redundant(t, db, seen, levels, x) <==> Redundant(t, db, was, levels, x)
  {
    hide Follows;
    forall k | 0 <= k < |t.lits| ensures Follows(t, db, seen, levels, k) <==> Follows(t, db, was, levels, k) {
      FollowsSame(t, db, was, seen, levels, k);
    }
  }

  lemma MarksFollowMore(t: Trail, db: Db, was: seq<bool>, mid: seq<bool>, seen: seq<bool>, levels: set<nat>)
    requires MarksFollow(t, db, was, mid, levels) && MarksFollow(t, db, mid, seen, levels)
    requires forall x :: IsSeen(was, x) ==> IsSeen(mid, x)
    ensures MarksFollow(t, db, was, seen, levels)
  {
    hide Follows;
    forall k | 0 <= k < |t.lits| && IsSeen(seen, t.lits[k].v) && !IsSeen(was, t.lits[k].v)
      ensures Follows(t, db, was, levels, k)
    {
      if !IsSeen(mid, t.lits[k].v) { FollowsSame(t, db, was, mid, levels, k); }
    }
  }

  /** What the search has marked may be followed, and if the literal it started from is
      redundant, does follow; the stack holds such literals, and that literal. */
  ghost predicate Tracing(t: Trail, db: Db, was: seq<bool>, seen: seq<bool>, levels: set<nat>, p: nat, stack: seq<L>) {
    && (forall x: nat :: IsSeen(seen, x) && !IsSeen(was, x) ==> Traced(t, db, was, levels, p, x))
    && (forall l :: l in stack ==> l.v == p || (IsSeen(seen, l.v) && !IsSeen(was, l.v)))
  }

  ghost predicate Traced(t: Trail, db: Db, was: seq<bool>, levels: set<nat>, p: nat, x: nat) {
    && x < |t.reason| == |t.level| == |t.pos| && t.pos[x] < |t.lits| && t.lits[t.pos[x]].v == x
    && t.reason[x].CRef? && t.level[x] % 32 in levels && t.level[x] > 0
    && (Redundant(t, db, was, levels, p) ==> Follows(t, db, was, levels, t.pos[x]))
  }

  lemma TracingStart(t: Trail, db: Db, was: seq<bool>, levels: set<nat>, p: L)
    ensures Tracing(t, db, was, was, levels, p.v, [p])
  {
  }

  /** If p is redundant, so is what the reason of a stacked literal needs. */
  lemma ReasonFollows(t: Trail, db: Db, was: seq<bool>, seen: seq<bool>, levels: set<nat>, p: nat,
        stack: seq<L>, q: L, j: nat)
    requires Tracing(t, db, was, seen, levels, p, stack) && q in stack && Linked(t)
    requires q.v < |t.reason| && t.reason[q.v].CRef? && t.reason[q.v].id < |db| && 1 <= j < |db[t.reason[q.v].id]|
    requires Redundant(t, db, was, levels, p)
    ensures var l := db[t.reason[q.v].id][j]; PosOf(t, l) < |t.lits| && Follows(t, db, was, levels, PosOf(t, l))
  {
    if q.v != p { assert Traced(t, db, was, levels, p, q.v); }
  }

  lemma TracingMark(t: Trail, db: Db, was: seq<bool>, seen: seq<bool>, levels: set<nat>, p: nat, stack: seq<L>,
        q: L, j: nat)
    requires Tracing(t, db, was, seen, levels, p, stack + [q]) && Linked(t)
    requires q.v < |t.reason| && t.reason[q.v].CRef? && t.reason[q.v].id < |db| && 1 <= j < |db[t.reason[q.v].id]|
    requires var l := db[t.reason[q.v].id][j];
             && IsFalse(t, l) && l.v < |seen| && !seen[l.v] && t.level[l.v] > 0
             && t.reason[l.v].CRef? && t.level[l.v] % 32 in levels
    requires |was| == |seen| && forall x :: IsSeen(was, x) ==> IsSeen(seen, x)
    ensures var l := db[t.reason[q.v].id][j]; Tracing(t, db, was, seen[l.v := true], levels, p, stack + [l] + [q])
  {
    hide Follows, Redundant;
    var l := db[t.reason[q.v].id][j];
    var i := FalseOnTrail(t, l);
    assert q in stack + [q];
    if Redundant(t, db, was, levels, p) { ReasonFollows(t, db, was, seen, levels, p, stack + [q], q, j); }
    assert Traced(t, db, was, levels, p, l.v);
    assert forall m :: m in stack + [l] + [q] ==> m in stack + [q] || m == l;
  }

  /** A literal that may not be followed shows that p is not redundant. */
  lemma TracingStops(t: Trail, db: Db, was: seq<bool>, seen: seq<bool>, levels: set<nat>, p: nat, stack: seq<L>,
        q: L, j: nat)
    requires Tracing(t, db, was, seen, levels, p, stack + [q]) && Linked(t)
    requires q.v < |t.reason| && t.reason[q.v].CRef? && t.reason[q.v].id < |db| && 1 <= j < |db[t.reason[q.v].id]|
    requires var l := db[t.reason[q.v].id][j];
             && IsFalse(t, l) && !IsSeen(was, l.v) && LevelOf(t, l) > 0
             && !(t.reason[l.v].CRef? && t.level[l.v] % 32 in levels)
    ensures !Redundant(t, db, was, levels, p)
  {
    var l := db[t.reason[q.v].id][j];
    var i := FalseOnTrail(t, l);
    assert q in stack + [q];
    if Redundant(t, db, was, levels, p) { ReasonFollows(t, db, was, seen, levels, p, stack + [q], q, j); }
  }

  lemma TracingPop(t: Trail, db: Db, was: seq<bool>, seen: seq<bool>, levels: set<nat>, p: nat, stack: seq<L>, q: L)
    requires Tracing(t, db, was, seen, levels, p, stack + [q])
    ensures Tracing(t, db, was, seen, levels, p, stack)
  {
    assert forall m :: m in stack ==> m in stack + [q];
  }

  /** When the search has ended, all marks follow from the old ones. */
  lemma {:induction false} TracedFollows(t: Trail, db: Db, was: seq<bool>, seen: seq<bool>, levels: set<nat>,
        p: nat, k: nat)
    requires TrailOk(t, db) && Tracing(t, db, was, seen, levels, p, []) && Pending(t, db, was, seen, p, {})
    requires k < |t.lits| && IsSeen(seen, t.lits[k].v)
    ensures Follows(t, db, was, levels, k)
    decreases k
  {
    hide Levelled;
    var x := t.lits[k].v;
    if !IsSeen(was, x) {
      assert Traced(t, db, was, levels, p, x) && Closed(t, db, seen, x);
      assert Implied(t, db, k);
      var c := db[t.reason[x].id];
      forall j | 1 <= j < |c| ensures PosOf(t, c[j]) < k && Follows(t, db, was, levels, PosOf(t, c[j])) {
        assert FalseBefore(t, c[j], k);
        var m := t.pos[c[j].v];
        if LevelOf(t, c[j]) > 0 { TracedFollows(t, db, was, seen, levels, p, m); }
      }
    }
  }

  lemma TracingEnds(t: Trail, db: Db, was: seq<bool>, seen: seq<bool>, levels: set<nat>, p: L)
    requires TrailOk(t, db) && Tracing(t, db, was, seen, levels, p.v, []) && Pending(t, db, was, seen, p.v, {})
    requires IsFalse(t, p) && t.reason[p.v].CRef? && (IsSeen(was, p.v) ==> IsSeen(seen, p.v))
    requires Closed(t, db, seen, p.v)
    ensures Redundant(t, db, was, levels, p.v) && MarksFollow(t, db, was, seen, levels)
  {
    hide Levelled, Follows;
    forall k | 0 <= k < |t.lits| && IsSeen(seen, t.lits[k].v) ensures Follows(t, db, was, levels, k) {
      TracedFollows(t, db, was, seen, levels, p.v, k);
    }
    var i := FalseOnTrail(t, p);
    assert Implied(t, db, i);
    var c := db[t.reason[p.v].id];
    forall j | 1 <= j < |c| ensures PosOf(t, c[j]) < |t.lits| && Follows(t, db, was, levels, PosOf(t, c[j])) {
      assert FalseBefore(t, c[j], i);
      RootFollows(t, db, was, levels, PosOf(t, c[j]));
    }
  }

  lemma RootFollows(t: Trail, db: Db, seen: seq<bool>, levels: set<nat>, k: nat)
    requires k < |t.lits|
    ensures LevelOf(t, t.lits[k]) == 0 ==> Follows(t, db, seen, levels, k)
  {
  }

  /** May the literal be left out of the learnt clause in this mode? */
  ghost predicate Dispensable(t: Trail, db: Db, seen: seq<bool>, levels: set<nat>, mode: nat, l: L) {
    || (mode == 2 && Redundant(t, db, seen, levels, l.v))
    || (mode == 1 && Closed(t, db, seen, l.v))
  }

  /** The literals that stay, in their order. */
  ghost function Essential(t: Trail, db: Db, seen: seq<bool>, levels: set<nat>, mode: nat, out: seq<L>): seq<L> {
    if out == [] then [] else
      var l := out[|out| - 1];
      Essential(t, db, seen, levels, mode, out[..|out| - 1]) + if Dispensable(t, db, seen, levels, mode, l) then [] else [l]
  }

  lemma EssentialNext(t: Trail, db: Db, seen: seq<bool>, levels: set<nat>, mode: nat, out: seq<L>, i: nat)
    requires i < |out|
    ensures Essential(t, db, seen, levels, mode, out[..i + 1]) ==
            Essential(t, db, seen, levels, mode, out[..i]) + if Dispensable(t, db, seen, levels, mode, out[i]) then [] else [out[i]]
  {
    assert out[..i + 1][..i] == out[..i] && out[..i + 1][i] == out[i];
  }

  lemma {:induction false} EssentialMembers(t: Trail, db: Db, seen: seq<bool>, levels: set<nat>, mode: nat, out: seq<L>)
    ensures forall l :: l in Essential(t, db, seen, levels, mode, out) <==> l in out && !Dispensable(t, db, seen, levels, mode, l)
  {
    hide Dispensable;
    if out != [] {
      var init, l := out[..|out| - 1], out[|out| - 1];
      EssentialMembers(t, db, seen, levels, mode, init);
      assert out == init + [l];
    }
  }

  // --------------------------------------------------------------- learnt clauses

  /** The levels of the marked variables, modulo 32. */
  ghost function LevelsOf(t: Trail, seen: seq<bool>): set<nat> {
    set k | 0 <= k < |t.lits| && IsSeen(seen, t.lits[k].v) && t.lits[k].v < |t.level| :: t.level[t.lits[k].v] % 32
  }

  /** The clause learnt from c: the negation of the literal at the first implication point,
      and what has been met of lower levels, as far as it is essential. */
  ghost predicate LearntFrom(t: Trail, db: Db, c: seq<L>, mode: nat, marks: seq<bool>, learnt: seq<L>) {
    && learnt != [] && FirstUip(t, db, c, PosOf(t, learnt[0]))
    && MarksMet(t, db, c, PosOf(t, learnt[0]) + 1, PosOf(t, learnt[0]), marks)
    && forall l :: l in learnt <==>
         l == learnt[0] || (IsFalse(t, l) && IsSeen(marks, l.v) && !Dispensable(t, db, marks, LevelsOf(t, marks), mode, l))
  }

  lemma CollectedLevels(t: Trail, seen: seq<bool>, out: seq<L>)
    requires Linked(t) && (forall l :: l in out <==> IsFalse(t, l) && IsSeen(seen, l.v))
    ensures (set l | l in out && l.v < |t.level| :: t.level[l.v] % 32) == LevelsOf(t, seen)
  {
    var A := set l | l in out && l.v < |t.level| :: t.level[l.v] % 32;
    forall a | a in A ensures a in LevelsOf(t, seen) {
      var l :| l in out && l.v < |t.level| && t.level[l.v] % 32 == a;
      var k := FalseOnTrail(t, l);
      assert t.lits[k].v == l.v;
    }
    forall a | a in LevelsOf(t, seen) ensures a in A {
      var k :| 0 <= k < |t.lits| && IsSeen(seen, t.lits[k].v) && t.lits[k].v < |t.level| && t.level[t.lits[k].v] % 32 == a;
      var l := t.lits[k].Neg();
      assert IsFalse(t, l) && l in out;
    }
  }

  /** What has been collected is what is marked, as false literals. */
  lemma CollectedIsMarked(t: Trail, seen: seq<bool>, out: seq<L>)
    requires Linked(t) && Low(t, seen, out) && forall x :: IsSeen(seen, x) ==> x in Vars(out)
    ensures forall l :: l in out <==> IsFalse(t, l) && IsSeen(seen, l.v)
  {
    forall l ensures l in out <==> IsFalse(t, l) && IsSeen(seen, l.v) {
      if l in out { var k :| 0 <= k < |out| && out[k] == l; }
      if IsFalse(t, l) && IsSeen(seen, l.v) {
        var o :| o in out && o.v == l.v;
        var k :| 0 <= k < |out| && out[k] == o;
        assert o == l;
      }
    }
  }

  lemma LearntIs(t: Trail, db: Db, c: seq<L>, mode: nat, marks: seq<bool>, p: L, out: seq<L>, learnt: seq<L>)
    requires Linked(t) && FirstUip(t, db, c, PosOf(t, p)) && MarksMet(t, db, c, PosOf(t, p) + 1, PosOf(t, p), marks)
    requires forall l :: l in out <==> IsFalse(t, l) && IsSeen(marks, l.v)
    requires learnt != [] && learnt[0] == p
    requires SameLits([p] + Essential(t, db, marks, LevelsOf(t, marks), mode, out), learnt)
    ensures LearntFrom(t, db, c, mode, marks, learnt)
  {
    hide Dispensable, FirstUip, MarksMet, LevelsOf;
    EssentialMembers(t, db, marks, LevelsOf(t, marks), mode, out);
  }

  // ------------------------------------------------------------- the final conflict

  ghost function Root(t: Trail): nat { if t.lim == [] then |t.lits| else t.lim[0] }

  /** The decision at place m is one that led to p. */
  ghost predicate BlamedAt(t: Trail, db: Db, p: L, m: nat) {
    && Root(t) <= m < |t.lits| && t.lits[m].v < |t.reason| && t.reason[t.lits[m].v] == CRefUndef
    && Reached(t, db, [p], m)
  }

  /** The conflict consists of p and the negations of the decisions, from place i on, that
      led to it. */
  ghost predicate FinalFrom(t: Trail, db: Db, p: L, i: nat, conflict: seq<L>) {
    forall l :: l in conflict <==> l == p || exists m :: i <= m && BlamedAt(t, db, p, m) && l == t.lits[m].Neg()
  }

  /** The conflict says what led to the next assumption being false. */
  ghost predicate Blames(t: Trail, db: Db, assumps: seq<L>, conflict: seq<L>) {
    && |t.lim| < |assumps| && Value(t.assigns, assumps[|t.lim|]) == LFalse
    && FinalFrom(t, db, assumps[|t.lim|].Neg(), 0, conflict)
  }

  /** The places above the root level that are marked when the search has come down to i. */
  ghost predicate FinalMet(t: Trail, db: Db, p: L, i: nat, seen: seq<bool>) {
    forall k :: Root(t) <= k < |t.lits| ==> (IsSeen(seen, t.lits[k].v) <==> k < i && Met(t, db, [p], i, k))
  }

  lemma FinalMetStart(t: Trail, db: Db, p: L, seen: seq<bool>)
    requires Linked(t) && forall x: nat :: IsSeen(seen, x) <==> x == p.v
    ensures FinalMet(t, db, p, |t.lits|, seen) && FinalFrom(t, db, p, |t.lits|, [p])
  {
    forall k | Root(t) <= k < |t.lits| ensures IsSeen(seen, t.lits[k].v) <==> Met(t, db, [p], |t.lits|, k) {
      if t.lits[k].v == p.v { assert [p][0].v == t.lits[k].v; }
    }
  }

  /** An unmarked place is passed. */
  lemma FinalMetSkip(t: Trail, db: Db, p: L, i: nat, seen: seq<bool>, conflict: seq<L>)
    requires Root(t) <= i < |t.lits| && FinalMet(t, db, p, i + 1, seen) && FinalFrom(t, db, p, i + 1, conflict)
    requires !IsSeen(seen, t.lits[i].v)
    ensures FinalMet(t, db, p, i, seen) && FinalFrom(t, db, p, i, conflict)
  {
    hide Met, Reached;
    forall k | Root(t) <= k < |t.lits| ensures IsSeen(seen, t.lits[k].v) <==> k < i && Met(t, db, [p], i, k) {
      if k < i { MetStep(t, db, [p], i, k); }
    }
    ReachedIs(t, db, [p], i + 1, i);
    assert !BlamedAt(t, db, p, i);
  }

  /** A marked decision is blamed. */
  lemma FinalMetDecision(t: Trail, db: Db, p: L, i: nat, seen: seq<bool>, conflict: seq<L>)
    requires Linked(t) && Root(t) <= i < |t.lits| && FinalMet(t, db, p, i + 1, seen)
    requires FinalFrom(t, db, p, i + 1, conflict)
    requires IsSeen(seen, t.lits[i].v) && t.reason[t.lits[i].v] == CRefUndef
    ensures FinalMet(t, db, p, i, seen[t.lits[i].v := false])
    ensures FinalFrom(t, db, p, i, conflict + [t.lits[i].Neg()])
  {
    hide Met, Reached;
    var now := seen[t.lits[i].v := false];
    forall k | Root(t) <= k < |t.lits| ensures IsSeen(now, t.lits[k].v) <==> k < i && Met(t, db, [p], i, k) {
      if k < i { MetStep(t, db, [p], i, k); }
      if k != i { assert t.lits[k].v != t.lits[i].v; }
    }
    ReachedIs(t, db, [p], i + 1, i);
    assert BlamedAt(t, db, p, i);
  }

  /** A marked implied literal is replaced by its reason. */
  lemma FinalMetReason(t: Trail, db: Db, p: L, i: nat, was: seq<bool>, seen: seq<bool>, conflict: seq<L>)
    requires TrailOk(t, db) && t.lim != [] && Root(t) <= i < |t.lits| && FinalMet(t, db, p, i + 1, was)
    requires FinalFrom(t, db, p, i + 1, conflict) && IsSeen(was, t.lits[i].v)
    requires t.reason[t.lits[i].v].CRef? && t.reason[t.lits[i].v].id < |db|
    requires var r := db[t.reason[t.lits[i].v].id];
             && MarkedBy(t, was[t.lits[i].v := false], seen, r, 1)
             && forall j :: 1 <= j < |r| ==> PosOf(t, r[j]) < i && IsFalse(t, r[j])
    ensures FinalMet(t, db, p, i, seen) && FinalFrom(t, db, p, i, conflict)
  {
    hide Met, Reached, Reasoned;
    var r := db[t.reason[t.lits[i].v].id];
    ReachedIs(t, db, [p], i + 1, i);
    forall k | Root(t) <= k < |t.lits| ensures IsSeen(seen, t.lits[k].v) <==> k < i && Met(t, db, [p], i, k) {
      if k < i { MetStep(t, db, [p], i, k); }
      if k != i { assert t.lits[k].v != t.lits[i].v; }
      if OccursFrom(r, 1, t.lits[k].v) {
        var j :| 1 <= j < |r| && r[j].v == t.lits[k].v;
        assert t.pos[t.lits[k].v] == k;
      }
      assert t.level[t.lits[k].v] > 0;
    }
    assert !BlamedAt(t, db, p, i);
  }

  lemma FinalAlone(t: Trail, db: Db, p: L)
    ensures t.lim == [] ==> FinalFrom(t, db, p, 0, [p])
  {
  }

  lemma FinalAll(t: Trail, db: Db, p: L, conflict: seq<L>)
    requires FinalFrom(t, db, p, Root(t), conflict)
    ensures FinalFrom(t, db, p, 0, conflict)
  {
    hide Reached;
  }

  // ------------------------------------------------------- small consequences

  lemma HighLevels(t: Trail, db: Db)
    requires TrailOk(t, db) && t.lim != []
    ensures forall k :: Start(t) <= k < |t.lits| ==> LevelOf(t, t.lits[k]) > 0
  {
    hide Reasoned;
    forall k | Start(t) <= k < |t.lits| ensures LevelOf(t, t.lits[k]) > 0 { assert t.level[t.lits[k].v] > |t.lim| - 1; }
  }

  lemma NoUips(t: Trail, db: Db, c: seq<L>, i: nat, b: nat)
    requires b <= |t.lits| && forall k :: i < k < b ==> !Reached(t, db, c, k)
    ensures forall k :: i < k < b ==> !IsUip(t, db, c, k)
  {
    forall k | i < k < b ensures !IsUip(t, db, c, k) { UnreachedIsNoUip(t, db, c, k); }
  }

  lemma OpenIsNoUip(t: Trail, db: Db, c: seq<L>, seen: seq<bool>, out: seq<L>, pathC: nat, i: nat)
    requires i < |t.lits| && pathC > 0 && Collecting(t, seen, out, pathC, i) && MarksMet(t, db, c, i + 1, i, seen)
    ensures !IsUip(t, db, c, i)
  {
    hide MarksMet;
    OpenExists(t, seen, out, pathC, i);
    var k :| 0 <= k < i && Start(t) <= k && IsSeen(seen, t.lits[k].v);
    NotYetUip(t, db, c, i, k, seen);
  }

  lemma NothingOpen(t: Trail, db: Db, c: seq<L>, seen: seq<bool>, out: seq<L>, i: nat)
    requires TrailOk(t, db) && t.lim != [] && Start(t) <= i < |t.lits| && Reached(t, db, c, i)
    requires Collecting(t, seen, out, 0, i) && MarksMet(t, db, c, i + 1, i, seen)
    requires forall m :: i < m < |t.lits| ==> !IsUip(t, db, c, m)
    ensures PosOf(t, t.lits[i].Neg()) == i && FirstUip(t, db, c, i)
  {
    hide MarksMet, Reached, Reasoned, Levelled;
    assert Open(t, seen) == {};
    forall k | Start(t) <= k < i ensures !IsSeen(seen, t.lits[k].v) { assert k !in Open(t, seen); }
    NowUip(t, db, c, i, seen);
  }

  lemma NoMoreMarks(t: Trail, db: Db, seen: seq<bool>, levels: set<nat>)
    ensures MarksFollow(t, db, seen, seen, levels)
  {
  }

  lemma PendingNone(t: Trail, db: Db, was: seq<bool>, seen: seq<bool>, p: nat)
    requires Pending(t, db, was, seen, p, {}) && IsSeen(seen, p)
    ensures Closed(t, db, seen, p)
  {
  }

  lemma NothingEssential(t: Trail, db: Db, seen: seq<bool>, levels: set<nat>, mode: nat)
    ensures Essential(t, db, seen, levels, mode, []) == []
  {
  }

  lemma LevelsCollected(t: Trail, db: Db, seen: seq<bool>, out: seq<L>)
    requires TrailOk(t, db) && Low(t, seen, out) && forall x :: IsSeen(seen, x) ==> x in Vars(out)
    ensures (set l | l in out && l.v < |t.level| :: t.level[l.v] % 32) == LevelsOf(t, seen)
  {
    hide Low, LevelsOf, Levelled, Reasoned;
    CollectedIsMarked(t, seen, out);
    CollectedLevels(t, seen, out);
  }

  /** A literal without a reason always stays. */
  lemma NoReasonNeeded(t: Trail, db: Db, seen: seq<bool>, levels: set<nat>, mode: nat, l: L)
    ensures !(l.v < |t.reason| && t.reason[l.v].CRef?) ==> !Dispensable(t, db, seen, levels, mode, l)
  {
  }

  lemma MarkedByEmpty(t: Trail, seen: seq<bool>)
    ensures MarkedBy(t, seen, seen, [], 1)
  {
  }

  /** Resolving has come back to place i: what is marked, with the literal there, is an
      entailed clause, and no later place was an implication point. */
  ghost predicate Resolving(F: Cnfs, t: Trail, db: Db, c: seq<L>, seen: seq<bool>, out: seq<L>, pathC: nat, i: nat) {
    && Start(t) <= i < |t.lits| && LevelOf(t, t.lits[i]) == |t.lim| && Collecting(t, seen, out, pathC, i)
    && EntailsSet(F, Marked(t, seen) + {t.lits[i].Neg()})
    && (forall k :: 0 <= k < |out| ==> out[k].v != t.lits[i].v)
    && Reached(t, db, c, i) && MarksMet(t, db, c, i + 1, i, seen)
    && forall m :: i < m < |t.lits| ==> !IsUip(t, db, c, m)
  }

  lemma ResolvingEnds(F: Cnfs, t: Trail, db: Db, c: seq<L>, seen: seq<bool>, out: seq<L>, i: nat)
    requires TrailOk(t, db) && t.lim != [] && Resolving(F, t, db, c, seen, out, 0, i)
    ensures i < |t.lits| && SeenOk(t, seen) && Low(t, seen, out) && |seen| == |t.assigns|
    ensures var p := t.lits[i].Neg();
            && IsFalse(t, p) && LevelOf(t, p) == |t.lim| && (forall k :: 0 <= k < |out| ==> out[k].v != p.v)
            && EntailsSet(F, Marked(t, seen) + {p}) && FirstUip(t, db, c, PosOf(t, p))
            && MarksMet(t, db, c, PosOf(t, p) + 1, PosOf(t, p), seen)
    ensures forall x :: IsSeen(seen, x) ==> x in Vars(out)
  {
    hide Levelled, Reasoned, EntailsSet, Collecting, Low, SeenOk, MarksMet, Reached, IsUip, FirstUip;
    NothingOpen(t, db, c, seen, out, i);
    AllLow(t, seen, out, i);
    CollectingParts(t, seen, out, 0, i);
    TrailIsTrue(t, db, i);
  }

  lemma SameEntailed(F: Cnfs, c: seq<L>, d: seq<L>)
    requires Entails(F, c) && SameLits(c, d)
    ensures Entails(F, d)
  {
    forall m: set<nat> | Models(m, F) ensures ClauseTrue(m, d) {
      assert ClauseTrue(m, c);
      var l :| l in c && LitTrue(m, l);
      assert l in d;
    }
  }

  /** What is left after minimising, in whatever order, is entailed and the clause to learn. */
  lemma LearntGood(F: Cnfs, t: Trail, db: Db, c: seq<L>, mode: nat, was: seq<bool>, now: seq<bool>, p: L,
        out: seq<L>, kept: seq<L>, learnt: seq<L>)
    requires TrailOk(t, db) && AllEntailed(F, db) && RootsEntailed(F, t)
    requires FirstUip(t, db, c, PosOf(t, p)) && MarksMet(t, db, c, PosOf(t, p) + 1, PosOf(t, p), was)
    requires Low(t, was, out) && EntailsSet(F, Marked(t, was) + {p}) && forall x :: IsSeen(was, x) ==> x in Vars(out)
    requires forall x :: IsSeen(was, x) ==> IsSeen(now, x)
    requires kept == Essential(t, db, was, LevelsOf(t, was), mode, out)
    requires Chosen(kept, out, |out|) && ClosedBut(t, db, now, Vars(kept))
    requires SameLits([p] + kept, learnt) && learnt != [] && learnt[0] == p
    ensures Entails(F, learnt) && LearntFrom(t, db, c, mode, was, learnt)
  {
    hide AllEntailed, RootsEntailed, FirstUip, MarksMet, Low, EntailsSet, Essential, LevelsOf, Chosen, ClosedBut;
    hide LearntFrom, Linked, Levelled, Reasoned, Entails;
    CollectedIsMarked(t, was, out);
    LowFalse(t, was, out, kept);
    MinimisedEntailed(F, t, db, was, now, p, kept);
    SameEntailed(F, [p] + kept, learnt);
    LearntIs(t, db, c, mode, was, p, out, learnt);
  }
}
