/** The bookkeeping of conflict analysis: marks, the count of open literals of the current
    level, and the literals of lower levels collected so far. */
module Analysis {
  import opened Cnf
  import opened Sets
  import opened Trails
  import opened WatchLists
  import opened Resolution

  ghost function Start(t: Trail): nat { if t.lim == [] then 0 else t.lim[|t.lim| - 1] }

  /** Marked places of the current level. */
  ghost function Open(t: Trail, seen: seq<bool>): set<nat> {
    set i | 0 <= i < |t.lits| && Start(t) <= i && IsSeen(seen, t.lits[i].v)
  }

  /** Only assigned variables above the root level are marked. */
  ghost predicate SeenOk(t: Trail, seen: seq<bool>) {
    && |seen| == |t.assigns| == |t.level|
    && forall x :: 0 <= x < |seen| && seen[x] ==> t.assigns[x] != LUndef && t.level[x] > 0
  }

  ghost predicate SeenClear(seen: seq<bool>) { forall x :: 0 <= x < |seen| ==> !seen[x] }

  /** The collected literals are the marked ones of lower levels. */
  ghost predicate Low(t: Trail, seen: seq<bool>, out: seq<L>) {
    && (forall k :: 0 <= k < |out| ==>
          IsFalse(t, out[k]) && 0 < LevelOf(t, out[k]) < |t.lim| && IsSeen(seen, out[k].v))
    && (forall j, k :: 0 <= j < k < |out| ==> out[j].v != out[k].v)
    && (forall i :: 0 <= i < |t.lits| && i < Start(t) && IsSeen(seen, t.lits[i].v) ==> t.lits[i].Neg() in out)
  }

  /** All open places are before `bound`, and pathC counts them. */
  ghost predicate Collecting(t: Trail, seen: seq<bool>, out: seq<L>, pathC: nat, bound: nat) {
    && SeenOk(t, seen) && Low(t, seen, out)
    && pathC == |Open(t, seen)| && forall i :: i in Open(t, seen) ==> i < bound
  }

  /** Marking an unmarked false literal above the root level. */
  lemma MarkSeen(t: Trail, seen: seq<bool>, l: L)
    requires Linked(t) && SeenOk(t, seen) && IsFalse(t, l) && LevelOf(t, l) > 0
    ensures l.v < |seen| == |t.assigns| && SeenOk(t, seen[l.v := true])
  {
  }

  lemma MarkOpen(t: Trail, seen: seq<bool>, i: nat)
    requires Linked(t) && i < |t.lits| && |seen| == |t.assigns|
    ensures t.lits[i].v < |seen|
    ensures Open(t, seen[t.lits[i].v := true]) == if Start(t) <= i then Open(t, seen) + {i} else Open(t, seen)
  {
  }

  lemma MarkHigh(t: Trail, db: Db, seen: seq<bool>, out: seq<L>, pathC: nat, bound: nat, l: L)
    requires TrailOk(t, db) && t.lim != [] && Collecting(t, seen, out, pathC, bound)
    requires IsFalse(t, l) && LevelOf(t, l) >= |t.lim| && !IsSeen(seen, l.v) && t.pos[l.v] < bound
    ensures l.v < |seen| && Collecting(t, seen[l.v := true], out, pathC + 1, bound)
  {
    hide Reasoned, Open, SeenOk;
    var i := FalseOnTrail(t, l);
    assert Start(t) <= i;
    MarkSeen(t, seen, l);
    MarkOpen(t, seen, i);
    NotOpen(t, seen, i);
    LowMark(t, seen, out, i);
  }

  lemma NotOpen(t: Trail, seen: seq<bool>, i: nat)
    requires i < |t.lits| && !IsSeen(seen, t.lits[i].v)
    ensures i !in Open(t, seen)
  {
  }

  lemma LowMark(t: Trail, seen: seq<bool>, out: seq<L>, i: nat)
    requires Linked(t) && i < |t.lits| && |seen| == |t.assigns| && Low(t, seen, out) && Start(t) <= i
    ensures t.lits[i].v < |seen| && Low(t, seen[t.lits[i].v := true], out)
  {
  }

  lemma MarkLow(t: Trail, db: Db, seen: seq<bool>, out: seq<L>, pathC: nat, bound: nat, l: L)
    requires TrailOk(t, db) && t.lim != [] && Collecting(t, seen, out, pathC, bound)
    requires IsFalse(t, l) && 0 < LevelOf(t, l) < |t.lim| && !IsSeen(seen, l.v)
    ensures l.v < |seen| && Collecting(t, seen[l.v := true], out + [l], pathC, bound)
  {
    hide Reasoned, Open, SeenOk;
    var i := FalseOnTrail(t, l);
    assert i < Start(t);
    MarkSeen(t, seen, l);
    MarkOpen(t, seen, i);
    LowPush(t, seen, out, i, l);
  }

  lemma LowPush(t: Trail, seen: seq<bool>, out: seq<L>, i: nat, l: L)
    requires Linked(t) && i < |t.lits| && |seen| == |t.assigns| && Low(t, seen, out)
    requires t.lits[i] == l.Neg() && IsFalse(t, l) && 0 < LevelOf(t, l) < |t.lim| && !IsSeen(seen, l.v)
    ensures l.v < |seen| && Low(t, seen[l.v := true], out + [l])
  {
    var seen2 := seen[l.v := true];
    forall k | 0 <= k < |t.lits| && k < Start(t) && IsSeen(seen2, t.lits[k].v) ensures t.lits[k].Neg() in out + [l] {
      if k == i { assert t.lits[k].Neg() == l; }
    }
  }

  /** The last open place is closed. */
  lemma CloseLast(t: Trail, seen: seq<bool>, out: seq<L>, pathC: nat, bound: nat, i: nat)
    requires Linked(t) && Collecting(t, seen, out, pathC, bound)
    requires i in Open(t, seen) && forall k :: k in Open(t, seen) ==> k <= i
    requires forall k :: 0 <= k < |out| ==> out[k].v != t.lits[i].v
    ensures t.lits[i].v < |seen| && pathC > 0 && Start(t) <= i
    ensures Collecting(t, seen[t.lits[i].v := false], out, pathC - 1, i)
  {
    var seen2 := seen[t.lits[i].v := false];
    assert Open(t, seen2) == Open(t, seen) - {i};
  }

  lemma LowIsNotOpen(t: Trail, db: Db, seen: seq<bool>, out: seq<L>, i: nat)
    requires TrailOk(t, db) && t.lim != [] && Low(t, seen, out) && i in Open(t, seen)
    ensures forall k :: 0 <= k < |out| ==> out[k].v != t.lits[i].v
    ensures LevelOf(t, t.lits[i]) == |t.lim|
  {
    assert t.level[t.lits[i].v] > |t.lim| - 1;
  }

  /** A place of the current level that is not its first has a reason. */
  lemma HasReason(t: Trail, db: Db, i: nat, k: nat)
    requires TrailOk(t, db) && t.lim != [] && i < |t.lits| && Start(t) <= k < i
    ensures t.reason[t.lits[i].v].CRef? && Implied(t, db, i) && t.reason[t.lits[i].v].id < |db|
  {
    var x := t.lits[i].v;
    assert t.level[x] > |t.lim| - 1;
    assert t.level[x] == |t.lim|;
  }

  /** With nothing open, the marked literals are exactly the collected ones. */
  lemma AllLow(t: Trail, seen: seq<bool>, out: seq<L>, bound: nat)
    requires Linked(t) && Collecting(t, seen, out, 0, bound)
    ensures forall l :: l in Marked(t, seen) ==> l in out
    ensures forall x :: IsSeen(seen, x) ==> x in Vars(out)
  {
    assert Open(t, seen) == {};
    forall i | 0 <= i < |t.lits| && IsSeen(seen, t.lits[i].v) ensures t.lits[i].Neg() in out {
      assert i !in Open(t, seen);
    }
    forall x: nat | IsSeen(seen, x) ensures x in Vars(out) {
      var i := t.pos[x];
      assert t.lits[i].v == x && t.lits[i].Neg() in out;
      assert t.lits[i].Neg().v in Vars(out);
    }
  }

  // ------------------------------------------------------------- the learnt clause

  /** All false; only the first literal is of the current level, and the second, if there
      is one, is of the highest level among the others. */
  ghost predicate LearntOk(t: Trail, c: seq<L>, bt: nat) {
    && c != [] && bt < |t.lim|
    && (forall k :: 0 <= k < |c| ==> IsFalse(t, c[k]) && LevelOf(t, c[k]) > 0)
    && (forall j, k :: 0 <= j < k < |c| ==> c[j].v != c[k].v)
    && LevelOf(t, c[0]) == |t.lim|
    && (forall k :: 1 <= k < |c| ==> LevelOf(t, c[k]) <= bt)
    && (|c| == 1 ==> bt == 0)
    && (|c| > 1 ==> LevelOf(t, c[1]) == bt)
  }

  // ----------------------------------------------------------- redundant literals

  /** The variables that are not marked. */
  ghost function Unseen(seen: seq<bool>): set<nat> {
    set x | x in Below(|seen|) && !seen[x]
  }

  lemma MarkShrinks(seen: seq<bool>, x: nat)
    requires x < |seen| && !seen[x]
    ensures |Unseen(seen[x := true])| < |Unseen(seen)|
  {
    assert x in Unseen(seen);
    assert Unseen(seen[x := true]) == Unseen(seen) - {x};
  }

  /** Marking more keeps what is closed. */
  lemma ClosedMore(t: Trail, db: Db, seen: seq<bool>, seen2: seq<bool>, x: nat)
    requires Closed(t, db, seen, x) && forall y :: IsSeen(seen, y) ==> IsSeen(seen2, y)
    ensures Closed(t, db, seen2, x)
  {
  }

  /** Every mark beyond the old ones, and that of p, is closed or still on the stack. */
  ghost predicate Pending(t: Trail, db: Db, was: seq<bool>, seen: seq<bool>, p: nat, stack: set<nat>) {
    forall x: nat :: IsSeen(seen, x) ==> (IsSeen(was, x) && x != p) || Closed(t, db, seen, x) || x in stack
  }

  lemma PendingMark(t: Trail, db: Db, was: seq<bool>, seen: seq<bool>, p: nat, stack: set<nat>, y: nat)
    requires Pending(t, db, was, seen, p, stack) && y < |seen|
    ensures Pending(t, db, was, seen[y := true], p, stack + {y})
  {
    var seen2 := seen[y := true];
    forall x: nat | IsSeen(seen2, x)
      ensures (IsSeen(was, x) && x != p) || Closed(t, db, seen2, x) || x in stack + {y}
    {
      if x != y {
        assert IsSeen(seen, x);
        if Closed(t, db, seen, x) { ClosedMore(t, db, seen, seen2, x); }
      }
    }
  }

  lemma PendingClosed(t: Trail, db: Db, was: seq<bool>, seen: seq<bool>, p: nat, stack: set<nat>, y: nat)
    requires Pending(t, db, was, seen, p, stack + {y}) && Closed(t, db, seen, y)
    ensures Pending(t, db, was, seen, p, stack)
  {
    forall x: nat | IsSeen(seen, x)
      ensures (IsSeen(was, x) && x != p) || Closed(t, db, seen, x) || x in stack
    {
    }
  }

  /** A redundant literal may be dropped from the kept ones. */
  lemma DropRedundant(t: Trail, db: Db, was: seq<bool>, seen: seq<bool>, p: nat, kept: set<nat>)
    requires ClosedBut(t, db, was, kept + {p}) && Pending(t, db, was, seen, p, {})
    requires forall x :: IsSeen(was, x) ==> IsSeen(seen, x)
    ensures ClosedBut(t, db, seen, kept)
  {
    forall x: nat | IsSeen(seen, x) ensures x in kept || Closed(t, db, seen, x) {
      if !Closed(t, db, seen, x) {
        assert IsSeen(was, x) && x != p;
        if Closed(t, db, was, x) { ClosedMore(t, db, was, seen, x); }
      }
    }
  }

  // ------------------------------------------------------------- small consequences

  lemma FalseInRange(t: Trail, db: Db, seen: seq<bool>, out: seq<L>, pathC: nat, bound: nat, l: L)
    requires TrailOk(t, db) && Collecting(t, seen, out, pathC, bound) && IsFalse(t, l)
    ensures l.v < |seen| == |t.level| == |t.assigns| == |t.pos|
  {
  }

  lemma CollectingParts(t: Trail, seen: seq<bool>, out: seq<L>, pathC: nat, bound: nat)
    requires Collecting(t, seen, out, pathC, bound)
    ensures SeenOk(t, seen) && Low(t, seen, out)
  {
  }

  lemma OpenExists(t: Trail, seen: seq<bool>, out: seq<L>, pathC: nat, bound: nat)
    requires Collecting(t, seen, out, pathC, bound) && pathC > 0 && bound <= |t.lits|
    ensures |seen| == |t.assigns|
    ensures exists k :: 0 <= k < bound && Start(t) <= k && IsSeen(seen, t.lits[k].v)
  {
    var k :| k in Open(t, seen);
  }

  lemma LastIsOpen(t: Trail, db: Db, seen: seq<bool>, out: seq<L>, pathC: nat, bound: nat, i: nat)
    requires TrailOk(t, db) && Collecting(t, seen, out, pathC, bound) && pathC > 0 && bound <= |t.lits|
    requires i < bound && IsSeen(seen, t.lits[i].v) && forall k :: i < k < bound ==> !IsSeen(seen, t.lits[k].v)
    ensures i in Open(t, seen) && forall k :: k in Open(t, seen) ==> k <= i
  {
    OpenExists(t, seen, out, pathC, bound);
    var k :| 0 <= k < bound && Start(t) <= k && IsSeen(seen, t.lits[k].v);
    assert k <= i;
  }

  lemma NothingMarked(t: Trail, seen: seq<bool>, bound: nat)
    requires Linked(t) && |seen| == |t.assigns| && SeenClear(seen)
    ensures Collecting(t, seen, [], 0, bound)
  {
    assert Open(t, seen) == {};
  }

  /** The literals of a false clause have their places on the trail. */
  lemma ConflictPlaces(t: Trail, c: seq<L>)
    requires Linked(t) && forall j :: 0 <= j < |c| ==> IsFalse(t, c[j])
    ensures forall j :: 0 <= j < |c| ==> PosOf(t, c[j]) < |t.lits|
  {
    forall j | 0 <= j < |c| ensures PosOf(t, c[j]) < |t.lits| { var i := FalseOnTrail(t, c[j]); }
  }

  lemma ReasonPlaces(t: Trail, db: Db, i: nat)
    requires TrailOk(t, db) && i < |t.lits| && t.reason[t.lits[i].v].CRef? && Implied(t, db, i)
    ensures t.reason[t.lits[i].v].id < |db|
    ensures var c := db[t.reason[t.lits[i].v].id];
      && c != [] && c[0] == t.lits[i]
      && forall j :: 1 <= j < |c| ==> IsFalse(t, c[j]) && PosOf(t, c[j]) < i
  {
    var c := db[t.reason[t.lits[i].v].id];
    forall j | 1 <= j < |c| ensures IsFalse(t, c[j]) && PosOf(t, c[j]) < i { assert FalseBefore(t, c[j], i); }
  }

  /** The marked literal of the current level is open. */
  lemma SomethingOpen(t: Trail, db: Db, seen: seq<bool>, out: seq<L>, pathC: nat, bound: nat, l: L)
    requires TrailOk(t, db) && t.lim != [] && Collecting(t, seen, out, pathC, bound)
    requires IsFalse(t, l) && LevelOf(t, l) == |t.lim| && IsSeen(seen, l.v)
    ensures pathC > 0
  {
    var i := FalseOnTrail(t, l);
    assert Start(t) <= i && i in Open(t, seen);
  }

  /** Another open place comes before place i: place i has a reason. */
  lemma OpenBelow(t: Trail, db: Db, seen: seq<bool>, out: seq<L>, pathC: nat, i: nat)
    requires TrailOk(t, db) && t.lim != [] && i < |t.lits| && pathC > 0 && Collecting(t, seen, out, pathC, i)
    ensures t.lits[i].v < |t.reason| && t.reason[t.lits[i].v].CRef? && t.reason[t.lits[i].v].id < |db|
    ensures Linked(t) && Implied(t, db, i)
  {
    OpenExists(t, seen, out, pathC, i);
    var k :| 0 <= k < i && Start(t) <= k && IsSeen(seen, t.lits[k].v);
    HasReason(t, db, i, k);
  }

  lemma StillOpen(t: Trail, was: seq<bool>, out: seq<L>, pathC: nat, seen: seq<bool>, out2: seq<L>, pathC2: nat,
        bound: nat)
    requires Collecting(t, was, out, pathC, bound) && pathC > 0 && Collecting(t, seen, out2, pathC2, bound)
    requires forall x :: IsSeen(was, x) ==> IsSeen(seen, x)
    ensures pathC2 > 0
  {
    var k :| k in Open(t, was);
    assert k in Open(t, seen);
  }

  lemma TrailIsTrue(t: Trail, db: Db, i: nat)
    requires TrailOk(t, db) && i < |t.lits|
    ensures IsFalse(t, t.lits[i].Neg())
  {
  }

  // --------------------------------------------------- the search of litRedundant

  /** Exactly the literals of `clear` from `top` on are newly marked. */
  ghost predicate Logged(was: seq<bool>, seen: seq<bool>, clear: seq<L>, top: nat) {
    && |was| == |seen| && top <= |clear|
    && (forall x :: IsSeen(was, x) ==> IsSeen(seen, x))
    && (forall k :: 0 <= k < |clear| ==> clear[k].v < |seen|)
    && (forall k :: top <= k < |clear| ==> !IsSeen(was, clear[k].v))
    && (forall x: nat :: IsSeen(seen, x) && !IsSeen(was, x) ==> x in Vars(clear[top..]))
  }

  ghost predicate Covered(seen: seq<bool>, clear: seq<L>) { forall x: nat :: IsSeen(seen, x) ==> x in Vars(clear) }

  /** What litRedundant keeps while it works. */
  ghost predicate Searching(t: Trail, db: Db, was: seq<bool>, seen: seq<bool>, clear: seq<L>, top: nat, p: nat,
        stack: seq<L>) {
    && SeenOk(t, seen) && Covered(seen, clear) && Logged(was, seen, clear, top)
    && (forall l :: l in stack ==> l.v < |t.reason| && t.reason[l.v].CRef? && IsFalse(t, l))
    && Pending(t, db, was, seen, p, Vars(stack))
  }

  lemma VarsPush(s: seq<L>, l: L)
    ensures Vars(s + [l]) == Vars(s) + {l.v}
  {
  }

  lemma LoggedMark(was: seq<bool>, seen: seq<bool>, clear: seq<L>, top: nat, l: L)
    requires Logged(was, seen, clear, top) && l.v < |seen| && !seen[l.v]
    ensures Logged(was, seen[l.v := true], clear + [l], top)
  {
    assert (clear + [l])[top..] == clear[top..] + [l];
    VarsPush(clear[top..], l);
  }

  lemma SearchMark(t: Trail, db: Db, was: seq<bool>, seen: seq<bool>, clear: seq<L>, top: nat, p: nat,
        stack: seq<L>, q: L, l: L)
    requires TrailOk(t, db) && Searching(t, db, was, seen, clear, top, p, stack + [q])
    requires l.v < |seen| == |t.level| == |t.reason| && !seen[l.v] && t.level[l.v] > 0
    requires t.reason[l.v].CRef? && IsFalse(t, l)
    ensures Searching(t, db, was, seen[l.v := true], clear + [l], top, p, stack + [l] + [q])
  {
    hide TrailOk, Pending, Closed, Logged, Vars;
    PendingMark(t, db, was, seen, p, Vars(stack + [q]), l.v);
    LoggedMark(was, seen, clear, top, l);
    VarsPush(clear, l);
    VarsPush(stack, q);
    VarsPush(stack, l);
    VarsPush(stack + [l], q);
    assert Vars(stack + [l] + [q]) == Vars(stack + [q]) + {l.v};
    assert forall m :: m in stack + [l] + [q] ==> m in stack + [q] || m == l;
  }

  lemma SearchClosed(t: Trail, db: Db, was: seq<bool>, seen: seq<bool>, clear: seq<L>, top: nat, p: nat,
        stack: seq<L>, q: L)
    requires Searching(t, db, was, seen, clear, top, p, stack + [q])
    requires q.v < |t.reason| && t.reason[q.v].CRef? && t.reason[q.v].id < |db|
    requires forall k :: 1 <= k < |db[t.reason[q.v].id]| ==>
               LevelOf(t, db[t.reason[q.v].id][k]) == 0 || IsSeen(seen, db[t.reason[q.v].id][k].v)
    ensures Searching(t, db, was, seen, clear, top, p, stack)
  {
    hide Pending, Logged, Vars;
    VarsPush(stack, q);
    PendingClosed(t, db, was, seen, p, Vars(stack), q.v);
    assert forall m :: m in stack ==> m in stack + [q];
  }

  lemma QHasReason(t: Trail, db: Db, q: L)
    requires TrailOk(t, db) && q.v < |t.reason| && t.reason[q.v].CRef? && IsFalse(t, q)
    ensures t.reason[q.v].id < |db| && |db[t.reason[q.v].id]| >= 1
    ensures |t.assigns| == |t.level| == |t.reason|
    ensures forall k :: 1 <= k < |db[t.reason[q.v].id]| ==> IsFalse(t, db[t.reason[q.v].id][k])
  {
    var i := FalseOnTrail(t, q);
    assert Implied(t, db, i);
    ReasonPlaces(t, db, i);
  }

  lemma SearchFacts(t: Trail, db: Db, was: seq<bool>, seen: seq<bool>, clear: seq<L>, top: nat, p: nat, stack: seq<L>)
    requires Searching(t, db, was, seen, clear, top, p, stack)
    ensures |seen| == |t.assigns| == |was| && top <= |clear| && SeenOk(t, seen) && Covered(seen, clear)
    ensures Logged(was, seen, clear, top)
  {
  }

  lemma StackTop(t: Trail, db: Db, was: seq<bool>, seen: seq<bool>, clear: seq<L>, top: nat, p: nat, stack: seq<L>, q: L)
    requires Searching(t, db, was, seen, clear, top, p, stack + [q])
    ensures q.v < |t.reason| && t.reason[q.v].CRef? && IsFalse(t, q)
  {
    assert q in stack + [q];
  }

  lemma SearchStart(t: Trail, db: Db, seen: seq<bool>, clear: seq<L>, p: L)
    requires SeenOk(t, seen) && Covered(seen, clear) && forall k :: 0 <= k < |clear| ==> clear[k].v < |seen|
    requires IsFalse(t, p) && p.v < |t.reason| && t.reason[p.v].CRef?
    ensures Searching(t, db, seen, seen, clear, |clear|, p.v, [p])
  {
    assert p in [p];
    assert p.v in Vars([p]);
  }

  lemma SearchEnd(t: Trail, db: Db, was: seq<bool>, seen: seq<bool>, clear: seq<L>, top: nat, p: nat, stack: seq<L>)
    requires Searching(t, db, was, seen, clear, top, p, stack) && stack == []
    ensures |seen| == |was| && SeenOk(t, seen) && Covered(seen, clear)
    ensures Pending(t, db, was, seen, p, {}) && forall x :: IsSeen(was, x) ==> IsSeen(seen, x)
    ensures forall k :: 0 <= k < |clear| ==> clear[k].v < |seen|
  {
    assert Vars(stack) == {};
  }

  /** The marks logged from `top` to j have been taken back. */
  ghost predicate Unmarked(seen: seq<bool>, now: seq<bool>, clear: seq<L>, top: nat, j: nat) {
    && |now| == |seen| && top <= j <= |clear|
    && forall x :: 0 <= x < |seen| ==> now[x] == (seen[x] && x !in Vars(clear[top..j]))
  }

  lemma UnmarkStart(seen: seq<bool>, clear: seq<L>, top: nat)
    requires top <= |clear|
    ensures Unmarked(seen, seen, clear, top, top)
  {
  }

  lemma UnmarkStep(seen: seq<bool>, now: seq<bool>, clear: seq<L>, top: nat, j: nat)
    requires Unmarked(seen, now, clear, top, j) && j < |clear| && clear[j].v < |seen|
    ensures clear[j].v < |now| && Unmarked(seen, now[clear[j].v := false], clear, top, j + 1)
  {
    assert clear[top..j + 1] == clear[top..j] + [clear[j]];
    VarsPush(clear[top..j], clear[j]);
  }

  lemma LoggedSizes(was: seq<bool>, seen: seq<bool>, clear: seq<L>, top: nat)
    requires Logged(was, seen, clear, top)
    ensures |was| == |seen| && top <= |clear| && forall k :: 0 <= k < |clear| ==> clear[k].v < |seen|
  {
  }

  lemma LoggedBack(was: seq<bool>, seen: seq<bool>, clear: seq<L>, top: nat, now: seq<bool>)
    requires Logged(was, seen, clear, top) && Unmarked(seen, now, clear, top, |clear|)
    ensures now == was
  {
    assert clear[top..|clear|] == clear[top..];
    forall x | 0 <= x < |seen| ensures now[x] == was[x] {
      if x in Vars(clear[top..]) {
        var l :| l in clear[top..] && l.v == x;
        var k :| 0 <= k < |clear[top..]| && clear[top..][k] == l;
        assert clear[top + k] == l;
        assert !IsSeen(was, clear[top + k].v);
      } else {
        assert IsSeen(was, x) <==> IsSeen(seen, x);
      }
    }
  }

  lemma VarsHead(s: seq<L>, i: nat)
    requires i < |s|
    ensures Vars(s[i..]) == {s[i].v} + Vars(s[i + 1..])
  {
    assert s[i..] == [s[i]] + s[i + 1..];
  }

  lemma PendingSelf(t: Trail, db: Db, seen: seq<bool>, p: nat)
    requires Closed(t, db, seen, p)
    ensures Pending(t, db, seen, seen, p, {})
  {
  }

  lemma ClosedButStart(t: Trail, db: Db, seen: seq<bool>, out: seq<L>)
    requires forall x :: IsSeen(seen, x) ==> x in Vars(out)
    ensures ClosedBut(t, db, seen, Vars([]) + Vars(out[0..]))
  {
    assert out[0..] == out;
  }

  /** Distinct variables, taken in order from the collected literals. */
  ghost predicate Chosen(kept: seq<L>, out: seq<L>, i: nat)
    requires i <= |out|
  {
    && (forall l :: l in kept ==> l in out)
    && (forall j, k :: 0 <= j < k < |kept| ==> kept[j].v != kept[k].v)
    && (forall j, k :: 0 <= j < |kept| && i <= k < |out| ==> kept[j].v != out[k].v)
  }

  lemma Choose(t: Trail, seen: seq<bool>, kept: seq<L>, out: seq<L>, i: nat)
    requires i < |out| && Chosen(kept, out, i) && Low(t, seen, out)
    ensures Chosen(kept, out, i + 1) && Chosen(kept + [out[i]], out, i + 1)
  {
  }

  /** The learnt clause before its second literal is chosen. */
  ghost predicate LearntSoFar(t: Trail, c: seq<L>) {
    && c != [] && LevelOf(t, c[0]) == |t.lim| > 0
    && (forall k :: 0 <= k < |c| ==> IsFalse(t, c[k]) && LevelOf(t, c[k]) > 0)
    && (forall k :: 1 <= k < |c| ==> LevelOf(t, c[k]) < |t.lim|)
    && (forall j, k :: 0 <= j < k < |c| ==> c[j].v != c[k].v)
  }

  lemma LearntStart(t: Trail, seen: seq<bool>, p: L, out: seq<L>, kept: seq<L>)
    requires Low(t, seen, out) && Chosen(kept, out, |out|) && t.lim != []
    requires IsFalse(t, p) && LevelOf(t, p) == |t.lim| && forall k :: 0 <= k < |out| ==> out[k].v != p.v
    ensures LearntSoFar(t, [p] + kept)
  {
    var c := [p] + kept;
    forall k | 1 <= k < |c| ensures IsFalse(t, c[k]) && 0 < LevelOf(t, c[k]) < |t.lim| && c[k].v != p.v {
      assert c[k] == kept[k - 1] && kept[k - 1] in out;
      var j :| 0 <= j < |out| && out[j] == kept[k - 1];
    }
  }

  function SwapAt(c: seq<L>, i: nat, j: nat): seq<L>
    requires i < |c| && j < |c|
  {
    c[i := c[j]][j := c[i]]
  }

  lemma SwapAtSame(c: seq<L>, i: nat, j: nat)
    requires i < |c| && j < |c|
    ensures SameLits(c, SwapAt(c, i, j))
  {
    var d := SwapAt(c, i, j);
    forall l ensures l in c <==> l in d {
      if l in c { var k :| 0 <= k < |c| && c[k] == l; assert d[if k == i then j else if k == j then i else k] == l; }
      if l in d { var k :| 0 <= k < |d| && d[k] == l; assert c[if k == i then j else if k == j then i else k] == l; }
    }
  }

  lemma VarsNone(s: seq<L>)
    requires s == []
    ensures Vars(s) == {}
  {
  }

  lemma ChosenNone(out: seq<L>)
    ensures Chosen([], out, 0)
  {
  }

  lemma StartClear(t: Trail, seen: seq<bool>, p: L, out: seq<L>)
    requires |seen| == |t.assigns| && Low(t, seen, out) && IsFalse(t, p)
    requires forall x :: IsSeen(seen, x) ==> x in Vars(out)
    ensures Covered(seen, [p] + out) && forall k :: 0 <= k < |[p] + out| ==> ([p] + out)[k].v < |seen|
  {
    forall x: nat | IsSeen(seen, x) ensures x in Vars([p] + out) {
      var l :| l in out && l.v == x;
      assert l in [p] + out;
    }
  }

  lemma LowFalse(t: Trail, seen: seq<bool>, out: seq<L>, kept: seq<L>)
    requires Low(t, seen, out) && Chosen(kept, out, |out|)
    ensures forall l :: l in kept ==> IsFalse(t, l)
  {
    forall l | l in kept ensures IsFalse(t, l) {
      var k :| 0 <= k < |out| && out[k] == l;
    }
  }

  lemma TrailReasoned(t: Trail, db: Db)
    requires TrailOk(t, db)
    ensures Linked(t) && Reasoned(t, db)
  {
  }

  // ------------------------------------------------------ the final conflict

  function Elements(s: seq<L>): set<L> { set l | l in s }

  ghost predicate IsDecision(t: Trail, i: nat) {
    && i < |t.lits| && t.lits[i].v < |t.reason| == |t.level|
    && t.reason[t.lits[i].v] == CRefUndef && t.level[t.lits[i].v] > 0
  }

  /** The negation of a decision. */
  ghost predicate FromDecision(t: Trail, l: L) {
    exists i :: 0 <= i < |t.lits| && IsDecision(t, i) && l == t.lits[i].Neg()
  }

  ghost predicate FinalLits(t: Trail, conflict: seq<L>, p: L) {
    p in conflict && forall l :: l in conflict ==> l == p || FromDecision(t, l)
  }

  lemma FinalLitsPush(t: Trail, conflict: seq<L>, p: L, i: nat)
    requires FinalLits(t, conflict, p) && IsDecision(t, i)
    ensures FinalLits(t, conflict + [t.lits[i].Neg()], p)
  {
    assert FromDecision(t, t.lits[i].Neg());
  }

  /** Marks are before place i and, but for p, above the root level. */
  ghost predicate FinalMarks(t: Trail, seen: seq<bool>, i: nat, p: nat) {
    && |seen| == |t.assigns| == |t.level| == |t.pos|
    && forall x: nat :: IsSeen(seen, x) ==> t.assigns[x] != LUndef && t.pos[x] < i && (x == p || t.level[x] > 0)
  }

  lemma FinalPlace(t: Trail, db: Db, seen: seq<bool>, i: nat, p: nat)
    requires TrailOk(t, db) && FinalMarks(t, seen, i + 1, p) && i < |t.lits| && t.lim != [] && t.lim[0] <= i
    ensures t.lits[i].v < |seen| && FinalMarks(t, seen[t.lits[i].v := false], i, p)
    ensures t.level[t.lits[i].v] > 0
    ensures |t.reason| == |t.assigns|
  {
    hide Reasoned;
    assert t.level[t.lits[i].v] > 0;
    forall x: nat | IsSeen(seen, x) && x != t.lits[i].v ensures t.pos[x] < i {
      assert t.lits[t.pos[x]].v == x;
    }
  }

  /** At the root level, p alone is entailed. */
  lemma FinalRoot(F: Cnfs, t: Trail, db: Db, p: L)
    requires TrailOk(t, db) && RootsEntailed(F, t) && Value(t.assigns, p) == LTrue
    ensures t.lim == [] ==> Entails(F, [p])
  {
    var i := t.pos[p.v];
    assert t.lits[i] == p;
    if t.lim == [] { assert LevelOf(t, t.lits[i]) == 0; }
  }

  lemma FinalStart(F: Cnfs, t: Trail, db: Db, seen: seq<bool>, p: L)
    requires TrailOk(t, db) && Value(t.assigns, p) == LTrue && |seen| == |t.assigns|
    requires forall x: nat :: IsSeen(seen, x) <==> x == p.v
    ensures FinalMarks(t, seen, |t.lits|, p.v)
    ensures EntailsSet(F, Elements([p]) + MarkedBelow(t, seen, |t.lits|))
  {
    hide Reasoned, Levelled;
    var i := t.pos[p.v];
    assert t.lits[i] == p;
    forall m: set<nat> | Models(m, F) ensures SomeTrue(m, Elements([p]) + MarkedBelow(t, seen, |t.lits|)) {
      assert p in Elements([p]) && t.lits[i].Neg() in MarkedBelow(t, seen, |t.lits|);
      assert LitTrue(m, p) || LitTrue(m, p.Neg());
    }
  }

  lemma SkipPlace(F: Cnfs, t: Trail, seen: seq<bool>, i: nat, out: set<L>, p: nat)
    requires Linked(t) && i < |t.lits| && t.lits[i].v < |seen| && !seen[t.lits[i].v] && FinalMarks(t, seen, i + 1, p)
    requires EntailsSet(F, out + MarkedBelow(t, seen, i + 1))
    ensures EntailsSet(F, out + MarkedBelow(t, seen, i)) && FinalMarks(t, seen, i, p)
  {
    assert MarkedBelow(t, seen, i) == MarkedBelow(t, seen, i + 1);
    forall x: nat | IsSeen(seen, x) ensures t.pos[x] < i { assert t.lits[t.pos[x]].v == x; }
  }

  lemma FinalEnd(F: Cnfs, t: Trail, db: Db, seen: seq<bool>, conflict: seq<L>, p: L)
    requires TrailOk(t, db) && RootsEntailed(F, t) && t.lim != [] && Value(t.assigns, p) == LTrue && p in conflict
    requires FinalMarks(t, seen, t.lim[0], p.v) && EntailsSet(F, Elements(conflict) + MarkedBelow(t, seen, t.lim[0]))
    ensures Entails(F, conflict) && p.v < |seen| && SeenClear(seen[p.v := false])
  {
    hide Reasoned;
    forall x: nat | IsSeen(seen, x) ensures x == p.v {
      var i := t.pos[x];
      assert t.lits[i].v == x && i < t.lim[0];
    }
    var clear := seen[p.v := false];
    forall x | 0 <= x < |clear| ensures !clear[x] { assert x != p.v ==> !IsSeen(seen, x); }
    forall m: set<nat> | Models(m, F) ensures ClauseTrue(m, conflict) {
      assert SomeTrue(m, Elements(conflict) + MarkedBelow(t, seen, t.lim[0]));
      var l :| l in Elements(conflict) + MarkedBelow(t, seen, t.lim[0]) && LitTrue(m, l);
      if l !in conflict { FinalRootTrue(F, t, db, seen, p, m, l); }
    }
  }

  lemma FinalRootTrue(F: Cnfs, t: Trail, db: Db, seen: seq<bool>, p: L, m: set<nat>, l: L)
    requires TrailOk(t, db) && RootsEntailed(F, t) && t.lim != [] && Models(m, F)
    requires forall x: nat :: IsSeen(seen, x) ==> x == p.v
    requires l in MarkedBelow(t, seen, t.lim[0]) && Value(t.assigns, p) == LTrue
    ensures LitTrue(m, p)
  {
    hide Reasoned;
    var k :| 0 <= k < |t.lits| && k < t.lim[0] && IsSeen(seen, t.lits[k].v) && t.lits[k].Neg() == l;
    assert t.lits[k] == p;
    assert !(t.level[t.lits[k].v] > 0);
    assert LevelOf(t, t.lits[k]) == 0;
    assert ClauseTrue(m, [t.lits[k]]);
    SingleTrue(m, t.lits[k]);
  }
}
