/** Two-watched-literal bookkeeping as values: which clauses are listed where, and what
    a watched false literal guarantees. */
module WatchLists {
  import opened Cnf
  import opened Trails

  datatype Watcher = Watcher(cref: nat, blocker: L)

  type Lists = map<L, seq<Watcher>>

  /** At least two literals, over the first n variables, each variable once. */
  ghost predicate ClauseOk(c: seq<L>, n: nat) {
    && |c| >= 2
    && (forall i :: 0 <= i < |c| ==> c[i].v < n)
    && (forall i, j :: 0 <= i < j < |c| ==> c[i].v != c[j].v)
  }

  ghost predicate DbOk(db: Db, n: nat) { forall cr :: 0 <= cr < |db| ==> ClauseOk(db[cr], n) }

  ghost predicate Watched(c: seq<L>, p: L)
    requires |c| >= 2
  {
    c[0] == p.Neg() || c[1] == p.Neg()
  }

  /** The list of p holds clauses that watch the negation of p, each once. */
  ghost predicate ListOk(ws: seq<Watcher>, p: L, db: Db) {
    && (forall i :: 0 <= i < |ws| ==>
          ws[i].cref < |db| && |db[ws[i].cref]| >= 2 && Watched(db[ws[i].cref], p) && ws[i].blocker in db[ws[i].cref])
    && (forall i, j :: 0 <= i < j < |ws| ==> ws[i].cref != ws[j].cref)
  }

  ghost predicate Listed(ws: seq<Watcher>, cr: nat) { exists i :: 0 <= i < |ws| && ws[i].cref == cr }

  ghost predicate Attached(w: Lists, c: seq<L>, cr: nat)
    requires |c| >= 2
  {
    c[0].Neg() in w && Listed(w[c[0].Neg()], cr) && c[1].Neg() in w && Listed(w[c[1].Neg()], cr)
  }

  /** Clauses that are not deleted are listed under both their watched literals. */
  ghost predicate WatchesOk(w: Lists, db: Db, deleted: set<nat>, n: nat) {
    && DbOk(db, n)
    && (forall l: L :: l.v < n ==> l in w)
    && (forall p :: p in w ==> ListOk(w[p], p, db))
    && (forall cr :: 0 <= cr < |db| && cr !in deleted ==> Attached(w, db[cr], cr))
  }

  // --------------------------------------------------------- what watching means

  /** Some literal of the clause was true no later, by level, than c[k] became false. */
  ghost predicate Guarded(t: Trail, c: seq<L>, k: nat)
    requires k < |c|
  {
    exists j :: 0 <= j < |c| && Value(t.assigns, c[j]) == LTrue && LevelOf(t, c[j]) <= LevelOf(t, c[k])
  }

  function LevelOf(t: Trail, l: L): nat { if l.v < |t.level| then t.level[l.v] else 0 }

  function PosOf(t: Trail, l: L): nat { if l.v < |t.pos| then t.pos[l.v] else 0 }

  ghost predicate SafeAt(t: Trail, c: seq<L>, k: nat, q: nat)
    requires k < |c|
  {
    Value(t.assigns, c[k]) == LFalse && PosOf(t, c[k]) < q ==> Guarded(t, c, k)
  }

  ghost predicate Safe(t: Trail, c: seq<L>, q: nat) { |c| >= 2 ==> SafeAt(t, c, 0, q) && SafeAt(t, c, 1, q) }

  /** The first q literals of the trail are propagated: a watched literal that one of
      them made false is in a clause with a true literal of no higher level. */
  ghost predicate Propagated(t: Trail, db: Db, deleted: set<nat>, q: nat) {
    forall cr :: 0 <= cr < |db| && cr !in deleted ==> Safe(t, db[cr], q)
  }

  /** As above, except that literal q - 1 is still to be propagated through the clauses
      listed in `pending`. */
  ghost predicate PropagatedBut(t: Trail, db: Db, deleted: set<nat>, q: nat, pending: seq<Watcher>)
    requires q > 0
  {
    forall cr :: 0 <= cr < |db| && cr !in deleted ==> Safe(t, db[cr], Bound(q, pending, cr))
  }

  ghost function Bound(q: nat, pending: seq<Watcher>, cr: nat): nat
    requires q > 0
  {
    if Listed(pending, cr) then q - 1 else q
  }

  /** After propagation no clause is false, or unit with its literal unassigned. */
  lemma NoUnitLeft(t: Trail, db: Db, deleted: set<nat>, n: nat, cr: nat)
    requires Linked(t) && DbOk(db, n) && n <= |t.assigns| && cr < |db| && cr !in deleted
    requires Propagated(t, db, deleted, |t.lits|)
    ensures (exists j :: 0 <= j < |db[cr]| && Value(t.assigns, db[cr][j]) == LTrue)
         || (Value(t.assigns, db[cr][0]) == LUndef && Value(t.assigns, db[cr][1]) == LUndef)
  {
    var c := db[cr];
    assert ClauseOk(c, n) && Safe(t, c, |t.lits|);
    if Value(t.assigns, c[0]) == LFalse { assert Guarded(t, c, 0); }
    if Value(t.assigns, c[1]) == LFalse { assert Guarded(t, c, 1); }
  }

  // -------------------------------------------------------- changing the trail

  lemma GuardedPush(t: Trail, p: L, from: CRef, c: seq<L>, k: nat)
    requires Linked(t) && p.v < |t.assigns| && Value(t.assigns, p) == LUndef
    requires k < |c| && Value(t.assigns, c[k]) == LFalse && Guarded(t, c, k)
    ensures Guarded(Push(t, p, from), c, k)
  {
    var u := Push(t, p, from);
    var j :| 0 <= j < |c| && Value(t.assigns, c[j]) == LTrue && LevelOf(t, c[j]) <= LevelOf(t, c[k]);
    assert Value(u.assigns, c[j]) == LTrue && LevelOf(u, c[j]) <= LevelOf(u, c[k]);
  }

  lemma SafePush(t: Trail, p: L, from: CRef, c: seq<L>, q: nat)
    requires Linked(t) && p.v < |t.assigns| && Value(t.assigns, p) == LUndef && q <= |t.lits|
    requires Safe(t, c, q)
    ensures Safe(Push(t, p, from), c, q)
  {
    var u := Push(t, p, from);
    if |c| >= 2 {
      forall k | 0 <= k < 2 ensures SafeAt(u, c, k, q) {
        assert SafeAt(t, c, k, q);
        if Value(u.assigns, c[k]) == LFalse && PosOf(u, c[k]) < q { GuardedPush(t, p, from, c, k); }
      }
      assert SafeAt(u, c, 0, q) && SafeAt(u, c, 1, q);
    }
  }

  /** Cancelling keeps what was propagated below the level. */
  lemma SafeCancel(t: Trail, db: Db, lv: nat, c: seq<L>, q: nat)
    requires TrailOk(t, db) && lv < |t.lim| && t.lim[lv] <= q
    requires Safe(t, c, q)
    ensures Safe(Cancel(t, lv), c, t.lim[lv])
  {
    var u := Cancel(t, lv);
    CancelOk(t, db, lv);
    if |c| >= 2 {
      forall k | 0 <= k < 2 ensures SafeAt(u, c, k, t.lim[lv]) {
        assert SafeAt(t, c, k, q);
        if Value(u.assigns, c[k]) == LFalse {
          assert Value(t.assigns, c[k]) == LFalse && LevelOf(t, c[k]) <= lv;
          var j :| 0 <= j < |c| && Value(t.assigns, c[j]) == LTrue && LevelOf(t, c[j]) <= LevelOf(t, c[k]);
          assert Value(u.assigns, c[j]) == LTrue;
        }
      }
      assert SafeAt(u, c, 0, t.lim[lv]) && SafeAt(u, c, 1, t.lim[lv]);
    }
  }

  lemma PropagatedPush(t: Trail, db: Db, deleted: set<nat>, p: L, from: CRef, q: nat)
    requires Linked(t) && p.v < |t.assigns| && Value(t.assigns, p) == LUndef && q <= |t.lits|
    requires Propagated(t, db, deleted, q)
    ensures Propagated(Push(t, p, from), db, deleted, q)
  {
    hide Safe;
    forall cr | 0 <= cr < |db| && cr !in deleted ensures Safe(Push(t, p, from), db[cr], q) {
      SafePush(t, p, from, db[cr], q);
    }
  }

  lemma PropagatedCancel(t: Trail, db: Db, deleted: set<nat>, lv: nat, q: nat)
    requires TrailOk(t, db) && lv < |t.lim| && t.lim[lv] <= q
    requires Propagated(t, db, deleted, q)
    ensures Propagated(Cancel(t, lv), db, deleted, t.lim[lv])
  {
    hide Safe;
    forall cr | 0 <= cr < |db| && cr !in deleted ensures Safe(Cancel(t, lv), db[cr], t.lim[lv]) {
      SafeCancel(t, db, lv, db[cr], q);
    }
  }

  lemma PropagatedNewLevel(t: Trail, db: Db, deleted: set<nat>, q: nat)
    requires Propagated(t, db, deleted, q)
    ensures Propagated(NewLevel(t), db, deleted, q)
  {
    forall cr | 0 <= cr < |db| && cr !in deleted ensures Safe(NewLevel(t), db[cr], q) {
      var c := db[cr];
      assert Safe(t, c, q);
      if |c| >= 2 {
        forall k | 0 <= k < 2 ensures SafeAt(NewLevel(t), c, k, q) {
          assert SafeAt(t, c, k, q);
          if Value(t.assigns, c[k]) == LFalse && PosOf(t, c[k]) < q {
            var j :| 0 <= j < |c| && Value(t.assigns, c[j]) == LTrue && LevelOf(t, c[j]) <= LevelOf(t, c[k]);
            assert Value(NewLevel(t).assigns, c[j]) == LTrue;
          }
        }
        assert SafeAt(NewLevel(t), c, 0, q) && SafeAt(NewLevel(t), c, 1, q);
      }
    }
  }

  // ------------------------------------------------- one step of propagation

  /** Only the clauses listed under p can be touched by p becoming true. */
  lemma StartPropagating(t: Trail, w: Lists, db: Db, deleted: set<nat>, n: nat, q: nat)
    requires Linked(t) && WatchesOk(w, db, deleted, n) && 0 < q <= |t.lits| && t.lits[q - 1] in w
    requires Propagated(t, db, deleted, q - 1)
    ensures PropagatedBut(t, db, deleted, q, w[t.lits[q - 1]])
  {
    var p := t.lits[q - 1];
    hide Safe, Linked, Attached, ListOk, DbOk;
    forall cr | 0 <= cr < |db| && cr !in deleted
      ensures Safe(t, db[cr], Bound(q, w[p], cr))
    {
      if !Listed(w[p], cr) { UntouchedSafe(t, w, db[cr], cr, n, q, db); }
    }
  }

  lemma UntouchedSafe(t: Trail, w: Lists, c: seq<L>, cr: nat, n: nat, q: nat, db: Db)
    requires Linked(t) && DbOk(db, n) && cr < |db| && db[cr] == c && Attached(w, c, cr)
    requires 0 < q <= |t.lits| && t.lits[q - 1] in w && !Listed(w[t.lits[q - 1]], cr)
    requires Safe(t, c, q - 1)
    ensures Safe(t, c, q)
  {
    hide Guarded;
    var p := t.lits[q - 1];
    assert SafeAt(t, c, 0, q - 1) && SafeAt(t, c, 1, q - 1);
    assert c[0].Neg() != p && c[1].Neg() != p;
    assert SafeAt(t, c, 0, q);
    assert SafeAt(t, c, 1, q);
  }

  /** A clause with a true literal is safe for the literal being propagated. */
  lemma SafeByTrue(t: Trail, c: seq<L>, b: L, q: nat)
    requires Linked(t) && Levelled(t) && 0 < q <= |t.lits| && t.level[t.lits[q - 1].v] == |t.lim|
    requires Safe(t, c, q - 1) && b in c && Value(t.assigns, b) == LTrue
    ensures Safe(t, c, q)
  {
    if |c| >= 2 {
      forall k | 0 <= k < 2 ensures SafeAt(t, c, k, q) {
        assert SafeAt(t, c, k, q - 1);
        if Value(t.assigns, c[k]) == LFalse && PosOf(t, c[k]) == q - 1 {
          var j :| 0 <= j < |c| && c[j] == b;
          assert t.lits[t.pos[b.v]].v == b.v && LevelOf(t, b) <= |t.lim| == LevelOf(t, c[k]);
        }
      }
      assert SafeAt(t, c, 0, q) && SafeAt(t, c, 1, q);
    }
  }

  /** The clause at the front of the pending ones is dealt with. */
  lemma PendingDone(t: Trail, db: Db, deleted: set<nat>, q: nat, pending: seq<Watcher>)
    requires q > 0 && pending != [] && pending[0].cref < |db|
    requires PropagatedBut(t, db, deleted, q, pending)
    requires pending[0].cref !in deleted ==> Safe(t, db[pending[0].cref], q)
    ensures PropagatedBut(t, db, deleted, q, pending[1..])
  {
    forall cr | 0 <= cr < |db| && cr !in deleted
      ensures Safe(t, db[cr], Bound(q, pending[1..], cr))
    {
      assert Safe(t, db[cr], Bound(q, pending, cr));
      if Listed(pending, cr) && cr != pending[0].cref {
        var i :| 0 <= i < |pending| && pending[i].cref == cr;
        assert pending[1..][i - 1].cref == cr;
      }
      if Listed(pending[1..], cr) {
        var i :| 0 <= i < |pending[1..]| && pending[1..][i].cref == cr;
        assert pending[i + 1].cref == cr;
      }
    }
  }

  lemma PropagatedButPush(t: Trail, db: Db, deleted: set<nat>, p: L, from: CRef, q: nat, pending: seq<Watcher>)
    requires Linked(t) && p.v < |t.assigns| && Value(t.assigns, p) == LUndef && 0 < q <= |t.lits|
    requires PropagatedBut(t, db, deleted, q, pending)
    ensures PropagatedBut(Push(t, p, from), db, deleted, q, pending)
  {
    hide Safe;
    forall cr | 0 <= cr < |db| && cr !in deleted
      ensures Safe(Push(t, p, from), db[cr], Bound(q, pending, cr))
    {
      SafePush(t, p, from, db[cr], Bound(q, pending, cr));
    }
  }

  lemma NothingPending(t: Trail, db: Db, deleted: set<nat>, q: nat)
    requires q > 0 && PropagatedBut(t, db, deleted, q, [])
    ensures Propagated(t, db, deleted, q)
  {
    forall cr | 0 <= cr < |db| && cr !in deleted ensures Safe(t, db[cr], q) {
      assert Safe(t, db[cr], Bound(q, [], cr));
    }
  }

  /** Permuting the literals of a clause, for each watch to stay guarded. */
  ghost predicate SameLits(c: seq<L>, d: seq<L>) { |c| == |d| && forall l :: l in c <==> l in d }

  lemma GuardedSame(t: Trail, c: seq<L>, k: nat, d: seq<L>, m: nat)
    requires SameLits(c, d) && k < |c| && m < |d| && c[k] == d[m] && Guarded(t, c, k)
    ensures Guarded(t, d, m)
  {
    var j :| 0 <= j < |c| && Value(t.assigns, c[j]) == LTrue && LevelOf(t, c[j]) <= LevelOf(t, c[k]);
    assert c[j] in d;
  }

  function SwapWatches(c: seq<L>): seq<L>
    requires |c| >= 2
  {
    c[0 := c[1]][1 := c[0]]
  }

  /** The literal at k takes the place of the second watch. */
  function MoveWatch(c: seq<L>, k: nat): seq<L>
    requires 2 <= k < |c|
  {
    c[1 := c[k]][k := c[1]]
  }

  lemma SwapOk(t: Trail, c: seq<L>, n: nat, q: nat)
    requires ClauseOk(c, n) && Safe(t, c, q)
    ensures ClauseOk(SwapWatches(c), n) && SameLits(c, SwapWatches(c)) && Safe(t, SwapWatches(c), q)
  {
    var d := SwapWatches(c);
    SwapSame(c);
    assert SafeAt(t, c, 0, q) && SafeAt(t, c, 1, q);
    if Guarded(t, c, 0) { GuardedSame(t, c, 0, d, 1); }
    if Guarded(t, c, 1) { GuardedSame(t, c, 1, d, 0); }
    assert SafeAt(t, d, 0, q) && SafeAt(t, d, 1, q);
  }

  lemma SwapSame(c: seq<L>)
    requires |c| >= 2
    ensures SameLits(c, SwapWatches(c))
  {
    var d := SwapWatches(c);
    forall l ensures l in c <==> l in d {
      if l in c { var i :| 0 <= i < |c| && c[i] == l; assert d[if i == 0 then 1 else if i == 1 then 0 else i] == l; }
      if l in d { var i :| 0 <= i < |d| && d[i] == l; assert c[if i == 0 then 1 else if i == 1 then 0 else i] == l; }
    }
  }

  lemma MoveSame(c: seq<L>, k: nat)
    requires 2 <= k < |c|
    ensures SameLits(c, MoveWatch(c, k))
  {
    var d := MoveWatch(c, k);
    forall l ensures l in c <==> l in d {
      if l in c { var i :| 0 <= i < |c| && c[i] == l; assert d[if i == k then 1 else if i == 1 then k else i] == l; }
      if l in d { var i :| 0 <= i < |d| && d[i] == l; assert c[if i == k then 1 else if i == 1 then k else i] == l; }
    }
  }

  /** A new second watch that is not false makes the clause safe. */
  lemma MoveOk(t: Trail, c: seq<L>, n: nat, q: nat, k: nat)
    requires Linked(t) && ClauseOk(c, n) && 2 <= k < |c| && Value(t.assigns, c[k]) != LFalse
    requires 0 < q <= |t.lits| && Safe(t, c, q - 1) && c[1] == t.lits[q - 1].Neg()
    ensures ClauseOk(MoveWatch(c, k), n) && Safe(t, MoveWatch(c, k), q)
  {
    var d := MoveWatch(c, k);
    MoveSame(c, k);
    assert SafeAt(t, c, 0, q - 1);
    assert c[0].v != c[1].v;
    if Guarded(t, c, 0) { GuardedSame(t, c, 0, d, 0); }
    assert SafeAt(t, d, 0, q) && SafeAt(t, d, 1, q);
  }

  // ------------------------------------------------- changing lists and clauses

  /** Swapping the two watches of a clause changes no list. */
  lemma SwapLists(w: Lists, db: Db, deleted: set<nat>, n: nat, cr: nat)
    requires WatchesOk(w, db, deleted, n) && cr < |db| && |db[cr]| >= 2
    ensures WatchesOk(w, db[cr := SwapWatches(db[cr])], deleted, n)
  {
    var c := db[cr];
    var db2 := db[cr := SwapWatches(c)];
    assert ClauseOk(c, n);
    SwapSame(c);
    forall p | p in w ensures ListOk(w[p], p, db2) { assert ListOk(w[p], p, db); }
    forall x | 0 <= x < |db2| && x !in deleted ensures |db2[x]| >= 2 && Attached(w, db2[x], x) {
      assert ClauseOk(db[x], n) && Attached(w, db[x], x);
    }
  }

  lemma BlockerLists(w: Lists, db: Db, deleted: set<nat>, n: nat, p: L, i: nat, b: L)
    requires WatchesOk(w, db, deleted, n) && p in w && i < |w[p]|
    requires w[p][i].cref < |db| && b in db[w[p][i].cref]
    ensures WatchesOk(w[p := w[p][i := Watcher(w[p][i].cref, b)]], db, deleted, n)
  {
    var ws := w[p][i := Watcher(w[p][i].cref, b)];
    var w2 := w[p := ws];
    assert ListOk(w[p], p, db);
    assert ListOk(ws, p, db);
    forall x | 0 <= x < |db| && x !in deleted ensures |db[x]| >= 2 && Attached(w2, db[x], x) {
      assert ClauseOk(db[x], n) && Attached(w, db[x], x);
      SameListed(w[p], ws, x);
    }
  }

  lemma SameListed(ws: seq<Watcher>, vs: seq<Watcher>, x: nat)
    requires |ws| == |vs| && forall i :: 0 <= i < |ws| ==> ws[i].cref == vs[i].cref
    ensures Listed(ws, x) <==> Listed(vs, x)
  {
    if i :| 0 <= i < |ws| && ws[i].cref == x { assert vs[i].cref == x; }
    if i :| 0 <= i < |vs| && vs[i].cref == x { assert ws[i].cref == x; }
  }

  function Drop(ws: seq<Watcher>, i: nat): seq<Watcher>
    requires i < |ws|
  {
    ws[..i] + ws[i + 1..]
  }

  lemma DropListed(ws: seq<Watcher>, i: nat, x: nat)
    requires i < |ws| && x != ws[i].cref && Listed(ws, x)
    ensures Listed(Drop(ws, i), x)
  {
    var j :| 0 <= j < |ws| && ws[j].cref == x;
    var k := if j < i then j else j - 1;
    assert Drop(ws, i)[k] == ws[j];
  }

  lemma DropListOk(ws: seq<Watcher>, i: nat, p: L, db: Db, cr: nat, d: seq<L>)
    requires ListOk(ws, p, db) && i < |ws| && ws[i].cref == cr && cr < |db|
    ensures ListOk(Drop(ws, i), p, db[cr := d])
  {
    var vs := Drop(ws, i);
    forall j | 0 <= j < |vs|
      ensures vs[j].cref < |db| && vs[j].cref != cr && |db[vs[j].cref]| >= 2
           && Watched(db[vs[j].cref], p) && vs[j].blocker in db[vs[j].cref]
    {
      assert vs[j] == ws[if j < i then j else j + 1];
    }
    forall j, k | 0 <= j < k < |vs| ensures vs[j].cref != vs[k].cref {
      assert vs[j] == ws[if j < i then j else j + 1];
      assert vs[k] == ws[if k < i then k else k + 1];
    }
  }

  /** The watcher of clause cr leaves the list of p for that of its new watch. */
  function MoveWatcher(w: Lists, p: L, i: nat, l: L, watcher: Watcher): Lists
    requires p in w && l in w && i < |w[p]| && l != p
  {
    w[p := Drop(w[p], i)][l := w[l] + [watcher]]
  }

  lemma MoveLists(w: Lists, db: Db, deleted: set<nat>, n: nat, p: L, i: nat, k: nat, b: L)
    requires WatchesOk(w, db, deleted, n) && p in w && i < |w[p]|
    requires var cr := w[p][i].cref; cr < |db| && 2 <= k < |db[cr]| && db[cr][1] == p.Neg() && b in db[cr]
    requires db[w[p][i].cref][k].Neg() in w && db[w[p][i].cref][k].Neg() != p
    ensures var cr := w[p][i].cref; var d := MoveWatch(db[cr], k);
      WatchesOk(MoveWatcher(w, p, i, d[1].Neg(), Watcher(cr, b)), db[cr := d], deleted, n)
  {
    hide WatchesOk, ListOk;
    var cr := w[p][i].cref;
    var c := db[cr];
    var d := MoveWatch(c, k);
    var l := d[1].Neg();
    var w2 := MoveWatcher(w, p, i, l, Watcher(cr, b));
    var db2 := db[cr := d];
    WatchesParts(w, db, deleted, n);
    assert ClauseOk(c, n);
    MoveSame(c, k);
    assert ClauseOk(d, n);
    assert l == c[k].Neg();
    assert w2.Keys == w.Keys;
    forall q | q in w2 ensures ListOk(w2[q], q, db2) {
      if q == p {
        DropListOk(w[p], i, p, db, cr, d);
      } else if q == l {
        AddListOk(w[l], l, db, cr, d, b, n);
      } else {
        OtherListOk(w[q], q, db, cr, d);
      }
    }
    forall x | 0 <= x < |db2| && x !in deleted ensures |db2[x]| >= 2 && Attached(w2, db2[x], x) {
      MoveAttached(w, db, n, p, i, k, b, x);
    }
    WatchesWhole(w2, db2, deleted, n);
  }

  lemma WatchesParts(w: Lists, db: Db, deleted: set<nat>, n: nat)
    requires WatchesOk(w, db, deleted, n)
    ensures DbOk(db, n)
    ensures forall l: L :: l.v < n ==> l in w
    ensures forall p :: p in w ==> ListOk(w[p], p, db)
    ensures forall cr :: 0 <= cr < |db| && cr !in deleted ==> Attached(w, db[cr], cr)
  {
  }

  lemma WatchesWhole(w: Lists, db: Db, deleted: set<nat>, n: nat)
    requires DbOk(db, n)
    requires forall l: L :: l.v < n ==> l in w
    requires forall p :: p in w ==> ListOk(w[p], p, db)
    requires forall cr :: 0 <= cr < |db| && cr !in deleted ==> |db[cr]| >= 2 && Attached(w, db[cr], cr)
    ensures WatchesOk(w, db, deleted, n)
  {
  }

  lemma AddListOk(ws: seq<Watcher>, l: L, db: Db, cr: nat, d: seq<L>, b: L, n: nat)
    requires ListOk(ws, l, db) && cr < |db| && |db[cr]| >= 2 && !Watched(db[cr], l)
    requires |d| >= 2 && Watched(d, l) && b in d
    ensures ListOk(ws + [Watcher(cr, b)], l, db[cr := d])
  {
    forall i | 0 <= i < |ws| ensures ws[i].cref != cr {}
  }

  lemma OtherListOk(ws: seq<Watcher>, q: L, db: Db, cr: nat, d: seq<L>)
    requires ListOk(ws, q, db) && cr < |db| && |db[cr]| == |d| && |d| >= 2
    requires SameLits(db[cr], d) && (Watched(db[cr], q) ==> Watched(d, q))
    ensures ListOk(ws, q, db[cr := d])
  {
  }

  lemma MoveAttached(w: Lists, db: Db, n: nat, p: L, i: nat, k: nat, b: L, x: nat)
    requires DbOk(db, n) && p in w && i < |w[p]| && x < |db|
    requires var cr := w[p][i].cref; cr < |db| && 2 <= k < |db[cr]| && db[cr][1] == p.Neg()
    requires db[w[p][i].cref][k].Neg() in w && db[w[p][i].cref][k].Neg() != p
    requires |db[x]| >= 2 && Attached(w, db[x], x)
    ensures var cr := w[p][i].cref; var d := MoveWatch(db[cr], k);
      |db[cr := d][x]| >= 2 && Attached(MoveWatcher(w, p, i, d[1].Neg(), Watcher(cr, b)), db[cr := d][x], x)
  {
    var cr := w[p][i].cref;
    var d := MoveWatch(db[cr], k);
    var l := d[1].Neg();
    var w2 := MoveWatcher(w, p, i, l, Watcher(cr, b));
    assert ClauseOk(db[cr], n);
    forall m: L | m in w && Listed(w[m], x) && (m == p ==> x != cr)
      ensures Listed(w2[m], x)
    {
      if m == p { DropListed(w[p], i, x); }
      if m == l { AppendListed(w[l], Watcher(cr, b), x); }
    }
    if x == cr {
      assert w2[l][|w[l]|].cref == cr;
      assert d[0].Neg() != p;
    }
  }

  lemma AppendListed(ws: seq<Watcher>, u: Watcher, x: nat)
    requires Listed(ws, x)
    ensures Listed(ws + [u], x)
  {
    var i :| 0 <= i < |ws| && ws[i].cref == x;
    assert (ws + [u])[i].cref == x;
  }

  // ---------------------------------------- the state inside the propagation loop

  /** No list names a deleted clause. */
  ghost predicate NoDeleted(w: Lists, deleted: set<nat>) {
    forall p, i :: p in w && 0 <= i < |w[p]| ==> w[p][i].cref !in deleted
  }

  /** Lists that may name deleted clauses are marked dirty. */
  ghost predicate DirtyOk(w: Lists, dirty: set<L>, deleted: set<nat>) {
    && dirty <= w.Keys
    && forall p, i :: p in w && p !in dirty && 0 <= i < |w[p]| ==> w[p][i].cref !in deleted
  }

  /** Only clauses of the store are deleted. */
  ghost predicate Known(deleted: set<nat>, db: Db) { forall x :: x in deleted ==> x < |db| }

  lemma AttachClean(w: Lists, dirty: set<L>, deleted: set<nat>, db: Db, c: seq<L>)
    requires DirtyOk(w, dirty, deleted) && Known(deleted, db)
    requires |c| >= 2 && c[0].Neg() in w && c[1].Neg() in w && c[0] != c[1]
    ensures DirtyOk(Attach(w, c, |db|), dirty, deleted)
  {
  }

  lemma NewListsClean(w: Lists, dirty: set<L>, deleted: set<nat>, v: nat)
    requires DirtyOk(w, dirty, deleted)
    ensures DirtyOk(w[Lit(v, true) := []][Lit(v, false) := []], dirty, deleted)
  {
  }

  /** Literal p, number q - 1 of the trail, has been propagated through the first i
      clauses of its list. */
  ghost predicate MidOk(t: Trail, w: Lists, db: Db, deleted: set<nat>, q: nat, p: L, i: nat) {
    && TrailOk(t, db) && WatchesOk(w, db, deleted, |t.assigns|) && NoDeleted(w, deleted)
    && 0 < q <= |t.lits| && t.lits[q - 1] == p && t.level[p.v] == |t.lim|
    && p in w && i <= |w[p]| && PropagatedBut(t, db, deleted, q, w[p][i..])
  }

  lemma MidFacts(t: Trail, w: Lists, db: Db, deleted: set<nat>, q: nat, p: L, i: nat)
    requires MidOk(t, w, db, deleted, q, p, i) && i < |w[p]|
    ensures p in w && Linked(t) && p.v < |t.level| && t.level[p.v] == |t.lim|
    ensures var cr := w[p][i].cref;
      && cr < |db| && cr !in deleted && ClauseOk(db[cr], |t.assigns|) && w[p][i].blocker in db[cr]
      && (db[cr][0] == p.Neg() || db[cr][1] == p.Neg())
      && Value(t.assigns, p.Neg()) == LFalse
      && Safe(t, db[cr], q - 1)
  {
    hide Safe;
    assert ListOk(w[p], p, db);
    var cr := w[p][i].cref;
    assert w[p][i..][0].cref == cr && Listed(w[p][i..], cr);
    assert Safe(t, db[cr], Bound(q, w[p][i..], cr));
  }

  lemma MidFirst(t: Trail, w: Lists, db: Db, deleted: set<nat>, q: nat, p: L, i: nat)
    requires MidOk(t, w, db, deleted, q, p, i)
    ensures p in w && i <= |w[p]|
  {
  }

  lemma MidTrailOk(t: Trail, w: Lists, db: Db, deleted: set<nat>, q: nat, p: L, i: nat)
    requires MidOk(t, w, db, deleted, q, p, i)
    ensures TrailOk(t, db)
  {
  }

  /** When the list is done, literal q - 1 is propagated; before that, all before it. */
  lemma MidEnd(t: Trail, w: Lists, db: Db, deleted: set<nat>, q: nat, p: L, i: nat)
    requires MidOk(t, w, db, deleted, q, p, i)
    ensures TrailOk(t, db) && WatchesOk(w, db, deleted, |t.assigns|) && NoDeleted(w, deleted)
    ensures 0 < q <= |t.lits| && Propagated(t, db, deleted, q - 1)
    ensures i == |w[p]| ==> Propagated(t, db, deleted, q)
  {
    hide Safe, WatchesOk, TrailOk;
    if i == |w[p]| {
      assert w[p][i..] == [];
      NothingPending(t, db, deleted, q);
    }
    forall cr | 0 <= cr < |db| && cr !in deleted ensures Safe(t, db[cr], q - 1) {
      assert Safe(t, db[cr], Bound(q, w[p][i..], cr));
      SafeLess(t, db[cr], Bound(q, w[p][i..], cr), q - 1);
    }
  }

  lemma MidStart(t: Trail, w: Lists, db: Db, deleted: set<nat>, q: nat)
    requires TrailOk(t, db) && WatchesOk(w, db, deleted, |t.assigns|) && NoDeleted(w, deleted)
    requires 0 < q <= |t.lits| && Propagated(t, db, deleted, q - 1)
    requires t.level[t.lits[q - 1].v] == |t.lim|
    ensures MidOk(t, w, db, deleted, q, t.lits[q - 1], 0)
  {
    hide Safe, ListOk, DbOk, Attached;
    var p := t.lits[q - 1];
    assert p in w;
    StartPropagating(t, w, db, deleted, |t.assigns|, q);
    assert w[p][0..] == w[p];
  }

  lemma MidSwap(t: Trail, w: Lists, db: Db, deleted: set<nat>, q: nat, p: L, i: nat)
    requires MidOk(t, w, db, deleted, q, p, i) && i < |w[p]|
    requires w[p][i].cref < |db| && |db[w[p][i].cref]| >= 2 && db[w[p][i].cref][0] == p.Neg()
    ensures var cr := w[p][i].cref; MidOk(t, w, db[cr := SwapWatches(db[cr])], deleted, q, p, i)
  {
    hide Safe, WatchesOk, TrailOk;
    var cr := w[p][i].cref;
    var c := db[cr];
    var db2 := db[cr := SwapWatches(c)];
    MidFacts(t, w, db, deleted, q, p, i);
    SwapOk(t, c, |t.assigns|, q - 1);
    SwapLists(w, db, deleted, |t.assigns|, cr);
    ReasonsKept(t, db, db2);
    assert w[p][i..][0].cref == cr;
    forall x | 0 <= x < |db2| && x !in deleted ensures Safe(t, db2[x], Bound(q, w[p][i..], x)) {
      if x != cr { assert Safe(t, db[x], Bound(q, w[p][i..], x)); }
    }
  }

  /** A true literal in the clause lets the loop go on to the next one. */
  lemma MidTrue(t: Trail, w: Lists, db: Db, deleted: set<nat>, q: nat, p: L, i: nat, b: L)
    requires MidOk(t, w, db, deleted, q, p, i) && i < |w[p]|
    requires w[p][i].cref < |db| && b in db[w[p][i].cref] && Value(t.assigns, b) == LTrue
    ensures MidOk(t, w, db, deleted, q, p, i + 1)
  {
    hide WatchesOk;
    MidFacts(t, w, db, deleted, q, p, i);
    SafeByTrue(t, db[w[p][i].cref], b, q);
    PendingDone(t, db, deleted, q, w[p][i..]);
    assert w[p][i..][1..] == w[p][i + 1..];
  }

  lemma MidBlocker(t: Trail, w: Lists, db: Db, deleted: set<nat>, q: nat, p: L, i: nat, b: L)
    requires MidOk(t, w, db, deleted, q, p, i) && i < |w[p]|
    requires w[p][i].cref < |db| && b in db[w[p][i].cref]
    ensures MidOk(t, w[p := w[p][i := Watcher(w[p][i].cref, b)]], db, deleted, q, p, i)
  {
    hide Safe, WatchesOk, TrailOk;
    var ws := w[p][i := Watcher(w[p][i].cref, b)];
    BlockerLists(w, db, deleted, |t.assigns|, p, i, b);
    forall x | 0 <= x < |db| && x !in deleted ensures Safe(t, db[x], Bound(q, ws[i..], x)) {
      assert Safe(t, db[x], Bound(q, w[p][i..], x));
      SameListed(w[p][i..], ws[i..], x);
    }
  }

  lemma MidMove(t: Trail, w: Lists, db: Db, deleted: set<nat>, q: nat, p: L, i: nat, k: nat, b: L)
    requires MidOk(t, w, db, deleted, q, p, i) && i < |w[p]|
    requires var cr := w[p][i].cref; cr < |db| && 2 <= k < |db[cr]| && db[cr][1] == p.Neg() && b in db[cr]
    requires Value(t.assigns, db[w[p][i].cref][k]) != LFalse && Value(t.assigns, db[w[p][i].cref][0]) != LTrue
    ensures var cr := w[p][i].cref; var d := MoveWatch(db[cr], k); var l := d[1].Neg();
      && l in w && l != p
      && MidOk(t, MoveWatcher(w, p, i, l, Watcher(cr, b)), db[cr := d], deleted, q, p, i)
  {
    hide Safe, WatchesOk, TrailOk, ListOk;
    var cr := w[p][i].cref;
    var c := db[cr];
    var d := MoveWatch(c, k);
    var l := d[1].Neg();
    var db2 := db[cr := d];
    MidFacts(t, w, db, deleted, q, p, i);
    WatchesParts(w, db, deleted, |t.assigns|);
    assert c[k].v < |t.assigns|;
    assert c[k].Neg() in w;
    TrailParts(t, db);
    MoveOk(t, c, |t.assigns|, q, k);
    MoveLists(w, db, deleted, |t.assigns|, p, i, k, b);
    ReasonsKept(t, db, db2);
    var w2 := MoveWatcher(w, p, i, l, Watcher(cr, b));
    assert w2[p] == Drop(w[p], i);
    MovePending(t, w[p], db, deleted, q, i, d);
    MoveNoDeleted(w, deleted, p, i, l, b);
  }

  lemma TrailParts(t: Trail, db: Db)
    requires TrailOk(t, db)
    ensures Linked(t) && Levelled(t)
  {
  }

  lemma MovePending(t: Trail, ws: seq<Watcher>, db: Db, deleted: set<nat>, q: nat, i: nat, d: seq<L>)
    requires q > 0 && i < |ws| && ws[i].cref < |db| && PropagatedBut(t, db, deleted, q, ws[i..])
    requires Safe(t, d, q)
    ensures PropagatedBut(t, db[ws[i].cref := d], deleted, q, Drop(ws, i)[i..])
  {
    hide Safe;
    SafeLess(t, d, q, q - 1);
    PendingReplaced(t, db, deleted, q, ws[i..], d);
    assert Drop(ws, i)[i..] == ws[i..][1..];
  }

  lemma SafeLess(t: Trail, c: seq<L>, q: nat, r: nat)
    requires r <= q && Safe(t, c, q)
    ensures Safe(t, c, r)
  {
  }

  lemma PendingReplaced(t: Trail, db: Db, deleted: set<nat>, q: nat, pending: seq<Watcher>, d: seq<L>)
    requires q > 0 && pending != [] && pending[0].cref < |db| && PropagatedBut(t, db, deleted, q, pending)
    requires Safe(t, d, q) && Safe(t, d, q - 1)
    ensures PropagatedBut(t, db[pending[0].cref := d], deleted, q, pending[1..])
  {
    hide Safe;
    var db2 := db[pending[0].cref := d];
    assert Listed(pending, pending[0].cref);
    forall x | 0 <= x < |db2| && x !in deleted ensures Safe(t, db2[x], Bound(q, pending, x)) {
      if x != pending[0].cref { assert Safe(t, db[x], Bound(q, pending, x)); }
    }
    PendingDone(t, db2, deleted, q, pending);
  }

  lemma MoveNoDeleted(w: Lists, deleted: set<nat>, p: L, i: nat, l: L, b: L)
    requires NoDeleted(w, deleted) && p in w && l in w && l != p && i < |w[p]|
    ensures NoDeleted(MoveWatcher(w, p, i, l, Watcher(w[p][i].cref, b)), deleted)
  {
    var w2: Lists := MoveWatcher(w, p, i, l, Watcher(w[p][i].cref, b));
    forall q: L, j: nat | q in w2 && 0 <= j < |w2[q]| ensures w2[q][j].cref !in deleted {
      if q == p { assert w2[q][j] == w[p][if j < i then j else j + 1]; }
    }
  }

  /** The first literal is implied: it becomes true with this clause as its reason. */
  lemma MidUnit(t: Trail, w: Lists, db: Db, deleted: set<nat>, q: nat, p: L, i: nat)
    requires MidOk(t, w, db, deleted, q, p, i) && i < |w[p]|
    requires w[p][i].cref < |db| && |db[w[p][i].cref]| >= 2
    requires Value(t.assigns, db[w[p][i].cref][0]) == LUndef
    requires forall j :: 1 <= j < |db[w[p][i].cref]| ==> Value(t.assigns, db[w[p][i].cref][j]) == LFalse
    ensures db[w[p][i].cref][0].v < |t.assigns| && |t.assigns| == |t.level| == |t.reason| == |t.pos|
    ensures var cr := w[p][i].cref; MidOk(Push(t, db[cr][0], CRef(cr)), w, db, deleted, q, p, i + 1)
  {
    hide Safe, WatchesOk, Reasoned, Levelled;
    var cr := w[p][i].cref;
    var first := db[cr][0];
    MidFacts(t, w, db, deleted, q, p, i);
    PushOk(t, db, first, CRef(cr));
    PropagatedButPush(t, db, deleted, first, CRef(cr), q, w[p][i..]);
    assert p.v != first.v;
    MidTrue(Push(t, first, CRef(cr)), w, db, deleted, q, p, i, first);
  }

  // --------------------------------------------- attaching and deleting clauses

  /** The lists after a new clause is listed under both its watches. */
  function Attach(w: Lists, c: seq<L>, cr: nat): Lists
    requires |c| >= 2 && c[0].Neg() in w && c[1].Neg() in w && c[0] != c[1]
  {
    w[c[0].Neg() := w[c[0].Neg()] + [Watcher(cr, c[1])]][c[1].Neg() := w[c[1].Neg()] + [Watcher(cr, c[0])]]
  }

  lemma AttachLists(w: Lists, db: Db, deleted: set<nat>, n: nat, c: seq<L>)
    requires WatchesOk(w, db, deleted, n) && ClauseOk(c, n)
    ensures c[0].Neg() in w && c[1].Neg() in w && c[0] != c[1]
    ensures WatchesOk(Attach(w, c, |db|), db + [c], deleted, n)
  {
    hide WatchesOk, ListOk;
    WatchesParts(w, db, deleted, n);
    assert c[0].Neg().v < n && c[1].Neg().v < n;
    var w2 := Attach(w, c, |db|);
    var db2 := db + [c];
    forall q | q in w2 ensures ListOk(w2[q], q, db2) {
      LongerDb(w[q], q, db, c);
      if q == c[0].Neg() { NewListOk(w[q], q, db, c, c[1]); }
      else if q == c[1].Neg() { NewListOk(w[q], q, db, c, c[0]); }
    }
    forall x | 0 <= x < |db2| && x !in deleted ensures |db2[x]| >= 2 && Attached(w2, db2[x], x) {
      if x < |db| {
        assert ClauseOk(db[x], n);
        forall m: L | m in w && Listed(w[m], x) ensures Listed(w2[m], x) {
          if m == c[0].Neg() { AppendListed(w[m], Watcher(|db|, c[1]), x); }
          if m == c[1].Neg() { AppendListed(w[m], Watcher(|db|, c[0]), x); }
        }
      } else {
        assert w2[c[0].Neg()][|w[c[0].Neg()]|].cref == |db|;
        assert w2[c[1].Neg()][|w[c[1].Neg()]|].cref == |db|;
      }
    }
    WatchesWhole(w2, db2, deleted, n);
  }

  lemma LongerDb(ws: seq<Watcher>, q: L, db: Db, c: seq<L>)
    requires ListOk(ws, q, db)
    ensures ListOk(ws, q, db + [c])
  {
  }

  lemma NewListOk(ws: seq<Watcher>, q: L, db: Db, c: seq<L>, b: L)
    requires ListOk(ws, q, db) && |c| >= 2 && Watched(c, q) && b in c
    ensures ListOk(ws + [Watcher(|db|, b)], q, db + [c])
  {
    var vs := ws + [Watcher(|db|, b)];
    var db2 := db + [c];
    forall i | 0 <= i < |vs|
      ensures vs[i].cref < |db2| && |db2[vs[i].cref]| >= 2 && Watched(db2[vs[i].cref], q)
      ensures vs[i].blocker in db2[vs[i].cref]
    {
    }
  }

  /** The watchers of clauses that are still there. */
  function Clean(ws: seq<Watcher>, deleted: set<nat>): seq<Watcher> {
    if ws == [] then [] else
      var init := Clean(ws[..|ws| - 1], deleted);
      if ws[|ws| - 1].cref in deleted then init else init + [ws[|ws| - 1]]
  }

  lemma {:induction false} CleanOk(ws: seq<Watcher>, deleted: set<nat>, p: L, db: Db)
    requires ListOk(ws, p, db)
    ensures ListOk(Clean(ws, deleted), p, db)
    ensures forall i :: 0 <= i < |Clean(ws, deleted)| ==> Clean(ws, deleted)[i].cref !in deleted
    ensures forall x :: x !in deleted ==> (Listed(Clean(ws, deleted), x) <==> Listed(ws, x))
    ensures forall u :: u in Clean(ws, deleted) ==> u in ws
  {
    if ws != [] {
      var m := |ws| - 1;
      var front, last := ws[..m], ws[m];
      assert ListOk(front, p, db);
      CleanOk(front, deleted, p, db);
      var init := Clean(front, deleted);
      assert ws == front + [last];
      forall u | u in init ensures u.cref != last.cref { assert u in front; }
      forall x | x !in deleted ensures Listed(Clean(ws, deleted), x) <==> Listed(ws, x) {
        CleanListed(front, init, last, deleted, x);
      }
    }
  }

  lemma CleanListed(front: seq<Watcher>, init: seq<Watcher>, last: Watcher, deleted: set<nat>, x: nat)
    requires x !in deleted && (Listed(init, x) <==> Listed(front, x))
    ensures Listed(if last.cref in deleted then init else init + [last], x) <==> Listed(front + [last], x)
  {
    if Listed(front + [last], x) {
      var i :| 0 <= i <= |front| && (front + [last])[i].cref == x;
      if i < |front| {
        assert front[i].cref == x;
        if last.cref !in deleted { AppendListed(init, last, x); }
      } else {
        assert (init + [last])[|init|].cref == x;
      }
    }
    if Listed(init, x) { AppendListed(front, last, x); }
    if last.cref !in deleted && Listed(init + [last], x) {
      var i :| 0 <= i <= |init| && (init + [last])[i].cref == x;
      if i < |init| { assert init[i].cref == x; } else { assert (front + [last])[|front|].cref == x; }
    }
  }

  lemma CleanLists(w: Lists, db: Db, deleted: set<nat>, n: nat, p: L)
    requires WatchesOk(w, db, deleted, n) && p in w
    ensures WatchesOk(w[p := Clean(w[p], deleted)], db, deleted, n)
    ensures forall i :: 0 <= i < |Clean(w[p], deleted)| ==> Clean(w[p], deleted)[i].cref !in deleted
  {
    hide WatchesOk, ListOk, Clean;
    WatchesParts(w, db, deleted, n);
    var w2: Lists := w[p := Clean(w[p], deleted)];
    CleanOk(w[p], deleted, p, db);
    forall x | 0 <= x < |db| && x !in deleted ensures |db[x]| >= 2 && Attached(w2, db[x], x) {
      assert ClauseOk(db[x], n);
    }
    WatchesWhole(w2, db, deleted, n);
  }

  lemma DeleteLists(w: Lists, db: Db, deleted: set<nat>, n: nat, cr: nat)
    requires WatchesOk(w, db, deleted, n)
    ensures WatchesOk(w, db, deleted + {cr}, n)
  {
  }

  // ------------------------------------------------ what propagation leaves alone

  /** The trail has grown by literals implied at the current level. */
  ghost predicate Grew(t: Trail, u: Trail) {
    && u.lim == t.lim && t.lits <= u.lits
    && |t.assigns| == |t.level| == |t.reason| == |t.pos| == |u.assigns| == |u.level| == |u.reason| == |u.pos|
    && (forall x :: 0 <= x < |t.assigns| && t.assigns[x] != LUndef ==>
          u.assigns[x] == t.assigns[x] && u.level[x] == t.level[x] && u.reason[x] == t.reason[x] && u.pos[x] == t.pos[x])
    && (forall i :: |t.lits| <= i < |u.lits| ==> ImpliedNow(u, u.lits[i].v))
  }

  ghost predicate ImpliedNow(u: Trail, x: nat) {
    x < |u.reason| == |u.level| && u.reason[x].CRef? && u.level[x] == |u.lim|
  }

  lemma GrewRefl(t: Trail)
    requires |t.assigns| == |t.level| == |t.reason| == |t.pos|
    ensures Grew(t, t)
  {
  }

  lemma GrewTrans(t: Trail, u: Trail, v: Trail)
    requires Grew(t, u) && Grew(u, v) && Linked(u)
    ensures Grew(t, v)
  {
    forall i | |t.lits| <= i < |v.lits| ensures ImpliedNow(v, v.lits[i].v) {
      if i < |u.lits| { assert v.lits[i] == u.lits[i] && ImpliedNow(u, u.lits[i].v); }
    }
  }

  lemma GrewPush(t: Trail, p: L, from: CRef)
    requires Linked(t) && p.v < |t.assigns| && Value(t.assigns, p) == LUndef && from.CRef?
    ensures Grew(t, Push(t, p, from))
  {
  }

  /** The same clauses up to the order of their literals. */
  ghost predicate SameDb(db: Db, db2: Db) { |db| == |db2| && forall cr :: 0 <= cr < |db| ==> SameLits(db[cr], db2[cr]) }

  lemma SameDbRefl(db: Db)
    ensures SameDb(db, db)
  {
  }

  lemma SameDbTrans(a: Db, b: Db, c: Db)
    requires SameDb(a, b) && SameDb(b, c)
    ensures SameDb(a, c)
  {
    forall cr | 0 <= cr < |a| ensures SameLits(a[cr], c[cr]) { assert SameLits(a[cr], b[cr]) && SameLits(b[cr], c[cr]); }
  }

  lemma SameDbSet(db: Db, cr: nat, d: seq<L>)
    requires cr < |db| && SameLits(db[cr], d)
    ensures SameDb(db, db[cr := d])
  {
  }
}
