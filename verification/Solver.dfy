/** The conflict-driven clause-learning solver. */
module CdclSolver {
  import opened Cnf
  import opened Sets
  import opened Trails
  import opened WatchLists
  import opened Resolution
  import opened Analysis
  import opened Causes
  import opened Progress
  import opened Adding
  import opened Heaps

  /** With the decisions among the assumptions and everything propagated, some assumption is
      false, and the conflict consists of its negation and those of the assumptions that led
      to it. */
  ghost predicate Blamed(F: Cnfs, assumps: seq<L>, conflict: seq<L>) {
    exists cs, db, deleted, t: Trail :: Good(F, cs, db, deleted, t, assumps, |t.lits|) && Blames(t, db, assumps, conflict)
  }

  class Solver {
    // Clause store, deleted clauses (`mark`), and the lists of problem and learnt clauses.
    var ca: Db
    var deleted: set<nat>
    var clauses: seq<nat>
    var learnts: seq<nat>
    var watches: Lists
    var dirty: set<L>

    // The assignment.
    var assigns: seq<LBool>
    var level: seq<nat>
    var reason: seq<CRef>
    var trail: seq<L>
    var trailLim: seq<nat>
    var qhead: nat
    ghost var pos: seq<nat>

    // The order in which to branch.
    const orderHeap: Heap
    var decision: seq<bool>
    var polarity: seq<bool>
    const phaseSaving: nat
    const lubyRestart: bool

    // Conflict analysis; `varInc` is what an activity is raised by.
    const ccminMode: nat
    var varInc: real
    var seen: seq<bool>
    var analyzeToclear: seq<L>

    // The interface: the clauses added so far, and the answer to the last query.
    var ok: bool
    ghost var formula: Cnfs
    var assumptions: seq<L>
    var model: seq<LBool>
    var conflict: seq<L>

    ghost function T(): Trail
      reads this`assigns, this`level, this`reason, this`trail, this`trailLim, this`pos
    {
      Trail(assigns, trail, trailLim, level, reason, pos)
    }

    /** Where the current decision level starts. */
    ghost function LevelStart(): nat
      reads this`trailLim
    {
      if trailLim == [] then 0 else trailLim[|trailLim| - 1]
    }

    /** The trail, the clauses and the watch lists fit together. */
    ghost predicate Wired()
      reads this`assigns, this`level, this`reason, this`trail, this`trailLim, this`pos, this`qhead
      reads this`ca, this`deleted, this`watches, this`dirty
    {
      TrailOk(T(), ca) && WatchesOk(watches, ca, deleted, |assigns|) && DirtyOk(watches, dirty, deleted) && qhead <= |trail|
    }

    method UncheckedEnqueue(p: L, from: CRef)
      requires p.v < |assigns| == |level| == |reason| == |pos| && Value(assigns, p) == LUndef
      modifies this`assigns, this`level, this`reason, this`trail, this`pos
      ensures T() == Push(old(T()), p, from)
      ensures old(HeapOk() || HeapOkBut(p.v)) ==> HeapOk()
    {
      assigns := assigns[p.v := Truth(p)];
      level := level[p.v := |trailLim|];
      reason := reason[p.v := from];
      pos := pos[p.v := |trail|];
      trail := trail + [p];
    }

    constructor (phaseSaving: nat, ccminMode: nat, lubyRestart: bool)
      ensures Valid() && ok && formula == [] && assigns == [] && decision == [] && fresh(orderHeap)
    {
      this.phaseSaving, this.ccminMode, this.lubyRestart, varInc := phaseSaving, ccminMode, lubyRestart, 1.0;
      ca, deleted, clauses, learnts, watches, dirty := [], {}, [], [], map[], {};
      assigns, level, reason, trail, trailLim, qhead, pos := [], [], [], [], [], 0, [];
      decision, polarity, seen, analyzeToclear := [], [], [], [];
      ok, formula, assumptions, model, conflict := true, [], [], [], [];
      orderHeap := new Heap();
      new;
      hide Valid, Heap.Valid;
      EmptyValid();
    }

    lemma EmptyValid()
      requires |assigns| == |level| == |reason| == |pos| == |trail| == |trailLim| == qhead == |seen| == 0
      requires ca == [] && formula == [] && clauses == [] && learnts == [] && assumptions == []
      requires watches == map[] && dirty == {} && deleted == {} && varInc >= 0.0 && ok
      requires orderHeap.Valid() && orderHeap.activity == [] && decision == [] && polarity == []
      ensures Valid()
    {
      hide TrailOk, Good, StoreOk, SeenClear, Heap.Valid, Unsat, Models;
      EmptyGood(T(), ca, formula);
      EmptyStore();
      EmptySeen(seen);
    }

    // ------------------------------------------------------------- propagation

    /** Takes deleted clauses out of the lists that may name them. */
    method CleanAll()
      requires WatchesOk(watches, ca, deleted, |assigns|) && DirtyOk(watches, dirty, deleted)
      modifies this`watches, this`dirty
      ensures WatchesOk(watches, ca, deleted, |assigns|) && dirty == {} && NoDeleted(watches, deleted)
      ensures watches.Keys == old(watches.Keys)
    {
      hide WatchesOk, Clean;
      while dirty != {}
        invariant WatchesOk(watches, ca, deleted, |assigns|) && DirtyOk(watches, dirty, deleted)
        invariant watches.Keys == old(watches.Keys)
        decreases dirty
      {
        var p :| p in dirty;
        CleanLists(watches, ca, deleted, |assigns|, p);
        watches := watches[p := Clean(watches[p], deleted)];
        dirty := dirty - {p};
      }
    }

    /** Propagation of p has come to entry i of its list. */
    ghost predicate Mid(p: L, i: nat)
      reads this`assigns, this`level, this`reason, this`trail, this`trailLim, this`pos, this`qhead
      reads this`ca, this`deleted, this`watches
    {
      MidOk(T(), watches, ca, deleted, qhead, p, i)
    }

    ghost predicate Entailment(F: Cnfs)
      reads this`assigns, this`level, this`reason, this`trail, this`trailLim, this`pos, this`ca
    {
      AllEntailed(F, ca) && RootsEntailed(F, T())
    }

    /** A clause that is false, with a watch at the current level. */
    ghost predicate Conflicting(cr: nat)
      reads this`assigns, this`level, this`trailLim, this`ca, this`deleted
    {
      && cr < |ca| && cr !in deleted && |ca[cr]| >= 2
      && (forall j :: 0 <= j < |ca[cr]| ==> Value(assigns, ca[cr][j]) == LFalse)
      && ca[cr][1].v < |level| && level[ca[cr][1].v] == |trailLim|
    }

    /** Puts the false literal second. */
    method PutFalseSecond(p: L, i: nat, ghost F: Cnfs) returns (cr: nat)
      requires Mid(p, i) && i < |watches[p]| && Entailment(F)
      modifies this`ca
      ensures Mid(p, i) && Entailment(F) && SameDb(old(ca), ca)
      ensures cr == watches[p][i].cref < |ca| && cr !in deleted
      ensures ClauseOk(ca[cr], |assigns|) && ca[cr][1] == p.Neg() && watches[p][i].blocker in ca[cr]
    {
      hide MidOk, Entails, ClauseTrue, WatchLists.Safe;
      MidFacts(T(), watches, ca, deleted, qhead, p, i);
      cr := watches[p][i].cref;
      if ca[cr][0] == p.Neg() {
        MidSwap(T(), watches, ca, deleted, qhead, p, i);
        SwapSame(ca[cr]);
        SameEntailed(F, ca[cr], SwapWatches(ca[cr]));
        SameDbSet(ca, cr, SwapWatches(ca[cr]));
        ca := ca[cr := SwapWatches(ca[cr])];
        MidFacts(T(), watches, ca, deleted, qhead, p, i);
      }
    }

    /** Notes the first literal as the one to look at before the clause. */
    method KeepWatch(p: L, i: nat, cr: nat)
      requires Mid(p, i) && i < |watches[p]| && cr == watches[p][i].cref < |ca| && |ca[cr]| >= 2
      modifies this`watches
      ensures watches.Keys == old(watches.Keys) && p in watches && |watches[p]| == |old(watches)[p]|
      ensures Mid(p, i) && watches[p][i].cref == cr
    {
      hide MidOk;
      MidBlocker(T(), watches, ca, deleted, qhead, p, i, ca[cr][0]);
      MidFacts(T(), watches, ca, deleted, qhead, p, i);
      watches := watches[p := watches[p][i := Watcher(cr, ca[cr][0])]];
    }

    /** A literal other than the first two that is not false, if there is one. */
    method FindWatch(cr: nat) returns (k: nat)
      requires cr < |ca| && |ca[cr]| >= 2
      ensures 2 <= k <= |ca[cr]|
      ensures k < |ca[cr]| ==> Value(assigns, ca[cr][k]) != LFalse
      ensures k == |ca[cr]| ==> forall j :: 2 <= j < |ca[cr]| ==> Value(assigns, ca[cr][j]) == LFalse
    {
      k := 2;
      while k < |ca[cr]| && Value(assigns, ca[cr][k]) == LFalse
        invariant 2 <= k <= |ca[cr]|
        invariant forall j :: 2 <= j < k ==> Value(assigns, ca[cr][j]) == LFalse
      {
        k := k + 1;
      }
    }

    /** Watches literal k instead of the false one: the clause changes lists. */
    method MoveOn(p: L, i: nat, cr: nat, k: nat, ghost F: Cnfs)
      requires Mid(p, i) && i < |watches[p]| && Entailment(F)
      requires cr == watches[p][i].cref < |ca| && 2 <= k < |ca[cr]| && ca[cr][1] == p.Neg()
      requires Value(assigns, ca[cr][k]) != LFalse && Value(assigns, ca[cr][0]) != LTrue
      modifies this`ca, this`watches
      ensures Mid(p, i) && Entailment(F) && SameDb(old(ca), ca)
      ensures watches.Keys == old(watches.Keys) && p in watches && |watches[p]| == |old(watches)[p]| - 1
    {
      hide MidOk, Entails, ClauseTrue;
      MidFacts(T(), watches, ca, deleted, qhead, p, i);
      MidMove(T(), watches, ca, deleted, qhead, p, i, k, ca[cr][0]);
      MoveSame(ca[cr], k);
      SameEntailed(F, ca[cr], MoveWatch(ca[cr], k));
      var first, w := ca[cr][0], MoveWatch(ca[cr], k);
      SameDbSet(ca, cr, w);
      ca := ca[cr := w];
      watches := MoveWatcher(watches, p, i, w[1].Neg(), Watcher(cr, first));
    }

    /** Looks at one entry of the list of p. */
    method PropagateWatcher(p: L, i: nat, ghost F: Cnfs) returns (next: nat, confl: CRef)
      requires Mid(p, i) && i < |watches[p]| && Entailment(F)
      modifies this`ca, this`watches, this`assigns, this`level, this`reason, this`trail, this`pos
      ensures Entailment(F) && SameDb(old(ca), ca) && Grew(old(T()), T()) && watches.Keys == old(watches.Keys)
      ensures confl == CRefUndef ==> Mid(p, next)
      ensures p in watches && next <= |watches[p]| && |watches[p]| - next < |old(watches)[p]| - i
      ensures confl.CRef? ==> Conflicting(confl.id) && exists j: nat :: Mid(p, j)
    {
      hide MidOk, AllEntailed, RootsEntailed, SameDb, Grew;
      MidFacts(T(), watches, ca, deleted, qhead, p, i);
      SameDbRefl(ca);
      GrewRefl(T());
      next, confl := i, CRefUndef;
      var blocker := watches[p][i].blocker;
      if Value(assigns, blocker) == LTrue {
        MidTrue(T(), watches, ca, deleted, qhead, p, i, blocker);
        next := i + 1;
        return;
      }
      var cr := PutFalseSecond(p, i, F);
      var first := ca[cr][0];
      if first != blocker && Value(assigns, first) == LTrue {
        KeepWatch(p, i, cr);
        MidTrue(T(), watches, ca, deleted, qhead, p, i, first);
        next := i + 1;
        return;
      }
      var k := FindWatch(cr);
      if k < |ca[cr]| {
        ghost var c := ca;
        MoveOn(p, i, cr, k, F);
        SameDbTrans(old(ca), c, ca);
        return;
      }
      KeepWatch(p, i, cr);
      confl := UnitOrConflict(p, i, cr, F);
      next := i + 1;
    }

    /** All literals but the first are false: it is implied, or the clause is false. */
    method UnitOrConflict(p: L, i: nat, cr: nat, ghost F: Cnfs) returns (confl: CRef)
      requires Mid(p, i) && i < |watches[p]| && Entailment(F)
      requires cr == watches[p][i].cref < |ca| && |ca[cr]| >= 2 && ca[cr][1] == p.Neg()
      requires Value(assigns, ca[cr][0]) != LTrue
      requires forall j :: 2 <= j < |ca[cr]| ==> Value(assigns, ca[cr][j]) == LFalse
      modifies this`assigns, this`level, this`reason, this`trail, this`pos
      ensures Entailment(F) && Grew(old(T()), T())
      ensures confl == CRefUndef ==> Mid(p, i + 1)
      ensures confl.CRef? ==> Conflicting(confl.id) && Mid(p, i)
    {
      hide MidOk, Entails;
      confl := CRefUndef;
      MidFacts(T(), watches, ca, deleted, qhead, p, i);
      var first := ca[cr][0];
      if Value(assigns, first) == LFalse {
        GrewRefl(T());
        confl := CRef(cr);
      } else {
        MidTrailOk(T(), watches, ca, deleted, qhead, p, i);
        MidUnit(T(), watches, ca, deleted, qhead, p, i);
        GrewPush(T(), first, CRef(cr));
        UnitRoots(F, T(), ca, cr);
        UncheckedEnqueue(first, CRef(cr));
      }
    }
  
    ghost predicate Fit()
      reads this`assigns, this`level, this`reason, this`trail, this`trailLim, this`pos, this`qhead
      reads this`ca, this`deleted, this`watches
    {
      TrailOk(T(), ca) && WatchesOk(watches, ca, deleted, |assigns|) && NoDeleted(watches, deleted) && qhead <= |trail|
    }

    ghost predicate PropagatedTo(q: nat)
      reads this`assigns, this`level, this`reason, this`trail, this`trailLim, this`pos, this`ca, this`deleted
    {
      Propagated(T(), ca, deleted, q)
    }

    /** Goes through the clauses that watch the negation of p. */
    method PropagateLit(p: L, ghost F: Cnfs) returns (confl: CRef)
      requires Mid(p, 0) && Entailment(F)
      modifies this`ca, this`watches, this`assigns, this`level, this`reason, this`trail, this`pos
      ensures Fit() && Entailment(F) && SameDb(old(ca), ca) && Grew(old(T()), T()) && watches.Keys == old(watches.Keys)
      ensures 0 < qhead && PropagatedTo(qhead - 1)
      ensures confl == CRefUndef ==> PropagatedTo(qhead)
      ensures confl.CRef? ==> Conflicting(confl.id)
    {
      hide MidOk, Entails, Propagated, TrailOk, WatchesOk, NoDeleted, SameLits;
      confl := CRefUndef;
      var i: nat := 0;
      MidFirst(T(), watches, ca, deleted, qhead, p, 0);
      SameDbRefl(ca);
      MidEnd(T(), watches, ca, deleted, qhead, p, 0);
      LinkedSizes(T(), ca);
      GrewRefl(T());
      while i < |watches[p]| && confl == CRefUndef
        invariant p in watches && watches.Keys == old(watches.Keys) && i <= |watches[p]|
        invariant Entailment(F) && SameDb(old(ca), ca) && Grew(old(T()), T())
        invariant confl == CRefUndef ==> Mid(p, i)
        invariant confl.CRef? ==> Conflicting(confl.id) && exists j: nat :: Mid(p, j)
        decreases |watches[p]| - i
      {
        ghost var t, c := T(), ca;
        MidEnd(T(), watches, ca, deleted, qhead, p, i);
        LinkedSizes(T(), ca);
        i, confl := PropagateWatcher(p, i, F);
        GrewTrans(old(T()), t, T());
        SameDbTrans(old(ca), c, ca);
      }
      ghost var j: nat := i;
      if confl.CRef? { j :| Mid(p, j); }
      MidEnd(T(), watches, ca, deleted, qhead, p, j);
    }

    /** Every literal still to be propagated is at the current level. */
    ghost predicate QueueNow()
      reads this`level, this`trail, this`trailLim, this`qhead
    {
      forall i :: qhead <= i < |trail| ==> trail[i].v < |level| && level[trail[i].v] == |trailLim|
    }

    /** Propagates the next fact in the queue. */
    method PropagateNext(ghost F: Cnfs) returns (confl: CRef)
      requires Fit() && Entailment(F) && QueueNow() && PropagatedTo(qhead) && qhead < |trail|
      modifies this`ca, this`watches, this`qhead, this`assigns, this`level, this`reason, this`trail, this`pos
      ensures Fit() && Entailment(F) && SameDb(old(ca), ca) && Grew(old(T()), T()) && watches.Keys == old(watches.Keys)
      ensures QueueNow() && qhead > old(qhead)
      ensures PropagatedTo(if confl == CRefUndef then qhead else LevelStart())
      ensures confl.CRef? ==> Conflicting(confl.id) && qhead == |trail|
    {
      hide Entails, Propagated, TrailOk, WatchesOk, SameLits, SameDb, Grew;
      ghost var t := T();
      LinkedSizes(t, ca);
      var p := trail[qhead];
      qhead := qhead + 1;
      MidStart(T(), watches, ca, deleted, qhead);
      AboveStart(T(), ca, qhead - 1);
      confl := PropagateLit(p, F);
      QueueGrew(t, T(), qhead - 1);
      if confl.CRef? {
        PropagatedLess(T(), ca, deleted, qhead - 1, LevelStart());
        qhead := |trail|;
      }
    }

    /** Propagates all facts in the queue.  Without a conflict, every watched literal is
        guarded; a conflicting clause is false, and not only by lower levels. */
    method Propagate(ghost F: Cnfs) returns (confl: CRef)
      requires Wired() && Entailment(F) && QueueNow() && PropagatedTo(qhead)
      modifies this`ca, this`watches, this`dirty, this`qhead
      modifies this`assigns, this`level, this`reason, this`trail, this`pos
      ensures Wired() && Entailment(F) && SameDb(old(ca), ca) && Grew(old(T()), T()) && watches.Keys == old(watches.Keys)
      ensures qhead == |trail| && PropagatedTo(if confl == CRefUndef then qhead else LevelStart())
      ensures confl.CRef? ==> Conflicting(confl.id)
    {
      hide Entails, Propagated, TrailOk, WatchesOk, SameLits, SameDb, Grew;
      confl := CRefUndef;
      CleanAll();
      LinkedSizes(T(), ca);
      SameDbRefl(ca);
      GrewRefl(T());
      TrailBound(T());
      while qhead < |trail|
        invariant Fit() && Entailment(F) && SameDb(old(ca), ca) && Grew(old(T()), T())
        invariant watches.Keys == old(watches.Keys)
        invariant QueueNow() && |trail| <= |assigns| && dirty == {}
        invariant PropagatedTo(if confl == CRefUndef then qhead else LevelStart())
        invariant confl.CRef? ==> Conflicting(confl.id) && qhead == |trail|
        decreases |assigns| - qhead
      {
        ghost var t, c := T(), ca;
        LinkedSizes(t, c);
        confl := PropagateNext(F);
        GrewTrans(old(T()), t, T());
        SameDbTrans(old(ca), c, ca);
        LinkedSizes(T(), ca);
        TrailBound(T());
        GrewSize(t, T());
      }
    }
  
    // ------------------------------------------------------------- backtracking

    /** Every unassigned decision variable is in the heap. */
    ghost predicate HeapOk()
      reads this`assigns, this`decision, this`polarity, orderHeap
    {
      && orderHeap.Valid() && |orderHeap.activity| == |assigns| == |decision| == |polarity|
      && (forall x :: 0 <= x < |assigns| && decision[x] ==> x < |orderHeap.indices|)
      && (forall x :: 0 <= x < |assigns| && decision[x] && assigns[x] == LUndef ==> orderHeap.InHeap(x))
    }

    /** The heap is in order but for x, which has been taken out of it. */
    ghost predicate HeapOkBut(x: nat)
      reads this`assigns, this`decision, this`polarity, orderHeap
    {
      && orderHeap.Valid() && |orderHeap.activity| == |assigns| == |decision| == |polarity|
      && (forall y :: 0 <= y < |assigns| && decision[y] ==> y < |orderHeap.indices|)
      && (forall y :: 0 <= y < |assigns| && y != x && decision[y] && assigns[y] == LUndef ==> orderHeap.InHeap(y))
    }

    method InsertVarOrder(x: nat)
      requires orderHeap.Valid() && x < |orderHeap.activity| && x < |decision|
      modifies orderHeap`heap, orderHeap`indices
      ensures orderHeap.Valid() && |orderHeap.indices| >= |old(orderHeap.indices)|
      ensures forall y: nat :: orderHeap.InHeap(y) <==> old(orderHeap.InHeap(y)) || (y == x && decision[x])
    {
      if !orderHeap.InHeap(x) && decision[x] { orderHeap.Insert(x); }
    }

    /** Unassigns the literals from place lo of the trail on, last first. */
    method UnassignFrom(lo: nat)
      requires Linked(T()) && HeapOk() && lo <= |trail|
      modifies this`assigns, this`polarity, orderHeap`heap, orderHeap`indices
      ensures HeapOk() && |assigns| == |old(assigns)|
      ensures forall x :: 0 <= x < |assigns| ==> assigns[x] == if pos[x] >= lo then LUndef else old(assigns)[x]
    {
      var c := |trail|;
      while c > lo
        invariant lo <= c <= |trail| && |assigns| == |old(assigns)|
        invariant forall x :: 0 <= x < |assigns| ==> assigns[x] == if pos[x] >= c then LUndef else old(assigns)[x]
        invariant HeapOk()
      {
        c := c - 1;
        var x := trail[c].v;
        assigns := assigns[x := LUndef];
        if phaseSaving > 1 || (phaseSaving == 1 && trailLim != [] && c > trailLim[|trailLim| - 1]) {
          polarity := polarity[x := !trail[c].pos];
        }
        InsertVarOrder(x);
      }
    }

    /** Unassigns everything above the level. */
    method CancelUntil(lv: nat)
      requires TrailOk(T(), ca) && HeapOk() && qhead <= |trail|
      modifies this`assigns, this`trail, this`trailLim, this`qhead, this`polarity, orderHeap`heap, orderHeap`indices
      ensures HeapOk() && qhead <= |trail|
      ensures if old(|trailLim|) > lv then T() == Cancel(old(T()), lv) && qhead == |trail|
              else T() == old(T()) && qhead == old(qhead)
    {
      hide Reasoned;
      if |trailLim| > lv {
        UnassignFrom(trailLim[lv]);
        qhead := trailLim[lv];
        trail := trail[..trailLim[lv]];
        trailLim := trailLim[..lv];
      }
    }
  
    // -------------------------------------------------------- conflict analysis

    method VarBumpActivity(v: nat)
      requires HeapOk() && v < |assigns| && varInc >= 0.0
      modifies orderHeap
      ensures HeapOk()
      ensures orderHeap.activity == old(orderHeap.activity)[v := old(orderHeap.activity)[v] + varInc]
    {
      orderHeap.Bump(v, varInc);
    }

    /** Marks the literals of a clause from number `from` on: those of the current level
        are counted, the others collected. */
    method MarkClause(cr: nat, from: nat, out: seq<L>, pathC: nat, ghost bound: nat) returns (out2: seq<L>, pathC2: nat)
      requires TrailOk(T(), ca) && HeapOk() && varInc >= 0.0 && trailLim != []
      requires Collecting(T(), seen, out, pathC, bound) && cr < |ca| && from <= |ca[cr]|
      requires forall j :: from <= j < |ca[cr]| ==> IsFalse(T(), ca[cr][j]) && PosOf(T(), ca[cr][j]) < bound
      modifies this`seen, orderHeap
      ensures HeapOk() && Collecting(T(), seen, out2, pathC2, bound)
      ensures forall x :: old(IsSeen(seen, x)) ==> IsSeen(seen, x)
      ensures forall j :: from <= j < |ca[cr]| ==> LevelOf(T(), ca[cr][j]) == 0 || IsSeen(seen, ca[cr][j].v)
      ensures MarkedBy(T(), old(seen), seen, ca[cr], from)
    {
      hide TrailOk, Collecting, HeapOk, MarkedBy;
      out2, pathC2 := out, pathC;
      MarkedByNone(T(), seen, ca[cr], from);
      var j := from;
      while j < |ca[cr]|
        invariant from <= j <= |ca[cr]|
        invariant HeapOk() && Collecting(T(), seen, out2, pathC2, bound)
        invariant forall x :: old(IsSeen(seen, x)) ==> IsSeen(seen, x)
        invariant forall k :: from <= k < j ==> LevelOf(T(), ca[cr][k]) == 0 || IsSeen(seen, ca[cr][k].v)
        invariant MarkedBy(T(), old(seen), seen, ca[cr][..j], from)
        modifies this`seen, orderHeap
      {
        var q := ca[cr][j];
        FalseInRange(T(), ca, seen, out2, pathC2, bound, q);
        MarkedByNext(T(), old(seen), seen, ca[cr], from, j);
        assert seen[q.v] ==> seen[q.v := true] == seen;
        if !seen[q.v] && level[q.v] > 0 {
          VarBumpActivity(q.v);
          if level[q.v] >= |trailLim| {
            MarkHigh(T(), ca, seen, out2, pathC2, bound, q);
            pathC2 := pathC2 + 1;
          } else {
            MarkLow(T(), ca, seen, out2, pathC2, bound, q);
            out2 := out2 + [q];
          }
          seen := seen[q.v := true];
        }
        j := j + 1;
      }
      assert ca[cr][..j] == ca[cr];
    }

    /** The last marked place before `bound`. */
    method LastMarked(bound: nat) returns (i: nat)
      requires TrailOk(T(), ca) && |seen| == |assigns| && bound <= |trail|
      requires exists k :: 0 <= k < bound && IsSeen(seen, trail[k].v)
      ensures i < bound && IsSeen(seen, trail[i].v) && forall k :: i < k < bound ==> !IsSeen(seen, trail[k].v)
    {
      ghost var w :| 0 <= w < bound && IsSeen(seen, trail[w].v);
      i := bound - 1;
      while !seen[trail[i].v]
        invariant w <= i < bound && forall k :: i < k < bound ==> !IsSeen(seen, trail[k].v)
        decreases i
      {
        i := i - 1;
      }
    }

    /** Chooses the last open literal, and takes its mark off. */
    method TakeLast(out: seq<L>, pathC: nat, bound: nat, ghost F: Cnfs, ghost c: seq<L>) returns (i: nat)
      requires TrailOk(T(), ca) && trailLim != [] && bound <= |trail| && pathC > 0
      requires Collecting(T(), seen, out, pathC, bound) && EntailsSet(F, Marked(T(), seen))
      requires MarksMet(T(), ca, c, bound, bound, seen)
      requires forall m :: bound <= m < |trail| ==> !IsUip(T(), ca, c, m)
      modifies this`seen
      ensures i < bound && Resolving(F, T(), ca, c, seen, out, pathC - 1, i)
    {
      hide EntailsSet, Reasoned, MarksMet, Reached, IsUip;
      OpenExists(T(), seen, out, pathC, bound);
      i := LastMarked(bound);
      HighLevels(T(), ca);
      TakenIsMet(T(), ca, c, bound, i, seen);
      NoUips(T(), ca, c, i, bound);
      LastIsOpen(T(), ca, seen, out, pathC, bound, i);
      LowIsNotOpen(T(), ca, seen, out, i);
      CloseLast(T(), seen, out, pathC, bound, i);
      Unmark(F, T(), seen, i);
      seen := seen[trail[i].v := false];
    }

    /** Resolves the conflicting clause with reasons until one literal of the current level
        is left: the first unique implication point. */
    method FindUip(confl: nat, ghost F: Cnfs) returns (p: L, out: seq<L>)
      requires TrailOk(T(), ca) && DbOk(ca, |assigns|) && HeapOk() && varInc >= 0.0 && trailLim != []
      requires Entailment(F) && Conflicting(confl) && |seen| == |assigns| && SeenClear(seen)
      modifies this`seen, orderHeap
      ensures HeapOk() && SeenOk(T(), seen) && Low(T(), seen, out) && |seen| == |assigns|
      ensures IsFalse(T(), p) && LevelOf(T(), p) == |trailLim| && forall k :: 0 <= k < |out| ==> out[k].v != p.v
      ensures EntailsSet(F, Marked(T(), seen) + {p})
      ensures forall x :: IsSeen(seen, x) ==> x in Vars(out)
      ensures FirstUip(T(), ca, ca[confl], PosOf(T(), p))
      ensures MarksMet(T(), ca, ca[confl], PosOf(T(), p) + 1, PosOf(T(), p), seen)
    {
      hide TrailOk, HeapOk, SeenOk, Low, EntailsSet, FirstUip, MarksMet, Resolving, DbOk, Entails, AllEntailed;
      hide RootsEntailed;
      var i: nat;
      i, out := ResolveAll(confl, F);
      ResolvingEnds(F, T(), ca, ca[confl], seen, out, i);
      p := trail[i].Neg();
    }

    method ResolveAll(confl: nat, ghost F: Cnfs) returns (i: nat, out: seq<L>)
      requires TrailOk(T(), ca) && DbOk(ca, |assigns|) && HeapOk() && varInc >= 0.0 && trailLim != []
      requires Entailment(F) && Conflicting(confl) && |seen| == |assigns| && SeenClear(seen)
      modifies this`seen, orderHeap
      ensures HeapOk() && Resolving(F, T(), ca, ca[confl], seen, out, 0, i)
    {
      hide TrailOk, HeapOk, SeenClear, SeenOk, Low, EntailsSet, MarksMet, Resolving, Collecting, DbOk, Entails;
      hide AllEntailed, RootsEntailed, IsUip;
      var pathC: nat;
      out, pathC := MarkConflict(confl, F);
      i := TakeLast(out, pathC, |trail|, F, ca[confl]);
      pathC := pathC - 1;
      while pathC > 0
        invariant HeapOk() && Resolving(F, T(), ca, ca[confl], seen, out, pathC, i)
        modifies this`seen, orderHeap
        decreases i
      {
        out, pathC := ResolveWithReason(i, out, pathC, F, ca[confl]);
        i := TakeLast(out, pathC, i, F, ca[confl]);
        pathC := pathC - 1;
      }
    }

    /** Marks the literals of the conflicting clause; some are of the current level. */
    method MarkConflict(confl: nat, ghost F: Cnfs) returns (out: seq<L>, pathC: nat)
      requires TrailOk(T(), ca) && DbOk(ca, |assigns|) && HeapOk() && varInc >= 0.0 && trailLim != []
      requires Entailment(F) && Conflicting(confl) && |seen| == |assigns| && SeenClear(seen)
      modifies this`seen, orderHeap
      ensures HeapOk() && pathC > 0 && Collecting(T(), seen, out, pathC, |trail|)
      ensures EntailsSet(F, Marked(T(), seen)) && MarksMet(T(), ca, ca[confl], |trail|, |trail|, seen)
    {
      hide TrailOk, Entails, EntailsSet, HeapOk, Collecting, Low, RootsEntailed, AllEntailed, SeenOk, MarksMet, MarkedBy;
      LinkedSizes(T(), ca);
      NothingMarked(T(), seen, |trail|);
      ConflictPlaces(T(), ca[confl]);
      out, pathC := MarkClause(confl, 0, [], 0, |trail|);
      MarkedByStart(T(), ca, old(seen), seen, ca[confl]);
      ClauseEntailed(F, ca, confl);
      StartResolvent(F, T(), ca[confl], seen);
      SomethingOpen(T(), ca, seen, out, pathC, |trail|, ca[confl][1]);
    }

    method ResolveWithReason(i: nat, out: seq<L>, pathC: nat, ghost F: Cnfs, ghost c: seq<L>)
      returns (out2: seq<L>, pathC2: nat)
      requires TrailOk(T(), ca) && HeapOk() && varInc >= 0.0 && trailLim != []
      requires Entailment(F) && pathC > 0 && Resolving(F, T(), ca, c, seen, out, pathC, i)
      modifies this`seen, orderHeap
      ensures HeapOk() && pathC2 > 0 && i < |trail| && Collecting(T(), seen, out2, pathC2, i)
      ensures EntailsSet(F, Marked(T(), seen)) && MarksMet(T(), ca, c, i, i, seen)
      ensures forall m :: i <= m < |trail| ==> !IsUip(T(), ca, c, m)
    {
      hide TrailOk, Entails, EntailsSet, HeapOk, Collecting, RootsEntailed, Implied, Reached, MarksMet, MarkedBy, IsUip;
      OpenIsNoUip(T(), ca, c, seen, out, pathC, i);
      OpenBelow(T(), ca, seen, out, pathC, i);
      var cr := reason[trail[i].v].id;
      ReasonPlaces(T(), ca, i);
      ghost var was := seen;
      out2, pathC2 := MarkClause(cr, 1, out, pathC, i);
      assert Entails(F, ca[cr]);
      LinkedSizes(T(), ca);
      MarkedByReason(T(), ca, c, i, was, seen);
      Resolve(F, T(), ca[cr], was, seen);
      StillOpen(T(), was, out, pathC, seen, out2, pathC2, i);
    }
  
    /** Level modulo 32, as in the 32-bit abstraction of a set of levels. */
    function AbstractLevel(x: nat): nat
      requires x < |level|
      reads this`level
    {
      level[x] % 32
    }

    /** A literal of the reason of q: marked already, or marked and stacked now, or a
        cause to give up. */
    method VisitLiteral(l: L, ghost q: L, ghost j: nat, abstractLevels: set<nat>, stack: seq<L>,
          ghost was: seq<bool>, ghost top: nat, ghost p: nat)
      returns (stack2: seq<L>, fine: bool)
      requires TrailOk(T(), ca) && Searching(T(), ca, was, seen, analyzeToclear, top, p, stack + [q]) && IsFalse(T(), l)
      requires Tracing(T(), ca, was, seen, abstractLevels, p, stack + [q])
      requires q.v < |reason| && reason[q.v].CRef? && reason[q.v].id < |ca|
      requires 1 <= j < |ca[reason[q.v].id]| && ca[reason[q.v].id][j] == l
      modifies this`seen, this`analyzeToclear
      ensures Searching(T(), ca, was, seen, analyzeToclear, top, p, stack2 + [q])
      ensures |analyzeToclear| >= |old(analyzeToclear)| && analyzeToclear[..|old(analyzeToclear)|] == old(analyzeToclear)
      ensures |Unseen(seen)| < |Unseen(old(seen))| || (seen == old(seen) && stack2 == stack)
      ensures forall x :: old(IsSeen(seen, x)) ==> IsSeen(seen, x)
      ensures fine ==> LevelOf(T(), l) == 0 || IsSeen(seen, l.v)
      ensures fine ==> Tracing(T(), ca, was, seen, abstractLevels, p, stack2 + [q])
      ensures !fine ==> !Redundant(T(), ca, was, abstractLevels, p)
    {
      hide TrailOk, Searching, Closed, Tracing, Redundant;
      SearchFacts(T(), ca, was, seen, analyzeToclear, top, p, stack + [q]);
      LinkedSizes(T(), ca);
      stack2, fine := stack, true;
      if !seen[l.v] && level[l.v] > 0 {
        if reason[l.v].CRef? && AbstractLevel(l.v) in abstractLevels {
          MarkShrinks(seen, l.v);
          TracingMark(T(), ca, was, seen, abstractLevels, p, stack, q, j);
          SearchMark(T(), ca, was, seen, analyzeToclear, top, p, stack, q, l);
          seen := seen[l.v := true];
          stack2 := stack + [l];
          analyzeToclear := analyzeToclear + [l];
        } else {
          TracingStops(T(), ca, was, seen, abstractLevels, p, stack, q, j);
          fine := false;
        }
      }
    }

    /** Marks and stacks the literals of the reason of q; gives up at one that has no
        reason, or whose level does not occur in the clause. */
    method ScanReason(q: L, abstractLevels: set<nat>, stack: seq<L>, ghost was: seq<bool>, ghost top: nat, ghost p: nat)
      returns (stack2: seq<L>, fine: bool)
      requires TrailOk(T(), ca) && Searching(T(), ca, was, seen, analyzeToclear, top, p, stack + [q])
      requires Tracing(T(), ca, was, seen, abstractLevels, p, stack + [q])
      modifies this`seen, this`analyzeToclear
      ensures |analyzeToclear| >= |old(analyzeToclear)| && analyzeToclear[..|old(analyzeToclear)|] == old(analyzeToclear)
      ensures fine ==> Searching(T(), ca, was, seen, analyzeToclear, top, p, stack2)
      ensures fine ==> |Unseen(seen)| < |Unseen(old(seen))| || (seen == old(seen) && stack2 == stack)
      ensures !fine ==> Searching(T(), ca, was, seen, analyzeToclear, top, p, stack2 + [q])
      ensures if fine then Tracing(T(), ca, was, seen, abstractLevels, p, stack2) else !Redundant(T(), ca, was, abstractLevels, p)
    {
      hide TrailOk, Searching, Closed, Unseen, Tracing, Redundant;
      StackTop(T(), ca, was, seen, analyzeToclear, top, p, stack, q);
      QHasReason(T(), ca, q);
      var cr := reason[q.v].id;
      stack2, fine := stack, true;
      var i := 1;
      while i < |ca[cr]| && fine
        invariant 1 <= i <= |ca[cr]|
        invariant |analyzeToclear| >= |old(analyzeToclear)|
        invariant analyzeToclear[..|old(analyzeToclear)|] == old(analyzeToclear)
        invariant Searching(T(), ca, was, seen, analyzeToclear, top, p, stack2 + [q])
        invariant if fine then Tracing(T(), ca, was, seen, abstractLevels, p, stack2 + [q]) else !Redundant(T(), ca, was, abstractLevels, p)
        invariant fine ==> forall k :: 1 <= k < i ==> LevelOf(T(), ca[cr][k]) == 0 || IsSeen(seen, ca[cr][k].v)
        invariant |Unseen(seen)| < |Unseen(old(seen))| || (seen == old(seen) && stack2 == stack)
        decreases |ca[cr]| - i
      {
        stack2, fine := VisitLiteral(ca[cr][i], q, i, abstractLevels, stack2, was, top, p);
        i := i + 1;
      }
      if fine {
        SearchClosed(T(), ca, was, seen, analyzeToclear, top, p, stack2, q);
        TracingPop(T(), ca, was, seen, abstractLevels, p, stack2, q);
      }
    }

    /** Can the false literal p be left out, because its reason and the reasons of those
        lead to marked literals only? */
    method LitRedundant(p: L, abstractLevels: set<nat>) returns (redundant: bool)
      requires TrailOk(T(), ca) && SeenOk(T(), seen) && Covered(seen, analyzeToclear)
      requires forall k :: 0 <= k < |analyzeToclear| ==> analyzeToclear[k].v < |seen|
      requires IsFalse(T(), p) && p.v < |reason| && reason[p.v].CRef? && IsSeen(seen, p.v)
      modifies this`seen, this`analyzeToclear
      ensures redundant <==> Redundant(T(), ca, old(seen), abstractLevels, p.v)
      ensures MarksFollow(T(), ca, old(seen), seen, abstractLevels)
      ensures |seen| == |old(seen)| && SeenOk(T(), seen) && Covered(seen, analyzeToclear)
      ensures forall k :: 0 <= k < |analyzeToclear| ==> analyzeToclear[k].v < |seen|
      ensures !redundant ==> seen == old(seen) && analyzeToclear == old(analyzeToclear)
      ensures redundant ==> Pending(T(), ca, old(seen), seen, p.v, {}) && forall x :: IsSeen(old(seen), x) ==> IsSeen(seen, x)
    {
      hide TrailOk, Searching, SeenOk, Closed, Pending, Tracing, Redundant, MarksFollow;
      var stack := [p];
      var top := |analyzeToclear|;
      SearchStart(T(), ca, seen, analyzeToclear, p);
      TracingStart(T(), ca, seen, abstractLevels, p);
      while stack != []
        invariant Searching(T(), ca, old(seen), seen, analyzeToclear, top, p.v, stack)
        invariant Tracing(T(), ca, old(seen), seen, abstractLevels, p.v, stack)
        invariant |analyzeToclear| >= top && analyzeToclear[..top] == old(analyzeToclear)
        decreases |Unseen(seen)|, |stack|
      {
        var q := stack[|stack| - 1];
        assert stack == stack[..|stack| - 1] + [q];
        var fine;
        stack, fine := ScanReason(q, abstractLevels, stack[..|stack| - 1], old(seen), top, p.v);
        if !fine {
          SearchFacts(T(), ca, old(seen), seen, analyzeToclear, top, p.v, stack + [q]);
          UnmarkFrom(top, old(seen));
          NoMoreMarks(T(), ca, seen, abstractLevels);
          return false;
        }
      }
      SearchEnd(T(), ca, old(seen), seen, analyzeToclear, top, p.v, stack);
      PendingNone(T(), ca, old(seen), seen, p.v);
      TracingEnds(T(), ca, old(seen), seen, abstractLevels, p);
      redundant := true;
    }

    /** Takes back the marks logged from `top` on. */
    method UnmarkFrom(top: nat, ghost was: seq<bool>)
      requires Logged(was, seen, analyzeToclear, top)
      modifies this`seen, this`analyzeToclear
      ensures seen == was && analyzeToclear == old(analyzeToclear[..top])
    {
      hide Logged, Unmarked;
      LoggedSizes(was, seen, analyzeToclear, top);
      UnmarkStart(seen, analyzeToclear, top);
      var j := top;
      while j < |analyzeToclear|
        invariant top <= j <= |analyzeToclear| && analyzeToclear == old(analyzeToclear)
        invariant Unmarked(old(seen), seen, analyzeToclear, top, j)
      {
        UnmarkStep(old(seen), seen, analyzeToclear, top, j);
        seen := seen[analyzeToclear[j].v := false];
        j := j + 1;
      }
      LoggedBack(was, old(seen), analyzeToclear, top, seen);
      analyzeToclear := analyzeToclear[..top];
    }
  
    /** Do all other literals of the reason of x occur in the clause already? */
    predicate LocallyRedundant(x: nat)
      requires x < |reason| && reason[x].CRef? && reason[x].id < |ca| && |reason| == |level|
      reads this`reason, this`ca, this`seen, this`level
    {
      forall k :: 1 <= k < |ca[reason[x].id]| ==>
        var l := ca[reason[x].id][k]; l.v >= |level| || level[l.v] == 0 || IsSeen(seen, l.v)
    }

    /** Leaves out the collected literals that follow from the others: thoroughly in mode
        2, by their own reasons only in mode 1, none in mode 0. */
    method Minimise(out: seq<L>) returns (kept: seq<L>)
      requires TrailOk(T(), ca) && SeenOk(T(), seen) && Low(T(), seen, out)
      requires Covered(seen, analyzeToclear) && forall k :: 0 <= k < |analyzeToclear| ==> analyzeToclear[k].v < |seen|
      requires forall x :: IsSeen(seen, x) ==> x in Vars(out)
      modifies this`seen, this`analyzeToclear
      ensures |seen| == |old(seen)| && Covered(seen, analyzeToclear)
      ensures forall k :: 0 <= k < |analyzeToclear| ==> analyzeToclear[k].v < |seen|
      ensures forall x :: IsSeen(old(seen), x) ==> IsSeen(seen, x)
      ensures Chosen(kept, out, |out|) && ClosedBut(T(), ca, seen, Vars(kept))
      ensures kept == Essential(T(), ca, old(seen), LevelsOf(T(), old(seen)), ccminMode, out)
    {
      hide TrailOk, SeenOk, Covered, ClosedBut, Vars, Chosen, Essential, MarksFollow, LevelsOf;
      ghost var was := seen;
      assert forall k :: 0 <= k < |out| ==> IsFalse(T(), out[k]);
      kept := [];
      var abstractLevels := set l | l in out && l.v < |level| :: AbstractLevel(l.v);
      ClosedButStart(T(), ca, seen, out);
      ChosenNone(out);
      LevelsCollected(T(), ca, seen, out);
      assert abstractLevels == LevelsOf(T(), seen);
      NoMoreMarks(T(), ca, seen, abstractLevels);
      NothingEssential(T(), ca, seen, abstractLevels, ccminMode);
      assert out[..0] == [];
      var i := 0;
      while i < |out|
        invariant i <= |out| && |seen| == |was| && SeenOk(T(), seen) && Covered(seen, analyzeToclear)
        invariant forall k :: 0 <= k < |analyzeToclear| ==> analyzeToclear[k].v < |seen|
        invariant forall x :: IsSeen(was, x) ==> IsSeen(seen, x)
        invariant Chosen(kept, out, i) && ClosedBut(T(), ca, seen, Vars(kept) + Vars(out[i..]))
        invariant if ccminMode == 2 then MarksFollow(T(), ca, was, seen, abstractLevels) else seen == was
        invariant kept == Essential(T(), ca, was, abstractLevels, ccminMode, out[..i])
        modifies this`seen, this`analyzeToclear
      {
        Choose(T(), was, kept, out, i);
        EssentialNext(T(), ca, was, abstractLevels, ccminMode, out, i);
        kept := KeepOrDrop(out, i, kept, abstractLevels, was);
        i := i + 1;
      }
      assert out[..i] == out;
      VarsNone(out[i..]);
      assert Vars(kept) + {} == Vars(kept);
    }

    method KeepOrDrop(out: seq<L>, i: nat, kept: seq<L>, abstractLevels: set<nat>, ghost was: seq<bool>) returns (kept2: seq<L>)
      requires TrailOk(T(), ca) && SeenOk(T(), seen) && i < |out| && IsFalse(T(), out[i])
      requires Covered(seen, analyzeToclear) && forall k :: 0 <= k < |analyzeToclear| ==> analyzeToclear[k].v < |seen|
      requires ClosedBut(T(), ca, seen, Vars(kept) + Vars(out[i..])) && IsSeen(was, out[i].v)
      requires if ccminMode == 2 then MarksFollow(T(), ca, was, seen, abstractLevels) else seen == was
      requires forall x :: IsSeen(was, x) ==> IsSeen(seen, x)
      modifies this`seen, this`analyzeToclear
      ensures if ccminMode == 2 then MarksFollow(T(), ca, was, seen, abstractLevels) else seen == was
      ensures kept2 == kept + if Dispensable(T(), ca, was, abstractLevels, ccminMode, out[i]) then [] else [out[i]]
      ensures |seen| == |old(seen)| && SeenOk(T(), seen) && Covered(seen, analyzeToclear)
      ensures forall k :: 0 <= k < |analyzeToclear| ==> analyzeToclear[k].v < |seen|
      ensures forall x :: IsSeen(old(seen), x) ==> IsSeen(seen, x)
      ensures ClosedBut(T(), ca, seen, Vars(kept2) + Vars(out[i + 1..]))
      ensures kept2 == kept || kept2 == kept + [out[i]]
    {
      hide TrailOk, SeenOk, Covered, ClosedBut, Vars, MarksFollow, Redundant;
      LinkedSizes(T(), ca);
      var l := out[i];
      NoReasonNeeded(T(), ca, was, abstractLevels, ccminMode, l);
      VarsHead(out, i);
      VarsPush(kept, l);
      assert Vars(kept + [l]) + Vars(out[i + 1..]) == Vars(kept) + Vars(out[i..]);
      assert Vars(kept) + Vars(out[i..]) == Vars(kept) + Vars(out[i + 1..]) + {l.v};
      kept2 := kept + [l];
      if reason[l.v].CRef? {
        QHasReason(T(), ca, l);
        if ccminMode == 2 {
          ghost var mid := seen;
          RedundantSame(T(), ca, was, mid, abstractLevels, l.v);
          var redundant := LitRedundant(l, abstractLevels);
          MarksFollowMore(T(), ca, was, mid, seen, abstractLevels);
          if redundant {
            DropRedundant(T(), ca, mid, seen, l.v, Vars(kept) + Vars(out[i + 1..]));
            kept2 := kept;
          }
        } else if ccminMode == 1 && LocallyRedundant(l.v) {
          PendingSelf(T(), ca, seen, l.v);
          DropRedundant(T(), ca, seen, seen, l.v, Vars(kept) + Vars(out[i + 1..]));
          kept2 := kept;
        }
      }
    }

    /** The level to return to, and a literal of that level in second place. */
    method FindBtLevel(c: seq<L>) returns (learnt: seq<L>, btLevel: nat)
      requires LearntSoFar(T(), c) && |level| == |assigns|
      ensures LearntOk(T(), learnt, btLevel) && SameLits(c, learnt) && learnt[0] == c[0]
    {
      learnt, btLevel := c, 0;
      if |c| > 1 {
        var maxI := 1;
        var i := 2;
        while i < |c|
          invariant 1 <= maxI < i <= |c| && forall k :: 1 <= k < i ==> LevelOf(T(), c[k]) <= LevelOf(T(), c[maxI])
        {
          if level[c[i].v] > level[c[maxI].v] { maxI := i; }
          i := i + 1;
        }
        SwapAtSame(c, 1, maxI);
        learnt := SwapAt(c, 1, maxI);
        btLevel := level[c[maxI].v];
      }
    }

    method ClearSeen()
      requires Covered(seen, analyzeToclear) && forall k :: 0 <= k < |analyzeToclear| ==> analyzeToclear[k].v < |seen|
      modifies this`seen
      ensures |seen| == |old(seen)| && SeenClear(seen)
    {
      var j := 0;
      while j < |analyzeToclear|
        invariant j <= |analyzeToclear| && Unmarked(old(seen), seen, analyzeToclear, 0, j)
      {
        UnmarkStep(old(seen), seen, analyzeToclear, 0, j);
        seen := seen[analyzeToclear[j].v := false];
        j := j + 1;
      }
      assert analyzeToclear[0..j] == analyzeToclear;
      assert forall x :: 0 <= x < |seen| && old(seen)[x] ==> old(IsSeen(seen, x));
    }

    /** Learns a clause from a conflict: entailed, false now, and unit after returning to
        the level btLevel.  All marks are gone again afterwards. */
    method Analyze(confl: nat, ghost F: Cnfs) returns (learnt: seq<L>, btLevel: nat, ghost marks: seq<bool>)
      requires TrailOk(T(), ca) && DbOk(ca, |assigns|) && HeapOk() && varInc >= 0.0 && trailLim != []
      requires Entailment(F) && Conflicting(confl) && |seen| == |assigns| && SeenClear(seen)
      modifies this`seen, this`analyzeToclear, orderHeap
      ensures HeapOk() && |seen| == |assigns| && SeenClear(seen)
      ensures LearntOk(T(), learnt, btLevel) && Entails(F, learnt)
      ensures LearntFrom(T(), ca, ca[confl], ccminMode, marks, learnt)
    {
      hide TrailOk, DbOk, HeapOk, Entails, EntailsSet, RootsEntailed, Low, SeenOk, SeenClear, ClosedBut, Chosen;
      hide Covered, LearntOk, LearntSoFar;
      hide FirstUip, MarksMet, LevelsOf, Essential, LearntFrom, SameLits, AllEntailed;
      var p, out := FindUip(confl, F);
      LinkedSizes(T(), ca);
      marks := seen;
      StartClear(T(), seen, p, out);
      analyzeToclear := [p] + out;
      var kept := Minimise(out);
      LearntStart(T(), marks, p, out, kept);
      learnt, btLevel := FindBtLevel([p] + kept);
      LearntGood(F, T(), ca, ca[confl], ccminMode, marks, seen, p, out, kept, learnt);
      ClearSeen();
    }
  
    /** Marks the other literals of a reason that are above the root level. */
    method MarkReason(cr: nat, ghost i: nat, ghost p: nat)
      requires TrailOk(T(), ca) && FinalMarks(T(), seen, i, p) && cr < |ca|
      requires forall j :: 1 <= j < |ca[cr]| ==> IsFalse(T(), ca[cr][j]) && PosOf(T(), ca[cr][j]) < i
      modifies this`seen
      ensures FinalMarks(T(), seen, i, p) && forall x :: IsSeen(old(seen), x) ==> IsSeen(seen, x)
      ensures forall j :: 1 <= j < |ca[cr]| ==> LevelOf(T(), ca[cr][j]) == 0 || IsSeen(seen, ca[cr][j].v)
      ensures MarkedBy(T(), old(seen), seen, ca[cr], 1)
    {
      hide Levelled, Reasoned, MarkedBy;
      var j := 1;
      MarkedByEmpty(T(), seen);
      if |ca[cr]| >= 1 { MarkedByNone(T(), seen, ca[cr], 1); }
      while j < |ca[cr]|
        invariant (j <= |ca[cr]| && MarkedBy(T(), old(seen), seen, ca[cr][..j], 1)) || (ca[cr] == [] && seen == old(seen))
        invariant FinalMarks(T(), seen, i, p) && forall x :: IsSeen(old(seen), x) ==> IsSeen(seen, x)
        invariant forall k :: 1 <= k < j && k < |ca[cr]| ==> LevelOf(T(), ca[cr][k]) == 0 || IsSeen(seen, ca[cr][k].v)
      {
        assert IsFalse(T(), ca[cr][j]);
        MarkedByNext(T(), old(seen), seen, ca[cr], 1, j);
        if level[ca[cr][j].v] > 0 { seen := seen[ca[cr][j].v := true]; }
        j := j + 1;
      }
      assert ca[cr] != [] ==> ca[cr][..j] == ca[cr];
    }

    /** Resolves the marked literal at place i away, or keeps it if it is a decision. */
    method FinalStep(i: nat, ghost F: Cnfs, ghost q: L)
      requires TrailOk(T(), ca) && Entailment(F) && i < |trail| && FinalMarks(T(), seen, i + 1, q.v)
      requires FinalMet(T(), ca, q, i + 1, seen) && FinalFrom(T(), ca, q, i + 1, conflict)
      requires IsSeen(seen, trail[i].v) && trailLim != [] && trailLim[0] <= i
      requires EntailsSet(F, Elements(conflict) + MarkedBelow(T(), seen, i + 1))
      modifies this`seen, this`conflict
      ensures FinalMarks(T(), seen, i, q.v) && EntailsSet(F, Elements(conflict) + MarkedBelow(T(), seen, i))
      ensures FinalMet(T(), ca, q, i, seen) && FinalFrom(T(), ca, q, i, conflict)
      ensures conflict == old(conflict) || (conflict == old(conflict) + [trail[i].Neg()] && IsDecision(T(), i))
    {
      hide EntailsSet, MarkedBelow, Entails, RootsEntailed, FinalMet, FinalFrom, MarkedBy;
      TrailReasoned(T(), ca);
      FinalPlace(T(), ca, seen, i, q.v);
      var x := trail[i].v;
      if reason[x] == CRefUndef {
        FinalMetDecision(T(), ca, q, i, seen, conflict);
        DecisionBelow(F, T(), seen, i, Elements(conflict));
        assert Elements(conflict + [trail[i].Neg()]) == Elements(conflict) + {trail[i].Neg()};
        conflict := conflict + [trail[i].Neg()];
        seen := seen[x := false];
      } else {
        assert Implied(T(), ca, i);
        ReasonPlaces(T(), ca, i);
        ghost var was := seen;
        seen := seen[x := false];
        MarkReason(reason[x].id, i, q.v);
        FinalMetReason(T(), ca, q, i, was, seen, conflict);
        ResolveBelow(F, T(), ca, was, seen, i, Elements(conflict));
      }
    }

    /** Place i, if it is marked. */
    method FinalVisit(i: nat, ghost F: Cnfs, ghost p: L)
      requires TrailOk(T(), ca) && Entailment(F) && i < |trail| && FinalMarks(T(), seen, i + 1, p.v)
      requires trailLim != [] && trailLim[0] <= i && FinalLits(T(), conflict, p)
      requires EntailsSet(F, Elements(conflict) + MarkedBelow(T(), seen, i + 1))
      requires FinalMet(T(), ca, p, i + 1, seen) && FinalFrom(T(), ca, p, i + 1, conflict)
      modifies this`seen, this`conflict
      ensures FinalMet(T(), ca, p, i, seen) && FinalFrom(T(), ca, p, i, conflict)
      ensures FinalMarks(T(), seen, i, p.v) && EntailsSet(F, Elements(conflict) + MarkedBelow(T(), seen, i))
      ensures FinalLits(T(), conflict, p)
    {
      hide EntailsSet, MarkedBelow, Entails, Reasoned, FinalLits, RootsEntailed, Levelled, FinalMet, FinalFrom;
      TrailReasoned(T(), ca);
      if seen[trail[i].v] {
        ghost var was := conflict;
        FinalStep(i, F, p);
        if conflict != was { FinalLitsPush(T(), was, p, i); }
      } else {
        SkipPlace(F, T(), seen, i, Elements(conflict), p.v);
        FinalMetSkip(T(), ca, p, i, seen, conflict);
      }
    }

    /** Expresses the true literal p, the negation of an assumption, by the decisions that
        led to it: an entailed clause of p and negated decisions. */
    method AnalyzeFinal(p: L, ghost F: Cnfs)
      requires TrailOk(T(), ca) && Entailment(F) && |seen| == |assigns| && SeenClear(seen)
      requires Value(assigns, p) == LTrue
      modifies this`seen, this`conflict
      ensures |seen| == |assigns| && SeenClear(seen) && Entails(F, conflict) && FinalLits(T(), conflict, p)
      ensures FinalFrom(T(), ca, p, 0, conflict)
    {
      hide EntailsSet, MarkedBelow, Entails, Reasoned, Implied, RootsEntailed, FromDecision, FinalMet, FinalFrom;
      TrailReasoned(T(), ca);
      conflict := [p];
      FinalRoot(F, T(), ca, p);
      FinalAlone(T(), ca, p);
      if trailLim == [] { return; }
      seen := seen[p.v := true];
      FinalStart(F, T(), ca, seen, p);
      FinalMetStart(T(), ca, p, seen);
      var i := |trail|;
      while i > trailLim[0]
        invariant trailLim[0] <= i <= |trail| && FinalMarks(T(), seen, i, p.v) && FinalLits(T(), conflict, p)
        invariant EntailsSet(F, Elements(conflict) + MarkedBelow(T(), seen, i))
        invariant FinalMet(T(), ca, p, i, seen) && FinalFrom(T(), ca, p, i, conflict)
        modifies this`seen, this`conflict
      {
        i := i - 1;
        FinalVisit(i, F, p);
      }
      FinalEnd(F, T(), ca, seen, conflict, p);
      FinalAll(T(), ca, p, conflict);
      seen := seen[p.v := false];
    }
  
    // ----------------------------------------------------------- between queries

    /** Between queries: at the root level, with all facts propagated and nothing that was
        added forgotten, unless the clauses are already known to be unsatisfiable. */
    ghost predicate Valid()
      reads this, orderHeap
    {
      && Tidy() && trailLim == [] && qhead == |trail| && TrailOk(T(), ca)
      && (ok ==> GoodTo(|trail|)) && (!ok ==> Unsat(formula, []))
    }

    /** The arrays of the assignment and the order grow by one entry. */
    method GrowArrays(sign: bool, dvar: bool)
      requires HeapOk() && |level| == |reason| == |pos| == |assigns|
      modifies this`assigns, this`level, this`reason, this`pos, this`polarity, this`decision, orderHeap
      ensures HeapOk() && T() == Wider(old(T())) && decision == old(decision) + [dvar]
    {
      var v := |assigns|;
      assigns, level, reason, pos := assigns + [LUndef], level + [0], reason + [CRefUndef], pos + [0];
      polarity, decision := polarity + [sign], decision + [dvar];
      orderHeap.NewActivity();
      InsertVarOrder(v);
      assert dvar ==> orderHeap.InHeap(v);
    }

    method GrowAll(sign: bool, dvar: bool)
      requires HeapOk() && |level| == |reason| == |pos| == |assigns|
      modifies this`assigns, this`level, this`reason, this`pos, this`polarity, this`decision, orderHeap
      modifies this`watches, this`seen
      ensures HeapOk() && T() == Wider(old(T())) && decision == old(decision) + [dvar]
      ensures watches == old(watches)[Lit(|old(assigns)|, true) := []][Lit(|old(assigns)|, false) := []]
      ensures seen == old(seen) + [false]
    {
      hide HeapOk;
      var v := |assigns|;
      watches := watches[Lit(v, true) := []][Lit(v, false) := []];
      seen := seen + [false];
      GrowArrays(sign, dvar);
    }

    /** A new variable, free to be branched on if dvar says so. */
    method NewVar(sign: bool, dvar: bool) returns (v: nat)
      requires Valid()
      modifies this, orderHeap
      ensures Valid() && v == |old(assigns)| && |assigns| == v + 1 && ok == old(ok) && formula == old(formula)
      ensures decision == old(decision) + [dvar]
    {
      hide TrailOk, Good, StoreOk, Unsat, HeapOk, Wider;
      v := |assigns|;
      LinkedSizes(T(), ca);
      ExtendTrail(T(), ca);
      WiderSizes(T());
      WiderStore(watches, dirty, ca, deleted, clauses, learnts, v);
      if ok { WiderGood(formula, clauses, ca, deleted, T(), assumptions, |trail|); }
      GrowAll(sign, dvar);
    }

    // -------------------------------------------------------------- the search

    ghost predicate ListsOk()
      reads this`watches, this`dirty, this`ca, this`deleted, this`clauses, this`learnts, this`assigns, this`trail, this`qhead
    {
      StoreOk(watches, dirty, ca, deleted, clauses, learnts, |assigns|) && qhead <= |trail|
    }

    /** No variable is marked. */
    ghost predicate MarksOk()
      reads this`seen, this`assigns, this`varInc
    {
      |seen| == |assigns| && SeenClear(seen) && varInc >= 0.0
    }

    ghost predicate Tidy()
      reads this, orderHeap
    {
      ListsOk() && MarksOk() && HeapOk()
    }

    ghost predicate GoodTo(q: nat)
      reads this`formula, this`clauses, this`ca, this`deleted, this`assumptions
      reads this`assigns, this`level, this`reason, this`trail, this`trailLim, this`pos
    {
      Good(formula, clauses, ca, deleted, T(), assumptions, q)
    }

    /** The state before propagation. */
    ghost predicate Running()
      reads this, orderHeap
    {
      && Tidy() && GoodTo(qhead) && QueueNow()
      && (trailLim == [] || LevelStart() < |trail|) && |trail| <= |assigns|
    }

    method AttachClause(cr: nat)
      requires cr < |ca| && |ca[cr]| >= 2 && ca[cr][0].Neg() in watches && ca[cr][1].Neg() in watches
      requires ca[cr][0] != ca[cr][1]
      modifies this`watches
      ensures watches == Attach(old(watches), ca[cr], cr)
    {
      var c := ca[cr];
      watches := watches[c[0].Neg() := watches[c[0].Neg()] + [Watcher(cr, c[1])]];
      watches := watches[c[1].Neg() := watches[c[1].Neg()] + [Watcher(cr, c[0])]];
    }

    /** Stores a learnt clause of at least two literals. */
    method StoreLearnt(c: seq<L>) returns (cr: nat)
      requires StoreOk(watches, dirty, ca, deleted, clauses, learnts, |assigns|) && ClauseOk(c, |assigns|)
      modifies this`ca, this`learnts, this`watches
      ensures cr == |old(ca)| && ca == old(ca) + [c] && learnts == old(learnts) + [cr]
      ensures StoreOk(watches, dirty, ca, deleted, clauses, learnts, |assigns|)
    {
      hide WatchesOk, ListOk, DirtyOk;
      AttachLists(watches, ca, deleted, |assigns|, c);
      FreshNoDup(clauses, learnts, ca, deleted);
      cr := |ca|;
      AttachClean(watches, dirty, deleted, ca, c);
      ca := ca + [c];
      learnts := learnts + [cr];
      AttachClause(cr);
    }

    /** The learnt clause is unit here, with its first literal unassigned. */
    ghost predicate UnitHere(c: seq<L>)
      reads this`assigns, this`level, this`reason, this`trail, this`trailLim, this`pos
    {
      && c != [] && c[0].v < |assigns| && Value(assigns, c[0]) == LUndef
      && (forall j :: 1 <= j < |c| ==> Value(assigns, c[j]) == LFalse)
      && (|c| > 1 ==> ClauseOk(c, |assigns|) && LevelOf(T(), c[1]) == |trailLim| && trailLim != [] && LevelStart() < |trail|)
      && (|c| == 1 ==> trailLim == [])
    }

    /** Enqueues a literal for which the new state has just been shown to be good. */
    method EnqueueNow(p: L, from: CRef)
      requires ListsOk() && MarksOk() && (HeapOk() || HeapOkBut(p.v))
      requires qhead == |trail| && p.v < |assigns| == |level| == |reason| == |pos| && Value(assigns, p) == LUndef
      requires Good(formula, clauses, ca, deleted, Push(T(), p, from), assumptions, qhead)
      modifies this`assigns, this`level, this`reason, this`trail, this`pos
      ensures T() == Push(old(T()), p, from) && Tidy() && GoodTo(qhead) && QueueNow()
    {
      hide StoreOk, Linked, Levelled, Reasoned, Good, AllEntailed, Entails, RootsEntailed, LearntOk, Cancel, HeapOk;
      hide HeapOkBut, SeenClear, Height, ClauseOk, TrailOk, WatchesOk, DirtyOk, Propagated, Accounted, Assumed;
      hide Rooted, DbOk, Present;
      UncheckedEnqueue(p, from);
    }

    /** At the root level, a learnt literal is a fact. */
    method AddUnit(p: L)
      requires Tidy() && GoodTo(qhead) && qhead == |trail| && trailLim == []
      requires p.v < |assigns| && Value(assigns, p) == LUndef && Entails(formula, [p])
      modifies this`assigns, this`level, this`reason, this`trail, this`pos
      ensures |old(level)| == |old(reason)| == |old(pos)| == |old(assigns)| && T() == Push(old(T()), p, CRefUndef)
      ensures Tidy() && GoodTo(qhead) && QueueNow()
    {
      hide ListsOk, MarksOk, HeapOk, QueueNow, Good, Entails, Push, TrailOk, Linked, Levelled;
      GoodParts(formula, clauses, ca, deleted, T(), assumptions, qhead);
      GoodPush(formula, clauses, ca, deleted, T(), assumptions, qhead, p, CRefUndef);
      EnqueueNow(p, CRefUndef);
    }

    /** A learnt clause is stored, and implies its first literal. */
    method AddLearnt(learnt: seq<L>)
      requires Tidy() && GoodTo(qhead) && qhead == |trail| && UnitHere(learnt) && Entails(formula, learnt) && |learnt| > 1
      modifies this`assigns, this`level, this`reason, this`trail, this`pos, this`ca, this`learnts, this`watches
      ensures |old(level)| == |old(reason)| == |old(pos)| == |old(assigns)|
      ensures T() == Push(old(T()), learnt[0], CRef(|old(ca)|))
      ensures Tidy() && GoodTo(qhead) && QueueNow()
    {
      hide QueueNow, Good, Entails, Push, TrailOk, Linked, Levelled, StoreOk, HeapOk, SeenClear, AllEntailed;
      hide RootsEntailed, WatchesOk, DirtyOk, Propagated, Accounted, Assumed, Rooted, DbOk, Present;
      GoodParts(formula, clauses, ca, deleted, T(), assumptions, qhead);
      StoreParts(watches, dirty, ca, deleted, clauses, learnts, |assigns|);
      GoodLearn(formula, clauses, ca, deleted, T(), assumptions, learnt, qhead);
      var cr := StoreLearnt(learnt);
      EnqueueNow(learnt[0], CRef(cr));
    }

    /** Returns to the level and adds what was learnt: the trail, read as a number, grows. */
    method Backjump(learnt: seq<L>, btLevel: nat)
      requires Tidy() && GoodTo(LevelStart()) && |trail| <= |assigns|
      requires LearntOk(T(), learnt, btLevel) && Entails(formula, learnt)
      modifies this`assigns, this`level, this`reason, this`trail, this`trailLim, this`pos, this`qhead, this`polarity
      modifies this`ca, this`learnts, this`watches, orderHeap`heap, orderHeap`indices
      ensures Running() && |assigns| == |old(assigns)| && Height(T()) > old(Height(T()))
    {
      hide StoreOk, Linked, Levelled, Reasoned, Good, AllEntailed, Entails, RootsEntailed, LearntOk, Cancel, HeapOk;
      hide HeapOkBut, SeenClear, Height, ClauseOk, TrailOk, WatchesOk, DirtyOk, Propagated, Accounted, Assumed;
      hide Rooted, DbOk, Present;
      ghost var t := T();
      GoodParts(formula, clauses, ca, deleted, t, assumptions, LevelStart());
      LearntUnit(t, ca, learnt, btLevel);
      GoodCancel(formula, clauses, ca, deleted, t, assumptions, LevelStart(), btLevel);
      CancelShape(t, btLevel);
      CancelUntil(btLevel);
      HeightBackjump(t, ca, btLevel, learnt[0], if |learnt| == 1 then CRefUndef else CRef(|ca|));
      if |learnt| == 1 {
        assert learnt == [learnt[0]];
        AddUnit(learnt[0]);
      } else {
        AddLearnt(learnt);
      }
    }
  
    /** A conflict above the root level: learn, return, go on. */
    method ResolveConflict(confl: nat)
      requires Tidy() && GoodTo(LevelStart()) && qhead == |trail| <= |assigns| && trailLim != [] && Conflicting(confl)
      modifies this`ca, this`watches, this`qhead, this`learnts, this`seen, this`analyzeToclear, this`varInc
      modifies this`assigns, this`level, this`reason, this`trail, this`trailLim, this`pos, this`polarity, orderHeap
      ensures Running() && |assigns| == |old(assigns)| && Height(T()) > old(Height(T()))
    {
      hide ListsOk, StoreOk, Good, HeapOk, GoodTo, Conflicting, Height, LearntOk, Entails, SeenClear, AllEntailed;
      hide RootsEntailed, DbOk, TrailOk;
      AnalyzeReady();
      var learnt, btLevel, marks := Analyze(confl, formula);
      Backjump(learnt, btLevel);
      varInc := varInc * 20.0 / 19.0;
    }

    lemma AnalyzeReady()
      requires ListsOk() && GoodTo(LevelStart())
      ensures TrailOk(T(), ca) && DbOk(ca, |assigns|) && Entailment(formula)
    {
    }

    // ------------------------------------------------------------------ deciding

    /** An unassigned decision variable of greatest activity, if there is one. */
    method PickBranchLit() returns (found: bool, next: L)
      requires HeapOk()
      modifies orderHeap`heap, orderHeap`indices
      ensures found ==> next.v < |assigns| && assigns[next.v] == LUndef && decision[next.v] && HeapOkBut(next.v)
      ensures found ==> forall y :: 0 <= y < |assigns| && decision[y] && assigns[y] == LUndef ==>
                !orderHeap.Lt(y, next.v)
      ensures !found ==> HeapOk() && forall y :: 0 <= y < |assigns| && decision[y] ==> assigns[y] != LUndef
    {
      next := Lit(0, true);
      while orderHeap.heap != []
        invariant HeapOk()
        decreases |orderHeap.heap|
      {
        HeapElement(orderHeap);
        var x := orderHeap.RemoveMin();
        if assigns[x] == LUndef && decision[x] { return true, Lit(x, !polarity[x]); }
      }
      found := false;
    }
  
    /** Everything is propagated, and a decision is due. */
    ghost predicate Quiet()
      reads this, orderHeap
    {
      Tidy() && GoodTo(|trail|) && qhead == |trail| <= |assigns|
    }

    /** Opens a decision level with an unassigned literal. */
    method Decide(p: L)
      requires ListsOk() && MarksOk() && (HeapOk() || HeapOkBut(p.v)) && GoodTo(|trail|)
      requires qhead == |trail| && p.v < |assigns| && Value(assigns, p) == LUndef
      requires |trailLim| < |assumptions| ==> p == assumptions[|trailLim|]
      modifies this`assigns, this`level, this`reason, this`trail, this`trailLim, this`pos
      ensures Running() && |assigns| == |old(assigns)| && |old(trail)| <= |assigns| && Height(T()) > old(Height(T()))
    {
      hide ListsOk, MarksOk, HeapOk, HeapOkBut, Good, QueueNow, Height, TrailOk, Linked, Levelled, AllEntailed;
      hide RootsEntailed, Propagated, Accounted, Assumed, Rooted;
      GoodParts(formula, clauses, ca, deleted, T(), assumptions, |trail|);
      RoomLeft(T(), p.v);
      GoodDecide(formula, clauses, ca, deleted, T(), assumptions, |trail|, p);
      HeightDecide(T(), p);
      OpenLevel();
      EnqueueNow(p, CRefUndef);
    }

    method OpenLevel()
      modifies this`trailLim
      ensures T() == NewLevel(old(T()))
    {
      trailLim := trailLim + [|trail|];
    }
  
    /** Propagation, as a step of the search. */
    method PropagateStep() returns (confl: CRef)
      requires Running()
      modifies this`ca, this`watches, this`dirty, this`qhead
      modifies this`assigns, this`level, this`reason, this`trail, this`pos
      ensures Tidy() && qhead == |trail| <= |assigns| == |old(assigns)|
      ensures trailLim == [] || LevelStart() < |trail|
      ensures GoodTo(if confl == CRefUndef then qhead else LevelStart())
      ensures confl.CRef? ==> Conflicting(confl.id)
      ensures |old(trail)| <= |old(assigns)| && Height(T()) >= old(Height(T()))
    {
      hide Good, Height, TrailOk, Linked, Levelled, AllEntailed, RootsEntailed, Propagated, Accounted, Assumed;
      hide Rooted, SameDb, Grew, WatchesOk, DirtyOk, SeenClear, Conflicting, Present, Entails;
      hide Grew, HeapOk, QueueNow;
      GoodParts(formula, clauses, ca, deleted, T(), assumptions, qhead);
      StoreParts(watches, dirty, ca, deleted, clauses, learnts, |assigns|);
      ghost var t, c := T(), ca;
      confl := Propagate(formula);
      PresentSame(c, ca, deleted, clauses);
      PresentSame(c, ca, deleted, learnts);
      PropagationKeeps(formula, clauses, c, deleted, t, assumptions, old(qhead), ca, T(), if confl == CRefUndef then qhead else LevelStart());
      HeapStays();
    }

    /** Assigning variables leaves the order complete. */
    twostate lemma HeapStays()
      requires old(HeapOk()) && unchanged(orderHeap) && unchanged(`decision) && unchanged(`polarity)
      requires |assigns| == |old(assigns)|
      requires forall x :: 0 <= x < |assigns| && assigns[x] == LUndef ==> old(assigns)[x] == LUndef
      ensures HeapOk()
    {
    }
  
    // ------------------------------------------------------------ deleting clauses

    predicate Locked(cr: nat)
      requires cr < |ca| && |ca[cr]| >= 1
      reads this`ca, this`assigns, this`reason
    {
      var x := ca[cr][0].v;
      Value(assigns, ca[cr][0]) == LTrue && x < |reason| && reason[x] == CRef(cr)
    }

    /** Deletes a clause: its lists are cleaned later, and a literal that it implied loses
        its reason now. */
    method RemoveClause(cr: nat)
      requires cr < |ca| && |ca[cr]| >= 2
      modifies this`deleted, this`dirty, this`reason
      ensures T() == Freed(old(T()), ca, cr)
      ensures deleted == old(deleted) + {cr} && dirty == old(dirty) + {ca[cr][0].Neg(), ca[cr][1].Neg()}
    {
      var c := ca[cr];
      dirty := dirty + {c[0].Neg(), c[1].Neg()};
      if Locked(cr) { reason := reason[c[0].v := CRefUndef]; }
      deleted := deleted + {cr};
    }

    /** A true literal of the clause. */
    method Satisfied(cr: nat) returns (sat: bool, ghost l: L)
      requires cr < |ca|
      ensures sat <==> HasTrue(assigns, ca[cr])
      ensures sat ==> l in ca[cr] && Value(assigns, l) == LTrue
    {
      var i := 0;
      l := Lit(0, true);
      while i < |ca[cr]|
        invariant i <= |ca[cr]| && forall j :: 0 <= j < i ==> Value(assigns, ca[cr][j]) != LTrue
      {
        if Value(assigns, ca[cr][i]) == LTrue { return true, ca[cr][i]; }
        i := i + 1;
      }
      sat := false;
    }

    method DropClause(i: nat, ghost l: L)
      requires Quiet() && trailLim == [] && i < |clauses| && clauses[i] < |ca|
      requires l in ca[clauses[i]] && Value(assigns, l) == LTrue
      modifies this`deleted, this`dirty, this`reason, this`clauses
      ensures Quiet() && Height(T()) == old(Height(T())) && clauses == Without(old(clauses), i)
    {
      hide StoreOk, Good, HeapOk, SeenClear, Height, Freed, Without;
      StoreDropClause(watches, dirty, ca, deleted, clauses, learnts, |assigns|, i);
      StoreNoDup(watches, dirty, ca, deleted, clauses, learnts, |assigns|);
      GoodDropClause(formula, clauses, ca, deleted, T(), assumptions, |trail|, i, l);
      FreedSame(T(), ca, clauses[i]);
      RemoveClause(clauses[i]);
      clauses := Without(clauses, i);
    }

    method DropLearnt(i: nat)
      requires Quiet() && i < |learnts| && learnts[i] < |ca| && |ca[learnts[i]]| >= 1
      requires trailLim == [] || !Locked(learnts[i])
      modifies this`deleted, this`dirty, this`reason, this`learnts
      ensures Quiet() && Height(T()) == old(Height(T())) && learnts == Without(old(learnts), i)
      ensures !old(Locked(learnts[i])) ==> T() == old(T())
    {
      hide StoreOk, Good, HeapOk, SeenClear, Height, Freed, Without;
      StoreDropLearnt(watches, dirty, ca, deleted, clauses, learnts, |assigns|, i);
      if !Locked(learnts[i]) { UnlockedFreed(T(), ca, learnts[i]); }
      GoodDropLearnt(formula, clauses, ca, deleted, T(), assumptions, |trail|, learnts[i]);
      FreedSame(T(), ca, learnts[i]);
      RemoveClause(learnts[i]);
      learnts := Without(learnts, i);
    }

    /** Removes problem clauses and learnt clauses that are true at the root level. */
    method RemoveSatisfiedClauses()
      requires Quiet() && trailLim == []
      modifies this`deleted, this`dirty, this`reason, this`clauses
      ensures Quiet() && Height(T()) == old(Height(T())) && TrueOnesGone(clauses, old(clauses), assigns, ca)
    {
      hide ListsOk, MarksOk, GoodTo, HeapOk, Height, TrueOnesGoneTo, HasTrue, Without;
      NothingGone(clauses, assigns, ca);
      var i := 0;
      while i < |clauses|
        invariant i <= |clauses| && Quiet() && Height(T()) == old(Height(T()))
        invariant TrueOnesGoneTo(clauses, old(clauses), assigns, ca, i)
        decreases |clauses| - i
      {
        ClauseStored(i);
        var sat, l := Satisfied(clauses[i]);
        if sat {
          TrueOneGoes(clauses, old(clauses), assigns, ca, i);
          DropClause(i, l);
        } else {
          FalseOneStays(clauses, old(clauses), assigns, ca, i);
          i := i + 1;
        }
      }
    }

    lemma ClauseStored(i: nat)
      requires ListsOk()
      ensures i < |clauses| ==> clauses[i] < |ca|
      ensures i < |learnts| ==> learnts[i] < |ca| && |ca[learnts[i]]| >= 2
    {
      if i < |clauses| { StoreDropClause(watches, dirty, ca, deleted, clauses, learnts, |assigns|, i); }
      if i < |learnts| { StoreDropLearnt(watches, dirty, ca, deleted, clauses, learnts, |assigns|, i); }
    }

    method RemoveSatisfiedLearnts()
      requires Quiet() && trailLim == []
      modifies this`deleted, this`dirty, this`reason, this`learnts
      ensures Quiet() && Height(T()) == old(Height(T())) && TrueOnesGone(learnts, old(learnts), assigns, ca)
    {
      hide ListsOk, MarksOk, GoodTo, HeapOk, Height, TrueOnesGoneTo, HasTrue, Without;
      NothingGone(learnts, assigns, ca);
      var i := 0;
      while i < |learnts|
        invariant i <= |learnts| && Quiet() && Height(T()) == old(Height(T()))
        invariant TrueOnesGoneTo(learnts, old(learnts), assigns, ca, i)
        decreases |learnts| - i
      {
        ClauseStored(i);
        var sat, l := Satisfied(learnts[i]);
        if sat {
          TrueOneGoes(learnts, old(learnts), assigns, ca, i);
          DropLearnt(i);
        } else {
          FalseOneStays(learnts, old(learnts), assigns, ca, i);
          i := i + 1;
        }
      }
    }

    /** Neither binary nor the reason of its first literal. */
    ghost predicate Idle(cr: nat)
      reads this`ca, this`assigns, this`reason
    {
      cr < |ca| && |ca[cr]| > 2 && !Locked(cr)
    }

    /** Deletes learnt clauses that the heuristics give up: any but binary and locked ones. */
    method ReduceDB()
      requires Quiet()
      modifies this`deleted, this`dirty, this`reason, this`learnts
      ensures Quiet() && T() == old(T())
      ensures forall cr :: cr in learnts ==> cr in old(learnts)
      ensures forall cr :: cr in old(learnts) && cr !in learnts ==> Idle(cr)
    {
      hide ListsOk, MarksOk, GoodTo, HeapOk, Height, Without;
      var i := 0;
      while i < |learnts|
        invariant i <= |learnts| && Quiet() && T() == old(T())
        invariant forall cr :: cr in learnts ==> cr in old(learnts)
        invariant forall cr :: cr in old(learnts) && cr !in learnts ==> Idle(cr)
        decreases |learnts| - i
      {
        ClauseStored(i);
        var giveUp: bool := *;
        if giveUp && |ca[learnts[i]]| > 2 && !Locked(learnts[i]) {
          WithoutParts(learnts, i);
          DropLearnt(i);
        } else {
          i := i + 1;
        }
      }
    }

    /** The heap anew, from the unassigned decision variables. */
    method RebuildOrderHeap()
      requires HeapOk()
      modifies orderHeap`heap, orderHeap`indices
      ensures HeapOk()
      ensures forall x: nat :: orderHeap.InHeap(x) <==> x < |assigns| && decision[x] && assigns[x] == LUndef
    {
      var vs: seq<nat> := [];
      var v: nat := 0;
      while v < |assigns|
        invariant v <= |assigns|
        invariant forall i :: 0 <= i < |vs| ==> vs[i] < v && vs[i] < |orderHeap.indices|
        invariant forall i, j :: 0 <= i < j < |vs| ==> vs[i] != vs[j]
        invariant forall x :: x in vs <==> 0 <= x < v && decision[x] && assigns[x] == LUndef
      {
        if decision[v] && assigns[v] == LUndef { vs := vs + [v]; }
        v := v + 1;
      }
      orderHeap.Build(vs);
    }

    /** Removes clauses that are true at the root level, and rebuilds the order. */
    method RemoveSatisfied()
      requires Quiet() && trailLim == []
      modifies this`deleted, this`dirty, this`reason, this`learnts, this`clauses, orderHeap`heap, orderHeap`indices
      ensures Quiet() && Height(T()) == old(Height(T()))
      ensures TrueOnesGone(learnts, old(learnts), assigns, ca)
      ensures clauses == old(clauses) || TrueOnesGone(clauses, old(clauses), assigns, ca)
      ensures forall x: nat :: orderHeap.InHeap(x) <==> x < |assigns| && decision[x] && assigns[x] == LUndef
    {
      hide ListsOk, MarksOk, HeapOk, Height, Good, TrueOnesGoneTo;
      RemoveSatisfiedLearnts();
      if * { RemoveSatisfiedClauses(); }
      RebuildOrderHeap();
    }

    /** At the root level: propagates, and from time to time removes clauses that are true. */
    method Simplify() returns (fine: bool)
      requires Quiet() && trailLim == [] && ok
      modifies this`ok, this`ca, this`watches, this`dirty, this`qhead, this`deleted, this`learnts, this`clauses
      modifies this`assigns, this`level, this`reason, this`trail, this`pos, orderHeap`heap, orderHeap`indices
      ensures |assigns| == |old(assigns)| && |old(trail)| <= |assigns| && ok == fine
      ensures fine ==> Quiet() && Height(T()) >= old(Height(T()))
      ensures !fine ==> Tidy() && GoodTo(0) && qhead == |trail| && Unsat(formula, [])
    {
      hide ListsOk, MarksOk, HeapOk, Height, Good, Conflicting, Unsat;
      var confl := PropagateStep();
      if confl.CRef? {
        RootRefuted(confl.id);
        ok := false;
        return false;
      }
      var tooSoon: bool := *;
      if !tooSoon { RemoveSatisfied(); }
      fine := true;
    }

    lemma RootRefuted(cr: nat)
      requires GoodTo(0) && trailLim == [] && Conflicting(cr)
      ensures Unsat(formula, [])
    {
      RootConflict(formula, T(), ca[cr]);
    }
  
    // --------------------------------------------------------------- assumptions

    /** The conflict clause is entailed and consists of negated assumptions. */
    ghost predicate Refuted()
      reads this`formula, this`conflict, this`assumptions
    {
      Entails(formula, conflict) && forall l :: l in conflict ==> l.Neg() in assumptions
    }

    /** The conflict consists of what led to the first assumption that does not hold. */
    ghost predicate Blaming()
      reads this`assigns, this`level, this`reason, this`trail, this`trailLim, this`pos, this`ca
      reads this`conflict, this`assumptions
    {
      Blames(T(), ca, assumptions, conflict)
    }

    /** There is no model: of the clauses, with nothing assumed, or under the assumptions. */
    ghost predicate Ended()
      reads this, orderHeap
    {
      && Refuted()
      && if conflict == [] then Tidy() && GoodTo(0) && qhead == |trail| && trailLim == [] else Quiet() && ok && Blaming()
    }

    /** Opens an empty level for an assumption that is true already. */
    method SkipAssumption()
      requires Quiet() && |trailLim| < |assumptions| && Value(assigns, assumptions[|trailLim|]) == LTrue
      modifies this`trailLim
      ensures Quiet() && |trailLim| == |old(trailLim)| + 1 && Height(T()) == old(Height(T()))
    {
      hide ListsOk, MarksOk, HeapOk, Good, Height;
      GoodNewLevel(formula, clauses, ca, deleted, T(), assumptions, |trail|);
      HeightNewLevel(T());
      OpenLevel();
    }

    /** An assumption is false: says which assumptions are to blame. */
    method FailAssumption()
      requires Quiet() && |trailLim| < |assumptions| && Value(assigns, assumptions[|trailLim|]) == LFalse
      modifies this`seen, this`conflict
      ensures Quiet() && Refuted() && conflict != [] && Blaming()
    {
      hide StoreOk, HeapOk, Good, TrailOk, Entails, AllEntailed, RootsEntailed, Propagated, Accounted, Rooted;
      hide SeenClear, FinalLits, Levelled, FinalFrom;
      GoodParts(formula, clauses, ca, deleted, T(), assumptions, |trail|);
      var p := assumptions[|trailLim|];
      NegValue(assigns, p);
      AnalyzeFinal(p.Neg(), formula);
      LevelsBelow(T(), |assumptions|);
      FinalOfAssumptions(T(), conflict, p.Neg(), assumptions);
      FinalNotEmpty(T(), conflict, p.Neg());
    }

    /** Goes through the assumptions that are true already; stops at one that is open or
        false. */
    method PlaceAssumptions() returns (failed: bool, found: bool, next: L)
      requires Quiet()
      modifies this`trailLim, this`seen, this`conflict
      ensures Quiet() && Height(T()) == old(Height(T()))
      ensures failed ==> Refuted() && conflict != [] && Blaming()
      ensures !failed ==> conflict == old(conflict)
      ensures !failed && found ==>
        |trailLim| < |assumptions| && next == assumptions[|trailLim|] && Value(assigns, next) == LUndef
      ensures !failed && !found ==> |trailLim| >= |assumptions|
    {
      hide ListsOk, MarksOk, HeapOk, GoodTo, Height, Refuted, Blaming;
      failed, found, next := false, false, Lit(0, true);
      while |trailLim| < |assumptions|
        invariant Quiet() && Height(T()) == old(Height(T()))
        modifies this`trailLim
        decreases |assumptions| - |trailLim|
      {
        var p := assumptions[|trailLim|];
        if Value(assigns, p) == LTrue {
          SkipAssumption();
        } else if Value(assigns, p) == LFalse {
          failed := true;
          break;
        } else {
          found, next := true, p;
          break;
        }
      }
      if failed { FailAssumption(); }
    }
  
    // ------------------------------------------------------------ the search loop

    /** Cancels all decisions. */
    method ReturnToRoot()
      requires Quiet()
      modifies this`assigns, this`trail, this`trailLim, this`qhead, this`polarity, orderHeap`heap, orderHeap`indices
      ensures Quiet() && trailLim == [] && |assigns| == |old(assigns)|
    {
      hide StoreOk, Good, TrailOk, HeapOk, AllEntailed, RootsEntailed, Propagated, Accounted, Rooted, Assumed;
      hide SeenClear, Cancel;
      if trailLim != [] {
        ghost var t := T();
        GoodParts(formula, clauses, ca, deleted, t, assumptions, |trail|);
        GoodCancel(formula, clauses, ca, deleted, t, assumptions, |trail|, 0);
        CancelShape(t, 0);
        CancelUntil(0);
      }
    }

    ghost predicate InRange()
      reads this`assumptions, this`assigns
    {
      forall l :: l in assumptions ==> l.v < |assigns|
    }

    /** All decision variables are assigned, and all assumptions placed. */
    ghost predicate Finished()
      reads this`assigns, this`decision, this`trailLim, this`assumptions
    {
      && |trailLim| >= |assumptions| && |decision| == |assigns|
      && forall x :: 0 <= x < |assigns| && decision[x] ==> assigns[x] != LUndef
    }

    /** Decides the next assumption, or the variable of greatest activity. */
    method DecideNext() returns (done: bool, status: LBool)
      requires Quiet() && ok && conflict == [] && InRange()
      modifies this`assigns, this`level, this`reason, this`trail, this`trailLim, this`pos, this`seen, this`conflict
      modifies orderHeap`heap, orderHeap`indices
      ensures |assigns| == |old(assigns)| && |old(trail)| <= |assigns|
      ensures !done ==> Running() && conflict == [] && Height(T()) > old(Height(T()))
      ensures done && status == LTrue ==> Quiet() && Finished()
      ensures done && status == LFalse ==> Quiet() && Refuted() && conflict != [] && Blaming()
      ensures done ==> status != LUndef
    {
      hide ListsOk, MarksOk, HeapOk, Good, Height, Refuted, Blaming;
      done, status := true, LTrue;
      var failed, found, next := PlaceAssumptions();
      if failed { return true, LFalse; }
      if !found {
        HeapSizes();
        found, next := PickBranchLit();
        if !found { return; }
      }
      Decide(next);
      done := false;
    }

    lemma HeapSizes()
      requires HeapOk()
      ensures |decision| == |assigns|
    {
    }

    /** Without a conflict: give up if the limit is reached, tidy up, and decide. */
    method DecideStep(limitReached: bool) returns (done: bool, status: LBool)
      requires Quiet() && ok && conflict == [] && InRange()
      modifies this`ok, this`ca, this`watches, this`dirty, this`qhead, this`deleted, this`learnts, this`clauses
      modifies this`assigns, this`level, this`reason, this`trail, this`trailLim, this`pos, this`polarity
      modifies this`seen, this`analyzeToclear, this`varInc, this`conflict, orderHeap
      ensures |assigns| == |old(assigns)| && |old(trail)| <= |assigns|
      ensures !done ==> Running() && ok && conflict == [] && Height(T()) > old(Height(T()))
      ensures done && status == LTrue ==> Quiet() && ok && Finished()
      ensures done && status == LFalse ==> Ended()
      ensures done && status == LUndef ==> Quiet() && ok && trailLim == [] && conflict == [] && limitReached
    {
      hide ListsOk, MarksOk, HeapOk, Good, Height, Unsat, Entails, Finished, QueueNow, Refuted, Blaming;
      done, status := true, LUndef;
      if limitReached {
        ReturnToRoot();
        return;
      }
      if trailLim == [] {
        var fine := Simplify();
        if !fine {
          NothingRefuted();
          return true, LFalse;
        }
      }
      if * { ReduceDB(); }
      done, status := DecideNext();
    }

    lemma NothingRefuted()
      requires Unsat(formula, []) && conflict == []
      ensures Refuted()
    {
      forall m: set<nat> ensures !Models(m, formula) { assert AllTrue<nat>(m, []); }
    }
  
    /** Searches for a model, giving up after nofConflicts conflicts unless that is
        negative.  Every round makes the trail, read as a number, greater, so there are
        fewer conflicts than such numbers. */
    method Search(nofConflicts: int) returns (status: LBool)
      requires Quiet() && ok && conflict == [] && InRange() && trailLim == []
      modifies this`ok, this`ca, this`watches, this`dirty, this`qhead, this`deleted, this`learnts, this`clauses
      modifies this`assigns, this`level, this`reason, this`trail, this`trailLim, this`pos, this`polarity
      modifies this`seen, this`analyzeToclear, this`varInc, this`conflict, orderHeap
      ensures |assigns| == |old(assigns)|
      ensures status == LTrue ==> Quiet() && ok && Finished()
      ensures status == LFalse ==> Ended()
      ensures status == LUndef ==>
        Quiet() && ok && trailLim == [] && conflict == [] && 0 <= nofConflicts < Pow3(|assigns|)
    {
      hide Tidy, GoodTo, Height, Finished, Refuted, Blaming, Conflicting, Pow3;
      var conflictC: nat := 0;
      while true
        invariant Running() && ok && conflict == [] && InRange() && |assigns| == |old(assigns)|
        invariant conflictC <= Height(T())
        decreases Pow3(|assigns|) - Height(T())
      {
        HeightRoom();
        var confl := PropagateStep();
        if confl.CRef? {
          conflictC := conflictC + 1;
          var failed := ConflictStep(confl.id);
          if failed { return LFalse; }
        } else {
          var done;
          done, status := DecideStep(nofConflicts >= 0 && conflictC >= nofConflicts);
          if done { return; }
        }
        HeightRoom();
      }
    }

    lemma HeightRoom()
      requires |trail| <= |assigns|
      ensures Height(T()) < Pow3(|assigns|)
    {
      HeightBound(T());
    }

    /** A conflict: the end at the root level, something to learn above it. */
    method ConflictStep(confl: nat) returns (failed: bool)
      requires Tidy() && GoodTo(LevelStart()) && qhead == |trail| <= |assigns| && Conflicting(confl) && conflict == []
      modifies this`ca, this`watches, this`qhead, this`learnts, this`seen, this`analyzeToclear, this`varInc
      modifies this`assigns, this`level, this`reason, this`trail, this`trailLim, this`pos, this`polarity, orderHeap
      ensures |assigns| == |old(assigns)|
      ensures !failed ==> Running() && Height(T()) > old(Height(T()))
      ensures failed ==> Tidy() && GoodTo(0) && qhead == |trail| && trailLim == [] && Refuted()
    {
      hide Tidy, GoodTo, QueueNow, Height, Refuted, Conflicting, Unsat;
      failed := trailLim == [];
      if failed {
        RootRefuted(confl);
        NothingRefuted();
      } else {
        ResolveConflict(confl);
      }
    }

    method RestartLimit(k: nat) returns (limit: nat)
      ensures !lubyRestart ==> limit == 100 * Pow2(k)
      ensures lubyRestart ==> forall j: nat :: k < |Piece(j)| ==> limit == 100 * Pow2(Piece(j)[k])
      ensures forall j: nat :: k == PieceEnd(j) ==> limit >= j
    {
      var e := k;
      if lubyRestart { e := LubyExponent(k); }
      limit := Pow2(e) * 100;
      forall j: nat | k == PieceEnd(j) ensures limit >= j {
        if lubyRestart { assert Piece(j)[k] == j; }
      }
    }

    /** Answers whether the clauses have a model that makes all assumptions true, with a
        model, or with assumptions that are already contradictory. */
    method Solve(assumps: seq<L>) returns (status: LBool)
      requires Valid() && forall l :: l in assumps ==> l.v < |assigns|
      modifies this, orderHeap
      ensures Valid() && formula == old(formula) && decision == old(decision) && |assigns| == |old(assigns)|
      ensures status != LUndef && assumptions == assumps
      ensures status == LTrue && AllDecide() ==>
        Models(TrueVars(model), formula) && AllTrue(TrueVars(model), assumps)
      ensures status == LFalse ==> Refuted() && (conflict == [] || Blamed(formula, assumptions, conflict))
    {
      hide ListsOk, MarksOk, HeapOk, Good, Unsat, Entails, Finished, Refuted, TrailOk, InRange, Ended, Blamed;
      Begin(assumps);
      if !ok {
        NothingRefuted();
        return LFalse;
      }
      status := SearchWithRestarts();
      Conclude(status);
    }

    /** Takes over the assumptions and forgets the last answer. */
    method Begin(assumps: seq<L>)
      requires Valid() && forall l :: l in assumps ==> l.v < |assigns|
      modifies this`assumptions, this`model, this`conflict
      ensures assumptions == assumps && model == [] && conflict == []
      ensures Valid() && InRange() && (ok ==> Quiet())
    {
      hide ListsOk, MarksOk, HeapOk, Good, Unsat, TrailOk;
      if ok { GoodAtRoot(formula, clauses, ca, deleted, T(), assumptions, |trail|, assumps); }
      assumptions := assumps;
      model, conflict := [], [];
      RootBound();
    }

    lemma RootBound()
      requires TrailOk(T(), ca)
      ensures |trail| <= |assigns|
    {
      TrailBound(T());
    }

    /** Searches with longer and longer limits until there is an answer. */
    method SearchWithRestarts() returns (status: LBool)
      requires Quiet() && ok && conflict == [] && InRange() && trailLim == []
      modifies this`ok, this`ca, this`watches, this`dirty, this`qhead, this`deleted, this`learnts, this`clauses
      modifies this`assigns, this`level, this`reason, this`trail, this`trailLim, this`pos, this`polarity
      modifies this`seen, this`analyzeToclear, this`varInc, this`conflict, orderHeap
      ensures |assigns| == |old(assigns)| && status != LUndef
      ensures status == LTrue ==> Quiet() && ok && Finished()
      ensures status == LFalse ==> Ended()
    {
      hide ListsOk, MarksOk, HeapOk, Good, Unsat, Entails, Finished, Ended, TrailOk, Pow3, PieceEnd;
      status := LUndef;
      var currRestarts: nat := 0;
      ghost var last := PieceEnd(Pow3(|assigns|));
      while status == LUndef
        invariant |assigns| == |old(assigns)|
        invariant status == LUndef ==> Quiet() && ok && conflict == [] && InRange() && trailLim == [] && currRestarts <= last
        invariant status == LTrue ==> Quiet() && ok && Finished()
        invariant status == LFalse ==> Ended()
        decreases if status == LUndef then last + 1 - currRestarts else 0
      {
        var limit := RestartLimit(currRestarts);
        status := Search(limit);
        currRestarts := currRestarts + 1;
      }
    }

    /** Keeps the model, or notes that the clauses alone are contradictory, and cancels all
        decisions. */
    method Conclude(status: LBool)
      requires status == LTrue ==> Quiet() && ok && Finished()
      requires status == LFalse ==> Ended()
      requires status != LUndef
      modifies this`model, this`ok, this`assigns, this`trail, this`trailLim, this`qhead, this`polarity
      modifies orderHeap`heap, orderHeap`indices
      ensures Valid() && |assigns| == |old(assigns)|
      ensures status == LTrue && AllDecide() ==>
        Models(TrueVars(model), formula) && AllTrue(TrueVars(model), assumptions)
      ensures status == LFalse ==> Refuted() && (conflict == [] || Blamed(formula, assumptions, conflict))
    {
      hide ListsOk, MarksOk, HeapOk, Good, Unsat, Entails, Refuted, TrailOk, StoreOk, Models, AllTrue, Blames, Blamed;
      if status == LTrue {
        ModelFound();
        model := assigns;
        ReturnToRoot();
        RootTrail(|trail|);
      } else if conflict == [] {
        NoModel();
        ok := false;
        RootTrail(0);
      } else {
        BlamedHere(formula, clauses, ca, deleted, T(), assumptions, conflict);
        ReturnToRoot();
        RootTrail(|trail|);
      }
    }

    /** Every variable may be branched on. */
    ghost predicate AllDecide()
      reads this`decision
    {
      forall x :: 0 <= x < |decision| ==> decision[x]
    }

    lemma ModelFound()
      requires Quiet() && Finished()
      ensures AllDecide() ==>
        Models(TrueVars(assigns), formula) && AllTrue(TrueVars(assigns), assumptions)
    {
      if AllDecide() {
        StoreParts(watches, dirty, ca, deleted, clauses, learnts, |assigns|);
        FullAssignmentModels(formula, clauses, ca, deleted, T(), assumptions, |assigns|);
      }
    }

    lemma NoModel()
      requires Refuted() && conflict == []
      ensures Unsat(formula, [])
    {
      forall m: set<nat> ensures !Models(m, formula) { assert !ClauseTrue(m, conflict); }
    }

    lemma RootTrail(q: nat)
      requires GoodTo(q)
      ensures TrailOk(T(), ca)
    {
    }
  
    // ------------------------------------------------------------ adding clauses

    /** Stores a problem clause. */
    method StoreClause(c: seq<L>)
      requires StoreOk(watches, dirty, ca, deleted, clauses, learnts, |assigns|) && ClauseOk(c, |assigns|)
      modifies this`ca, this`clauses, this`watches
      ensures ca == old(ca) + [c] && clauses == old(clauses) + [|old(ca)|]
      ensures StoreOk(watches, dirty, ca, deleted, clauses, learnts, |assigns|)
    {
      hide WatchesOk, ListOk, DirtyOk;
      AttachLists(watches, ca, deleted, |assigns|, c);
      FreshNoDup(clauses, learnts, ca, deleted);
      var cr := |ca|;
      AttachClean(watches, dirty, deleted, ca, c);
      ca := ca + [c];
      clauses := clauses + [cr];
      AttachClause(cr);
    }

    /** One literal is left of the clause: it is a fact, and is propagated. */
    method AddFact(ps: seq<L>, out: seq<L>)
      requires Valid() && ok && Kept(assigns, ps, out) && |out| == 1 && forall l :: l in ps ==> l.v < |assigns|
      modifies this`formula, this`ok, this`ca, this`watches, this`dirty, this`qhead
      modifies this`assigns, this`level, this`reason, this`trail, this`pos
      ensures Valid() && formula == old(formula) + [ps] && |assigns| == |old(assigns)|
    {
      hide ListsOk, MarksOk, HeapOk, Good, Unsat, TrailOk, Conflicting, QueueNow;
      assert out == [out[0]] && out[0] in out;
      GoodAddUnit(formula, clauses, ca, deleted, T(), assumptions, qhead, ps, out[0]);
      formula := formula + [ps];
      EnqueueNow(out[0], CRefUndef);
      PropagateFacts();
    }

    /** Propagates at the root level. */
    method PropagateFacts()
      requires Tidy() && GoodTo(qhead) && QueueNow() && trailLim == [] && ok
      modifies this`ok, this`ca, this`watches, this`dirty, this`qhead
      modifies this`assigns, this`level, this`reason, this`trail, this`pos
      ensures Valid() && |assigns| == |old(assigns)|
    {
      hide ListsOk, MarksOk, HeapOk, Good, Unsat, TrailOk, Conflicting, QueueNow;
      RootTrail(qhead);
      RootBound();
      var confl := PropagateStep();
      if confl.CRef? {
        RootRefuted(confl.id);
        ok := false;
        RootTrail(0);
      } else {
        RootTrail(qhead);
      }
    }

    /** Several literals are left of the clause: they are stored. */
    method AddLong(ps: seq<L>, out: seq<L>)
      requires Valid() && ok && Kept(assigns, ps, out) && |out| > 1 && forall l :: l in ps ==> l.v < |assigns|
      modifies this`formula, this`ca, this`clauses, this`watches
      ensures Valid() && formula == old(formula) + [ps]
    {
      hide StoreOk, MarksOk, HeapOk, Good, Unsat, TrailOk;
      StoreParts(watches, dirty, ca, deleted, clauses, learnts, |assigns|);
      KeptClause(assigns, ps, out, |assigns|);
      GoodAddClause(formula, clauses, ca, deleted, T(), assumptions, |trail|, ps, out);
      formula := formula + [ps];
      StoreClause(out);
      RootTrail(|trail|);
    }

    /** Adds a clause; the answer is whether the clauses may still have a model. */
    method AddClause(ps: seq<L>) returns (res: bool)
      requires Valid() && forall l :: l in ps ==> l.v < |assigns|
      modifies this
      ensures Valid() && formula == old(formula) + [ps] && res == ok
      ensures |assigns| == |old(assigns)| && decision == old(decision)
    {
      hide ListsOk, MarksOk, HeapOk, Good, Unsat, TrailOk, Kept, TriviallyTrue, Sorted;
      if !ok {
        StillUnsat(formula, ps);
        formula := formula + [ps];
        return false;
      }
      var sorted := SortLits(ps);
      var satisfied, out := ReduceClause(sorted, assigns);
      SameKept(assigns, ps, sorted, satisfied, out);
      if satisfied {
        GoodAddTrue(formula, clauses, ca, deleted, T(), assumptions, |trail|, ps);
        formula := formula + [ps];
      } else if |out| == 0 {
        RootParts();
        AddFalse(formula, ca, T(), ps);
        formula := formula + [ps];
        ok := false;
      } else if |out| == 1 {
        AddFact(ps, out);
      } else {
        AddLong(ps, out);
      }
      res := ok;
    }

    lemma RootParts()
      requires GoodTo(|trail|)
      ensures RootsEntailed(formula, T())
    {
    }
  }

  lemma KeptClause(assigns: seq<LBool>, ps: seq<L>, out: seq<L>, n: nat)
    requires Kept(assigns, ps, out) && |out| > 1 && forall l :: l in ps ==> l.v < n
    ensures ClauseOk(out, n)
  {
    forall i | 0 <= i < |out| ensures out[i].v < n { assert out[i] in out; }
  }

  lemma EmptyLinked(t: Trail)
    requires |t.lits| == 0 && |t.lim| == 0 && |t.assigns| == |t.level| == |t.reason| == |t.pos| == 0
    ensures Linked(t) && Levelled(t) && Rooted(t)
  {
  }

  lemma EmptyReasoned(t: Trail, db: Db)
    requires |t.lits| == 0 && Linked(t)
    ensures Reasoned(t, db)
  {
    hide Linked, Implied;
  }

  lemma EmptyTrail(t: Trail, db: Db)
    requires |t.lits| == 0 && |t.lim| == 0 && |t.assigns| == |t.level| == |t.reason| == |t.pos| == 0
    ensures TrailOk(t, db) && Rooted(t) && Assumed(t, [])
  {
    hide Linked, Levelled, Reasoned, Rooted;
    EmptyLinked(t);
    EmptyReasoned(t, db);
    AssumedAtRoot(t, []);
  }

  lemma EmptyPropagated(t: Trail, db: Db)
    requires db == []
    ensures Propagated(t, db, {}, 0)
  {
    hide WatchLists.Safe;
  }

  lemma EmptySound(t: Trail, db: Db, F: Cnfs)
    requires t.lits == [] && db == [] && F == []
    ensures AllEntailed(F, db) && RootsEntailed(F, t) && Accounted(F, [], db, t)
  {
  }

  lemma EmptyGood(t: Trail, db: Db, F: Cnfs)
    requires |t.lits| == 0 && |t.lim| == 0 && |t.assigns| == |t.level| == |t.reason| == |t.pos| == 0
    requires db == [] && F == []
    ensures Good(F, [], db, {}, t, [], 0) && TrailOk(t, db)
  {
    hide *;
    EmptyTrail(t, db);
    EmptyPropagated(t, db);
    EmptySound(t, db, F);
    GoodWhole(F, [], db, {}, t, [], 0);
  }

  lemma GoodWhole(F: Cnfs, cs: seq<nat>, db: Db, deleted: set<nat>, t: Trail, assumptions: seq<L>, q: nat)
    requires TrailOk(t, db) && AllEntailed(F, db) && RootsEntailed(F, t) && Accounted(F, cs, db, t)
    requires Rooted(t) && Propagated(t, db, deleted, q) && Assumed(t, assumptions)
    ensures Good(F, cs, db, deleted, t, assumptions, q)
  {
    hide TrailOk, AllEntailed, RootsEntailed, Accounted, Rooted, Propagated, Assumed;
  }

  lemma EmptySeen(seen: seq<bool>)
    requires seen == []
    ensures SeenClear(seen)
  {
  }

  lemma EmptyStore()
    ensures StoreOk(map[], {}, [], {}, [], [], 0)
  {
  }

  lemma SameKept(assigns: seq<LBool>, ps: seq<L>, sorted: seq<L>, satisfied: bool, out: seq<L>)
    requires multiset(sorted) == multiset(ps)
    requires satisfied ==> TriviallyTrue(assigns, sorted)
    requires !satisfied ==> Kept(assigns, sorted, out)
    ensures satisfied ==> TriviallyTrue(assigns, ps)
    ensures !satisfied ==> Kept(assigns, ps, out)
    ensures !satisfied && out == [] ==> Kept(assigns, ps, [])
  {
    assert forall l :: l in sorted <==> l in multiset(sorted);
    assert forall l :: l in ps <==> l in multiset(ps);
  }

  lemma GoodAtRoot(F: Cnfs, cs: seq<nat>, db: Db, deleted: set<nat>, t: Trail, old_: seq<L>, q: nat, new_: seq<L>)
    requires Good(F, cs, db, deleted, t, old_, q) && t.lim == []
    ensures Good(F, cs, db, deleted, t, new_, q)
  {
    AssumedAtRoot(t, new_);
  }

  lemma BlamedHere(F: Cnfs, cs: seq<nat>, db: Db, deleted: set<nat>, t: Trail, assumps: seq<L>, conflict: seq<L>)
    requires Good(F, cs, db, deleted, t, assumps, |t.lits|) && Blames(t, db, assumps, conflict)
    ensures Blamed(F, assumps, conflict)
  {
  }

  lemma LevelsBelow(t: Trail, k: nat)
    requires Linked(t) && Levelled(t) && |t.lim| <= k
    ensures forall i :: 0 <= i < |t.lits| ==> LevelOf(t, t.lits[i]) <= k
  {
  }

  lemma FinalNotEmpty(t: Trail, conflict: seq<L>, p: L)
    requires FinalLits(t, conflict, p)
    ensures conflict != []
  {
  }

  lemma FreedSame(t: Trail, db: Db, cr: nat)
    requires cr < |db| && |db[cr]| >= 1
    ensures var u := Freed(t, db, cr);
      u.assigns == t.assigns && u.lits == t.lits && u.lim == t.lim && u.level == t.level && u.pos == t.pos
  {
  }

  lemma UnlockedFreed(t: Trail, db: Db, cr: nat)
    requires cr < |db| && |db[cr]| >= 1
    requires !(Value(t.assigns, db[cr][0]) == LTrue && db[cr][0].v < |t.reason| && t.reason[db[cr][0].v] == CRef(cr))
    ensures Freed(t, db, cr) == t
  {
  }

  lemma StoreNoDup(w: Lists, dirty: set<L>, db: Db, deleted: set<nat>, cs: seq<nat>, ls: seq<nat>, n: nat)
    requires StoreOk(w, dirty, db, deleted, cs, ls, n)
    ensures NoDup(cs) && NoDup(ls)
  {
    NoDupParts(cs, ls);
  }

  lemma FreshNoDup(cs: seq<nat>, ls: seq<nat>, db: Db, deleted: set<nat>)
    requires NoDup(cs + ls) && Present(cs, db, deleted) && Present(ls, db, deleted)
    ensures NoDup(cs + (ls + [|db|])) && NoDup((cs + [|db|]) + ls)
  {
    NoDupParts(cs, ls);
    assert forall i :: 0 <= i < |ls| ==> ls[i] in ls;
    assert forall i :: 0 <= i < |cs| ==> cs[i] in cs;
    NoDupWhole(cs, ls + [|db|]);
    NoDupWhole(cs + [|db|], ls);
  }

  /** What propagation leaves behind: a good state, no lower, with no fewer values. */
  lemma PropagationKeeps(F: Cnfs, cs: seq<nat>, db: Db, deleted: set<nat>, t: Trail, assumptions: seq<L>,
        q: nat, db2: Db, u: Trail, q2: nat)
    requires Good(F, cs, db, deleted, t, assumptions, q) && Grew(t, u) && SameDb(db, db2)
    requires TrailOk(u, db2) && AllEntailed(F, db2) && RootsEntailed(F, u) && Propagated(u, db2, deleted, q2)
    requires t.lim == [] || Start(t) < |t.lits|
    ensures Good(F, cs, db2, deleted, u, assumptions, q2) && (u.lim == [] || Start(u) < |u.lits|)
    ensures |t.lits| <= |t.assigns| == |u.assigns| && |u.lits| <= |u.assigns| && Height(t) <= Height(u)
    ensures forall x :: 0 <= x < |t.assigns| && u.assigns[x] == LUndef ==> t.assigns[x] == LUndef
  {
    hide *;
    GoodParts(F, cs, db, deleted, t, assumptions, q);
    GrewSize(t, u);
    LinkedSizes(u, db2);
    TrailBound(u);
    HeightGrew(t, u);
    GrewUndef(t, u);
    GoodGrew(F, cs, db, deleted, t, assumptions, q, db2, u, q2);
  }

  lemma ClauseEntailed(F: Cnfs, db: Db, cr: nat)
    requires AllEntailed(F, db) && cr < |db|
    ensures Entails(F, db[cr])
  {
  }

  lemma GrewUndef(t: Trail, u: Trail)
    requires Grew(t, u)
    ensures forall x :: 0 <= x < |t.assigns| && u.assigns[x] == LUndef ==> t.assigns[x] == LUndef
  {
  }

  lemma PresentSame(db: Db, db2: Db, deleted: set<nat>, cs: seq<nat>)
    requires SameDb(db, db2)
    ensures |db| == |db2| && (Present(cs, db, deleted) ==> Present(cs, db2, deleted))
  {
  }

  lemma HeapElement(h: Heap)
    requires h.Valid() && h.heap != []
    ensures h.InHeap(h.heap[0]) && h.heap[0] < |h.activity|
  {
  }

  function Wider(t: Trail): Trail {
    t.(assigns := t.assigns + [LUndef], level := t.level + [0], reason := t.reason + [CRefUndef], pos := t.pos + [0])
  }

  lemma ExtendTrail(t: Trail, db: Db)
    requires TrailOk(t, db)
    ensures TrailOk(Wider(t), db) && (Rooted(t) ==> Rooted(Wider(t)))
  {
    var u := Wider(t);
    assert Linked(u);
    forall i | 0 <= i < |u.lits| && u.reason[u.lits[i].v].CRef? ensures Implied(u, db, i) {
      assert Implied(t, db, i);
      var c := db[t.reason[t.lits[i].v].id];
      forall j | 1 <= j < |c| ensures FalseBefore(u, c[j], i) { assert FalseBefore(t, c[j], i); }
    }
  }

  lemma WiderRoots(F: Cnfs, t: Trail)
    requires RootsEntailed(F, t) && Linked(t)
    ensures RootsEntailed(F, Wider(t))
  {
    hide Entails;
    var u := Wider(t);
    forall i | 0 <= i < |u.lits| && LevelOf(u, u.lits[i]) == 0 ensures Entails(F, [u.lits[i]]) {
      assert LevelOf(t, t.lits[i]) == 0;
    }
  }

  lemma WiderAccounted(F: Cnfs, cs: seq<nat>, db: Db, t: Trail)
    requires Linked(t)
    ensures Accounted(F, cs, db, t) ==> Accounted(F, cs, db, Wider(t))
  {
    forall m: set<nat> | RootTrue(m, Wider(t)) ensures RootTrue(m, t) {
      forall i | 0 <= i < |t.lits| && LevelOf(t, t.lits[i]) == 0 ensures LitTrue(m, t.lits[i]) {
        assert LevelOf(Wider(t), Wider(t).lits[i]) == 0;
      }
    }
  }

  lemma WiderPropagated(t: Trail, db: Db, deleted: set<nat>, q: nat)
    requires Linked(t) && Propagated(t, db, deleted, q)
    ensures Propagated(Wider(t), db, deleted, q)
  {
    var u := Wider(t);
    forall cr | 0 <= cr < |db| && cr !in deleted ensures WatchLists.Safe(u, db[cr], q) {
      WiderSafe(t, db[cr], q);
    }
  }

  lemma WiderSafe(t: Trail, c: seq<L>, q: nat)
    requires Linked(t) && WatchLists.Safe(t, c, q)
    ensures WatchLists.Safe(Wider(t), c, q)
  {
    var u := Wider(t);
    if |c| >= 2 {
      forall k | 0 <= k < 2 ensures SafeAt(u, c, k, q) {
        assert SafeAt(t, c, k, q);
        if Value(u.assigns, c[k]) == LFalse && PosOf(u, c[k]) < q {
          var j :| 0 <= j < |c| && Value(t.assigns, c[j]) == LTrue && LevelOf(t, c[j]) <= LevelOf(t, c[k]);
          assert Value(u.assigns, c[j]) == LTrue;
        }
      }
      assert SafeAt(u, c, 0, q) && SafeAt(u, c, 1, q);
    }
  }

  lemma WiderSizes(t: Trail)
    ensures var u := Wider(t); |u.assigns| == |t.assigns| + 1 && u.lits == t.lits && u.lim == t.lim
  {
  }

  lemma WiderStore(w: Lists, dirty: set<L>, db: Db, deleted: set<nat>, cs: seq<nat>, ls: seq<nat>, v: nat)
    requires StoreOk(w, dirty, db, deleted, cs, ls, v)
    ensures StoreOk(w[Lit(v, true) := []][Lit(v, false) := []], dirty, db, deleted, cs, ls, v + 1)
  {
    hide WatchesOk, DirtyOk;
    ExtendWatches(w, db, deleted, v);
    NewListsClean(w, dirty, deleted, v);
  }

  lemma WiderGood(F: Cnfs, cs: seq<nat>, db: Db, deleted: set<nat>, t: Trail, assumptions: seq<L>, q: nat)
    requires Good(F, cs, db, deleted, t, assumptions, q) && t.lim == []
    ensures Good(F, cs, db, deleted, Wider(t), assumptions, q)
  {
    hide Wider, Propagated, AllEntailed, RootsEntailed, Accounted, Rooted, Assumed;
    ExtendTrail(t, db);
    WiderRoots(F, t);
    WiderAccounted(F, cs, db, t);
    WiderPropagated(t, db, deleted, q);
    WiderSizes(t);
    AssumedAtRoot(Wider(t), assumptions);
  }

  /** At the root level there are no decisions yet, whatever the assumptions. */
  lemma AssumedAtRoot(t: Trail, assumptions: seq<L>)
    requires Linked(t) && Levelled(t) && t.lim == []
    ensures Assumed(t, assumptions)
  {
  }

  lemma ExtendWatches(w: Lists, db: Db, deleted: set<nat>, n: nat)
    requires WatchesOk(w, db, deleted, n)
    ensures WatchesOk(w[Lit(n, true) := []][Lit(n, false) := []], db, deleted, n + 1)
  {
  }

  lemma QueueGrew(t: Trail, u: Trail, q: nat)
    requires Linked(t) && Grew(t, u)
    requires forall i :: q <= i < |t.lits| ==> t.lits[i].v < |t.level| && t.level[t.lits[i].v] == |t.lim|
    ensures u.lim == t.lim && |t.lits| <= |u.lits|
    ensures forall i :: q <= i < |u.lits| ==> u.lits[i].v < |u.level| && u.level[u.lits[i].v] == |u.lim|
  {
    forall i | q <= i < |u.lits| ensures u.lits[i].v < |u.level| && u.level[u.lits[i].v] == |u.lim| {
      if i < |t.lits| { assert u.lits[i] == t.lits[i]; } else { assert ImpliedNow(u, u.lits[i].v); }
    }
  }

  lemma GrewSize(t: Trail, u: Trail)
    requires Grew(t, u)
    ensures |t.assigns| == |u.assigns|
  {
  }

  lemma LinkedSizes(t: Trail, db: Db)
    requires TrailOk(t, db)
    ensures Linked(t) && |t.assigns| == |t.level| == |t.reason| == |t.pos|
  {
  }

  lemma AboveStart(t: Trail, db: Db, i: nat)
    requires TrailOk(t, db) && i < |t.lits| && t.lits[i].v < |t.level| && t.level[t.lits[i].v] == |t.lim|
    ensures |t.lim| > 0 ==> t.lim[|t.lim| - 1] <= i
  {
  }

  lemma PropagatedLess(t: Trail, db: Db, deleted: set<nat>, q: nat, r: nat)
    requires Propagated(t, db, deleted, q) && r <= q
    ensures Propagated(t, db, deleted, r)
  {
    forall cr | 0 <= cr < |db| && cr !in deleted ensures WatchLists.Safe(t, db[cr], r) { SafeLess(t, db[cr], q, r); }
  }

  /** At the root level an implied literal is entailed. */
  lemma UnitRoots(F: Cnfs, t: Trail, db: Db, cr: nat)
    requires TrailOk(t, db) && AllEntailed(F, db) && RootsEntailed(F, t) && cr < |db| && |db[cr]| >= 1
    requires db[cr][0].v < |t.assigns| && Value(t.assigns, db[cr][0]) == LUndef
    requires forall j :: 1 <= j < |db[cr]| ==> Value(t.assigns, db[cr][j]) == LFalse
    ensures |t.assigns| == |t.level| == |t.reason| == |t.pos|
    ensures RootsEntailed(F, Push(t, db[cr][0], CRef(cr)))
  {
    var p := db[cr][0];
    var u := Push(t, p, CRef(cr));
    if |t.lim| == 0 {
      forall m: set<nat> | Models(m, F) ensures ClauseTrue(m, [p]) {
        assert Entails(F, db[cr]) && ClauseTrue(m, db[cr]);
        var l :| l in db[cr] && LitTrue(m, l);
        var j :| 0 <= j < |db[cr]| && db[cr][j] == l;
        if j > 0 {
          var i := FalseOnTrail(t, l);
          assert t.level[t.lits[i].v] == 0;
          RootFalse(F, t, m, l);
        }
        assert p in [p];
      }
    }
    assert forall i :: 0 <= i < |t.lits| ==> t.lits[i].v != p.v;
    forall i | 0 <= i < |u.lits| && LevelOf(u, u.lits[i]) == 0 ensures Entails(F, [u.lits[i]]) {
      if i < |t.lits| { assert u.lits[i] == t.lits[i] && LevelOf(t, t.lits[i]) == 0; }
    }
  }
}