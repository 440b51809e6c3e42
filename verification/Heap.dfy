/** The priority queue of variables that the solver branches on. */
module Heaps {

  // ------------------------------------------------------------- pure invariants

  function Left(i: nat): nat { 2 * i + 1 }
  function Right(i: nat): nat { 2 * (i + 1) }
  function Parent(i: nat): nat
    requires i > 0
  {
    (i - 1) / 2
  }

  /** `indices` locates each element of the heap, and is negative for all others. */
  ghost predicate Indexed(h: seq<nat>, ix: seq<int>) {
    && (forall i :: 0 <= i < |h| ==> h[i] < |ix| && ix[h[i]] == i)
    && (forall x :: 0 <= x < |ix| && ix[x] >= 0 ==> ix[x] < |h| && h[ix[x]] == x)
  }

  ghost predicate InRange(h: seq<nat>, act: seq<real>) { forall i :: 0 <= i < |h| ==> h[i] < |act| }

  /** The element at k does not come before the one above it. */
  ghost predicate NotAbove(h: seq<nat>, act: seq<real>, k: nat)
    requires 0 < k < |h| && InRange(h, act)
  {
    act[h[k]] <= act[h[Parent(k)]]
  }

  /** Heap order at every node whose parent is at lo or later, except at `hole`. */
  ghost predicate OrderedUp(h: seq<nat>, act: seq<real>, hole: nat)
    requires InRange(h, act)
  {
    && (forall k :: 0 < k < |h| && k != hole ==> NotAbove(h, act, k))
    && (forall k :: 0 < k < |h| && Parent(k) == hole && hole > 0 ==> act[h[k]] <= act[h[Parent(hole)]])
  }

  ghost predicate OrderedDown(h: seq<nat>, act: seq<real>, lo: nat, hole: nat)
    requires InRange(h, act)
  {
    && (forall k :: 0 < k < |h| && lo <= Parent(k) && Parent(k) != hole ==> NotAbove(h, act, k))
    && (forall k :: 0 < k < |h| && Parent(k) == hole && hole > 0 && lo <= Parent(hole) && hole < |h| ==>
          act[h[k]] <= act[h[Parent(hole)]])
  }

  ghost predicate Ordered(h: seq<nat>, act: seq<real>, lo: nat)
    requires InRange(h, act)
  {
    forall k :: 0 < k < |h| && lo <= Parent(k) ==> NotAbove(h, act, k)
  }

  /** In an ordered heap nothing comes before the root. */
  lemma {:induction false} RootIsFirst(h: seq<nat>, act: seq<real>, k: nat)
    requires InRange(h, act) && Ordered(h, act, 0) && k < |h|
    ensures act[h[k]] <= act[h[0]]
  {
    if k > 0 {
      assert NotAbove(h, act, k);
      RootIsFirst(h, act, Parent(k));
    }
  }

  class Heap {
    var activity: seq<real>
    var heap: seq<nat>
    var indices: seq<int>

    ghost predicate Valid()
      reads this
    {
      Indexed(heap, indices) && InRange(heap, activity) && Ordered(heap, activity, 0)
    }

    /** The order of the heap: higher activity first. */
    predicate Lt(x: nat, y: nat)
      requires x < |activity| && y < |activity|
      reads this`activity
    {
      activity[x] > activity[y]
    }

    predicate InHeap(x: nat)
      reads this`indices
    {
      x < |indices| && indices[x] >= 0
    }

    constructor ()
      ensures Valid() && heap == [] && indices == [] && activity == []
    {
      heap, indices, activity := [], [], [];
    }

    /** Moves the element at `start` up to where it belongs.  The loop keeps a hole at i;
        h and ix are the heap and the index with the hole filled by x. */
    method PercolateUp(start: nat)
      requires Indexed(heap, indices) && InRange(heap, activity) && start < |heap|
      requires OrderedUp(heap, activity, start)
      modifies this`heap, this`indices
      ensures Valid() && |heap| == old(|heap|) && SameMembers(indices, old(indices))
    {
      hide Indexed, OrderedUp, SameMembers;
      var i := start;
      var x := heap[i];
      ghost var h, ix := heap, indices;
      Located(h, ix, i);
      MembersRefl(ix);
      while i != 0 && Lt(x, heap[Parent(i)])
        invariant i < |heap| == |h| == old(|heap|) && |indices| == |ix|
        invariant h == heap[i := x] && x < |indices| && ix == indices[x := i as int]
        invariant Indexed(h, ix) && InRange(h, activity) && OrderedUp(h, activity, i)
        invariant SameMembers(ix, old(indices)) && x < |activity| && InRange(heap, activity)
        decreases i
      {
        var p := Parent(i);
        Located(h, ix, p);
        SwapIndexed(h, ix, i, p);
        StepUp(h, activity, i);
        MembersTrans(ix[h[p] := i][x := p], ix, old(indices));
        h, ix := h[i := h[p]][p := x], ix[h[p] := i][x := p];
        heap := heap[i := heap[p]];
        indices := indices[heap[i] := i];
        i := p;
      }
      heap := heap[i := x];
      indices := indices[x := i];
      HoleFilledUp(heap, activity, i);
    }

    /** The child of i that comes first. */
    function BestChild(i: nat): (c: nat)
      requires Left(i) < |heap| && InRange(heap, activity)
      reads this`heap, this`activity
      ensures c < |heap| && i < c && Parent(c) == i && (c == Left(i) || c == Right(i))
      ensures forall k :: 0 < k < |heap| && Parent(k) == i ==> activity[heap[k]] <= activity[heap[c]]
    {
      assert forall k :: 0 < k < |heap| && Parent(k) == i ==> k == Left(i) || k == Right(i);
      if Right(i) < |heap| && Lt(heap[Right(i)], heap[Left(i)]) then Right(i) else Left(i)
    }

    /** Moves the element at `start` down to where it belongs. */
    method PercolateDown(start: nat, ghost lo: nat)
      requires Indexed(heap, indices) && InRange(heap, activity) && lo <= start < |heap|
      requires OrderedDown(heap, activity, lo, start)
      modifies this`heap, this`indices
      ensures Indexed(heap, indices) && InRange(heap, activity) && Ordered(heap, activity, lo)
      ensures |heap| == old(|heap|) && SameMembers(indices, old(indices))
    {
      hide Indexed, OrderedDown, SameMembers;
      var i := start;
      var x := heap[i];
      ghost var h, ix := heap, indices;
      Located(h, ix, i);
      MembersRefl(ix);
      while Left(i) < |heap|
        invariant lo <= i < |heap| == |h| == old(|heap|) && |indices| == |ix|
        invariant h == heap[i := x] && x < |indices| && ix == indices[x := i as int]
        invariant x < |activity| && InRange(heap, activity)
        invariant Indexed(h, ix) && InRange(h, activity) && OrderedDown(h, activity, lo, i)
        invariant SameMembers(ix, old(indices))
        decreases |heap| - i
      {
        var child := BestChild(i);
        if !Lt(heap[child], x) {
          NoneBelow(h, activity, i, child);
          break;
        }
        Located(h, ix, child);
        SwapIndexed(h, ix, i, child);
        StepDown(h, activity, lo, i, child);
        MembersTrans(ix[h[child] := i][x := child], ix, old(indices));
        h, ix := h[i := h[child]][child := x], ix[h[child] := i][x := child];
        heap := heap[i := heap[child]];
        indices := indices[heap[i] := i];
        i := child;
      }
      heap := heap[i := x];
      indices := indices[x := i];
      HoleFilledDown(heap, activity, lo, i);
    }

    /** Adds an element that is not in the heap. */
    method Insert(n: nat)
      requires Valid() && !InHeap(n) && n < |activity|
      modifies this`heap, this`indices
      ensures Valid() && |indices| >= old(|indices|)
      ensures forall y: nat :: InHeap(y) <==> old(InHeap(y)) || y == n
    {
      if |indices| <= n { indices := indices + seq(n + 1 - |indices|, _ => -1); }
      indices := indices[n := |heap|];
      heap := heap + [n];
      ghost var ix := indices;
      PercolateUp(|heap| - 1);
      assert forall y :: 0 <= y < |ix| ==> (indices[y] >= 0 <==> ix[y] >= 0);
    }

    /** Takes out an element that no other comes before. */
    method RemoveMin() returns (x: nat)
      requires Valid() && heap != []
      modifies this`heap, this`indices
      ensures Valid() && |indices| == old(|indices|) && |heap| + 1 == old(|heap|)
      ensures old(InHeap(x)) && forall y: nat :: InHeap(y) <==> old(InHeap(y)) && y != x
      ensures x < |activity| && forall y: nat :: old(InHeap(y)) ==> y < |activity| && !Lt(y, x)
    {
      forall y: nat | InHeap(y) ensures y < |activity| && !Lt(y, heap[0]) {
        RootIsFirst(heap, activity, indices[y]);
      }
      x := heap[0];
      DropRoot(heap, indices, activity);
      heap := heap[0 := heap[|heap| - 1]];
      indices := indices[heap[0] := 0];
      indices := indices[x := -1];
      heap := heap[..|heap| - 1];
      ghost var ix := indices;
      if |heap| > 1 { PercolateDown(0, 0); }
      assert forall y :: 0 <= y < |ix| ==> (indices[y] >= 0 <==> ix[y] >= 0);
    }

    /** One more variable, with no activity yet. */
    method NewActivity()
      requires Valid()
      modifies this`activity
      ensures Valid() && activity == old(activity) + [0.0]
    {
      activity := activity + [0.0];
    }

    /** Raises the activity of a variable, and its place in the heap with it. */
    method Bump(v: nat, inc: real)
      requires Valid() && v < |activity| && inc >= 0.0
      modifies this
      ensures Valid() && activity == old(activity)[v := old(activity)[v] + inc]
      ensures |indices| == old(|indices|) && forall y: nat :: InHeap(y) <==> old(InHeap(y))
    {
      activity := activity[v := activity[v] + inc];
      if InHeap(v) {
        PercolateUp(indices[v]);
      } else {
        assert forall i :: 0 <= i < |heap| ==> indices[heap[i]] == i && heap[i] != v;
      }
    }

    /** Makes the heap anew from distinct elements. */
    method Build(ns: seq<nat>)
      requires Valid() && forall i :: 0 <= i < |ns| ==> ns[i] < |indices| && ns[i] < |activity|
      requires forall i, j :: 0 <= i < j < |ns| ==> ns[i] != ns[j]
      modifies this`heap, this`indices
      ensures Valid() && |indices| == old(|indices|)
      ensures forall y: nat :: InHeap(y) <==> y in ns
    {
      indices := seq(|indices|, _ => -1);
      heap := [];
      var i := 0;
      while i < |ns|
        invariant i <= |ns| && heap == ns[..i] && |indices| == old(|indices|)
        invariant forall j :: 0 <= j < i ==> indices[ns[j]] == j
        invariant forall y :: 0 <= y < |indices| && indices[y] >= 0 ==> indices[y] < i && ns[indices[y]] == y
      {
        indices := indices[ns[i] := i];
        heap := heap + [ns[i]];
        i := i + 1;
      }
      assert heap == ns;
      BuildOrder();
    }

    method BuildOrder()
      requires Indexed(heap, indices) && InRange(heap, activity)
      modifies this`heap, this`indices
      ensures Valid() && |heap| == old(|heap|) && SameMembers(indices, old(indices))
    {
      hide Indexed, SameMembers, OrderedDown;
      var i: nat := |heap| / 2;
      MembersRefl(indices);
      assert forall k :: 0 < k < |heap| ==> Parent(k) < i;
      while i > 0
        invariant Indexed(heap, indices) && InRange(heap, activity) && i <= |heap| / 2
        invariant |heap| == old(|heap|) && SameMembers(indices, old(indices))
        invariant Ordered(heap, activity, i)
      {
        i := i - 1;
        ghost var ix := indices;
        BelowOrdered(heap, activity, i);
        PercolateDown(i, i);
        MembersTrans(indices, ix, old(indices));
      }
    }
  }

  /** The same elements are located, possibly elsewhere. */
  ghost predicate SameMembers(ix: seq<int>, was: seq<int>) {
    |ix| == |was| && forall y :: 0 <= y < |ix| ==> (ix[y] >= 0 <==> was[y] >= 0)
  }

  lemma MembersRefl(ix: seq<int>)
    ensures SameMembers(ix, ix)
  {
  }

  lemma MembersTrans(a: seq<int>, b: seq<int>, c: seq<int>)
    requires SameMembers(a, b) && SameMembers(b, c)
    ensures SameMembers(a, c)
  {
  }

  lemma Located(h: seq<nat>, ix: seq<int>, i: nat)
    requires Indexed(h, ix) && i < |h|
    ensures h[i] < |ix| && ix[h[i]] == i && ix == ix[h[i] := i] && h == h[i := h[i]]
  {
  }

  lemma SwapIndexed(h: seq<nat>, ix: seq<int>, i: nat, p: nat)
    requires Indexed(h, ix) && i < |h| && p < |h|
    ensures h[p] < |ix| && h[i] < |ix|
    ensures Indexed(h[i := h[p]][p := h[i]], ix[h[p] := i][h[i] := p])
    ensures SameMembers(ix[h[p] := i][h[i] := p], ix)
  {
  }

  lemma HoleFilledUp(h: seq<nat>, act: seq<real>, i: nat)
    requires InRange(h, act) && i < |h| && OrderedUp(h, act, i)
    requires i == 0 || act[h[i]] <= act[h[Parent(i)]]
    ensures Ordered(h, act, 0)
  {
  }

  /** Swapping the hole with its parent moves the hole up. */
  lemma StepUp(h: seq<nat>, act: seq<real>, i: nat)
    requires InRange(h, act) && 0 < i < |h| && OrderedUp(h, act, i)
    requires act[h[i]] > act[h[Parent(i)]]
    ensures var g := h[i := h[Parent(i)]][Parent(i) := h[i]]; InRange(g, act) && OrderedUp(g, act, Parent(i))
  {
    var p := Parent(i);
    var g := h[i := h[p]][p := h[i]];
    forall k | 0 < k < |g| && k != p ensures NotAbove(g, act, k) {
      if k == i {
      } else if Parent(k) == i {
      } else if Parent(k) == p {
        assert NotAbove(h, act, k);
      } else {
        assert NotAbove(h, act, k);
      }
    }
    forall k | 0 < k < |g| && Parent(k) == p && p > 0 ensures act[g[k]] <= act[g[Parent(p)]] {
      assert NotAbove(h, act, p);
      if k != i { assert NotAbove(h, act, k); }
    }
  }

  lemma NoneBelow(h: seq<nat>, act: seq<real>, i: nat, child: nat)
    requires InRange(h, act) && child < |h| && i < |h|
    requires act[h[child]] <= act[h[i]]
    requires forall k :: 0 < k < |h| && Parent(k) == i ==> act[h[k]] <= act[h[child]]
    ensures forall k :: 0 < k < |h| && Parent(k) == i ==> NotAbove(h, act, k)
  {
  }

  /** Swapping the hole with its best child moves the hole down. */
  lemma StepDown(h: seq<nat>, act: seq<real>, lo: nat, i: nat, c: nat)
    requires InRange(h, act) && lo <= i < c < |h| && Parent(c) == i && OrderedDown(h, act, lo, i)
    requires act[h[c]] > act[h[i]]
    requires forall k :: 0 < k < |h| && Parent(k) == i ==> act[h[k]] <= act[h[c]]
    ensures var g := h[i := h[c]][c := h[i]]; InRange(g, act) && OrderedDown(g, act, lo, c)
  {
    var g := h[i := h[c]][c := h[i]];
    forall k | 0 < k < |g| && lo <= Parent(k) && Parent(k) != c ensures NotAbove(g, act, k) {
      if k == i {
        assert act[h[c]] <= act[h[Parent(i)]];
      } else if Parent(k) != i {
        assert NotAbove(h, act, k);
      }
    }
    forall k | 0 < k < |g| && Parent(k) == c ensures act[g[k]] <= act[g[i]] {
      assert NotAbove(h, act, k);
    }
  }

  lemma HoleFilledDown(h: seq<nat>, act: seq<real>, lo: nat, i: nat)
    requires InRange(h, act) && OrderedDown(h, act, lo, i)
    requires forall k :: 0 < k < |h| && Parent(k) == i ==> NotAbove(h, act, k)
    ensures Ordered(h, act, lo)
  {
  }

  lemma BelowOrdered(h: seq<nat>, act: seq<real>, i: nat)
    requires InRange(h, act) && Ordered(h, act, i + 1)
    ensures OrderedDown(h, act, i, i)
  {
  }

  /** What is left when the last element takes the place of the root. */
  lemma DropRoot(h: seq<nat>, ix: seq<int>, act: seq<real>)
    requires Indexed(h, ix) && InRange(h, act) && Ordered(h, act, 0) && h != []
    ensures var g := h[0 := h[|h| - 1]]; var jx := ix[g[0] := 0][h[0] := -1];
      && Indexed(g[..|h| - 1], jx) && OrderedDown(g[..|h| - 1], act, 0, 0) && InRange(g[..|h| - 1], act)
      && forall y :: 0 <= y < |jx| ==> (jx[y] >= 0 <==> ix[y] >= 0 && y != h[0])
  {
    var g := h[0 := h[|h| - 1]][..|h| - 1];
    forall k | 0 < k < |g| && Parent(k) != 0 ensures NotAbove(g, act, k) { assert NotAbove(h, act, k); }
  }
}
