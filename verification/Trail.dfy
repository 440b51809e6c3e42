/** The assignment stack of the conflict-driven solver, as values: what links the
    trail, the decision levels and the reasons, and how pushing and cancelling keep it. */
module Trails {
  import opened Cnf
  import opened Sets

  type L = Lit<nat>

  /** The number of a literal: a variable's two literals are next to each other. */
  function ToInt(l: L): nat { l.v + l.v + (if l.pos then 0 else 1) }
  type Db = seq<seq<L>>

  datatype LBool = LTrue | LFalse | LUndef
  datatype CRef = CRefUndef | CRef(id: nat)

  function Value(assigns: seq<LBool>, l: L): LBool {
    if l.v >= |assigns| || assigns[l.v] == LUndef then LUndef
    else if (assigns[l.v] == LTrue) == l.pos then LTrue
    else LFalse
  }

  function Truth(l: L): LBool { if l.pos then LTrue else LFalse }

  lemma NegValue(assigns: seq<LBool>, l: L)
    ensures Value(assigns, l.Neg()) == LTrue <==> Value(assigns, l) == LFalse
    ensures Value(assigns, l.Neg()) == LFalse <==> Value(assigns, l) == LTrue
    ensures l.Neg().Neg() == l
  {
  }

  /** `lits` in the order of assignment, `lim` where each decision level starts, `pos`
      where each variable stands. */
  datatype Trail = Trail(assigns: seq<LBool>, lits: seq<L>, lim: seq<nat>,
                         level: seq<nat>, reason: seq<CRef>, pos: seq<nat>)

  // ------------------------------------------------------------------ invariants

  /** Exactly the variables on the trail are assigned, each at its own place. */
  ghost predicate Linked(t: Trail) {
    && |t.level| == |t.reason| == |t.pos| == |t.assigns|
    && (forall i :: 0 <= i < |t.lits| ==>
          t.lits[i].v < |t.assigns| && t.pos[t.lits[i].v] == i && t.assigns[t.lits[i].v] == Truth(t.lits[i]))
    && (forall x :: 0 <= x < |t.assigns| && t.assigns[x] != LUndef ==>
          t.pos[x] < |t.lits| && t.lits[t.pos[x]].v == x)
  }

  /** The levels cut the trail into consecutive pieces. */
  ghost predicate Levelled(t: Trail)
    requires Linked(t)
  {
    && (forall k :: 0 <= k < |t.lim| ==> t.lim[k] <= |t.lits|)
    && (forall k, l :: 0 <= k < l < |t.lim| ==> t.lim[k] <= t.lim[l])
    && (forall i :: 0 <= i < |t.lits| ==> t.level[t.lits[i].v] <= |t.lim|)
    && (forall i, k :: 0 <= i < |t.lits| && 0 <= k < |t.lim| ==> (t.level[t.lits[i].v] > k <==> i >= t.lim[k]))
  }

  /** The literal became false before position i. */
  ghost predicate FalseBefore(t: Trail, l: L, i: nat)
    requires Linked(t) && i <= |t.lits|
  {
    l.v < |t.pos| && t.pos[l.v] < i && t.lits[t.pos[l.v]] == l.Neg()
  }

  /** The reason clause has the implied literal first, and all others false before it. */
  ghost predicate Implied(t: Trail, db: Db, i: nat)
    requires Linked(t) && i < |t.lits| && t.reason[t.lits[i].v].CRef?
  {
    var cr := t.reason[t.lits[i].v].id;
    && cr < |db| && db[cr] != [] && db[cr][0] == t.lits[i]
    && forall j :: 1 <= j < |db[cr]| ==> FalseBefore(t, db[cr][j], i)
  }

  /** A literal above the root level without a reason is the decision of its level. */
  ghost predicate Reasoned(t: Trail, db: Db)
    requires Linked(t)
  {
    && (forall i :: 0 <= i < |t.lits| && t.reason[t.lits[i].v].CRef? ==> Implied(t, db, i))
    && (forall i :: 0 <= i < |t.lits| && t.reason[t.lits[i].v] == CRefUndef && 0 < t.level[t.lits[i].v] <= |t.lim| ==>
          i == t.lim[t.level[t.lits[i].v] - 1])
  }

  ghost predicate TrailOk(t: Trail, db: Db) { Linked(t) && Levelled(t) && Reasoned(t, db) }

  // ------------------------------------------------------------------ operations

  function Push(t: Trail, p: L, from: CRef): Trail
    requires p.v < |t.assigns| == |t.level| == |t.reason| == |t.pos|
  {
    Trail(t.assigns[p.v := Truth(p)], t.lits + [p], t.lim,
          t.level[p.v := |t.lim|], t.reason[p.v := from], t.pos[p.v := |t.lits|])
  }

  function NewLevel(t: Trail): Trail { t.(lim := t.lim + [|t.lits|]) }

  /** Everything above the level is unassigned. */
  function Cancel(t: Trail, lv: nat): Trail
    requires lv < |t.lim| && t.lim[lv] <= |t.lits| && |t.pos| == |t.assigns|
  {
    t.(assigns := seq(|t.assigns|, (x: nat) requires x < |t.assigns| == |t.pos| =>
                      if t.pos[x] >= t.lim[lv] then LUndef else t.assigns[x]),
       lits := t.lits[..t.lim[lv]],
       lim := t.lim[..lv])
  }

  lemma PushLinked(t: Trail, p: L, from: CRef)
    requires Linked(t) && Levelled(t) && p.v < |t.assigns| && Value(t.assigns, p) == LUndef
    ensures Linked(Push(t, p, from)) && Levelled(Push(t, p, from))
    ensures forall i :: 0 <= i < |t.lits| ==> t.lits[i].v != p.v
  {
  }

  lemma PushImplied(t: Trail, db: Db, p: L, from: CRef, i: nat)
    requires TrailOk(t, db) && p.v < |t.assigns| && Value(t.assigns, p) == LUndef
    requires from.CRef? ==> from.id < |db| && db[from.id] != [] && db[from.id][0] == p
                            && forall j :: 1 <= j < |db[from.id]| ==> Value(t.assigns, db[from.id][j]) == LFalse
    requires Linked(Push(t, p, from)) && i <= |t.lits| && Push(t, p, from).reason[Push(t, p, from).lits[i].v].CRef?
    requires forall i :: 0 <= i < |t.lits| ==> t.lits[i].v != p.v
    ensures Implied(Push(t, p, from), db, i)
  {
    hide Levelled;
    var u := Push(t, p, from);
    if i < |t.lits| {
      assert u.lits[i] == t.lits[i] && u.reason[u.lits[i].v] == t.reason[t.lits[i].v];
      assert Implied(t, db, i);
      var c := db[t.reason[t.lits[i].v].id];
      forall j | 1 <= j < |c| ensures FalseBefore(u, c[j], i) {
        assert FalseBefore(t, c[j], i);
        assert c[j].v != p.v;
      }
    } else {
      var c := db[from.id];
      forall j | 1 <= j < |c| ensures FalseBefore(u, c[j], i) { assert Value(t.assigns, c[j]) == LFalse; }
    }
  }

  lemma PushOk(t: Trail, db: Db, p: L, from: CRef)
    requires TrailOk(t, db) && p.v < |t.assigns| && Value(t.assigns, p) == LUndef
    requires from.CRef? ==> from.id < |db| && db[from.id] != [] && db[from.id][0] == p
                            && forall j :: 1 <= j < |db[from.id]| ==> Value(t.assigns, db[from.id][j]) == LFalse
    requires from == CRefUndef ==> t.lim == [] || t.lim[|t.lim| - 1] == |t.lits|
    ensures TrailOk(Push(t, p, from), db)
    ensures forall l: L :: Value(t.assigns, l) != LUndef ==>
              Value(Push(t, p, from).assigns, l) == Value(t.assigns, l)
    ensures Value(Push(t, p, from).assigns, p) == LTrue
  {
    hide Implied, Levelled;
    var u := Push(t, p, from);
    PushLinked(t, p, from);
    forall i: nat | 0 <= i < |u.lits| && u.reason[u.lits[i].v].CRef? ensures Implied(u, db, i) {
      PushImplied(t, db, p, from, i);
    }
    assert forall i :: 0 <= i < |t.lits| ==> u.lits[i] == t.lits[i];
  }

  lemma NewLevelOk(t: Trail, db: Db)
    requires TrailOk(t, db)
    ensures TrailOk(NewLevel(t), db)
  {
    var u := NewLevel(t);
    assert Linked(u) && Levelled(u);
    forall i | 0 <= i < |u.lits| && u.reason[u.lits[i].v].CRef? ensures Implied(u, db, i) {
      assert Implied(t, db, i);
      var c := db[t.reason[t.lits[i].v].id];
      forall j | 1 <= j < |c| ensures FalseBefore(u, c[j], i) { assert FalseBefore(t, c[j], i); }
    }
  }

  /** Below the level nothing changes; above it nothing is assigned. */
  lemma CancelOk(t: Trail, db: Db, lv: nat)
    requires TrailOk(t, db) && lv < |t.lim|
    ensures TrailOk(Cancel(t, lv), db)
    ensures forall l: L :: Value(t.assigns, l) != LUndef && t.level[l.v] <= lv ==>
              Value(Cancel(t, lv).assigns, l) == Value(t.assigns, l)
    ensures forall l: L :: l.v < |t.assigns| && Value(t.assigns, l) != LUndef && t.level[l.v] > lv ==>
              Value(Cancel(t, lv).assigns, l) == LUndef
  {
    var u := Cancel(t, lv);
    assert Linked(u);
    assert Levelled(u);
    forall i | 0 <= i < |u.lits| && u.reason[u.lits[i].v].CRef? ensures Implied(u, db, i) {
      assert Implied(t, db, i);
      var c := db[t.reason[t.lits[i].v].id];
      forall j | 1 <= j < |c| ensures FalseBefore(u, c[j], i) { assert FalseBefore(t, c[j], i); }
    }
  }

  /** The clauses that are reasons may only be changed by leaving them as they are. */
  lemma ReasonsKept(t: Trail, db: Db, db2: Db)
    requires TrailOk(t, db) && |db| <= |db2|
    requires forall cr :: 0 <= cr < |db| && db2[cr] != db[cr] ==> db[cr] != [] && Value(t.assigns, db[cr][0]) != LTrue
    ensures TrailOk(t, db2)
  {
    forall i | 0 <= i < |t.lits| && t.reason[t.lits[i].v].CRef? ensures Implied(t, db2, i) {
      assert Implied(t, db, i);
      var cr := t.reason[t.lits[i].v].id;
      assert Value(t.assigns, db[cr][0]) == LTrue;
      assert db2[cr] == db[cr];
      forall j | 1 <= j < |db2[cr]| ensures FalseBefore(t, db2[cr][j], i) { assert FalseBefore(t, db[cr][j], i); }
    }
  }

  /** There are no more literals on the trail than variables. */
  lemma TrailBound(t: Trail)
    requires Linked(t)
    ensures |t.lits| <= |t.assigns|
  {
    PrefixBound(t, |t.lits|);
    BelowSize(|t.assigns|);
    SubsetSize(set i | 0 <= i < |t.lits| :: t.lits[i].v, Below(|t.assigns|));
  }

  lemma {:induction false} PrefixBound(t: Trail, k: nat)
    requires Linked(t) && k <= |t.lits|
    ensures |set i | 0 <= i < k :: t.lits[i].v| == k
  {
    if k > 0 {
      PrefixBound(t, k - 1);
      var s := set i | 0 <= i < k - 1 :: t.lits[i].v;
      assert t.lits[k - 1].v !in s;
      assert (set i | 0 <= i < k :: t.lits[i].v) == s + {t.lits[k - 1].v};
    }
  }
}
