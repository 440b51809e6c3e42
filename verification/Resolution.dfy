/** What conflict analysis derives: marked variables stand for the false literals of the
    current resolvent, and closing them under reasons loses nothing. */
module Resolution {
  import opened Cnf
  import opened Trails
  import opened WatchLists

  type Cnfs = seq<Clause<nat>>

  ghost predicate AllEntailed(F: Cnfs, db: Db) { forall cr :: 0 <= cr < |db| ==> Entails(F, db[cr]) }

  ghost predicate RootsEntailed(F: Cnfs, t: Trail) {
    forall i :: 0 <= i < |t.lits| && LevelOf(t, t.lits[i]) == 0 ==> Entails(F, [t.lits[i]])
  }

  ghost predicate SomeTrue(m: set<nat>, S: set<L>) { exists l :: l in S && LitTrue(m, l) }

  ghost predicate EntailsSet(F: Cnfs, S: set<L>) { forall m: set<nat> :: Models(m, F) ==> SomeTrue(m, S) }

  predicate IsFalse(t: Trail, l: L) { Value(t.assigns, l) == LFalse }

  predicate IsSeen(seen: seq<bool>, x: nat) { x < |seen| && seen[x] }

  /** The false literals of the marked variables. */
  ghost function Marked(t: Trail, seen: seq<bool>): set<L> {
    set i | 0 <= i < |t.lits| && IsSeen(seen, t.lits[i].v) :: t.lits[i].Neg()
  }

  /** The literal that is false at its place on the trail. */
  lemma FalseOnTrail(t: Trail, l: L) returns (i: nat)
    requires Linked(t) && IsFalse(t, l)
    ensures l.v < |t.pos| == |t.level| && i == t.pos[l.v] && i < |t.lits| && t.lits[i] == l.Neg()
  {
    i := t.pos[l.v];
  }

  lemma SingleTrue(m: set<nat>, l: L)
    requires ClauseTrue(m, [l])
    ensures LitTrue(m, l)
  {
  }

  lemma RootFalse(F: Cnfs, t: Trail, m: set<nat>, l: L)
    requires Linked(t) && RootsEntailed(F, t) && Models(m, F)
    requires IsFalse(t, l) && LevelOf(t, l) == 0
    ensures !LitTrue(m, l)
  {
    var i := FalseOnTrail(t, l);
    assert LevelOf(t, t.lits[i]) == 0;
    assert ClauseTrue(m, [t.lits[i]]);
    SingleTrue(m, t.lits[i]);
  }

  /** A true literal of a clause is its first one, or marked. */
  lemma TrueIsMarked(F: Cnfs, t: Trail, m: set<nat>, c: seq<L>, from: nat, seen: seq<bool>) returns (l: L)
    requires Linked(t) && RootsEntailed(F, t) && Models(m, F) && Entails(F, c)
    requires forall j :: from <= j < |c| ==> IsFalse(t, c[j]) && (LevelOf(t, c[j]) == 0 || IsSeen(seen, c[j].v))
    ensures LitTrue(m, l) && (l in Marked(t, seen) || exists j :: 0 <= j < from && j < |c| && l == c[j])
  {
    assert ClauseTrue(m, c);
    l :| l in c && LitTrue(m, l);
    var j :| 0 <= j < |c| && c[j] == l;
    if from <= j {
      if LevelOf(t, l) == 0 { RootFalse(F, t, m, l); }
      var i := FalseOnTrail(t, l);
      assert t.lits[i].Neg() == l;
    }
  }

  /** All false literals of a conflicting clause are marked: they are a resolvent. */
  lemma StartResolvent(F: Cnfs, t: Trail, c: seq<L>, seen: seq<bool>)
    requires Linked(t) && RootsEntailed(F, t) && Entails(F, c)
    requires forall j :: 0 <= j < |c| ==> IsFalse(t, c[j]) && (LevelOf(t, c[j]) == 0 || IsSeen(seen, c[j].v))
    ensures EntailsSet(F, Marked(t, seen))
  {
    forall m: set<nat> | Models(m, F) ensures SomeTrue(m, Marked(t, seen)) {
      var l := TrueIsMarked(F, t, m, c, 0, seen);
    }
  }

  /** Resolving with the reason of c[0] replaces its negation by the other literals. */
  lemma Resolve(F: Cnfs, t: Trail, c: seq<L>, seen: seq<bool>, seen2: seq<bool>)
    requires Linked(t) && RootsEntailed(F, t) && c != [] && Entails(F, c)
    requires EntailsSet(F, Marked(t, seen) + {c[0].Neg()})
    requires forall x :: IsSeen(seen, x) ==> IsSeen(seen2, x)
    requires forall j :: 1 <= j < |c| ==> IsFalse(t, c[j]) && (LevelOf(t, c[j]) == 0 || IsSeen(seen2, c[j].v))
    ensures EntailsSet(F, Marked(t, seen2))
  {
    forall m: set<nat> | Models(m, F) ensures SomeTrue(m, Marked(t, seen2)) {
      assert SomeTrue(m, Marked(t, seen) + {c[0].Neg()});
      var l :| l in Marked(t, seen) + {c[0].Neg()} && LitTrue(m, l);
      if l in Marked(t, seen) {
        assert l in Marked(t, seen2);
      } else {
        var r := TrueIsMarked(F, t, m, c, 1, seen2);
        assert r != c[0];
      }
    }
  }

  /** Taking the mark off a variable sets its literal aside. */
  lemma Unmark(F: Cnfs, t: Trail, seen: seq<bool>, i: nat)
    requires Linked(t) && i < |t.lits| && t.lits[i].v < |seen| && EntailsSet(F, Marked(t, seen))
    ensures EntailsSet(F, Marked(t, seen[t.lits[i].v := false]) + {t.lits[i].Neg()})
  {
    var rest := Marked(t, seen[t.lits[i].v := false]) + {t.lits[i].Neg()};
    forall m: set<nat> | Models(m, F) ensures SomeTrue(m, rest) {
      assert SomeTrue(m, Marked(t, seen));
      var l :| l in Marked(t, seen) && LitTrue(m, l);
      var k :| 0 <= k < |t.lits| && IsSeen(seen, t.lits[k].v) && t.lits[k].Neg() == l;
      if k != i { assert l in Marked(t, seen[t.lits[i].v := false]); }
    }
  }

  // ---------------------------------------------------------------- minimisation

  /** All other literals of the reason of x are marked or false at the root. */
  ghost predicate Closed(t: Trail, db: Db, seen: seq<bool>, x: nat) {
    && x < |t.reason| && t.reason[x].CRef? && t.reason[x].id < |db|
    && forall j :: 1 <= j < |db[t.reason[x].id]| ==>
         LevelOf(t, db[t.reason[x].id][j]) == 0 || IsSeen(seen, db[t.reason[x].id][j].v)
  }

  /** Every marked variable is kept, or its literal follows from the marked ones. */
  ghost predicate ClosedBut(t: Trail, db: Db, seen: seq<bool>, kept: set<nat>) {
    forall x: nat :: IsSeen(seen, x) ==> x in kept || Closed(t, db, seen, x)
  }

  lemma {:induction false} ClosureFalse(F: Cnfs, t: Trail, db: Db, seen: seq<bool>, kept: set<nat>, m: set<nat>, i: nat)
    requires Linked(t) && Reasoned(t, db) && AllEntailed(F, db) && RootsEntailed(F, t) && Models(m, F)
    requires ClosedBut(t, db, seen, kept)
    requires forall k :: 0 <= k < |t.lits| && t.lits[k].v in kept ==> LitTrue(m, t.lits[k])
    requires i < |t.lits| && IsSeen(seen, t.lits[i].v)
    ensures LitTrue(m, t.lits[i])
    decreases i
  {
    var x := t.lits[i].v;
    if x !in kept {
      assert Closed(t, db, seen, x) && Implied(t, db, i);
      var c := db[t.reason[x].id];
      assert Entails(F, c) && ClauseTrue(m, c);
      var l :| l in c && LitTrue(m, l);
      var j :| 0 <= j < |c| && c[j] == l;
      if j > 0 {
        assert FalseBefore(t, l, i) && IsFalse(t, l);
        if LevelOf(t, l) == 0 {
          RootFalse(F, t, m, l);
        } else {
          ClosureFalse(F, t, db, seen, kept, m, t.pos[l.v]);
        }
      }
    }
  }

  /** Dropping the marked literals that are not kept leaves an entailed clause. */
  lemma MinimisedEntailed(F: Cnfs, t: Trail, db: Db, before: seq<bool>, seen: seq<bool>, p: L, out: seq<L>)
    requires Linked(t) && Reasoned(t, db) && AllEntailed(F, db) && RootsEntailed(F, t)
    requires EntailsSet(F, Marked(t, before) + {p}) && forall x :: IsSeen(before, x) ==> IsSeen(seen, x)
    requires forall l :: l in out ==> IsFalse(t, l)
    requires ClosedBut(t, db, seen, Vars(out))
    ensures Entails(F, [p] + out)
  {
    var kept := Vars(out);
    forall m: set<nat> | Models(m, F) ensures ClauseTrue(m, [p] + out) {
      if l :| l in out && LitTrue(m, l) {
        assert l in [p] + out;
      } else {
        forall k | 0 <= k < |t.lits| && t.lits[k].v in kept ensures LitTrue(m, t.lits[k]) {
          var l :| l in out && l.v == t.lits[k].v;
          var i := FalseOnTrail(t, l);
        }
        assert SomeTrue(m, Marked(t, before) + {p});
        var l :| l in Marked(t, before) + {p} && LitTrue(m, l);
        if l in Marked(t, before) {
          var k :| 0 <= k < |t.lits| && IsSeen(before, t.lits[k].v) && t.lits[k].Neg() == l;
          ClosureFalse(F, t, db, seen, kept, m, k);
        }
        assert p in [p] + out;
      }
    }
  }

  // ------------------------------------------------------ the assumptions' share

  /** The false literals of the marked variables among the first i of the trail. */
  ghost function MarkedBelow(t: Trail, seen: seq<bool>, i: nat): set<L> {
    set k | 0 <= k < |t.lits| && k < i && IsSeen(seen, t.lits[k].v) :: t.lits[k].Neg()
  }

  /** Resolving away the last marked literal with its reason. */
  lemma ResolveBelow(F: Cnfs, t: Trail, db: Db, seen: seq<bool>, seen2: seq<bool>, i: nat, out: set<L>)
    requires Linked(t) && Reasoned(t, db) && AllEntailed(F, db) && RootsEntailed(F, t)
    requires i < |t.lits| && t.reason[t.lits[i].v].CRef? && t.reason[t.lits[i].v].id < |db|
    requires EntailsSet(F, out + MarkedBelow(t, seen, i + 1))
    requires forall x :: IsSeen(seen, x) && x != t.lits[i].v ==> IsSeen(seen2, x)
    requires var c := db[t.reason[t.lits[i].v].id];
      forall j :: 1 <= j < |c| ==> LevelOf(t, c[j]) == 0 || IsSeen(seen2, c[j].v)
    ensures EntailsSet(F, out + MarkedBelow(t, seen2, i))
  {
    assert Implied(t, db, i);
    var c := db[t.reason[t.lits[i].v].id];
    forall m: set<nat> | Models(m, F) ensures SomeTrue(m, out + MarkedBelow(t, seen2, i)) {
      assert SomeTrue(m, out + MarkedBelow(t, seen, i + 1));
      var l :| l in out + MarkedBelow(t, seen, i + 1) && LitTrue(m, l);
      if l !in out {
        var k :| 0 <= k < |t.lits| && k < i + 1 && IsSeen(seen, t.lits[k].v) && t.lits[k].Neg() == l;
        if k < i {
          assert l in MarkedBelow(t, seen2, i);
        } else {
          ReasonHasTrue(F, t, db, seen2, i, m);
        }
      }
    }
  }

  lemma ReasonHasTrue(F: Cnfs, t: Trail, db: Db, seen: seq<bool>, i: nat, m: set<nat>)
    requires Linked(t) && AllEntailed(F, db) && RootsEntailed(F, t) && Models(m, F)
    requires i < |t.lits| && t.reason[t.lits[i].v].CRef? && Implied(t, db, i)
    requires var c := db[t.reason[t.lits[i].v].id];
      forall j :: 1 <= j < |c| ==> LevelOf(t, c[j]) == 0 || IsSeen(seen, c[j].v)
    requires !LitTrue(m, t.lits[i])
    ensures SomeTrue(m, MarkedBelow(t, seen, i))
  {
    var c := db[t.reason[t.lits[i].v].id];
    assert Entails(F, c) && ClauseTrue(m, c);
    var l :| l in c && LitTrue(m, l);
    var j :| 0 <= j < |c| && c[j] == l;
    assert j >= 1 && FalseBefore(t, l, i) && IsFalse(t, l);
    if LevelOf(t, l) == 0 { RootFalse(F, t, m, l); }
    assert t.lits[t.pos[l.v]].Neg() == l;
  }

  /** A marked decision goes into the final clause. */
  lemma DecisionBelow(F: Cnfs, t: Trail, seen: seq<bool>, i: nat, out: set<L>)
    requires Linked(t) && i < |t.lits| && t.lits[i].v < |seen|
    requires EntailsSet(F, out + MarkedBelow(t, seen, i + 1))
    ensures EntailsSet(F, out + {t.lits[i].Neg()} + MarkedBelow(t, seen[t.lits[i].v := false], i))
  {
    var more := out + {t.lits[i].Neg()} + MarkedBelow(t, seen[t.lits[i].v := false], i);
    forall m: set<nat> | Models(m, F) ensures SomeTrue(m, more) {
      assert SomeTrue(m, out + MarkedBelow(t, seen, i + 1));
      var l :| l in out + MarkedBelow(t, seen, i + 1) && LitTrue(m, l);
      if l !in out {
        var k :| 0 <= k < |t.lits| && k < i + 1 && IsSeen(seen, t.lits[k].v) && t.lits[k].Neg() == l;
        if k < i { assert t.lits[k].v != t.lits[i].v; assert l in MarkedBelow(t, seen[t.lits[i].v := false], i); }
      }
      assert l in more;
    }
  }
}
