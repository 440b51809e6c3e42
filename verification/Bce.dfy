/** Elimination of blocked clauses. */
module BlockedClauses {
  import opened Cnf
  import opened Trails
  import opened Elimination
  import Adding

  /** In increasing order of variables, each once. */
  ghost predicate SortedVars(c: seq<L>) { forall i, j :: 0 <= i < j < |c| ==> c[i].v < c[j].v }

  lemma SortedIsDistinct(c: seq<L>)
    requires SortedVars(c)
    ensures Distinct(c)
  {
  }

  /** Is the resolvent of the two clauses on the variable of lit always true?  A merge of
      two sorted clauses. */
  method TautResolvent(c1: seq<L>, c2: seq<L>, lit: L) returns (res: bool)
    requires SortedVars(c1) && SortedVars(c2)
    ensures res <==> Clash(c1, c2, lit.v)
  {
    var i, j := 0, 0;
    while i < |c1| && j < |c2|
      invariant i <= |c1| && j <= |c2|
      invariant forall x, y :: 0 <= x < |c1| && 0 <= y < |c2| && (x < i || y < j) && c1[x].v == c2[y].v && c1[x].v != lit.v ==>
                  c1[x] == c2[y]
      decreases |c1| - i + |c2| - j
    {
      var v1, v2 := c1[i].v, c2[j].v;
      if v1 < v2 {
        i := i + 1;
      } else if v1 > v2 {
        j := j + 1;
      } else if v1 == lit.v {
        i, j := i + 1, j + 1;
      } else if c1[i].pos == c2[j].pos {
        i, j := i + 1, j + 1;
      } else {
        assert c1[i] in c1 && c1[i].Neg() == c2[j] && c2[j] in c2;
        return true;
      }
    }
    forall l: L | l in c1 && l.v != lit.v ensures l.Neg() !in c2 {
      var x :| 0 <= x < |c1| && c1[x] == l;
      forall y | 0 <= y < |c2| ensures c2[y] != l.Neg() {}
    }
    res := false;
  }

  // ------------------------------------------------------------- blocked clauses

  /** All resolvents on l with the clauses that are left are always true. */
  ghost predicate Blocked(c: seq<L>, l: L, live: set<seq<L>>) {
    forall d :: d in live && l.Neg() in d ==> Clash(c, d, l.v)
  }

  ghost predicate ModelsSet(m: set<nat>, F: set<seq<L>>) { forall c :: c in F ==> ClauseTrue(m, c) }

  ghost predicate HasModel(F: set<seq<L>>) { exists m: set<nat> :: ModelsSet(m, F) }

  function MakeTrue(m: set<nat>, l: L): set<nat> { if l.pos then m + {l.v} else m - {l.v} }

  /** A model of the other clauses, or that model with l made true, satisfies a clause that
      is blocked on l as well. */
  lemma BlockedHasModel(c: seq<L>, l: L, F: set<seq<L>>)
    requires l in c && Blocked(c, l, F) && HasModel(F)
    ensures HasModel(F + {c})
  {
    var m: set<nat> :| ModelsSet(m, F);
    if ClauseTrue(m, c) {
      assert ModelsSet(m, F + {c});
    } else {
      var k := MakeTrue(m, l);
      forall d | d in F + {c} ensures ClauseTrue(k, d) {
        if d == c { assert LitTrue(k, l); } else { FlippedTrue(c, l, d, m, F); }
      }
      assert ModelsSet(k, F + {c});
    }
  }

  lemma FlippedTrue(c: seq<L>, l: L, d: seq<L>, m: set<nat>, F: set<seq<L>>)
    requires l in c && Blocked(c, l, F) && d in F && ClauseTrue(m, d) && !ClauseTrue(m, c)
    ensures ClauseTrue(MakeTrue(m, l), d)
  {
    if l.Neg() in d {
      var x: L :| x in c && x.Neg() in d && x.v != l.v;
      assert !LitTrue(m, x);
      assert LitTrue(MakeTrue(m, l), x.Neg());
    } else {
      var x :| x in d && LitTrue(m, x);
      assert x.v == l.v ==> x == l;
      assert LitTrue(MakeTrue(m, l), x);
    }
  }

  // ------------------------------------------------------------------ the simplifier

  /** The clauses that are not removed. */
  ghost function Live(cls: seq<seq<L>>, removed: seq<bool>): set<seq<L>>
    requires |removed| == |cls|
  {
    set i | 0 <= i < |cls| && !removed[i] :: cls[i]
  }

  /** How many live clauses contain the literal. */
  ghost function ActiveCount(cls: seq<seq<L>>, removed: seq<bool>, l: L): nat
    requires |removed| == |cls|
  {
    if cls == [] then 0
    else ActiveCount(cls[..|cls| - 1], removed[..|cls| - 1], l)
         + (if !removed[|cls| - 1] && l in cls[|cls| - 1] then 1 else 0)
  }

  lemma {:induction false} RemoveCounts(cls: seq<seq<L>>, removed: seq<bool>, k: nat, l: L)
    requires |removed| == |cls| && k < |cls| && !removed[k]
    ensures ActiveCount(cls, removed, l) == ActiveCount(cls, removed[k := true], l) + if l in cls[k] then 1 else 0
  {
    var n := |cls| - 1;
    if k < n {
      RemoveCounts(cls[..n], removed[..n], k, l);
      assert removed[k := true][..n] == removed[..n][k := true];
    } else {
      assert removed[k := true][..n] == removed[..n];
    }
  }

  /** Some live clause with the opposite literal has a resolvent that is not always true. */
  ghost predicate HasWitness(cls: seq<seq<L>>, removed: seq<bool>, k: nat, l: L)
    requires |removed| == |cls| && k < |cls|
  {
    exists d :: 0 <= d < |cls| && !removed[d] && l.Neg() in cls[d] && !Clash(cls[k], cls[d], l.v)
  }

  /** No live clause is blocked on this literal. */
  ghost predicate Cleared(cls: seq<seq<L>>, removed: seq<bool>, l: L)
    requires |removed| == |cls|
  {
    forall k :: 0 <= k < |cls| && !removed[k] && l in cls[k] ==> HasWitness(cls, removed, k, l)
  }

  /** Removing a clause spoils only the literals opposite to its own. */
  lemma ClearedKept(cls: seq<seq<L>>, removed: seq<bool>, k: nat, l: L)
    requires |removed| == |cls| && k < |cls| && Cleared(cls, removed, l) && l.Neg() !in cls[k]
    ensures Cleared(cls, removed[k := true], l)
  {
    var gone := removed[k := true];
    forall c | 0 <= c < |cls| && !gone[c] && l in cls[c] ensures HasWitness(cls, gone, c, l) {
      assert HasWitness(cls, removed, c, l);
      var d :| 0 <= d < |cls| && !removed[d] && l.Neg() in cls[d] && !Clash(cls[c], cls[d], l.v);
      assert d != k;
    }
  }

  /** A clause, by its index, and the literal on which it was found to be blocked. */
  datatype Removal = Removal(k: nat, lit: L)

  /** Which clauses are gone after the removals. */
  function Flags(cls: seq<seq<L>>, gone: seq<Removal>): (fs: seq<bool>)
    ensures |fs| == |cls|
  {
    if gone == [] then seq(|cls|, _ => false)
    else
      var fs, last := Flags(cls, gone[..|gone| - 1]), gone[|gone| - 1];
      if last.k < |cls| then fs[last.k := true] else fs
  }

  /** Each removed clause was live, and blocked among the clauses that were live then. */
  ghost predicate Justified(cls: seq<seq<L>>, gone: seq<Removal>) {
    gone == [] ||
    var init, last := gone[..|gone| - 1], gone[|gone| - 1];
    && Justified(cls, init) && last.k < |cls| && !Flags(cls, init)[last.k]
    && last.lit in cls[last.k] && Blocked(cls[last.k], last.lit, Live(cls, Flags(cls, init)))
  }

  lemma JustifiedPush(cls: seq<seq<L>>, gone: seq<Removal>, k: nat, lit: L)
    requires Justified(cls, gone) && k < |cls| && !Flags(cls, gone)[k]
    requires lit in cls[k] && Blocked(cls[k], lit, Live(cls, Flags(cls, gone)))
    ensures Justified(cls, gone + [Removal(k, lit)])
    ensures Flags(cls, gone + [Removal(k, lit)]) == Flags(cls, gone)[k := true]
  {
    assert (gone + [Removal(k, lit)])[..|gone|] == gone;
  }

  class BCESimplifier {
    const cls: seq<seq<L>>
    var removed: seq<bool>
    ghost var gone: seq<Removal>  // the removed clauses, in the order of their removal
    var occs: map<L, seq<nat>>
    var activeSize: map<L, int>
    var queue: set<L>

    /** Sorted clauses without opposite literals. */
    ghost predicate Input() { forall k :: 0 <= k < |cls| ==> SortedVars(cls[k]) }

    /** Each list holds clauses with its literal, and all that are live. */
    ghost predicate OccsOk()
      reads this`removed, this`occs
    {
      && |removed| == |cls|
      && (forall l :: l in occs ==> forall i :: 0 <= i < |occs[l]| ==> occs[l][i] < |cls| && l in cls[occs[l][i]])
      && (forall k, l :: 0 <= k < |cls| && !removed[k] && l in cls[k] ==> l in occs && k in occs[l])
    }

    ghost predicate CountsOk()
      reads this`removed, this`activeSize
    {
      |removed| == |cls| && forall l :: l in activeSize ==> activeSize[l] == ActiveCount(cls, removed, l)
    }

    /** The live clauses have a model exactly if all do. */
    ghost predicate Equisatisfiable()
      reads this`removed
    {
      |removed| == |cls| && (HasModel(Live(cls, removed)) <==> HasModel(set c | c in cls))
    }

    /** The removed clauses are those of the record, each justified when it went. */
    ghost predicate OnlyBlocked()
      reads this`removed, this`gone
    {
      removed == Flags(cls, gone) && Justified(cls, gone)
    }

    ghost predicate Valid()
      reads this`removed, this`gone, this`occs, this`activeSize
    {
      Input() && OccsOk() && CountsOk() && Equisatisfiable() && OnlyBlocked()
    }

    function List(l: L): seq<nat>
      reads this`occs
    {
      if l in occs then occs[l] else []
    }

    /** The clauses are sorted, and every literal is counted and listed. */
    constructor (cs: seq<seq<L>>)
      requires forall k :: 0 <= k < |cs| ==> Distinct(cs[k])
      ensures Valid() && |cls| == |cs| && queue == {} && Touchable()
      ensures forall k :: 0 <= k < |cs| ==> multiset(cls[k]) == multiset(cs[k])
      ensures gone == [] && forall k :: 0 <= k < |cs| ==> !removed[k]
    {
      var sorted := SortAll(cs);
      cls, removed, queue := sorted, seq(|cs|, _ => false), {};
      occs, activeSize, gone := map[], map[], [];
      new;
      ListAll();
      SameClauses(cls, removed);
    }

    /** Every literal of a live clause has a counter. */
    ghost predicate Touchable()
      reads this`removed, this`activeSize
    {
      |removed| == |cls| && forall k, l :: 0 <= k < |cls| && !removed[k] && l in cls[k] ==> l in activeSize
    }

    /** Lists and counts the clauses one by one. */
    method ListAll()
      requires |removed| == |cls| && occs == map[] && activeSize == map[] && forall k :: 0 <= k < |cls| ==> !removed[k]
      requires Input()
      modifies this`occs, this`activeSize
      ensures OccsOk() && CountsOk() && Touchable()
    {
      var n := 0;
      while n < |cls|
        invariant n <= |cls|
        invariant ListedTo(n) && CountedTo(n)
      {
        ListClause(n);
        CountClause(n);
        n := n + 1;
      }
      assert cls[..n] == cls && removed[..n] == removed;
    }

    /** The first n clauses are listed. */
    ghost predicate ListedTo(n: nat)
      requires n <= |cls|
      reads this`occs
    {
      && (forall l :: l in occs ==> forall i :: 0 <= i < |occs[l]| ==> occs[l][i] < n && l in cls[occs[l][i]])
      && (forall k, l :: 0 <= k < n && l in cls[k] ==> l in occs && k in occs[l])
    }

    /** The first n clauses are counted. */
    ghost predicate CountedTo(n: nat)
      requires |removed| == |cls| && n <= |cls|
      reads this`removed, this`activeSize
    {
      && (forall l :: l in activeSize ==> activeSize[l] == ActiveCount(cls[..n], removed[..n], l))
      && (forall k, l :: 0 <= k < n && l in cls[k] ==> l in activeSize)
      && (forall l :: l !in activeSize ==> ActiveCount(cls[..n], removed[..n], l) == 0)
    }

    method ListClause(n: nat)
      requires n < |cls| && ListedTo(n)
      modifies this`occs
      ensures ListedTo(n + 1)
    {
      var c := cls[n];
      var j := 0;
      while j < |c|
        invariant j <= |c|
        invariant forall l :: l in occs ==> forall i :: 0 <= i < |occs[l]| ==> occs[l][i] <= n && l in cls[occs[l][i]]
        invariant forall k, l :: 0 <= k < n && l in cls[k] ==> l in occs && k in occs[l]
        invariant forall i :: 0 <= i < j ==> c[i] in occs && n in occs[c[i]]
      {
        occs := occs[c[j] := List(c[j]) + [n]];
        j := j + 1;
      }
    }

    method CountClause(n: nat)
      requires |removed| == |cls| && n < |cls| && CountedTo(n) && SortedVars(cls[n]) && !removed[n]
      modifies this`activeSize
      ensures CountedTo(n + 1)
    {
      hide ActiveCount;
      var c := cls[n];
      var j := 0;
      assert c[..0] == [];
      while j < |c|
        invariant j <= |c|
        invariant forall l :: l in c[..j] ==> l in activeSize
        invariant forall k, l :: 0 <= k < n && l in cls[k] ==> l in activeSize
        invariant forall l :: l in activeSize ==>
                    activeSize[l] == ActiveCount(cls[..n], removed[..n], l) + if l in c[..j] then 1 else 0
        invariant forall l :: l !in activeSize ==> ActiveCount(cls[..n], removed[..n], l) == 0
      {
        var l := c[j];
        assert c[..j + 1] == c[..j] + [l];
        NotBefore(c, j);
        activeSize := activeSize[l := (if l in activeSize then activeSize[l] else 0) + 1];
        j := j + 1;
      }
      assert c[..j] == c;
      forall l ensures ActiveCount(cls[..n + 1], removed[..n + 1], l) ==
                         ActiveCount(cls[..n], removed[..n], l) + if l in c then 1 else 0
      {
        CountNext(cls, removed, n, l);
      }
    }

    // --------------------------------------------------------------- elimination

    /** No live clause is blocked on a literal outside the set. */
    ghost predicate ClearedBut(pending: set<L>)
      reads this`removed
    {
      |removed| == |cls| && forall l: L :: l !in pending ==> Cleared(cls, removed, l)
    }

    /** Puts every literal that occurs into the queue. */
    method TouchAll()
      requires Valid() && Touchable()
      modifies this`queue
      ensures Valid() && Touchable() && ClearedBut(queue)
    {
      queue := set l | l in activeSize && activeSize[l] != 0;
      forall l: L | l !in queue ensures Cleared(cls, removed, l) {
        if l in activeSize { NoneActive(cls, removed, l); }
      }
    }

    method DropEntry(lit: L, p: nat)
      requires OccsOk() && p < |List(lit)| && removed[List(lit)[p]]
      modifies this`occs
      ensures OccsOk() && List(lit) == Erase(old(List(lit)), p)
      ensures forall i :: 0 <= i < p ==> List(lit)[i] == old(List(lit))[i]
      ensures occs == old(occs)[lit := Erase(old(List(lit)), p)]
    {
      EraseKeeps(List(lit), p);
      occs := occs[lit := Erase(List(lit), p)];
    }

    /** The first p entries of the list stand for live clauses. */
    ghost predicate ListLive(p: nat, l: L)
      reads this
    {
      p <= |List(l)| && forall i :: 0 <= i < p ==> List(l)[i] < |removed| && !removed[List(l)[i]]
    }

    /** The entry at p and all before it stand for live clauses. */
    ghost predicate ScannedTo(p: nat, l: L)
      reads this
    {
      p < |List(l)| && List(l)[p] < |cls| && ListLive(p + 1, l)
    }

    /** Looks for a live clause with the opposite literal whose resolvent with clause k is
        not always true; removed clauses leave the list. */
    method FindWitness(k: nat, lit: L) returns (found: bool)
      requires Input() && OccsOk() && k < |cls| && lit in cls[k]
      modifies this`occs
      ensures OccsOk() && List(lit) == old(List(lit))
      ensures found ==> HasWitness(cls, removed, k, lit)
      ensures !found ==> Blocked(cls[k], lit, Live(cls, removed))
      ensures found ==> exists p: nat :: ScannedTo(p, lit.Neg()) && !Clash(cls[k], cls[List(lit.Neg())[p]], lit.v)
      ensures !found ==> ListLive(|List(lit.Neg())|, lit.Neg())
    {
      hide Clash;
      var p := 0;
      var opp := lit.Neg();
      while p < |List(opp)|
        invariant p <= |List(opp)| && OccsOk() && List(lit) == old(List(lit))
        invariant forall i :: 0 <= i < p ==> Clash(cls[k], cls[List(opp)[i]], lit.v)
        invariant ListLive(p, opp)
        decreases |List(opp)| - p
      {
        var d := List(opp)[p];
        if removed[d] {
          DropEntry(opp, p);
        } else {
          assert SortedVars(cls[k]) && SortedVars(cls[d]);
          var taut := TautResolvent(cls[k], cls[d], lit);
          if !taut {
            assert ScannedTo(p, opp);
            return true;
          }
          p := p + 1;
        }
      }
      found := false;
      forall d | d in Live(cls, removed) && opp in d ensures Clash(cls[k], d, lit.v) {
        var i :| 0 <= i < |cls| && !removed[i] && cls[i] == d;
        assert i in List(opp);
      }
    }

    /** Marks a blocked clause as removed and touches the opposites of its literals. */
    method Remove(k: nat, lit: L, ghost pending: set<L>)
      requires Valid() && Touchable() && k < |cls| && !removed[k] && lit in cls[k]
      requires Blocked(cls[k], lit, Live(cls, removed)) && ClearedBut(queue + pending)
      modifies this`removed, this`gone, this`activeSize, this`queue
      ensures removed == old(removed)[k := true] && gone == old(gone) + [Removal(k, lit)] && Valid()
      ensures Touchable() && ClearedBut(queue + pending)
      ensures old(queue) <= queue
    {
      hide ActiveCount, Blocked, HasModel, Cleared;
      BlockedGone(cls, removed, k, lit);
      ghost var was := removed;
      JustifiedPush(cls, gone, k, lit);
      removed := removed[k := true];
      gone := gone + [Removal(k, lit)];
      TouchOpposites(k, was);
      forall l: L | l !in queue + pending ensures Cleared(cls, removed, l) {
        assert l.Neg().Neg() == l;
        ClearedKept(cls, was, k, l);
      }
    }

    method TouchOpposites(k: nat, ghost was: seq<bool>)
      requires |was| == |cls| && k < |cls| && !was[k] && removed == was[k := true] && SortedVars(cls[k])
      requires forall l :: l in activeSize ==> activeSize[l] == ActiveCount(cls, was, l)
      requires forall l :: l in cls[k] ==> l in activeSize
      modifies this`activeSize, this`queue
      ensures CountsOk() && activeSize.Keys == old(activeSize.Keys) && old(queue) <= queue
      ensures forall l :: l in cls[k] ==> l.Neg() in queue
    {
      hide ActiveCount;
      var c := cls[k];
      var j := 0;
      while j < |c|
        invariant j <= |c| && activeSize.Keys == old(activeSize.Keys) && old(queue) <= queue
        invariant forall l :: l in c[..j] ==> l.Neg() in queue
        invariant forall l :: l in activeSize ==> activeSize[l] == ActiveCount(cls, was, l) - if l in c[..j] then 1 else 0
      {
        assert c[..j + 1] == c[..j] + [c[j]] && c[j] in c;
        NotBefore(c, j);
        activeSize := activeSize[c[j] := activeSize[c[j]] - 1];
        queue := queue + {c[j].Neg()};
        j := j + 1;
      }
      assert c[..j] == c;
      forall l | l in activeSize ensures activeSize[l] == ActiveCount(cls, removed, l) { RemoveCounts(cls, was, k, l); }
    }

    /** The clauses at the first p entries of the list are not blocked. */
    ghost predicate Witnessed(lit: L, p: nat)
      reads this
    {
      |removed| == |cls| && p <= |List(lit)|
      && forall i :: 0 <= i < p ==> List(lit)[i] < |cls| && HasWitness(cls, removed, List(lit)[i], lit)
    }

    /** Removes the clauses that are blocked on the literal. */
    method CheckLiteral(lit: L)
      requires Valid() && Touchable() && ClearedBut(queue + {lit})
      modifies this`removed, this`gone, this`occs, this`activeSize, this`queue
      ensures Valid() && Touchable() && ClearedBut(queue)
      ensures Remaining(removed) < Remaining(old(removed)) || (queue == old(queue) && removed == old(removed))
    {
      var p: nat := 0;
      assert Witnessed(lit, p);
      hide Valid, Touchable, ClearedBut, Remaining, Witnessed;
      while p < |List(lit)|
        invariant Valid() && Touchable() && ClearedBut(queue + {lit}) && Witnessed(lit, p)
        invariant Remaining(removed) < Remaining(old(removed)) || (queue == old(queue) && removed == old(removed))
        decreases |List(lit)| - p
      {
        p := CheckEntry(lit, p);
      }
      LiteralCleared(lit, p);
    }

    lemma LiteralCleared(lit: L, p: nat)
      requires Valid() && ClearedBut(queue + {lit}) && Witnessed(lit, p) && p >= |List(lit)|
      ensures ClearedBut(queue)
    {
      hide HasModel, Blocked, ActiveCount, Cleared, HasWitness;
      AllWitnessed(cls, removed, List(lit), lit);
    }

    lemma EntryListed(lit: L, p: nat)
      requires OccsOk() && p < |List(lit)|
      ensures List(lit)[p] < |cls| == |removed| && lit in cls[List(lit)[p]]
    {
    }

    /** Drops an entry, keeps it, or removes its clause. */
    method CheckEntry(lit: L, p: nat) returns (next: nat)
      requires Valid() && Touchable() && ClearedBut(queue + {lit}) && Witnessed(lit, p) && p < |List(lit)|
      modifies this`removed, this`gone, this`occs, this`activeSize, this`queue
      ensures Valid() && Touchable() && ClearedBut(queue + {lit}) && Witnessed(lit, next)
      ensures Remaining(removed) < Remaining(old(removed)) || (queue == old(queue) && removed == old(removed))
      ensures |List(lit)| - next < old(|List(lit)|) - p
    {
      hide HasModel, Blocked, ActiveCount, Cleared, HasWitness, CountsOk, Equisatisfiable, OnlyBlocked, Input, Live;
      hide SortedVars;
      hide Remaining, Touchable, ListLive, ScannedTo, OccsOk, ClearedBut;
      EntryListed(lit, p);
      var k := List(lit)[p];
      next := p;
      if removed[k] {
        DropEntry(lit, p);
      } else {
        var found := FindWitness(k, lit);
        if found {
          next := p + 1;
        } else {
          RemoveBlocked(lit, p, k);
        }
      }
    }

    method RemoveBlocked(lit: L, p: nat, k: nat)
      requires Valid() && Touchable() && ClearedBut(queue + {lit}) && p < |List(lit)|
      requires List(lit)[p] == k < |cls| && !removed[k]
      requires Blocked(cls[k], lit, Live(cls, removed))
      modifies this`removed, this`gone, this`occs, this`activeSize, this`queue
      ensures Valid() && Touchable() && ClearedBut(queue + {lit})
      ensures removed == old(removed)[k := true] && Remaining(removed) < Remaining(old(removed)) && old(queue) <= queue
      ensures |List(lit)| == |old(List(lit))| - 1 && forall i :: 0 <= i < p ==> List(lit)[i] == old(List(lit))[i]
      ensures forall c :: 0 <= c < |cls| && old(HasWitness(cls, removed, c, lit)) ==> HasWitness(cls, removed, c, lit)
    {
      hide HasModel, Blocked, ActiveCount, Cleared;
      assert lit in cls[k] && SortedVars(cls[k]);
      NoOpposite(cls[k], lit);
      RemainingLess(removed, k);
      WitnessKept(cls, removed, k, lit);
      Remove(k, lit, {lit});
      DropEntry(lit, p);
    }

    /** Removes blocked clauses until none is left: the remaining clauses have a model
        exactly if all had, and none of them is blocked on any of its literals. */
    method Simplify()
      requires Valid() && Touchable()
      modifies this`removed, this`gone, this`occs, this`activeSize, this`queue
      ensures Valid() && queue == {} && ClearedBut({})
    {
      hide Valid, Touchable, ClearedBut;
      TouchAll();
      while queue != {}
        invariant Valid() && Touchable() && ClearedBut(queue)
        decreases Remaining(removed), queue
      {
        var lit :| lit in queue;
        ghost var was := queue;
        queue := queue - {lit};
        assert queue + {lit} == was;
        CheckLiteral(lit);
      }
    }

    static method SortAll(cs: seq<seq<L>>) returns (sorted: seq<seq<L>>)
      requires forall k :: 0 <= k < |cs| ==> Distinct(cs[k])
      ensures |sorted| == |cs| && forall k :: 0 <= k < |cs| ==> SortedVars(sorted[k]) && multiset(sorted[k]) == multiset(cs[k])
    {
      sorted := [];
      var k := 0;
      while k < |cs|
        invariant k == |sorted| <= |cs|
        invariant forall i :: 0 <= i < k ==> SortedVars(sorted[i]) && multiset(sorted[i]) == multiset(cs[i])
      {
        var c := Adding.SortLits(cs[k]);
        KeysGiveVars(cs[k], c);
        sorted := sorted + [c];
        k := k + 1;
      }
    }
  }

  // ---------------------------------------------------------- lists and witnesses

  function Erase(s: seq<nat>, p: nat): seq<nat>
    requires p < |s|
  {
    s[..p] + s[p + 1..]
  }

  lemma EraseKeeps(s: seq<nat>, p: nat)
    requires p < |s|
    ensures forall x :: x in s && x != s[p] ==> x in Erase(s, p)
    ensures forall x :: x in Erase(s, p) ==> x in s
    ensures forall i :: 0 <= i < |Erase(s, p)| ==> Erase(s, p)[i] in s
  {
    forall x | x in s && x != s[p] ensures x in Erase(s, p) {
      var i :| 0 <= i < |s| && s[i] == x;
      assert Erase(s, p)[if i < p then i else i - 1] == x;
    }
  }

  /** The number of clauses that are not removed. */
  function Remaining(removed: seq<bool>): nat {
    if removed == [] then 0 else Remaining(removed[..|removed| - 1]) + if removed[|removed| - 1] then 0 else 1
  }

  lemma {:induction false} RemainingLess(removed: seq<bool>, k: nat)
    requires k < |removed| && !removed[k]
    ensures Remaining(removed[k := true]) == Remaining(removed) - 1
  {
    var n := |removed| - 1;
    if k < n {
      RemainingLess(removed[..n], k);
      assert removed[k := true][..n] == removed[..n][k := true];
    } else {
      assert removed[k := true][..n] == removed[..n];
    }
  }

  lemma {:induction false} NoneActive(cls: seq<seq<L>>, removed: seq<bool>, l: L)
    requires |removed| == |cls|
    ensures ActiveCount(cls, removed, l) == 0 ==> forall k :: 0 <= k < |cls| && !removed[k] ==> l !in cls[k]
  {
    if cls != [] { NoneActive(cls[..|cls| - 1], removed[..|cls| - 1], l); }
  }

  lemma NoOpposite(c: seq<L>, l: L)
    requires SortedVars(c) && l in c
    ensures l.Neg() !in c
  {
    SortedIsDistinct(c);
    if l.Neg() in c { SameVar(c, l, l.Neg()); }
  }

  /** A clause without the opposite literal is no witness. */
  lemma WitnessKept(cls: seq<seq<L>>, removed: seq<bool>, k: nat, lit: L)
    requires |removed| == |cls| && k < |cls| && lit.Neg() !in cls[k]
    ensures forall c :: 0 <= c < |cls| && HasWitness(cls, removed, c, lit) ==> HasWitness(cls, removed[k := true], c, lit)
  {
    forall c | 0 <= c < |cls| && HasWitness(cls, removed, c, lit) ensures HasWitness(cls, removed[k := true], c, lit) {
      var d :| 0 <= d < |cls| && !removed[d] && lit.Neg() in cls[d] && !Clash(cls[c], cls[d], lit.v);
      assert d != k;
    }
  }

  lemma AllWitnessed(cls: seq<seq<L>>, removed: seq<bool>, list: seq<nat>, lit: L)
    requires |removed| == |cls|
    requires forall i :: 0 <= i < |list| ==> list[i] < |cls| && HasWitness(cls, removed, list[i], lit)
    requires forall k :: 0 <= k < |cls| && !removed[k] && lit in cls[k] ==> k in list
    ensures Cleared(cls, removed, lit)
  {
  }

  /** Without the blocked clause there is a model exactly if there was one before. */
  lemma BlockedGone(cls: seq<seq<L>>, removed: seq<bool>, k: nat, lit: L)
    requires |removed| == |cls| && k < |cls| && !removed[k] && lit in cls[k]
    requires Blocked(cls[k], lit, Live(cls, removed))
    ensures HasModel(Live(cls, removed[k := true])) <==> HasModel(Live(cls, removed))
  {
    var before, after := Live(cls, removed), Live(cls, removed[k := true]);
    assert before == after + {cls[k]} by {
      forall c | c in before ensures c in after + {cls[k]} {
        var i :| 0 <= i < |cls| && !removed[i] && cls[i] == c;
        if i != k { assert !removed[k := true][i]; }
      }
    }
    if HasModel(after) {
      assert Blocked(cls[k], lit, after);
      BlockedHasModel(cls[k], lit, after);
    }
    if m: set<nat> :| ModelsSet(m, before) { assert ModelsSet(m, after); }
  }

  lemma NotBefore(c: seq<L>, j: nat)
    requires SortedVars(c) && j < |c|
    ensures c[j] !in c[..j]
  {
  }

  lemma CountNext(cls: seq<seq<L>>, removed: seq<bool>, n: nat, l: L)
    requires |removed| == |cls| && n < |cls| && !removed[n]
    ensures ActiveCount(cls[..n + 1], removed[..n + 1], l) == ActiveCount(cls[..n], removed[..n], l) + if l in cls[n] then 1 else 0
  {
    assert cls[..n + 1][..n] == cls[..n] && removed[..n + 1][..n] == removed[..n];
  }

  lemma KeysGiveVars(c: seq<L>, s: seq<L>)
    requires Distinct(c) && Adding.Sorted(s) && multiset(s) == multiset(c)
    ensures SortedVars(s)
  {
    forall i, j | 0 <= i < j < |s| ensures s[i].v < s[j].v {
      assert ToInt(s[i]) <= ToInt(s[j]);
      if s[i].v == s[j].v { OnePerVar(c, s, i, j); }
    }
  }

  lemma OnePerVar(c: seq<L>, s: seq<L>, i: nat, j: nat)
    requires Distinct(c) && multiset(s) == multiset(c) && i < j < |s|
    ensures s[i].v != s[j].v
  {
    if s[i] == s[j] {
      TwiceIn(s, i, j);
      OnceIn(c, s[i]);
    } else if s[i].v == s[j].v {
      assert s[i] in multiset(s) && s[j] in multiset(s);
      var x :| 0 <= x < |c| && c[x] == s[i];
      var y :| 0 <= y < |c| && c[y] == s[j];
    }
  }

  lemma TwiceIn(s: seq<L>, i: nat, j: nat)
    requires i < j < |s| && s[i] == s[j]
    ensures multiset(s)[s[i]] >= 2
  {
    assert s == s[..j] + [s[j]] + s[j + 1..];
    assert s[..j] == s[..i] + [s[i]] + s[i + 1..j];
  }

  lemma {:induction false} OnceIn(c: seq<L>, l: L)
    requires Distinct(c)
    ensures multiset(c)[l] <= 1
  {
    if c != [] {
      var k := |c| - 1;
      OnceIn(c[..k], l);
      assert c == c[..k] + [c[k]];
      assert forall i :: 0 <= i < k ==> c[i].v != c[k].v;
      assert c[k] !in c[..k];
    }
  }

  lemma SameClauses(cls: seq<seq<L>>, removed: seq<bool>)
    requires |removed| == |cls| && forall k :: 0 <= k < |cls| ==> !removed[k]
    ensures Live(cls, removed) == set c | c in cls
  {
    forall c | c in cls ensures c in Live(cls, removed) {
      var k :| 0 <= k < |cls| && cls[k] == c;
    }
  }
}
