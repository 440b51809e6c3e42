/** Variable elimination by clause distribution, and how a model of the reduced clauses is
    turned back into a model of the original ones. */
module Elimination {
  import opened Cnf
  import opened Trails

  // ----------------------------------------------------------------- resolvents

  /** Each variable occurs once. */
  ghost predicate Distinct(c: seq<L>) { forall i, j :: 0 <= i < j < |c| ==> c[i].v != c[j].v }

  /** The clauses clash on a variable other than v. */
  ghost predicate Clash(ps: seq<L>, qs: seq<L>, v: nat) { exists l: L :: l in ps && l.Neg() in qs && l.v != v }

  /** The literals of both, without those of v, each once. */
  ghost predicate IsResolvent(ps: seq<L>, qs: seq<L>, v: nat, r: seq<L>) {
    && (forall l :: l in r <==> (l in ps || l in qs) && l.v != v)
    && Distinct(r)
  }

  /** Is there a literal of the variable of l in c, and if so, is it l itself? */
  method FindVar(c: seq<L>, l: L) returns (found: bool, same: bool)
    requires Distinct(c)
    ensures found <==> exists k :: 0 <= k < |c| && c[k].v == l.v
    ensures found ==> (same <==> l in c) && (!same <==> l.Neg() in c)
  {
    var j := 0;
    while j < |c|
      invariant j <= |c| && forall k :: 0 <= k < j ==> c[k].v != l.v
    {
      if c[j].v == l.v {
        assert c[j] in c;
        return true, c[j] == l;
      }
      j := j + 1;
    }
    return false, false;
  }

  /** The resolvent on v; false if it is always true. */
  method Merge(ps0: seq<L>, qs0: seq<L>, v: nat) returns (fine: bool, out: seq<L>)
    requires Distinct(ps0) && Distinct(qs0)
    ensures fine <==> !Clash(ps0, qs0, v)
    ensures fine ==> IsResolvent(ps0, qs0, v, out)
  {
    var ps, qs := ps0, qs0;
    if |ps0| < |qs0| { ps, qs := qs0, ps0; }
    ClashSymmetric(ps0, qs0, v);
    out := [];
    var i := 0;
    while i < |qs|
      invariant i <= |qs| && Distinct(out)
      invariant forall l :: l in out <==> l in qs[..i] && l.v != v && l !in ps
      invariant forall l :: l in qs[..i] && l.v != v ==> l.Neg() !in ps
    {
      assert qs[..i + 1] == qs[..i] + [qs[i]];
      if qs[i].v != v {
        var found, same := FindVar(ps, qs[i]);
        if found && !same {
          ClashAt(ps, qs, v, qs[i]);
          return false, [];
        }
        if !found {
          PushDistinct(out, qs, i);
          out := out + [qs[i]];
        }
      }
      i := i + 1;
    }
    assert qs[..i] == qs;
    NoClash(ps, qs, v);
    out := AppendOthers(ps, qs, v, out);
    fine := true;
  }

  lemma ClashSymmetric(ps: seq<L>, qs: seq<L>, v: nat)
    ensures Clash(ps, qs, v) <==> Clash(qs, ps, v)
  {
    if l: L :| l in ps && l.Neg() in qs && l.v != v { assert l.Neg() in qs && l.Neg().Neg() in ps; }
    if l: L :| l in qs && l.Neg() in ps && l.v != v { assert l.Neg() in ps && l.Neg().Neg() in qs; }
  }

  lemma ClashAt(ps: seq<L>, qs: seq<L>, v: nat, l: L)
    requires l in qs && l.Neg() in ps && l.v != v
    ensures Clash(ps, qs, v)
  {
    assert l.Neg().Neg() == l;
  }

  lemma NoClash(ps: seq<L>, qs: seq<L>, v: nat)
    requires forall l :: l in qs && l.v != v ==> l.Neg() !in ps
    ensures !Clash(ps, qs, v)
  {
    forall l: L | l in ps && l.v != v ensures l.Neg() !in qs {
      assert l.Neg().Neg() == l;
    }
  }

  lemma PushDistinct(out: seq<L>, qs: seq<L>, i: nat)
    requires Distinct(out) && Distinct(qs) && i < |qs| && forall l :: l in out ==> l in qs[..i]
    ensures Distinct(out + [qs[i]])
  {
    forall k | 0 <= k < |out| ensures out[k].v != qs[i].v {
      assert out[k] in out;
      var j :| 0 <= j < i && qs[..i][j] == out[k];
      assert qs[j].v != qs[i].v;
    }
  }

  /** Adds the literals of the longer clause, but for v. */
  method AppendOthers(ps: seq<L>, qs: seq<L>, v: nat, out0: seq<L>) returns (out: seq<L>)
    requires Distinct(ps) && Distinct(out0) && !Clash(ps, qs, v)
    requires forall l :: l in out0 <==> l in qs && l.v != v && l !in ps
    ensures IsResolvent(ps, qs, v, out)
  {
    out := out0;
    var i := 0;
    while i < |ps|
      invariant i <= |ps| && Distinct(out)
      invariant forall l :: l in out <==> l in out0 || (l in ps[..i] && l.v != v)
    {
      assert ps[..i + 1] == ps[..i] + [ps[i]];
      if ps[i].v != v {
        forall k | 0 <= k < |out| ensures out[k].v != ps[i].v {
          assert out[k] in out;
          if out[k] in out0 {
            assert ps[i] in ps && ps[i].Neg() !in qs;
          } else {
            var j :| 0 <= j < i && ps[..i][j] == out[k];
            assert ps[j].v != ps[i].v;
          }
        }
        out := out + [ps[i]];
      }
      i := i + 1;
    }
    assert ps[..i] == ps;
  }

  // ------------------------------------------------------ models and their records

  type Assignment = seq<LBool>

  ghost predicate SatBy(M: Assignment, c: seq<L>) { exists l :: l in c && Value(M, l) == LTrue }

  ghost predicate AllSat(M: Assignment, F: seq<seq<L>>) { forall c :: c in F ==> SatBy(M, c) }

  /** All other literals of the record are false. */
  predicate RestFalse(M: Assignment, r: seq<L>) { forall k :: 1 <= k < |r| ==> Value(M, r[k]) == LFalse }

  /** A record makes its first literal true if all others are false. */
  function ExtendOne(M: Assignment, r: seq<L>): Assignment {
    if r != [] && r[0].v < |M| && RestFalse(M, r) then M[r[0].v := Truth(r[0])] else M
  }

  /** Records apply from the last to the first. */
  function ExtendAll(M: Assignment, rs: seq<seq<L>>): Assignment
    decreases |rs|
  {
    if rs == [] then M else ExtendAll(ExtendOne(M, rs[|rs| - 1]), rs[..|rs| - 1])
  }

  lemma {:induction false} ExtendAppend(M: Assignment, rs: seq<seq<L>>, ss: seq<seq<L>>)
    ensures ExtendAll(M, rs + ss) == ExtendAll(ExtendAll(M, ss), rs)
    decreases |ss|
  {
    if ss == [] {
      assert rs + ss == rs;
    } else {
      var init, last := ss[..|ss| - 1], ss[|ss| - 1];
      assert rs + ss == (rs + init) + [last];
      assert (rs + ss)[..|rs + ss| - 1] == rs + init;
      ExtendAppend(ExtendOne(M, last), rs, init);
    }
  }

  // --------------------------------------------------------- the flat encoding

  function ToLit(x: nat): L { Lit(x / 2, x % 2 == 0) }

  lemma ToLitToInt(l: L)
    ensures ToLit(ToInt(l)) == l
  {
  }

  /** The literals of a record, and its length last. */
  function Encode(r: seq<L>): (e: seq<nat>)
    ensures |e| == |r| + 1
  {
    seq(|r|, i requires 0 <= i < |r| => ToInt(r[i])) + [|r|]
  }

  function Flat(rs: seq<seq<L>>): seq<nat> {
    if rs == [] then [] else Flat(rs[..|rs| - 1]) + Encode(rs[|rs| - 1])
  }

  lemma FlatPush(rs: seq<seq<L>>, r: seq<L>)
    ensures Flat(rs + [r]) == Flat(rs) + Encode(r)
  {
    assert (rs + [r])[..|rs|] == rs;
  }

  lemma {:induction false} FlatPrefix(rs: seq<seq<L>>, k: nat)
    requires k <= |rs|
    ensures |Flat(rs[..k])| <= |Flat(rs)| && Flat(rs)[..|Flat(rs[..k])|] == Flat(rs[..k])
  {
    if k == |rs| {
      assert rs[..k] == rs;
    } else {
      var init := rs[..|rs| - 1];
      FlatPrefix(init, k);
      assert init[..k] == rs[..k];
    }
  }

  /** Where record k stands in the flat vector. */
  lemma FlatAt(rs: seq<seq<L>>, k: nat)
    requires k < |rs|
    ensures var s := |Flat(rs[..k])|;
      && |Flat(rs[..k + 1])| == s + |rs[k]| + 1 <= |Flat(rs)|
      && Flat(rs)[s + |rs[k]|] == |rs[k]|
      && forall t :: 0 <= t < |rs[k]| ==> Flat(rs)[s + t] == ToInt(rs[k][t])
  {
    var s := |Flat(rs[..k])|;
    FlatPrefix(rs, k + 1);
    assert rs[..k + 1] == rs[..k] + [rs[k]];
    FlatPush(rs[..k], rs[k]);
    var pre := Flat(rs[..k + 1]);
    assert forall t :: 0 <= t < |pre| ==> Flat(rs)[t] == pre[t];
    assert pre == Flat(rs[..k]) + Encode(rs[k]);
    assert pre[s + |rs[k]|] == Encode(rs[k])[|rs[k]|];
    forall t | 0 <= t < |rs[k]| ensures pre[s + t] == ToInt(rs[k][t]) { assert pre[s + t] == Encode(rs[k])[t]; }
  }

  /** Applies the record whose length stands at place `last`; goes on before it. */
  method ApplyRecord(elimclauses: seq<nat>, last: nat, M: Assignment, ghost r: seq<L>) returns (next: int, model: Assignment)
    requires r != [] && r[0].v < |M| && |r| <= last < |elimclauses| && elimclauses[last] == |r|
    requires forall t :: 0 <= t < |r| ==> elimclauses[last - |r| + t] == ToInt(r[t])
    ensures next == last - |r| - 1 && model == ExtendOne(M, r)
  {
    model := M;
    var j := elimclauses[last];
    var i := last - 1;
    while j > 1 && Value(model, ToLit(elimclauses[i])) == LFalse
      invariant 1 <= j <= |r| && i == last - |r| + j - 1
      invariant forall t :: j <= t < |r| ==> Value(model, r[t]) == LFalse
      decreases j
    {
      ToLitToInt(r[j - 1]);
      j := j - 1;
      i := i - 1;
    }
    ToLitToInt(r[j - 1]);
    if j <= 1 {
      var x := ToLit(elimclauses[i]);
      model := model[x.v := Truth(x)];
    }
    next := i - j;
  }

  /** Walks backwards over the flat vector of elimination records. */
  method ExtendModel(elimclauses: seq<nat>, M: Assignment, ghost rs: seq<seq<L>>) returns (model: Assignment)
    requires elimclauses == Flat(rs)
    requires forall r: seq<L> :: r in rs ==> r != [] && r[0].v < |M|
    ensures model == ExtendAll(M, rs)
  {
    hide ExtendOne, Flat, Encode;
    forall t | 0 <= t < |rs| ensures rs[t] != [] && rs[t][0].v < |M| { assert rs[t] in rs; }
    model := M;
    ghost var k: nat := |rs|;
    assert rs[..k] == rs;
    var i := |elimclauses| - 1;
    while i > 0
      invariant k <= |rs| && i + 1 == |Flat(rs[..k])| && |model| == |M|
      invariant ExtendAll(model, rs[..k]) == ExtendAll(M, rs)
      decreases i
    {
      FlatLength(rs[..k]);
      ghost var r := rs[k - 1];
      FlatAt(rs, k - 1);
      assert r in rs;
      ExtendSize(model, r);
      i, model := ApplyRecord(elimclauses, i, model, r);
      assert rs[..k][..k - 1] == rs[..k - 1];
      k := k - 1;
    }
    FlatLength(rs[..k]);
    assert rs[..0] == [];
  }

  lemma ExtendSize(M: Assignment, r: seq<L>)
    ensures |ExtendOne(M, r)| == |M|
  {
  }

  lemma FlatLength(rs: seq<seq<L>>)
    ensures rs == [] ==> |Flat(rs)| == 0
    ensures rs != [] && rs[|rs| - 1] != [] ==> |Flat(rs)| >= 2
  {
  }

  // ------------------------------------------------------- eliminating a variable

  /** A record of clause c for the literal l of the eliminated variable. */
  ghost predicate IsRecord(c: seq<L>, l: L, r: seq<L>) {
    && r != [] && r[0] == l && (forall x :: x in r <==> x in c) && Distinct(r)
  }

  ghost predicate RecordIn(F: seq<seq<L>>, l: L, r: seq<L>) { exists c :: c in F && l in c && IsRecord(c, l, r) }

  ghost predicate HasRecord(rs: seq<seq<L>>, c: seq<L>, l: L) { exists i :: 0 <= i < |rs| && IsRecord(c, l, rs[i]) }

  /** The records of all clauses that contain l. */
  ghost predicate RecordsOf(F: seq<seq<L>>, l: L, rs: seq<seq<L>>) {
    && (forall i :: 0 <= i < |rs| ==> RecordIn(F, l, rs[i]))
    && (forall c :: c in F && l in c ==> HasRecord(rs, c, l))
  }

  /** Every pair of clauses with l and its negation clashes elsewhere, or has its resolvent
      among the new clauses; the clauses without either are kept. */
  ghost predicate Eliminates(F: seq<seq<L>>, l: L, G: seq<seq<L>>) {
    && (forall c, d :: c in F && d in F && l in c && l.Neg() in d ==>
          Clash(c, d, l.v) || exists r :: r in G && IsResolvent(c, d, l.v, r))
    && (forall c :: c in F && l !in c && l.Neg() !in c ==> c in G)
  }

  /** Every new clause is an old one or a resolvent of two old ones. */
  ghost predicate FromOld(F: seq<seq<L>>, v: nat, G: seq<seq<L>>) {
    forall r :: r in G ==> r in F || exists c, d ::
      c in F && d in F && Lit(v, true) in c && Lit(v, false) in d && IsResolvent(c, d, v, r)
  }

  /** The value of l.v after the records: true for l if a record demands it. */
  ghost predicate Demanded(M: Assignment, rs: seq<seq<L>>) { exists i :: 0 <= i < |rs| && RestFalse(M, rs[i]) }

  lemma RestWithout(M: Assignment, v: nat, b: LBool, r: seq<L>)
    requires v < |M| && r != [] && r[0].v == v && Distinct(r)
    ensures RestFalse(M[v := b], r) <==> RestFalse(M, r)
  {
    forall k | 1 <= k < |r| ensures r[k].v != v { assert r[0].v != r[k].v; }
  }

  lemma {:induction false} ExtendRecords(M: Assignment, l: L, b: LBool, rs: seq<seq<L>>)
    requires l.v < |M| && M[l.v] == b
    requires forall i :: 0 <= i < |rs| ==> rs[i] != [] && rs[i][0] == l && Distinct(rs[i])
    ensures ExtendAll(M, rs) == M[l.v := if Demanded(M, rs) then Truth(l) else b]
    decreases |rs|
  {
    if rs == [] {
      assert !Demanded(M, rs);
    } else {
      var init, last := rs[..|rs| - 1], rs[|rs| - 1];
      var N := ExtendOne(M, last);
      if RestFalse(M, last) {
        assert N == M[l.v := Truth(l)];
        assert Demanded(M, rs);
        ExtendRecords(N, l, Truth(l), init);
        assert N[l.v := Truth(l)] == M[l.v := Truth(l)];
      } else {
        ExtendRecords(M, l, b, init);
        if i :| 0 <= i < |rs| && RestFalse(M, rs[i]) { assert init[i] == rs[i]; }
        if i :| 0 <= i < |init| && RestFalse(M, init[i]) { assert rs[i] == init[i]; }
      }
    }
  }

  /** All variables but those of V have a value. */
  ghost predicate DefinedBut(M: Assignment, n: nat, V: set<nat>) {
    |M| == n && forall x :: 0 <= x < n && x !in V ==> M[x] != LUndef
  }

  /** Clauses of distinct variables below n, none of them in V. */
  ghost predicate Over(F: seq<seq<L>>, n: nat, V: set<nat>) {
    forall c :: c in F ==> Distinct(c) && forall l :: l in c ==> l.v < n && l.v !in V
  }

  lemma RecordShape(F: seq<seq<L>>, l: L, rs: seq<seq<L>>)
    requires RecordsOf(F, l, rs)
    ensures forall i :: 0 <= i < |rs| ==> rs[i] != [] && rs[i][0] == l && Distinct(rs[i])
  {
    forall i | 0 <= i < |rs| ensures rs[i] != [] && rs[i][0] == l && Distinct(rs[i]) {
      assert RecordIn(F, l, rs[i]);
      var c :| c in F && l in c && IsRecord(c, l, rs[i]);
    }
  }

  lemma DemandedSame(M: Assignment, v: nat, b: LBool, rs: seq<seq<L>>)
    requires v < |M| && forall i :: 0 <= i < |rs| ==> rs[i] != [] && rs[i][0].v == v && Distinct(rs[i])
    ensures Demanded(M[v := b], rs) <==> Demanded(M, rs)
  {
    forall i | 0 <= i < |rs| ensures RestFalse(M[v := b], rs[i]) <==> RestFalse(M, rs[i]) { RestWithout(M, v, b, rs[i]); }
    if i :| 0 <= i < |rs| && RestFalse(M[v := b], rs[i]) { assert RestFalse(M, rs[i]); }
    if i :| 0 <= i < |rs| && RestFalse(M, rs[i]) { assert RestFalse(M[v := b], rs[i]); }
  }

  /** What the records and, applied before them, the default make of an assignment. */
  lemma RestoredValue(M: Assignment, F: seq<seq<L>>, l: L, rs: seq<seq<L>>)
    requires l.v < |M| && RecordsOf(F, l, rs)
    ensures ExtendAll(M, rs + [[l.Neg()]]) == M[l.v := if Demanded(M, rs) then Truth(l) else Truth(l.Neg())]
  {
    hide RecordsOf, Demanded, Distinct;
    RecordShape(F, l, rs);
    var N := ExtendOne(M, [l.Neg()]);
    assert N == M[l.v := Truth(l.Neg())];
    ExtendRecords(N, l, Truth(l.Neg()), rs);
    DemandedSame(M, l.v, Truth(l.Neg()), rs);
    var all := rs + [[l.Neg()]];
    assert all[..|all| - 1] == rs && all[|all| - 1] == [l.Neg()];
  }

  /** A true literal of c other than that of v, or all others are false. */
  lemma RestSplit(M: Assignment, c: seq<L>, l: L, r: seq<L>)
    requires IsRecord(c, l, r) && Distinct(c) && forall x :: x in c && x != l ==> Value(M, x) != LUndef
    ensures !RestFalse(M, r) ==> exists x :: x in c && x.v != l.v && Value(M, x) == LTrue
    ensures RestFalse(M, r) ==> forall x :: x in c && x != l ==> Value(M, x) == LFalse
  {
    if !RestFalse(M, r) {
      var k :| 1 <= k < |r| && Value(M, r[k]) != LFalse;
      assert r[k] in r && r[0].v != r[k].v;
    } else {
      forall x | x in c && x != l ensures Value(M, x) == LFalse {
        assert x in r;
        var k :| 0 <= k < |r| && r[k] == x;
      }
    }
  }

  /** Walking the records of one variable backwards turns any model of the reduced clauses
      into a model of the clauses before the elimination. */
  lemma RecordsRestore(F: seq<seq<L>>, l: L, G: seq<seq<L>>, rs: seq<seq<L>>, M: Assignment, n: nat, V: set<nat>)
    requires Over(F, n, V) && l.v < n && l.v !in V && DefinedBut(M, n, V + {l.v})
    requires RecordsOf(F, l, rs) && Eliminates(F, l, G) && AllSat(M, G)
    ensures DefinedBut(ExtendAll(M, rs + [[l.Neg()]]), n, V) && AllSat(ExtendAll(M, rs + [[l.Neg()]]), F)
  {
    hide RecordsOf, Eliminates;
    RestoredValue(M, F, l, rs);
    var N := ExtendAll(M, rs + [[l.Neg()]]);
    forall c | c in F ensures SatBy(N, c) { ClauseRestored(F, l, G, rs, M, n, V, c); }
  }

  lemma ClauseRestored(F: seq<seq<L>>, l: L, G: seq<seq<L>>, rs: seq<seq<L>>, M: Assignment, n: nat,
        V: set<nat>, c: seq<L>)
    requires Over(F, n, V) && l.v < n && l.v !in V && DefinedBut(M, n, V + {l.v})
    requires RecordsOf(F, l, rs) && Eliminates(F, l, G) && AllSat(M, G) && c in F
    ensures SatBy(M[l.v := if Demanded(M, rs) then Truth(l) else Truth(l.Neg())], c)
  {
    hide RecordsOf, Eliminates, Demanded, Distinct;
    var demanded := Demanded(M, rs);
    var N := M[l.v := if demanded then Truth(l) else Truth(l.Neg())];
    if l in c {
      if demanded {
        assert Value(N, l) == LTrue;
      } else {
        NotDemanded(F, l, rs, M, n, V, c);
        var x :| x in c && x.v != l.v && Value(M, x) == LTrue;
        assert Value(N, x) == LTrue;
      }
    } else if l.Neg() in c {
      if demanded {
        ResolventTrue(F, l, G, rs, M, n, V, c);
        var x :| x in c && x.v != l.v && Value(M, x) == LTrue;
        assert Value(N, x) == LTrue;
      } else {
        assert Value(N, l.Neg()) == LTrue;
      }
    } else {
      KeptClause(F, l, G, c);
      assert SatBy(M, c);
      var x :| x in c && Value(M, x) == LTrue;
      assert x.v != l.v && Value(N, x) == LTrue;
    }
  }

  lemma KeptClause(F: seq<seq<L>>, l: L, G: seq<seq<L>>, c: seq<L>)
    requires Eliminates(F, l, G) && c in F && l !in c && l.Neg() !in c
    ensures c in G
  {
  }

  lemma PairResolved(F: seq<seq<L>>, l: L, G: seq<seq<L>>, c: seq<L>, d: seq<L>)
    requires Eliminates(F, l, G) && c in F && d in F && l in c && l.Neg() in d
    ensures Clash(c, d, l.v) || exists r :: r in G && IsResolvent(c, d, l.v, r)
  {
  }

  lemma NotDemanded(F: seq<seq<L>>, l: L, rs: seq<seq<L>>, M: Assignment, n: nat, V: set<nat>, c: seq<L>)
    requires Over(F, n, V) && DefinedBut(M, n, V + {l.v}) && RecordsOf(F, l, rs) && c in F && l in c
    requires !Demanded(M, rs)
    ensures exists x :: x in c && x.v != l.v && Value(M, x) == LTrue
  {
    assert HasRecord(rs, c, l);
    var i :| 0 <= i < |rs| && IsRecord(c, l, rs[i]);
    OthersDefined(c, l, M, n, V);
    RestSplit(M, c, l, rs[i]);
  }

  lemma OthersDefined(c: seq<L>, l: L, M: Assignment, n: nat, V: set<nat>)
    requires Distinct(c) && l in c && DefinedBut(M, n, V + {l.v}) && forall x :: x in c ==> x.v < n && x.v !in V
    ensures forall x :: x in c && x != l ==> x.v != l.v && Value(M, x) != LUndef
  {
    forall x | x in c && x != l ensures x.v != l.v {
      var i :| 0 <= i < |c| && c[i] == x;
      var j :| 0 <= j < |c| && c[j] == l;
    }
  }

  /** When some clause demands l, a clause with its negation has another true literal. */
  lemma ResolventTrue(F: seq<seq<L>>, l: L, G: seq<seq<L>>, rs: seq<seq<L>>, M: Assignment, n: nat, V: set<nat>,
        d: seq<L>)
    requires Over(F, n, V) && DefinedBut(M, n, V + {l.v}) && RecordsOf(F, l, rs) && Eliminates(F, l, G)
    requires AllSat(M, G) && d in F && l.Neg() in d && Demanded(M, rs)
    ensures exists x :: x in d && x.v != l.v && Value(M, x) == LTrue
  {
    hide Eliminates, Distinct, DefinedBut, Clash, IsResolvent;
    var c := DemandingClause(F, l, rs, M, n, V);
    PairResolved(F, l, G, c, d);
    if Clash(c, d, l.v) {
      ClashTrue(M, c, d, l);
    } else {
      var r :| r in G && IsResolvent(c, d, l.v, r);
      assert SatBy(M, r);
      ResolventElsewhere(M, c, d, l, r);
    }
  }

  /** The clause behind the demand: all its other literals are false. */
  lemma DemandingClause(F: seq<seq<L>>, l: L, rs: seq<seq<L>>, M: Assignment, n: nat, V: set<nat>) returns (c: seq<L>)
    requires Over(F, n, V) && DefinedBut(M, n, V + {l.v}) && RecordsOf(F, l, rs) && Demanded(M, rs)
    ensures c in F && l in c && forall x :: x in c && x != l ==> Value(M, x) == LFalse && x.v != l.v
  {
    var i :| 0 <= i < |rs| && RestFalse(M, rs[i]);
    assert RecordIn(F, l, rs[i]);
    c :| c in F && l in c && IsRecord(c, l, rs[i]);
    OthersDefined(c, l, M, n, V);
    RestSplit(M, c, l, rs[i]);
  }

  lemma ClashTrue(M: Assignment, c: seq<L>, d: seq<L>, l: L)
    requires Clash(c, d, l.v) && forall x :: x in c && x != l ==> Value(M, x) == LFalse
    ensures exists x :: x in d && x.v != l.v && Value(M, x) == LTrue
  {
    var x: L :| x in c && x.Neg() in d && x.v != l.v;
    assert Value(M, x.Neg()) == LTrue;
  }

  lemma ResolventElsewhere(M: Assignment, c: seq<L>, d: seq<L>, l: L, r: seq<L>)
    requires IsResolvent(c, d, l.v, r) && SatBy(M, r) && forall x :: x in c && x != l ==> Value(M, x) == LFalse
    ensures exists x :: x in d && x.v != l.v && Value(M, x) == LTrue
  {
    var x :| x in r && Value(M, x) == LTrue;
    assert x in d && x.v != l.v;
  }

  // ------------------------------------------------------------ satisfiability kept

  /** Every resolvent of two clauses is entailed by them. */
  lemma ResolventEntailed(m: set<nat>, c: seq<L>, d: seq<L>, v: nat, r: seq<L>)
    requires Lit(v, true) in c && Lit(v, false) in d && IsResolvent(c, d, v, r) && Distinct(c) && Distinct(d)
    requires ClauseTrue(m, c) && ClauseTrue(m, d)
    ensures ClauseTrue(m, r)
  {
    if v in m {
      var l :| l in d && LitTrue(m, l);
      if l.v == v { SameVar(d, l, Lit(v, false)); }
      assert l in r;
    } else {
      var l :| l in c && LitTrue(m, l);
      if l.v == v { SameVar(c, l, Lit(v, true)); }
      assert l in r;
    }
  }

  lemma SameVar(c: seq<L>, k: L, l: L)
    requires Distinct(c) && k in c && l in c && k.v == l.v
    ensures k == l
  {
    var i :| 0 <= i < |c| && c[i] == k;
    var j :| 0 <= j < |c| && c[j] == l;
  }

  /** A model of the clauses is a model of the reduced ones. */
  lemma ModelsReduced(F: seq<seq<L>>, v: nat, G: seq<seq<L>>, m: set<nat>)
    requires FromOld(F, v, G) && Models(m, F) && forall c :: c in F ==> Distinct(c)
    ensures Models(m, G)
  {
    forall r | r in G ensures ClauseTrue(m, r) {
      if r !in F {
        var c, d :| c in F && d in F && Lit(v, true) in c && Lit(v, false) in d && IsResolvent(c, d, v, r);
        ResolventEntailed(m, c, d, v, r);
      }
    }
  }
}
