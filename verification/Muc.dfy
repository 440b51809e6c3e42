/** Extraction of a minimal unsatisfiable core from an unsatisfiable conjunction. */
module MucExtraction {
  import opened Formulas
  import Preprocess
  import opened SatCheck
  import opened Sets
  import opened UcSolvers
  import AaltaSolver
  import CarSolvers
  import Cnf
  import Obligations

  // ------------------------------------------------------- critical families

  /** The formula as it is meant, or as the step encoding reads it. */
  function Seen(f: Formula, asRead: bool): Formula { if asRead then FalseAsTrue(f) else f }

  ghost predicate SetHolds(A: set<Formula>, tr: Trace, asRead: bool) {
    tr != [] && forall f :: f in A ==> Holds(Seen(f, asRead), tr, 0)
  }

  /** Some trace satisfies every formula of the set, as it is read. */
  ghost predicate Joint(A: set<Formula>) { exists tr: Trace :: SetHolds(A, tr, true) }

  /** Some trace satisfies every formula of the set. */
  ghost predicate Real(A: set<Formula>) { exists tr: Trace :: SetHolds(A, tr, false) }

  lemma JointSubset(A: set<Formula>, B: set<Formula>)
    requires A <= B
    ensures Joint(B) ==> Joint(A)
    ensures Real(B) ==> Real(A)
  {
    if tr: Trace :| SetHolds(B, tr, true) { assert SetHolds(A, tr, true); }
    if tr: Trace :| SetHolds(B, tr, false) { assert SetHolds(A, tr, false); }
  }

  /** All formulas of a family of blocks. */
  ghost function Union(B: multiset<set<Formula>>): set<Formula> { set b, f | b in B && f in b :: f }

  /** Unsatisfiable as a whole, satisfiable without any one block: each block is needed. */
  ghost predicate Critical(B: multiset<set<Formula>>) {
    !Joint(Union(B)) && forall b :: b in B ==> Joint(Union(B - multiset{b}))
  }

  lemma UnionPlus(B: multiset<set<Formula>>, b: set<Formula>)
    ensures Union(B + multiset{b}) == Union(B) + b
  {
    assert b in B + multiset{b};
    forall c | c in B ensures c in B + multiset{b} {}
  }

  /** A block may be cut down as long as the whole stays unsatisfiable. */
  lemma ShrinkBlock(B: multiset<set<Formula>>, b: set<Formula>, cut: set<Formula>)
    requires Critical(B + multiset{b}) && cut <= b && !Joint(Union(B) + cut)
    ensures Critical(B + multiset{cut})
  {
    UnionPlus(B, cut);
    forall c | c in B + multiset{cut} ensures Joint(Union(B + multiset{cut} - multiset{c})) {
      WithoutBlock(B, b, cut, c);
    }
  }

  lemma WithoutBlock(B: multiset<set<Formula>>, b: set<Formula>, cut: set<Formula>, c: set<Formula>)
    requires Critical(B + multiset{b}) && cut <= b && c in B + multiset{cut}
    ensures Joint(Union(B + multiset{cut} - multiset{c}))
  {
    if c == cut {
      assert B + multiset{cut} - multiset{c} == B == B + multiset{b} - multiset{b};
      assert b in B + multiset{b};
    } else {
      var rest := B - multiset{c};
      assert B + multiset{cut} - multiset{c} == rest + multiset{cut};
      assert B + multiset{b} - multiset{c} == rest + multiset{b} && c in B + multiset{b};
      UnionPlus(rest, cut);
      UnionPlus(rest, b);
      JointSubset(Union(rest) + cut, Union(rest) + b);
    }
  }

  /** A block whose halves are both needed may be replaced by them. */
  lemma SplitBlock(B: multiset<set<Formula>>, p: set<Formula>, q: set<Formula>)
    requires Critical(B + multiset{p + q}) && Joint(Union(B) + p) && Joint(Union(B) + q)
    ensures Critical(B + multiset{p} + multiset{q})
  {
    hide Joint;
    UnionTwo(B, p, q);
    forall c | c in B + multiset{p} + multiset{q}
      ensures Joint(Union(B + multiset{p} + multiset{q} - multiset{c}))
    {
      WithoutHalf(B, p, q, c);
    }
  }

  lemma UnionTwo(B: multiset<set<Formula>>, p: set<Formula>, q: set<Formula>)
    ensures Union(B + multiset{p} + multiset{q}) == Union(B + multiset{p + q})
  {
    hide Union;
    UnionPlus(B, p);
    UnionPlus(B + multiset{p}, q);
    UnionPlus(B, p + q);
    assert Union(B) + p + q == Union(B) + (p + q);
  }

  lemma WithoutHalf(B: multiset<set<Formula>>, p: set<Formula>, q: set<Formula>, c: set<Formula>)
    requires Critical(B + multiset{p + q}) && Joint(Union(B) + p) && Joint(Union(B) + q)
    requires c in B + multiset{p} + multiset{q}
    ensures Joint(Union(B + multiset{p} + multiset{q} - multiset{c}))
  {
    hide Union, Joint;
    var both := B + multiset{p} + multiset{q};
    if c == q {
      assert both - multiset{c} == B + multiset{p};
      UnionPlus(B, p);
    } else if c == p {
      assert both - multiset{c} == B + multiset{q};
      UnionPlus(B, q);
    } else {
      var rest := B - multiset{c};
      assert both - multiset{c} == rest + multiset{p} + multiset{q};
      assert B + multiset{p + q} - multiset{c} == rest + multiset{p + q};
      assert c in B + multiset{p + q};
      UnionTwo(rest, p, q);
    }
  }

  // ----------------------------------------------------- lists of formulas

  /** The conjunct sets of a list of formulas. */
  ghost function Family(s: seq<Formula>): multiset<set<Formula>> {
    if s == [] then multiset{} else Family(s[..|s| - 1]) + multiset{ToSet(s[|s| - 1])}
  }

  lemma FamilyPush(s: seq<Formula>, f: Formula)
    ensures Family(s + [f]) == Family(s) + multiset{ToSet(f)}
  {
    assert (s + [f])[..|s|] == s;
  }

  lemma {:induction false} FamilyAppend(s: seq<Formula>, t: seq<Formula>)
    ensures Family(s + t) == Family(s) + Family(t)
  {
    hide *;
    if t == [] {
      assert s + t == s;
      FamilyNone(t);
    } else {
      var init := t[..|t| - 1];
      FamilyAppend(s, init);
      FamilyAppendOne(s, init, t[|t| - 1]);
      assert t == init + [t[|t| - 1]];
    }
  }

  lemma FamilyNone(t: seq<Formula>)
    requires t == []
    ensures Family(t) == multiset{}
  {
  }

  lemma FamilyAppendOne(s: seq<Formula>, t: seq<Formula>, f: Formula)
    requires Family(s + t) == Family(s) + Family(t)
    ensures Family(s + (t + [f])) == Family(s) + Family(t + [f])
  {
    hide Family, ToSet;
    assert s + (t + [f]) == (s + t) + [f];
    FamilyPush(s + t, f);
    FamilyPush(t, f);
  }

  /** A list of formulas is consistent exactly when its conjuncts are. */
  lemma FamilyReal(s: seq<Formula>)
    ensures Consistent(s) <==> Real(Union(Family(s)))
  {
    forall tr: Trace | tr != [] ensures AllHold(s, tr) <==> SetHolds(Union(Family(s)), tr, false) {
      FamilyHolds(s, tr, false);
    }
    if tr: Trace :| AllHold(s, tr) { assert SetHolds(Union(Family(s)), tr, false); }
    if tr: Trace :| SetHolds(Union(Family(s)), tr, false) { assert AllHold(s, tr); }
  }

  lemma {:induction false} FamilyHolds(s: seq<Formula>, tr: Trace, asRead: bool)
    requires tr != []
    ensures (forall f :: f in s ==> Holds(Seen(f, asRead), tr, 0)) <==> SetHolds(Union(Family(s)), tr, asRead)
  {
    hide Positions, FalseAsTrue;
    if s != [] {
      var init, last := s[..|s| - 1], s[|s| - 1];
      FamilyHolds(init, tr, asRead);
      ConjunctsHold(last, tr, asRead);
      UnionPlus(Family(init), ToSet(last));
      assert s == init + [last];
      assert forall f :: f in s <==> f in init || f == last;
    }
  }

  lemma {:induction false} ConjunctsHold(f: Formula, tr: Trace, asRead: bool)
    requires tr != []
    ensures Holds(Seen(f, asRead), tr, 0) <==> SetHolds(ToSet(f), tr, asRead)
  {
    if f.And? {
      ConjunctsHold(f.l, tr, asRead);
      ConjunctsHold(f.r, tr, asRead);
      assert Seen(f, asRead) == And(Seen(f.l, asRead), Seen(f.r, asRead));
    }
  }

  /** What has a trace also has one as it is read. */
  lemma RealIsJoint(A: set<Formula>)
    requires (forall f :: f in A ==> Usable(f)) && Real(A)
    ensures Joint(A)
  {
    var tr :| SetHolds(A, tr, false);
    forall f | f in A ensures Holds(FalseAsTrue(f), tr, 0) { ReadHolds(f, tr); }
    assert SetHolds(A, tr, true);
  }

  /** The number of elements of a finite set of conjuncts; the termination measure
      counts 2k - 1 for an entry with k conjuncts. */
  function Measure(s: seq<Formula>): nat {
    if s == [] then 0 else Measure(s[..|s| - 1]) + Weight(s[|s| - 1])
  }

  function Weight(f: Formula): (w: nat)
    ensures w > 0
  {
    assert ToSet(f) != {};
    2 * |ToSet(f)| - 1
  }

  lemma MeasurePush(s: seq<Formula>, f: Formula)
    ensures Measure(s + [f]) == Measure(s) + Weight(f)
  {
    assert (s + [f])[..|s|] == s;
  }

  function Without(s: seq<Formula>, i: nat): seq<Formula>
    requires i < |s|
  {
    s[..i] + s[i + 1..]
  }

  lemma FamilyWithout(s: seq<Formula>, i: nat)
    requires i < |s|
    ensures ToSet(s[i]) in Family(s) && Family(Without(s, i)) == Family(s) - multiset{ToSet(s[i])}
  {
    hide Family, ToSet;
    var a, b := s[..i], s[i + 1..];
    assert s == (a + [s[i]]) + b;
    FamilyAppend(a + [s[i]], b);
    FamilyPush(a, s[i]);
    FamilyAppend(a, b);
    assert Family(s) == Family(a) + multiset{ToSet(s[i])} + Family(b);
  }

  // ------------------------------------------------------------- partitions

  /** The conjuncts of a formula, in some order. */
  method GetAndElement(f: Formula) returns (result: seq<Formula>)
    ensures (set g | g in result) == ToSet(f) && |result| == |ToSet(f)|
  {
    hide ToSet;
    result := [];
    var rest := ToSet(f);
    ghost var done := {};
    while rest != {}
      invariant done + rest == ToSet(f) && done !! rest
      invariant (forall g :: g in result <==> g in done) && |result| == |done|
      decreases rest
    {
      var g :| g in rest;
      result, rest, done := result + [g], rest - {g}, done + {g};
    }
    assert done == ToSet(f);
  }

  /** A formula of one conjunct is not divided; otherwise the two parts share its
      conjuncts out between them, each getting fewer. */
  ghost predicate Divides(f: Formula, P: seq<Formula>) {
    if |ToSet(f)| > 1 then
      && |P| == 2
      && ToSet(P[0]) + ToSet(P[1]) == ToSet(f)
      && |ToSet(P[0])| + |ToSet(P[1])| == |ToSet(f)|
    else P == []
  }

  /** The first l conjuncts and the remaining ones, each as a conjunction. */
  method Divide(f: Formula, l: nat, elements: seq<Formula>) returns (result: seq<Formula>)
    requires (set g | g in elements) == ToSet(f) && |elements| == |ToSet(f)| && 0 < l < |elements|
    ensures |result| == 2 && ToSet(result[0]) + ToSet(result[1]) == ToSet(f)
    ensures |ToSet(result[0])| == l && |ToSet(result[1])| == |ToSet(f)| - l
    ensures result[0] == FormulaFrom(elements[..l]) && result[1] == FormulaFrom(elements[l..])
  {
    hide FormulaFrom, ToSet;
    var a, b := elements[..l], elements[l..];
    NoConjunctions(f, elements);
    ToSetFormulaFrom(a);
    ToSetFormulaFrom(b);
    ElementsDivided(elements, l);
    result := [FormulaFrom(a), FormulaFrom(b)];
  }

  lemma NoConjunctions(f: Formula, elements: seq<Formula>)
    requires (set g | g in elements) == ToSet(f)
    ensures forall g :: g in elements ==> !g.And?
  {
    forall g | g in elements ensures !g.And? { assert g in ToSet(f); }
  }

  /** Distinct elements stay distinct when the list is cut in two. */
  lemma ElementsDivided(s: seq<Formula>, l: nat)
    requires l <= |s| && |set g | g in s| == |s|
    ensures (set g | g in s[..l]) + (set g | g in s[l..]) == set g | g in s
    ensures |set g | g in s[..l]| == l && |set g | g in s[l..]| == |s| - l
  {
    var A, B := set g | g in s[..l], set g | g in s[l..];
    DistinctElements(s[..l]);
    DistinctElements(s[l..]);
    assert s == s[..l] + s[l..];
    assert A + B == set g | g in s;
    assert A + B == A + (B - A);
    SubsetSize(B - A, B);
  }

  /** The two halves of a conjunction; of an odd number of conjuncts the second half has
      one more. */
  method BinaryPartition(f: Formula) returns (result: seq<Formula>)
    ensures Divides(f, result)
    ensures result != [] ==> |ToSet(result[0])| == |ToSet(f)| / 2
  {
    hide FormulaFrom;
    var items := GetAndElement(f);
    result := [];
    if |items| > 1 { result := Divide(f, |items| / 2, items); }
  }

  /** The first conjunct and the conjunction of the others. */
  method Partition(f: Formula) returns (result: seq<Formula>)
    ensures Divides(f, result)
    ensures result != [] ==> |ToSet(result[0])| == 1
  {
    var items := GetAndElement(f);
    result := [];
    if |items| > 1 {
      result := Divide(f, 1, items);
      assert items[..1] == [items[0]] && items[0] in items;
      assert ToSet(items[0]) == {items[0]};
    }
  }

  lemma {:induction false} DistinctElements(s: seq<Formula>)
    ensures |set g | g in s| <= |s|
  {
    if s != [] {
      var init := s[..|s| - 1];
      DistinctElements(init);
      assert s == init + [s[|s| - 1]];
      assert (set g | g in s) == (set g | g in init) + {s[|s| - 1]};
    }
  }

  // -------------------------------------------------------- the linear method

  /** Unsatisfiable together with the rest, and each block of M is needed for that. */
  ghost predicate Required(M: multiset<set<Formula>>, rest: set<Formula>) {
    !Joint(Union(M) + rest) && forall b :: b in M ==> Joint(Union(M - multiset{b}) + rest)
  }

  lemma ShrinkRest(M: multiset<set<Formula>>, rest: set<Formula>, cut: set<Formula>)
    requires Required(M, rest) && cut <= rest && !Joint(Union(M) + cut)
    ensures Required(M, cut)
  {
    forall b | b in M ensures Joint(Union(M - multiset{b}) + cut) {
      JointSubset(Union(M - multiset{b}) + cut, Union(M - multiset{b}) + rest);
    }
  }

  /** A part that cannot be spared joins the blocks. */
  lemma MoveBlock(M: multiset<set<Formula>>, p: set<Formula>, q: set<Formula>)
    requires Required(M, p + q) && Joint(Union(M) + q)
    ensures Required(M + multiset{p}, q)
  {
    hide Joint;
    UnionPlus(M, p);
    assert Union(M) + p + q == Union(M) + (p + q);
    forall b | b in M + multiset{p}
      ensures Joint(Union(M + multiset{p} - multiset{b}) + q)
    {
      MoveBlockWithout(M, p, q, b);
    }
  }

  lemma MoveBlockWithout(M: multiset<set<Formula>>, p: set<Formula>, q: set<Formula>, b: set<Formula>)
    requires Required(M, p + q) && Joint(Union(M) + q) && b in M + multiset{p}
    ensures Joint(Union(M + multiset{p} - multiset{b}) + q)
  {
    hide Joint, Union;
    if b == p {
      assert M + multiset{p} - multiset{b} == M;
    } else {
      assert M + multiset{p} - multiset{b} == (M - multiset{b}) + multiset{p};
      UnionPlus(M - multiset{b}, p);
      assert b in M;
      assert Union(M - multiset{b}) + p + q == Union(M - multiset{b}) + (p + q);
    }
  }

  lemma RequiredAlone(M: multiset<set<Formula>>)
    requires Required(M, {})
    ensures Critical(M)
  {
    assert Union(M) + {} == Union(M);
    forall b | b in M ensures Joint(Union(M - multiset{b})) {
      assert Union(M - multiset{b}) + {} == Union(M - multiset{b});
    }
  }

  // ------------------------------------------------------------ the extractor

  /** What the extractor handles. */
  predicate Usable(f: Formula) { NoTail(f) && IsNnf(f) }

  lemma {:induction false} UsableConjuncts(f: Formula)
    ensures Usable(f) <==> forall g :: g in ToSet(f) ==> Usable(g)
  {
    if f.And? {
      UsableConjuncts(f.l);
      UsableConjuncts(f.r);
    }
  }

  lemma UsableSubset(f: Formula, g: Formula)
    requires Usable(f) && ToSet(g) <= ToSet(f)
    ensures Usable(g)
  {
    UsableConjuncts(f);
    UsableConjuncts(g);
  }

  lemma UnionUsable(s: seq<Formula>)
    requires forall f :: f in s ==> Usable(f)
    ensures forall f :: f in Union(Family(s)) ==> Usable(f)
  {
    forall f | f in Union(Family(s)) ensures Usable(f) {
      var b :| b in Family(s) && f in b;
      var i := FamilyHas(s, b);
      UsableConjuncts(s[i]);
    }
  }

  /** The answer to a query about the items: satisfiable as read, unless the only item is
      False itself, which is recognised. */
  lemma AnswerMeans(items: seq<Formula>)
    requires items != [] && forall f :: f in items ==> Usable(f)
    ensures var A := Union(Family(items));
            Satisfiable(AsRead(FormulaFrom(items))) ==> Joint(A)
    ensures var A := Union(Family(items));
            !Satisfiable(AsRead(FormulaFrom(items))) ==> Fails(A)
  {
    hide Family, Union, Positions;
    var f, A := FormulaFrom(items), Union(Family(items));
    UnionUsable(items);
    ConjunctionUsable(items);
    FitReadsItself(f);
    if f.False? {
      OnlyFalse(items);
      FamilyOne(False);
      FalseFails();
      ConstantVerdicts();
    } else {
      assert AsRead(f) == Seen(f, true);
      forall tr: Trace | tr != [] ensures Holds(AsRead(f), tr, 0) <==> SetHolds(A, tr, true) {
        ConjunctsHold(f, tr, true);
        FamilyHolds(items, tr, true);
        ConjunctionSeen(items, tr, true);
      }
      if tr: Trace :| Holds(AsRead(f), tr, 0) { assert SetHolds(A, tr, true); }
      if tr: Trace :| SetHolds(A, tr, true) { assert Holds(AsRead(f), tr, 0); }
      if Real(A) { RealIsJoint(A); }
    }
  }

  /** What a refused query says about the conjuncts it was about. */
  ghost predicate Fails(A: set<Formula>) { !Real(A) && (!Joint(A) || A == {False}) }

  lemma FalseFails()
    ensures Fails({False})
  {
    forall tr: Trace ensures !SetHolds({False}, tr, false) { assert Positions(False, tr) == {}; }
  }

  lemma OnlyFalse(items: seq<Formula>)
    requires FormulaFrom(items) == False
    ensures items == [False]
  {
    assert |items| == 1 && items == [items[0]];
  }

  lemma {:induction false} ConjunctionUsable(S: seq<Formula>)
    requires S != [] && forall f :: f in S ==> Usable(f)
    ensures Usable(FormulaFrom(S))
    decreases |S|
  {
    assert S[|S| - 1] in S;
    if |S| > 1 { ConjunctionUsable(S[..|S| - 1]); }
  }

  lemma {:induction false} ConjunctionSeen(S: seq<Formula>, tr: Trace, asRead: bool)
    requires S != [] && tr != []
    ensures Holds(Seen(FormulaFrom(S), asRead), tr, 0) <==> forall f :: f in S ==> Holds(Seen(f, asRead), tr, 0)
    decreases |S|
  {
    hide FalseAsTrue, Positions;
    var init, last := S[..|S| - 1], S[|S| - 1];
    assert S == init + [last];
    assert forall f :: f in S <==> f in init || f == last;
    if |S| > 1 {
      ConjunctionSeen(init, tr, asRead);
      SeenAnd(FormulaFrom(init), last, tr, asRead);
    }
  }

  lemma SeenAnd(f: Formula, g: Formula, tr: Trace, asRead: bool)
    ensures Holds(Seen(And(f, g), asRead), tr, 0) <==> Holds(Seen(f, asRead), tr, 0) && Holds(Seen(g, asRead), tr, 0)
  {
    assert Seen(And(f, g), asRead) == And(Seen(f, asRead), Seen(g, asRead));
  }

  // ---------------------------------------------------- what the extractor keeps

  /** What is left of all conjuncts: only False, or everything, if as a whole it is read as
      satisfiable, or else a family each block of which is needed for what is read. */
  ghost predicate Kept(all: set<Formula>, B: multiset<set<Formula>>) {
    || Union(B) == {False}
    || if Joint(all) then Union(B) == all else Critical(B)
  }

  ghost predicate Good(all: set<Formula>, B: multiset<set<Formula>>) {
    Union(B) <= all && !Real(Union(B)) && Kept(all, B)
  }

  /** Nothing fails on less than False. */
  lemma FailsInFalse(A: set<Formula>)
    requires A <= {False} && Fails(A)
    ensures A == {False}
  {
    if A == {} { assert SetHolds({}, [{}], false); }
  }

  lemma ShrinkGood(all: set<Formula>, B: multiset<set<Formula>>, b: set<Formula>, cut: set<Formula>)
    requires Good(all, B + multiset{b}) && cut <= b && Fails(Union(B) + cut)
    ensures Good(all, B + multiset{cut})
  {
    hide Union, Joint, Real;
    UnionPlus(B, b);
    UnionPlus(B, cut);
    if Union(B) + cut == {False} {
    } else if Union(B + multiset{b}) == {False} {
      FailsInFalse(Union(B) + cut);
    } else {
      JointSubset(Union(B) + cut, all);
      ShrinkBlock(B, b, cut);
    }
  }

  lemma SplitGood(all: set<Formula>, B: multiset<set<Formula>>, p: set<Formula>, q: set<Formula>)
    requires Good(all, B + multiset{p + q}) && Joint(Union(B) + p) && Joint(Union(B) + q)
    ensures Good(all, B + multiset{p} + multiset{q})
  {
    hide Union, Joint, Real;
    UnionTwo(B, p, q);
    if Critical(B + multiset{p + q}) { SplitBlock(B, p, q); }
  }

  /** The same for the linear method: what M and the rest keep, as far as that is sure. */
  ghost predicate GoodRest(all: set<Formula>, M: multiset<set<Formula>>, rest: set<Formula>, sure: bool) {
    && Union(M) + rest <= all && !Real(Union(M) + rest)
    && (sure ==>
          || Union(M) + rest == {False}
          || if Joint(all) then Union(M) + rest == all else Required(M, rest))
  }

  lemma ShrinkGoodRest(all: set<Formula>, M: multiset<set<Formula>>, rest: set<Formula>, cut: set<Formula>, sure: bool)
    requires GoodRest(all, M, rest, sure) && cut <= rest && Fails(Union(M) + cut)
    ensures GoodRest(all, M, cut, sure)
  {
    hide Union, Joint, Real;
    if Union(M) + cut == {False} {
    } else if Union(M) + rest == {False} {
      FailsInFalse(Union(M) + cut);
    } else if sure {
      JointSubset(Union(M) + cut, all);
      ShrinkRest(M, rest, cut);
    }
  }

  lemma MoveGood(all: set<Formula>, M: multiset<set<Formula>>, p: set<Formula>, q: set<Formula>, sure: bool)
    requires GoodRest(all, M, p + q, sure) && (sure ==> Joint(Union(M) + q))
    ensures GoodRest(all, M + multiset{p}, q, sure)
  {
    hide Union, Joint, Real;
    UnionPlus(M, p);
    assert Union(M) + p + q == Union(M) + (p + q);
    if sure && Required(M, p + q) { MoveBlock(M, p, q); }
  }

  /** The last conjunct is kept if what there is seems satisfiable without it. */
  lemma LastGood(all: set<Formula>, M: multiset<set<Formula>>, last: set<Formula>, rest: set<Formula>,
        keep: bool, sure: bool)
    requires GoodRest(all, M, rest + last, sure) && (sure ==> rest == {})
    requires if keep then Joint(Union(M)) else Fails(Union(M))
    ensures GoodRest(all, if keep then M + multiset{last} else M, rest, sure)
  {
    hide Joint, Union, Real;
    if keep {
      assert rest + last == last + rest;
      if sure { assert Union(M) + rest == Union(M); }
      MoveGood(all, M, last, rest, sure);
    } else if sure {
      assert Union(M) + rest == Union(M);
      ShrinkGoodRest(all, M, rest + last, rest, sure);
    } else {
      JointSubset(Union(M), Union(M) + rest);
    }
  }

  lemma RestAlone(all: set<Formula>, M: multiset<set<Formula>>)
    requires GoodRest(all, M, {}, true)
    ensures Good(all, M)
  {
    hide Joint, Union, Real;
    assert Union(M) + {} == Union(M);
    if Required(M, {}) { RequiredAlone(M); }
  }

  /** A query on a formula and two lists is a question about their conjunct sets. */
  lemma QueryMeans(front: seq<Formula>, S: seq<Formula>, MUC: seq<Formula>, cut: set<Formula>)
    requires Union(Family(front)) == cut
    ensures Union(Family(front + MUC + S)) == Union(Family(S) + Family(MUC)) + cut
    ensures Union(Family(front + S + MUC)) == Union(Family(S) + Family(MUC)) + cut
  {
    hide Family;
    FamilyAppend(front + MUC, S);
    FamilyAppend(front, MUC);
    FamilyAppend(front + S, MUC);
    FamilyAppend(front, S);
    assert Family(front) + Family(MUC) + Family(S) == Family(front) + (Family(S) + Family(MUC));
    assert Family(front) + Family(S) + Family(MUC) == Family(front) + (Family(S) + Family(MUC));
    UnionAppend(Family(front), Family(S) + Family(MUC));
  }

  lemma UnionAppend(A: multiset<set<Formula>>, B: multiset<set<Formula>>)
    ensures Union(A + B) == Union(B) + Union(A)
  {
    assert forall b :: b in A + B <==> b in A || b in B;
    forall f ensures f in Union(A + B) <==> f in Union(A) || f in Union(B) {}
  }

  lemma {:induction false} UnionOfConjuncts(s: seq<Formula>)
    ensures (forall f :: f in s ==> !f.And?) ==> Union(Family(s)) == set f | f in s
  {
    if s != [] {
      var init, last := s[..|s| - 1], s[|s| - 1];
      UnionOfConjuncts(init);
      UnionPlus(Family(init), ToSet(last));
      assert s == init + [last];
    }
  }

  lemma FamilyOne(f: Formula)
    ensures Family([f]) == multiset{ToSet(f)} && Union(Family([f])) == ToSet(f)
  {
    FamilyNone([]);
    FamilyPush([], f);
    assert [] + [f] == [f];
    UnionPlus(multiset{}, ToSet(f));
    assert multiset{} + multiset{ToSet(f)} == multiset{ToSet(f)};
  }

  lemma SmallerWeight(f: Formula, g: Formula)
    requires ToSet(g) <= ToSet(f)
    ensures Weight(g) <= Weight(f)
  {
    SubsetSize(ToSet(g), ToSet(f));
  }

  /** Halves are smaller, even together, and as usable as the whole. */
  lemma HalvesUsable(f: Formula, P: seq<Formula>)
    requires Divides(f, P) && P != [] && Usable(f)
    ensures |P| == 2 && Usable(P[0]) && Usable(P[1]) && ToSet(P[0]) <= ToSet(f) && ToSet(P[1]) <= ToSet(f)
    ensures Weight(P[0]) + Weight(P[1]) < Weight(f)
  {
    UsableSubset(f, P[0]);
    UsableSubset(f, P[1]);
  }

  lemma EmptyMeasure(s: seq<Formula>)
    ensures Measure(s) > 0 <==> s != []
  {
  }

  lemma UnionNone()
    ensures Union(multiset{}) == {}
  {
  }

  lemma NothingHolds(s: seq<Formula>)
    requires s == []
    ensures Consistent(s) && Joint({})
  {
    assert AllHold(s, [{}]);
    assert SetHolds({}, [{}], true);
  }

  lemma StartBlocks(f: Formula, sure: bool)
    requires !Satisfiable(f)
    ensures Good(ToSet(f), Family([f]) + Family([]))
    ensures GoodRest(ToSet(f), Family([]), Union(Family([f])), sure) && Union(Family([f])) == ToSet(f)
  {
    hide Family, Joint, ToSet, Real;
    FamilyOne(f);
    FamilyNone([]);
    NothingHolds([]);
    FamilyReal([f]);
    forall tr: Trace ensures !AllHold([f], tr) { assert f in [f]; }
    assert multiset{ToSet(f)} + multiset{} == multiset{ToSet(f)};
    UnionNone();
    assert {} + ToSet(f) == ToSet(f);
    assert multiset{ToSet(f)} - multiset{ToSet(f)} == multiset{};
  }

  lemma InUnion(core: seq<Formula>)
    ensures forall g :: g in core ==> ToSet(g) <= Union(Family(core))
  {
    forall i | 0 <= i < |core| ensures ToSet(core[i]) <= Union(Family(core)) { FamilyWithout(core, i); }
  }

  /** The formulas are those that the conflict of the solver for these items names, and none
      if that has met an obligation that is False. */
  ghost predicate BlamedBy(s: UCSolver, items: seq<Formula>, uc: seq<Formula>)
    reads s
  {
    && s.Valid() && s.items == items && s.index == 0
    && if s.falseDetected then uc == []
       else s.Blames(uc) && AaltaSolver.BlamedCore(s.clauses, s.assumption, s.conflict)
  }

  /** The conjuncts of the first formula that the obligation solver blames: some obligation
      of theirs fails wherever those of the other formulas hold.  None, if the solver has
      found an obligation that never holds.  From inconsistent items it never answers
      satisfiable. */
  method Blamed(items: seq<Formula>) returns (uc: seq<Formula>, ghost s: UCSolver)
    requires items != [] && !Consistent(items) && forall f :: f in items ==> IsNnf(f)
    ensures BlamedBy(s, items, uc) && forall f :: f in uc ==> f in ToSet(items[0])
    ensures s.falseDetected ==> SomeNever(items, 0)
    ensures !s.falseDetected ==>
      forall t: State :: s.OthersHold(t) ==> exists f :: f in uc && !Obligations.Eval(Obligations.Off(f), t)
  {
    hide ToSet, Consistent, IsNnf, Cnf.Unsat, UCSolver.OthersHold, Obligations.Off, Obligations.Eval;
    hide AaltaSolver.BlamedCore;
    hide UCSolver.Assumed, UCSolver.Fixed, ClauseTrueIn, Obliges, SomeNever, Obligable, UCSolver.Blames;
    uc := [];
    var solver := new UCSolver(items, 0);
    s := solver;
    if !solver.falseDetected {
      var sat := solver.SAT();
      assert !sat;
      uc := solver.GetUcFormulas();
    }
  }

  /** S holds what is still undecided, MUC the conjuncts found to be needed. */
  class MucExtractor {
    const uceable: bool
    ghost const all: set<Formula>  // the conjuncts of the input
    var S: seq<Formula>
    var MUC: seq<Formula>

    ghost predicate Valid()
      reads this
    {
      && (forall f :: f in S ==> Item(f))
      && (forall f :: f in MUC ==> Item(f) && |ToSet(f)| == 1)
    }

    ghost predicate Item(f: Formula) { Usable(f) && ToSet(f) <= all }

    ghost function Blocks(): multiset<set<Formula>>
      reads this
    {
      Family(S) + Family(MUC)
    }

    constructor (f: Formula, uc: bool)
      requires Usable(f)
      ensures Valid() && S == [f] && MUC == [] && uceable == uc && all == ToSet(f)
    {
      uceable, all := uc, ToSet(f);
      S, MUC := [f], [];
    }

    lemma ItemSubset(f: Formula, g: Formula)
      requires Item(f) && ToSet(g) <= ToSet(f)
      ensures Item(g)
    {
      UsableSubset(f, g);
    }

    lemma ItemHalves(f: Formula, P: seq<Formula>)
      requires Divides(f, P) && P != [] && Item(f)
      ensures |P| == 2 && Item(P[0]) && Item(P[1]) && ToSet(P[0]) <= ToSet(f) && ToSet(P[1]) <= ToSet(f)
      ensures Weight(P[0]) + Weight(P[1]) < Weight(f)
    {
      HalvesUsable(f, P);
    }

    /** Are the items together satisfiable, as they are read? */
    method Ask(items: seq<Formula>) returns (res: bool)
      requires items != [] && forall f :: f in items ==> Item(f)
      ensures res <==> Satisfiable(AsRead(FormulaFrom(items)))
      ensures if res then Joint(Union(Family(items))) else Fails(Union(Family(items)))
    {
      hide ToSet, IsNnf, NoTail, AsRead, Joint, Fails, Union, Family, Satisfiable, FormulaFrom;
      AnswerMeans(items);
      res := IsSat(items);
    }

    /** Is p together with MUC and S satisfiable? */
    method Query(p: Formula) returns (res: bool)
      requires Valid() && Item(p)
      ensures res <==> Satisfiable(AsRead(FormulaFrom([p] + MUC + S)))
      ensures if res then Joint(Union(Blocks()) + ToSet(p)) else Fails(Union(Blocks()) + ToSet(p))
    {
      hide Family, Joint, Fails, Union, ToSet, Item, AsRead, FormulaFrom, Satisfiable;
      FamilyOne(p);
      QueryMeans([p], S, MUC, ToSet(p));
      res := Ask([p] + MUC + S);
    }

    /** The part of newf that the obligation solver blames, if it is enough. */
    method ShrinkWithUc(newf: Formula) returns (cf: Formula, ghost uc: seq<Formula>, ghost s: UCSolver)
      requires Valid() && Item(newf) && !Real(Union(Blocks()) + ToSet(newf))
      ensures BlamedBy(s, [newf] + MUC + S, uc)
      ensures cf == if uc == [] || Satisfiable(AsRead(FormulaFrom(uc + S + MUC))) then newf else FormulaFrom(uc)
      ensures Item(cf) && ToSet(cf) <= ToSet(newf) && (cf == newf || Fails(Union(Blocks()) + ToSet(cf)))
    {
      hide Family, Joint, Real, Fails, Union, ToSet, Consistent, NoTail, IsNnf, BlamedBy, AsRead, Satisfiable;
      var items := [newf] + MUC + S;
      FamilyOne(newf);
      QueryMeans([newf], S, MUC, ToSet(newf));
      FamilyReal(items);
      var blamed;
      blamed, s := Blamed(items);
      cf, uc := newf, blamed;
      if blamed != [] { cf := KeepIfEnough(newf, blamed); }
    }

    method KeepIfEnough(newf: Formula, uc: seq<Formula>) returns (cf: Formula)
      requires Valid() && Item(newf)
      requires uc != [] && forall f :: f in uc ==> f in ToSet(newf)
      ensures Item(cf) && ToSet(cf) <= ToSet(newf) && (cf == newf || Fails(Union(Blocks()) + ToSet(cf)))
      ensures cf == if Satisfiable(AsRead(FormulaFrom(uc + S + MUC))) then newf else FormulaFrom(uc)
    {
      hide Family, Joint, Fails, Union, Usable, AsRead, Satisfiable;
      UsableConjuncts(newf);
      UnionOfConjuncts(uc);
      ToSetFormulaFrom(uc);
      assert ToSet(FormulaFrom(uc)) == set f | f in uc;
      ItemSubset(newf, FormulaFrom(uc));
      QueryMeans(uc, S, MUC, ToSet(FormulaFrom(uc)));
      var res := Ask(uc + S + MUC);
      cf := if !res then FormulaFrom(uc) else newf;
    }

    /** A block goes to MUC if it is a single conjunct, and back to S if not. */
    method Settle(p: Formula)
      requires Valid() && Item(p)
      modifies this`S, this`MUC
      ensures Valid() && Blocks() == old(Blocks()) + multiset{ToSet(p)}
      ensures Measure(S) <= old(Measure(S)) + Weight(p)
    {
      hide Family, ToSet, Measure, Weight, Item;
      var parts := BinaryPartition(p);
      FamilyPush(MUC, p);
      FamilyPush(S, p);
      MeasurePush(S, p);
      if parts == [] { MUC := MUC + [p]; } else { S := S + [p]; }
    }

    /** Takes the last formula off S. */
    method PopLast() returns (f: Formula)
      requires Valid() && S != []
      modifies this`S
      ensures Valid() && Item(f) && Blocks() + multiset{ToSet(f)} == old(Blocks())
      ensures Measure(S) + Weight(f) == old(Measure(S)) && S + [f] == old(S)
    {
      hide Family, ToSet, Measure, Weight, Item;
      f := S[|S| - 1];
      assert S == S[..|S| - 1] + [f];
      FamilyPush(S[..|S| - 1], f);
      MeasurePush(S[..|S| - 1], f);
      S := S[..|S| - 1];
    }

    /** The last formula of S, cut down if the heuristic is on; it stays needed. */
    method TakeBlock() returns (cf: Formula)
      requires Valid() && S != [] && Good(all, Blocks())
      modifies this`S
      ensures Valid() && Item(cf) && Good(all, Blocks() + multiset{ToSet(cf)})
      ensures Measure(S) + Weight(cf) <= old(Measure(S))
    {
      hide Family, Measure, Item, Joint, Real, Fails, Union, ToSet, Kept, BlamedBy, AsRead, Satisfiable, FormulaFrom;
      var newf := PopLast();
      cf := newf;
      UnionPlus(Blocks(), ToSet(newf));
      if uceable {
        ghost var uc, s;
        cf, uc, s := ShrinkWithUc(newf);
        if cf != newf { ShrinkGood(all, Blocks(), ToSet(newf), ToSet(cf)); }
        SmallerWeight(newf, cf);
      }
    }

    /** Keeps the one half that is enough, and goes on. */
    method KeepHalf(cf: Formula, half: Formula)
      requires Valid() && Item(half) && Good(all, Blocks() + multiset{ToSet(cf)})
      requires ToSet(half) <= ToSet(cf) && Fails(Union(Blocks()) + ToSet(half))
      modifies this`S, this`MUC
      ensures Valid() && Good(all, Blocks())
      ensures Measure(S) <= old(Measure(S)) + Weight(half)
    {
      hide Family, Measure, Item, Joint, Fails, Union, ToSet, Good;
      ShrinkGood(all, Blocks(), ToSet(cf), ToSet(half));
      Settle(half);
    }

    /** Both halves seem to be needed: each becomes a block of its own. */
    method KeepBoth(cf: Formula, P: seq<Formula>)
      requires Valid() && Good(all, Blocks() + multiset{ToSet(cf)})
      requires P != [] && Divides(cf, P) && Item(P[0]) && Item(P[1])
      requires Joint(Union(Blocks()) + ToSet(P[0])) && Joint(Union(Blocks()) + ToSet(P[1]))
      modifies this`S, this`MUC
      ensures Valid() && Good(all, Blocks())
      ensures Measure(S) <= old(Measure(S)) + Weight(P[0]) + Weight(P[1])
    {
      hide Family, Measure, Item, Joint, Union, ToSet, Good;
      SplitGood(all, Blocks(), ToSet(P[0]), ToSet(P[1]));
      Settle(P[0]);
      Settle(P[1]);
    }

    /** Binary search for a minimal core: `muc`. */
    method Muc()
      requires Valid() && Good(all, Blocks())
      modifies this`S, this`MUC
      ensures Valid() && S == [] && Good(all, Blocks())
      decreases Measure(S)
    {
      hide Family, Item, Joint, Union, ToSet, Good, Fails;
      if S == [] { return; }
      EmptyMeasure(S);
      var cf := TakeBlock();
      var P := BinaryPartition(cf);
      if P == [] {
        FamilyPush(MUC, cf);
        ghost var B := Blocks();
        MUC := MUC + [cf];
        assert Blocks() == B + multiset{ToSet(cf)};
        Muc();
        return;
      }
      ItemHalves(cf, P);
      ghost var s, m := S, MUC;
      var flag, i := false, 0;
      while i < 2
        invariant i <= 2 && S == s && MUC == m && !flag
        invariant forall j :: 0 <= j < i ==> Joint(Union(Blocks()) + ToSet(P[j]))
      {
        var res := Query(P[i]);
        if !res {
          flag := true;
          KeepHalf(cf, P[i]);
          Muc();
          break;
        }
        i := i + 1;
      }
      if !flag { KeepBoth(cf, P); }
      Muc();
    }

    /** The last formula of S, cut down if the heuristic is on. */
    method TakeRest(ghost sure: bool) returns (cf: Formula)
      requires Valid() && S != [] && GoodRest(all, Family(MUC), Union(Family(S)), sure)
      modifies this`S
      ensures Valid() && S == old(S)[..|old(S)| - 1] && Item(cf)
      ensures GoodRest(all, Family(MUC), Union(Family(S)) + ToSet(cf), sure)
      ensures Measure(S) + Weight(cf) <= old(Measure(S))
    {
      hide Family, Measure, Item, Joint, Real, Fails, Union, ToSet, Required, BlamedBy, AsRead, Satisfiable, FormulaFrom;
      var newf := PopLast();
      FamilyPush(S, newf);
      UnionPlus(Family(S), ToSet(newf));
      cf := newf;
      if uceable {
        RestTogether(Family(MUC), Family(S), ToSet(newf));
        ghost var uc, s;
        cf, uc, s := ShrinkWithUc(newf);
        RestTogether(Family(MUC), Family(S), ToSet(cf));
        if cf != newf {
          ShrinkGoodRest(all, Family(MUC), Union(Family(S)) + ToSet(newf), Union(Family(S)) + ToSet(cf), sure);
        }
        SmallerWeight(newf, cf);
      }
    }

    /** An indivisible rest joins MUC unless MUC is unsatisfiable without it. */
    method SettleRest(cf: Formula, ghost sure: bool)
      requires Valid() && Item(cf) && |ToSet(cf)| == 1 && (sure ==> S == [])
      requires GoodRest(all, Family(MUC), Union(Family(S)) + ToSet(cf), sure)
      modifies this`MUC
      ensures Valid() && GoodRest(all, Family(MUC), Union(Family(S)), sure)
    {
      hide Family, Joint, Fails, Union, ToSet, Usable, Measure, GoodRest, AsRead, Satisfiable, FormulaFrom;
      var needed := MUC == [];
      if needed {
        NothingHolds(MUC);
        FamilyNone(MUC);
        UnionNone();
      } else {
        needed := Ask(MUC);
      }
      if sure { FamilyNone(S); UnionNone(); }
      LastGood(all, Family(MUC), ToSet(cf), Union(Family(S)), needed, sure);
      FamilyPush(MUC, cf);
      if needed { MUC := MUC + [cf]; }
    }

    /** The first conjunct joins MUC if the others are satisfiable with MUC; the others
        are the new rest either way. */
    method SettleFirst(cf: Formula, P: seq<Formula>, ghost sure: bool)
      requires Valid() && Item(cf) && GoodRest(all, Family(MUC), Union(Family(S)) + ToSet(cf), sure)
      requires P != [] && Divides(cf, P) && |ToSet(P[0])| == 1 && (sure ==> S == [])
      modifies this`S, this`MUC
      ensures Valid() && S == old(S) + [P[1]] && GoodRest(all, Family(MUC), Union(Family(S)), sure)
    {
      hide Family, Joint, Fails, Union, ToSet, Usable, GoodRest, AsRead, Satisfiable, FormulaFrom;
      ItemHalves(cf, P);
      FamilyOne(P[1]);
      QueryMeans([P[1]], [], MUC, ToSet(P[1]));
      FamilyNone([]);
      assert [P[1]] + MUC + [] == [P[1]] + MUC;
      assert multiset{} + Family(MUC) == Family(MUC);
      FamilyPush(S, P[1]);
      UnionPlus(Family(S), ToSet(P[1]));
      ghost var rest := Union(Family(S)) + ToSet(P[1]);
      if sure { FamilyNone(S); UnionNone(); }
      var res := Ask([P[1]] + MUC);
      if res {
        assert Union(Family(S)) + ToSet(cf) == ToSet(P[0]) + rest;
        if sure { assert Union(Family(MUC)) + rest == Union(Family(MUC)) + ToSet(P[1]); }
        MoveGood(all, Family(MUC), ToSet(P[0]), rest, sure);
        FamilyPush(MUC, P[0]);
        MUC := MUC + [P[0]];
      } else {
        RestFails(all, Family(MUC), Union(Family(S)), ToSet(cf), ToSet(P[1]), sure);
      }
      S := S + [P[1]];
    }

    /** Linear search for a minimal core: `basicMuc`.  Its queries ignore S: what it finds
        is unsatisfiable, and as good as that of the binary method if S holds one formula
        at most. */
    method BasicMuc(ghost sure: bool)
      requires Valid() && GoodRest(all, Family(MUC), Union(Family(S)), sure) && (sure ==> |S| <= 1)
      modifies this`S, this`MUC
      ensures Valid() && S == [] && !Real(Union(Blocks())) && (sure ==> Good(all, Blocks()))
      decreases Measure(S)
    {
      hide Family, Item, Joint, Real, Union, ToSet, Good, Required;
      if S == [] {
        FamilyNone(S);
        UnionNone();
        if sure { RestAlone(all, Family(MUC)); }
        assert Blocks() == Family(MUC) && Union(Family(MUC)) + {} == Union(Family(MUC));
        return;
      }
      hide GoodRest;
      EmptyMeasure(S);
      var cf := TakeRest(sure);
      var P := Partition(cf);
      if P == [] {
        SettleRest(cf, sure);
      } else {
        ItemHalves(cf, P);
        MeasurePush(S, P[1]);
        SettleFirst(cf, P, sure);
      }
      BasicMuc(sure);
    }
  }

  /** If the blocks fail with the second part alone, the first is not needed. */
  lemma RestFails(all: set<Formula>, M: multiset<set<Formula>>, rest: set<Formula>, whole: set<Formula>,
        part: set<Formula>, sure: bool)
    requires GoodRest(all, M, rest + whole, sure) && part <= whole && Fails(Union(M) + part) && (sure ==> rest == {})
    ensures GoodRest(all, M, rest + part, sure)
  {
    hide Joint, Union, Real;
    if sure {
      assert rest + part == part;
      ShrinkGoodRest(all, M, rest + whole, rest + part, sure);
    } else {
      JointSubset(Union(M) + part, Union(M) + (rest + part));
    }
  }

  lemma RestTogether(M: multiset<set<Formula>>, B: multiset<set<Formula>>, b: set<Formula>)
    ensures Union(M) + (Union(B) + b) == Union(B + M) + b
  {
    UnionAppend(B, M);
  }

  // ------------------------------------------------------------ the main result

  /** The list is unsatisfiable, and satisfiable without any one of its elements. */
  ghost predicate MinimalCore(core: seq<Formula>) {
    !Consistent(core) && forall i :: 0 <= i < |core| ==> Consistent(Without(core, i))
  }

  /** The formulas of a list as they are read. */
  function Read(core: seq<Formula>): seq<Formula> { seq(|core|, i requires 0 <= i < |core| => FalseAsTrue(core[i])) }

  lemma ReadMembers(s: seq<Formula>)
    ensures forall f :: f in s ==> FalseAsTrue(f) in Read(s)
    ensures forall g :: g in Read(s) ==> exists f :: f in s && g == FalseAsTrue(f)
  {
    forall f | f in s ensures FalseAsTrue(f) in Read(s) {
      var i :| 0 <= i < |s| && s[i] == f;
      assert Read(s)[i] == FalseAsTrue(f);
    }
    forall g | g in Read(s) ensures exists f :: f in s && g == FalseAsTrue(f) {
      var i :| 0 <= i < |s| && Read(s)[i] == g;
      assert s[i] in s;
    }
  }

  lemma ReadConsistent(s: seq<Formula>)
    ensures Consistent(Read(s)) <==> Joint(Union(Family(s)))
  {
    hide Union, Family, FalseAsTrue, Positions;
    var A := Union(Family(s));
    forall tr: Trace | tr != [] ensures AllHold(Read(s), tr) <==> SetHolds(A, tr, true) {
      FamilyHolds(s, tr, true);
      ReadMembers(s);
    }
    if tr: Trace :| AllHold(Read(s), tr) { assert SetHolds(A, tr, true); }
    if tr: Trace :| SetHolds(A, tr, true) { assert AllHold(Read(s), tr); }
  }

  lemma CriticalIsMinimal(core: seq<Formula>)
    requires Critical(Family(core))
    ensures MinimalCore(Read(core))
  {
    hide Family, Joint, Union, ToSet, Consistent;
    ReadConsistent(core);
    forall i | 0 <= i < |core| ensures Consistent(Without(Read(core), i)) {
      FamilyWithout(core, i);
      ReadConsistent(Without(core, i));
      assert Without(Read(core), i) == Read(Without(core, i));
    }
  }

  /** What a core is for the checker: False alone; or all conjuncts, if all together are
      read as satisfiable; or else minimal as it is read. */
  ghost predicate CoreAsRead(f: Formula, core: seq<Formula>) {
    || Union(Family(core)) == {False}
    || if Satisfiable(FalseAsTrue(f)) then Union(Family(core)) == ToSet(f) else MinimalCore(Read(core))
  }

  lemma GoodIsCore(f: Formula, core: seq<Formula>)
    requires Good(ToSet(f), Family(core))
    ensures !Consistent(core) && CoreAsRead(f, core)
  {
    hide Family, Union, ToSet, Consistent, Positions, FalseAsTrue;
    FamilyReal(core);
    forall tr: Trace | tr != [] ensures Holds(FalseAsTrue(f), tr, 0) <==> SetHolds(ToSet(f), tr, true) {
      ConjunctsHold(f, tr, true);
    }
    if tr: Trace :| Holds(FalseAsTrue(f), tr, 0) { assert SetHolds(ToSet(f), tr, true); }
    if tr: Trace :| SetHolds(ToSet(f), tr, true) { assert Holds(FalseAsTrue(f), tr, 0); }
    if Critical(Family(core)) { CriticalIsMinimal(core); }
  }

  /** Without loose False the reading is the meaning. */
  lemma ReadIsMeant(f: Formula, core: seq<Formula>)
    requires Usable(f) && NoLooseFalse(f) && !Satisfiable(f) && CoreAsRead(f, core)
    requires core != [] && forall g :: g in core ==> ToSet(g) <= ToSet(f)
    ensures MinimalCore(core)
  {
    hide Union, Family, Consistent;
    FitReadsItself(f);
    NoFalseConjunct(f);
    forall i | 0 <= i < |core| ensures FalseAsTrue(core[i]) == core[i] {
      NoFalseConjunct(core[i]);
      UsableSubset(f, core[i]);
      FitReadsItself(core[i]);
    }
    assert Read(core) == core;
    InUnion(core);
    if Union(Family(core)) == {False} { NonEmptyConjuncts(core[0]); }
  }

  lemma NonEmptyConjuncts(f: Formula)
    ensures ToSet(f) != {}
  {
  }

  lemma {:induction false} NoFalseConjunct(f: Formula)
    ensures NoLooseFalse(f) <==> forall g :: g in ToSet(f) ==> NoLooseFalse(g)
    ensures NoLooseFalse(f) ==> False !in ToSet(f)
  {
    if f.And? {
      NoFalseConjunct(f.l);
      NoFalseConjunct(f.r);
    }
  }

  /** From an unsatisfiable formula, both methods, with or without the heuristic, end with
      an unsatisfiable list of its conjuncts, which is minimal as it is read, and so minimal
      if there is no loose False. */
  method GetMuc(f: Formula, binary: bool, uceable: bool) returns (core: seq<Formula>)
    requires NoTail(f) && IsNnf(f) && !Satisfiable(f)
    ensures !Consistent(core) && CoreAsRead(f, core) && (NoLooseFalse(f) ==> MinimalCore(core))
    ensures forall g :: g in core ==> |ToSet(g)| == 1 && ToSet(g) <= ToSet(f)
  {
    hide Family, Joint, Union, ToSet, Good, GoodRest, Consistent, Satisfiable, NoTail, IsNnf, NoLooseFalse, CoreAsRead;
    var m := new MucExtractor(f, uceable);
    StartBlocks(f, true);
    if binary { m.Muc(); } else { m.BasicMuc(true); }
    core := m.MUC;
    FamilyNone(m.S);
    assert m.Blocks() == Family(core);
    GoodIsCore(f, core);
    if core == [] { NothingHolds(core); }
    if NoLooseFalse(f) { ReadIsMeant(f, core); }
  }

  // --------------------------------------------- when queries are misread

  const LOOSE := Or(False, False)
  const SPOILED := And(And(Atom(1), Atom(2)), LOOSE)

  lemma SpoiledConjuncts()
    ensures ToSet(SPOILED) == {Atom(1), Atom(2), LOOSE} && Usable(SPOILED)
  {
    assert ToSet(And(Atom(1), Atom(2))) == {Atom(1), Atom(2)};
  }

  lemma LooseHasNoTrace(tr: Trace)
    ensures !Holds(LOOSE, tr, 0) && !Holds(SPOILED, tr, 0)
  {
    assert Positions(False, tr) == {};
  }

  lemma SpoiledIsRead()
    ensures Satisfiable(FalseAsTrue(SPOILED))
  {
    var tr := [{1, 2}];
    var no := Or(True, True);
    assert FalseAsTrue(And(Atom(1), Atom(2))) == And(Atom(1), Atom(2)) && FalseAsTrue(LOOSE) == no;
    assert 0 in Positions(True, tr) && 0 in Positions(Atom(1), tr) && 0 in Positions(Atom(2), tr);
    assert 0 in Positions(And(Atom(1), Atom(2)), tr) && 0 in Positions(no, tr);
    assert Holds(And(And(Atom(1), Atom(2)), no), tr, 0);
  }

  lemma {:induction false} UnionWithin(s: seq<Formula>, all: set<Formula>)
    requires forall g :: g in s ==> ToSet(g) <= all
    ensures Union(Family(s)) <= all
  {
    hide ToSet;
    if s != [] {
      var init, last := s[..|s| - 1], s[|s| - 1];
      assert s == init + [last];
      UnionWithin(init, all);
      UnionPlus(Family(init), ToSet(last));
    }
  }

  lemma SpoiledNotMinimal(core: seq<Formula>)
    requires Union(Family(core)) == ToSet(SPOILED) && forall g :: g in core ==> |ToSet(g)| == 1
    ensures !MinimalCore(core)
  {
    hide Union, Family, Positions;
    SpoiledConjuncts();
    var i := CoreHas(core, Atom(1));
    var j := CoreHas(core, LOOSE);
    var rest := Without(core, i);
    assert core[j] in rest by { assert if j < i then rest[j] == core[j] else rest[j - 1] == core[j]; }
    forall tr: Trace ensures !AllHold(rest, tr) {
      LooseHasNoTrace(tr);
      if tr != [] { ToSetHolds(core[j], tr, 0); }
    }
  }

  /** A loose False can spoil a core: from `(a & b) & (false | false)` the extractor returns
      all three conjuncts, although the last one alone is unsatisfiable. */
  lemma LooseFalseSpoilsCore(core: seq<Formula>)
    requires CoreAsRead(SPOILED, core) && forall g :: g in core ==> |ToSet(g)| == 1 && ToSet(g) <= ToSet(SPOILED)
    ensures !Satisfiable(SPOILED) && Union(Family(core)) == ToSet(SPOILED) && !MinimalCore(core)
  {
    hide Union, Family, NoTail, IsNnf, Positions;
    SpoiledConjuncts();
    SpoiledIsRead();
    UnionWithin(core, ToSet(SPOILED));
    forall tr: Trace ensures !Holds(SPOILED, tr, 0) { LooseHasNoTrace(tr); }
    SpoiledNotMinimal(core);
  }

  lemma CoreHas(core: seq<Formula>, f: Formula) returns (i: nat)
    requires f in Union(Family(core)) && forall g :: g in core ==> |ToSet(g)| == 1
    ensures i < |core| && ToSet(core[i]) == {f}
  {
    var b :| b in Family(core) && f in b;
    i := FamilyHas(core, b);
    SingletonSize(ToSet(core[i]), f);
  }

  lemma SingletonSize(s: set<Formula>, f: Formula)
    requires f in s && |s| == 1
    ensures s == {f}
  {
    assert |s - {f}| == 0;
  }

  lemma {:induction false} FamilyHas(s: seq<Formula>, b: set<Formula>) returns (i: nat)
    requires b in Family(s)
    ensures i < |s| && ToSet(s[i]) == b
    decreases |s|
  {
    if b == ToSet(s[|s| - 1]) { i := |s| - 1; } else { i := FamilyHas(s[..|s| - 1], b); }
  }
}
