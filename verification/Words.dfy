/** Infinite words, and linear temporal logic on them. */
module Words {
  import opened Formulas

  type Word = nat -> State

  /** Some position from i on is in H, and all positions before it are in G. */
  ghost predicate Eventually(G: iset<nat>, H: iset<nat>, i: nat) {
    exists k: nat :: i <= k && k in H && AllIn(G, i, k)
  }

  ghost predicate AllIn(G: iset<nat>, i: nat, k: nat) { forall j: nat :: i <= j < k ==> j in G }

  /** Every position from i on is in H, except those after a position in G. */
  ghost predicate Forever(G: iset<nat>, H: iset<nat>, i: nat) {
    forall k: nat :: i <= k ==> k in H || SomeIn(G, i, k)
  }

  ghost predicate SomeIn(G: iset<nat>, i: nat, k: nat) { exists j: nat :: i <= j < k && j in G }

  ghost predicate NextIn(G: iset<nat>, i: nat) { i + 1 in G }

  ghost function NextOf(G: iset<nat>): iset<nat> { iset i: nat | NextIn(G, i) }

  ghost function UntilOf(G: iset<nat>, H: iset<nat>): iset<nat> { iset i: nat | Eventually(G, H, i) }

  ghost function ReleaseOf(G: iset<nat>, H: iset<nat>): iset<nat> { iset i: nat | Forever(G, H, i) }

  ghost predicate Position(i: nat) { true }

  ghost function All(): iset<nat> { iset i: nat | Position(i) }

  /** The positions of a word where a formula holds (linear temporal logic). */
  ghost function WordPositions(f: Formula, w: Word): iset<nat> {
    match f
    case True => All()
    case False => iset{}
    case Atom(p) => iset i: nat | p in w(i)
    case Not(g) => All() - WordPositions(g, w)
    case Or(g, h) => WordPositions(g, w) + WordPositions(h, w)
    case And(g, h) => WordPositions(g, w) * WordPositions(h, w)
    case Next(g) => NextOf(WordPositions(g, w))
    case WNext(g) => NextOf(WordPositions(g, w))
    case Until(g, h) => UntilOf(WordPositions(g, w), WordPositions(h, w))
    case Release(g, h) => ReleaseOf(WordPositions(g, w), WordPositions(h, w))
  }

  /** The two formulas hold at the same positions of every word. */
  ghost predicate Equal(f: Formula, g: Formula) {
    forall w: Word :: WordPositions(f, w) == WordPositions(g, w)
  }

  /** Wherever the first formula holds, in any word, the second does. */
  ghost predicate Implies(f: Formula, g: Formula) {
    forall w: Word :: WordPositions(f, w) <= WordPositions(g, w)
  }

  // ------------------------------------------------ until and release as fixpoints

  lemma UntilStep(G: iset<nat>, H: iset<nat>, i: nat)
    ensures i in UntilOf(G, H) <==> i in H || (i in G && i + 1 in UntilOf(G, H))
  {
    if k: nat :| i <= k && k in H && AllIn(G, i, k) {
      if i < k { assert AllIn(G, i + 1, k); }
    }
    if i in G && Eventually(G, H, i + 1) {
      var k: nat :| i + 1 <= k && k in H && AllIn(G, i + 1, k);
      assert AllIn(G, i, k);
    }
    if i in H { assert AllIn(G, i, i); }
  }

  lemma ReleaseStep(G: iset<nat>, H: iset<nat>, i: nat)
    ensures i in ReleaseOf(G, H) <==> i in H && (i in G || i + 1 in ReleaseOf(G, H))
  {
    if Forever(G, H, i) {
      assert i in H by { assert !SomeIn(G, i, i); }
      if i !in G {
        forall k: nat | i + 1 <= k ensures k in H || SomeIn(G, i + 1, k) {
          if k !in H {
            var j: nat :| i <= j < k && j in G;
            assert i + 1 <= j;
          }
        }
      }
    }
    if i in H && (i in G || Forever(G, H, i + 1)) {
      forall k: nat | i <= k ensures k in H || SomeIn(G, i, k) {
        if i < k && k !in H && i !in G {
          var j: nat :| i + 1 <= j < k && j in G;
        }
      }
    }
  }

  /** Until is the least set that contains H and is closed under steps back in G. */
  lemma UntilLeast(G: iset<nat>, H: iset<nat>, Z: iset<nat>)
    requires forall i: nat :: i in H || (i in G && NextIn(Z, i)) ==> i in Z
    ensures UntilOf(G, H) <= Z
  {
    forall i: nat, k: nat | i <= k && k in H && AllIn(G, i, k) ensures i in Z { StepsBack(G, H, Z, i, k); }
  }

  lemma {:induction false} StepsBack(G: iset<nat>, H: iset<nat>, Z: iset<nat>, i: nat, k: nat)
    requires forall i: nat :: i in H || (i in G && NextIn(Z, i)) ==> i in Z
    requires i <= k && k in H && AllIn(G, i, k)
    ensures i in Z
    decreases k - i
  {
    if i < k {
      assert AllIn(G, i + 1, k);
      StepsBack(G, H, Z, i + 1, k);
      assert NextIn(Z, i);
    }
  }

  /** Release is the greatest set inside H that only G lets go of. */
  lemma ReleaseGreatest(G: iset<nat>, H: iset<nat>, Z: iset<nat>)
    requires forall i: nat :: i in Z ==> i in H && (i in G || NextIn(Z, i))
    ensures Z <= ReleaseOf(G, H)
  {
    forall i: nat, k: nat | i in Z && i <= k ensures k in H || SomeIn(G, i, k) { StepsOn(G, H, Z, i, k); }
  }

  lemma {:induction false} StepsOn(G: iset<nat>, H: iset<nat>, Z: iset<nat>, i: nat, k: nat)
    requires forall i: nat :: i in Z ==> i in H && (i in G || NextIn(Z, i))
    requires i in Z && i <= k
    ensures k in H || SomeIn(G, i, k)
    decreases k - i
  {
    if i < k && i !in G {
      assert NextIn(Z, i);
      StepsOn(G, H, Z, i + 1, k);
      if j: nat :| i + 1 <= j < k && j in G { assert i <= j; }
    }
  }

  // ------------------------------------------------------------------------ laws

  lemma UntilIsRight(G: iset<nat>, H: iset<nat>)
    requires forall i: nat :: i in G && NextIn(H, i) ==> i in H
    ensures UntilOf(G, H) == H
  {
    hide Eventually, Forever;
    UntilLeast(G, H, H);
    forall i: nat | i in H ensures i in UntilOf(G, H) { UntilStep(G, H, i); }
  }

  lemma ReleaseIsRight(G: iset<nat>, H: iset<nat>)
    requires forall i: nat :: i in H ==> i in G || NextIn(H, i)
    ensures ReleaseOf(G, H) == H
  {
    hide Eventually, Forever;
    ReleaseGreatest(G, H, H);
    forall i: nat | i in ReleaseOf(G, H) ensures i in H { ReleaseStep(G, H, i); }
  }

  /** (a U b) U a = b U a */
  lemma UntilTurns(A: iset<nat>, B: iset<nat>)
    ensures UntilOf(UntilOf(A, B), A) == UntilOf(B, A)
  {
    hide Eventually, Forever;
    var L, R := UntilOf(UntilOf(A, B), A), UntilOf(B, A);
    forall i: nat
      ensures i in A || (i in UntilOf(A, B) && NextIn(R, i)) ==> i in R
      ensures i in A || (i in B && NextIn(L, i)) ==> i in L
    {
      UntilStep(A, B, i); UntilStep(B, A, i); UntilStep(UntilOf(A, B), A, i);
    }
    UntilLeast(UntilOf(A, B), A, R);
    UntilLeast(B, A, L);
  }

  /** (b U a) U a = b U a */
  lemma UntilLeft(A: iset<nat>, B: iset<nat>)
    ensures UntilOf(UntilOf(B, A), A) == UntilOf(B, A)
  {
    hide Eventually, Forever;
    var L, R := UntilOf(UntilOf(B, A), A), UntilOf(B, A);
    forall i: nat | i in A ensures i in R { UntilStep(B, A, i); }
    UntilLeast(R, A, R);
    forall i: nat | i in A || (i in B && NextIn(L, i)) ensures i in L {
      if i !in A { assert i + 1 in L && i + 1 in R; }
      UntilStep(R, A, i); UntilStep(B, A, i);
    }
    UntilLeast(B, A, L);
  }

  /** X a U a = X a | a */
  lemma UntilOfNext(A: iset<nat>)
    ensures UntilOf(NextOf(A), A) == NextOf(A) + A
  {
    hide Eventually, Forever;
    var U := UntilOf(NextOf(A), A);
    UntilLeast(NextOf(A), A, NextOf(A) + A);
    forall i: nat | i in NextOf(A) + A ensures i in U {
      UntilStep(NextOf(A), A, i);
      UntilStep(NextOf(A), A, i + 1);
      if i in NextOf(A) { assert NextIn(A, i); }
    }
  }

  /** X a U X b = X (a U b) */
  lemma UntilNexts(A: iset<nat>, B: iset<nat>)
    ensures UntilOf(NextOf(A), NextOf(B)) == NextOf(UntilOf(A, B))
  {
    hide Eventually, Forever;
    var U, V := UntilOf(A, B), UntilOf(NextOf(A), NextOf(B));
    forall i: nat ensures i in NextOf(B) || (i in NextOf(A) && NextIn(NextOf(U), i)) ==> i in NextOf(U) {
      UntilStep(A, B, i + 1);
      assert i in NextOf(B) ==> NextIn(B, i);
      assert i in NextOf(A) ==> NextIn(A, i);
      assert NextIn(NextOf(U), i) ==> NextIn(U, i + 1);
      assert i in NextOf(U) <==> NextIn(U, i);
    }
    UntilLeast(NextOf(A), NextOf(B), NextOf(U));
    var Z := iset j: nat | j == 0 || PrevIn(V, j);
    forall j: nat ensures j in B || (j in A && NextIn(Z, j)) ==> j in Z {
      if j > 0 {
        UntilStep(NextOf(A), NextOf(B), j - 1);
        assert j in B ==> NextIn(B, j - 1);
        assert j in A ==> NextIn(A, j - 1);
      }
    }
    UntilLeast(A, B, Z);
    forall i: nat | i in NextOf(U) ensures i in V { assert NextIn(U, i) && i + 1 in Z; }
  }

  ghost predicate PrevIn(G: iset<nat>, j: nat) { j > 0 && j - 1 in G }

  /** (a R b) R a = b R a */
  lemma ReleaseTurns(A: iset<nat>, B: iset<nat>)
    ensures ReleaseOf(ReleaseOf(A, B), A) == ReleaseOf(B, A)
  {
    hide Eventually, Forever;
    var L, R := ReleaseOf(ReleaseOf(A, B), A), ReleaseOf(B, A);
    forall i: nat
      ensures i in L ==> i in A && (i in B || NextIn(L, i))
      ensures i in R ==> i in A && (i in ReleaseOf(A, B) || NextIn(R, i))
    {
      ReleaseStep(A, B, i); ReleaseStep(B, A, i); ReleaseStep(ReleaseOf(A, B), A, i);
    }
    ReleaseGreatest(B, A, L);
    ReleaseGreatest(ReleaseOf(A, B), A, R);
  }

  /** (b R a) R a = b R a */
  lemma ReleaseLeft(A: iset<nat>, B: iset<nat>)
    ensures ReleaseOf(ReleaseOf(B, A), A) == ReleaseOf(B, A)
  {
    hide Eventually, Forever;
    var L, R := ReleaseOf(ReleaseOf(B, A), A), ReleaseOf(B, A);
    forall i: nat
      ensures i in L + R ==> i in A && (i in B || NextIn(L + R, i))
      ensures i in R ==> i in A && (i in R || NextIn(R, i))
    {
      ReleaseStep(R, A, i); ReleaseStep(B, A, i);
    }
    ReleaseGreatest(B, A, L + R);
    ReleaseGreatest(R, A, R);
  }

  /** X a R X b = X (a R b) */
  lemma ReleaseNexts(A: iset<nat>, B: iset<nat>)
    ensures ReleaseOf(NextOf(A), NextOf(B)) == NextOf(ReleaseOf(A, B))
  {
    hide Eventually, Forever;
    var U, V := ReleaseOf(A, B), ReleaseOf(NextOf(A), NextOf(B));
    forall i: nat ensures i in NextOf(U) ==> i in NextOf(B) && (i in NextOf(A) || NextIn(NextOf(U), i)) {
      ReleaseStep(A, B, i + 1);
      assert i in NextOf(U) <==> NextIn(U, i);
      assert NextIn(U, i + 1) ==> i + 1 in NextOf(U);
      assert NextIn(B, i) ==> i in NextOf(B);
      assert NextIn(A, i) ==> i in NextOf(A);
    }
    ReleaseGreatest(NextOf(A), NextOf(B), NextOf(U));
    var Z := iset j: nat | PrevIn(V, j);
    forall j: nat ensures j in Z ==> j in B && (j in A || NextIn(Z, j)) {
      if PrevIn(V, j) {
        ReleaseStep(NextOf(A), NextOf(B), j - 1);
        assert j - 1 in NextOf(B) ==> NextIn(B, j - 1);
        assert j - 1 in NextOf(A) ==> NextIn(A, j - 1);
        assert PrevIn(V, j + 1) ==> NextIn(Z, j);
      }
    }
    ReleaseGreatest(A, B, Z);
    forall i: nat | i in V ensures i in NextOf(U) { assert PrevIn(V, i + 1) && NextIn(U, i); }
  }

  /** A condition that never holds together with the body never releases it. */
  lemma ReleaseNever(A: iset<nat>, B: iset<nat>)
    requires forall i: nat :: !(i in A && i in B)
    ensures ReleaseOf(A, B) == ReleaseOf(iset{}, B)
  {
    hide Eventually, Forever;
    var L, R := ReleaseOf(A, B), ReleaseOf(iset{}, B);
    forall i: nat
      ensures i in L ==> i in B && (i in iset{} || NextIn(L, i))
      ensures i in R ==> i in B && (i in A || NextIn(R, i))
    {
      ReleaseStep(A, B, i); ReleaseStep(iset{}, B, i);
    }
    ReleaseGreatest(iset{}, B, L);
    ReleaseGreatest(A, B, R);
  }
}
