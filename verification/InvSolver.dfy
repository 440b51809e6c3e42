/** The solver that looks for a frame covered by the earlier ones. */
module InvSolvers {
  import opened Formulas
  import AaltaSolver
  import opened Cnf
  import opened Encoding
  import opened Frames
  import opened Verdicts

  // ---------------------------------------------- encoding frames as clauses

  /** The flag of the t-th core of a frame, when n flags have been used before. */
  function CoreFlag(n: nat, t: nat): Var { Flag(n + 1 + t) }

  /** The flag of a core implies the core's literals. */
  ghost predicate IsOrClause(frame: Frame, n: nat, c: VClause) {
    exists t, j :: 0 <= t < |frame| && 0 <= j < |frame[t]| && c == [Lit(CoreFlag(n, t), false), frame[t][j]]
  }

  function OrFlags(count: nat, n: nat): (v: VClause)
    ensures |v| == count && forall t :: 0 <= t < count ==> v[t] == Pos(CoreFlag(n, t))
  {
    if count == 0 then [] else OrFlags(count - 1, n) + [Pos(CoreFlag(n, count - 1))]
  }

  /** Some literal of the core is false, or flag n + 1 is off. */
  function AndClause(core: Core, n: nat): VClause {
    seq(|core|, j requires 0 <= j < |core| => core[j].Neg()) + [Lit(Flag(n + 1), false)]
  }

  predicate FormulaLits(frame: Frame) { forall core, l :: core in frame && l in core ==> l.v.F? }

  /** No clause or assumption uses a flag beyond n. */
  ghost predicate FlagsUpTo(cs: seq<VClause>, ls: seq<VLit>, n: nat) {
    && (forall c, l :: c in cs && l in c && l.v.Flag? ==> l.v.k <= n)
    && (forall l :: l in ls && l.v.Flag? ==> l.v.k <= n)
  }

  /** m satisfies clauses and assumptions, agrees with A on formulas and uses no flag
      beyond n. */
  ghost predicate Extends(m: set<Var>, A: set<Var>, cs: seq<VClause>, ls: seq<VLit>, n: nat) {
    && Models(m, cs) && AllTrue(m, ls)
    && (forall v: Var :: v.F? ==> (v in m <==> v in A))
    && (forall k: nat :: Flag(k) in m ==> k <= n)
  }

  ghost predicate CoveredBelow(A: set<Var>, frames: seq<Frame>, i: nat)
    requires i <= |frames|
  {
    forall j :: 0 <= j < i ==> PropCovered(A, frames[j])
  }

  /** The clauses and assumptions admit exactly the assignments that frames 0..i-1 cover. */
  ghost predicate Represents(cs: seq<VClause>, ls: seq<VLit>, n: nat, frames: seq<Frame>, i: nat)
    requires i <= |frames|
  {
    && FlagsUpTo(cs, ls, n)
    && (forall m: set<Var> :: Models(m, cs) ==> CoveredBelow(m, frames, i))
    && (forall A: set<Var> :: CoveredBelow(A, frames, i) ==> exists m :: Extends(m, A, cs, ls, n))
  }

  // ------------------------------------------------------------ disjunctions

  lemma OrSound(frame: Frame, n: nat, m: set<Var>)
    requires forall c :: IsOrClause(frame, n, c) ==> ClauseTrue(m, c)
    requires ClauseTrue(m, OrFlags(|frame|, n))
    ensures PropCovered(m, frame)
  {
    var x :| x in OrFlags(|frame|, n) && LitTrue(m, x);
    var t :| 0 <= t < |frame| && x == Pos(CoreFlag(n, t));
    forall l | l in frame[t] ensures LitTrue(m, l) {
      var j :| 0 <= j < |frame[t]| && frame[t][j] == l;
      assert IsOrClause(frame, n, [Lit(CoreFlag(n, t), false), l]);
      Clause2(m, Lit(CoreFlag(n, t), false), l);
    }
    assert frame[t] in frame;
  }

  /** Adding flags beyond n does not disturb what m satisfies. */
  lemma FreshFlag(cs: seq<VClause>, ls: seq<VLit>, n: nat, m: set<Var>, k: nat)
    requires FlagsUpTo(cs, ls, n) && k > n
    ensures Models(m, cs) ==> Models(m + {Flag(k)}, cs)
    ensures AllTrue(m, ls) ==> AllTrue(m + {Flag(k)}, ls)
  {
    if Models(m, cs) {
      forall c | c in cs ensures ClauseTrue(m + {Flag(k)}, c) {
        var l :| l in c && LitTrue(m, l);
        assert LitTrue(m + {Flag(k)}, l);
      }
    }
  }

  lemma OrComplete(cs: seq<VClause>, ls: seq<VLit>, n: nat, frame: Frame, m: set<Var>, A: set<Var>) returns (m2: set<Var>)
    requires FormulaLits(frame) && FlagsUpTo(cs, ls, n) && Extends(m, A, cs, ls, n) && PropCovered(A, frame)
    ensures Extends(m2, A, cs, ls, n + |frame|) && ClauseTrue(m2, OrFlags(|frame|, n))
    ensures forall c :: IsOrClause(frame, n, c) ==> ClauseTrue(m2, c)
  {
    var core :| core in frame && AllTrue(A, core);
    var t :| 0 <= t < |frame| && frame[t] == core;
    m2 := m + {CoreFlag(n, t)};
    FreshFlag(cs, ls, n, m, n + 1 + t);
    var x := OrFlags(|frame|, n)[t];
    assert x in OrFlags(|frame|, n) && LitTrue(m2, x);
    forall c | IsOrClause(frame, n, c) ensures ClauseTrue(m2, c) { OrClauseTrue(frame, n, m, A, t, c); }
  }

  lemma OrClauseTrue(frame: Frame, n: nat, m: set<Var>, A: set<Var>, t: nat, c: VClause)
    requires FormulaLits(frame) && t < |frame| && AllTrue(A, frame[t]) && IsOrClause(frame, n, c)
    requires (forall v: Var :: v.F? ==> (v in m <==> v in A)) && (forall k: nat :: Flag(k) in m ==> k <= n)
    ensures ClauseTrue(m + {CoreFlag(n, t)}, c)
  {
    var s, j :| 0 <= s < |frame| && 0 <= j < |frame[s]| && c == [Lit(CoreFlag(n, s), false), frame[s][j]];
    var l := frame[s][j];
    assert frame[s] in frame && l in frame[s];
    Clause2(m + {CoreFlag(n, t)}, Lit(CoreFlag(n, s), false), l);
  }

  lemma OrRepresents(cs: seq<VClause>, ls: seq<VLit>, n: nat, frames: seq<Frame>, i: nat, cs2: seq<VClause>)
    requires i < |frames| && Represents(cs, ls, n, frames, i) && FormulaLits(frames[i])
    requires forall c :: c in cs2 <==> c in cs || IsOrClause(frames[i], n, c) || c == OrFlags(|frames[i]|, n)
    ensures Represents(cs2, ls, n + |frames[i]|, frames, i + 1)
  {
    var frame := frames[i];
    OrFlagsUpTo(cs, ls, n, frame, cs2);
    forall m: set<Var> | Models(m, cs2) ensures CoveredBelow(m, frames, i + 1) {
      OrSound(frame, n, m);
      assert Models(m, cs);
      assert CoveredBelow(m, frames, i);
    }
    var i2, n2 := i + 1, n + |frame|;
    forall A: set<Var> | CoveredBelow(A, frames, i2) ensures exists m :: Extends(m, A, cs2, ls, n2) {
      assert CoveredBelow(A, frames, i);
      var m :| Extends(m, A, cs, ls, n);
      var m2 := OrComplete(cs, ls, n, frame, m, A);
      assert Extends(m2, A, cs2, ls, n2);
    }
  }

  lemma OrFlagsUpTo(cs: seq<VClause>, ls: seq<VLit>, n: nat, frame: Frame, cs2: seq<VClause>)
    requires FlagsUpTo(cs, ls, n) && FormulaLits(frame)
    requires forall c :: c in cs2 <==> c in cs || IsOrClause(frame, n, c) || c == OrFlags(|frame|, n)
    ensures FlagsUpTo(cs2, ls, n + |frame|)
  {
    forall c, l | c in cs2 && l in c && l.v.Flag? ensures l.v.k <= n + |frame| {
      if IsOrClause(frame, n, c) {
        var t, j :| 0 <= t < |frame| && 0 <= j < |frame[t]| && c == [Lit(CoreFlag(n, t), false), frame[t][j]];
        assert frame[t] in frame && frame[t][j] in frame[t];
      }
    }
  }

  // ------------------------------------------------------------ conjunctions

  /** The clauses for frame i, with their flag on, exclude what the frame covers. */
  lemma AndMeaning(frame: Frame, n: nat, m: set<Var>)
    ensures Flag(n + 1) in m ==> ((forall core :: core in frame ==> ClauseTrue(m, AndClause(core, n))) <==> !PropCovered(m, frame))
    ensures Flag(n + 1) !in m ==> forall core :: core in frame ==> ClauseTrue(m, AndClause(core, n))
  {
    forall core | core in frame
      ensures ClauseTrue(m, AndClause(core, n)) <==> Flag(n + 1) !in m || !AllTrue(m, core)
    {
      OneAndClause(core, n, m);
    }
  }

  lemma OneAndClause(core: Core, n: nat, m: set<Var>)
    ensures ClauseTrue(m, AndClause(core, n)) <==> Flag(n + 1) !in m || !AllTrue(m, core)
  {
    var c := AndClause(core, n);
    if Flag(n + 1) !in m { assert c[|core|] in c && LitTrue(m, c[|core|]); }
    if !AllTrue(m, core) {
      var l :| l in core && !LitTrue(m, l);
      var j :| 0 <= j < |core| && core[j] == l;
      assert c[j] in c && LitTrue(m, c[j]);
    }
    if ClauseTrue(m, c) && Flag(n + 1) in m {
      var x :| x in c && LitTrue(m, x);
      var j :| 0 <= j < |c| && c[j] == x;
      assert core[j] in core && !LitTrue(m, core[j]);
    }
  }

  lemma AndFlagsUpTo(cs: seq<VClause>, ls: seq<VLit>, n: nat, frame: Frame, cs2: seq<VClause>, x: VLit)
    requires FlagsUpTo(cs, ls, n) && FormulaLits(frame) && x.v == Flag(n + 1)
    requires forall c :: c in cs2 <==> c in cs || exists core :: core in frame && c == AndClause(core, n)
    ensures FlagsUpTo(cs2, ls + [x], n + 1)
  {
    forall c, l | c in cs2 && l in c && l.v.Flag? ensures l.v.k <= n + 1 {
      if c !in cs {
        var core :| core in frame && c == AndClause(core, n);
        var j :| 0 <= j < |c| && c[j] == l;
        assert forall s :: 0 <= s < |core| ==> core[s] in core;
      }
    }
  }

  /** With the conjunction of frame i assumed, unsatisfiable means included. */
  lemma AndDecides(cs: seq<VClause>, ls: seq<VLit>, n: nat, frames: seq<Frame>, i: nat, cs2: seq<VClause>)
    requires i < |frames| && Represents(cs, ls, n, frames, i) && FormulaLits(frames[i])
    requires forall c :: c in cs2 <==> c in cs || exists core :: core in frames[i] && c == AndClause(core, n)
    ensures Unsat(cs2, ls + [Pos(Flag(n + 1))]) ==> Included(frames, i)
    ensures (exists m :: Models(m, cs2) && AllTrue(m, ls + [Pos(Flag(n + 1))])) ==> !Included(frames, i)
    ensures Represents(cs2, ls + [Lit(Flag(n + 1), false)], n + 1, frames, i)
  {
    var frame := frames[i];
    var on := ls + [Pos(Flag(n + 1))];
    if Unsat(cs2, on) {
      forall A: set<Var> | CoveredBelow(A, frames, i) ensures PropCovered(A, frame) {
        var m :| Extends(m, A, cs, ls, n);
        if !PropCovered(A, frame) { AndExtends(cs, ls, n, frame, m, A, cs2); }
      }
    }
    if m :| Models(m, cs2) && AllTrue(m, on) {
      AndExcludes(cs, ls, n, frame, m, cs2);
      assert CoveredBelow(m, frames, i);
      assert !PropCovered(m, frames[i]);
    }
    AndStillRepresents(cs, ls, n, frames, i, cs2);
  }

  lemma AndExcludes(cs: seq<VClause>, ls: seq<VLit>, n: nat, frame: Frame, m: set<Var>, cs2: seq<VClause>)
    requires forall c :: c in cs2 <==> c in cs || exists core :: core in frame && c == AndClause(core, n)
    requires Models(m, cs2) && AllTrue(m, ls + [Pos(Flag(n + 1))])
    ensures Models(m, cs) && !PropCovered(m, frame)
  {
    assert Pos(Flag(n + 1)) in ls + [Pos(Flag(n + 1))];
    AndMeaning(frame, n, m);
  }

  lemma AndExtends(cs: seq<VClause>, ls: seq<VLit>, n: nat, frame: Frame, m: set<Var>, A: set<Var>, cs2: seq<VClause>)
    requires FormulaLits(frame) && FlagsUpTo(cs, ls, n) && Extends(m, A, cs, ls, n) && !PropCovered(A, frame)
    requires forall c :: c in cs2 <==> c in cs || exists core :: core in frame && c == AndClause(core, n)
    ensures !Unsat(cs2, ls + [Pos(Flag(n + 1))])
  {
    var m2 := m + {Flag(n + 1)};
    FreshFlag(cs, ls, n, m, n + 1);
    forall core | core in frame ensures AllTrue(m2, core) <==> AllTrue(A, core) {
      forall l | l in core ensures LitTrue(m2, l) == LitTrue(A, l) {}
    }
    AndMeaning(frame, n, m2);
    assert Models(m2, cs2) && AllTrue(m2, ls + [Pos(Flag(n + 1))]);
  }

  lemma AndOff(cs: seq<VClause>, ls: seq<VLit>, n: nat, frame: Frame, m: set<Var>, A: set<Var>, cs2: seq<VClause>)
    requires Extends(m, A, cs, ls, n)
    requires forall c :: c in cs2 <==> c in cs || exists core :: core in frame && c == AndClause(core, n)
    ensures Extends(m, A, cs2, ls + [Lit(Flag(n + 1), false)], n + 1)
  {
    assert Flag(n + 1) !in m;
    AndMeaning(frame, n, m);
  }

  lemma AndStillRepresents(cs: seq<VClause>, ls: seq<VLit>, n: nat, frames: seq<Frame>, i: nat, cs2: seq<VClause>)
    requires i < |frames| && Represents(cs, ls, n, frames, i) && FormulaLits(frames[i])
    requires forall c :: c in cs2 <==> c in cs || exists core :: core in frames[i] && c == AndClause(core, n)
    ensures Represents(cs2, ls + [Lit(Flag(n + 1), false)], n + 1, frames, i)
  {
    var off := ls + [Lit(Flag(n + 1), false)];
    AndFlagsUpTo(cs, ls, n, frames[i], cs2, Lit(Flag(n + 1), false));
    forall m: set<Var> | Models(m, cs2) ensures CoveredBelow(m, frames, i) {
      assert Models(m, cs);
    }
    var n2 := n + 1;
    forall A: set<Var> | CoveredBelow(A, frames, i) ensures exists m :: Extends(m, A, cs2, off, n2) {
      var m :| Extends(m, A, cs, ls, n);
      AndOff(cs, ls, n, frames[i], m, A, cs2);
      assert Extends(m, A, cs2, off, n2);
    }
  }

  // ---------------------------------------------------------------- the solver

  class InvSolver {
    const sat: AaltaSolver.Incremental<Var>
    var clauses: seq<VClause>
    var assumption: seq<VLit>
    var flagId: nat

    constructor ()
      ensures clauses == [] && assumption == [] && flagId == 0 && EngineOk() && fresh(Engine())
    {
      hide AaltaSolver.Incremental.Valid;
      sat := new AaltaSolver.Incremental<Var>();
      clauses, assumption, flagId := [], [], 0;
    }

    /** The SAT solver's own state. */
    function Engine(): set<object> { {sat, sat.solver, sat.solver.orderHeap} }

    ghost predicate EngineOk()
      reads this`clauses, Engine()
    {
      sat.Valid() && sat.clauses <= clauses
    }

    method NewVar() returns (flag: Var)
      modifies this`flagId
      ensures flagId == old(flagId) + 1 && flag == Flag(flagId)
    {
      flagId := flagId + 1;
      flag := Flag(flagId);
    }

    /** Adds the disjunction of the cores, with a fresh flag for each. */
    method AddFrameOr(frame: Frame)
      modifies this`clauses, this`flagId
      ensures flagId == old(flagId) + |frame| && old(clauses) <= clauses && (old(EngineOk()) ==> EngineOk())
      ensures forall c :: c in clauses <==> c in old(clauses) || IsOrClause(frame, old(flagId), c) || c == OrFlags(|frame|, old(flagId))
    {
      hide AaltaSolver.Incremental.Valid;
      var v: VClause := [];
      for i := 0 to |frame|
        invariant flagId == old(flagId) + i && v == OrFlags(i, old(flagId)) && old(clauses) <= clauses
        invariant forall c :: c in clauses <==> c in old(clauses) || IsOrClause(frame[..i], old(flagId), c)
      {
        var flag := NewVar();
        assert flag == CoreFlag(old(flagId), i);
        v := v + [Pos(flag)];
        ghost var before := clauses;
        for j := 0 to |frame[i]|
          invariant flagId == old(flagId) + i + 1 && old(clauses) <= clauses
          invariant forall c :: c in clauses <==> c in before || exists s :: 0 <= s < j && c == [Lit(flag, false), frame[i][s]]
        {
          clauses := clauses + [[Lit(flag, false), frame[i][j]]];
        }
        OrClausesPlus(frame, i, old(flagId));
      }
      assert frame[..|frame|] == frame;
      clauses := clauses + [v];
    }

    lemma OrClausesPlus(frame: Frame, i: nat, n: nat)
      requires i < |frame|
      ensures forall c :: IsOrClause(frame[..i + 1], n, c) <==>
                IsOrClause(frame[..i], n, c) || exists s :: 0 <= s < |frame[i]| && c == [Lit(CoreFlag(n, i), false), frame[i][s]]
    {
      forall c | IsOrClause(frame[..i], n, c) ensures IsOrClause(frame[..i + 1], n, c) {
        var t, j :| 0 <= t < |frame[..i]| && 0 <= j < |frame[..i][t]| && c == [Lit(CoreFlag(n, t), false), frame[..i][t][j]];
        assert frame[..i + 1][t] == frame[..i][t];
      }
      var longer := frame[..i + 1];
      assert longer[i] == frame[i];
      forall s | 0 <= s < |frame[i]| ensures IsOrClause(longer, n, [Lit(CoreFlag(n, i), false), frame[i][s]]) {
        assert 0 <= i < |longer| && 0 <= s < |longer[i]|;
      }
    }

    /** Adds, under a fresh flag that becomes the last assumption, that no core holds. */
    method AddFrameAnd(frame: Frame)
      modifies this
      ensures flagId == old(flagId) + 1 && assumption == old(assumption) + [Pos(Flag(flagId))]
      ensures old(clauses) <= clauses && (old(EngineOk()) ==> EngineOk())
      ensures forall c :: c in clauses <==> c in old(clauses) || exists core :: core in frame && c == AndClause(core, old(flagId))
    {
      hide AaltaSolver.Incremental.Valid;
      var flag := NewVar();
      for i := 0 to |frame|
        invariant flagId == old(flagId) + 1 && assumption == old(assumption) && old(clauses) <= clauses
        invariant forall c :: c in clauses <==> c in old(clauses) || exists t :: 0 <= t < i && c == AndClause(frame[t], old(flagId))
      {
        var v: VClause := [];
        for j := 0 to |frame[i]|
          invariant |v| == j && forall s :: 0 <= s < j ==> v[s] == frame[i][s].Neg()
        {
          v := v + [frame[i][j].Neg()];
        }
        v := v + [Lit(flag, false)];
        assert v == AndClause(frame[i], old(flagId));
        clauses := clauses + [v];
      }
      assumption := assumption + [Pos(flag)];
    }

    method SolveAssumption() returns (res: bool)
      requires EngineOk()
      modifies Engine()
      ensures EngineOk()
      ensures res ==> exists m :: Models(m, clauses) && AllTrue(m, assumption)
      ensures !res ==> Unsat(clauses, assumption)
    {
      hide AaltaSolver.Incremental.Valid;
      sat.Follow(clauses);
      var ans := sat.Solve(assumption);
      return ans.Model?;
    }

    /** Switches the last assumed frame off again. */
    method DisableFrameAnd()
      requires assumption != []
      modifies this`assumption
      ensures assumption == old(assumption)[..|old(assumption)| - 1] + [old(assumption)[|old(assumption)| - 1].Neg()]
    {
      var l := assumption[|assumption| - 1];
      assumption := assumption[..|assumption| - 1];
      assumption := assumption + [l.Neg()];
    }
  }
}
