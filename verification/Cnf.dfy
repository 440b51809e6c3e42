/** Propositional clauses over an arbitrary type of variables, and the contract of
    an incremental SAT solver that is called under assumptions. */
module Cnf {

  datatype Lit<V> = Lit(v: V, pos: bool)
  {
    function Neg(): Lit<V> { Lit(v, !pos) }
  }

  type Clause<V> = seq<Lit<V>>

  /** An assignment is the set of its true variables. */
  predicate LitTrue<V(==)>(m: set<V>, l: Lit<V>) { (l.v in m) == l.pos }

  predicate ClauseTrue<V(==)>(m: set<V>, c: Clause<V>) { exists l :: l in c && LitTrue(m, l) }

  predicate Models<V(==)>(m: set<V>, cs: seq<Clause<V>>) { forall c :: c in cs ==> ClauseTrue(m, c) }

  predicate AllTrue<V(==)>(m: set<V>, ls: seq<Lit<V>>) { forall l :: l in ls ==> LitTrue(m, l) }

  /** No assignment satisfies the clauses and makes all the literals true. */
  ghost predicate Unsat<V(!new)>(cs: seq<Clause<V>>, ls: seq<Lit<V>>) {
    forall m: set<V> :: Models(m, cs) ==> !AllTrue(m, ls)
  }

  ghost predicate Entails<V(!new)>(cs: seq<Clause<V>>, c: Clause<V>) {
    forall m: set<V> :: Models(m, cs) ==> ClauseTrue(m, c)
  }

  // ------------------------------------------------------ the solver's contract

  /** Either a model, or those of the assumptions that the final conflict names. */
  datatype Answer<V> = Model(model: set<V>) | Core(core: seq<Lit<V>>)

  function Vars<V>(ls: seq<Lit<V>>): (vs: set<V>)
    ensures forall l :: l in ls ==> l.v in vs
  {
    set l | l in ls :: l.v
  }
}
