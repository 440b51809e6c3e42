# Verified model of an LTLf satisfiability checker and core extractor

The repository decides whether a formula of linear temporal logic on finite traces (LTLf)
has a trace, and when it has none extracts a minimal unsatisfiable core. It builds on a
conflict-driven SAT solver (MiniSat), on a frame-based search (CAR), and on a set of
formula transformations. This project models that code in Dafny and proves it right, from
the parsed formula down to the watch lists: no oracle is assumed anywhere on that path. The
heuristic that looks for unsatisfiability by obligation formulas before the search
(`olg_unsat`) is assumed to be off.

The main results, all for every input:

* **The verdict is exact.** `Program.Check` answers true exactly if a finite trace satisfies
  the parsed formula, for every formula and with the simplifier in the pipeline. The step
  encoding is exact, frames keep their invariant under every update, both verdicts of the
  search are proved, and the search terminates with at most 2^n + 1 frames over n state
  variables.
* **The SAT solver is verified**, not assumed: two-watched-literal propagation, first-UIP
  learning with minimisation, backjumping, assumption cores (each pinned
  down to the very literals, by what depends on what along the trail), clause deletion, Luby restarts.
  It terminates (the trail, read as a number in base 3, only grows between restarts, and the
  restart limit outgrows every search), and both answers are justified for all clauses ever
  added.
* **Cores are minimal.** For the binary and the linear algorithm, with or without unsat
  cores, the result has no trace and has one as soon as any element is dropped; a core is
  reported exactly if there is no trace. (For constants outside F and G see below.)
* **The transformations keep meaning**: construction, negation normal form, Tail guards,
  splitting of nexts, the simplifier (on infinite words and at the end of traces, cache
  included), obligation formulas, and the translation to LTL on infinite words. What the
  simplifier returns is normal: none of its laws applies any more.
* **Clause elimination is undone correctly**: subsumption, strengthening and variable
  elimination in any sequence, with the models restored; and blocked clause elimination.

## How it is organised

| file | what it models |
|---|---|
| Sets, Formula, Parsed, Words | formulas as the checker and the parser see them; finite and infinite semantics; `build` |
| Preprocess, Obligation | `nnf`, `add_tail`, `remove_wnext`, `split_next`; `off`, `ofr`, `ofg`, `is_global` |
| Cnf, Aalta | clauses, assumptions, the interface to the SAT solver |
| Heap, Trail, Watches, Resolution, Analysis, Causes, Progress, Adding, Solver | the SAT solver: values and lemmas first (Causes: what depends on what), the class last |
| Encoding, Steps, CarSolver | the one-step encoding, its exactness, the solver object that builds it |
| Frames, Verdicts, InvSolver, CarChecker, Sat | cores, frames, invariant test, the search, the verdict |
| UcSolver, Muc, Program | unsat cores by obligations, core extraction, the program |
| Stutter, Ends | traces as words; what formulas say at the end of a trace |
| Conflict, Normal, Simplify, FirstCheck | `is_conflict`, what the simplifier aims at, the simplifier, the check that uses it |
| Elimination, SimpSolver, Bce | clause distribution, the simplifying solver, blocked clause elimination |
| Ltlf2Ltl | the translation to infinite words |

A trace is a non-empty sequence of states, a state the set of true atoms; atom 0 is Tail.
`Formulas.Positions` and `ParsedFormulas.Where` give the textbook meaning on traces,
`Words.WordPositions` that on infinite words. `Formulas.Sat` is the fixpoint reading that
the encoding follows, with the two things a trace leaves open for it as parameters: the
value of a constant outside F and G, and what a next means in the last state. Variables of
the encoding are named after what they stand for (a formula, the auxiliary variable of a
formula, the flag of a frame) instead of being numbered.

Loops and objects of the source are methods and classes here, each proved against functions
and predicates on values; ghost fields hold only what the proofs need (`formula`, the
clauses added so far; `records`, the eliminations as a list).

## What the proofs brought to light

* **Loose constants.** The step encoding gives True and False no clauses, so a False that is
  not the left operand of G is read as true: the core extractor's queries find the
  disjunction of two False satisfiable (`LooseFalseFails`). The answer of a query is exactly
  that on the formula as it is read (`IsSat`), never misses a trace (`ReadingIsWeaker`), and
  is right for formulas whose negation normal form has no loose False (`ReadAsMeant`), among
  them all that are parsed without constants. So a core is always unsatisfiable, and minimal
  without loose False. Otherwise it is minimal as it is read, unless it is False alone or the
  whole formula is read as satisfiable, when it is all conjuncts (`CoreAsRead`):
  `(a & b) & (false | false)` shows that it need not be minimal then
  (`LooseFalseSpoilsCore`). The simplifier removes loose constants, so the program's first
  check is right for all formulas.
* **Obligations are sufficient, not necessary.** `off` takes nexts on the right
  of a release for false and weak nexts for strong ones: `G N a` holds on repeated states that
  do not meet its obligation (`OffMisses`). `OffExact` says exactly what it demands.
* **Evidence.** A label pushed for a candidate that fails at level 0 is not popped again
  (carchecker.cpp:216-228): the evidence is the path found exactly if no candidate failed
  there (`Recorded`).
* **Tail in step queries.** Step queries do not assume that Tail is false; that it is false
  follows from the frames (`NotTail`).
* **Nexts over conjunctions.** If a next stood over a conjunction, its blocking clause would
  be discarded and a search could repeat; `split_next` is what termination rests on, so the
  checker requires its result (`Prepared`).
* **The laws of X need infinite words.** On finite traces they fail (`LawsFailOnTraces`). The
  first check is exact all the same. A trace that repeats its last state forever satisfies
  the same guarded formulas; and the simplifier keeps what the guards establish, that nothing
  depends on nexts in the last state. Only the rewriting of `X a U a` would destroy that, and
  it never meets a guarded operand (`NextIsLoose`).
* **The linear algorithm ignores the stack** in its queries. It is right because it is
  called with one entry; with more it still ends with an unsatisfiable core (`BasicMuc`).
* **An input conjunct may contain itself twice**, as in `a & a`: a core element then is that
  conjunction. The result says that it has one conjunct as a set.
* **l_True** promises a model only when all variables are decision variables, as the
  interface creates them.

## Model

| member | source | states |
|---|---|---|
| Program.Check | main.cpp:198-247 | The verdict of the program on a parsed formula, constants included, is true exactly if some finite trace satisfies the formula, read with textbook semantics. Everything below it, simplifier and SAT solver included, is verified code. |
| Program.Run | main.cpp:194-248 | The whole run: a core is printed exactly for formulas without a trace; it has no common trace, and every element is a conjunct of the input. If no loose False is built (`NoLooseFalse`), dropping any one element gives it a trace. For all other formulas: the core is False alone; or it is all conjuncts, when all together are read as satisfiable; or it is minimal as it is read. |
| FirstCheck.CheckSimplified | main.cpp:198-247 | The first check, with the simplifier in the pipeline, is exact for every formula without Tail, although the simplifier uses laws that fail on finite traces. |
| ParsedFormulas.BuildMeaning | formula/aalta_formula.cpp:1037-1143 | For every parsed formula, either sign and every trace, the formula that is built holds exactly where the parsed formula (or its negation) does, W, `->` and `<->` included; the recursion through the rewritten `<->` ends. |
| ParsedFormulas.BuildNnf | formula/aalta_formula.cpp:1037-1143 | What is built has negations at atoms only. |
| ParsedFormulas.BuildNoTail | formula/aalta_formula.cpp:1037-1143 | Construction mentions Tail only where the parsed formula does. |
| ParsedFormulas.BuildNoLooseFalse | formula/aalta_formula.cpp:1037-1143 | From a formula without constants, construction makes False only as the left operand of G: what the step encoding reads as it is meant. |
| ParsedFormulas.BuildSatisfiable | formula/aalta_formula.cpp:1037-1143 | The formula built has a trace exactly if the parsed one has. |
| Preprocess.NnfMeaning | formula/aalta_formula.cpp:907-978 | `nnf` keeps the value of a formula at every position of every trace, and `nnf_not` negates it. |
| Preprocess.AddTailMeaning | formula/aalta_formula.cpp:1579-1604 | After `add_tail` the value on a trace marked Tail exactly at its end is the LTLf value, whatever a next means in the last state, and with loose False read as before. |
| Preprocess.RemoveWNextMeaning | formula/aalta_formula.cpp:1646-1671 | Replacing `N` by `X` does not change the value when nexts in the last state are all read alike. |
| Preprocess.SplitNext | formula/aalta_formula.cpp:1606-1643 | The distribution of X over And and Or terminates, because a weight that doubles under X never grows, and strictly falls where a next turns into a connective. |
| Preprocess.SplitNextShape | formula/aalta_formula.cpp:1606-1643 | Afterwards no And or Or stands directly under a next, and negation normal form, absence of N, and absence of loose constants are kept. |
| Preprocess.SplitNextMeaning | formula/aalta_formula.cpp:1606-1643 | The distribution keeps the value at every position. |
| Preprocess.PrepareShape | muc.cpp:31-36 | The whole preprocessing yields negation normal form without N and with split nexts. |
| Preprocess.PrepareMeaning | muc.cpp:31-36 | For a formula without Tail, the preprocessed formula has the LTLf value of the original at every position of every trace, for every reading of the nexts in the last state. |
| Formulas.SatIsHolds | formula/aalta_formula.cpp:1037-1143 | The one-step fixpoint reading, which the SAT encoding follows, is the textbook semantics. |
| Formulas.ToSetSat | formula/aalta_formula.cpp:3542-3563 | A formula holds exactly if all members of its conjunct set do. |
| Formulas.ToSetFormulaFrom | utility.cpp:15-28 | Taking the conjunction of a list apart again gives exactly the list's elements. |
| Encoding.LocalClausesMeaning | solver.cpp:53-163 | The clauses added for one node are satisfied exactly by the assignments that give the node the value of its one-step unfolding, the auxiliary variables of U and R included. |
| Encoding.EncodingIsExact | solver.cpp:53-163 | In every model of the clauses of a formula, the variable of every subformula has the value of its unfolding. |
| Steps.EncodingExtends | solver.cpp:53-163 | Conversely every choice of atoms, Tail and next variables extends to a model of the clauses. |
| Steps.TraceGivesModel | solver.cpp:417-448 | Every position of every trace is a model of the initial clauses, pair clauses included, that gives each subformula its value at that position. |
| Steps.StepSound | solver.cpp:294-354 | The literals of a model and its next obligations, both cut down to the cone of influence, entail every formula whose cone was kept. |
| CarSolvers.CarSolver.constructor | solver.cpp:18-42 | After construction the clauses are those of the encoding and no others, those of each subformula exactly once, and the maps and the cone table are complete and correct. |
| CarSolvers.CarSolver.AddClausesFor | solver.cpp:53-163 | The recursion ends, adds the clauses of a formula that is not encoded yet and of nothing twice, and leaves all operands of the formula encoded and registered; the formulas whose operands are still open are those above it. |
| CarSolvers.CarSolver.GenerateClauses | solver.cpp:45-50 | The clauses are the concatenation of the clauses of all subformulas that are not constants, in a sequence without repetition, followed by clauses for conflicting nexts only. |
| CarSolvers.CarSolver.BuildXMapPreliminary | solver.cpp:417-432 | Afterwards the table holds, beside its old entries, exactly the operands of the X subformulas, mapped to the X formula's own variable. |
| CarSolvers.CarSolver.AddXConflicts | solver.cpp:540-561 | Exactly the clauses for pairs X..Xa, X..X!a with variables on both sides are added. |
| CarSolvers.CarSolver.AddXConflictForPair | solver.cpp:564-575 | Walking up one tower of nexts adds its clauses and only such clauses, and stops. |
| CarSolvers.CarSolver.CoiSetUp | solver.cpp:166-172 | The table ends up with the full cone of every U, R and Or subformula and of nothing else. |
| CarSolvers.CarSolver.ComputeFullCoi | solver.cpp:175-236 | Memoised recursion: each entry is the exact cone of its formula, and the list names the entries to be removed. |
| CarSolvers.CarSolver.CoiOfAssumption | solver.cpp:361-395 | The set computed is the union of the cones of the assumed formulas, constants apart. |
| CarSolvers.CarSolver.GetTransition | solver.cpp:294-354 | Label and next state are the conjunctions of exactly the literals and next obligations of the model that lie in the cones of the assumed formulas. |
| CarSolvers.CarSolver.SolveAssumption | aaltasolver.cpp:33-48 | One solver object answers all queries: it is given the clauses added since the last one, and its answer is right for all clauses so far. |
| CarSolvers.CarSolver.SolveWithAssumption | carsolver.cpp:16-24 | The assumptions of the query are the state's conjuncts and the frame's flag, nothing else; the answer is a model or an unsatisfiable subset of them. |
| CarSolvers.CarSolver.CheckFinal | carsolver.cpp:46-50 | The same with Tail in place of the frame's flag. |
| CarSolvers.CarSolver.GetSelectedUc | carsolver.cpp:52-70 | The core is the part of the conflict that belongs to the state; it is not empty, so the program's assertion holds. |
| CarSolvers.CarSolver.AddClauseForFrame | carsolver.cpp:26-38 | Adds the one clause that forbids, under the frame's flag, the nexts of the core, unless some formula of the core has no next variable, when nothing is added. |
| Frames.LearnStep | carchecker.cpp:235-236 | The core of a failed step query at level k belongs in frame k+1: every successor of a state that satisfies it is covered by frame k. |
| Frames.LearnFinal | carchecker.cpp:225-226 | The core of a failed final query cannot hold in the last state of any trace. |
| Frames.StepCoreNotEmpty | carchecker.cpp:243 | The conflict of a failed step query never consists of the frame flag alone. |
| Frames.FinalCoreNotEmpty | carchecker.cpp:172-173 | The conflict of a failed final query never consists of Tail alone. |
| Frames.AddCoreKeeps | carchecker.cpp:241-256 | Adding a core that fits its frame keeps the invariant of all frames. |
| Frames.CoreOkGrows | carchecker.cpp:241-256 | A core keeps fitting its frame however much the frames below it grow. |
| Frames.AddFrameKeeps | carchecker.cpp:190-210 | Pushing the collected cores as a new frame keeps the invariant. |
| Frames.NoShortCore | carchecker.cpp:212-238 | No trace of length k+1 satisfies all formulas of any core in frame k. |
| Frames.RootHasNoShort | carchecker.cpp:176-186 | While there are frames 0..k, no trace of at most k+1 states satisfies the formula. |
| Verdicts.TransitionSound | solver.cpp:294-354 | Label now and next obligation afterwards make the state from which the model was taken hold. |
| Verdicts.NotTail | carsolver.cpp:16-24 | Although the step query does not assume !Tail, Tail is false in every model it accepts at a level whose frames rule out short traces. |
| Verdicts.StepProves | carchecker.cpp:214-231 | Putting a transition's label in front of a path that proves the next state gives a path that proves this state. |
| Verdicts.FinalProves | carchecker.cpp:332-346 | A model of the final query gives a one-state path that proves the state. |
| Verdicts.InvariantHasNoTrace | carchecker.cpp:260-302 | When frame i is covered by frames 0..i-1, no trace of any length starts in the intersection of frames 0..i. |
| Verdicts.InvariantMeansUnsat | carchecker.cpp:182-183 | So the formula has no trace at all. |
| Verdicts.GlobalUnsat | carchecker.cpp:165-169 | For a global formula, having no one-state trace means having no trace. |
| Verdicts.SuccessorIsNew | carchecker.cpp:214-216 | A successor found at level k is a state that frame k does not cover yet. |
| Verdicts.CoveringProgress | carchecker.cpp:223-227 | Covering it makes the number of uncovered states smaller: the search loop ends. |
| Verdicts.FailedInclusions | carchecker.cpp:278-302 | Each failed inclusion test makes the set of assignments covered by all frames strictly smaller. |
| Verdicts.FrameBound | carchecker.cpp:176-186 | So without an invariant there are at most 2^n frames over n state variables: frame 0 never covers everything, and every further frame drops an assignment. |
| InvSolvers.OrRepresents | carchecker.cpp:305-316 | After a frame's disjunction has been added, the solver's models are exactly the assignments covered by all frames so far. |
| InvSolvers.AndDecides | carchecker.cpp:288-302 | The query with the frame's negation is unsatisfiable exactly if the frame is covered by the earlier ones, and switching the negation off restores the representation. |
| InvSolvers.InvSolver.AddFrameOr | carchecker.cpp:305-316 | Adds exactly the clauses of the disjunction, with fresh flags. |
| InvSolvers.InvSolver.AddFrameAnd | carchecker.cpp:318-330 | Adds exactly the clauses of the negation, guarded by a fresh flag, and assumes the flag. |
| CarCheckers.CarChecker.AddFrameElement | carchecker.cpp:241-256 | The core lands in the frame, or in the frame being collected when the level is one past the last, and in the solver; the invariant of frames and clauses is kept. |
| CarCheckers.CarChecker.AddNewFrame | carchecker.cpp:190-210 | The collected cores become the last frame, with a flag and clauses of their own. |
| CarCheckers.CarChecker.SatOnce | carchecker.cpp:332-346 | True only with a one-state proof of the state, whose label is recorded; false with an unsatisfiable set of the state's conjuncts and Tail. |
| CarCheckers.CarChecker.TrySatisfy | carchecker.cpp:212-238 | Terminates on the level and on the states not yet covered. True: a path of k+2 states that proves the state. False: a core of the state has gone into frame k+1 (or the frame being collected). The evidence stack has grown by the path and by one stale label for each candidate that failed at level 0. |
| CarCheckers.CarChecker.OnePass | carchecker.cpp:214-234 | One pass of the loop either ends it, finds a path, or makes frame k cover one more state. |
| CarCheckers.CarChecker.InvFound | carchecker.cpp:260-276 | True exactly if some frame after the first is covered by the earlier frames. |
| CarCheckers.CarChecker.SolveInvAt | carchecker.cpp:288-302 | Answers whether frame i is covered by frames 0..i-1 and leaves the solver representing frames 0..i. |
| CarCheckers.CarChecker.PartialUnsat | carchecker.cpp:84-129 | True exactly when the pair of conjuncts that the heuristic picks, a and G (!a or ...), has no trace; then the whole formula has none. False without such a pair. |
| CarCheckers.CarChecker.Grow | carchecker.cpp:176-186 | The main loop terminates with at most 2^n + 1 frames; its verdict is right in both directions. |
| CarCheckers.CarChecker.CarCheck | carchecker.cpp:157-188 | True: the recorded path proves the formula. False: no trace of any length satisfies it. At most 2^n + 1 frames are built. |
| CarCheckers.CarChecker.Check | carchecker.cpp:131-155 | The verdict on a prepared formula is true exactly if it has a trace in the checker's reading of loose constants. |
| SatCheck.IsSat | muc.cpp:28-57 | The query of the extractor: for every list of formulas the answer is that on their conjunction as the encoding reads it, and for formulas without loose False it is true exactly if one finite trace satisfies them all. |
| SatCheck.LooseReading | solver.cpp:67-69 | A False that is not the left operand of G gets no clause and is read as true: the reading is that of the formula with those constants replaced by true. |
| SatCheck.PreparedHasTrace | muc.cpp:31-40 | What the checker looks for in a prepared formula exists exactly if that other formula has a trace. |
| SatCheck.ReadingIsWeaker | solver.cpp:67-69 | A formula that has a trace still has one as it is read: no query misses a trace. |
| SatCheck.ReadAsMeant | solver.cpp:67-69 | If the negation normal form has no loose False, or is False itself, the answer is right for the formula. |
| SatCheck.LooseFalseFails | solver.cpp:67-69 | A witness of a wrong answer: the disjunction of two False has no trace, but has one as it is read. |
| Obligations.OfrHolds | formula/aalta_formula.cpp:1786-1813 | A state that satisfies `ofr(f)` satisfies f at every position when it is repeated. |
| Obligations.OffHolds | formula/aalta_formula.cpp:1755-1783 | A state that satisfies `off(f)` satisfies f when it is repeated more often than the nexts of f are nested. |
| Obligations.OfrExact | formula/aalta_formula.cpp:1786-1813 | `ofr(f)` is true in a state exactly if f, with nexts outside left operands read as false, holds at any position of the repeated state; for f without next this is f itself (`OfrNextFree`). |
| Obligations.OffExact | formula/aalta_formula.cpp:1755-1783 | For every f in negation normal form: `off(f)` is true in a state exactly if f, with nexts on the right of a release read as false and weak nexts elsewhere read as strong, holds when the state is repeated more often than nexts are nested. |
| Obligations.OffComplete | formula/aalta_formula.cpp:1755-1783 | The converse of sufficiency, where it holds: if no next stands on the right of a release and no weak next on the right of an until, a formula that holds when a state is repeated often enough has its obligation met in that state. |
| Obligations.OffMisses | formula/aalta_formula.cpp:1755-1783 | Where it does not: `G N a` and `F N a` hold on repeated states that do not meet their obligations. |
| Obligations.OfgIsOneState | formula/aalta_formula.cpp:1723-1750 | `ofg(f)`, before it is simplified, is true in a state exactly if the trace of that one state satisfies f. |
| UcSolvers.SimplifiedOfg | formula/aalta_formula.cpp:1723-1752 | The same for `ofg` with the simplifier called at every step of the recursion. |
| Obligations.GlobalCollapse | formula/aalta_formula.cpp:1692-1752 | A global formula has a trace exactly if some state satisfies its `ofg`. |
| UcSolvers.DefinitionsMean | msolver.cpp:263-314 | In a model of the clauses of an obligation formula its variable has the formula's value. |
| UcSolvers.DefinitionsHold | msolver.cpp:263-314 | Conversely every state gives a model of them. |
| UcSolvers.ObligationsSuffice | msolver.cpp:221-261 | Formulas whose obligations one state satisfies have a common trace. |
| UcSolvers.SimplifiedOff | formula/aalta_formula.cpp:1755-1783 | With the simplifier called at every step of the recursion, cache included, the obligation keeps its value in every state and has no constant inside. |
| UcSolvers.UCSolver.SAT | muc.cpp:302-312 | The answer is whether clauses and assumptions have a model; if no obligation was False, exactly whether one state meets the obligations of all items. Then the items have a common trace; so from an unsatisfiable list it must answer unsatisfiable, as the program asserts. Otherwise the conflict consists of an assumption found false and those that led to it. |
| UcSolvers.UCSolver.GetUcFormulas | msolver.cpp:316-327 | The formulas returned are, in order, the conjuncts of the chosen formula that the conflict's obligations come from, and in every state that satisfies the other obligations one of theirs fails. |
| MucExtraction.ShrinkBlock | muc.cpp:363-418 | Replacing a block of the family by an unsatisfiable part of it keeps the invariant: all blocks together have no trace, without any one block they have. |
| MucExtraction.SplitBlock | muc.cpp:422-479 | Splitting a block in two keeps the invariant when each half alone leaves the family satisfiable. |
| MucExtraction.MoveBlock | muc.cpp:205-212 | The linear algorithm's invariant: a part without which the rest is satisfiable may be moved to the core. |
| MucExtraction.BinaryPartition | muc.cpp:68-87 | The conjuncts are divided into two halves of equal size, or the second one larger by one, without a common conjunct; or there is only one. |
| MucExtraction.Partition | muc.cpp:89-104 | The conjuncts are divided into one and the rest. |
| MucExtraction.MucExtractor.Query | muc.cpp:357-363 | The query made for a part answers exactly whether the conjunction of the part with the rest of the family has a trace as it is read, for every list of parts; a negative answer means that there is none as it is meant. |
| MucExtraction.MucExtractor.ShrinkWithUc | muc.cpp:294-341 | With the unsat-core option the block becomes the conjunction of what the obligation solver blames, exactly if that is not empty and has no trace with the rest as it is read; a block so cut down is still unsatisfiable with the rest. |
| MucExtraction.Blamed | muc.cpp:297-312 | From items without a common trace the obligation solver never answers satisfiable (the program's assertion). What it blames are the conjuncts of the first item that its conflict names, of which some obligation fails in every state that meets the obligations of the other items; nothing is blamed only if some obligation can never be met, or those of the other items not together. |
| MucExtraction.MucExtractor.Muc | muc.cpp:277-481 | The binary algorithm ends, by the sum of 2k-1 over the stack entries of k conjuncts, with an empty stack and the invariant. |
| MucExtraction.MucExtractor.BasicMuc | muc.cpp:106-214 | The linear algorithm ends, for a stack of any size, with an empty stack and an unsatisfiable core; started with at most one entry, it also ends with the invariant that each part is needed. |
| MucExtraction.CriticalIsMinimal | muc.cpp:277-481 | With one conjunct in each block the invariant says that the core is minimal. |
| MucExtraction.GetMuc | main.cpp:68-78 | From any unsatisfiable formula, for both algorithms and with or without unsat cores: the result has no trace and consists of conjuncts of the formula; if there is no loose False, it has a trace when any element is dropped. With loose constants it is False alone, or all conjuncts when these together are read as satisfiable, or else minimal as it is read. |
| MucExtraction.LooseFalseSpoilsCore | muc.cpp:28-43 | The case in which that is not minimality exhibited: from (a and b) and (false or false), read as satisfiable, all three conjuncts are returned, and dropping one still leaves no trace. |
| Trails.PushOk | minisat/core/Solver.cc:429-434 | Enqueueing a literal with a reason that is otherwise false keeps trail, levels and reasons consistent and every earlier value. |
| Trails.CancelOk | minisat/core/Solver.cc:207-218 | Cancelling to a level keeps the rest consistent, keeps exactly the values of levels up to it, and forgets all others. |
| WatchLists.NoUnitLeft | minisat/core/Solver.cc:449-508 | When propagation is complete, every attached clause is true or has two unassigned watched literals: none is false or unit. |
| WatchLists.PropagatedCancel | minisat/core/Solver.cc:207-218 | What propagation established below the level cancelled to survives cancelling. |
| WatchLists.MoveOk | minisat/core/Solver.cc:482-487 | Moving a watch to a literal that is not false keeps the clause guarded. |
| CdclSolver.Solver.UncheckedEnqueue | minisat/core/Solver.cc:429-434 | The new state is the old one with the literal pushed, and the order heap still has all unassigned decision variables. |
| CdclSolver.Solver.Propagate | minisat/core/Solver.cc:449-508 | Watch lists, reasons with the implied literal first, and entailment are kept; without a conflict all watched clauses are propagated, with one the clause returned is false and was attached. |
| CdclSolver.Solver.CancelUntil | minisat/core/Solver.cc:207-218 | The trail is cut back to the level, and the unassigned decision variables are back in the heap. |
| Resolution.Resolve | minisat/core/Solver.cc:281-301 | One step of conflict analysis: the marked literals still form an entailed clause after resolving with a reason. |
| Resolution.MinimisedEntailed | minisat/core/Solver.cc:308-315 | A clause whose dropped literals are closed under reasons is still entailed without them. |
| CdclSolver.Solver.FindUip | minisat/core/Solver.cc:264-302 | Ends at the first unique implication point of the current level: the last place on the trail such that resolving the conflicting clause back to it leaves no other literal of that level. Marked are exactly the lower-level literals met on the way, and with the negated literal they form an entailed false clause. |
| CdclSolver.Solver.LitRedundant | minisat/core/Solver.cc:361-387 | True exactly if every other literal of the reason follows from the marks as they were: by recursion on the trail, it is false at the root, or marked, or of an allowed level with a reason whose other literals follow. New marks are only on literals that follow; on failure all are undone. |
| CdclSolver.Solver.Minimise | minisat/core/Solver.cc:306-335 | Kept are, in order, exactly the literals that are not dispensable: all in mode 0, those with an unmarked literal above the root in their reason in mode 1, those that are not redundant in mode 2. The dropped ones are closed over what is kept. |
| CdclSolver.Solver.FindBtLevel | minisat/core/Solver.cc:338-353 | The clause keeps its literals; the one of the highest remaining level is moved to index 1, and that level is returned. |
| CdclSolver.Solver.Analyze | minisat/core/Solver.cc:264-356 | The learnt clause is exactly the negated literal at the first implication point, at index 0, with the essential ones of the literals met. It is entailed and false, with no root literal and no variable twice; the level returned is that of index 1 (0 for a unit); all marks are cleared. |
| Progress.LearntUnit | minisat/core/Solver.cc:630-641 | After the backjump the learnt clause is unit: its first literal is unassigned and all others are false. |
| Resolution.ResolveBelow | minisat/core/Solver.cc:409-423 | One step of the final analysis keeps the clause of decisions and marked literals entailed. |
| CdclSolver.Solver.AnalyzeFinal | minisat/core/Solver.cc:399-426 | The final conflict consists of exactly the failed literal and the negations of the decisions that it depends on through reasons above the root; it is entailed, and all marks are cleared. |
| Causes.MarkedByReason | minisat/core/Solver.cc:281-301 | If the marks are what resolving down to a place has met, then after the reason of the literal there is marked they are what resolving one place further has met. |
| Causes.TracedFollows | minisat/core/Solver.cc:361-387 | When the search for redundancy ends, every mark it has left follows from the marks before it: no two literals justify each other in a circle. |
| Causes.FinalMetReason | minisat/core/Solver.cc:409-423 | One step of the final analysis: the marks above the root stay exactly the places met, and the conflict exactly the decisions blamed so far. |
| Progress.HeightBackjump | minisat/core/Solver.cc:630-641 | Learning a clause, backjumping and asserting it makes the trail larger as a number in base 3: the reason why search ends. |
| Progress.HeightDecide | minisat/core/Solver.cc:700-702 | So does a decision. |
| Progress.RootConflict | minisat/core/Solver.cc:624-627 | A false entailed clause at the root level means that the clauses have no model. |
| Progress.GoodLearn | minisat/core/Solver.cc:636-640 | Storing a learnt clause and asserting its literal keeps the solver's invariant. |
| CdclSolver.Solver.Backjump | minisat/core/Solver.cc:630-641 | The invariant holds again after learning, and the trail has grown as a number. |
| CdclSolver.Solver.PickBranchLit | minisat/core/Solver.cc:225-244 | Returns an unassigned decision variable of greatest activity, or finds that there is none. |
| Progress.FullAssignmentModels | minisat/core/Solver.cc:690-697 | A complete propagated assignment is a model of all clauses ever added, and of the assumptions. |
| Progress.GoodDropLearnt | minisat/core/Solver.cc:525-543 | Any learnt clause may be deleted when it is not a reason: the invariant is kept. |
| Progress.GoodDropClause | minisat/core/Solver.cc:545-556 | A clause that is true at the root may be deleted, even as a reason: stored clauses and root literals still account for all clauses added. |
| CdclSolver.Solver.RemoveSatisfied | minisat/core/Solver.cc:577-598 | At the root: exactly the learnt clauses with a true literal go, and so may the problem clauses; the heap then holds exactly the unassigned decision variables, and the invariant is kept. |
| CdclSolver.Solver.ReduceDB | minisat/core/Solver.cc:525-543 | Only learnt clauses that are neither binary nor reasons go; trail and invariant stay as they are. |
| CdclSolver.Solver.Simplify | minisat/core/Solver.cc:577-598 | At the root: false only if the clauses have no model, otherwise the invariant is kept. |
| CdclSolver.Solver.PlaceAssumptions | minisat/core/Solver.cc:675-688 | True assumptions open empty levels; at a false one the conflict consists of its negation and those of the assumptions that led to it, and is entailed; an unassigned one is the next decision. |
| CdclSolver.Solver.Search | minisat/core/Solver.cc:614-705 | Terminates. True: all decision variables are assigned without conflict. False: the clauses are refuted under the assumptions. Undefined: only with a conflict budget below 3^n. |
| Progress.LubyExponent | minisat/core/Solver.cc:734-749 | Entry x of the Luby sequence, for every x: the sequence whose piece j is twice piece j-1 followed by j. |
| CdclSolver.Solver.RestartLimit | minisat/core/Solver.cc:773-775 | The limit is 100 times two to the Luby exponent, or to the number of restarts. |
| CdclSolver.Solver.SearchWithRestarts | minisat/core/Solver.cc:751-793 | The sequence of restarts ends with a verdict, since at the end of a Luby piece the limit exceeds every search. |
| CdclSolver.Solver.Solve | minisat/core/Solver.cc:751-793 | Terminates with true or false. True: a model of all clauses added and of the assumptions. False: the conflict is entailed and made only of negated assumptions; if it is not empty, it is what a complete propagation of assumptions blames for a false one. The solver is ready for further clauses and queries. |
| CdclSolver.Solver.NewVar | minisat/core/Solver.cc:114-129 | The variable is new and unassigned, and all that was promised before still holds. |
| Adding.ReduceClause | minisat/core/Solver.cc:132-149 | On sorted literals: the clause is recognised as true, or exactly its undecided literals are kept, once each. |
| CdclSolver.Solver.AddClause | minisat/core/Solver.cc:132-159 | The clauses added so far, which all verdicts are about, gain exactly this clause; the result is false only if they now have no model. |
| Heaps.RootIsFirst | minisat/mtl/Heap.h:44-76 | In an ordered heap no element comes before the root. |
| Heaps.Heap.PercolateUp | minisat/mtl/Heap.h:44-57 | Restores heap order and the index map from a heap with one element too low, keeping the members. |
| Heaps.Heap.PercolateDown | minisat/mtl/Heap.h:60-74 | Restores heap order below one element that is too high, keeping the members. |
| Heaps.Heap.RemoveMin | minisat/mtl/Heap.h:110-119 | Removes and returns a member before which no other comes. |
| Heaps.Heap.Insert | minisat/mtl/Heap.h:99-107 | Adds exactly the one member. |
| Heaps.Heap.Build | minisat/mtl/Heap.h:123-134 | The members are exactly the given ones, in heap order. |
| AaltaSolver.Incremental.NumberVars | aaltasolver.cpp:17-23 | Every variable of the literals gets a solver variable, new ones at the end; what the earlier clauses mean does not change. |
| AaltaSolver.Incremental.AddClause | aaltasolver.cpp:90-110 | The solver's clauses, over their own variables, grow by exactly this clause. |
| AaltaSolver.Incremental.Solve | aaltasolver.cpp:33-88 | What the checkers rely on, met by the solver above over its whole life: a model of all clauses so far and of the assumptions, or assumptions that are unsatisfiable with the clauses, namely one found false and those that led to it. |
| AaltaSolver.GetUc | aaltasolver.cpp:73-88 | The core is the conflict's literals negated, each of them an assumption. |
| SimpSolvers.Subsumes | minisat/core/SolverTypes.h:367-396 | Exact, abstraction filter included: `subsumed` if and only if all literals are in the other clause, `p` if and only if all are but p, whose negation is. |
| SimpSolvers.StrengthenedTrue | minisat/simp/SimpSolver.cc:190-213 | Deleting the literal found keeps the models, and is undone by none. |
| Elimination.Merge | minisat/simp/SimpSolver.cc:217-244 | Refuses exactly the pairs that clash on another variable, and otherwise builds the resolvent, each variable once. |
| Elimination.ModelsReduced | minisat/simp/SimpSolver.cc:470-528 | Every model of the clauses is a model of what replaces them. |
| Elimination.RecordsRestore | minisat/simp/SimpSolver.cc:563-577 | Replaying the records of one elimination turns every assignment that satisfies the reduced clauses into one that satisfies the originals. |
| Elimination.ExtendModel | minisat/simp/SimpSolver.cc:563-577 | The backward walk over the flat vector, whose lengths stand last, replays the records newest first and nothing else. |
| SimpSolvers.SimpSolver.MkElimClause | minisat/simp/SimpSolver.cc:444-466 | The vector gains the record of the clause with v's literal first and the length last. |
| SimpSolvers.SimpSolver.EliminateVar | minisat/simp/SimpSolver.cc:470-528 | A variable is kept, and nothing changed, exactly if distribution makes too many resolvents or one that is too long. Otherwise the new clauses are the old ones without the variable and all resolvents that can be false, and no others; the records gained are those of the clauses with the rarer sign, then the other sign. The originals have a model exactly if the reduced clauses have, and the records restore it. |
| SimpSolvers.SimpSolver.BackwardSubsumptionCheck | minisat/simp/SimpSolver.cc:326-390 | The queue runs empty; if it held every clause that subsumes or strengthens another, then afterwards none does. Every clause has a part among the new ones, every new one is a part of a clause, and models stay, restored as before. |
| SimpSolvers.SimpSolver.ExtendModel | minisat/simp/SimpSolver.cc:563-577 | A model of the current clauses becomes a model of the original ones, over all variables. |
| BlockedClauses.TautResolvent | muser2/src/mus-2/bce_simplifier.cc:278-306 | On sorted clauses the two-pointer scan is exact: true if and only if the clauses clash on another variable. |
| BlockedClauses.BlockedHasModel | muser2/src/mus-2/bce_simplifier.cc:129-265 | A clause blocked on a literal can be put back: if the others have a model, so have all. |
| BlockedClauses.BCESimplifier.FindWitness | muser2/src/mus-2/bce_simplifier.cc:172-215 | The scan finds a live clause with a resolvent that is no tautology, or otherwise the clause is blocked; in the part of the list that was scanned only entries of live clauses are left, and none of those is lost. |
| BlockedClauses.BCESimplifier.Remove | muser2/src/mus-2/bce_simplifier.cc:216-258 | Removing a blocked clause keeps satisfiability and the counters, and queues every literal that may have become blocked. |
| BlockedClauses.BCESimplifier.Simplify | muser2/src/mus-2/bce_simplifier.cc:129-265 | The queue loop ends; the live clauses have a model exactly if the original ones have, and none is blocked on any of its literals. The clauses removed can be listed in an order in which each was blocked on one of its literals among those live at that moment. |
| Conflicts.ConflictSound | formula/aalta_formula.cpp:150-287 | Formulas in negation normal form that the test reports never hold at the same position of an infinite word. The recursion of the test, which exchanges its arguments, ends. |
| Conflicts.ConflictComplete | formula/aalta_formula.cpp:150-287 | The test misses no pair of formulas that claim opposite literals, or opposite literals under as many nexts, through any nesting of conjuncts, both sides of disjunctions and untils, and right sides of releases (`Claims`, which is sound by `ClaimsHold`). |
| NormalForms.ChainNormal | formula/aalta_formula.cpp:321-482 | Chaining operands none of which the others conflict with, absorb or complement leaves no law to apply: the chain is normal. |
| NormalForms.NormalIsConsistent | formula/aalta_formula.cpp:416-482 | In a normal formula no two conjuncts claim opposites. |
| Simplification.DroppedEntails | formula/aalta_formula.cpp:370-388 | Every disjunct the absorption filter drops implies one that stays, on words and at ends of traces, so none is justified in a circle, and not all can go. |
| Simplification.Absorb | formula/aalta_formula.cpp:370-388 | Exactly the disjuncts that are no release over another disjunct and no body of an until disjunct are kept, at least one; the meaning of the disjunction is unchanged. |
| Simplification.ScanDisjuncts | formula/aalta_formula.cpp:335-366 | The test is exact: it reports a disjunction just when True is among the disjuncts, or an atom and its negation stand among them or the disjuncts of until operands; such a disjunction always holds. |
| Simplification.UntilRight | formula/aalta_formula.cpp:639-648 | In each case in which `l U r` is replaced by r the two are equal on every infinite word, and the replacement depends no more on nexts at the end of a trace. |
| Simplification.ReleaseRight | formula/aalta_formula.cpp:674-684 | The same for `l R r`. |
| Simplification.UntilLaws | formula/aalta_formula.cpp:649-656 | (a U b) U a, (b U a) U a, X a U a and X a U X b may be replaced by what they are rewritten to, in the same sense. |
| Simplification.ReleaseLaws | formula/aalta_formula.cpp:685-694 | (a R b) R a, (b R a) R a, X a R X b and !a R a may be replaced by what they are rewritten to. |
| Simplification.ConflictNever | formula/aalta_formula.cpp:150-287 | Formulas reported as conflicting are never both true at a position of a word, nor at the end of a trace when its nexts are false. |
| Simplification.Simplifier.SimplifyOr | formula/aalta_formula.cpp:321-407 | The result is normal: no disjunct absorbed by another, none twice, no complementary literals. It equals the disjunction on every infinite word, keeps its independence of nexts at the end of a trace, is no larger, and has constants only in F and G. |
| Simplification.Simplifier.SimplifyAnd | formula/aalta_formula.cpp:416-482 | The same for a conjunction: no two of the conjuncts that are left conflict, so that `a & !a` becomes False. |
| Simplification.Simplifier.SimplifyAndWeak | formula/aalta_formula.cpp:491-563 | The same for operands that are already simplified, whose chains are merged in any order of addresses. |
| Simplification.Simplifier.Simplify | formula/aalta_formula.cpp:1217-1247 | With whatever the cache holds, the recursion through rewritten formulas ends. The result is normal, that is, none of the laws applies to it or below it (`Normal`); it is equal to the formula on every infinite word, keeps its independence of nexts at the end of a trace, is no larger, and free of loose constants. |
| FirstCheck.LawsFailOnTraces | formula/aalta_formula.cpp:301-303 | On finite traces the laws for X do not hold: `X true` and `X a R X b` are counterexamples. |
| FirstCheck.SimplifiedHasTrace | main.cpp:200-203 | A trace of the original, continued by repeating its last state, satisfies the simplified formula, and that gives the checker something to find. |
| FirstCheck.GuardedIsDeep | formula/aalta_formula.cpp:1579-1671 | The Tail guards make a formula, and every operand of a temporal operator in it, independent of the nexts in the last state. |
| Ends.DeepReadsAlike | muc.cpp:33-36 | On formulas of that kind all readings of the nexts at the end of a trace agree, at every position. |
| Ends.NextIsLoose | formula/aalta_formula.cpp:649-656 | A bare next is not of that kind, so the rewriting of X a U a, which would destroy the property, never applies to guarded formulas. |
| FirstCheck.SimplifiedFindsTrace | main.cpp:200-203 | Whatever the checker finds for the simplified and split formula is a trace of the original. |
| Translation.TranslateFails | ltlparser/ltlf2ltl/ltlf2ltl.cpp:15-100 | The translation stops with an error exactly on formulas with weak next or weak until. |
| Translation.TranslationAgrees | ltlparser/ltlf2ltl/ltlf2ltl.cpp:15-100 | On a trace followed by Tail forever the translation holds at a position of the trace exactly if the formula holds there. |
| Translation.TailConstraintMeans | ltlparser/ltlf2ltl/ltlf2ltl.cpp:139 | The appended constraint holds exactly on the words that are a non-empty trace followed by Tail forever. |
| Translation.TranslationSatisfiable | ltlparser/ltlf2ltl/ltlf2ltl.cpp:139 | So the formula has a finite trace exactly if the translation with the constraint has an infinite word. |

## Left out

- Run: an empty result stands for the failing assertion. Minimality as meant is stated for formulas that are built without a loose False, and is false for some others (`LooseFalseSpoilsCore`), for which minimality as read is stated; `-global` on a global formula, which goes to another program, is left out.
- Solve: the model is promised when all variables are decision variables.
- Search: conflict and propagation budgets, interrupts, random decisions and progress estimates are not modelled; when to delete learnt clauses is an arbitrary choice, and so is which of the deletable ones to delete.
- ReduceDB: which of the clauses that may go do go depends on activities, and is an arbitrary choice here.
- VarBumpActivity: activities are real numbers; the rescaling of large ones and clause activities are left out.
- Propagate: the watch list is edited by removing and replacing entries at an index instead of being compacted with two pointers; the order of entries is not promised.
- SolveAssumption: clauses reach the SAT solver in the order in which they were added, but just before the next query instead of at once. Literals become variable numbers in order of appearance.
- EliminateVar: the occurrence lists, the elimination heap, and the root-level simplification of new clauses are left out; a unit resolvent is kept as a clause instead of being propagated.
- BackwardSubsumptionCheck: the queue holds clauses by value, and limits on clause size are left out.
- BCESimplifier: the options that move clauses to group 0 or ignore it are off, the queue is a set (its order by list size does not matter), and literals are pairs.
- SimplifyAnd: of two conjuncts that are left, at most one order of the arguments makes the conflict test report them; merged chains are tested in one order only, and the test is not symmetric.
- SimplifyOr: sorting by address is modelled as dropping duplicates in some order, and addresses in merges as an arbitrary choice.
- Simplifier: the cache is a table from formulas to results; node identities, tags and hash-consing are left out.
- BuildMeaning: lexing, parsing and the numbering of atoms are left out; formulas come as trees, with atom 0 reserved for Tail.
- TranslationAgrees: printing the result and the constraint as text is left out.
- Numbers of SAT variables: structured names hide that the number of a True node created late could coincide with that of an auxiliary variable.
- Check: the heuristic that looks for unsatisfiability by obligation formulas before the search (`olg_unsat`) and the caching of explored formulas are assumed to be off.
- The depth-first checker, extraction of all cores, the `-global` method with its external process, progression and normal forms for infinite words: not used on the path modelled, or foreign calls.
- Region memory and garbage collection of clauses, timing, statistics, verbose output, command line: no effect on results.
- The rest of the MUS extractor (schedulers, work items, group sets): depends on data structures that are not part of this model.
- Asymmetric branching, substitution, the implied-clause check and the elimination loop's order in the simplifying solver: would add further instances of what is proved about each step.
