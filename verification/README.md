# Proof-carrying tools: a Dafny model

This project models the C programs of the repository that certify results: three
checkers and producers of unsatisfiability proofs (lrat-check, druplig, drat-trim), the
and-inverter-graph tools around AIGER (reencoding, cycle detection, the binary format,
hash-consed graphs, unrolling, bounded model checking, translation to CNF, removal of
constraints), and the tristate numbers of the BPF verifier. Each program is modelled in
its own imperative form and tied to a small independent specification; what the program
is for is then proved for all inputs.

| file | models |
|---|---|
| Cnf, Lists, Bits | assignments and clauses, lists, words as naturals |
| LratSpec, LratExact, LratReader, LratCheck | lrat-check.c: what an accepted step means, exactly when one is accepted, whole runs, the flat tables updated in place |
| DrupSpec, Druplig | druplig.c: unit propagation as a closure, the two-watched-literal machine |
| DratHints, DratTrim | drat-trim.c: propagation, conflict analysis and the hints printed for a lemma |
| Aig, AigDfs, Aiger, Renumber, Recode, AigerBinary, OrderedAig | aiger.c: circuits, cycle search, reencoding, delta coding |
| RefCount, Simpaig, Unroll, Expansion | simpaig.c and aigunroll.c: reference-counted shared graphs, time shift, substitution, the unrolled circuit |
| SmvAig | smvtoaig.c: simplifying hash-consed conjunctions |
| ToCnf | aigtocnf.c: polarity-reduced clauses |
| BmcSpec, BmcProof, AigBmc, BmcNet | aigbmc.c: runs and lassos, the clauses of a bound, the incremental encoder, and the way there from the circuit that was read |
| Unconstraint | aigunconstraint.c: constraints replaced by a latch |
| Tnum, TnumOps, TnumLoops, TnumExact | tnum.c at any width: modules Tristate, TristateOps, TristateLoops, TristateExact |

Assumptions that hold throughout: arrays that grow on demand are maps or sequences, a
failed assertion or `exit` in a checker is an aborted run, and the answer of a SAT
solver is an arbitrary assignment that satisfies the clauses given to it.

## Findings

Properties the code does not have, each with an input and the condition under which it
does hold.

- lrat-check.c:93 accepts a lemma whose hints merely run out
  (`LratSpec.ExhaustedIsUnsound`). `LratSpec.RupExact`: such a lemma follows from its
  hint clauses if and only if some hint clause has no literal left when its turn comes,
  or the lemma is a tautology.
- lrat-check.c:98 takes a pivot from an empty lemma; a resolution step on it can be
  accepted although nothing was proved (`LratSpec.EmptyResolutionIsUnsound`).
  `LratSpec.EmptyExact`: such a step refutes the clauses it used, those of its candidates
  included, if and only if some hint clause before the first candidate has no literal left
  when its turn comes.
- lrat-check.c:206-212 records a literal one line too late. A satisfiable formula of three
  clauses is reported refuted (`LratReader.LateEntryRefutesSatisfiable`). The scan for the
  negated pivot is complete if and only if an earlier step resolved on it, the formula
  does not contain it, or its first clause there was deleted (`LratReader.CoveredExact`);
  the late entry changes some verdict if and only if that first clause is live
  (`LratReader.LateVerdict`).
- aiger.c:2286-2310 reads the five-byte code of 2^32 as 0 (`AigerBinary.TruncatedCode`).
  A code of at most five bytes is read as the number it stands for if and only if that
  number fits 32 bits (`AigerBinary.DecodeFaithful`).
- aigtocnf.c:165-169 with --no-pg: an unneeded gate over a constant prints an empty clause
  (`ToCnf.ForcedConstantFails`), and the clause count of the header is too large unless
  all variables are used. `ToCnf.Translate` gives both conditions as equivalences.
- aigbmc.c:371-420: a justice property without literals is reported when there is no lasso
  (`BmcProof.EmptyJusticeNoLasso`). `BmcProof.EmptyJusticeExact` with
  `BmcProof.BoundedExact`: a bound is satisfiable exactly for an unreached bad state or a
  lasso as long as `justice[i] != [] || fairness != []` for every unreached property i, and
  otherwise exactly when there is any constrained run of that length.
- aigbmc.c:371-420, 571-577: fairness is asked for by the disjunction over the justice
  properties, while main reads the literal of each property, so that a justice literal can
  be true in a model in which a bad state alone satisfies the bound, and main reports a
  property no run of that length witnesses (`BmcProof.MixedReport`).
  `BmcProof.MisreportExact`: some model misreports property i if and only if there are two
  justice properties or more and some constrained run of that length ends in an unreached
  bad state and meets all literals of property i, but not all fairness literals, in its
  loop. It cannot happen when all bad states are reached, without fairness, or with one
  justice property (`BmcProof.Trusted`, `BmcProof.TrustedNoSlip`).

## Model

| member | source | states |
|---|---|---|
| LratSpec.RupExact | lean/pkgs/drat-trim/lrat-check.c:81-94 | an accepted step without resolution candidates follows from its hint clauses exactly when some hint clause is closed by the lemma and the earlier units, or the lemma is a tautology |
| LratSpec.ConflictCloses | lean/pkgs/drat-trim/lrat-check.c:81-93 | the return inside the hint loop is taken exactly when a hint clause lies within the lemma's literals and the negated units before it |
| LratSpec.CheckSound | lean/pkgs/drat-trim/lrat-check.c:96-141 | when no live clause below the recorded index holds the negated pivot, a conflict exit makes the lemma a consequence of the live clauses and a resolution exit keeps them satisfiable with it |
| LratSpec.EmptyExact | lean/pkgs/drat-trim/lrat-check.c:60-141 | a resolution step accepted for the empty lemma refutes the clauses it used, candidates included, exactly when some hint clause before the first candidate is closed by the earlier units |
| LratExact.CheckExact | lean/pkgs/drat-trim/lrat-check.c:60-141 | each of the three ways of accepting, both ways and without the loops: hint clauses are unit one after the other up to a falsified one or to the end; with candidates these are live, listed in order and without a gap among the live clauses with the negated pivot, and each is blocked or closed by its own hints from the marks that were kept |
| LratExact.GroupsExact | lean/pkgs/drat-trim/lrat-check.c:127-141 | the loop over the candidates succeeds if and only if all of them are in order, none is missing and each is settled |
| LratReader.PrefilledMeaning | lean/pkgs/drat-trim/lrat-check.c:205-214 | after reading, every literal is recorded one past the line where it first occurs |
| LratReader.CoveredExact | lean/pkgs/drat-trim/lrat-check.c:115-124 | during such a run the scan for the negated pivot overlooks no live clause if and only if the pivot's negation was resolved on before, is not in the formula, or lost its first formula clause |
| LratReader.CoveredSound | lean/pkgs/drat-trim/lrat-check.c:143-184 | from any state a run of the reader can be in, additions and deletions with covered resolution steps keep satisfiability, and an accepted empty lemma refutes the clauses |
| LratReader.PrefilledSound | lean/pkgs/drat-trim/lrat-check.c:286-334 | from the state the reader really builds, a run whose resolution steps are all covered in that sense keeps satisfiability, and its accepted empty lemma means the formula is unsatisfiable |
| LratReader.LateVerdict | lean/pkgs/drat-trim/lrat-check.c:115-132 | the entry that is one too large gives the same verdict on all hints as the right one if and only if the first clause is not live |
| LratReader.LateEntryRefutesSatisfiable | lean/pkgs/drat-trim/lrat-check.c:205-214 | a careful, accepted run of two lines that derives the empty lemma from a satisfiable formula |
| LratCheck.Checker.CheckClause | lean/pkgs/drat-trim/lrat-check.c:96-141 | with time stamps in place of sets, the verdict and the new first-occurrence entry are those of the specification, success is exactly the declarative condition, and no stamp is left ahead of the clock |
| LratCheck.Checker.Verify | lean/pkgs/drat-trim/lrat-check.c:286-334 | the tables after reading and checking a proof are those of the specified run, so a careful covered run that returns 0 certifies its formula |
| DrupSpec.RupSound | lean/pkgs/druplig/druplig.c:797-821 | whenever naive unit propagation from a base reaches a conflict, no model of the clauses satisfies the base |
| Druplig.Checker.Propagate | lean/pkgs/druplig/druplig.c:599-644 | returning 1 leaves the watch invariant with every trail literal processed, returning 0 leaves a falsified clause, and the clause set is untouched |
| Druplig.WatchedClosed | lean/pkgs/druplig/druplig.c:588-644 | under the watch invariant with all literals processed, every clause has a true literal or at least two unassigned ones |
| Druplig.Checker.CheckRedundant | lean/pkgs/druplig/druplig.c:797-821 | on duplicate-free clauses the answer is yes exactly when an inconsistency is recorded or naive propagation of the negated clause conflicts, trail and watch invariant are restored, and as long as nothing was deleted the answer is that of naive propagation of the live clauses alone |
| Druplig.Checker.CheckAndAddRedundant | lean/pkgs/druplig/druplig.c:833-846 | the same answer, after which the clause is live; each accepted clause keeps all live clauses and top-level literals implied by the originals, and a recorded inconsistency keeps meaning that the originals are unsatisfiable |
| Druplig.Checker.PropagatedRefuted | lean/pkgs/druplig/druplig.c:639-655 | after additions and checks only, an inconsistency is recorded exactly when unit propagation refutes the live clauses |
| Druplig.Replay | lean/pkgs/druplig/druplig.c:670-846 | every answer in a sequence of additions and checks is that of naive unit propagation on the clauses given so far, whatever was answered before |
| Druplig.RefutedForGood | lean/pkgs/druplig/druplig.c:797-802 | once unit propagation refutes the given clauses, every later clause is accepted |
| Druplig.Checker.AddOriginal | lean/pkgs/druplig/druplig.c:670-689 | the same invariants for the originals with the new clause added |
| Druplig.Checker.Forget | lean/pkgs/druplig/druplig.c:917-955 | deletes one clause that matches the given literals if there is one, implication by the originals survives, and later answers stay exact if and only if an inconsistency is still recorded or propagation was not interrupted |
| DratHints.HintsAccepted | lean/pkgs/drat-trim/drat-trim.c:483-487 | when every stacked literal's reason has its other literals falsified earlier, the reasons recorded from a falsified clause, reversed, drive the LRAT check to its conflict exit |
| DratTrim.Solver.Propagate | lean/pkgs/drat-trim/drat-trim.c:182-220 | whatever is pushed has a reason whose other literals are below it on the stack, clauses are only permuted, a reported clause is falsified, and without one the core and non-core passes together leave no clause whose falsified watch is not made up for by the other one |
| DratTrim.PairedClosed | lean/pkgs/drat-trim/drat-trim.c:182-220 | in such a state no clause is unit or falsified |
| DratTrim.Solver.Init | lean/pkgs/drat-trim/drat-trim.c:685-750 | watching the formula, assigning its units and propagating them succeeds exactly when naive unit propagation does not refute the formula, and leaves propagation complete |
| DratTrim.Solver.Analyze | lean/pkgs/drat-trim/drat-trim.c:136-172 | records exactly the reasons that the conflict depends on, latest first, makes exactly these clauses active with their watches flagged as core, and unwinds the stack to the forced part |
| DratTrim.Solver.RupCheck | lean/pkgs/drat-trim/drat-trim.c:602-641 | where propagation is complete, a lemma is accepted or reported as a tautology exactly when naive unit propagation of its negation conflicts; the printed hints of every accepted lemma pass the modelled LRAT check with its conflict exit |
| Aiger.Circuit.CheckForCycles | lean/pkgs/aiger/aiger.c:809-885 | terminates, and reports an error exactly when some gate reaches itself through right-hand sides; no error means a ranking of the gates exists |
| Aiger.Circuit.IsReencoded | lean/pkgs/aiger/aiger.c:1306-1349 | recognizes exactly the circuits whose inputs, latches and gates carry 2, 4, 6, ... with lhs >= rhs0 >= rhs1 |
| Aiger.Circuit.ReencodeLit | lean/pkgs/aiger/aiger.c:1362-1466 | codes the gates below a literal after their children, only gates the literal reaches, and keeps all earlier codes |
| Aiger.Circuit.Reencode | lean/pkgs/aiger/aiger.c:1476-1668 | every next, reset, output, bad, constraint, justice and fairness literal has the same value whenever inputs and latches agree by position; the result is numbered in order; unless it already was, exactly the gates outside all cones are dropped |
| Recode.RewritingMeans | lean/pkgs/aiger/aiger.c:1476-1668 | renumbering by any order that puts gates after their children preserves the value of every root literal |
| Recode.SectionOf | lean/pkgs/aiger/aiger.c:1594-1650 | compacting and sorting the gate array yields the gates of the renumbered graph in the order of their new literals |
| AigerBinary.DeltaRoundTrip | lean/pkgs/aiger/aiger.c:949-967 | decoding inverts encoding on every 32-bit value and consumes exactly its own bytes |
| AigerBinary.GateBytes | lean/pkgs/aiger/aiger.c:1697-1708 | the bytes of a gate are two code words, for the distance to the larger right-hand side first and then for that to the smaller one |
| AigerBinary.SectionBytes | lean/pkgs/aiger/aiger.c:1697-1712 | the bytes of a gate lie after those of the gates before it and before those of the gates after it |
| AigerBinary.GateRead | lean/pkgs/aiger/aiger.c:2330-2370 | two code words are read as the gate that lies that far above its right-hand sides, or refused when it would have to be negative |
| AigerBinary.DecodeFaithful | lean/pkgs/aiger/aiger.c:2286-2313 | a code of at most five bytes is read as its value exactly when the value fits a word |
| AigerBinary.ReencodedRoundTrip | lean/pkgs/aiger/aiger.c:1680-1713 | writing and reading the AND section of any reencoded circuit gives the same gates |
| AigerBinary.AcceptedInOrder | lean/pkgs/aiger/aiger.c:2330-2370 | every section the reader accepts consists of gates numbered in order with lhs >= rhs0 >= rhs1 |
| AigerBinary.Writer.WriteAnds | lean/pkgs/aiger/aiger.c:1680-1713 | succeeds exactly when the output has room, with the encoded section as output |
| AigerBinary.Reader.ReadAnds | lean/pkgs/aiger/aiger.c:2330-2370 | accepts and rejects as the specified decoder does, consuming its bytes |
| RefCount.StaysLive | lean/pkgs/aiger/simpaig.c:261-267 | with exact counters a node stays in the table as long as whatever held it directly or above it stays |
| Simpaig.Manager.Dec | lean/pkgs/aiger/simpaig.c:345-379 | every counter stays equal to child edges, stack entries and handles through the cascade of frees, and no live node points to a freed one |
| Simpaig.Manager.Conjunction | lean/pkgs/aiger/simpaig.c:408-440 | the result means the conjunction, the table keeps one node per content up to swapped children, and nothing is lost |
| Simpaig.Manager.TimeShift | lean/pkgs/aiger/simpaig.c:611-663 | the result under any values is the node read delta steps later, with the cache emptied and all counters exact |
| Simpaig.Manager.Substitute | lean/pkgs/aiger/simpaig.c:545-608 | for assignments without circular dependency the recursion terminates, and the result means the node under every solution of the assignments |
| Simpaig.Manager.AssignIndices | lean/pkgs/aiger/simpaig.c:665-698 | exactly the cone of the node is numbered, consecutively from 1, children before parents |
| Simpaig.IndicesGone | lean/pkgs/aiger/simpaig.c:700-716 | assigning and resetting indices leaves nodes and stack entries as they were |
| Unroll.FrameShift | lean/pkgs/aiger/aigunroll.c:154-167 | shifting the node of a literal by d steps gives a node for the literal d steps later whose variables all belong to that step |
| Unroll.FullSolves | lean/pkgs/aiger/aigunroll.c:141-167 | the states of the run from reset solve all the latch assignments at once |
| Unroll.Unroller.Build | lean/pkgs/aiger/aigunroll.c:93-181 | under any inputs per step and any values of uninitialized latches the result is true exactly when the output is true at some step 0 to k of the run from reset |
| Unroll.Unroller.Expand | lean/pkgs/aiger/aigunroll.c:364-421 | the gates written out are acyclic and compute the result when each input has the value of the variable and step it is named after |
| Expansion.CopyFull | lean/pkgs/aiger/aigunroll.c:364-406 | the target has one gate or one input for every numbered node, and nothing else |
| Unroll.TargetReachable | lean/pkgs/aiger/aigunroll.c:93-421 | the circuit written out is satisfiable if and only if some run of at most k + 1 states from reset ends with a true output |
| Unroll.Unroller.Finish | lean/pkgs/aiger/aigunroll.c:515-522 | after the last handles are dropped simpaig_current_nodes is 0 |
| SmvAig.SimplifySound | lean/pkgs/aiger/smvtoaig.c:2139-2310 | whatever the one-level and two-level rules return means the conjunction |
| SmvAig.StuckExact | lean/pkgs/aiger/smvtoaig.c:2139-2475 | no rule of the given level fires exactly when no operand is constant, repeated, opposite, contained in or contradicted by the other, and the children of both neither clash, resolve nor overlap |
| SmvAig.StoredReduced | lean/pkgs/aiger/smvtoaig.c:2312-2475 | that holds of the operands of every stored conjunction |
| SmvAig.RewriteSound | lean/pkgs/aiger/smvtoaig.c:2312-2475 | every round of the retry loop keeps the conjunction and lowers the summed size, and when it stops no rule applies |
| SmvAig.Manager.NewAnd | lean/pkgs/aiger/smvtoaig.c:2312-2475 | terminates at every level with a node meaning a and b, at most one node is added, and no two nodes share a key |
| SmvAig.Manager.Enlarge | lean/pkgs/aiger/smvtoaig.c:1983-2029 | rehashing keeps every node findable and the keys distinct |
| SmvAig.Manager.Rebuild | lean/pkgs/aiger/smvtoaig.c:3288-3313 | building a conjunction again from its own children returns the same node and adds none |
| ToCnf.Equisatisfiable | lean/pkgs/aiger/aigtocnf.c:196-222 | the polarity-reduced clauses are satisfiable if and only if some inputs make the output true |
| ToCnf.ModelHolds | lean/pkgs/aiger/aigtocnf.c:196-222 | in a model of the clauses every needed literal that is true is true in the circuit under the model's inputs |
| ToCnf.CircuitModels | lean/pkgs/aiger/aigtocnf.c:196-222 | every evaluation with a true output satisfies all clauses |
| ToCnf.Translate | lean/pkgs/aiger/aigtocnf.c:142-227 | counting, numbering and printing together: equisatisfiable under an exact condition, clause count right under an exact condition, with polarities exactly the variables 1 to m occur, without them m and the occurring variables are given by the circuit, and a constant output announces none |
| BmcProof.BoundedExact | lean/pkgs/aiger/aigbmc.c:270-430 | the clauses of bounds 0 to k with the k-th assumption are satisfiable if and only if a constrained run of k + 1 states ends in an unreached bad state or closes a fair lasso for an unreached justice property |
| BmcProof.EmptyJusticeExact | lean/pkgs/aiger/aigbmc.c:352-420 | what a bound asks for is an unreached bad state or a lasso when every unreached justice property has a literal or there is fairness, and any constrained run otherwise |
| BmcProof.MisreportExact | lean/pkgs/aiger/aigbmc.c:371-420 | a model of the bound in which an unreached justice property reads true without a lasso exists if and only if there are several justice properties and some constrained run ends in an unreached bad state with all literals of the property, but not all fairness literals, met in its loop |
| BmcProof.ReportedJustice | lean/pkgs/aiger/aigbmc.c:371-420 | every justice property read as true under the last assumption has a lasso in the run of that very model, is empty without fairness, or is such a slip |
| BmcNet.WitnessedKept | lean/pkgs/aiger/aigbmc.c:544-546 | the reencoded model has a constrained run of k states that witnesses a property exactly when the circuit that was read has one |
| BmcNet.Prepare | lean/pkgs/aiger/aigbmc.c:524-546 | there is no model exactly when no bad state or justice property is left after moving outputs; otherwise the model is the circuit that was read under new numbers, with all root literals keeping their values |
| BmcNet.ReadExact | lean/pkgs/aiger/aigbmc.c:524-612 | the clauses of bounds 0 to k for the reencoded model are satisfiable under the k-th assumption if and only if the circuit that was read, in its own numbers, has a constrained run of k + 1 states that ends in an unreached bad state or closes a fair lasso |
| AigBmc.Encoder.Encode | lean/pkgs/aiger/aigbmc.c:270-430 | the clauses added for a frame are those of the specification under a numbering of fresh variables, and the call fails exactly for unsupported resets |
| AigBmc.Encoder.Exact | lean/pkgs/aiger/aigbmc.c:555-612 | the integer clauses have a model with the last assumption true exactly when a witness of that bound exists |
| AigBmc.Encoder.Reach | lean/pkgs/aiger/aigbmc.c:562-588 | exactly the properties whose literals are true are recorded, and one constrained run ends in all of these bad states and, save for slips and empty properties without fairness, closes lassos for all of these justice properties |
| Unconstraint.LatchInvariant | lean/pkgs/aiger/aigunconstraint.c:125-142 | in every run of the new circuit the new latch is on exactly after a violated constraint |
| Unconstraint.BadPreserved | lean/pkgs/aiger/aigunconstraint.c:125-164 | a bad state can hold at step t of a run constrained up to t if and only if its guarded copy can hold at step t of the constraint-free circuit |
| Unconstraint.Target.Eliminate | lean/pkgs/aiger/aigunconstraint.c:84-164 | builds that circuit by adding inputs, latches, gates and bad states, and refuses exactly the other kinds of models |
| Tristate.ContainsIsHas | cbmc/tnum.c:27-35 | the arithmetic membership test is agreement on the known bits |
| Tristate.AddBest | cbmc/tnum.c:96-106 | the sum is valid, contains every concrete sum, and lies within every valid tnum that does |
| Tristate.SubBest | cbmc/tnum.c:108-118 | likewise for differences |
| TristateOps.OpBest | cbmc/tnum.c:120-154 | bitwise and, or and xor are best abstractions |
| TristateOps.UnionJoin | cbmc/tnum.c:187-194 | the union contains both operands and lies within every valid tnum that does |
| TristateOps.InIsWithin | cbmc/tnum.c:252-258 | the inclusion test decides inclusion of the sets |
| TristateOps.IntersectExact | cbmc/tnum.c:178-185 | operands with a common member have an intersection that contains exactly the common members |
| TristateLoops.MulSound | cbmc/tnum.c:156-173 | the product is valid and contains every concrete product modulo 2^w |
| TristateLoops.MulMethod | cbmc/tnum.c:156-173 | the loop terminates with the specified product |
| TristateExact.MulStepwise | cbmc/tnum.c:156-173 | the product is the only tnum reached by adding each partial product with the best abstraction of the sums, and that sum to the product of the known ones |
| TristateExact.MulKnownBits | cbmc/tnum.c:156-173 | where the low j bits of both operands are known, so are those of the product |
| TristateExact.MulKnown | cbmc/tnum.c:156-173 | known operands have the known product |
| TristateLoops.ShlSound | cbmc/tnum.c:196-215 | contains every left shift by a contained amount modulo the instruction width |
| TristateExact.ShlLoopStepwise | cbmc/tnum.c:196-215 | the six steps are the only ones that are each the best abstraction of moving a member by the next bit of the amount |
| TristateExact.ShlKnown | cbmc/tnum.c:196-215 | a known amount gives the fixed shift by it modulo the instruction width |
| TristateLoops.LshrSound | cbmc/tnum.c:217-236 | likewise for right shifts |
| TristateExact.LshrLoopStepwise | cbmc/tnum.c:217-236 | likewise, step by step |
| TristateExact.LshrKnown | cbmc/tnum.c:217-236 | likewise, for known amounts |

## Left out

- LratCheck.Checker.Verify: stops at the first failed line, while main goes on with stamps
  that may be stale; the printed VERIFIED, which does not depend on the result of the
  check, is not modelled, and proof lines arrive parsed and complete.
- LratReader.PrefilledSound: one direction only for a whole run, since an uncovered step
  can be harmless for a particular proof; the exact condition is per step.
- Druplig.Checker.CheckRedundant: no flushing of satisfied clauses, signatures, tracing or
  statistics; an assertion that fails aborts the program, so a rejected clause ends the
  promise of CheckAndAddRedundant.
- Druplig.Checker.Forget: when the last recorded inconsistency is deleted after it cut a
  propagation short, the assertion at druplig.c:803 stops the next check, and after further
  additions nothing is promised of the answers.
- DratTrim.Solver.RupCheck: lemmas that are satisfied already or not active, the search for
  resolution candidates, the backward driver, proof shuffling, reduction of literals and the
  parser are not part of this model.
- DratTrim.Solver.PropagateUnits: called at the start only, with the unit clauses of the
  formula; lemmas that became units under others are not among them.
- Aiger.Circuit.Reencode: type entries above the new highest variable are gone rather than
  stale, symbols follow their literals, the comparison of qsort is on unbounded literals,
  and literals do not wrap around.
- AigerBinary.DecodeFaithful: a sixth byte shifts by 35, which C leaves undefined; such
  codes are only known to be refused or to end in that shift. Character and line counts of
  the reader are not modelled.
- Simpaig.Manager.Dec: counters do not saturate, and the hash chains are a lookup by
  content.
- Unroll.Unroller.Expand: input names are the pairs of variable and step; printing and the
  symbols of the source model are not modelled.
- SmvAig.Manager.Rebuild: the walk over the whole graph around it, node numbers that are
  freed, and the SMV front end.
- ToCnf.Translate: reference counters do not overflow, and the comment lines with the
  variable map are not modelled.
- BmcNet.Prepare: reading the file, options and warnings; symbols follow their literals.
- AigBmc.Encoder.Reach: the solver's values form a total assignment; witness printing and
  the option to stop without one are not modelled.
- Unconstraint.Target.Eliminate: names, and the reencoding and writing of the result.
- TristateLoops.ShlSound: instruction widths are the powers of two up to 64.
- tnum_arshift, tnum_cast, the subregister operations and tnum_is_aligned: short
  combinations of the operations above.
- aigand, aigor, aigjoin, aigmove, aigsplit and the other small AIGER programs: copies and
  renamings of circuits.
- The lingeling and picosat front ends, and bliftoaig.c: parsing, options and calls into
  solvers.
