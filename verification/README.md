# A verified model of the code-graph indexer

The repository indexes C and C++ code into a graph of symbols and answers questions about it. This
Dafny project models the parts of it that compute something hard to see by reading one function,
and proves what they guarantee for every input.

| modules | what they model |
|---|---|
| Reachability, CallGraph, WalkDepths | paths and distances; the depth-first call-graph walk on an explicit stack of iterators; on which graphs its depths are distances |
| BreadthFirst, Searches, GraphWalk | one breadth-first discovery order, and the five searches and path reconstructions that follow it |
| VisitOrder | the two orders by a rule that says what comes next |
| Closures | transitive callers, callees, bases and derived classes of CXQ, dispatch targets over the override relation |
| Provenance, GammaEngine, GammaRuns, GammaKeys, GammaLimit, GammaStatic | the type-flow engine, what its runs cover, which edges and keys they bind, what its limit loses, and what its entries hold |
| Devirtualization, ClosedWorldRows, PruneSoundness | the closed-world lookup with its memo, the prune decision and the pruned walk; when they miss a target |
| ReceiverReading, PrunedChildren | which key a receiver is read through and what it admits; which children a node has and in which order |
| SymbolicEvaluator, LoopFreeC, EvaluatorErrors | symbolic execution of loop-free C, the interpreter its terms are proved against, and what its errors mean |
| CxqSyntax, CxqLexer, CxqGrammar, CxqParser, CxqRoundTrip, CxqNormalForm, CxqTruncation | the query language from characters to trees and back, and which error a list of tokens raises |
| CxqTokens, CxqConcrete | which texts are tokens, and every way a query can be written |
| MatchExecutor, MatchMeaning | match and rank queries over one shared mutable row, and what they mean on the graphs of calls and of derived classes |
| Layer0, TemplateCollapse, ClassKinds | the tables the entity roll-up reads, the collapse onto primary templates, the interface tests |
| FieldTypes, FieldTypeShapes, FieldTypeReading | the string-based classifier of field types and the type trees it is proved to read |
| EntityTable, EntityFacts, EntityRollup, RollupProperties, ReturnTypes | the keyed upserts, what each phase makes of a row, the pass as an object, the group-by it computes, and which return types it counts |
| RollupRows | which rows the table ends with, by relations on the Layer-0 tables |
| Signatures, SignatureRules | the splitter and the signature parsers, and what they do on any text by counting brackets |
| FsPaths, PathRules, IncludeAliases | POSIX paths, the rules of their normal form, and the encoder and decoder of include-path labels |
| Options, Text | optional values and string helpers |

Objects that the source updates in place (the engine, the decider, the evaluator and its
environments, the parser, the matcher, the roll-up and its cache) are classes here; loops are
methods with loops. Each is tied by its postcondition to a function of its inputs or its old state,
and the theorems are about those functions. Ghost parameters of methods carry proof state only.

Where the code and its own documentation differ, the model follows the code:

- `callgraph` documents its depth as the distance in call edges. The walk is depth-first, so that
  holds for every order of the callees exactly on graphs where all non-repeating paths from the root
  to a node have one length (WalkDepths.DepthIsDistanceIff), and only there is the walk bounded by N
  the N-hop ball with its distances for every N (WalkDepths.BoundedWalkIsBallIff).
- `K_LIMIT` is documented as a sound fallback to TOP. The code stops binding instead: a callee's
  entries admit what all call edges into it resolve exactly when no more than K_LIMIT of them leave
  callables the root reaches (GammaRuns.EveryEdgeAdmittedIff, GammaLimit.ConstructedAdmittedIff).
  Beyond that classes and dispatch targets are lost (GammaEngine.LimitLosesAClass,
  Devirtualization.LimitDropsATarget).
- `decide` is documented as sound on every path, and within the limit targets are lost in two more
  ways. The call sites of a caller to one method are one edge, and its first site decides for all
  (Devirtualization.AllSitesServedIff, PruneSoundness.SecondSiteIsOverlooked). A parameter that is
  also forwarded is seeded with its static type, which is looked up before the position
  (GammaKeys.KeyBoundByIndexIff, PruneSoundness.ForwardingDropsATarget). Which key is read, and what
  it admits, is ReceiverReading.ReceiverReads and ReceiverReading.ReceiverSetIff.
- `_closed_world_param` is documented as the join over all visible callers. Of the calls one caller
  makes only the first row at the position is joined (ClosedWorldRows.CoversRowsAlwaysIff,
  ClosedWorldRows.SecondRowIsOverlooked).
- The engine documents itself as propagation over the query layer. As long as no declaration is used as two
  different things, what a call passes is fixed by its own rows, and nothing is carried on into a
  third callable (GammaStatic.EntriesAreStaticIff).
- `implements+` is evaluated reflexively, unlike the other `+` operators
  (MatchExecutor.ImplementsIsReflexive).
- `parse` documents the parse error for all syntax errors. Some token lists that stop short of a
  query raise the index error instead: exactly those that stop where the parser takes the next token
  without looking (CxqTruncation.IndexErrorIff).
- `_entity_type` says a derived type matches the stored one either way. It does not for namespaces
  (ClassKinds.StoredIsDerivedIff).
- The classifier says raw pointers and references associate. Behind a known smart pointer or
  container template the suffix is not seen, and a qualifier after the last `*` hides it from any
  other type, so that `Foo *const` reads as a value (FieldTypeReading.PointerAssociatesIff).
  A function pointer reads as a value too (FieldTypeReading.CallbackComposes).
- By-value returns are recorded for methods that return a pointer, a reference or a container as
  well (ReturnTypes.ByValueIff).
- A signature whose name or return type has parentheses of its own is never read back: the first of
  them is taken for the argument list. Neither is one whose name has a blank, such as
  `operator new` (Signatures.FullRoundTripIff).
- `_map_include_values` says all other tokens are copied verbatim. A trailing include flag without
  a value gains an empty one (IncludeAliases.MapIncludeIdentityIff).

## Model

| member | source | states |
|---|---|---|
| CallGraph.Walk | project/indexer/model.py:1691-1743 | The iterator-stack walk, which takes one callee off the top iterator per turn, yields exactly the (node, depth) sequence of the recursive pre-order walk with one shared seen set, on every graph, cyclic or not |
| CallGraph.WalkIsSound | project/indexer/model.py:1709-1743 | No node is yielded twice, the root never is, and every yielded depth is the length of a real call path that respects the bound |
| CallGraph.WalkReachesExactly | project/indexer/model.py:1709-1715 | Without a bound the walk yields precisely what the root reaches, itself excepted |
| CallGraph.DepthCanExceedDistance | project/indexer/model.py:1691-1743 | A four-node graph on which a yielded depth is not the distance, and on which the walk bounded by 2 misses a node two edges away |
| WalkDepths.DepthIsDistanceIff | project/indexer/model.py:1701-1702 | Whatever the order of the callee lists every yielded depth is the distance from the root, if and only if any two non-repeating paths from the root to one node have the same length; the documentation says it always is |
| WalkDepths.BoundedWalkIsBallIff | project/indexer/model.py:1701-1715 | For every bound N and every order of the callees the walk yields exactly the nodes within N edges, the root excepted, each at its distance, under the same condition and only under it |
| WalkDepths.BallIsExpandedIff | project/indexer/model.py:1714-1743 | For one bound N: whatever the order of the callees, the callees of every node closer than N are looked at, if and only if no such node has a non-repeating path of exactly N edges from the root |
| WalkDepths.NoDetourCovers | project/indexer/model.py:1714-1715 | Without such detours the walk bounded by N yields everything within N edges, in any order of the callees |
| WalkDepths.DetourHidesCallee | project/indexer/model.py:1714-1743 | A detour of N edges to a node through which every short path enters one of its callees makes the walk bounded by N miss that callee for some order, although it is within N edges |
| VisitOrder.WalkIsDeepestFirst | project/indexer/model.py:1716-1743 | The walk is the one list of steps this rule allows, stated without a stack: next comes the first new callee of the deepest node, on the trail from the root to the node met last, that still has one within the bound |
| BreadthFirst.SearchOrderExact | cidx-graph/cidx_graph/graph.py:374-402 | The breadth-first discovery order behind all searches lists exactly the nodes within the bound, each once, at its exact distance, nearest first |
| BreadthFirst.EntryPath | cidx-graph/cidx_graph/graph.py:394-397 | Following recorded parents from any discovered node gives a path from the start of exactly the recorded depth |
| VisitOrder.SearchIsEarliestFirst | cidx-graph/cidx_graph/graph.py:387-401 | The discovery order is the one list this rule allows: next comes the first new neighbour of the entry met earliest that still has one within the bound |
| Searches.BfsPath | cxq/executor.py:377-402 | Returns an edge path with the fewest edges from source to destination, or nothing exactly when there is no path |
| Searches.EntityWalk | project/indexer/entity_graph.py:706-729 | Streams exactly the entities within the depth bound, nearest first, each once and never the start |
| GraphWalk.Walk | cidx-graph/cidx_graph/graph.py:374-402 | What is recorded, depths and parents, is a first stretch of the breadth-first discovery order over the row-limited graph, so every depth is the exact distance even when the node limit cuts the walk; uncut, the nodes are exactly the ball of the given radius; an unknown start gives the empty traversal |
| GraphWalk.UncutMeansUnlimited | cidx-graph/cidx_graph/graph.py:392-401 | With duplicate-free rows a walk that stayed below its node limit was not hurt by the per-node row limit either: it holds the ball of the unlimited graph |
| GraphWalk.LimitedRows | cidx-graph/cidx_graph/graph.py:391 | A row limit keeps the first rows, as many as it says, and all of them when it is negative |
| GraphWalk.Reaches | cidx-graph/cidx_graph/graph.py:404-436 | Returns a shortest path of at most `max_depth` edges, or nothing exactly when there is none (or an end is unknown) |
| GraphWalk.FoundChain | cidx-graph/cidx_graph/graph.py:427-431 | The parent chain from a found target, reversed, is a shortest path of exactly the recorded depth |
| GraphWalk.ComparePaths | cidx-graph/cidx_graph/graph.py:404-436 | Each search on the graph its own query answers: the one whose graph holds more edges finds a path wherever the other does, and no longer a one; on the same graph `reaches` finds a path exactly when `_bfs_path` finds one within the bound, of the same length |
| GraphWalk.PathTo | cidx-graph/cidx_graph/graph.py:573-586 | The reconstructed path of a reached symbol is a shortest path with exactly its recorded depth in edges; other symbols give the empty list and a traversal without parents the error |
| Closures.CallersClosure | cxq/executor.py:142-160 | The stack work list collects exactly the entities that reach the argument over one or more edges, plus itself when reflexive |
| Closures.CallsClosure | cxq/executor.py:120-139 | The closure built from the unbounded walk holds exactly what the entity reaches over one or more edges, never itself unless reflexive |
| Closures.InheritsClosure | cxq/executor.py:163-193 | On an acyclic graph the recursion over derived or base classes collects exactly what the entity reaches over one or more edges, plus itself when reflexive |
| Closures.ClosuresAreConverse | cxq/executor.py:120-160 | Over converse edge tables, b is in the closure of a over calls exactly when a is in the closure of b over callers |
| Closures.CompareClosures | cxq/executor.py:120-160 | The two computed closures agree as converses off the diagonal; on it the caller closure holds f exactly when f lies on a call cycle while the `calls+` set never does |
| Closures.DispatchTargets | cidx-graph/cidx_graph/graph.py:494-521 | Exactly the method and its transitive overriders that are not pure, each once, in breadth-first order; nothing for an unknown method |
| Provenance.JoinAtGrows | project/indexer/model.py:1166-1172 | A join into a key never removes a class from any key, never leaves TOP, and puts the joined key above what was joined in |
| GammaEngine.Engine.Analyse | project/indexer/model.py:1204-1214 | The engine object ends in the state of the recursive specification of the analysis, on every call graph |
| GammaEngine.Engine.Visit | project/indexer/model.py:1216-1231 | One visit updates environment, visited contexts and counters as specified; it terminates because a context is entered once |
| GammaEngine.Engine.SeedLocals | project/indexer/model.py:1233-1257 | Only construct arguments and typed local or this arguments are seeded, at the keys of the entered context |
| GammaEngine.Engine.BindAndVisit | project/indexer/model.py:1307-1386 | Past the limit nothing changes; otherwise all positions of the edge are bound, the count goes up by one and the callee is visited |
| GammaEngine.Engine.BindPosition | project/indexer/model.py:1342-1383 | A position is joined with the union of its resolved arguments, or TOP as soon as one is TOP, before its declaration keys are |
| GammaEngine.GroupByPosition | project/indexer/model.py:1334-1340 | Grouping arguments by position keeps exactly the arguments of each position in order and counts positions up to the greatest |
| GammaEngine.AnalysisExact | project/indexer/model.py:1204-1386 | In every run each context is entered once, as many edges are processed as leave the entered contexts, no callee is bound more than K_LIMIT times, and each positional entry is exactly the join of what the bound edges resolved |
| GammaRuns.RunCoversReachable | project/indexer/model.py:1204-1231 | The contexts a run enters are exactly the callables the root reaches along call edges, and for every callee the run processes exactly the call edges into it out of those |
| GammaRuns.EdgeIgnoredIffOverLimit | project/indexer/model.py:1328-1332 | A call edge into a callee is ignored if and only if more than K_LIMIT call edges lead into it from callables the root reaches; otherwise all of them are bound |
| GammaRuns.EveryEdgeAdmittedIff | project/indexer/model.py:1307-1386 | All call edges into a callee from callables the root reaches are bound, and its final positional entries are above everything they resolved, if and only if they number at most K_LIMIT |
| GammaLimit.ConstructedAdmittedIff | project/indexer/model.py:1307-1386 | Whatever argument rows the call edges carry, the final entries of a callee admit every object constructed in a call of it out of what the root reaches, if and only if those calls are at most K_LIMIT edges |
| GammaKeys.EdgeBoundIff | project/indexer/model.py:1307-1332 | Within the limit of its callee a call edge is bound if and only if the root reaches its caller |
| GammaKeys.KeyBoundIff | project/indexer/model.py:1233-1257 | In every run a declaration or type key of a callable is bound at the end, if and only if the callable is reached and a row of a call it makes seeds the key, or a row of a bound call edge into it names it |
| GammaKeys.KeyBoundByIndexIff | project/indexer/model.py:1233-1386 | Within the limit that is decided by the calls and rows of the index alone |
| GammaStatic.EntriesAreStaticIff | project/indexer/model.py:1259-1386 | Where every declaration is one thing in all rows, the final entries admit exactly the classes that the rows of the call edges into the callee stand for by themselves, in whatever order the edges are processed; no set is carried from one callable through a second into a third |
| GammaStatic.RowsStayBelowEntries | project/indexer/model.py:1204-1386 | Then the result is a fixpoint: every row of a reached call, resolved again in the final environment, is what it was when it was bound, and the entry of its parameter admits it within the limit |
| GammaStatic.OrderDecides | project/indexer/model.py:1216-1231 | Without that the order can decide: of two programs that differ in the order of two call edges, whose rows use one declaration as two things, one leaves a single class in the entry and the other TOP |
| GammaRuns.RunOnlyGrows | project/indexer/model.py:1166-1231 | A run leads from the empty environment to its result by single acts, entering a callable or handling one call edge of an entered one; the invariant of the engine holds in every state, and from any of them to any later one no bound key loses a class and none leaves TOP |
| GammaEngine.LimitLosesAClass | project/indexer/model.py:1140-1142 | With four callers the fourth class is lost: the limit ignores the edge, it does not fall back to TOP as its comment says |
| GammaEngine.FourCallersExist | project/indexer/model.py:1140-1142 | Such a program exists: four callers, each constructing another class for the one parameter |
| Devirtualization.ClosedWorldExact | project/indexer/model.py:1441-1494 | The closed-world set of a parameter is TOP exactly without a known callee, without a call edge into it, or when the first row at the position of some call edge is missing or unknowable; otherwise the exact union over the first rows of all call edges |
| ClosedWorldRows.CoversRowsIff | project/indexer/model.py:1441-1494 | In one environment the set is above what every row of every call edge resolves to, if and only if it is TOP or each class some row resolves to is passed by the first row of some edge |
| ClosedWorldRows.CoversRowsAlwaysIff | project/indexer/model.py:1441-1494 | In every environment it is, if and only if, on the rows alone, the callee is unknown, some edge has no knowable first row, or every row has the source of the first row of some edge |
| ClosedWorldRows.LikeRowsAreCovered | project/indexer/model.py:1464-1465 | So it is whenever no call edge has two rows of different sources at the position |
| ClosedWorldRows.SecondRowIsOverlooked | project/indexer/model.py:1463-1468 | A caller that makes two calls, one with a class 11 and one with a class 12, contributes 11 only, although grouping its rows, as the propagation does, gives both |
| Devirtualization.Decider.ClosedWorldParam | project/indexer/model.py:1441-1494 | The memoised computation, with its in-flight TOP marker, gives the answer of the unmemoised join and keeps the memo truthful |
| Devirtualization.Decider.ReceiverTypes | project/indexer/model.py:1392-1439 | The type set of a site is the one the lookup order prescribes over the fixed environment, memo or not |
| ReceiverReading.ValueIsItsType | project/indexer/model.py:1405-1411 | A member, global or call result held by value is of its static type, whatever is bound |
| ReceiverReading.DeclarationComesFirst | project/indexer/model.py:1412-1415 | The set of any other receiver whose declaration key is bound is that entry, whatever the type and position keys hold |
| ReceiverReading.TypeComesSecond | project/indexer/model.py:1416-1420 | Without a bound declaration it is the entry of the static type, whatever the position key holds |
| ReceiverReading.PositionComesThird | project/indexer/model.py:1421-1426 | With neither bound it is the entry of the parameter position |
| ReceiverReading.NothingBound | project/indexer/model.py:1427-1439 | With no key bound an object built on the spot is of its type, a local parameter in a closed world is what all callers pass, and anything else is unknown |
| ReceiverReading.ReceiverReads | project/indexer/model.py:1392-1439 | Within the limit the calls and rows of the index decide which of these keys the finished environment is read through |
| ReceiverReading.ReceiverSetIff | project/indexer/model.py:1392-1439 | Where no declaration is used as two things, the classes the set admits are decided by the index: those that declaration, type or incoming rows stand for, whichever is read |
| ReceiverReading.UnknownDeclarationKeepsAll | project/indexer/model.py:1412-1415 | A receiver whose declaration something unknown was passed to keeps every target, though a single class may be bound under its static type |
| Devirtualization.Decider.DecideAt | project/indexer/model.py:1500-1540 | The decision with memo is the decision of the specification |
| Devirtualization.DecideKeepsFeasible | project/indexer/model.py:1500-1540 | A candidate is dropped only when the site has a finite type set without its selecting class; with a TOP set everything is kept |
| Devirtualization.FeasibleExact | project/indexer/model.py:1525-1540 | The kept candidates are exactly those selected by a class of the set |
| ReceiverReading.KeptOnIndexIff | project/indexer/model.py:1500-1540 | When candidates are dropped, those kept are the ones selected by a class the receiver can be on the index |
| PrunedChildren.DecidesIff | project/indexer/model.py:1500-1540 | Something is dropped only of a method that may be narrowed, for a finite set that selects some candidate; then the candidates it selects are kept, and no others |
| Devirtualization.Decider.Kids | project/indexer/model.py:1859-1921 | Each static callee is followed by its targets kept for the first site of the call edge, or by all dispatch targets when nothing is pruned, in the prescribed order |
| PrunedChildren.PrunedChildIff | project/indexer/model.py:1859-1921 | The children of a node are exactly its static callees and, for each virtual one, the targets the set at the first call site selects, or all its dispatch targets where that set drops none |
| PrunedChildren.ChildrenInOrder | project/indexer/model.py:1859-1921 | They come callee by callee: the callee, then its targets in the order of the selection map or of the dispatch targets, itself left out |
| PrunedChildren.ExpandedChildIff | project/indexer/model.py:1796-1836 | Without pruning a virtual callee is followed by all its dispatch targets, and no other callee by any |
| Devirtualization.PrunedWalk | project/indexer/model.py:1838-1956 | The pruned walk yields the pre-order walk over the pruned child lists |
| Devirtualization.PrunedWalkIsBetween | project/indexer/model.py:1796-1956 | From any root the nodes over static callees are contained in those of the pruned walk, and those in the nodes of the walk that expands every dispatch target |
| Devirtualization.AllSitesServedIff | project/indexer/model.py:1877-1885 | The call edge of a caller to one method carries all its call sites and is decided by the first. Whatever the candidates of the method, all targets admitted at any of the sites are among the children, if and only if there is no site, the method is not prunable, or the set of the first site is TOP, is empty or contains that of every other site |
| Devirtualization.LikeSitesAreServed | project/indexer/model.py:1877-1885 | So they are when all sites of the edge have one type set |
| Devirtualization.AdmittedTargetIsVisited | project/indexer/model.py:1859-1956 | The target selected by a class that some site of a call edge out of a visited node admits is visited, when the first site serves that site in this sense |
| ReceiverReading.IndexTargetIsVisited | project/indexer/model.py:1204-1540 | Engine and prune together, on the index alone: the target selected by a class that the receiver at the first site of a visited call can be is visited, whether it is read through declaration, type or position |
| Devirtualization.LimitDropsATarget | project/indexer/model.py:1500-1540 | With four callers, each passing an object of its own class into one virtual call, the pruned walk of that program visits the third target and never the fourth |
| PruneSoundness.SecondSiteIsOverlooked | project/indexer/model.py:1877-1885 | A caller that makes two virtual calls of one method on two parameters: the pruned walk visits the target of the class passed to the first and never that of the class passed to the second |
| PruneSoundness.ReadByPositionIff | project/indexer/model.py:1392-1439 | Whether a receiver is looked up by its parameter position in the finished environment is decided by the index: exactly when it is no member, global or call result held by value, has that position, and its declaration and type are neither seeded by a row of a call out of the caller nor named by a row of a call into it; for callers within the limit |
| PruneSoundness.PassedTargetIsVisited | project/indexer/model.py:1307-1386 | Engine and prune together: where the receiver at the first site of a virtual call is so looked up, and at most K_LIMIT call edges lead into the caller from callables the root reaches, every target selected by a class some processed edge passed is visited |
| PruneSoundness.ForwardingDropsATarget | project/indexer/model.py:1233-1257 | A function that calls a virtual method on its parameter and also forwards the parameter: the forwarding row seeds the static type, that is found before the position, and the target of the one class ever passed is never visited, within the limit |
| SymbolicEvaluator.Evaluator.Run | scripts/z3_ast_prover.py:108-121 | The evaluator object returns the parameters and the term of the last executed return, or the error, of the functional symbolic execution |
| SymbolicEvaluator.Evaluator.ExecStmt | scripts/z3_ast_prover.py:123-151 | Every statement kind updates the environment in place and the recorded return as the specification says |
| SymbolicEvaluator.Evaluator.ExecIf | scripts/z3_ast_prover.py:135-145 | Each branch runs on its own copy, then the names bound before are merged |
| SymbolicEvaluator.Evaluator.MergeInto | scripts/z3_ast_prover.py:143-145 | A name keeps the shared object or becomes an if-then-else; names the branches introduced are dropped; branches of differing sorts are the error, as they are for bit-vectors (in the integer model the solver turns the Boolean one into 1 or 0 instead) |
| SymbolicEvaluator.Evaluator.EvalExpr | scripts/z3_ast_prover.py:154-182 | Expressions build their term and update the environment on assignment, right operand first |
| LoopFreeC.TermMeansReturnValue | scripts/z3_ast_prover.py:85-182 | For every function of the supported subset the closed term, evaluated at any inputs under any interpretation of the operators, equals what running the statements at those inputs returns |
| LoopFreeC.StmtCorrect | scripts/z3_ast_prover.py:123-151 | Every checked statement keeps the symbolic and the running state in agreement for every name in scope |
| LoopFreeC.MergeAgrees | scripts/z3_ast_prover.py:138-145 | The merged environment agrees with the state of whichever branch the condition selects |
| EvaluatorErrors.RunOutcomes | scripts/z3_ast_prover.py:108-182 | Every outcome says something of the source text: a term comes only of readable code with a return in it, whose names are parameters or set somewhere; a missing name is read and is no parameter; code is unreadable when that is the error; no return was recorded only when none stands in it |
| EvaluatorErrors.BuiltIff | scripts/z3_ast_prover.py:85-181 | An operator is built on integers for arithmetic and order, on two operands of one sort for equality, on Booleans for logic; a conditional on a Boolean test and two branches of one sort |
| EvaluatorErrors.RightOperandFirst | scripts/z3_ast_prover.py:174-181 | An operand on the right is read before an assignment on the left takes effect, and one on the left after an assignment on the right |
| EvaluatorErrors.UninitialisedIsApart | scripts/z3_ast_prover.py:128-134 | The variable of an uninitialised local is no parameter and no other local |
| EvaluatorErrors.IdleIfStays | scripts/z3_ast_prover.py:135-145 | An `if` whose branches leave all names as they were changes nothing, whatever the sort of its test |
| LoopFreeC.ShadowingFails | scripts/z3_ast_prover.py:128-134 | Outside the subset: an inner declaration overwrites the outer variable it hides |
| LoopFreeC.LazyAssignmentFails | scripts/z3_ast_prover.py:174-181 | Outside the subset: an assignment in the right operand of a logical operator takes effect although C would skip it |
| LoopFreeC.EarlyReturnFails | scripts/z3_ast_prover.py:146-147 | Outside the subset: a return inside a branch does not end the function |
| CxqLexer.Tokenize | cxq/parser.py:141-197 | The index loop computes the lexer function, unterminated strings and unexpected characters being the error |
| CxqLexer.LexConserves | cxq/parser.py:141-197 | The text is its tokens in order and unchanged, with nothing but blanks before, between and after them |
| CxqLexer.SliceIsToken | cxq/parser.py:155-195 | Whatever slice a branch cuts off is itself exactly one token when read alone |
| CxqLexer.LexSpaced | cxq/parser.py:141-197 | Any list of tokens written with one blank between them lexes back to that list |
| CxqLexer.RelexedIsSame | cxq/parser.py:141-197 | Re-spacing the tokens of a text does not change what it lexes to |
| CxqTokens.TokenIff | cxq/parser.py:141-197 | A text is one token exactly when it is a quoted text without its quote inside, one of the symbols, digits, a word of letters, digits, underscores and colons that starts with no digit or colon, or a closure or metric word with its suffix |
| CxqTokens.CutsLongest | cxq/parser.py:155-195 | What is cut off is the longest token at its place, and nothing where no token starts |
| CxqTokens.LexIff | cxq/parser.py:141-197 | A text lexes to a list exactly when it is blanks and those tokens, each the longest at its place |
| CxqParser.Parser.ParseOrExpr | cxq/parser.py:380-386 | From any position the left-associative `or` loop gives the tree, the position or the failure of the grammar |
| CxqParser.Parser.ParsePrimaryPred | cxq/parser.py:403-429 | Parenthesised, closure and attribute predicates are told apart by the next two tokens as the grammar says |
| CxqParser.Parser.ParseBindings | cxq/parser.py:352-363 | The binding loop, which eats a comma that no kind follows, agrees with the grammar |
| CxqParser.Parser.ParseQuery | cxq/parser.py:243-259 | The parser object accepts exactly what the grammar accepts, with its tree, and raises its failures; trailing tokens are an error |
| CxqParser.Parse | cxq/parser.py:511-518 | Strip, tokenise and parse compute the specified result for every text |
| CxqConcrete.ParsesIff | cxq/parser.py:243-503 | A list of tokens parses to a tree if and only if it is a way of writing a query that means the tree: values bare or quoted with either quote and losing quotes only when quoted, list items with or without commas, any redundant parentheses, a comma behind the bindings, a rank in front or behind |
| CxqConcrete.TextParsesIff | cxq/parser.py:511-518 | And a text if and only if its tokens are |
| CxqConcrete.LimitIff | cxq/parser.py:300-316 | A limit is a number exactly when it is that number in decimal behind any zeros |
| CxqRoundTrip.TokensRoundTrip | cxq/parser.py:243-503 | A well-formed query printed with minimal parentheses, ranks written either way, parses back to the same tree |
| CxqRoundTrip.OrBack | cxq/parser.py:380-429 | A printed predicate in front of any tokens parses to the tree it was printed from, left associativity and precedence included |
| CxqNormalForm.TextRoundTrip | cxq/parser.py:511-518 | The same law down to characters: printed text parses to its tree |
| CxqNormalForm.ParsesExactlyWellFormed | cxq/parser.py:243-518 | The trees that texts parse to are exactly the well-formed ones |
| CxqNormalForm.PrintingNormalises | cxq/parser.py:511-518 | Parsing, printing and parsing again changes nothing |
| CxqNormalForm.TemplateKindsAreUnreachable | cxq/parser.py:122-123 | The kinds `function-template` and `class-template` can never be parsed, as no token holds a dash |
| CxqTruncation.StopDecides | cxq/parser.py:243-503 | A machine that reads one token at a time decides every token list: accepted exactly when it stops where a query may end, the index error exactly when it stops where the parser takes the next token unchecked |
| CxqTruncation.BeginsQueryIff | cxq/parser.py:243-503 | Some tokens after a list make an accepted query of it if and only if the machine is not dead at its end |
| CxqTruncation.IndexErrorIff | cxq/parser.py:222-225 | The index error is raised exactly by the lists that stop at an unchecked read (after `from`, `to`, `via`, `rank`, `by`, `limit`, `select`, a projection comma or dot, a closure or attribute operator, in `[` and in `count(`); each of them begins a query; the parse error is raised by the lists that begin none and by the beginnings that stop elsewhere |
| CxqTruncation.TextIndexErrorIff | cxq/parser.py:511-518 | The same for texts: the index error is raised exactly by the texts whose characters all form tokens and whose tokens stop at an unchecked read |
| CxqTruncation.BeginningsRaiseBoth | cxq/parser.py:222-237 | `show path from` raises the index error and `show path` the parse error, though both begin a query |
| MatchExecutor.EvalIsLogic | cxq/executor.py:196-220 | Short-circuit evaluation is an error exactly when an atom it looks at is one, and otherwise the logical value of the predicate |
| MatchExecutor.ImplementsIsReflexive | cxq/executor.py:288-299 | `implements+` holds exactly where `inherits+` does and, unlike the other `+` operators, of every entity and itself |
| MatchMeaning.ClosureAtomIs | cxq/executor.py:223-306 | A closure atom is an error exactly when a variable is unbound, its operator is none of the five or it has no side to start from; else `f calls+ g` holds exactly when a path of calls leads from f to another g, `calls*` also of one entity, `f inherits+ g` when f is a proper descendant of g, and a quoted side stands for any entity it finds |
| MatchMeaning.DescentIsConverse | cxq/executor.py:163-193 | Looked for from above or from below, descent finds the same pairs where base and derived edges are converse |
| MatchMeaning.AttrAtomIs | cxq/executor.py:95-117 | An attribute atom is an error exactly for an unknown attribute or a value of the wrong kind; an attribute without value differs from everything and satisfies nothing else |
| MatchMeaning.ConditionIs | cxq/executor.py:196-306 | A condition fails exactly when an atom looked at from left to right is an error, and holds exactly when it is true of the code |
| MatchExecutor.Matcher.Cartesian | cxq/executor.py:530-538 | The recursion over one shared mutable row checks exactly the rows of the pure enumeration in order, stops at the first error, and disturbs only variables still to be assigned |
| MatchExecutor.StaleIsIgnored | cxq/executor.py:530-538 | What the shared row keeps from earlier turns of inner loops never shows in a result |
| MatchExecutor.ExecuteMatch | cxq/executor.py:519-541 | A match returns the selected rows, the last binding of a repeated variable deciding its candidates |
| MatchExecutor.MatchIsExact | cxq/executor.py:519-541 | With distinct variables a match is an error exactly when its condition is one on some assignment of entities of the named kinds, and otherwise returns exactly the assignments that satisfy it |
| MatchMeaning.MatchMeans | cxq/executor.py:519-541 | The same with the condition read on the graphs of calls and of derived classes |
| MatchMeaning.CallsQuery | cxq/executor.py:242-267 | `match K f, L g where f calls+ g` returns exactly the pairs of those kinds, different from each other, with a call path from f to g; `calls*` adds the pairs of one entity |
| MatchMeaning.InheritsQuery | cxq/executor.py:269-299 | `where f inherits+ g` returns exactly the pairs in which f is a proper descendant of g; `inherits*` and `implements+` add the pairs of one entity |
| MatchExecutor.RowAt | cxq/executor.py:530-538 | Rows come with the first variable turning slowest: a row stands at the position its candidates have in their lists, as digits |
| MatchExecutor.LeavesCount | cxq/executor.py:530-538 | One row is checked per combination of candidates, repeated variables or not |
| MatchExecutor.ExecuteRank | cxq/executor.py:425-455 | Ranking scores the distinct entities of its variable by its metric, sorts and cuts as specified, errors first |
| MatchExecutor.SortIsStable | cxq/executor.py:440-441 | The ranking order is by score in the asked direction, a permutation, and keeps equal scores in order |
| MatchExecutor.RankKeepsBest | cxq/executor.py:440-445 | Nothing left out by the limit is ahead of anything kept |
| MatchMeaning.EntitiesAre | cxq/executor.py:425-439 | The entities ranked are exactly those some row gives the variable, each once |
| MatchMeaning.EntitiesByFirstRow | cxq/executor.py:425-439 | They are listed in the order in which rows first give them |
| MatchMeaning.RankIs | cxq/executor.py:425-455 | A ranking holds as many of them as there are or as the limit allows, each with its score |
| MatchMeaning.CallersMetric | cxq/executor.py:457-480 | `callers+` scores an entity by the number of entities that reach it along calls |
| MatchMeaning.CalleesMetric | cxq/executor.py:457-480 | `callees+` scores it by the number it reaches, itself not counted |
| TemplateCollapse.BuildNextHops | project/indexer/entity_rollup.py:135-144 | The ordered scan keeps for every source the hop of least kind and then least destination |
| TemplateCollapse.NextHopsIgnoreOrder | project/indexer/entity_rollup.py:135-144 | The map depends only on which edges there are, not on their order |
| TemplateCollapse.NextHopIff | project/indexer/entity_rollup.py:135-144 | The hop out of a symbol leads along its rows of kind 4, or of kind 5 when it has none, to the least destination |
| TemplateCollapse.RollupState.CollapseId | project/indexer/entity_rollup.py:177-191 | The cached, cycle-guarded walk returns what the uncached one returns and keeps the cache truthful |
| TemplateCollapse.CollapseIsIdempotent | project/indexer/entity_rollup.py:177-191 | Collapsing twice is collapsing once on every map, cyclic ones included |
| TemplateCollapse.ChainCollapsesToItsEnd | project/indexer/entity_rollup.py:177-191 | On a chain that ends, every node collapses to the one node it ends on |
| ClassKinds.ClassifyMembers | project/indexer/entity_graph.py:965-984 | The counting loop over a record's members gives concrete, abstract or interface as its member counts say |
| ClassKinds.ClassificationsAgree | project/indexer/entity_rollup.py:152-205 | Owner sets and member counts classify every record and class template alike |
| ClassKinds.KindByMembers | project/indexer/entity_graph.py:965-984 | Interface means a pure method, no other method and no field among the members; abstract any other record with a pure method; concrete one without |
| ClassKinds.StoredTypeIff | project/indexer/entity_rollup.py:285-305 | Which entity type each kind of symbol is stored with, templates and plain records apart, by the members it declares |
| ClassKinds.StoredIsDerivedIff | project/indexer/entity_graph.py:986-1025 | A stored entity type equals the derived one if and only if the symbol is no namespace; the documentation says always |
| ClassKinds.DerivedTypeIff | project/indexer/entity_graph.py:986-1025 | Which type is derived from kind and classification, and for which kinds none of the record types is |
| ClassKinds.EntityTypes.ClassKindOf | project/indexer/entity_graph.py:947-984 | The cached classification of the entity graph is the one of the owner sets |
| ClassKinds.EntityTypes.EntityTypeOf | project/indexer/entity_graph.py:986-1025 | The cached type is the stored one, or the derived one where no row is stored |
| FieldTypes.SplitTemplateArgs | project/indexer/entity_rollup.py:379-403 | The depth counter loop splits at top-level commas, trims every argument and drops an empty last one |
| FieldTypes.StripToParamCore | project/indexer/entity_rollup.py:531-554 | Trimming suffixes in a loop and peeling wrappers computes the core of a spelling |
| FieldTypeReading.ClassifyReadsShape | project/indexer/entity_rollup.py:421-478 | On the spelling of any type built from templates over plain names with pointer, reference and array suffixes, `const` and `volatile` in front of it or after a pointer, the string classifier gives the kind and multiplicity of the tree, except that a pointer with a qualifier after it reads as a value |
| FieldTypeReading.ClassifyIsShapeIff | project/indexer/entity_rollup.py:421-478 | Kind and multiplicity are those of the type if and only if it is neither a pointer with a qualifier after its last mark nor a container of such |
| FieldTypeReading.WrapperByName | project/indexer/entity_rollup.py:421-478 | By name: `unique_ptr` and `optional` compose an optional one, `shared_ptr` aggregates and `weak_ptr` associates, the sequence and set containers, and `std::map` and `std::unordered_map` with their namespace only, relate many as their last argument does; any other template is a value |
| FieldTypeReading.ArrayComposes | project/indexer/entity_rollup.py:443-445 | A spelling that ends in a bracket is an owned array, whatever stands in front |
| FieldTypeReading.LeadingBlank | project/indexer/entity_rollup.py:372-376 | A blank in front of a spelling changes neither its classification nor its core |
| FieldTypeReading.PointerAssociatesIff | project/indexer/entity_rollup.py:443-478 | A pointer or reference is classified as an association if and only if no qualifier follows its last mark, or, when it is to a template the classifier knows, if and only if that is a `weak_ptr` |
| FieldTypeReading.QualifiedPointerComposes | project/indexer/entity_rollup.py:421-478 | `Foo *const` is classified as a value the object owns |
| FieldTypeReading.ValueOfWrapper | project/indexer/entity_rollup.py:406-418 | The value type of a spelled wrapper, leading qualifiers stripped, is the spelling of its last argument, whatever brackets and commas the arguments hold |
| FieldTypeReading.UnclosedValue | project/indexer/entity_rollup.py:406-418 | Of a template that does not end where the text does, as in `std::vector<T>::iterator`, the whole rest is the value |
| FieldTypeReading.CoreReadsPeeled | project/indexer/entity_rollup.py:531-554 | The core of a spelling is the core of its tree with the erased qualifiers taken out |
| FieldTypeReading.PeeledByName | project/indexer/entity_rollup.py:531-554 | The templates peeled are those same ones, and no others |
| FieldTypeReading.CoreIsNameIff | project/indexer/entity_rollup.py:372-376 | The core is the innermost name if and only if that name does not end in `const` or `volatile` right before a blank and every qualifier after a pointer has a blank after it |
| FieldTypeReading.SubstitutionKeepsShape | project/indexer/entity_rollup.py:882-886 | Binding a template parameter to another plain name never changes the classification |
| FieldTypeReading.NameTakenForQualifier | project/indexer/entity_rollup.py:372-376 | A class whose name ends in `const` or `volatile`, such as `fooconst`, is not found behind a pointer |
| FieldTypeReading.ParenthesisedAssociatesIff | project/indexer/entity_rollup.py:463-478 | A spelling that ends in a parenthesis and opens no container associates if and only if it starts with `weak_ptr`: whatever pointers are inside are not seen |
| FieldTypeReading.CallbackComposes | project/indexer/entity_rollup.py:463-478 | A function pointer such as `void (*)(int)`, for any plain names, is classified as a value the object owns |
| EntityTable.UpsertedIsGroupBy | project/indexer/entity_rollup.py:561-1236 | The upserted table has a row for exactly the keys of the facts, and the row is their aggregate: count, first multiplicity, last access of an inheritance, greatest partial of a use |
| EntityTable.PartialOf | project/indexer/entity_rollup.py:1066-1200 | Of rows with one key the partiality kept is the greatest for uses, the last for creations other than by value, and the first otherwise |
| EntityTable.OrderIsImmaterial | project/indexer/entity_rollup.py:672-681 | Coherent facts in any order give the same table but for the last-written columns of inheritance rows |
| EntityTable.LastWriteWins | project/indexer/entity_rollup.py:672-681 | The exception is real: two orders of two inheritance facts leave different access |
| RollupProperties.InheritanceRight | project/indexer/entity_rollup.py:637-681 | Every inheritance fact runs from a primary to a base and implements it exactly when the base is an interface; its key fixes all columns but access and virtuality |
| RollupProperties.TemplateRight | project/indexer/entity_rollup.py:688-761 | Every specializes or instantiates fact ends in a primary, never at its own source |
| RollupProperties.FieldRight | project/indexer/entity_rollup.py:768-868 | Every field fact goes through its field, from the primary of a record; multiplicity and access are settled by the field alone |
| RollupProperties.CompositionRight | project/indexer/entity_rollup.py:875-976 | Every fact of a named instance starts at the instance and goes through a field of its primary template |
| RollupProperties.ConstructionRight | project/indexer/entity_rollup.py:983-1085 | Every construction or destruction fact joins two different primaries, and is partial exactly for factories |
| RollupProperties.ReturnRight | project/indexer/entity_rollup.py:1087-1128 | Every row of the by-value form joins two different primaries and is partial |
| ReturnTypes.ReturnRowExact | project/indexer/entity_rollup.py:1087-1128 | A method adds its row exactly when the innermost name of its return type, with wrappers, pointers, references and qualifiers taken off, is that of an entity whose primary is not the one of its owner |
| ReturnTypes.ReturnTypeCuts | project/indexer/entity_rollup.py:1097-1103 | The return type is the text before the first parenthesis, trimmed, and the whole text when there is none or it comes first |
| ReturnTypes.ByValueIff | project/indexer/entity_rollup.py:1087-1128 | Where that name is read right, all rows a return type can make stand for a return by value, if and only if it is a bare name behind qualifiers or its innermost name is not that of another entity |
| ReturnTypes.PointerCountsAsValue | project/indexer/entity_rollup.py:1087-1128 | A method that returns a pointer to another entity is recorded as returning it by value |
| RollupProperties.UseRight | project/indexer/entity_rollup.py:1135-1201 | Every use joins two different primaries through the callee, and is partial exactly for a pure one |
| RollupProperties.BefriendRight | project/indexer/entity_rollup.py:1208-1236 | Every befriends fact joins two different primaries |
| RollupRows.OwnerIff | project/indexer/entity_rollup.py:1159-1170 | The owner of a method is the record of its first ownership row |
| RollupRows.ReferentIff | project/indexer/entity_rollup.py:809-834 | A field refers to the least named instance it uses, or else to the referent of its last type argument that has one, or else to the entity its type names |
| RollupProperties.PhasesAreApart | project/indexer/entity_rollup.py:561-1236 | No two phases write the same row, given each field belongs to one record or template, so the count of a row is the work of one phase |
| EntityRollup.Rollup.BuildNodes | project/indexer/entity_rollup.py:308-347 | The node table is rebuilt with one typed row per record, enum, class template and namespace |
| EntityRollup.Rollup.Materialise | project/indexer/entity_rollup.py:594-630 | The whole pass leaves the same two tables whatever they held before: running it again on the same Layer-0 data changes nothing |
| RollupProperties.RollupIsGroupBy | project/indexer/entity_rollup.py:594-630 | After all phases a row exists for exactly the keys some row of some phase is accepted under, it counts the accepted facts (one for inheritance and declares), and its ends obey the relation: no self-edge, collapsed as prescribed, implements exactly for interface bases |
| RollupRows.RowIff | project/indexer/entity_rollup.py:594-630 | A row exists if and only if some Layer-0 row makes it in some phase, by relations stated on the tables alone, and it counts the rows that do |
| RollupRows.InheritsIff | project/indexer/entity_rollup.py:637-681 | A generalizes or implements row from s to d exists exactly when a record with the primary s has the base d, which is an interface for implements |
| RollupRows.InheritanceColumns | project/indexer/entity_rollup.py:672-681 | Its access and virtuality are those of the last such row in table order |
| RollupRows.BindsIff | project/indexer/entity_rollup.py:688-761 | A specializes row exists for a row of kind 4 and an instantiates row for one of kind 5, from the instance to the primary of its template, the two being different |
| RollupRows.HoldsIff | project/indexer/entity_rollup.py:768-976 | A composes, aggregates or associates row exists exactly when a record with the primary s has the field, or s is a named instance of a template that has it, and the field refers to d in that way |
| RollupRows.HoldingColumns | project/indexer/entity_rollup.py:768-868 | Its multiplicity and access are those of the field |
| RollupRows.CreatesIff | project/indexer/entity_rollup.py:983-1128 | A creates or destroys row from s to d exists exactly when a callable of s constructs, by the form its kind stands for, or destroys an object of d, or returns one by value |
| RollupRows.UsesIff | project/indexer/entity_rollup.py:1135-1201 | A uses row from s to d through a method exists if and only if a call or use of that method joins two callables, s being the primary of an owner of the caller and d that of the owner of the method; it counts such rows |
| RollupRows.BefriendsIff | project/indexer/entity_rollup.py:1208-1236 | A befriends row runs from the declaring entity to the friend |
| RollupRows.DeclaresIff | project/indexer/entity_rollup.py:561-592 | A declares row runs from the namespace to the entity it contains |
| RollupRows.InterfaceIff | project/indexer/entity_rollup.py:193-201 | A base is an interface exactly when it has a pure method and neither a method that is not nor a field |
| RollupRows.NodeIff | project/indexer/entity_rollup.py:308-347 | The node table has a row for exactly the structs, unions, classes, enumerations, namespaces and class templates, with the type of each |
| RollupProperties.RowIsSettled | project/indexer/entity_rollup.py:768-1201 | Multiplicity, partiality and, inheritance apart, access and virtuality of a row are determined by its key |
| RollupProperties.NeverBothInheritances | project/indexer/entity_rollup.py:661-664 | No pair of entities is related both by generalizes and by implements |
| RollupProperties.RollupIgnoresOrder | project/indexer/entity_rollup.py:561-1236 | Permuting the scanned edges changes nothing but the last-written columns of inheritance rows, given each method has at most one owning record |
| Signatures.SplitTopLevel | project/indexer/model.py:2584-2602 | The loop over depth and buffer computes the top-level split |
| Signatures.SplitInvertsJoin | project/indexer/model.py:2584-2602 | Splitting undoes joining with a comma and a blank for trimmed, balanced, non-empty arguments |
| Signatures.FindArguments | project/indexer/model.py:2605-2630 | The scan returns the first top-level parenthesis and its partner, or nothing |
| Signatures.FindSplit | project/indexer/model.py:2784-2803 | The scan returns the last blank outside brackets |
| SignatureRules.ArgumentListIff | project/indexer/model.py:2605-2630 | By counting parentheses, on every text: the list found opens at the first one with nothing open before it and closes at the first that leaves nothing open; where there is no such pair nothing is found |
| SignatureRules.SplitBlankIff | project/indexer/model.py:2784-2803 | By counting brackets: a head is split at its last blank outside all of them, or not at all |
| SignatureRules.CutsAtCommas | project/indexer/model.py:2584-2602 | A list is cut at its first comma outside all brackets and again behind it; only a blank last piece is dropped |
| SignatureRules.PartsIff | project/indexer/model.py:2605-2630 | With such a pair the parts are what stands before and between, trimmed, `void` alone being no argument |
| SignatureRules.RefusedIff | project/indexer/model.py:2882-2922 | A text is refused for want of an argument list exactly when it has no such pair, and for want of a name exactly when nothing but blanks stands before it |
| Signatures.FullRoundTripIff | project/indexer/model.py:2908-2922 | Printing a return type, a name and arguments and parsing them back recovers all three, for bracket-balanced parts, if and only if neither the name nor the return type has parentheses, the name is one word (unlike `operator new`) and the arguments are not the single word `void` |
| Signatures.RetParamsRoundTripIff | project/indexer/model.py:2897-2906 | The same for the form without a name, an empty return type standing for none |
| Signatures.CallOperatorIsMisread | project/indexer/model.py:2605-2630 | For a name that ends in `()` the parser always takes those parentheses for the argument list |
| FsPaths.NormPathIsNormal | project/indexer/pathx.py:144-167 | Normalising an absolute path gives an absolute path that normalising leaves alone |
| PathRules.AbsoluteRules | project/indexer/compiledb.py:419 | Rules that fix the normal form of every absolute path: joining a name appends it to the normal form, an empty component or `.` changes nothing, `..` goes to the directory above, and the root is above itself |
| PathRules.RootRule | project/indexer/pathx.py:144-167 | A run of slashes is the root, except that exactly two stay two |
| PathRules.RelativeRules | project/indexer/pathx.py:144-167 | The same for relative paths, where `..` piles up when there is no name to drop |
| PathRules.FirstRule | project/indexer/pathx.py:144-167 | One component alone is itself, or `.` for nothing |
| FsPaths.StartsWithIffPrefix | project/indexer/compiledb.py:393-395 | Text containment with a slash is containment of path components, except that the root directory contains only itself |
| IncludeAliases.MapIncludeValues | project/indexer/compiledb.py:302-323 | The iterator loop rewrites exactly the values of include flags, spaced or glued |
| IncludeAliases.FlagIff | project/indexer/compiledb.py:302-310 | The flags are `-I`, `-isystem` and `-iquote`, and a token starts with at most one |
| IncludeAliases.MapIncludeTokens | project/indexer/compiledb.py:302-323 | A flag rewrites the token after it, or an empty value at the end of the list; a value glued to a flag is rewritten in place; any other token stays |
| IncludeAliases.MapIncludeSplits | project/indexer/compiledb.py:302-323 | A list is rewritten piece by piece, wherever it is cut behind no waiting flag |
| IncludeAliases.MapIncludeComposes | project/indexer/compiledb.py:302-323 | Two rewritings in a row are one by their composition, provided the first makes no value empty |
| IncludeAliases.MapIncludeIdentityIff | project/indexer/compiledb.py:302-323 | Rewriting nothing returns the list if and only if it does not end in a flag without value; then an empty value is appended |
| IncludeAliases.MatchAlias | project/indexer/compiledb.py:383-404 | The first containing entry is returned with its version segment and the remainder |
| IncludeAliases.VersionIff | project/indexer/pathx.py:25-30 | A version is digits with single dots, underscores or dashes between them, perhaps behind a `v` and before one newline |
| IncludeAliases.VersionTakenIff | project/indexer/compiledb.py:396-402 | The first name below the directory of a versioned label is taken out exactly when it is a version |
| IncludeAliases.BuildLabelMap | project/indexer/compiledb.py:360-380 | The loop resolves each label and the sort puts the longest directory first, then the lesser name |
| IncludeAliases.LabelMapIsSorted | project/indexer/compiledb.py:379 | The label map has every label once and is sorted as the matcher expects |
| IncludeAliases.NameLeIff | project/indexer/compiledb.py:379 | Labels are ordered as in a dictionary |
| IncludeAliases.MatchIsLongest | project/indexer/compiledb.py:383-404 | On a map so sorted the match is a longest containing directory and the first label of that directory |
| IncludeAliases.LongestLabelMatches | project/indexer/compiledb.py:360-404 | Whatever labels are registered in whatever order, a path inside the directory of some label is matched by a label of a longest such directory, the first by name |
| IncludeAliases.ContainsIffPrefix | project/indexer/compiledb.py:393-395 | An entry contains a path exactly when its components are a prefix, the root directory apart |
| IncludeAliases.AliasIsIdempotent | project/indexer/compiledb.py:407-425 | Encoding an encoded option list changes nothing |
| IncludeAliases.ExpandOne | project/indexer/pathx.py:108-139 | A value with one placeholder at its front expands to the registered directory, or what stands in for it, and the rest unchanged |
| IncludeAliases.UnregisteredLabel | project/indexer/pathx.py:131-137 | A label that is not registered becomes a slash and its name with slashes for dashes, or stays when nothing is derived or it is empty |
| IncludeAliases.ExpandBehind | project/indexer/pathx.py:108-139 | Text without an opening bracket in front of anything stays |
| IncludeAliases.ExpandFront | project/indexer/pathx.py:108-139 | Placeholders expand one after the other, and an expansion is not expanded again |
| IncludeAliases.ExpandStray | project/indexer/pathx.py:108-139 | An opening bracket that meets another, or the end, before a closing one stays |
| IncludeAliases.LabelsBeforeVariables | project/indexer/pathx.py:163-167 | Labels are expanded before variables, so a variable in a registered directory counts |
| IncludeAliases.DecodedForm | project/indexer/compiledb.py:348-357 | A value with a bracket or a dollar in it or a tilde in front becomes an absolute normal path, and any other stays |
| IncludeAliases.RelativeToHere | project/indexer/compiledb.py:348-357 | A relative result is taken from the working directory |
| IncludeAliases.ValueRoundTrip | project/indexer/compiledb.py:341-425 | A matched absolute value decodes to its normal form when its label stands for the matched directory and the taken-out version |
| IncludeAliases.ValueRoundTripIff | project/indexer/compiledb.py:341-425 | And only then, for a label whose directory followed by the remainder is already normal |
| IncludeAliases.OptionsRoundTrip | project/indexer/compiledb.py:341-425 | Resolving aliased options gives back the option list with each matched absolute value normalised |

## Left out

- SQLite, SQL text and transactions: tables are maps and row sequences; a query without ORDER BY is a scan of the edge sequence in any order, and a lookup with LIMIT 1 on a unique index is a map.
- libclang, cursors and the extractor: syntax trees are datatypes, and whether the recorded type facts are true of the program is not decided here.
- The Z3 solver: only terms and their evaluation are modelled; operators stay parameters shared by both sides, so nothing is claimed about C division.
- The row caps of the storage queries (500 callees, 200 neighbours, 10000 call edges into a callee): the modelled edge tables hold what those queries return, and `max_nodes` as a per-node cap is kept in GraphWalk.
- NoDetourCovers: one direction only; a bounded walk can also cover the ball by luck, when every callee of a cut node is met elsewhere. What holds exactly is stated for the nodes expanded (BallIsExpandedIff) and for all bounds at once (BoundedWalkIsBallIff).
- How a label's stored path is resolved to a directory: the `resolve` parameter of IncludeAliases.BuildLabelMap.
- Qualifiers between a name and its first suffix (`Foo const *`), names of several words (`unsigned int *`), and suffixes on a template that is itself a template argument: outside the spelled types of FieldTypeShapes, except for a name that ends in a qualifier's word and for spellings that end in a parenthesis.
- MergeInto: reports an error for operands and branches of differing sorts, also where the solver's integer model turns a Boolean into 1 or 0; the programs of TermMeansReturnValue have no such mixture.
- Return types with a parenthesis of their own, which the roll-up cuts at the first one: ReturnTypes takes return types without.
- InheritsClosure: graphs of base and derived classes without cycles only; on a cycle the recursion of the source does not end. MatchExecutor takes the closures as parameters, and MatchMeaning ties them to the graphs.
- The metadata of a CallStep (the dispatch site, pruned candidates and receiver set): only node and depth of each step are modelled.
- Symbol objects and their names: nodes are ids, and the filter that drops ids without a symbol is the foreign-key hypothesis of GraphWalk.Reaches.
- Non-ASCII letters, digits and blanks in the lexer, and `int` on tokens the lexer never produces: character classes are ASCII.
- Error messages and the positions they print; only which error is raised is modelled.
- Serialising rows to dictionaries and projections: not modelled. The text of an attribute, the regular-expression search and the enumeration of entities by kind or name: parameters of MatchExecutor.
- AttrMatches: a list value with an operator other than `in`, or a text with `in`, counts as an error; no parsed query has either.
- RunOutcomes: does not say which operands make the sort error; BuiltIff says it for each operator.
- Environment variables, `~` and the working directory: the World parameter of IncludeAliases, with the hypothesis that text without `$` or a leading `~` expands to itself.
- The command line, the JSON and text output, the AST cache, header scans, relinking and the demo programs: plumbing around the modelled logic.
- The fluent entity queries of the entity graph, other than the walk and the classification: they only compose the modelled steps.
- PrunedWalkIsBetween: assumes that every selection candidate's target is one of the method's dispatch targets, which is decided by the storage query.
- CompositionRow: the source scans instances and fields in id order, the model in table order; RollupIgnoresOrder shows the order does not matter for these rows.
- ExecuteRank: the lengths of the lists of direct callers and callees are parameters; the built-in sort is modelled by stable insertion.
- AnalysisExact: declaration keys are joined per argument as in the source, but the exact final contents are stated for positional entries only.
- UseRow: an owner lookup with several owners takes the first in table order, as LIMIT 1 leaves the choice open.
- TermMeansReturnValue: covers the supported subset, in which each name is declared once, `return` comes last, logical and conditional operands do not assign, and sorts agree; the three counterexamples show why the first three conditions are there.
