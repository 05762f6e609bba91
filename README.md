# pj59 logic engine and schema parser, modelled in Dafny

This project models two parts of the pj59 C code base and proves properties of the model.

**The logic engine (logic.c).** A stack machine builds boolean formulas over named integer-range
variables and keeps them normalised:
- An operator (AND, OR or AND_OR, an OR whose branches are ANDs) is pushed onto the operand stack.
- Variables are folded into the top operator. A repeated name is merged into the existing
  variable: by intersection under AND, by union under OR.
- Popping combines the two top entries by flattening and distribution.
- `logic_search` reads back the feasible range of one variable.

Nodes are values (`LogicNodes.Node`). A range is the set of integers it admits. The stack, and
every child list, is a sequence whose index 0 is the most recently pushed element.

Each C routine with a loop is a method proved equal to a specification function. These live in
`LogicMerge` and `LogicStack`, and the function carries the loop position. The engine itself is
the class `LogicEngine.Engine`, whose `stack` field its methods update.

On those functions the project proves three groups of properties:
- **What formulas mean** (`LogicMeaning`, against `Holds`). For example, popping yields the parent
  joined with the child: conjoined under AND and AND_OR, disjoined under OR.
- **The shape of distribution results** (`LogicShape`): branch counts, and which merge produced
  each branch.
- **An invariant** (`LogicWellFormed`): the normal form the engine keeps. ANDs are flat and hold
  one variable per name, ORs hold variables or flat ANDs, and AND_OR branches are flat ANDs. On
  that normal form no operation fails.

**The schema loader and the event automaton (parser.c).**
- `schema_load` builds a tree of typed schema nodes (list, map and string bits) from a
  level-indented markup array, using a scope stack. It is modelled as the class
  `SchemaLoad.Schema`, with its node arena as a sequence indexed by node id.
- `parser_event` and `parser_start` check a stream of list/map start and end events and scalars
  against the schema. They make start, next and end callbacks, and keep an intrusive stack through
  the nodes' `state` and `next` fields and the parser's `root`.
- That automaton is modelled as functions on a configuration (`ParserEvents`) and as the class
  `ParserMachine.Parser`, whose methods update the schema's nodes and its own fields.
- The callback is modelled by its answer (`accept`) and by a trace of the calls made.

The main theorem is `ParserProofs.ParseBalanced`. After `schema_load`, `parser_parse` succeeds
exactly when every event is taken and the events close as many lists and maps as they open.

## Model

| member | source | states |
|---|---|---|
| LogicNodes.FirstVar | logic.c:184-197 | `logic_node_search`: the index found is a VAR of that name, and no earlier child is one; None exactly when no child is a VAR of that name |
| LogicNodes.VarMerge | logic.c:45-69 | the merge succeeds exactly when the operator is not AND_OR; under AND the new range holds exactly the values in both ranges, under OR those in either |
| LogicNodes.Mirror | logic.c:137-182 | `logic_node_copy`: a VAR is copied as it is; an operator keeps its kind and its number of children |
| LogicNodes.MirrorAll | logic.c:137-182 | the copied child list has the same length, and its child j is the copy of the original's child from the other end (copies are pushed to the front) |
| LogicMeaning.MirrorInvolution | logic.c:137-182 | copying a copy gives back the original tree: same kinds, names, owners, ranges and child lists |
| LogicMeaning.MirrorHolds | logic.c:137-182 | a copy holds under exactly the same assignments as the original |
| LogicWellFormed.MirrorWellFormed | logic.c:137-182 | the copy of a normalised formula is normalised |
| LogicEngine.NodeSearch | logic.c:184-197 | the search loop returns the first VAR child of that name, as FirstVar states |
| LogicEngine.NodeCopy | logic.c:137-182 | the copy loop, which pushes each copied child to the front, builds Mirror of its input |
| LogicMerge.OneAdded | logic.c:263-283 | `logic_add_var_one` fails exactly when the operator is an AND_OR that already has a VAR of that name, and then with InvalidType; on success the operator keeps its kind and gains one child exactly when no child was a VAR of that name |
| LogicShape.OneAddedShape | logic.c:263-283 | `logic_add_var_one` under AND or OR always succeeds; an existing name keeps its place and owner, its range becomes the intersection (AND) or union (OR), and every other child is unchanged; a new name adds exactly one VAR at the front and leaves the other children as they were |
| LogicShape.OneAddedKeepsNamesUnique | logic.c:263-283 | adding a variable keeps at most one VAR child per name, leaves a VAR of that name present, and adds no other node |
| LogicMeaning.OneAddedMeaning | logic.c:263-283 | the updated operator holds exactly when the old one holds AND (under AND) or OR (under OR) the new constraint |
| LogicWellFormed.OneAddedConjunction | logic.c:263-283 | adding a variable to a flat AND never fails and keeps it a flat AND |
| LogicWellFormed.OneAddedOr | logic.c:263-283 | adding a variable to a normalised OR never fails and keeps it normalised |
| LogicEngine.AddVarOne | logic.c:263-283 | the method computes OneAdded |
| LogicMerge.AllAddedFrom | logic.c:285-300 | the branch loop keeps the number of branches, and its only failure is InvalidType |
| LogicMerge.AllAdded | logic.c:285-300 | `logic_add_var_all` keeps the operator's kind and its number of branches, and its only failure is InvalidType |
| LogicShape.AllAddedFromShape | logic.c:285-300 | `logic_add_var_all` succeeds exactly when every branch is an AND, and then every branch is that branch with the variable added; on a failure the error is InvalidType, the branches before the first non-AND are updated and the rest are untouched |
| LogicMeaning.AllAddedMeaning | logic.c:285-300 | on success the AND_OR holds exactly when it held before and the new constraint holds |
| LogicWellFormed.AllAddedWellFormed | logic.c:285-300 | on a normalised AND_OR it never fails and the result is normalised |
| LogicEngine.AddVarAll | logic.c:285-300 | the branch loop computes AllAdded, partial updates on failure included |
| LogicMerge.AndMerged | logic.c:345-364 | `logic_merge_and` refuses every operator child other than an AND; its only failure is InvalidType; on success the parent keeps its kind and loses no child |
| LogicMerge.AndMergedFrom | logic.c:345-364 | its element loop keeps the parent's kind, loses no child, and fails only with InvalidType |
| LogicMeaning.AndMergedMeaning | logic.c:345-364 | `logic_merge_and` into an AND: on success the result holds exactly when the parent and the child both hold |
| LogicMeaning.AndMergedFromMeaning | logic.c:345-364 | the element loop: the result holds exactly when the parent and every element from k on hold |
| LogicWellFormed.AndMergedConjunction | logic.c:345-364 | merging a VAR or a flat AND into a flat AND never fails and gives a flat AND |
| LogicWellFormed.AndMergedFromConjunction | logic.c:345-364 | the element loop over VAR elements never fails and keeps the parent a flat AND |
| LogicEngine.MergeAnd | logic.c:345-364 | the method, with its loop over the child's elements, computes AndMerged |
| LogicMerge.OrMerged | logic.c:366-387 | `logic_merge_or` refuses every operator child other than an AND, with InvalidType only; an AND child always succeeds and its copy becomes the new first branch, in front of all the old ones; on success the kind is kept and no child is lost |
| LogicMeaning.OrMergedMeaning | logic.c:366-387 | `logic_merge_or` into an OR or AND_OR: on success the result holds exactly when the parent or the child holds |
| LogicMerge.OrMergedFrom | logic.c:506-520 | the OR×OR and OR×AND_OR loop keeps the node's kind, loses no child, and fails only with InvalidType |
| LogicMeaning.OrMergedFromMeaning | logic.c:506-520 | the OR×OR and OR×AND_OR loop: the result holds exactly when the node or some element from k on holds |
| LogicWellFormed.OrMergedWellFormed | logic.c:366-387 | merging a VAR or a flat AND into a normalised OR never fails and keeps it normalised |
| LogicWellFormed.OrMergedFromWellFormed | logic.c:506-520 | folding every VAR or flat-AND element into a normalised OR never fails and keeps it normalised |
| LogicEngine.MergeOr | logic.c:366-387 | the method computes OrMerged |
| LogicMerge.AndOrMerged | logic.c:389-408 | `logic_merge_and_or` refuses every operator child other than an AND, fails only with InvalidType, and on success keeps the kind and the number of branches |
| LogicMerge.AndOrMergedFrom | logic.c:389-408 | its element loop keeps the kind and the number of branches and fails only with InvalidType |
| LogicMeaning.AndOrMergedMeaning | logic.c:389-408 | `logic_merge_and_or` into an AND_OR: on success the result holds exactly when the parent and the child both hold |
| LogicMeaning.AndOrMergedFromMeaning | logic.c:389-408 | its element loop: the result holds exactly when the parent and every element from k on hold |
| LogicWellFormed.AndOrMergedWellFormed | logic.c:389-408 | merging a VAR or a flat AND into a normalised AND_OR never fails and keeps it normalised |
| LogicWellFormed.AndOrMergedFromWellFormed | logic.c:389-408 | the element loop over VAR elements never fails and keeps it normalised |
| LogicEngine.MergeAndOr | logic.c:389-408 | the method, with its element loop, computes AndOrMerged |
| LogicMerge.Distributed | logic.c:441-463 | one distribution row adds one branch per element from k on, is refused when the parent row is not an AND and an element is left, and fails only with InvalidType |
| LogicShape.DistributedShape | logic.c:441-463 | one distribution row pushes one AND per element, each the flattened copy of the parent merged with that element, in front of the branches already built, which are kept; a non-AND parent row cannot succeed on a non-empty child |
| LogicMeaning.DistributedMeaning | logic.c:441-463 | some branch of the row's result holds exactly when an earlier branch holds, or the parent holds and some element from k on holds |
| LogicWellFormed.DistributedConjunctions | logic.c:441-463 | for a flat-AND parent and VAR or flat-AND elements the row never fails and every branch is a flat AND |
| LogicEngine.DistributeRow | logic.c:441-463 | the loop computes Distributed |
| LogicShape.AndTimesOrBranches | logic.c:441-463 | AND × OR gives an AND_OR with one branch per OR element, each an AND equal to the parent's copy merged with that element, so popping AND [A, B] into OR [C, D] gives the branches {C, A, B} and {D, A, B} |
| LogicMerge.BranchesDistributed | logic.c:464-488 | AND × AND_OR adds one branch per child branch from k on, fails whenever one of those branches is not an AND, and fails only with InvalidType |
| LogicShape.BranchesDistributedShape | logic.c:464-488 | AND × AND_OR: every child branch is an AND, and each result branch is that branch's copy merged with the parent, in front of the branches already built |
| LogicMeaning.BranchesDistributedMeaning | logic.c:464-488 | some result branch holds exactly when an earlier branch holds, or the parent holds and some child branch from k on holds |
| LogicWellFormed.BranchesDistributedConjunctions | logic.c:464-488 | on flat ANDs this never fails and every result branch is a flat AND |
| LogicShape.AndTimesAndOrBranches | logic.c:464-488 | AND × AND_OR gives an AND_OR with one AND branch per child branch |
| LogicMerge.Crossed | logic.c:538-567 | the cross product keeps the branches already built, fails whenever the child has elements and a parent branch from k on is not an AND, and fails only with InvalidType |
| LogicShape.CrossedLength | logic.c:538-567 | the cross product adds \|child\| branches per parent branch, all ANDs, in front of the existing ones; every parent branch must be an AND once the child is not empty |
| LogicShape.CrossedPairs | logic.c:538-567 | for every parent branch i and child element j there is a result branch, at a fixed position, that is the copy of branch i merged with element j |
| LogicMeaning.CrossedMeaning | logic.c:538-567 | some result branch holds exactly when an earlier branch holds, or some parent branch from k on holds and some child element holds |
| LogicWellFormed.CrossedConjunctions | logic.c:538-567 | on flat-AND parent branches and VAR or flat-AND child elements the cross product never fails and yields flat ANDs |
| LogicShape.AndOrTimesOrBranches | logic.c:538-567 | AND_OR × OR or AND_OR gives \|parent\| × \|child\| branches, all ANDs, one for every pair of a parent branch and a child element |
| LogicMerge.Combined | logic.c:428-576 | `logic_pop_op` refuses a VAR on either side with InvalidType, fails with nothing else, and on success gives an operator of kind OR under an OR parent, AND for AND × AND, and AND_OR otherwise |
| LogicMeaning.CombinedMeaning | logic.c:428-576 | `logic_pop_op`'s case analysis: whenever it succeeds, both entries are operators and the result holds exactly when the parent and the child both hold (AND or AND_OR parent) or either holds (OR parent) |
| LogicWellFormed.CombinedWellFormed | logic.c:428-576 | two normalised operators always combine, and into a normalised operator |
| LogicEngine.Combine | logic.c:428-576 | the method computes Combined |
| LogicStack.VarPushed | logic.c:302-327 | `logic_push_var` on an empty stack fails with MissingOperator and changes nothing; the stack keeps its depth and the entries below the top; a failure with a VAR on top leaves the stack unchanged |
| LogicStackProofs.VarPushedMeaning | logic.c:302-327 | on success the top operator holds exactly when it held before joined with the new constraint: added by AND under AND and AND_OR, by OR under OR |
| LogicStackProofs.VarPushedWellFormed | logic.c:302-327 | on a normalised, non-empty stack the push never fails and keeps every entry normalised |
| LogicEngine.Engine.PushVar | logic.c:302-327 | the engine's stack and status after the call are VarPushed of the stack before |
| LogicStack.NodeCreated | logic.c:92-113 | `logic_node_create` refuses the VAR kind and otherwise gives an empty operator of the requested kind |
| LogicStack.OpPushed | logic.c:329-343 | `logic_push_op` succeeds exactly for operator kinds; then the stack grows by one, the new top is the empty node and the rest is the old stack; otherwise the stack is unchanged and the error is InvalidType |
| LogicStackProofs.OpPushedWellFormed | logic.c:329-343 | pushing an operator keeps the stack normalised |
| LogicEngine.Engine.PushOp | logic.c:329-343 | the engine's stack and status after the call are OpPushed of the stack before |
| LogicStack.Popped | logic.c:410-584 | with at most one entry the pop is a successful no-op; otherwise on success the stack shrinks by one with the entries below the top two untouched, and on failure both popped entries are gone |
| LogicStackProofs.PoppedMeaning | logic.c:410-584 | on success the new top holds exactly when the old parent joined with the old top holds |
| LogicStackProofs.PoppedWellFormed | logic.c:410-584 | on a normalised stack the pop fails only when the final push of the result fails (OutOfMemory), and the stack stays normalised |
| LogicEngine.Engine.PopOp | logic.c:410-584 | the engine's stack and status after the call are Popped of the stack before |
| LogicStack.PoppedAsWritten | logic.c:437 | the pop as written: it agrees with Popped whenever the final push succeeds |
| LogicStackProofs.PushFailureSwallowed | logic.c:437 | as written, a failed final push loses both popped entries and the result but reports success; the corrected pop reports OutOfMemory |
| LogicStackProofs.PushFailureExample | logic.c:437 | two empty ANDs: as written, a failed push empties the stack and reports success |
| LogicStack.Contribution | logic.c:636-649 | a branch of an OR or AND_OR root is refused exactly when it is an operator other than AND, and then with InvalidType |
| LogicStack.UnionFrom | logic.c:634-651 | the union loop only adds to the union built so far, succeeds exactly when every branch from k on is a VAR or an AND, and fails only with InvalidType |
| LogicStackProofs.UnionFromMeaning | logic.c:634-651 | the union over the branches is defined exactly when every branch is a VAR or an AND, and then holds exactly the values some branch admits for the name (its matching VAR, or the first matching VAR of an AND branch) |
| LogicStack.Resolved | logic.c:614-664 | `logic_search` only narrows the accumulator, and an empty stack leaves it unchanged |
| LogicStackProofs.ResolvedAndRoot | logic.c:624-628 | an AND root never fails; the accumulator is unchanged when no VAR of that name is present, and is intersected with its range when one is (in a flat AND) |
| LogicStackProofs.ResolvedOrRoot | logic.c:629-656 | an OR or AND_OR root succeeds exactly when every branch is a VAR or an AND; an empty union leaves the accumulator unchanged, and otherwise the result is the accumulator intersected with the union |
| LogicStackProofs.ResolvedSound | logic.c:614-664 | when every branch mentions the name, a value the top formula allows under some assignment survives the search |
| LogicStackProofs.ResolvedOverNarrows | logic.c:634-653 | when some branch does not mention the name, the search can exclude a value the formula allows: OR [x∈{1}, y∈{2}] with accumulator {5} gives the empty range |
| LogicStackProofs.ResolvedOnWellFormed | logic.c:614-664 | on a normalised stack the search never fails |
| LogicEngine.Engine.Search | logic.c:614-664 | the method, with its branch loop, computes Resolved on the current stack |
| LogicEngine.Engine.Clear | logic.c:253-261 | `logic_clear` empties the stack |
| LogicEngine.Engine.constructor | logic.c:231-246 | a new engine has an empty stack |
| SchemaNodes.NewNode | parser.c:10-29 | `schema_node_create`: the node has the given types and mark, an empty map, no list child, no stack link, and is idle |
| SchemaNodes.Opened | parser.c:200-204 | a list or map entry opens exactly one scope, at its level and for its node, on top of the stack it was given; any other entry leaves the stack as it is |
| SchemaNodes.Unwind | parser.c:162-164 | closing scopes leaves a suffix of the scope stack whose top is shallower than the entry; every scope removed is at the entry's level or deeper; the root scope at level 0 is never removed |
| SchemaNodes.Attached | parser.c:166-199 | a keyed entry fails with ExpectedMap when the scope node lacks the map bit and with DuplicateKey when the key is taken, and otherwise goes into its map; a keyless entry fails with ExpectedList without the list bit and with InvalidList when a list child exists, and otherwise becomes the list child; on success the new node gets the next index and no other node changes |
| SchemaNodes.Placed | parser.c:161-205 | one entry keeps the scope stack valid (root scope at the bottom, levels strictly decreasing, only list or map nodes as scopes); on success it adds exactly one node, a fresh one with the entry's types and mark, and retypes or remarks no other; it fails exactly when `Attached` refuses the entry under the innermost scope shallower than it, and with that refusal |
| SchemaNodes.LoadFrom | parser.c:161-208 | the loaded arena only grows; what it holds is stated by SchemaNodes.LoadFromNodes |
| SchemaNodes.Stop | parser.c:161 | the loop stops at the first entry from i on whose level is not positive, or at the end of the array: every entry before that point has a positive level |
| SchemaNodes.LoadFromNodes | parser.c:161-208 | the main loop keeps every node it was given; on success it has added, in order, one node with the types and mark of each entry up to where it stops; on failure it has done so up to some entry before that point, `Attached` refuses that entry under a valid scope stack, and the loop returns that refusal |
| SchemaNodes.UnwindValid | parser.c:162-164 | closing scopes keeps the scope stack valid and non-empty |
| SchemaLoad.Close | parser.c:162-164 | the pop loop computes Unwind |
| SchemaLoad.Attach | parser.c:166-199 | the attach step computes Attached |
| SchemaLoad.Place | parser.c:161-205 | one pass of the main loop computes Placed |
| SchemaNodes.Loaded | parser.c:140-213 | `schema_load` always leaves at least the root node |
| SchemaNodes.LoadedNodes | parser.c:140-213 | node 0 is the list-typed root with mark 0; on success there are exactly n + 1 nodes, n being the number of entries before the first non-positive level, and node k + 1 has the types and mark of entry k; on failure the nodes come from the entries before the first one `Attached` refuses, and that refusal is the result |
| SchemaLoad.Schema.Load | parser.c:140-213 | the schema's arena and status after loading are Loaded of the markup, and the root is node 0 |
| SchemaLoad.Schema.constructor | parser.c:92-111 | a new schema has no nodes and no root |
| ParserProofs.LoadedShape | parser.c:140-213 | whether or not it succeeds, the load leaves a tree whose child ids are larger than their parent's, a root of list type in list state, every other node idle, and no stack links |
| ParserProofs.AttachedShape | parser.c:174-195 | attaching an entry keeps that shape |
| ParserProofs.LoadedStops | parser.c:161 | the load stops at the first entry whose level is not positive: nothing after it matters |
| ParserEvents.Started | parser.c:244-283 | `parser_start` succeeds exactly when the node admits the event (list start: list bit, map start: map bit, scalar: string bit) and the callback accepts. A refused event fails with its error and changes nothing. An admitted event appends the start or next callback with the node's mark (and the value). A start event that succeeds puts the node in list or map state, links it to the old top and makes it the top; a scalar changes nothing else |
| ParserEvents.Ended | parser.c:302-320 | the end branch appends the end callback with the top node's mark; on acceptance the top goes idle and its `next` becomes the top; on refusal nothing else changes |
| ParserEvents.Stepped | parser.c:285-334 | `parser_event` keeps every pointer valid and never changes the schema's types, marks, maps or list children; on failure the stack and the pending child are unchanged |
| ParserEvents.SteppedCases | parser.c:291-330 | a pending child takes the event and is cleared on success; without one, an empty stack fails with InvalidNode, an idle top fails with InvalidState, and a taken end event is the end branch; a list in list state hands every other event to its list child and fails with MissingList without one; a map in map state takes a scalar that names one of its keys as the pending child and leaves the stack alone, fails with InvalidKey on any other scalar and with InvalidType on a list or map start or a list end |
| ParserEvents.ListElementAsWritten | parser.c:310 | the list branch as written, defined only when the list node has a list child, agrees with Stepped there |
| ParserEvents.Ran | parser.c:349-358 | a run of events keeps every pointer valid and the schema unchanged |
| ParserEvents.Finished | parser.c:360-361 | the parse succeeds exactly when the event source succeeded and the stack is back at the schema root; otherwise it fails with Unbalanced |
| ParserMachine.Parser.Start | parser.c:244-283 | the parser's fields, the schema's nodes and the status after the call are Started of the configuration before |
| ParserMachine.Parser.End | parser.c:302-320 | the state after the call is Ended of the configuration before |
| ParserMachine.Parser.Event | parser.c:285-334 | the state after the call is Stepped of the configuration before, and the schema's root is untouched |
| ParserMachine.Parser.Begin | parser.c:340-341 | the parser starts at the schema's root with no pending child and no callbacks made |
| ParserMachine.Parser.Finish | parser.c:360-361 | the status is Finished of what the event source reported and the current top |
| ParserEvents.Begun | parser.c:340-341 | `parser_parse` starts at the schema root with no pending child and no callback output; that start has valid pointers exactly when the schema's links are valid and the root exists |
| ParserProofs.BegunFramed | parser.c:340-341 | on a loaded schema the parser starts with the root as its only frame |
| ParserProofs.PushFramed | parser.c:247-270 | starting a node above the top frame pushes it onto the frames on success, and keeps the frames otherwise |
| ParserProofs.PopFramed | parser.c:302-320 | a successful end event pops the top frame; a refused one keeps the frames |
| ParserProofs.DataFramed | parser.c:291-297 | with a pending child the event never pops; a start pushes and a scalar keeps the frames |
| ParserProofs.ListFramed | parser.c:302-312 | a list on top keeps the stack framed, popping on its end event and pushing when its list child starts |
| ParserProofs.MapFramed | parser.c:313-327 | a map on top keeps the stack framed and never pushes by itself |
| ParserProofs.SteppedFramed | parser.c:285-334 | every event keeps the stack a chain of open nodes down to the root: a failure changes nothing, a taken start pushes, a taken end pops, a taken scalar keeps the frames |
| ParserProofs.RanFramed | parser.c:285-334 | after a run that takes every event, the depth is the start depth plus the starts minus the ends |
| ParserProofs.FramedAtRoot | parser.c:360-361 | the stack is at the schema root exactly when only the root frame is left |
| ParserProofs.ParseBalanced | parser.c:336-365 | over a loaded schema, `parser_parse` succeeds exactly when every event was taken and the events closed as many lists and maps as they opened |
| ParserProofs.ChildlessListLoads | parser.c:185-204 | a keyless list entry with no entry under it loads successfully, leaving a list node without a list child |
| ParserProofs.ChildlessListOpens | parser.c:302-312 | a document opening that list reaches a configuration whose top is that node in list state |
| ParserProofs.ChildlessListFails | parser.c:310 | there the list child is missing, so the condition ListElementAsWritten needs fails; the checked step reports MissingList and changes nothing |

## Left out

- `logic_node_print`, `logic_print`, `schema_node_print` and `schema_print` only format output to stdout.
- The Range library (`range_create`, `range_and`, `range_or`, `range_copy`, `range_destroy`) is not part of this model. A range is the set of values it admits, `range_and_merge` is intersection and `range_or_merge` is union. The "non-empty" test of `logic_search` (`result.root`) is modelled as a non-empty set.
- Pools, the sector list, `heap.c`, `store_*` and string copies are memory management. Out-of-memory is modelled at one place only: the final push of `logic_pop_op`, through the `pushFails` parameter, where it changes the outcome (see Findings). Every other allocation is taken to succeed.
- `logic_node_destroy`, `logic_destroy`, `schema_node_destroy`, `schema_destroy` and `schema_clear` free memory. In the model values are dropped instead, and `schema_load` starts from a fresh arena.
- `logic_var_create` and `logic_node_var_create` are the `Var` constructor. Owners are a number that is copied along.
- `parser_create`, `parser_destroy` and the csv, json and yaml parsers inside `parser_parse` read files through foreign code. They are not part of this model.
  - The event stream is a parameter.
  - `Ran` assumes the source stops at the first failing event and reports it.
  - The file-extension dispatch is not modelled. A path with an unknown extension reaches the final check with no events parsed, which `Finished` covers with a successful outcome.
- `map_insert` and `map_search` (map.c) are not part of this model. The key map is a `map<string, NodeId>`. Inserting a key that is already present is assumed to fail.
- In `schema_load`, the "invalid root" branch cannot happen: every scope holds a node. The in-place reuse of markup entries as scope records is modelled by a separate scope sequence.
- Panic messages are modelled as error values naming the root cause. Enclosing callers that wrap a failure in another message report the same value.
- Some properties hold only against the model, because the model spells out conditions the C code leaves implicit:
  - `ParserEvents.Stepped`: the callback is a Boolean answer plus a trace entry. What the callback does with the events lies outside the model.
  - The model's `requires Consistent(...)` says that every pointer is valid, which C takes for granted.

## Findings

| source | as written | input that shows it | evidently intended | confidence | as-written member | corrected member |
|---|---|---|---|---|---|---|
| logic.c:437 (and 460, 485, 502, 517, 534, 564) | `if(status \|\| list_push(&logic->list, node))` destroys the result when the final push fails but leaves `status` at 0, so the pop reports success after losing both operands and the result | stack [AND [], AND []] with the final push failing: the stack becomes empty and the status is success | report the failed push (status = panic) | not executed | LogicStack.PoppedAsWritten, LogicStackProofs.PushFailureSwallowed, LogicStackProofs.PushFailureExample | LogicStack.Popped, LogicStackProofs.PoppedWellFormed |
| parser.c:310 | in list state every event except list end goes to `parser_start(parser, node->list, ...)`, which dereferences `node->list` without a check; `schema_load` accepts a list node with no keyless child | markup [level 1, type list, mark 1, no key]; events list start, scalar: the list start opens the childless node through the root's list branch, and the scalar is then handed to its NULL list child | fail with an error when the list node has no element schema | not executed | ParserEvents.ListElementAsWritten, ParserProofs.ChildlessListLoads, ParserProofs.ChildlessListOpens, ParserProofs.ChildlessListFails | ParserEvents.Stepped, ParserProofs.SteppedFramed |
