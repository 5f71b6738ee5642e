# Verification of function-kro's decisions

This project models the part of function-kro that decides what a reconciliation emits, and proves its properties in
Dafny 4.11. `dafny verify dfyconfig.toml` checks all of it.

## What is modelled

Five connected pieces, each as a module or a few:

* **The dependency graph** (`Dag`, with its specification in `Graphs`, `Orders` and `Insertion`): vertices and their
  edges as mutable objects, depth-first cycle search with a recursion stack, insertion with rollback, and Kahn's
  algorithm over a queue ordered by (order, id). `GraphBuilder` builds and orders the graph of a set of nodes, and
  `References` and `Extraction` extract the dependencies from inspected expressions, for one and for a whole graph.
* **The template engine** (`Trees`, `FieldPath`, `PathSyntax`, `Grafting`, `Resolver`, `Template`): a tree of maps,
  lists and scalars is flattened into path strings and expressions; the paths are parsed again, the values written one
  by one and omitted members removed. `InPlace` and `InPlaceResolver` do the same on mutable maps and slices in the
  heap, with arrays that are made longer and linked into their parents again, and are proved to leave the same tree.
* **Expression scanning and string templates** (`Tokens`, `Scanner`): braces, string literals, escapes and rescans, and
  the concatenation that a string with expressions is compiled to.
* **Free identifiers** (`Inspector`): the walk with its mutable scope, an evaluator for a small expression language, and
  what the reported identifiers are worth when a context is restricted to them.
* **The reconciliation** (`World`, `Adequacy`, `Faults`, `Reconcile`, `Walks`, `Meanings`, `Runs`, `Selectors`,
  `Nodes`, `Wiring`, `Sharing`, `Run`, `Reconciliations`, `Confluence`, `Kept`, `Looked`, `Status`, `Expansion`,
  `Objects`, `Items`, `Identities`, `Naming`): nodes that share cached expression states, contagious ignoring,
  readiness, expansion of collections, asking for external nodes, the loop over all nodes, the partial status, and the
  names under which resources are emitted and found again. `Failures` says what ends a run with an error, and
  `Narrowing` what makes no difference. `Reordering`, `Exactness`, `Examples` and `SelectorExamples` say what the
  order of map walks does, and `Labels` what expressions in selectors do.

Evaluation of CEL is a function from an expression's text and a context to a value, *pending* or *fatal*. Two things
are assumed of it where they matter: `Monotone` (more bindings never change a value that was obtained with fewer) and,
for completeness but not for safety, `Adequate` (an expression's recorded references are right), which is proved of
graphs that are inspected and share no text between expressions with different references. That a
reconciliation does not end with an error is proved where nothing is at fault (`Unfailing`: evaluation is never fatal,
and values are of the kind that is asked for).

Maps that Go walks in any order are walked by picking any remaining key. In a run the order can decide about the
outcome, so the node methods take it as a parameter (`Walks.Walk`) and are proved to compute what the interpreter in
`Walks` computes from it, and what that means is proved of the interpreter for every walk (`Meanings`, `Runs`,
`Selectors`); the other methods are proved right for every order.

## Main results

* `Confluence.ReconciliationsConfluent`: two reconciliations of the same request that succeed emit the same resources
  with the same ready states, for every order of the nodes that puts dependencies first and every order in which maps
  are walked, under three conditions on the graph and the request: expressions with the same text have the same
  references, no used expression looks at the order of a collection of which different items are observed, and no
  composed resource takes the place of what an external reference has found. The method
  `Reconciliations.Reconciliation` shows that these are the outcomes of what is run.
* `Reconciliations.RunsSucceedIff`: missing data alone never ends a reconciliation with an error, if and only if no
  external collection meets a dependency whose undecided condition refers to the instance only. What is asked for is that
  values are of the right kinds; of an expression in a selector's label that is a string: `Labels.LabelDecides`.
* `Confluence.WalkNeverShowsIff`, `Extraction.AdequateIffConsistent`, `Kept.KeptRightIff`: where everything is observed
  and nothing is replaced, the walk over the observed resources never shows if and only if no used expression refers to
  such a collection; wired references are right if and only if texts are not shared between different references; and
  without external collections, kept values are right if and only if no identity refers to a node that is replaced.
* `Looked.KeptRightExactly`: for all graphs, they are right if and only if none of them is of an expression that may
  read what is replaced. An oracle that differs on replaced objects only leads to the same walk and to a wrong value.
* `Runs.EmissionSafe` with `Run.Runtime.BuildDesiredComposed`: where the kept values are right, nothing is emitted
  for a node that some condition excludes, directly or through anything it depends on, or that depends on something not
  ready on what is observed. `Runs.MetIsEmitted`: with right references everything else that can be resolved is emitted.
  `Failures.UnresolvableFails`: what can never be resolved is an error.
* `Items.EmittedIsGrouped`: what a node emits is observed as this node's, items of collections by the labels that
  `Items.ItemNumbered` says they carry; `Items.ItemVariables` says what an item is made with.
* `Template.TemplateSubstitution`, `Resolver.OrderOfWritesIrrelevant` and `InPlaceResolver.Resolve`: flattening,
  printing, parsing and writing in place is substitution, in any order.
* `Scanner.CompleteIff` and `PathSyntax.ParsedIff`: which texts are expressions and which are paths, said by grammars
  that know nothing of the scanner and the parser.
* `Dag.Dag.TopologicalSort` with `Orders.GreedyIsLeast`: the least order, if and only if there is one.
* `Nodes.ExprState.EvalCached` with `Meanings.SoundWithin`: caches that nodes share never hold a wrong value as long as
  observed objects are added and none is replaced.
* `Status.SoftResolve`: the partial status has the available values at their places, and else only containers on the
  way to them and nulls that fill array gaps; it never fails on paths.

## What the code does not promise

Some natural claims are false of the code. For each there is a lemma at a concrete input, and a condition:

* `AddDependencies` keeps the edges to dependencies before a missing vertex or a self reference, unchecked:
  `Insertion.RefusalCanLeaveCycle`, `Insertion.RefusalAcyclicIff`. Its rollback also removes edges that existed
  before: `Insertion.RollbackCanLoseEdge`, `Insertion.RollbackExactIff`.
* The path notation has no escapes: `FieldPath.BracketLost`, `FieldPath.PrintParsesIff`. A negative index in brackets
  parses to the field with the empty name: `FieldPath.NegativeIndexIsField`.
* The inspector has loop variables in scope in the range and the initial value of their own comprehension:
  `Inspector.CaptureHappens`, `Inspector.SeenIsFreeIff`.
* The items of a collection are observed in the order in which Go walks the map of composed resources, and expressions
  see that order: `Examples.OrderOfItemsShows`, `Confluence.WalkNeverShowsIff`.
* Expression states are shared by text, but the references recorded with the first one count. A readyWhen expression,
  for which none are recorded, that is spelled like a condition makes it depend on the order in which a node's
  dependencies are walked whether another node is emitted: `Examples.SharedStateShows`. Without such texts references
  stay right, and only then: `Extraction.AdequateIffConsistent`. Not every such text shows in the output; it does in the
  graphs `Examples.SharedGraph`, for any four ids that nodes may have.
* Values that are obtained while external nodes are asked for are kept, although a composed resource with the name of an
  external node may take the place of its object afterwards. Then they can be wrong, and which of them are there depends
  on the walk: `SelectorExamples.ReplacedShows`; `Reconciliations.KeptUnlessReplaced`, `Kept.KeptRightIff` and
  `Looked.KeptRightExactly`.
* Missing data alone can end a reconciliation: `SelectorExamples.ObstacleShows`, `Reconciliations.RunsSucceedIff`.
* readyWhen expressions of an external collection are checked against its own id, but evaluated with `each`, so they see
  nothing: `Extraction.ExternalCollectionReady`.
* Two items of one collection with the same name in different namespaces have different identities but the same
  composed name, and the last one stays: `Reconcile.NamesCanCollide`, `Reconcile.AllEmittedIff`. As long as the
  items that are observed bear names that are emitted now, the collection is not ready: `Reconcile.CollisionNeverReady`.
* An empty dimension makes a collection empty only if the product of the dimensions before it is within bounds:
  `Expansion.EmptyTooLate`, `Expansion.SizeCheckOverIff`.
* A compiled string template reads as its pieces only if every expression closes its own parentheses:
  `Scanner.ParensMisread`, `Scanner.JoinedSplitsIff`.

Where code and documentation disagree the model follows the code: `SetObserved` is documented to align observed items
with desired ones, but in a run no collection is expanded yet when it is called, so they are stored as they come.

## Model

| member | source | states |
|---|---|---|
| Dag.Dag.AddVertex | kro/graph/dag/dag.go:98-108 | A second vertex with the same id is refused and changes nothing; otherwise one vertex without edges is added with its order. |
| Dag.Dag.AddDependencies | kro/graph/dag/dag.go:141-171 | Added if and only if nothing is missing or refers to itself and no cycle arises, with the requested edges then; which vertex is missing and whether the reference is to itself is said by the list, first come first; a cycle outcome carries a simple cycle of the graph as it was with the edges. |
| Dag.Dag.Rollback | kro/graph/dag/dag.go:158-168 | All requested edges are gone afterwards, those that existed before the request included. |
| Dag.Dag.Dfs | kro/graph/dag/dag.go:230-251 | Either an edge closes a cycle with the open path, or everything below the vertex is finished and the recursion stack is as it was. |
| Dag.Dag.HasCycle | kro/graph/dag/dag.go:225-271 | True if and only if the graph has a cycle; the returned path is a simple cycle of real edges, and without a cycle there is an order with dependencies first. |
| Dag.TrimToRepeat | kro/graph/dag/dag.go:257-265 | The path is cut down to the part between the two occurrences of its last vertex: a simple cycle. |
| Dag.Dag.Prepare | kro/graph/dag/dag.go:176-193 | Counts of unplaced dependencies, dependents and the initial heap contents, whatever the order in which the map is walked. |
| Dag.Dag.Release | kro/graph/dag/dag.go:200-208 | After a vertex is placed, counts are again those of unplaced dependencies, and the vertices that have just become free are queued. |
| Dag.Dag.PlaceReady | kro/graph/dag/dag.go:193-209 | Vertices are placed until none is free, each with the lowest order, and of these the alphabetically first id, among those that were free. |
| Dag.Dag.TopologicalSort | kro/graph/dag/dag.go:175-223 | Succeeds if and only if the graph is acyclic, with dependencies first; every other vertex that was free when one was placed has a higher order, or the same order and an id that the placed one precedes alphabetically. Otherwise it returns a simple cycle. |
| Orders.PopLeast | kro/graph/dag/dag.go:60-96 | The priority queue contract: every other element has a higher order, or the same order and a later id. |
| Orders.GreedyIsLeast | kro/graph/dag/dag.go:193-213 | Where the order found first differs from any other order that puts dependencies first, it has the vertex with the lower order, or of the same order the alphabetically first. |
| Orders.GreedyUnique | kro/graph/dag/dag.go:175-213 | There is only one such order: map iteration does not show in the result. |
| Orders.GreedyIsForemost | kro/graph/dag/dag.go:193-213 | Every vertex placed precedes all others that were free. |
| Orders.WithoutEdgesAscending | kro/graph/dag/dag.go:60-75 | Without dependencies, vertices come in ascending order. |
| Text.LessIsPrecedes | kro/graph/dag/dag.go:67-72 | Strings compare by the first place where they differ: there one of them ends, or has the lesser character. |
| Orders.ItemLessTotal | kro/graph/dag/dag.go:67-72 | The heap order is total, so the least element is determined, and it compares orders first and then ids alphabetically. |
| Insertion.CallsKeepAcyclic | kro/graph/dag/dag.go:98-171 | Over every sequence of calls edges end at vertices, and an acyclic graph stays acyclic as long as no call stops half-way. |
| Insertion.RefusalAcyclicIff | kro/graph/dag/dag.go:147-156 | A call that stops at a missing vertex or self reference leaves the graph acyclic if and only if none of the dependencies before it leads back. |
| Insertion.RefusalCanLeaveCycle | kro/graph/dag/dag.go:147-156 | A concrete call that returns a missing-vertex error and leaves a cycle. |
| Insertion.RollbackExactIff | kro/graph/dag/dag.go:158-168 | A cycle error leaves other vertices alone, and leaves the whole graph unchanged if and only if none of the requested edges existed. |
| Insertion.RollbackCanLoseEdge | kro/graph/dag/dag.go:158-168 | A concrete call whose cycle error loses an edge that was there before. |
| Graphs.AddEdgesAcyclicIff | kro/graph/dag/dag.go:158-168 | New edges from one vertex close a cycle if and only if one of the new dependencies already leads to it. |
| Graphs.TopologicalImpliesAcyclic | kro/graph/dag/dag.go:175-213 | A graph that has an order with dependencies first has no cycle. |
| GraphBuilder.BuildDependencyGraph | kro/graph/builder.go:413-474 | Succeeds if and only if ids are unique, dependencies are other nodes and no chain of them is a cycle, in whatever order nodes are walked; then the graph has exactly the declared dependencies. |
| GraphBuilder.OrderNodes | kro/graph/builder.go:182-190 | Building and sorting succeed together; the order puts dependencies first and each node before all others that could have stood there, by index and then alphabetically. |
| GraphBuilder.OrderDetermined | kro/graph/builder.go:182-190 | Two runs of the builder over the same nodes give the same order. |
| References.ExtractDependencies | kro/graph/builder.go:699-752 | Fails if and only if an identifier is neither a node, a forEach variable nor internal; references, dependencies (the instance aside) and iterators are exactly what the inspector sees. |
| References.RecordedReads | kro/graph/builder.go:699-752 | If no comprehension captures an identifier, an expression reads nothing but its extracted references, whatever the context. |
| Extraction.InspectedRight | kro/graph/builder.go:699-777 | Inspecting every expression of a graph records right references: evaluation reads nothing else, and what is recorded are dependencies; readyWhen expressions, for which none are recorded, read their own subject. |
| Extraction.ConsistentAdequate | kro/runtime/runtime.go:69-92 | Right references stay right when states are shared, if expressions with the same text have the same references. |
| Extraction.AdequateIffConsistent | kro/runtime/runtime.go:69-92 | Where the graph's own references are right and none is superfluous, the wired ones are right if and only if expressions with the same text have the same references. |
| Inspector.Inspector.InspectExpr | kro/cel/ast/inspector.go:169-191 | Reports each identifier as often as it occurs outside the scopes of its name, and restores the scope exactly. |
| Inspector.Inspector.InspectIdent | kro/cel/ast/inspector.go:216-243 | Names in scope are passed over; known resources are reported as such, and other names as unknown unless they are `@result` or start with `$$` or `@__`. |
| Inspector.Inspector.InspectComprehension | kro/cel/ast/inspector.go:318-384 | Loop variables are in scope for all five parts and removed again only if this comprehension put them there. |
| Inspector.Inspect | kro/cel/ast/inspector.go:149-156 | For every identifier that is not captured the report counts exactly its free occurrences. |
| Inspector.SeenIsFreeIff | kro/cel/ast/inspector.go:318-384 | The inspector never reports more than the free occurrences, and all of them if and only if no comprehension variable of that name is free in a part that it does not bind. |
| Inspector.CaptureHappens | kro/cel/ast/inspector.go:333-363 | A concrete comprehension whose range is a resource that is not reported. |
| Inspector.TargetsSeen | kro/cel/ast/inspector.go:258-300 | The target of a call is looked at, unless target and function together name a registered function. |
| Inspector.EvalCoincides | kro/runtime/eval.go:60-71 | Evaluation depends only on the values of the free identifiers. |
| Inspector.ReportedSuffice | kro/runtime/eval.go:60-71 | Evaluating in the context restricted to the reported identifiers gives the same result as in the full context. |
| FieldPath.Parser.ParseQuotedField | kro/graph/fieldpath/parser.go:108-130 | What is read is the text up to the first quotation mark, which a bracket must follow; on success the position is behind it. |
| FieldPath.Parser.ParseUnquotedField | kro/graph/fieldpath/parser.go:135-148 | What is read is the text up to a dot or bracket, which must not be empty. |
| FieldPath.Parser.ParseArrayIndex | kro/graph/fieldpath/parser.go:152-173 | What is read is the number between brackets, with sign and 64-bit range as `strconv.Atoi` has them. |
| FieldPath.Parser.Parse | kro/graph/fieldpath/parser.go:62-102 | Terminates on every string with the segments that `Parsed` gives, or an error; which strings are paths is said by `PathSyntax.ParsedIff`. |
| PathSyntax.ParsedIff | kro/graph/fieldpath/parser.go:62-173 | A string is a path if and only if it is a list of bare names, quoted names and numbers in brackets, each with or without a dot after it and no two bare names without a dot between them; then its segments are what is listed. |
| Text.AtoiSigned | kro/graph/fieldpath/parser.go:152-173 | A sign may stand before the digits, and the number must fit 64 bits. |
| Text.AtoiZeros | kro/graph/fieldpath/parser.go:152-173 | Zeros before the digits do not matter. |
| Text.AtoiRefuses | kro/graph/fieldpath/parser.go:152-173 | Anything but digits, and no digits at all, is refused. |
| FieldPath.PrintParsesIff | kro/graph/parser/parser.go:430-438 | A path grown field by field and index by index parses back to itself if and only if no undotted name has a bracket, no dotted or empty name a quotation mark, and indices fit 64 bits. |
| FieldPath.BracketLost | kro/graph/parser/parser.go:430-438 | A concrete path, with a bracket in a name, that does not parse back. |
| FieldPath.NegativeIndexIsField | kro/graph/fieldpath/parser.go:152-173 | `a[-1]` parses to the field with the empty name below `a`. |
| FieldPath.Build | kro/graph/fieldpath/builder.go:27-49 | What is printed parses back to the path if and only if no undotted name has a bracket, no dotted or empty name a quotation mark, indices fit 64 bits, and quoting leaves every quoted name unchanged. |
| Scanner.ScanExpression | kro/graph/parser/cel.go:72-121 | The scanning loop finds the brace that closes the expression, or reports nesting or that there is none; which of these is said of the text itself by `Scanner.CompleteIff`, `NestedRefused`, `OpenRescans` and `OpenLiteralRescans`. |
| Scanner.ExtractExpressions | kro/graph/parser/cel.go:54-131 | Terminates on every string, rescans after an unclosed expression from the next character, and fails if and only if an expression is nested. |
| Scanner.ExtractRebuilds | kro/graph/parser/cel.go:54-131 | Matches are in bounds, increasing and disjoint, and gaps together with `${expr}` pieces rebuild the input. |
| Scanner.CompleteIff | kro/graph/parser/cel.go:72-121 | The scan ends at the brace put after a text if and only if the text is a list of tokens (plain characters, string literals with escapes, braces around tokens) without a dollar sign right before a brace, except right after a literal. |
| Scanner.ExtractedAreExpressions | kro/graph/parser/cel.go:54-131 | Everything that is extracted is such a list of tokens, so braces outside literals balance at its end and nowhere before. |
| Scanner.NestedRefused | kro/graph/parser/cel.go:104-110 | Whatever braces are open and whatever follows, an opening inside an expression is refused, unless it comes right after a literal. |
| Scanner.OpenRescans | kro/graph/parser/cel.go:112-117 | If braces are never closed, scanning starts again one character further. |
| Scanner.OpenLiteralRescans | kro/graph/parser/cel.go:112-117 | So it does if a literal is never closed, and what is inside the literal is scanned then. |
| Scanner.ExtractRender | kro/graph/parser/cel.go:54-131 | Rendering texts without an opening and expressions that are lists of tokens, and extracting, gives exactly those pieces back. |
| Scanner.BuildStringTemplate | kro/graph/parser/parser.go:320-334 | The result joins quoted gaps and parenthesised expressions in the order of the string. |
| Scanner.ConcatenationFills | kro/graph/parser/parser.go:320-334 | The operands, read as a concatenation, mean the string with each expression replaced by its value. |
| Scanner.JoinedSplitsIff | kro/graph/parser/parser.go:320-334 | The compiled text splits back into its operands if and only if every expression closes its own parentheses and literals. |
| Scanner.ParensMisread | kro/graph/parser/parser.go:320-334 | A concrete expression, `a) + (b`, that is read as two operands. |
| Scanner.CompiledMeans | kro/graph/parser/parser.go:320-334 | Then the compiled text itself, read as a concatenation of literals and parenthesised expressions, means the string with each expression replaced by its value. |
| Scanner.UnescapedEscaped | kro/graph/parser/parser.go:320-334 | Quoting a gap and reading it as a literal gives the gap back. |
| Scanner.EscapedOnOneLine | kro/graph/parser/parser.go:320-334 | A quoted gap has no line breaks or tabs in it. |
| Scanner.CompileString | kro/graph/parser/parser.go:284-315 | A string becomes plain text, one standalone expression, or a concatenation; nesting is an error. |
| Scanner.PlainIff | kro/graph/parser/parser.go:284-315 | A string is taken as plain text if and only if nothing is extracted from it. |
| Scanner.CompileRender | kro/graph/parser/parser.go:284-315 | For such pieces the compiled expression is that of the pieces. |
| Template.ParseSchemalessResource | kro/graph/parser/schemaless.go:34-90 | Fails if and only if some string nests an expression; otherwise lists each expression of the tree once, with its printed path, in any order of map keys. |
| Template.TemplateSubstitution | kro/runtime/resolver/resolver.go:66-151 | For every template whose expressions have values and printable places: describing, printing, parsing, writing in the listed order and cleaning equals structural substitution followed by deletion of what is omitted, and every field is resolved. |
| Template.GraftSubstitutes | kro/graph/parser/schemaless.go:34-90 | Putting the values at the places of the expressions is substitution; nothing else in the tree changes. |
| Trees.PutGet | kro/runtime/resolver/resolver.go:191-246 | After a successful write the path reads back the value. |
| Trees.PutFrame | kro/runtime/resolver/resolver.go:191-246 | Whatever was readable at a path that is neither prefix nor extension reads as before. |
| Trees.PutAddsOnlyGaps | kro/runtime/resolver/resolver.go:250-283 | What becomes readable beside the written path is a null at an array index. |
| Trees.PutFailsUnchanged | kro/runtime/resolver/resolver.go:191-246 | A write that fails has changed nothing: no type error can follow the first created or grown container. |
| Trees.PutOkIff | kro/runtime/resolver/resolver.go:191-269 | A write succeeds if and only if no container on its way is of the wrong kind. |
| Trees.PutBuildsWay | kro/runtime/resolver/resolver.go:191-283 | On the way to the value stand containers of the kinds that the path asks for. |
| Resolver.Traverse | kro/runtime/resolver/resolver.go:163-188 | Reads exactly what `Get` reads. |
| Resolver.CleanOmitSentinels | kro/runtime/resolver/resolver.go:129-151 | Deletes the omitted members at every depth, whatever the order of map keys. |
| Resolver.CleanOmitFree | kro/runtime/resolver/resolver.go:129-151 | Nothing omitted is left inside anything that is not itself omitted. |
| Resolver.CleanKeeps | kro/runtime/resolver/resolver.go:129-151 | Whatever is neither omitted nor inside something omitted stays, at the place to which the deletions in front of it move it, and is cleaned itself. |
| Resolver.CleanAddsNothing | kro/runtime/resolver/resolver.go:129-151 | Everything in the cleaned tree was in the tree, at such a place. |
| Resolver.CleanPathInjective | kro/runtime/resolver/resolver.go:129-151 | No two places move to the same one. |
| Resolver.TemplateResolver.ResolveField | kro/runtime/resolver/resolver.go:96-123 | No path if it does not parse or leads nowhere, even if there is no data; no data if there is no value; otherwise the value stands at the path, and in no other case anything is changed. |
| Resolver.TemplateResolver.Resolve | kro/runtime/resolver/resolver.go:66-86 | All writes in order, then one clean-up; the outcome of each field as of its turn. |
| Resolver.OrderOfWritesIrrelevant | kro/runtime/resolver/resolver.go:72-85 | For paths of which none is a prefix of another every permutation leaves the same resource, omitted array elements included. |
| Resolver.OutcomeIndependent | kro/runtime/resolver/resolver.go:96-123 | For such paths what is reported for a field does not depend on the fields before it. |
| Resolver.AppliedAllGrafts | kro/runtime/resolver/resolver.go:72-85 | Such writes put each value at its place and change nothing else. |
| InPlace.SetValueAtPath | kro/runtime/resolver/resolver.go:191-246 | On mutable maps and slices: the walk with `parent` and `current` leaves the tree that `Trees.Put` gives, on success and on error, and keeps the root map. |
| InPlace.HandleArraySegment | kro/runtime/resolver/resolver.go:250-269 | A short slice is copied into a longer one that takes its place in the parent; everything else in the heap stays. |
| InPlace.GetOrCreateNext | kro/runtime/resolver/resolver.go:274-283 | The member for the next step: what is there, or a new empty container in place of nothing. |
| InPlace.UpdateParent | kro/runtime/resolver/resolver.go:288-295 | The parent's entry is the new value; its other entries stay. |
| InPlace.CleanOmitSentinels | kro/runtime/resolver/resolver.go:129-151 | On mutable maps and slices: keys are deleted and slices replaced in place so that the tree is the cleaned one, and maps keep their identity. |
| InPlaceResolver.Traverse | kro/runtime/resolver/resolver.go:163-188 | The read-only walk over the heap returns the value whose tree is the one read there, or nothing if and only if the tree has nothing there. |
| InPlaceResolver.ResolveField | kro/runtime/resolver/resolver.go:96-123 | In place, outcome and resulting tree are those of the resolver on values. |
| InPlaceResolver.Resolve | kro/runtime/resolver/resolver.go:66-86 | In place, all fields and the clean-up leave the tree that the resolver on values leaves, with the same outcomes. |
| Expansion.CartesianProduct | kro/runtime/collection.go:87-128 | An error if and only if the product of the dimensions up to some point, without empty dimensions before it, exceeds the maximum (`Expansion.SizeCheckOverIff`); nothing if that does not happen and a dimension is empty; otherwise entry k binds every dimension to its digit of k. |
| Expansion.Turn | kro/runtime/collection.go:112-125 | One turn of the odometer: the carry runs from the last index and is left over exactly at the end. |
| Expansion.TurnedRank | kro/runtime/collection.go:112-125 | A turn counts up by one in the mixed radix of the lengths. |
| Expansion.DigitsOfRank | kro/runtime/collection.go:87-128 | Rank and digits are inverse to each other: no index tuple is missed. |
| Expansion.RankOfDigits | kro/runtime/collection.go:87-128 | Rank and digits are inverse to each other: no index tuple occurs twice. |
| Expansion.DigitsLast | kro/runtime/collection.go:103-125 | The last dimension changes fastest: its digit is the remainder, and the others are the digits of the quotient. |
| Expansion.BoundValues | kro/runtime/collection.go:105-111 | With distinct names, the binding has each dimension's value at its index. |
| Expansion.BoundNames | kro/runtime/collection.go:105-111 | Nothing but the names of the dimensions is bound. |
| Expansion.SizeCheckIff | kro/runtime/collection.go:93-101 | Without empty dimensions, checking after every factor refuses exactly the products above the maximum. |
| Expansion.SizeCheckOverIff | kro/runtime/collection.go:93-101 | In general the check refuses if and only if some prefix without empty dimensions has a product above the maximum, so an empty dimension helps only before it is exceeded. |
| Expansion.EmptyTooLate | kro/runtime/collection.go:93-101 | Lengths 3 and 0 are refused with maximum 2, though there is nothing to expand. |
| Objects.ValidateUniqueIdentities | kro/runtime/collection.go:25-35 | Accepts if and only if all identity keys differ. |
| Objects.OrderedIntersection | kro/runtime/collection.go:57-76 | The observed objects unchanged if either side is empty, else the matching ones in desired order. |
| Objects.MatchingAligns | kro/runtime/collection.go:57-76 | With distinct identities exactly the observed objects that are desired remain, each once, in the order of the desired ones. |
| Objects.LastWithKeyIs | kro/runtime/collection.go:57-76 | Of observed objects with the same key the last one counts. |
| Objects.IdentityKeyDecides | kro/runtime/collection.go:37-44 | Keys are equal if and only if group, version, kind, namespace and name are. |
| Objects.NamesTellApart | kro/runtime/collection.go:37-44 | Whatever their texts are, objects that differ in their names only have different keys. |
| Objects.GroupVersionRead | kro/runtime/collection.go:37-44 | Group and version are the parts before and after the slash; without one the group is empty, and with two there is neither. |
| Text.ItoaPlain | kro/runtime/collection.go:130-137 | Numerals are written without zeros before them. |
| Objects.IndexLabelled | kro/runtime/collection.go:130-137 | An item reads its number at the index label if and only if its metadata are a map or missing, and other labels stay if all are strings. |
| Objects.IndexKeepsIdentity | kro/runtime/collection.go:130-137 | The index label changes neither identity nor name. |
| Naming.FindCollectionNodeID | fn.go:597-613 | The longest proper prefix before a dash that is a collection's id, if there is one. |
| Naming.GroupObservedByNodeID | fn.go:568-591 | Every observed resource is listed for exactly the node it belongs to, once, in any order of the map. |
| Naming.UnlabelledSkipped | fn.go:568-591 | A resource that is no node's namesake and has no index label is listed for no node. |
| Reconciliations.LabelledIsListed | fn.go:568-613 | A labelled resource named after a node that stands for many, external or not, is listed for this node and no other. |
| Naming.GroupsPermute | fn.go:568-591 | Two walks over the map list the same resources for the same nodes; only the order of a collection's items can differ. |
| Naming.AnyFirst | fn.go:568-591 | Any of a node's resources can come first in its list. |
| Naming.EmittedBelongsToEmitter | fn.go:655-661 | The composed name of a resource leads back to its own node and of a collection item never to a node directly. |
| Naming.ComposedNamesDiffer | fn.go:655-661 | Composed names of different (node, metadata.name) pairs differ, since valid ids have no dash. |
| Nodes.ExprState.EvalCached | kro/runtime/state.go:52-63 | A cached value is returned again; otherwise the expression is evaluated in the context narrowed to its references, if it has any, and only a value is cached. Where what was cached is right, a returned value is the one that everything observed gives. |
| Meanings.LookMeans | kro/runtime/state.go:52-63 | Looking up or evaluating in any part of the full context keeps all values right. |
| Meanings.SoundWithin | kro/runtime/state.go:52-63 | Values that are right stay right when more is observed. |
| Examples.SharedStateShows | kro/runtime/node.go:203-214 | A built graph and a request for which two walks over a node's dependencies give two outputs: a readyWhen expression and a condition with the same text share a state without references, and whether it is cached when the condition is evaluated depends on the walk (`Examples.ExamplesExist` names such nodes). |
| Nodes.EvalBoolExpr | kro/runtime/eval.go:29-42 | True for `true`, false for `false` and null, pending without a value, and an error otherwise; with right values, true only if the expression holds, and false only if it is false or null. |
| Adequacy.CoveredIsFresh | kro/runtime/eval.go:60-71 | For right references, the narrowed and filtered context gives the value that the whole context gives. |
| Nodes.Node.BuildContext | kro/runtime/node_context.go:35-63 | Exactly the needed and observed dependencies: of one that stands for many the list of its observed objects in order, otherwise its observed object; of the instance everything can be read but the status. |
| Narrowing.FieldsNarrow | kro/runtime/node_resolve.go:181-220 | What no asked field refers to makes no difference to the values, as long as some field refers to something. |
| Narrowing.ConditionsNarrow | kro/runtime/node.go:120-158 | The same of a node's conditions. |
| Narrowing.DimensionsNarrow | kro/runtime/node_resolve.go:223-258 | The same of its dimensions. |
| Nodes.Node.CheckSingleResourceReadiness | kro/runtime/node_readiness.go:55-79 | With right values: ready only if it is observed and all readyWhen expressions are true on everything observed, and with right references then it is. |
| Nodes.Node.CheckCollectionReadiness | kro/runtime/node_readiness.go:81-129 | An external collection is ready if and only if every readyWhen expression is true of every observed item; a collection if and only if it is expanded and either empty or observed in sufficient number with that. |
| Nodes.Node.CheckReadiness | kro/runtime/node_readiness.go:26-44 | The interpreter's answer, and what it means where values are right: `Meanings.CheckedMeans`. |
| Meanings.ReadyNowMeans | kro/runtime/node_readiness.go:26-44 | For every walk: ready only if some condition excludes the node or it is ready on what is observed; with right references an included node is ready if and only if it is ready on what is observed, checking an included node fails only on faults, and an error that is not of missing data comes from a stuck condition below. |
| Nodes.Node.IsIgnored | kro/runtime/node.go:82-159 | Terminates although the instance refers back. With right values: not ignored only if all conditions of the node and of everything it depends on, however indirectly, are true, and ignored only if one of them is false or null. |
| Meanings.IgnoredMeans | kro/runtime/node.go:82-159 | For every walk: `ignored` only if a condition of the node or of a transitive dependency is false or null, `not ignored` only if all of them hold, and, with right references, one of the two whenever all these conditions are decided. |
| Meanings.PendingMeans | kro/runtime/node.go:135-152 | With right references, a condition without a value that refers to the instance only makes the node undecided with an error that does not say that data is missing. |
| Nodes.Node.Resolve | kro/runtime/node.go:190-256 | Resolves as the interpreter does; what is resolved is recorded, pending and failure change nothing. |
| Nodes.Node.GetDesiredIdentity | kro/runtime/node.go:178-187 | Nothing is gated or recorded. With right values: done only if each field at `metadata.name` or `metadata.namespace` has a value, and with right references and none of them fatal, pending if and only if one of them is; name and namespace are those of the object that the node is resolved to, if it is. |
| Identities.IdentityVarsAre | kro/runtime/node.go:57-60 | The identifying fields are those at `metadata.name` and `metadata.namespace`. |
| Identities.IdentityDecided | kro/runtime/node.go:178-187 | When identification is done and when it is pending, for any right values. |
| Identities.IdentityAgrees | kro/runtime/node.go:219-221 | With only the identifying fields filled in, an object has the name and the namespace that it has with all of them filled in. |
| Meanings.ResolveMeans | kro/runtime/node.go:190-256 | For every walk: a node is resolved only if every dependency is excluded or ready, to the node's objects; with right references a node that should be resolved is, and an included one fails only on faults. |
| Nodes.Node.GetDesired | kro/runtime/node.go:170-176 | What is resolved stays resolved and is returned as it is. |
| Nodes.Node.SetObserved | kro/runtime/node.go:299-310 | Records the objects, aligned with an expanded collection, in the place of those recorded earlier. |
| Nodes.MoreObserved | kro/runtime/node.go:299-310 | What is cached stays right when a node is observed that was not observed before. |
| Nodes.Node.EvaluateExprs | kro/runtime/node_resolve.go:181-220 | The interpreter's values of the asked fields; with right values, and asked for all, those of all fields without forEach variables, and with right references whenever all of them have one. |
| Nodes.Node.EvaluateForEach | kro/runtime/node_resolve.go:223-258 | The combinations of the dimensions' lists; none as soon as one list is empty. |
| Nodes.Node.HardResolveSingleResource | kro/runtime/node_resolve.go:28-43 | The template with the values of the given fields filled in, or no result, for all fields and for the identifying ones. |
| Nodes.Node.HardResolveCollection | kro/runtime/node_resolve.go:45-127 | One labelled object per combination, in their order, with pairwise distinct identities, or no result; what an item is made of is said by `Items.ItemVariables`, `Items.FieldReadsVariable` and `Items.ItemNumbered`. |
| Nodes.Node.ExpandItems | kro/runtime/node_resolve.go:77-124 | All items are made, each in the context of its own combination and with its number, or one of them cannot be, or two identities are the same. |
| Faults.RenderedSubstitutes | kro/runtime/node_resolve.go:28-43 | Where fields are those found in the template and their places are printable, the object that a node renders is the template with its expressions replaced by their values and what is omitted deleted. |
| Reconcile.ItemsOfEach | kro/runtime/node_resolve.go:77-118 | Item k of a collection is the object of combination k. |
| Items.ItemVariables | kro/runtime/node_resolve.go:92-95 | In the context of item k every forEach variable has the value of its own list at its own digit of k. |
| Items.ItemDependencies | kro/runtime/node_resolve.go:77-95 | Beside them the context has the observed dependencies that the items' fields refer to, each with its object or the list of its objects, and nothing else. |
| Items.HowManyItems | kro/runtime/node_resolve.go:223-258 | No items as soon as a list is empty, no answer if something is not a list, and otherwise one for each combination unless there are too many. |
| Items.FieldReadsVariable | kro/runtime/node_resolve.go:77-118 | A field that is just a forEach variable reads that variable's value in the item. |
| Items.FieldReadsValue | kro/runtime/node_resolve.go:28-43 | A field of a resolved single node reads the value that its expression has on everything observed. |
| Items.UnplacedFails | kro/runtime/node_resolve.go:28-43 | A field whose path is none or leads nowhere in the template makes rendering fail. |
| Items.ItemNumbered | kro/runtime/node_resolve.go:108-118 | Item k reads k at the index label, if its template can carry labels. |
| Items.EmittedIsGrouped | fn.go:568-691 | What a node emits is listed under this node and no other when it is observed, items of collections by their labels. |
| Failures.UnresolvableFails | fn.go:618-691 | A node that may be resolved ends the run with an error if it has no objects although nothing is pending. |
| Failures.FatalIdentityFails | fn.go:479-496 | An external node ends the reconciliation with an error if its name or namespace is fatal and neither is pending. |
| Failures.FatalCondition | kro/runtime/node.go:120-158 | After true conditions, one that is fatal or no boolean makes the node undecided with an error that does not say that data is missing. |
| Failures.FatalReady | kro/runtime/node_readiness.go:55-79 | After true readyWhen expressions, one that is fatal or no boolean is such an error. |
| Failures.FatalItem | kro/runtime/node_readiness.go:81-129 | So is the first one that is not true of an item, if it is neither false nor pending. |
| Wiring.ExpressionsCache.GetOrCreateExpr | kro/runtime/runtime.go:73-92 | One state per text, the first expression with that text deciding its references; iteration expressions get states of their own. |
| Wiring.FirstIsKept | kro/runtime/runtime.go:73-92 | Of all expressions with a text the first one is kept. |
| Wiring.WiredNode | kro/runtime/runtime.go:94-131 | A wired node has the graph node's kind, template, paths, texts and dimensions, iteration expressions unshared, and as dependencies those of its dependencies that are nodes, and the instance. |
| Wiring.FromGraph | kro/runtime/runtime.go:51-167 | Every node and state of the new runtime is as the graph says, dependencies that are not nodes passed over and the instance linked to all; nothing is evaluated, desired or observed but the instance. |
| Wiring.WorldOrdered | kro/runtime/runtime.go:114-131 | Although the instance's own dependencies make the links cyclic, the instance followed by the graph's order puts dependencies first where ignoring spreads. |
| Sharing.SharingUnnoticedIff | kro/runtime/runtime.go:69-92 | The wired network has the expressions of the graph if and only if expressions with the same text have the same references; what that means for a run is `Extraction.AdequateIffConsistent`. |
| Sharing.OrderedIsBuilt | kro/graph/builder.go:182-261 | An order that the builder finds for the declared graph is one that a runtime can be built for, and conversely. |
| Nodes.Node.CheckConditions | kro/runtime/node.go:96-158 | With right values: not ignored only if all conditions are true and everything they refer to is a dependency and ready, and ignored only if one of them is false or null; with right references decided whenever they are. |
| Faults.DecidedEitherWay | kro/runtime/node.go:82-159 | Where all conditions are decided, a node is excluded if and only if it is not included. |
| World.IncludedStep | kro/runtime/node.go:82-159 | A node is included if and only if its own conditions are met and everything it depends on is included. |
| Reconcile.SolutionUnique | kro/runtime/node.go:190-256 | For an acyclic graph there is one way only in which all nodes are resolved as they should be given the others. |
| Reconcile.RunsConfluent | fn.go:618-691 | With right references, two runs over the same observations that end without an error emit the same resources and ready states. |
| Run.Runtime.BuildDesiredComposed | fn.go:618-691 | The result is the one that the interpreter `Walks.RunFrom` computes from the walk. If the values that are held at first are right, everything emitted is safe; with right references a run without an error resolves every node if and as it should be and emits exactly the objects of the resolved ones beside what was there, and only faults end a run with an error. |
| Runs.RunMeans | fn.go:618-691 | The same of the interpreter, for every walk. |
| Run.Runtime.Visit | fn.go:619-689 | One node: skipped, pending, failed, or resolved and emitted, as the interpreter has it. |
| Runs.VisitMeans | fn.go:619-689 | One node keeps all of the run's achievements, and with right references fails only on faults. |
| Run.Runtime.Emit | fn.go:650-687 | Each object is emitted as the node's id, followed in a collection by a dash and the object's name; of objects with the same name the last one stays, and what was there under other names too. |
| Run.Runtime.SetObserved | fn.go:143-194 | Observed objects may arrive at any time and in any order, and those of a composed resource take the place of those of an external reference with its name. |
| Run.Runtime.ExternalRefSelectors | fn.go:448-512 | Which external nodes are identified or resolved, what is cached and whether the reconciliation goes on are what the interpreter `Walks.SelectFrom` computes from the walk. |
| Run.Runtime.SelectorFor | fn.go:451-508 | One external node: identified without waiting, or resolved with its dependencies ready and a selector required (`Labels.SelectorReads`, `Labels.LabelDecides`); missing data is skipped. |
| Selectors.SelectorsFailIff | fn.go:448-545 | With right references and without faults (values are of the kinds asked for, and a selector is left of every template of an external collection, filled in with the values that its expressions have), some walk fails while external nodes are asked for if and only if an external collection depends, however indirectly, on a node whose condition on the instance alone has no value, with nothing in the way of its being looked at. |
| Runs.EmissionSafe | fn.go:618-691 | An emitted resource belongs to a node with which, and with everything it depends on however indirectly, all conditions are true and what they refer to is ready; everything it depends on directly is ready: observed, with its readyWhen expressions true, a collection expanded and observed in number; where the kept values are right. |
| Runs.MetIsEmitted | fn.go:618-691 | Conversely, with right references every object of a node with which that is so, and which can be resolved, is emitted under its name, and marked ready if and only if there are readyWhen expressions and the node itself is ready. |
| Reconcile.EmittedApart | fn.go:655-687 | Different nodes never emit under the same name. |
| Reconcile.AllEmittedIff | fn.go:652-687 | All objects of a node are emitted if and only if no two different ones have the same composed name. |
| Reconcile.NamesCanCollide | fn.go:655-661 | Two objects with different identities whose composed names in a collection coincide. |
| Reconcile.EntriesCount | fn.go:652-687 | As many resources are emitted for a node as it has objects if and only if all composed names differ, and otherwise fewer. |
| Reconcile.CollisionNeverReady | kro/runtime/node_readiness.go:81-129 | A collection with such a collision is not ready as long as the items observed of it bear names that it emits now: they are fewer than are desired. (Items under other names, left from earlier, are counted too.) |
| Reconciliations.Reconciliation | fn.go:114-203 | Building the runtime, recording what external references found, asking for them again, recording the grouped composed resources and building the desired resources together: the groups list the observed resources in some order, and the outcome is the one that the walk determines. Where kept values are right, a success is safe and, with right references, the determined result, and without faults and obstacles it succeeds. |
| Reconciliations.RunsReconciled | fn.go:114-203 | A run that succeeds on right values is safe and, with right references, ends with the determined result. |
| Reconciliations.KeptUnlessReplaced | fn.go:131-194 | The values kept from asking for external nodes are right if no composed resource takes the place of what was found. |
| Reconciliations.RunsSucceedIff | fn.go:114-203 | With right references and without faults, neither when external nodes are asked for nor afterwards (`Unfailing`), all walks succeed, so that missing data alone never ends a reconciliation, if and only if no external collection meets a dependency whose undecided condition refers to the instance only. |
| SelectorExamples.ObstacleShows | fn.go:160-164 | A built graph with right references and a request for which missing data alone ends the reconciliation, whatever the walk. |
| SelectorExamples.ReplacedShows | fn.go:131-194 | A built graph with right references and unshared texts, and a request without mixed collections, for which two walks give two outputs: a composed resource takes the place of an external object after a value has been obtained from it (`SelectorExamples.SelectorExamplesExist` names such nodes). |
| Kept.KeptRightIff | fn.go:448-512 | Without external collections, the values kept from identifying external nodes are right for all oracles and walks if and only if no identity refers to a node whose object is replaced. |
| Kept.UnreplacedConfluent | fn.go:114-203 | In that case reconciliations that succeed emit the same resources, whatever else is replaced. |
| Looked.KeptRightExactly | fn.go:131-203 | For all graphs and every walk: the values kept from asking for external nodes, identities as well as what resolving external collections looks at, are right for all oracles if and only if no oracle makes the walk keep a value of an expression that may read a node whose object is replaced. |
| Looked.WrongIfLooked | fn.go:448-512 | If one does, there is an oracle for which asking for external nodes goes the same way and a kept value is wrong afterwards. |
| Looked.NothingToLookAt | fn.go:448-512 | That happens for no walk and no oracle if no condition, field or readyWhen expression of a single node may read what is replaced. |
| Looked.UnlookedConfluent | fn.go:114-203 | Two reconciliations that succeed without such a value emit the same resources, whatever is replaced. |
| Labels.LabelsFilledIff | fn.go:512-545 | Of a template whose labels are filled in, a selector is left if and only if every expression in the place of a label becomes a string, null or is omitted. |
| Labels.SelectorReads | fn.go:512-545 | Where a selector is read off, there is one, and its labels and the keys, operators and values of its requirements are strings, null or missing. |
| Labels.SelectorIsProper | kro/graph/builder.go:267-275 | A template that has a selector as it stands, with expressions anywhere in its labels and requirements, still has one when strings are put in. |
| Labels.LabelDecides | fn.go:512-545 | For every external collection with an expression on the instance as the value of a label: the graph is built and of the kind of `Confluence.WalkNeverShowsIff`, and whatever the walk, its reconciliation succeeds if and only if the value is a string, null or omitted, which is when nothing is at fault (`Labels.LabelsExist` names such a graph). |
| Extraction.ExternalCollectionReady | kro/runtime/node_readiness.go:81-129 | An external collection whose readyWhen expressions refer to itself, as the builder has it, is ready if and only if nothing is observed of it or all of them are true without looking at anything. |
| Confluence.ReconciliationsConfluent | fn.go:114-203 | Two reconciliations of the same request that succeed emit the same resources for every order of the nodes and every order in which maps are walked, if the graph is inspected without captures, the same texts have the same references, no used expression looks at the order of a collection of which different items are observed, and no composed resource takes the place of what an external reference has found. |
| Confluence.WalkNeverShowsIff | fn.go:114-203 | In a graph whose expressions can have values of the kinds asked for (`ProperGraph`: booleans, lists, and strings for the fields of external collections, templated labels included), where everything is observed and nothing that was found is replaced, walks never show in the output of successful reconciliations, whatever expressions evaluate to, if and only if no used expression refers to a collection of which two different items are observed. |
| Confluence.WalkShows | fn.go:568-591 | If one does in such a graph, there are an oracle that never fails and reads recorded references only, and two walks over the observed resources, after which reconciliations succeed with two different outputs. |
| Examples.OrderOfItemsShows | fn.go:568-591 | A built graph and a request with two items for which two walks over the observed resources give two outputs. |
| Reordering.ReorderedConfluent | kro/runtime/node_context.go:35-63 | Runs over observations that differ in the order of items only end with the same, if every used expression refers to no reordered collection or does not look at the order. |
| Exactness.RunExists | fn.go:618-691 | With right references there always is a result for a run to end with. |
| Status.EvaluateAvailable | kro/runtime/node_resolve.go:181-220 | With pending data tolerated, the values that are there; with right references all of them, unless an evaluation is fatal. |
| Status.SoftResolve | kro/runtime/node_resolve.go:133-175 | Never fails on the shape of paths: without a fatal evaluation it yields every available value at its path, containers of the right kinds on the way to it, and beside that only the status itself and nulls at array indices. |
| Status.UpsertsFill | kro/runtime/node_resolve.go:159-173 | Writing values at places of one template into an empty status always succeeds, reads back every value, has the template's containers on the way and otherwise only nulls at array indices. |
| Status.ScalarsInValues | kro/runtime/node_resolve.go:133-175 | Whatever in a partial status is neither a container nor null is part of a value, so no template text is left. |
| Status.StatusPathParses | kro/graph/builder.go:620-622 | The path after `status.` parses to the field below `status`, even where the path starts with a quoted name. |

## Left out

- Parsing, type checking and execution of CEL: evaluation is a function that is given.
- Schemas: type validation of templates, schema-aware wrapping of observed values and the plain paths that `parseSchemalessResource` also returns.
- Everything around the decisions in `fn.go`: requests and responses, decoding, schema fetching, logging and metrics.
- Error texts: of an error its class is kept (pending, waiting, fatal, cycle, missing path, missing data).
- `container/heap`: the queue is a set from which the least element is taken (`Orders.PopLeast`); dependents are a set where the source has a list without repetition.
- Machine integers in `cartesianProduct` and in slice indices: lengths are unbounded, so a product that overflows before it is compared is not modelled.
- `strconv.Quote` beyond quotation marks, backslashes, line breaks and tabs: control characters and invalid text are taken as they are.
- Strings are sequences of characters without encoding; the source walks bytes.
- InPlaceResolver.Resolve: a map or slice that is written to two fields of one resource is shared between them in the source; here only scalars may be written twice (`NothingShared`), so this aliasing is not captured.
- Nodes.Node.Render: the node methods render with the resolver on values, and its in-place form is related to it in `InPlaceResolver`; what several nodes might share through one cached map is not captured.
- `DeleteTargets`, and identity-only resolution of nodes that are not external: not used by a reconciliation.
- Nodes.Node.SetObserved: an empty list for a single resource, which would end in a panic when a context is built and never arrives, is not modelled.
- Run.Runtime.SelectorFor: whether a selector can be read off is decided by `Walks.HasSelector` (`matchLabels`, if there, are strings, and `matchExpressions` requirements); the selectors themselves, names and labels, are left out.
- Run.Runtime.ExternalRefSelectors: the selectors that it returns are left out, as are those of a single reference, which are made of names and namespaces.
- Kept.KeptRightIff: its condition is about references only and it is for graphs without external collections; `Looked.KeptRightExactly` is for all graphs and about what can be looked at.
- Confluence.WalkNeverShowsIff: exact where every node is observed and nothing that was found is replaced; otherwise the conditions of `Confluence.ReconciliationsConfluent` suffice, but a node whose dependencies are never observed is not emitted in any order, and a replaced object may never have been looked at.
- Run.Runtime.BuildDesiredComposed: `composed.From`, which converts an object to a composed resource and may fail, is left out.
- GraphBuilder.BuildDependencyGraph: dependencies are given, as `References` extracts them; the check that every forEach dimension occurs in an identity field is not modelled.
- Inspector.Inspector.InspectIdent: the access path that is reported with an identifier is left out; nothing in a reconciliation reads it.
- References.ExtractDependencies: unknown functions and the `omit` gate, which also fail in the source, are not modelled; references, dependencies and iterators are sets; their order in lists and the classification of variables as static, dynamic or iteration are not modelled, and whether a field is an iteration is given.
- The inspector's report of functions and of the `omit` call, and its printers: printing is a parameter.
- Wiring.FromGraph: expression states are created before the nodes that hold them, which nothing can observe, since the fields of a node that never change are constants here.
- Deep copies: templates are values, so a copy is the value itself.
