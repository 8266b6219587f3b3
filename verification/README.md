# SDP Studio, a Dafny model

SDP Studio edits data pipelines as graphs and compiles them. This project models the compiler and four smaller
pieces of its runtime, and proves what they promise.

A document is a list of nodes (an operator type and a configuration) and a list of edges between ports. `validate_graph`
checks it, `lower_pipeline` orders it and freezes it into an intermediate form, and the backends turn the graph view of
that form into a Python module of dataset definitions, an SQL script, a preview program or a row trace. `reconcile_python`
reads an edited module back into the document. Operators stay uninterpreted: a parameter `op` maps an operator type, its
configuration, its inputs by port and an output port to a dataframe. `Meaning` ties one dataframe to every node output by
one equation per node; a well-formed document has exactly one solution, its denotation, and every emitted form is compared
with it.

| file | what it models |
|---|---|
| Sorting, Digraph, Documents | stable sorting, reachability, the persisted document |
| Graph, Closures, Validation | `GraphIndex` and `validate_graph` |
| Meaning | the denotation of a document |
| Lowering | freezing, execution modes, the graph view |
| PythonNames, PythonProgram, Scopes, PythonBackend | names, generated lines and the machine that runs them, definition scopes, what a module computes |
| PythonEmitter, PythonDeterminism, PythonProject, PythonCorrectness | the emission loops, independence of listing, `generate_python_project` end to end, its theorems |
| SourceMap | source ranges, their lookup, ownership markers |
| SqlBackend, SqlProject | nested queries, `generate_sql_project`, agreement with Python |
| Preview | `generate_preview_script` |
| Reconcile, PrintedForms, RoundTrip | the reader, the printed syntax it reads, and the reader against the printer |
| RowTrace, SparkEvents | the bounded trace interpreter and the event-log summaries |
| Cron, Scheduler | cron matching, the worker and its shared claim |
| CollaborationLog | the numbered event log with snapshots and compaction |
| AutoLayout | the longest-path layout of the canvas |

Where the code does not do what one would expect of it, the exact condition is proved:

- A definition that reads the accepted output of a quarantine split uses a variable that is never assigned; the module
  theorem says that running it stops exactly then (`GeneratedModuleMeans`). The preview of a split shows its input
  unfiltered (`SplitShowsItsInput`, `SplitPreviewIsUnfiltered`).
- `_var` keeps the last eight letters and digits of an id, while the reader expects the whole id. The two variables agree
  exactly for ids of at most eight lower-case letters and digits (`AgreesExactly`); for longer ids, such as the ULIDs the
  studio creates, every edit is silently dropped (`LongIdsLoseEdits`).
- For short ids the edited document comes back exactly when every printed node is legible and recovered
  (`ShortIdsRoundTrip`). Edits apart, the reader rewrites printed datasets and dataset references, which gain a "table"
  entry, flattened structs, which gain "columns", event deduplications without a watermark and posexplodes
  (`OperatorReads`, `UneditedComesBackChanged`). A module with a quality check, a group, custom code in a
  lambda or a rename of nothing is reported as code-owned (`ReconcilesTo`, `QualityIsCodeOwned`).
- Generation raises instead of reporting a problem exactly for an edge from a node that can be ordered to one that cannot
  (so for some cyclic documents), for sink options that cannot be printed, and, inside a definition, for parameters,
  constants, readers that cannot be printed and transforms that raise anything but a ValueError (`GeneratePython`,
  `CrashesExactly`). The SQL generator likewise catches only ValueErrors (`GenerateSql`).
- The row trace takes the sides of a join in the order of the edge list, not by port (`JoinSidesFollowListing`).
- A minute is claimed twice when its marker comes back after another one (`ClaimedOnceExactly`); an unknown concurrency
  policy, which an update accepts, lets the worker lose track of a live dispatch (`SecondDispatchIsForgotten`).
- Saving a snapshot without a number on an empty log makes numbers start again from 1 (`SaveOnEmptyReissues`), and an
  automatic bundle forgets the updates of the bundle it replaces (`BundleHoldsLastHundred`).
- A sink "x" beside a dataset "flow_x" passes every check and defines one Python function twice
  (`FunctionsCollideExactly`).
- SQL view names are not checked for collisions, and the identifier rules of the two backends differ (`ViewNamesCollide`,
  `ScriptMeans`).

Parameters stand for what is outside the model: `op` for the operators, `emits` and `rules` for whether printing a
configuration succeeds, raises a ValueError or raises something else, `other` for the printed form of custom code and of
fields whose type is not the documented one, `compiles` for Python's parser, `run` for the row interpreter, `clock` for
the calendar, `round` for the rounding of the skew, `prologue`, `head` and `tail` for fixed text, and `finished` for the
tasks that end while a tick waits.

## Model

| member | source | states |
|---|---|---|
| Graph.CountIndegrees | python/sdpstudio_core/graph.py:35-38 | the first loop counts, for each node, its edges from existing nodes |
| Graph.ReleaseTargets | python/sdpstudio_core/graph.py:43-47 | walking the sorted edges of a finished node counts its targets down, queues each target at its last edge once all its inputs are finished, and fails exactly at a target that does not exist |
| Graph.TopologicalOrder | python/sdpstudio_core/graph.py:34-48 | the counting loop computes the specified order; its only failure is the KeyError of an edge from an ordered node to a missing node |
| Graph.OrderFacts | python/sdpstudio_core/graph.py:39-48 | the order lists existing nodes once, puts every edge's source before its target and leaves out only nodes still waiting for a left-out node |
| Graph.OrderIsAcyclicPart | python/sdpstudio_core/graph.py:34-48 | a node is in the order if and only if it is neither on a cycle nor behind one |
| Graph.ShortOrderMeansCycle | python/sdpstudio_core/graph.py:272-280 | the order is shorter than the node list if and only if the graph has a cycle; otherwise it holds every node |
| Graph.FirstInFirstOut | python/sdpstudio_core/graph.py:39-48 | nodes leave the queue in the order in which their last inputs finished: those without inputs first, by id, and those released by one node by the id of their last edge from it |
| Graph.OnlyFirstOut | python/sdpstudio_core/graph.py:39-48 | the order is the only arrangement of its nodes with this property |
| Graph.OrderIgnoresListing | python/sdpstudio_core/graph.py:39-48 | permuting the node and edge lists does not change the order |
| Validation.ValidateGraph | python/sdpstudio_core/graph.py:147-328 | no error is reported if and only if the document is well formed (listed operators with their required fields and no secret literals, edges between existing ports of compatible modes, one edge per required port, no cycle); otherwise exactly the problems the document has are reported, each kind for the node, field, edge or port concerned; the KeyError escapes exactly for an edge from an ordered node to a missing one |
| Validation.SecretsAreFound | python/sdpstudio_core/graph.py:112-144 | a configuration is reported exactly when a path of keys and indexes leads to an object with a secret literal, at any depth |
| Closures.Ancestors | python/sdpstudio_core/graph.py:50-60 | the worklist returns exactly the nodes that reach the node by one or more edges |
| Closures.Descendants | python/sdpstudio_core/graph.py:62-73 | the worklist returns exactly the nodes reached by one or more edges |
| Closures.ReachesBackwards | python/sdpstudio_core/graph.py:50-73 | being an ancestor and being a descendant are converses |
| Closures.TraceToSources | python/sdpstudio_core/graph.py:106-109 | the trace is the ordered nodes that lead to the node, in topological order |
| Closures.TraceEndsAtNode | python/sdpstudio_core/graph.py:106-109 | on an acyclic graph the trace is closed under parents and ends with the requested node |
| Closures.Component | python/sdpstudio_core/graph.py:88-94 | the inner loop collects the whole class of weak connection of its start |
| Closures.ConnectedComponents | python/sdpstudio_core/graph.py:75-96 | the result partitions the nodes into the classes of weak connection, each once, by increasing least node |
| Lowering.ThawFreeze | python/sdpstudio_core/ir.py:174-191 | thawing a frozen JSON value gives the value back |
| Lowering.FreezeIsInjective | python/sdpstudio_core/ir.py:174-182 | values with one frozen form are equal, so the frozen form is canonical |
| Lowering.InferModes | python/sdpstudio_core/ir.py:240-256 | the mode loop gives every ordered node the mode of its own rule: a source decides for itself, another node streams when a parent does |
| Lowering.ModesAreReachability | python/sdpstudio_core/ir.py:240-256 | when sources have no inputs, a node is streaming if and only if it is a streaming source or has one upstream |
| Lowering.ModeMapsAgree | python/sdpstudio_codegen/python_backend.py:75-89 | the modes inferred on the lowered view of an acyclic document are those inferred on the document |
| Lowering.LowerPipeline | python/sdpstudio_core/ir.py:232-317 | the pipeline holds the ordered nodes with frozen configurations and reachability modes, and a flow for each edge with its ends and ports, sorted by id |
| Lowering.LoweringKeepsGraph | python/sdpstudio_core/ir.py:120-140 | on an acyclic document the graph view has the same nodes, configurations and edges, the same topological order and the same streaming nodes |
| Meaning.OneEdgePerPort | python/sdpstudio_core/graph.py:240-270 | in a well-formed document at most one edge enters a port |
| Meaning.MeaningExists | python/sdpstudio_codegen/python_backend.py:519-601 | every well-formed document has a solution of its node equations over uninterpreted operators |
| Meaning.MeaningsAgreeWithin | python/sdpstudio_codegen/python_backend.py:519-601 | two interpretations of the operators give one meaning on every parent-closed set of nodes on whose operators they agree |
| Meaning.MeaningIsUnique | python/sdpstudio_codegen/python_backend.py:519-601 | two solutions agree on every node output, so the denotation is unique |
| PythonNames.VarsApart | python/sdpstudio_codegen/python_backend.py:68-72 | two variables are equal only for equal id suffixes and equal port suffixes |
| PythonNames.SuffixIsLastEight | python/sdpstudio_codegen/python_backend.py:68-69 | a variable takes the last eight letters and digits of the node id, in lower case, and what precedes them does not count |
| PythonNames.VarNamesApart | python/sdpstudio_codegen/python_backend.py:68-72 | ids that differ in their last eight letters and digits give different variables for all node outputs |
| PythonNames.IdentifierIsValid | python/sdpstudio_codegen/python_backend.py:59-65 | the identifier of any name is a Python identifier, and identifiers stay as they are |
| PythonNames.RunBecomesUnderscore | python/sdpstudio_codegen/python_backend.py:59-60 | a run of other characters between words becomes one underscore, however long it is |
| Scopes.ScopeClosed | python/sdpstudio_codegen/python_backend.py:382-396 | a scope holds its starts and the inputs of each member that is not a dataset |
| Scopes.Collect | python/sdpstudio_codegen/python_backend.py:384-396 | the worklist stays inside every set that absorbs its starts and ends closed |
| Scopes.CollectScope | python/sdpstudio_codegen/python_backend.py:382-396 | the worklist computes exactly the nodes that lead to a start without passing through a dataset |
| PythonBackend.ParentsFound | python/sdpstudio_codegen/python_backend.py:536-545 | the sorted loop finds at each port the variable of the one edge that enters there |
| PythonBackend.OperatorMeans | python/sdpstudio_codegen/python_backend.py:546-575 | a printed operator computes the operator on the meaning of its inputs, or reads an unbound variable exactly when an operand leaves a split by its accepted port |
| PythonBackend.NodeRuns | python/sdpstudio_codegen/python_backend.py:525-582 | running the lines of a node after those of its inputs binds its outputs to their meaning |
| PythonBackend.HeadRuns | python/sdpstudio_codegen/python_backend.py:501-514 | running the head of a definition declares it as its own operator: a sink is created before its flow is attached, and every decorator declares the dataset it is printed for |
| PythonBackend.NodePartRuns | python/sdpstudio_codegen/python_backend.py:526-583 | the lines around the assignments of a node register its quality check and, with hooks, run it on and capture the plan of the node's own value |
| PythonBackend.BodyRuns | python/sdpstudio_codegen/python_backend.py:519-591 | running a definition body defines every variable before use and binds each node of the scope to its meaning, or stops at the first node that reads an accepted port |
| PythonBackend.ScopeBefore | python/sdpstudio_codegen/python_backend.py:516-525 | every dataset a definition reads comes earlier in the topological order |
| PythonBackend.DefinitionRuns | python/sdpstudio_codegen/python_backend.py:497-610 | running one definition stores the denotation of its dataset under its name, declares it as its operator, notes the nodes of its scope and changes nothing else, or stops on an accepted port |
| PythonBackend.ModuleRuns | python/sdpstudio_codegen/python_backend.py:497-610 | the same for every prefix of the module in topological order |
| PythonEmitter.CollectParents | python/sdpstudio_codegen/python_backend.py:536-545 | the loop builds the parent map, later edges overwriting earlier ones |
| PythonEmitter.EmitBody | python/sdpstudio_codegen/python_backend.py:525-591 | the node loop emits exactly the specified parts and ranges, refuses when an emitter raises a ValueError and crashes when any other exception escapes |
| PythonEmitter.EmitDefinition | python/sdpstudio_codegen/python_backend.py:497-610 | head, body, return and the ranges of one definition |
| PythonEmitter.OrderedScope | python/sdpstudio_codegen/python_backend.py:519-520 | the scope filtered by the topological order |
| PythonEmitter.EmitOutput | python/sdpstudio_codegen/python_backend.py:497-609 | one output crashes exactly when its sink options or a node of its scope raise something uncaught, and prints exactly when all of them print |
| PythonEmitter.EmitModule | python/sdpstudio_codegen/python_backend.py:497-613 | the definition loop emits the specified definitions with their source map exactly when every sink head and every scope prints, and crashes exactly when a sink head cannot be printed or a node of a scope raises something uncaught |
| PythonEmitter.DefinitionsText | python/sdpstudio_codegen/python_backend.py:497-610 | the text of the emitted definitions is the program whose runs are reasoned about |
| PythonDeterminism.WellFormedIgnoresListing | python/sdpstudio_core/graph.py:147-328 | permuting the lists of a well-formed document leaves it well formed |
| PythonDeterminism.ParentsIgnoreListing | python/sdpstudio_codegen/python_backend.py:536-545 | the parents of a node do not depend on the listing |
| PythonDeterminism.ScopesIgnoreListing | python/sdpstudio_codegen/python_backend.py:382-396 | nor do the definition scopes and their order |
| PythonDeterminism.CompilationIgnoresListing | python/sdpstudio_codegen/python_backend.py:426-613 | nor do the emitted definitions, the source map, and whether generation succeeds, refuses or crashes |
| PythonProject.SemanticProblems | python/sdpstudio_codegen/python_backend.py:92-166 | exactly the misfits are reported: a mode that does not fit its output, a join without a condition, a name or an identifier declared before; none if and only if everything fits |
| PythonProject.ViewOfAny | python/sdpstudio_core/ir.py:258-317 | the view of any document, cyclic or not, has exactly the orderable nodes and all edges |
| PythonProject.GeneratePython | python/sdpstudio_codegen/python_backend.py:399-613 | a module is generated exactly for the documents that pass every check and is then the specified one; an exception escapes exactly for an edge from an orderable node to one that is not, or for an accepted document with sink options or a node whose printing raises something uncaught |
| PythonCorrectness.CleanMeansUnused | python/sdpstudio_codegen/python_backend.py:538-545 | a definition stops at an unbound variable exactly when it prints an edge that leaves a split by its accepted port |
| PythonCorrectness.GeneratedModuleMeans | python/sdpstudio_codegen/python_backend.py:382-610 | run against any store the generated module leaves every dataset and sink equal to its denotation and declared as its own operator, reads streaming tables and no others as streams, registers the quality checks of the printed nodes and with hooks runs them on, and captures the plans of, their denotations, and leaves all else alone; or it stops, exactly when some definition prints an edge from an accepted port |
| PythonCorrectness.CollidingInputs | python/sdpstudio_codegen/python_backend.py:68-72 | why the id suffixes must differ: a combining node whose two inputs share a variable combines one dataframe with itself |
| PythonCorrectness.FunctionsCollideExactly | python/sdpstudio_codegen/python_backend.py:499-515 | two definitions of an accepted document define Python functions of one name exactly when one is a sink and the other a dataset named like its flow |
| PythonCorrectness.CrashesExactly | python/sdpstudio_codegen/python_backend.py:501-557 | generation of a well-formed document crashes exactly when the options of a sink cannot be printed, or a definition is built from a parameter, a constant, a reader that cannot be printed or a transform whose emitter raises anything but a ValueError |
| PythonCorrectness.GeneratedSourceMap | python/sdpstudio_codegen/python_backend.py:584-609 | the source map of a generated module is laminar, node ranges point at the assignment of the node exactly when no marker or check registration precedes it, and output ranges run from declaration to return |
| PythonCorrectness.GeneratedMarkers | python/sdpstudio_codegen/reconcile.py:43-55 | parsing the markers of the generated text returns the regions of all printed nodes in order whose ids are non-empty and free of blanks, and nothing when markers are off |
| SourceMap.ModuleLaminar | python/sdpstudio_codegen/python_backend.py:584-609 | output ranges are disjoint and increasing, node ranges are distinct increasing points, each strictly inside the output range that emitted it |
| SourceMap.LookupFindsNode | python/sdpstudio_runners/local.py:115-128 | the smallest-range lookup has one answer: the node whose range starts at the line, else the output around it, and none exactly when no output is around it |
| SourceMap.LookupIsFirstSmallest | python/sdpstudio_runners/local.py:115-128 | on any ranges the lookup finds the first of the smallest ranges around the line, and nothing exactly when there is none |
| SourceMap.PositionsArePhysical | python/sdpstudio_codegen/python_backend.py:584-609 | a range counts entries: an entry starts at the physical line of its number if and only if all entries before it are single lines |
| SourceMap.ParseOwnershipMarkers | python/sdpstudio_codegen/reconcile.py:38-55 | the parsing loop computes the specified regions with their owners |
| SourceMap.MarkersRoundTrip | python/sdpstudio_codegen/reconcile.py:43-55 | parsing marked definitions gives back their regions in order |
| SqlBackend.CycleErrorIsCycle | python/sdpstudio_codegen/sql_backend.py:165-174 | on any closed graph, cyclic or not, the cycle error names a node that is its own ancestor and an ancestor of the node asked for |
| SqlBackend.PathIgnored | python/sdpstudio_codegen/sql_backend.py:165-176 | on an acyclic graph the query of a node does not depend on the path along which it is inlined |
| SqlBackend.ExpressionMeans | python/sdpstudio_codegen/sql_backend.py:165-211 | a query the backend accepts, built by inlining all ancestors, evaluates to the denotation of the node output |
| SqlBackend.AcceptsExactly | python/sdpstudio_codegen/sql_backend.py:165-211 | a node has a query if and only if it and everything upstream of it are supported, print without an error and no split is read by a join |
| SqlBackend.RaisedIsUpstream | python/sdpstudio_codegen/sql_backend.py:59-211 | an exception other than a ValueError comes from a node upstream whose own printing raises it once its input has a query |
| SqlProject.ExpressionIgnoresListing | python/sdpstudio_codegen/sql_backend.py:165-211 | the queries do not depend on the listing |
| SqlProject.EmitStatement | python/sdpstudio_codegen/sql_backend.py:242-283 | a dataset gets its statement, which declares what the dataset is, exactly when everything upstream is supported and prints and the statement parses; anything but a ValueError escapes |
| SqlProject.GenerateSql | python/sdpstudio_codegen/sql_backend.py:214-286 | a script is generated exactly for the well-formed documents whose splits are supported and whose datasets are all expressible; it holds one statement per dataset in topological order; an exception escapes exactly when validation raises or printing a dataset raises anything but a ValueError |
| SqlProject.RaisesIsUpstream | python/sdpstudio_codegen/sql_backend.py:257-267 | such an exception comes from the final parse or from printing a node upstream of the dataset |
| SqlProject.ScriptMeans | python/sdpstudio_codegen/sql_backend.py:239-283 | after the script each view holds the denotation of the last dataset of its name and is declared as its operator, a CDC flow as a temporary view; nothing else changed |
| SqlProject.SqlAgreesWithPython | python/sdpstudio_codegen/sql_backend.py:214-286 | on a document both backends accept the SQL view of a dataset holds what the Python module stores for it, whenever the SQL and the Python operators agree on the nodes upstream of it |
| SqlProject.SqlIdentIsValid | python/sdpstudio_codegen/sql_backend.py:24-26 | a view name consists of word characters, with no leading digit and no underscore at either end, and such names stay as they are |
| SqlProject.ViewNamesCollide | python/sdpstudio_codegen/sql_backend.py:24-26 | two names the Python identifier rule keeps apart share one view name |
| Preview.VarsFound | python/sdpstudio_codegen/preview.py:183-186 | the loop finds at each port the variable of the edge that enters there |
| Preview.PreviewShowsRoot | python/sdpstudio_codegen/preview.py:174-196 | the program assigns before it reads, and its frame is the output of the root computed as if splits passed every row on |
| Preview.PreviewShowsNode | python/sdpstudio_codegen/preview.py:14-38 | a program printed for a request shows the requested node itself, datasets and sinks included, rebuilt from the tables of the datasets strictly upstream, as if splits passed every row on |
| Preview.PreviewIsMeaning | python/sdpstudio_codegen/preview.py:14-196 | without splits among what is rebuilt the frame equals the denotation of the requested node |
| Preview.PreviewReadsSnapshots | python/sdpstudio_codegen/preview.py:180-182 | a dataset is read from its current snapshot, also when it is a streaming table |
| Preview.SplitShowsItsInput | python/sdpstudio_codegen/preview.py:180-189 | whatever is upstream, previewing a split shows exactly what previewing its input shows |
| Preview.ShownExactly | python/sdpstudio_codegen/preview.py:178-189 | a node has a preview expression if and only if it is no component input, parameter or constant and its emitter prints |
| Preview.FindScope | python/sdpstudio_codegen/preview.py:14-38 | the scope and root of a preview: the first input of a dataset or sink and the node itself otherwise, or none for a definition without an input |
| Preview.EmitPreview | python/sdpstudio_codegen/preview.py:175-191 | the emission loop prints one assignment per scoped node, or an exception escapes at the first node without an expression |
| Preview.GeneratePreview | python/sdpstudio_codegen/preview.py:41-196 | a program is printed exactly for requests that pass every check, whose scope has expressions and whose program compiles; an exception escapes exactly when validation raises or a checked request has a node without an expression |
| Reconcile.ReadingIsStable | python/sdpstudio_codegen/reconcile.py:238-391 | whether an assignment is understood does not depend on the configuration, and reading it twice changes nothing more |
| Reconcile.ReconcilePython | python/sdpstudio_codegen/reconcile.py:58-407 | the graph follows the code if and only if as many functions are declared on dp as there are datasets and external sinks, a source that is not blank declares something, and every declared function has only known call decorators, only assignments, plan captures and returns, and no unreadable value for a known variable; otherwise the document is kept |
| Reconcile.ReadsWhatIsShown | python/sdpstudio_codegen/reconcile.py:238-391 | a call is read exactly when its literals can be those of a configuration; they then are those of the result, whose other entries stay |
| Reconcile.RefusedExactly | python/sdpstudio_codegen/reconcile.py:220-350 | an assignment is reported exactly when its value is no attribute call, or filters by a call that is no F.expr of a text |
| Reconcile.ComesBackNodewise | python/sdpstudio_codegen/reconcile.py:114-407 | when no decorator edits anything, each node comes back with what the declared functions assign to its own variable, read in their order |
| Reconcile.DecoratorEdits | python/sdpstudio_codegen/reconcile.py:117-185 | a decorator with a text as first argument renames the first node named like its function, and one of a CDC flow writes keys and sequence column to that node or else to its target; nothing else changes |
| Reconcile.KeysClashExactly | python/sdpstudio_codegen/reconcile.py:115-115 | the reader takes two ids for one variable if and only if they differ only in a dash where the other has an underscore |
| PrintedForms.LiteralReads | python/sdpstudio_codegen/reconcile.py:238-391 | reading a printed source.table, filter, select, derive, drop or limit gives its literals back, except an empty column list (select reads the star, drop nothing) and a negative count (nothing) |
| PrintedForms.OperatorReads | python/sdpstudio_codegen/reconcile.py:238-391 | reading any other printed operator is refused exactly for a bare variable or a rename of nothing, and leaves the configuration alone exactly when a reference has its name as table, a flattened struct its column as columns, an event deduplication its watermark and a posexplode its target in mapping |
| PrintedForms.ReferenceRewritten | python/sdpstudio_codegen/reconcile.py:238-245 | an unedited dataset reference gains a table entry |
| PrintedForms.FlattenRewritten | python/sdpstudio_codegen/reconcile.py:298-307 | an unedited flattened struct gains a columns entry |
| RoundTrip.NodeLinesRead | python/sdpstudio_codegen/reconcile.py:186-236 | markers and plan captures are skipped, and so is the second assignment of a split: the lines of a node amount to its assignment |
| RoundTrip.QualityLinesRead | python/sdpstudio_codegen/reconcile.py:186-220 | the registration of a quality check is reported |
| RoundTrip.DecoratorsRead | python/sdpstudio_codegen/reconcile.py:117-185 | the decorators of a generated function change nothing, also those of a CDC flow that keeps its name to itself |
| RoundTrip.ReconcilesTo | python/sdpstudio_codegen/reconcile.py:58-407 | reconciling with the module printed for an edited copy takes over the literals of exactly the printed nodes whose variable the reader expects; it reports custom code exactly when nothing is declared or some printed node is not legible |
| RoundTrip.RoundTripExactly | python/sdpstudio_codegen/reconcile.py:115-407 | the edited document comes back as visual if and only if something is declared, every printed node is legible and every node is recovered: a literal node by recoverable literals, another operator by being kept, a node that is not read by not being edited |
| RoundTrip.AgreesExactly | python/sdpstudio_codegen/reconcile.py:115 | the printed variable is the expected one if and only if the id is at most eight lower-case letters and digits |
| RoundTrip.ShortIdsRoundTrip | python/sdpstudio_codegen/reconcile.py:58-407 | for such ids the edited document comes back if and only if every printed node is legible and recovered and no other node was edited |
| RoundTrip.UneditedComesBackChanged | python/sdpstudio_codegen/reconcile.py:238-307 | an unedited document with short ids does not come back when it prints a dataset reference or a component input without a table entry or a flattened struct without columns |
| RoundTrip.CdcEditsComeBack | python/sdpstudio_codegen/reconcile.py:154-185 | a CDC flow whose keys or sequence column were edited comes back: the printed decorator, read back, makes its configuration equal to the edited one and changes no other node |
| RoundTrip.LongIdsLoseEdits | python/sdpstudio_codegen/reconcile.py:115-236 | for ids longer than eight characters every edit is silently dropped, whatever is printed: the result is the old document, visual if and only if something is declared and no quality check is printed |
| RoundTrip.QualityIsCodeOwned | python/sdpstudio_codegen/reconcile.py:186-220 | a module that prints a quality check is code-owned even unedited |
| RowTrace.InterpretNode | python/sdpstudio_core/debug.py:331-508 | one step applies the interpreter to the bounded outputs of the parents and is known exactly when nothing at or above it is unsupported |
| RowTrace.ExecuteRowTrace | python/sdpstudio_core/debug.py:299-522 | the steps follow the topological order up to the traced node; a source holds the first max_rows rows of its own sample, a dataset, sink or unsupported operator its first input unchanged, an interpreted operator the first max_rows rows of its result; all input rows are counted, a step is unknown exactly when the node or an ancestor is unsupported, and a failing node ends the trace with its reported error or lets its exception escape |
| RowTrace.TraceRefines | python/sdpstudio_core/debug.py:299-522 | when nothing upstream is cut and the step is known its rows equal the unbounded evaluation |
| RowTrace.JoinSidesFollowListing | python/sdpstudio_core/debug.py:333-334 | a join takes its sides in the order of its listed edges: they are the ports' sides if and only if the edge into left comes first |
| SparkEvents.SynthesizeMeasured | python/sdpstudio_core/debug.py:659-692 | a measured task has a time that is never negative, the shuffle bytes read from both sides and its other counters, and replaying it measures the same again |
| SparkEvents.LongestAndMedian | python/sdpstudio_core/debug.py:697-699 | the longest task and the median, the mean of the two middle durations |
| SparkEvents.VerdictFollows | python/sdpstudio_core/debug.py:702-728 | the skew compares the longest task with the median, and the verdict compares the skew with the thresholds |
| SparkEvents.TotalsAdd | python/sdpstudio_core/debug.py:712-721 | totals are additive over tasks |
| SparkEvents.TotalsOfOne | python/sdpstudio_core/debug.py:712-721 | and those of one task are its own counters |
| SparkEvents.P95Covers | python/sdpstudio_core/debug.py:700-702 | the reported percentile is a duration of the stage, at least 95 percent of the tasks do not exceed it and less than 95 percent are below it |
| SparkEvents.Summarize | python/sdpstudio_core/debug.py:643-729 | one report per mentioned stage, by stage number, over all its tasks and its last submitted name |
| SparkEvents.ReplayIsCapped | python/sdpstudio_core/debug.py:747-823 | replaying what was kept says of each stage with a task its name and its last max_tasks tasks |
| SparkEvents.SummarizeStream | python/sdpstudio_core/debug.py:732-826 | the bounded summary is the simple report on the last max_tasks tasks of each stage with at least one task |
| SparkEvents.BoundedReportCovers | python/sdpstudio_core/debug.py:747-748 | a bounded report drops the first tasks of its stage and is over the rest, which number the cap if any were dropped |
| SparkEvents.SummariesAgree | python/sdpstudio_core/debug.py:643-826 | both summaries are equal when every mentioned stage has a task and none exceeds the cap |
| Cron.Matches | python/sdpstudio_server/scheduler.py:11-24 | the item loop decides whether a field matches |
| Cron.FieldIsUnion | python/sdpstudio_server/scheduler.py:11-24 | items are tried independently, a range is its first value and the range of the rest, a number matches itself |
| Cron.FieldsByPlace | python/sdpstudio_server/scheduler.py:27-40 | each of the five fields restricts its own part of the time |
| Cron.NextFire | python/sdpstudio_server/scheduler.py:63-74 | the least matching minute after the argument within the window, or none only if there is none |
| Cron.MissedSince | python/sdpstudio_server/scheduler.py:43-60 | true exactly when the first match after the marker exists in the window and is not later than now |
| Cron.MissedMeansFired | python/sdpstudio_server/scheduler.py:43-60 | equivalently, when some match lies between the marker and now within the window |
| Scheduler.LastIsLastOffer | python/sdpstudio_server/async_store.py:440-452 | the row remembers the last marker offered while it was enabled |
| Scheduler.ClaimedOnceExactly | python/sdpstudio_server/async_store.py:440-452 | on any run of any number of workers a minute is claimed at most once if and only if, once offered, it never comes back after another one |
| Scheduler.ClaimedAtMostOnce | python/sdpstudio_server/async_store.py:440-452 | in particular at most once when the markers do not decrease |
| Scheduler.LaggingWorkerClaimsTwice | python/sdpstudio_server/async_store.py:440-452 | a worker whose clock lags claims a minute twice |
| Scheduler.ClaimStore.ClaimSchedule | python/sdpstudio_server/async_store.py:440-452 | the conditional update succeeds exactly on an enabled row with another marker, and records the marker |
| Scheduler.DispatchedAtMostOnce | python/sdpstudio_server/scheduler.py:115-141 | whatever the workers sharing a store do, with non-decreasing markers no minute of a schedule is dispatched twice |
| Scheduler.StartTracked | python/sdpstudio_server/scheduler.py:130-132 | recording a new task keeps the indexes in step, and leaves every live task recorded exactly when all were and the schedule had none |
| Scheduler.FinishTracked | python/sdpstudio_server/scheduler.py:146-152 | the callback keeps the indexes in step, and leaves every live task recorded exactly when all others were and none belongs to the same schedule |
| Scheduler.SecondDispatchIsForgotten | python/sdpstudio_server/scheduler.py:121-152 | an unknown policy starts a second dispatch beside the first, and when the first ends the callback forgets the second while it is live |
| Scheduler.HandledStaysIndexed | python/sdpstudio_server/scheduler.py:105-141 | with the policies the worker knows no schedule ever has two live dispatches, whatever finishes during a tick; under any policy the two indexes stay in step |
| Scheduler.DispatchedExactly | python/sdpstudio_server/scheduler.py:105-141 | a tick dispatches exactly the enabled due schedules whose row does not hold the minute yet and which no running dispatch keeps back under skip or forbid |
| Scheduler.ScheduleWorker.DispatchFinished | python/sdpstudio_server/scheduler.py:146-152 | the callback drops whatever task is recorded for the schedule, also in the states that an unknown policy leads to |
| Scheduler.ScheduleWorker.Launch | python/sdpstudio_server/scheduler.py:115-141 | a due schedule is claimed once and started exactly when its row is enabled and holds another minute and it is not running under skip or forbid; a new task is then recorded, only replace ends the recorded one and every other task goes on; the single-dispatch invariant breaks exactly for an unknown policy on a running schedule |
| Scheduler.ScheduleWorker.Tick | python/sdpstudio_server/scheduler.py:96-144 | a tick in the same minute does nothing; otherwise it makes exactly the claims of the due enabled schedules in order, and the table, the indexes and the dispatches, which it counts, are those Handled names; under known policies at most one dispatch per schedule is live |
| CollaborationLog.TopIsIssued | python/sdpstudio_server/async_store.py:503-520 | the largest stored number is the last one issued |
| CollaborationLog.AppendIssuesNext | python/sdpstudio_server/async_store.py:503-575 | an append gets the number after the last one issued, also after an automatic compaction |
| CollaborationLog.SaveKeepsNumbering | python/sdpstudio_server/async_store.py:576-605 | saving a snapshot keeps the numbering if and only if it is saved under the last number, or under a smaller one while the log is not empty |
| CollaborationLog.SaveWithoutNumber | python/sdpstudio_server/async_store.py:581-583 | saving without a number keeps it if and only if the log is not empty or nothing was issued |
| CollaborationLog.SaveOnEmptyReissues | python/sdpstudio_server/async_store.py:581-583 | otherwise numbers are issued again from 1 |
| CollaborationLog.CompactKeepsReplay | python/sdpstudio_server/async_store.py:606-618 | compaction deletes no event that a reconnecting client replays, on any log |
| CollaborationLog.EventsAreWhatFollows | python/sdpstudio_server/async_store.py:453-478 | in a numbered log the events after a number are exactly the end of the log after it, and compaction keeps exactly the end from keep_after on |
| CollaborationLog.RunStaysNumbered | python/sdpstudio_server/async_store.py:503-618 | on every run whose saves fit, the log is empty or ends with the last number issued and the i-th append gets number i |
| CollaborationLog.BundleHoldsLastHundred | python/sdpstudio_server/async_store.py:534-568 | after appends alone the snapshot holds only the updates of the last full hundred: an automatic bundle does not contain the one it replaces |
| CollaborationLog.ProjectLog.AppendEvent | python/sdpstudio_server/async_store.py:503-575 | the transaction numbers and stores the event, and at multiples of 100 bundles and empties the log |
| CollaborationLog.ProjectLog.SaveSnapshot | python/sdpstudio_server/async_store.py:576-605 | a client that reconnects after the save replays exactly the events after its number; without a number given that is the last one issued, or 0 on an empty log; the numbering survives if and only if the number is the last one issued, or smaller while the log is not empty |
| CollaborationLog.ProjectLog.CompactEvents | python/sdpstudio_server/async_store.py:606-618 | the transaction deletes exactly the events before the given number when the snapshot covers them, and counts them |
| AutoLayout.RelaxTargets | web/app.js:288 | the inner loop raises the layer of every target, counts it down and queues it at zero |
| AutoLayout.AssignLayers | web/app.js:288 | the queue loop ends on every graph; it finishes exactly the nodes neither on nor behind a cycle, each at the length of the longest walk that reaches it, and puts every other node one layer above its highest finished predecessor |
| AutoLayout.LayersAreLongest | web/app.js:288 | a finished node sits at the length of the longest walk that reaches it |
| AutoLayout.AcyclicLayout | web/app.js:288 | on an acyclic graph every node sits at the length of its longest incoming path and every edge goes to a later column |
| AutoLayout.PlacesDiffer | web/app.js:288 | no two nodes get one position |
| AutoLayout.PlaceIs | web/app.js:288 | a node stands in the column of its layer, as many rows down as nodes of that layer are listed before it |
| AutoLayout.Layout | web/app.js:288 | every node is moved to the place of its layer and row; on an acyclic graph every edge goes to the right |

## Left out

- The operator templates of `_source_expr`, `_transform_expr` and `_transform`: an uninterpreted meaning per backend stands for them, so Spark SQL semantics, escaping of literals and the printing of options are not modelled. An auto_cdc_scd1 dataset holds what its input carries; the merge by key is not modelled.
- ValidateGraph: plugin operators and warnings are not modelled, and letters outside ASCII have no lower case when secret keys are matched.
- SqlAgreesWithPython: the templates of the two backends do differ, so the hypothesis that the operators agree is a real one: except (EXCEPT removes duplicates, `exceptAll` does not), replace, derive and the struct, map and array builders (SQL appends a second column where Python overwrites one), deduplicate_event_time (SQL keeps the latest row, Python any) and an aggregate without aggregations.
- SqlBackend.ExpressionMeans: sqlglot's parsing and re-printing is a reaction in `rules`; a query is its tree.
- GeneratedModuleMeans: sources are opaque reads that name no declared dataset; names of datasets and sinks are text, custom code is one statement, and the last eight letters and digits of the ids in a definition are distinct, without which a node can read the wrong input (`CollidingInputs`).
- PreviewShowsRoot, PreviewShowsNode, PreviewIsMeaning, SplitShowsItsInput: the ids of the scope have distinct suffixes for the same reason; the program runs in a session in which nothing is declared.
- VarNamesApart: characters outside ASCII that are no blanks count as word characters, which `\w` grants only to letters and digits.
- ReconcilePython: the problems and regions of the result are not modelled beyond the marker parser, decorators carry only literal arguments, and a mapping that is no dictionary counts as empty.
- ReconcilesTo, RoundTripExactly: no printed variable is the one expected for another node, and a CDC flow has fields of the documented types and a name no other node has.
- GeneratePreview: the row-identity instrumentation of include_trace is not modelled.
- GenerateSql: the source map of the script is not modelled.
- ExecuteRowTrace: the interpreter of each operator is a parameter; aggregate summaries are not modelled.
- Summarize, SummarizeStream: task times and stage ids that are null, which raise, are not modelled.
- NextFire, MissedSince: time zones and daylight saving are an abstract minute counter.
- ScheduleWorker.Tick: a worker without a claim callback and the cancellation protocol of asyncio are not modelled; tasks may finish between any two schedules of a tick.
- CollaborationLog.ProjectLog.SaveSnapshot: reading the last event and writing the snapshot are two transactions in the code and one step here.
- Layout: integer-like ids, which JavaScript enumerates first, change the order of the queue but no layer.
- `reconcile_sql`, the importers, `safe_expression.py`, run leases, HTTP, secrets, runners and the rest of the user interface: plumbing, foreign parsers or easy members.
- `materialization_boundaries`, `static_debug_plan` and the streaming-query summary: they would add only easy members.
