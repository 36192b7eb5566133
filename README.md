# Talend-to-dbt migrator, modelled in Dafny

This project models the deterministic core of a migrator that turns Talend jobs into a dbt project and a Temporal workflow. The model covers:

- **Project graph** (`GraphBuilder`). Every `.item` job file becomes a vertex of a networkx `DiGraph`:
  - The vertex is named after the file.
  - Its type is `standard`, `joblet` or `orchestration`.
  - Every `tRunJob` component adds an edge to the job it runs.
- **Workflow** (`TemporalGenerator`). The workflow text holds one `dbt_run` activity per vertex, in vertex order.
- **CTE chain** (`ChainResolver`). For each job file, the components are ordered by a topological sort of the job's connections. If the connections are cyclic, document order is used instead. Each component then becomes:
  - a `source()`/`var()` block, for an input component;
  - nothing, for an output component;
  - a block of SQL from the language model, for any other component.
  
  A single `final_cte` block closes the chain.
- **Knowledge context** (`KnowledgeBase`). The context text given to the language model combines:
  - a rule hint, from an exact table entry or else from suffix and keyword heuristics;
  - the Java-routine mappings whose names occur in the component's XML.
- **Language-model wrapper** (`Agent`). A raised error becomes an `ERROR` reply.
- **Engine** (`MigrationEngine`).
  - It writes `models/<job>.sql` for a job and `macros/<joblet>.sql` for a joblet.
  - It skips orchestration jobs.
  - `run` builds the graph, writes the workflow, then converts every job.
- **Checks** (`VerifyMigration`). The checker of the generated project:
  - flags every `ref('x')` whose model does not exist;
  - replaces Jinja by placeholders and asks the SQL engine to parse each model;
  - passes the project exactly when no issue was collected.

Everything outside the process is a parameter:

- The XML parser becomes a `Loader` from a path to an abstract `JobDocument` (`None` when parsing fails).
- The language model becomes an `Oracle` from a prompt to a decoded reply, or to a raised error.
- The file reader becomes a `Reader`.
- DuckDB becomes a `SqlEngine` from a statement to `None`, or to an error message.

Shared modules:

- `Strings` models the Python string operations the code relies on: `replace`, `split`, `strip`, `rstrip`, `join`, `lower`, `basename` and `splitext`.
- `Graphs` models the part of networkx in use:
  - vertices kept in insertion order;
  - `add_node` merging attributes;
  - `add_edge` creating endpoints without attributes;
  - a topological sort, proved to succeed exactly on graphs that have a topological order.

Where a method's loop computes a value, it is proved equal to a specification function, and the properties are proved as lemmas about that function.

## Model

| member | source | states |
|---|---|---|
| ChainResolver.ProcessXmlChain | src/main_engine.py:77-159 | the chain the method returns is `Chain` of the parsed document: `None` when parsing fails, when a component raises, or when no block was produced |
| ChainResolver.BuildInternalGraph | src/main_engine.py:82-87 | the connection loop builds a fresh, well-formed graph whose edges are exactly the connections with a non-empty source and target |
| ChainResolver.IntraJobGraph | src/main_engine.py:82-87 | the intra-job graph is well formed and its edges are the usable connections |
| ChainResolver.IntraJobGraphVertices | src/main_engine.py:83-87 | the vertices of the intra-job graph are exactly the endpoints of its edges, so an unconnected component is never visited when the sort succeeds |
| ChainResolver.UsableEdgesSnoc | src/main_engine.py:84-87 | one more connection adds its edge exactly when both its ends are non-empty |
| ChainResolver.VisitOrderSpec | src/main_engine.py:89-93 | when the intra-job graph has a topological order, the visit order is one (every edge's source comes first); when it has none, the visit order is every node's `UNIQUE_NAME` value in document order |
| Graphs.TopologicalSortCorrect | src/main_engine.py:89-91 | the sort succeeds exactly on graphs with a topological order, and what it returns is a permutation of the vertices that respects every edge |
| Graphs.KahnSound | src/main_engine.py:90 | a successful sort returns a permutation of the vertices in which every edge goes forward |
| Graphs.KahnComplete | src/main_engine.py:90-93 | a failed sort means that no permutation of the vertices respects the edges |
| Graphs.SelfLoopIsCyclic | src/main_engine.py:90-93 | a self-loop makes the sort fail, so the fallback order is used |
| ChainResolver.LookupNode | src/main_engine.py:103-110 | the node found is the first one whose first `UNIQUE_NAME` is the id; `None` means that no node has that id |
| ChainResolver.FindNode | src/main_engine.py:103-108 | the search loop, which stops at the first match, returns `LookupNode` |
| ChainResolver.FindTableParam | src/main_engine.py:117-122 | the loop returns the value of the first `TABLE` or `FILENAME` parameter |
| ChainResolver.VarName | src/main_engine.py:126 | the variable name of a runtime reference holds no `.`, no `"` and no `)` |
| ChainResolver.TableName | src/main_engine.py:129-130 | the table name holds no `"`, no `\` and no `/` (what it is, for quoted names and paths, is stated by `QuotedTableKept` and `PathTableName`) |
| ChainResolver.PathTableName | src/main_engine.py:129-130 | a path `<dir><sep><stem>.<ext>`, with `/` or `\` as separator and quotes anywhere in the directory or extension, names the table `<stem>`: quotes removed, backslashes read as slashes, then the base name without its extension |
| ChainResolver.QuotedTableKept | src/main_engine.py:128-131 | a quoted plain name `"<name>"` becomes `{{ source('raw', '<name>') }}`, without its quotes |
| ChainResolver.SourceRef | src/main_engine.py:117-136 | the reference is always a `source('raw', …)` or a `var(…)` expression, and a missing or empty `TABLE`/`FILENAME` value gives `source('raw', 'src_<id>')` |
| ChainResolver.ContextVariable | src/main_engine.py:125-127 | `context.<name>` becomes `{{ var('<name>', 'default_<id>') }}` |
| ChainResolver.PlainTableKept | src/main_engine.py:128-131 | a plain table name is kept as it is in `{{ source('raw', '<name>') }}` |
| ChainResolver.CleanSql | src/main_engine.py:147 | the cleaned SQL is an infix of the oracle's SQL that neither starts with white space nor ends with `;` |
| ChainResolver.CleanSqlExact | src/main_engine.py:147 | for SQL `<blanks><core><;…;><blanks>`, whose core neither starts nor ends with a blank nor ends with `;`, the cleaned SQL is exactly the core: only the surrounding blanks and the trailing run of `;` go |
| ChainResolver.Visit | src/main_engine.py:101-149 | one component either leaves the state alone or appends one block named after it, which becomes `prev_cte`; a missing node changes nothing; a node without `componentName` raises; a raising oracle changes nothing |
| ChainResolver.ComponentKinds | src/main_engine.py:116-149 | an `Input` type always adds its source block, even if it also contains `Output`; another `Output` type changes nothing; a reply other than `SUCCESS` changes nothing; a `SUCCESS` reply with SQL text appends `<id> AS (\n <cleaned SQL> \n)` and makes `<id>` the `prev_cte`; a reply that is not an object, or a `SUCCESS` without SQL text, raises |
| ChainResolver.VisitComponent | src/main_engine.py:101-149 | the loop body computes `Visit`, with `ok` false where the code raises |
| ChainResolver.VisitComponents | src/main_engine.py:95-150 | the component loop computes `Walk` from an empty list and `prev_cte = "dual"` |
| ChainResolver.WalkSpec | src/main_engine.py:95-150 | the walk only appends blocks, the names of the new blocks are a subsequence of the visit order, and `prev_cte` stays the last block's name |
| ChainResolver.ChainSelectsLastBlock | src/main_engine.py:152-155 | a produced chain is the blocks joined by `,\n` and then one `final_cte` selecting from the last block, in visit order |
| ChainResolver.ChainFollowsDataFlow | src/main_engine.py:83-90 | on an acyclic job, every block is a connected component and the blocks follow the direction of every connection |
| ChainResolver.NoUsableConnectionEmptyGraph | src/main_engine.py:84-87 | without a usable connection, the intra-job graph is empty |
| ChainResolver.NoUsableConnectionNoChain | src/main_engine.py:89-93 | with no usable connection, the order is empty, there is no fallback, and the result is `None` |
| ChainResolver.NamelessComponentAborts | src/main_engine.py:112-116 | a visited node without `componentName` makes the whole walk raise |
| ChainResolver.NamelessComponentAbortsChain | src/main_engine.py:157-159 | such a node makes the result `None`, never a partial chain |
| Agent.PromptFor | src/agent_llm.py:71-87 | the prompt carries the component type, `prev_cte`, the XML and the knowledge context of that type and XML |
| Agent.ConvertComponent | src/agent_llm.py:79-90 | a raising model gives an `ERROR` reply; otherwise the reply is the model's decoded answer, so `SUCCESS` only ever comes from the model |
| KnowledgeBase.RuleHint | src/knowledge_base.py:138-139 | an exact, non-empty `special_rules` entry always wins over the heuristics |
| KnowledgeBase.HeuristicKind | src/knowledge_base.py:139-149 | an orchestration marker outranks a transaction marker, a type with neither marker is generic, and once neither suffix applies a type is orchestration exactly when it holds an orchestration marker |
| KnowledgeBase.SuffixKinds | src/knowledge_base.py:139-143 | a type is a source exactly when it ends with `Input`, and a target exactly when it ends with `Output` or `Put`, whatever keywords it holds |
| KnowledgeBase.OracleKindsAreNotSources | src/knowledge_base.py:140-141 | a type without `Input` (the only kind sent to the model) is never given the source hint |
| KnowledgeBase.DetectsByMethodName | src/knowledge_base.py:154 | for a key `Class.method`, a mapping is detected exactly when the method name occurs in the XML |
| KnowledgeBase.DetectedLinesSpec | src/knowledge_base.py:151-155 | the detected lines are a subsequence of the table's lines, in table order, with each entry at most once; a line appears exactly when its entry is detected |
| KnowledgeBase.DetectedLinesMarked | src/knowledge_base.py:155 | every detected line starts with `- JAVA: ` |
| KnowledgeBase.SectionFallback | src/knowledge_base.py:157-159 | the section reads `Standard SQL logic.` exactly when nothing was detected |
| KnowledgeBase.DetectFunctions | src/knowledge_base.py:151-155 | the detection loop returns the detected lines of the function map |
| KnowledgeBase.GetContext | src/knowledge_base.py:133-159 | the `rag` text is the rule hint, then `\n\nFUNCTION MAP:\n`, then the section |
| MigrationEngine.ModelFileRoundTrip | src/main_engine.py:68-73 | a model file gives back the job name and the chain, for a name on one line |
| MigrationEngine.MacroFileRoundTrip | src/main_engine.py:59-61 | a macro file gives back the joblet name and the chain, for a name without `(` |
| MigrationEngine.JobResult | src/main_engine.py:65-75 | a file is written exactly when the chain is truthy; it is `models/<name>.sql` and holds the chain; the message says `Converted` or `Skipped` |
| MigrationEngine.JobletResult | src/main_engine.py:56-63 | the same for a joblet, written to `macros/<name>.sql` |
| MigrationEngine.ChainTruthy | src/main_engine.py:152-155 | a produced chain is never empty, so a file is written exactly when there is a chain |
| MigrationEngine.ConvertJobChain | src/main_engine.py:65-75 | the result is `JobResult` of the chain, and a file is written exactly when there is one |
| MigrationEngine.ConvertJoblet | src/main_engine.py:56-63 | the result is `JobletResult` of the chain, and a file is written exactly when there is one |
| MigrationEngine.ConvertVertex | src/main_engine.py:33-40 | a vertex yields a result exactly when it is not an orchestration job and has a file, and that result is its task's |
| MigrationEngine.TaskFor | src/main_engine.py:37-40 | a joblet gets a macro task; any other type, a missing one included, gets a model task on the vertex's file |
| MigrationEngine.Dispatch | src/main_engine.py:31-42 | the intended dispatch submits at most one task per vertex, and only for a vertex that is not an orchestration job and has a `filepath`, which is the task's file |
| MigrationEngine.DispatchSpec | src/main_engine.py:31-42 | a task is submitted exactly for each vertex that is not an orchestration job and has a file |
| MigrationEngine.AsWrittenRaises | src/main_engine.py:31-40 | the loop as written raises exactly when some vertex that is not an orchestration job has no `filepath` |
| MigrationEngine.AsWrittenPrefix | src/main_engine.py:31-42 | the tasks the loop as written submits are the first tasks of the intended dispatch, and all of them when it does not raise |
| MigrationEngine.AsWrittenAgrees | src/main_engine.py:31-42 | when every vertex to convert has a file, the loop as written and the intended one agree |
| MigrationEngine.DispatchAsWritten | src/main_engine.py:31-40 | the loop as written submits at most one task per vertex, each for a vertex that is not an orchestration job, on that vertex's file |
| MigrationEngine.DispatchCounterexample | src/main_engine.py:38-40 | a job that runs an undefined job: the loop as written submits the first job, then raises |
| MigrationEngine.BuiltGraphRaisesOnUndefinedRunJob | src/graph_builder.py:40-43 | on a built graph, the loop as written raises only if some parsed job runs, through `tRunJob`, a job that no parsed file defines |
| MigrationEngine.PerformedSnoc | src/main_engine.py:31-42 | one more vertex adds its own result at the end exactly when it is convertible, and nothing otherwise |
| MigrationEngine.ConvertAll | src/main_engine.py:31-42 | the loop's results are those of the intended dispatch's tasks over the given vertices, in their order |
| MigrationEngine.GenerateDbtAssets | src/main_engine.py:25-54 | the results are those of the intended dispatch's tasks, in vertex order |
| MigrationEngine.Engine.Run | src/main_engine.py:19-23 | the graph is the build over every file; the workflow runs every vertex of that graph; the results are those of its dispatch |
| GraphBuilder.JobName | src/graph_builder.py:22 | a job name never holds `/`, and a file name that does not carry the `_0.1.item` suffix is the job name as it is |
| GraphBuilder.JobNameOfItem | src/graph_builder.py:22 | the job of `<dir>/<name>_0.1.item` is `<name>` for every name without `/` that does not itself contain `_0.1.item`, underscores included (`dim_KY_CD`) |
| GraphBuilder.JobType | src/graph_builder.py:23-34 | the type is `orchestration` exactly when some component mentions `Loop` or `FileList`, which overrides `joblet`; otherwise it is `joblet` exactly when the lower-cased path contains `joblets`; otherwise `standard` |
| GraphBuilder.ProcessParam | src/graph_builder.py:41 | the parameter found is a `PROCESS:PROCESS_TYPE_PROCESS` parameter of the node; `None` means that the node has none |
| GraphBuilder.AddRunJobEdgesSpec | src/graph_builder.py:40-43 | the dependency loop adds one edge from the job per `tRunJob` target and creates only target vertices, without attributes; existing attributes are kept |
| GraphBuilder.FileEntry | src/graph_builder.py:21-36 | a file contributes an entry exactly when it parses; the entry is named after the file and records its `filepath` and a `type` |
| GraphBuilder.RecordVertices | src/graph_builder.py:36-43 | recording a file keeps the graph well formed and adds exactly the job and the jobs it runs |
| GraphBuilder.RecordAttrs | src/graph_builder.py:36-43 | recording merges the job's attributes, keeps every other vertex's, and any other new vertex is a target without attributes |
| GraphBuilder.BuildWellFormed | src/graph_builder.py:11-19 | the build yields unique vertex names, an attribute map per vertex, and edges between vertices |
| GraphBuilder.BuildVertices | src/graph_builder.py:15-16 | the vertices are exactly the parsed jobs and the jobs they run; an unparseable file adds nothing |
| GraphBuilder.BuildRecordsJobs | src/graph_builder.py:36 | every parsed job ends up with a `filepath` and a `type` |
| GraphBuilder.BuildDanglingRun | src/graph_builder.py:43 | a vertex without `filepath` is a job that some parsed file runs |
| GraphBuilder.BuildDanglingUndefined | src/graph_builder.py:43 | a vertex without `filepath` is defined by no parsed file |
| GraphBuilder.ProjectGraph.AnalyzeFile | src/graph_builder.py:21-46 | the graph becomes `AnalyzeSpec` of its old value; on a `None` target the loop stops and keeps what it added |
| GraphBuilder.ProjectGraph.Build | src/graph_builder.py:11-19 | each file is analysed in turn on the one shared graph, which is returned |
| Graphs.WithNode | src/graph_builder.py:36 | `add_node` appends a new name, keeps an existing one in place, and merges its attributes |
| Graphs.WithEdge | src/main_engine.py:87 | `add_edge` adds both endpoints and the edge, and keeps the graph well formed |
| Graphs.WithEdgeKeepsAttrs | src/graph_builder.py:43 | `add_edge` keeps existing attributes, and an endpoint it creates has none |
| Graphs.DiGraph.AddNode | src/graph_builder.py:36 | the object's graph becomes `WithNode` of the old one |
| Graphs.DiGraph.AddEdge | src/graph_builder.py:43 | the object's graph becomes `WithEdge` of the old one |
| TemporalGenerator.AppendCalls | src/temporal_generator.py:34-37 | the loop appends exactly one call statement per name, in order, after the start text |
| TemporalGenerator.TemporalGenerator.Generate | src/temporal_generator.py:10-40 | the content is the header, one activity call per vertex in vertex order, then the footer |
| TemporalGenerator.ParseCallsRoundTrip | src/temporal_generator.py:34-37 | the call statements can be read back as the exact sequence of names, for names without `"` |
| TemporalGenerator.WorkflowRoundTrip | src/temporal_generator.py:12-40 | the workflow starts with the header and schedules exactly the given vertex sequence, in order, with no filtering (a graph's vertex list holds each vertex once, so each is scheduled once) |
| VerifyMigration.RefEnd | src/verify_migration.py:79 | the lazy group ends at a quote followed by `)`, with no line break before it and no earlier quote followed by `)`; `None` means no quote followed by `)` comes before the next line break |
| VerifyMigration.FindRefs | src/verify_migration.py:79 | no name found spans a line break |
| VerifyMigration.FindRefsOne | src/verify_migration.py:79 | `ref('x')` or `ref("x")` yields `x`, then the references of the rest of the text |
| VerifyMigration.FindRefsAbsent | src/verify_migration.py:79 | a text without `ref(` references nothing |
| VerifyMigration.FindRefsSkip | src/verify_migration.py:79 | text without an `r` in front of a text adds no reference: the references are those of the text after it |
| VerifyMigration.OneRefInQuery | src/verify_migration.py:79 | a query `<head>{{ ref('<name>') }}` whose head holds no `r` references exactly `<name>` |
| VerifyMigration.CloseAt | src/verify_migration.py:86-87 | the lazy match ends where the closing delimiter occurs, with no line break before it and no earlier occurrence; `None` means no occurrence starts before the next line break |
| VerifyMigration.SubAbsent | src/verify_migration.py:86-87 | a text without an opening delimiter is unchanged |
| VerifyMigration.SubSkip | src/verify_migration.py:86-87 | text that cannot start the opening delimiter is kept as it is, and substitution goes on after it |
| VerifyMigration.SubFrame | src/verify_migration.py:86-87 | a one-line `{{ … }}` at the front is replaced by the placeholder, and the rest is substituted in turn |
| VerifyMigration.MissingRefs | src/verify_migration.py:80-82 | the missing references are an in-order subsequence of the references, none of them an existing model |
| VerifyMigration.MissingRefsCount | src/verify_migration.py:80-82 | a missing name is kept as many times as it is referenced, an existing one never |
| VerifyMigration.LinkIssues | src/verify_migration.py:80-82 | the i-th issue is `[LINK] <file> -> missing model '<x>'` for the i-th missing reference, so one issue per missing occurrence, in textual order, repeats kept; none exactly when every reference names an existing model |
| VerifyMigration.SyntaxIssues | src/verify_migration.py:98-102 | an error adds nothing exactly when its message mentions `dummy_table` |
| VerifyMigration.FileIssuesSpec | src/verify_migration.py:66-104 | a file has no issue exactly when every reference resolves and its syntax is accepted, or, for an unreadable file, when the error mentions the placeholder |
| VerifyMigration.AllIssuesSpec | src/verify_migration.py:44-54 | the project has no issue exactly when every file is clean |
| VerifyMigration.ModelIndex | src/verify_migration.py:27-30 | the index holds exactly the files' base names with `.sql` removed |
| VerifyMigration.ModelPathIndexed | src/verify_migration.py:28 | a model the engine writes is indexed under its job's name, for any name that holds no `/` and does not contain `.sql` |
| VerifyMigration.CheckLinks | src/verify_migration.py:80-82 | the link loop returns `LinkIssues` of the references |
| VerifyMigration.MigrationTester.VerifySingleFile | src/verify_migration.py:66-104 | the issues are `FileIssues`: the link issues, then at most one syntax issue |
| VerifyMigration.MigrationTester.CheckFiles | src/verify_migration.py:36-51 | the issues of every file, gathered in path order |
| VerifyMigration.MigrationTester.RunChecks | src/verify_migration.py:18-64 | a missing directory logs one issue and fails; otherwise the index is built, every file's issues are appended, and the result is true exactly when the issue list is empty |
| VerifyMigration.MigrationTester.LogError | src/verify_migration.py:106-108 | the message is appended to the issues |

## Left out

- XML parsing and XPath are replaced by an abstract `JobDocument`:
  - the model does not separate `elementParameter` direct children from descendants;
  - graph_builder's XPath queries are namespace-sensitive (`//node` in a namespaced file matches nothing), and the model ignores namespaces;
  - `etree.tostring` becomes a `serialized` field.
- The topological sort is a Kahn sort that takes the first ready vertex in insertion order. It is proved correct, but when several orders are valid, networkx may pick a different one.
- `lower()` is modelled on ASCII letters only; other Unicode case mappings are not modelled.
- Thread pools and `as_completed` are modelled as a sequential fold in submission order. Completion order, progress counters and printed output are not modelled. Tasks are independent, so only order is lost.
- `run_checks` catches worker exceptions as "System Error checking". This branch is not modelled because `_verify_single_file` catches every exception itself.
- The console report is not modelled: colours, and the cap of 20 displayed issues. The stored list keeps every issue.
- The DuckDB connection and its `PRAGMA threads=4` are not modelled; only the engine's verdict on the view statement is.
- Paths are POSIX: `Basename` splits on `/` only, as `os.path` does on POSIX, so `JobName` and `ModelIndex` do not read `\` as a separator.
- File system effects are not modelled: `glob`, `os.makedirs`, `open`/`write`, and directory joins.
  - Output paths are relative to the dbt project directory.
  - The glob order of files becomes the order of the `files` and `paths` parameters.
  - The `*.sql` filter is assumed of `paths`.
- The language model is an oracle: a JSON-decoding failure inside the wrapper is an `Outcome.Raised`. The model assumes the oracle is deterministic, where a real model at temperature 0 may still vary.
- `job_name` and `input_map` passed to `convert_component` are unused there, and are not modelled.
- `print` lines and the `[WARN]` messages are not modelled.
- GraphBuilder.ProjectGraph.AnalyzeFile: an exception other than parsing failure or an edge to `None` (for example from the XPath engine) is not modelled.
- MigrationEngine.ConvertAll: uses the corrected dispatch (see Findings), so a vertex without `filepath` is passed over instead of raising `KeyError`.
- MigrationEngine.GenerateDbtAssets: uses the corrected dispatch (see Findings), so a vertex without `filepath` is passed over instead of raising `KeyError`; the as-written loop is `DispatchAsWritten`.
- ChainResolver.VisitOrderSpec: the fallback takes the `UNIQUE_NAME` parameters of component nodes only; the document-wide XPath would also collect one carried by a connection (such as `row1`). When such a name is no node's `UNIQUE_NAME`, `Visit` leaves the chain alone for it, so the chain is the same; a connection named like a node would be visited twice by the source and is not modelled.
- MigrationEngine.Engine.Run: uses the corrected dispatch (see Findings), so a graph with a dangling `tRunJob` target converts every other job instead of raising.
- TemporalGenerator.TemporalGenerator.Generate: the write of `workflow.py` and the directory creation in the constructor are not modelled.

## Findings

| source | as written | input that shows it | evidently intended | confidence | as-written member | corrected member |
|---|---|---|---|---|---|---|
| src/main_engine.py:37-40 | `node_data['filepath']` is read, outside the worker's `try`, for every vertex that is not an orchestration job. A vertex created by `add_edge` for a `tRunJob` target that no file defines has no attributes, so `KeyError` escapes `_generate_dbt_assets_parallel` and every later vertex is never converted | job `A` (standard, file `A.item`) runs job `B` through `tRunJob`, and no file defines `B`: vertices `[A, B]`, `B` with no attributes | skip vertices that have no file to convert | not executed | MigrationEngine.DispatchCounterexample | MigrationEngine.Dispatch |
