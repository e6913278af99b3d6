# Storage request builders, tag-index listings and path plan nodes

A Dafny model of three pieces of a graph query engine's execution layer.

- **Storage request builders.** An executor that fetches vertices first turns its input row stream into a
  one-column table of vertex identifiers (`_vid`). For each row, the builder evaluates an identifier
  expression. A value of the wrong kind for the space's identifier type (64-bit integer or string) is
  skipped, and the scan goes on. With deduplication, only the first occurrence of each identifier is
  kept. A second builder takes a stream of paths. It lists every path's source and each step's
  destination, each identifier once, in order of first appearance. The integer or string specialisation
  is chosen once per call, from the space metadata.
- **Tag-index executors.** These are the continuations that run when the metadata service answers.
  Create and drop collapse any successful answer to `Ok` and pass a failure through unchanged.
  SHOW TAG INDEXES publishes the one-column table `Names`, holding the sorted, duplicate-free index names.
  SHOW TAG INDEX STATUS publishes the table `Name`, `Index Status`, with one row per entry, in response order.
- **Path plan nodes.** `ConjunctPath`, `ProduceAllPaths` and `Subgraph` are classes. Their constructors
  store their arguments, and each setter changes one field.

Modules: `Values` (values, rows, tables, paths), `RequestIds` (what the builders emit, defined on values,
with its lemmas), `StorageAccess` (the builders as loops), `Statuses` (status and value-or-status),
`StringOrder` (the string order, and the ordered string set as a strictly ascending sequence), `TagIndex`
and `Algo`.

The row iterator is a sequence of rows, and the identifier or path expression is a function `eval`
from a row to a value. The space's identifier-type check (`SchemaUtil::isValidVid` applied to the
space's identifier type) is a function parameter `isValidVid`. The engine reads a hashable key from an
identifier with `getInt`/`getStr`, which abort on a value of the other kind. So a builder that takes
keys requires that the check accepts only values of the specialisation's kind. The path builder
requires that every row evaluates to a path whose identifiers have that kind. The duplicate set is a
real local `set` of keys, as the engine's `unordered_set` is. The identifier column's name `_vid` comes
from a header that is not part of this model.

## Model

| member | source | states |
|---|---|---|
| `StorageAccess.VidValue` | src/executor/StorageAccessExecutor.cpp:19-34 | the key read from an identifier gives back that identifier (so equal keys mean equal identifiers); the integer form is read exactly in the integer specialisation |
| `StorageAccess.BuildRequestDataSet` | src/executor/StorageAccessExecutor.cpp:36-64 | the table has the single column `_vid`, and its rows are the kept identifiers (`Kept`) of the evaluated rows, one per row |
| `StorageAccess.RequestTableShape` | src/executor/StorageAccessExecutor.cpp:43-62 | the builder's table is well formed with one value per row, every value passes the type check, and with deduplication no identifier repeats and every type-valid input identifier appears |
| `RequestIds.KeptIndices` | src/executor/StorageAccessExecutor.cpp:51-62 | the output is the input's selected positions in increasing order: a position is emitted iff its value passes the type check and, with deduplication, no earlier position holds the same value; a rejected row is skipped and later rows are still emitted |
| `RequestIds.KeptOnlyValid` | src/executor/StorageAccessExecutor.cpp:53-57 | every emitted identifier passes the type check and occurs in the input |
| `RequestIds.KeptDistinct` | src/executor/StorageAccessExecutor.cpp:58-61 | with deduplication no two output rows carry the same identifier |
| `RequestIds.KeptCovers` | src/executor/StorageAccessExecutor.cpp:58-61 | with deduplication every type-valid input identifier is in the output |
| `RequestIds.KeptWithoutDedup` | src/executor/StorageAccessExecutor.cpp:51-62 | without deduplication the output is exactly the type-valid identifiers in input order, duplicates included |
| `RequestIds.KeptWithoutDedupCount` | src/executor/StorageAccessExecutor.cpp:51-62 | without deduplication the output length is the number of type-valid input rows |
| `RequestIds.KeptLength` | src/executor/StorageAccessExecutor.cpp:51-62 | the output is never longer than the input |
| `StorageAccess.EmplaceVid` | src/executor/StorageAccessExecutor.cpp:79-81 | inserting a key into the duplicate set and appending the identifier when the key is new extends the scan by that identifier: the table and the set still describe the first occurrences of everything scanned |
| `StorageAccess.EmplaceStepVids` | src/executor/StorageAccessExecutor.cpp:82-87 | scanning a path's steps extends the scan by each step's destination, in order |
| `StorageAccess.BuildPathRequestDataSet` | src/executor/StorageAccessExecutor.cpp:66-90 | the table has the single column `_vid`, and its rows are the first occurrences of the identifiers the paths touch (each source, then its steps' destinations, path after path), with no type check |
| `RequestIds.PathIdsExactlyOnce` | src/executor/StorageAccessExecutor.cpp:75-88 | the path table lists every identifier some path touches (as source or step destination), each exactly once, and is no longer than the sum over paths of 1 plus the number of steps |
| `RequestIds.TouchedVidsMembers` | src/executor/StorageAccessExecutor.cpp:77-87 | an identifier is scanned iff it is the source or a step destination of some input path |
| `RequestIds.TouchedVidsLength` | src/executor/StorageAccessExecutor.cpp:75-88 | the scan visits one source plus one identifier per step of every path |
| `StorageAccess.VidTypeOf` | src/executor/StorageAccessExecutor.cpp:116-118 | the integer specialisation is chosen exactly for INT64 spaces, the string one otherwise |
| `StorageAccess.BuildRequestDataSetByVidType` | src/executor/StorageAccessExecutor.cpp:94-104 | the dispatched builder yields the `_vid` table of kept identifiers, whichever specialisation the space selects |
| `StorageAccess.BuildPathRequestDataSetByVidType` | src/executor/StorageAccessExecutor.cpp:106-114 | the dispatched path builder yields the `_vid` table of first occurrences of the touched identifiers |
| `TagIndex.OnCreateTagIndex` | src/executor/maintain/TagIndexExecutor.cpp:27-35 | creation reports `Ok` iff the service returned an index id, whatever the id; a failure status is returned unchanged |
| `TagIndex.OnDropTagIndex` | src/executor/maintain/TagIndexExecutor.cpp:47-54 | dropping reports `Ok` iff the service answered, whatever the boolean; a failure status is returned unchanged |
| `StringOrder.Insert` | src/executor/maintain/TagIndexExecutor.cpp:128-131 | adding a name to the ordered set keeps it strictly ascending and adds exactly that name |
| `StringOrder.StrictlySortedUnique` | src/executor/maintain/TagIndexExecutor.cpp:132-136 | two strictly ascending listings of the same names are equal, so the iteration order of the ordered set is determined by its contents |
| `StringOrder.LessTotal` | src/executor/maintain/TagIndexExecutor.cpp:128 | any two different names are ordered one way or the other |
| `TagIndex.IndexNameSetSpec` | src/executor/maintain/TagIndexExecutor.cpp:128-131 | the ordered name set is strictly ascending, holds exactly the listed index names with no repeats, and is the only such listing |
| `TagIndex.ShowTagIndexes` | src/executor/maintain/TagIndexExecutor.cpp:116-141 | a failed listing is returned as the status with no table; otherwise the status is `Ok` and the table is `Names` with one row per name of the ordered set |
| `TagIndex.ShowTagIndexesTable` | src/executor/maintain/TagIndexExecutor.cpp:126-136 | the published table has column names exactly `["Names"]`, one value per row, rows strictly ascending, and a name has a row iff some listed index has it |
| `TagIndex.ShowTagIndexStatus` | src/executor/maintain/TagIndexExecutor.cpp:148-170 | a failed listing is returned as the status with no table; otherwise the table has column names exactly `["Name", "Index Status"]` and row k is `[name, status]` of entry k, one row per entry, unsorted and not deduplicated |
| `Algo.ConjunctPath.constructor` | src/planner/Algo.h:81-94 | the node stores its inputs, strategy and step bound; the conditional variable starts empty; the loop flag is not set |
| `Algo.ConjunctPath.SetConditionalVar` | src/planner/Algo.h:63-69 | afterwards the conditional variable is the given name; only that field changes, and strategy, bound and loop flag stay |
| `Algo.ConjunctPath.SetNoLoop` | src/planner/Algo.h:71-77 | afterwards the loop flag is the given value; only that field changes |
| `Algo.ConfigureConjunctPath` | src/planner/Algo.h:47-77 | a node made with a strategy and bound and then given a variable name and a loop flag reports all four as given |
| `Algo.ProduceAllPaths.constructor` | src/planner/Algo.h:113-117 | a fresh node has its input and the loop flag false |
| `Algo.ProduceAllPaths.SetNoLoop` | src/planner/Algo.h:103-109 | afterwards the loop flag is the given value; only that field changes |
| `Algo.Subgraph.constructor` | src/planner/Algo.h:144-186 | the node holds the four variable names as given; they are constants, since the node has no setters |

## Left out

- `LOG`, `DCHECK`, `SCOPED_TIMER`, the metadata-client calls, future chaining and `.via(runner())`: logging, timing and asynchronous plumbing. A continuation's input is a `StatusOr` value.
- `reserve` and `iter->size()`: capacity hints with no observable effect.
- `Expression::eval`, `QueryExpressionContext` and the `Iterator` classes: the expression is the parameter `eval` and the iterator a sequence of rows.
- `SchemaUtil::isValidVid`: its body is not part of this model; it is the parameter `isValidVid`, constrained only where the engine's key reads need it.
- `executor finish` and `ResultBuilder`: publishing the table is modelled as returning it with status `Ok`.
- The describe and show-create continuations of the tag-index executors: they call `IndexUtil::toDescIndex` and `IndexUtil::toShowCreateIndex`, whose bodies are not part of this model.
- `ProduceSemiShortestPath`, `BFSShortestPath` and `CartesianProduct`: they carry no parameters beyond their input, or (`addVar`, `inputVars`) are declared without bodies. The `explain()` methods, the plan-node kind tags and the object-pool ownership are left out as well.
- The index item and status records hold only the fields the continuations read, plus a few others. The vertex holds tag names in place of tag property bags.
- String order: `Less` compares characters by code point. The engine's `std::string` compares bytes as unsigned values. For valid UTF-8 the two orders agree, so only byte strings that are not valid UTF-8 fall outside the model.
- `VidValue`, `BuildRequestDataSet` with deduplication and `BuildPathRequestDataSet`: reading an integer from a non-integer value, or a string from a non-string one (`getInt`/`getStr`, StorageAccessExecutor.cpp:19-34), aborts the engine, so these members require that every key they read has the specialisation's kind.
- `BuildPathRequestDataSet`: `getPath()` on a row whose path expression is not a path (StorageAccessExecutor.cpp:77) aborts the engine, so the member requires through `RowsArePaths` that every row evaluates to a path.
- The header files of the join, set and get-vertices executors declare members without bodies, so nothing there is modelled.
