# Business-capability map listener, modelled in Dafny

The listener is an HTTP function. Its job is to keep a JSON snapshot of a
workspace's business-capability tree ("bcMaps") up to date. Two parts of it are
modelled here.

**Building the snapshot** (`WebhookListener/businessLogic.js`):
- **The query.** A nested query is built by splicing a recursive fragment into
  a template three times; a fourth round removes the placeholder
  (`QueryBuilder`).
- **Unrolling.** Each node of the query result is unrolled into a capability
  (`Graph`, `ChildOrder`, `Unrolling`). Unrolling covers:
  - telling plain vertices apart from relation edges that wrap a fact sheet;
  - parsing each `description` as JSON metadata, with a fault fallback;
  - ordering the children by the metadata's `childrenOrder`;
  - recursing into the children and merging the metadata on top of the node.
- **The snapshot.** The published top-level capabilities go into a snapshot
  (`Snapshots`). A rebuild may stamp the snapshot with the sequence number of
  the event that triggered it.

**The handler** (`WebhookListener/index.js`) keeps two module-level variables,
`lastTransaction` and the cached snapshot (`Handler`):
- A GET serves the cached snapshot, building it first if none is cached.
- An update event for a business capability triggers a rebuild. This happens
  only if the event's sequence number is greater than `lastTransaction`, the
  number of the last event whose rebuild succeeded (-1 at start), and only if
  the event passes the optional credential check.
- The state changes only after a rebuild succeeds.

Each invocation is modelled twice:
- `Handler.Step`, a pure function on the state. The trace lemmas are built on
  it.
- `Handler.TransactionGuard.Handle`, a method of a class whose two fields the
  method updates in place. It is proved to agree with `Step`.

The child sort is also modelled twice:
- `ChildOrder.SortChildren`, a function. `Unroll` uses it.
- `ChildOrder.SortInPlace`, an in-place insertion sort over an array. It is
  proved equal to the function.

Files: `wrappers.dfy` (Option, all-or-nothing map), `json.dfy` (JSON values,
truthiness, spread of index keys), `query.dfy`, `graph.dfy`, `ordering.dfy`,
`unroll.dfy`, `snapshot.dfy`, `guard.dfy`.

Where the code and its description disagree, the model follows the code:
- Only a request whose method is `GET` is a read (index.js:14). A request
  without a method goes through the event test (index.js:34).
- A transaction number is attached only when it is truthy (businessLogic.js:74).
  So `0` is not attached. A cold-start GET passes `-1`, which is attached.
- An event that fails the test gets no response at all. A credential mismatch
  gets a plain 403. Only a failed rebuild answers with an error id and a
  timestamp (index.js:22, 39, 52).
- The served snapshot carries no publish URL.

## Model

| member | source | states |
|---|---|---|
| QueryBuilder.ReplaceFirstAt | WebhookListener/businessLogic.js:31 | `replace` with a string pattern replaces the first occurrence only: the rest of the string, later occurrences included, is kept |
| QueryBuilder.ReplaceFirstAbsent | WebhookListener/businessLogic.js:31 | `replace` leaves a string without the placeholder unchanged |
| QueryBuilder.OnlyMatch | WebhookListener/businessLogic.js:23-29 | around a placeholder between brace-safe text, that placeholder is the only occurrence |
| QueryBuilder.OnePlaceholderEach | WebhookListener/businessLogic.js:13-29 | the collapsed template and `childrenFragment` each hold exactly one `{{children}}`, at the split point |
| QueryBuilder.SpliceInto | WebhookListener/businessLogic.js:31 | one round of splicing replaces exactly the one placeholder |
| QueryBuilder.SpliceNested | WebhookListener/businessLogic.js:30-31 | round `level` finds its placeholder nested inside the `level` fragments spliced before it |
| QueryBuilder.FoldFrom | WebhookListener/businessLogic.js:30-31 | from any round on, the fold completes the nesting of the fragment heads and tails |
| QueryBuilder.BuildQueryShape | WebhookListener/businessLogic.js:30-31 | for `depth >= 1`, the query nests the fragment `depth - 1` times and has no placeholder left; for depth 0 the template is unchanged |
| QueryBuilder.QueryShape | WebhookListener/businessLogic.js:12-31 | the query sent holds the fragment exactly `maxHierarchyLevel - 1` = 3 times, nested, with no `{{children}}` left |
| Wrappers.AllSome | WebhookListener/businessLogic.js:54 | a `map` whose callback may throw succeeds exactly when every call succeeds, with the results in order |
| Wrappers.MapPermutation | WebhookListener/businessLogic.js:47-54 | mapping a reordered list gives a reordering of the mapped list |
| Graph.ToJson | WebhookListener/businessLogic.js:55-57 | the output of `unrollChildren` is always an object |
| ChildOrder.Compare | WebhookListener/businessLogic.js:47-51 | the comparator yields only -1, 0 or 1 |
| ChildOrder.RankTableLastPosition | WebhookListener/businessLogic.js:46 | an id is ranked exactly when `childrenOrder` lists it, and its rank is its last position: the rank holds the id and no later position does |
| ChildOrder.RankOfDistinct | WebhookListener/businessLogic.js:46 | with distinct ids, each id's rank is its index |
| ChildOrder.Insert | WebhookListener/businessLogic.js:47-51 | one insertion step adds exactly one element |
| ChildOrder.InsertMultiset | WebhookListener/businessLogic.js:47-51 | an insertion step adds exactly the inserted element |
| ChildOrder.SortChildren | WebhookListener/businessLogic.js:47-51 | sorting keeps the length and the multiset of edges |
| ChildOrder.InsertSorted | WebhookListener/businessLogic.js:47-51 | inserting a ranked edge into a rank-sorted list keeps it sorted |
| ChildOrder.SortSorted | WebhookListener/businessLogic.js:45-51 | when every child id is ranked, the sorted children are in non-decreasing rank order |
| ChildOrder.SortKeepsOrder | WebhookListener/businessLogic.js:47-51 | an inversion-free list, one with no pair the comparator would swap, is left as it is |
| ChildOrder.InsertStable | WebhookListener/businessLogic.js:47-51 | an insertion step puts the inserted edge after every edge of its own rank (or after every unranked edge, if it is unranked) and keeps those edges' order |
| ChildOrder.SortStable | WebhookListener/businessLogic.js:47-51 | the sort is stable: in any list, the edges of each rank, and the unranked edges, keep their input order |
| ChildOrder.UnrankedKeepsOrder | WebhookListener/businessLogic.js:48-50 | when no child id is ranked, every comparison yields 0 and the query order is kept |
| ChildOrder.InsertKeys | WebhookListener/businessLogic.js:47-51 | an insertion step adds exactly the inserted edge's id to the multiset of ids |
| ChildOrder.SortKeys | WebhookListener/businessLogic.js:47-51 | sorting keeps the multiset of child ids |
| ChildOrder.DistinctByMultiset | WebhookListener/businessLogic.js:46-51 | a reordering of a duplicate-free id list is duplicate-free |
| ChildOrder.RankedByIndex | WebhookListener/businessLogic.js:46-49 | when `childrenOrder` is a permutation of the child ids, every child is ranked, at the index of its id |
| ChildOrder.SortedDistinctIsOrder | WebhookListener/businessLogic.js:47-51 | distinct children sorted by rank, ranked by index, have exactly the listed ids in order |
| ChildOrder.SortFollowsOrder | WebhookListener/businessLogic.js:44-52 | when `childrenOrder` lists exactly the children's distinct fact-sheet ids, the sorted ids equal `childrenOrder` |
| ChildOrder.SortInPlace | WebhookListener/businessLogic.js:47 | sorting the edge array in place leaves exactly the function's sorted list |
| ChildOrder.InsertAt | WebhookListener/businessLogic.js:47 | one in-place pass inserts `a[i]` into the sorted prefix and leaves the rest of the array untouched |
| Unrolling.Ordered | WebhookListener/businessLogic.js:45-52 | a sort that does not throw returns a reordering of the child edges |
| Unrolling.SortedChildren | WebhookListener/businessLogic.js:34-52 | the children to unroll are a reordering of the node's child edges |
| Unrolling.UnrollAll | WebhookListener/businessLogic.js:54 | a list unrolls exactly when each node does, each output being that node's unrolling |
| Unrolling.UnrollDef | WebhookListener/businessLogic.js:33-58 | a node unrolls exactly when its children do, into base id and fields without `description`, parent link, children and spread metadata |
| Unrolling.UnrollId | WebhookListener/businessLogic.js:55 | the output id is the base vertex's id |
| Unrolling.DescriptionFaultTolerant | WebhookListener/businessLogic.js:34-44 | a missing, `null` or unparsable description reads as `{}`: it causes no throw, adds no metadata and keeps the query order |
| Unrolling.WrapperResolution | WebhookListener/businessLogic.js:34-35 | `relToParentId` is null exactly for a node without `factSheet`, else the edge's id (line 55); the base id and fields are the fact sheet's if present, else the node's |
| Unrolling.UnrollAllPermutation | WebhookListener/businessLogic.js:47-54 | a reordered child list unrolls exactly when the original does, into a reordering of its unrolling |
| Unrolling.ChildrenPreserved | WebhookListener/businessLogic.js:35 | every child edge unrolls, and the output children are exactly those unrollings, reordered only (lines 47-54) |
| Unrolling.LeafHasNoChildren | WebhookListener/businessLogic.js:35 | a fact sheet without a `children` field (and an edge without one) yields `children = []` |
| Unrolling.KeepsQueryOrder | WebhookListener/businessLogic.js:44-54 | with `childrenOrder` absent, empty or ranking none of the children, the output children follow the query order |
| Unrolling.FollowsChildrenOrder | WebhookListener/businessLogic.js:44-54 | when `childrenOrder` lists exactly the distinct child fact-sheet ids, the sort does not throw and the output children carry those ids in that order |
| Unrolling.MergePrecedence | WebhookListener/businessLogic.js:55-57 | every metadata key appears with the metadata's value, over `id`, `relToParentId`, `children` and base fields; `description` appears only if the metadata has one; the key set is base fields minus `description`, plus the three structural keys, plus the metadata's |
| Snapshots.PublishedOnly | WebhookListener/businessLogic.js:64 | the filter keeps only nodes whose `published` value is present and truthy |
| Snapshots.PublishedOnlyCount | WebhookListener/businessLogic.js:64 | each published node is kept with its multiplicity, each unpublished one dropped |
| Snapshots.PublishedOnlyConcat | WebhookListener/businessLogic.js:64 | the filter preserves order: filtering a concatenation concatenates the filtered parts |
| Snapshots.GenerateBcMaps | WebhookListener/businessLogic.js:60-69 | generation succeeds exactly when the session starts, the query answers and every top-level node unrolls; a fresh snapshot carries no sequence number |
| Snapshots.GeneratedArePublished | WebhookListener/businessLogic.js:63-66 | the snapshot names the session's workspace, instance and clock reading, and its `bcMaps` is the published filter of the unrolled top-level nodes in query order: each entry published, each published node with its multiplicity |
| Snapshots.RebuildBcMaps | WebhookListener/businessLogic.js:72-77 | a rebuild fails exactly when generation fails |
| Snapshots.RebuildStamp | WebhookListener/businessLogic.js:74 | a rebuilt snapshot carries `transactionSequenceNumber` exactly when the argument is non-zero, with that value (so `-1` is attached, `0` is not), and is otherwise the generated snapshot |
| Handler.InitialConsistent | WebhookListener/index.js:8-9 | the initial state (`-1`, no cache) satisfies the state invariant |
| Handler.StepConsistent | WebhookListener/index.js:14-53 | each invocation preserves the invariant: an empty cache only while `lastTransaction` is `-1`, and the cached snapshot stamped with `lastTransaction` |
| Handler.WarmGet | WebhookListener/index.js:14-15 | a GET with a cached snapshot serves it unchanged (lines 26-33), rebuilds nothing and changes nothing |
| Handler.ColdGet | WebhookListener/index.js:14-25 | a GET with an empty cache rebuilds once with the current `lastTransaction`; success caches and serves the result; failure answers 500 and leaves the state, so the cache stays empty; `lastTransaction` is unchanged |
| Handler.IgnoredRequest | WebhookListener/index.js:34 | a non-GET request that does not pass the event test rebuilds nothing, changes nothing and sets no response |
| Handler.RebuildOnlyWhen | WebhookListener/index.js:14-53 | a rebuild happens exactly on a GET with an empty cache, or on an accepted event with matching or unconfigured credentials |
| Handler.CredentialCheck | WebhookListener/index.js:35-43 | with both credentials configured, a mismatching accepted event gets 403 and nothing else happens; with either unconfigured, 403 is never sent |
| Handler.AcceptedEvent | WebhookListener/index.js:44-53 | an accepted event rebuilds with its number; on success `lastTransaction` becomes that number and the cache the new snapshot, with no response; on failure 500 and no change |
| Handler.StepMonotone | WebhookListener/index.js:34-47 | the state changes only after a successful rebuild; `lastTransaction` never decreases and changes only to the number of an accepted event |
| Handler.Trace | WebhookListener/index.js:11-55 | serialized invocations yield one outcome per call, each call handled by `Step` in the state the previous call left (the start state for the first) |
| Handler.TraceSuffix | WebhookListener/index.js:8-9 | the rest of a trace is the trace from the state the module variables then hold |
| Handler.EventsAboveStart | WebhookListener/index.js:34 | every event rebuild in a trace is for a number greater than the starting `lastTransaction` |
| Handler.AcceptedAtMostOnce | WebhookListener/index.js:34-47 | after an event rebuild for T succeeds, every later event rebuild is for a number greater than T: replaying T or anything below it is ignored |
| Handler.TransactionGuard.constructor | WebhookListener/index.js:8-9 | the module variables start as `-1` and no cache, which is valid |
| Handler.TransactionGuard.Handle | WebhookListener/index.js:11-55 | the in-place update of `lastTransaction` and the cache, the response and the rebuild argument are exactly those of `Step`; validity is kept, and a served snapshot carries the stamp of the current `lastTransaction` |

## Left out

- Upstream session and query transport: starting and stopping the authenticator (businessLogic.js:8-9, 61, 65, 68) and sending the query (62). Their results are inputs (`Snapshots.Upstream`): the session, the top-level node list or a failure, and the clock.
- `publishToHubspot` (businessLogic.js:79-94) is upload I/O. The handler never calls it.
- Startup configuration: the environment-variable checks and warnings (businessLogic.js:2-6; index.js:4-5). Whether both credentials are configured is an input.
- The `basic-auth` header decoding: "the credentials match" is a boolean input.
- The error id (`uuidv4`), the timestamps and all logging.
- `JSON.parse` is an abstract function `string -> Option<Json>`, with `None` where it throws. `JSON.stringify` and the pretty-printed response bodies are not modelled.
- The 200 response literal (index.js:26-33): only which snapshot is served is modelled, not the headers. As written, the literal lacks a comma between `headers` and `body`, which JavaScript rejects when parsing the file. The model assumes the evidently intended literal.
- Concurrency: the guard at index.js:34 and the writes at 45-47 are separated by an `await`, so concurrent events could both pass. Invocations are modelled as serialized calls.
- Whitespace collapse (businessLogic.js:28): the template is stated already collapsed. The constant text equals the source literal after runs of whitespace become one space.
- Key order in JavaScript objects: objects are maps.
- Numbers are integers: floating-point, `NaN` and string-valued sequence numbers are not modelled. A request's `transactionSequenceNumber` is an integer or absent.
- A request whose `body` or `factSheet` is `null` (a destructuring `TypeError` at index.js:12) is not modelled.
- Unrolling.Metadata: an array-valued `description` reaches `JSON.parse` as its comma-joined string. The model reads it as `{}`. Numbers, booleans and objects are modelled exactly.
- ChildOrder.RankTable: entries of `childrenOrder` that are not strings become property keys in JavaScript (`1` becomes `"1"`). The model skips them. Inherited object keys such as `constructor` are not modelled either.
- ChildOrder.SortChildren: `Array.prototype.sort` is the engine's algorithm. The model uses a stable insertion sort with the same comparator. The two agree when the comparator is consistent, for example when every child id is ranked. When some ids are missing the engine's result is implementation-defined, and the model's order is the one proved (`SortStable`, `SortFollowsOrder`).
- Unrolling.Spread: spreading a string-valued parsed description (`{ ...str }`) copies UTF-16 code units in JavaScript. The model splits the string into Unicode scalar values (`JsonValues.Chars`), so a string with a character outside the Basic Multilingual Plane spreads into different keys.
