# FrenchPharmaKG: a Dafny model of the graph loader, the embedder and the lookups

FrenchPharmaKG keeps French drug data in an Apache AGE graph named `fcsv`
inside PostgreSQL. It also keeps a `document_vectors` table of OpenAI
embeddings, one per graph vertex, so that free text can be resolved to a
drug. This project models the three pieces that build and read that data:

- **Loader** (`loader.dfy`). This is one model of the three `csv_loader.py`
  copies (`db/scripts/`, `db/container/`, repository root). It covers:
  - the startup rebuild of `fcsv`;
  - `register_labels` with its 8 vertex labels and 9 edge labels;
  - `load_nodes_from_csv` and `load_edges_from_csv` over a directory listing;
  - the phase order of the main block. The scripts copy also runs
    `add_vector_embeddings`.

  The copies differ only in their CSV directories and that extra phase.
- **Embedder** (`embedder.dfy`, `indexer.dfy`, `batching.dfy`). This models
  `add_vector_embeddings` of `db/node_embedder.py` and its variant in
  `db/scripts/csv_loader.py`. It covers:
  - table creation;
  - the vertex-label listing and the per-label node queries;
  - the batches of 100;
  - the per-node skip, embed and upsert steps, and the batch commits.

  The table is a map from id to row.
- **Retrieval** (`retrieval.dfy`, `text.dfy`, `json.dfy`). This models
  `vsearch_drug`, `get_generics` and `get_excipients` of `api/src/utils.py`.
  It covers the quote stripping, the `::\w+$` type-tag removal and the
  `["properties"][...]` projections.

The model has no clock, network or database. It takes the following as
inputs:
- the rows a query returns, or its error (`Store.Fetch`);
- the embedding service (`string -> Option<Vector>`);
- whether the store accepts an insert;
- whether each batch commit succeeds;
- the JSON parser;
- the directory listings, with whether each file loads;
- per-label faults for registration.

PostgreSQL's transaction rule is part of the model. Once a statement fails
inside a transaction, every later statement fails too, and the closing
`COMMIT` acts as a rollback. Every `except` clause in the source that only
logs a failed SQL statement leaves the transaction in that aborted state. A
failed embedding request runs no SQL, so it leaves the transaction healthy. A switch,
`Indexer.Recovery`, chooses between two readings:
- `AsWritten` is the code as it stands;
- `Savepoint` undoes each failed statement on its own, so failures stay
  local.

`Savepoint` is the behaviour the code evidently intends. The corrected
copies (`Embedder.NodeEmbedder`, `Embedder.ScriptsEmbedder`) use it, beside
the copies as written (`Embedder.NodeEmbedderAsWritten`,
`Embedder.ScriptsEmbedderAsWritten`). The loader's whole-run lemmas hold for
both readings. The `AsWritten` consequences
are listed under Findings.

## Model

| member | source | states |
|---|---|---|
| Text.Strip | api/src/utils.py:89-90 | `str.strip(chars)`: the result has no stripped character at either end, and it sits inside the input with only stripped characters around it |
| Text.StripUnique | api/src/utils.py:89-90 | only one string satisfies that: any trimmed string padded into `s` by stripped characters is `Strip(s)` |
| Text.StripIdempotent | api/src/utils.py:89-90 | stripping an already stripped string changes nothing |
| Text.StripEmptyIff | db/node_embedder.py:111 | `s.strip() == ''` holds exactly when every character of `s` is whitespace |
| Text.StripTypeTag | api/src/utils.py:130 | `re.sub(r'::\w+$', '', s)` cuts at the only place the pattern can match; a string without a match comes back unchanged; the result is a prefix of the input |
| Text.TagPosition | api/src/utils.py:130 | the pattern can only match right before the final run of word characters |
| Text.TagRoundTrip | api/src/utils.py:130 | appending `::tag` (word characters) and then stripping it returns the payload, whatever the payload holds |
| Json.NavigateAppend | api/src/utils.py:133-134 | indexing along `p + q` is indexing along `p`, then along `q` from there |
| Json.NavigateNest | api/src/utils.py:133-134 | a value nested under a key path is found again along that path |
| Store.Limit | api/src/utils.py:81 | `LIMIT n` keeps a prefix of the ordered result, of length `min(n, len)` |
| Wrappers.MapAll | api/src/utils.py:129-142 | a loop inside one `try`: it succeeds iff every element succeeds, and then gives each element's result in order |
| Retrieval.VSearchDrug | api/src/utils.py:65-101 | a name and id are returned iff the query succeeds and its nearest row has a non-NULL name; both are the stored values with the surrounding `"` removed; every failure rolls back |
| Retrieval.VSearchUsesFirstRowOnly | api/src/utils.py:77-90 | only the nearest row affects the answer; no distance threshold applies |
| Retrieval.GetGenerics | api/src/utils.py:103-142 | a list is returned iff the query succeeds and every row parses and has `properties.name` and `properties.id`; it has one record per row, in order; otherwise the transaction is rolled back |
| Retrieval.GetExcipients | api/src/utils.py:144-181 | the same for `properties.name` only |
| Retrieval.NoMatchIsEmptyList | api/src/utils.py:126-138 | no matching row gives an empty list, not a failure |
| Retrieval.BadRowFailsExcipients | api/src/utils.py:170-181 | one unparsable or name-less row fails the whole lookup |
| Retrieval.IbuprofenProjection | api/src/utils.py:129-138 | a tagged vertex `{"properties":{"name":"Ibuprofen","id":"D001"}}::vertex` projects to that one record |
| Batching.Batches | db/node_embedder.py:101-106 | the batches concatenate to the node list, each holds 1 to 100 nodes, all but the last are full, and there are `(len + 99) // 100` of them |
| Batching.BatchIsSlice | db/node_embedder.py:104-105 | batch `k` is `nodes[100k : 100k + 100]` |
| Indexer.BlankMeansWhitespace | db/node_embedder.py:110-112 | a node is skipped exactly when its name is NULL or whitespace only |
| Indexer.EmbedTextNameRecoverable | db/node_embedder.py:115 | for a given label, the text sent for embedding determines the name |
| Indexer.Attempt | db/node_embedder.py:108-142 | a node is skipped iff its name is blank, and loses its embedding iff the service fails; it is upserted iff the embedding is 1536 wide, the id fits the column and the store accepts the row; the upserted row carries the node's name, label and vector |
| Indexer.FirstRejected | db/node_embedder.py:108-142 | the first node the store rejects: none before it is rejected |
| Indexer.ProcessNode | db/node_embedder.py:108-142 | one iteration: on a healthy transaction it adds the node's upsert and count; a rejection aborts the transaction as written; on an aborted transaction nothing is added |
| Indexer.ProcessBatchAborted | db/node_embedder.py:108-142 | a batch leaves the transaction aborted iff it started aborted, or, as written, some node was rejected |
| Indexer.ProcessBatchPending | db/node_embedder.py:108-142 | the uncommitted upserts after a batch are those of the nodes that ran on a healthy transaction |
| Indexer.CommitBatch | db/node_embedder.py:144-149 | the commit makes the pending upserts durable iff it succeeds on a healthy transaction, and otherwise leaves the table as it was; either way nothing stays pending and the next batch starts healthy |
| Indexer.IndexNodes | db/node_embedder.py:101-149 | the whole loop: the table is `start` plus the batches that commit; `embedded_count` is the upserts made on a healthy transaction and at most the node count; each non-blank node is sent for embedding exactly once, in order |
| Indexer.WritesLatest | db/node_embedder.py:126-133 | for an id, the stored row is the one from its last successful upsert |
| Indexer.CountBound | db/node_embedder.py:135 | `embedded_count` never exceeds the number of nodes whose upsert would succeed on its own |
| Indexer.HealthyCount | db/node_embedder.py:135 | with local failures, or no rejection, `embedded_count` equals the number of successful upserts, whatever the commits do |
| Indexer.UntouchedIdsPreserved | db/node_embedder.py:126-133 | rows of ids no node carries are left exactly as they were |
| Indexer.AllCommitsDurable | db/node_embedder.py:101-149 | if every commit succeeds, the table is `start` overwritten by every successful upsert; this needs local failures or no rejection |
| Indexer.LatestUpsertWins | db/node_embedder.py:126-133 | `ON CONFLICT (id) DO UPDATE`: the durable row for an id is its last successful upsert |
| Indexer.ReindexIdempotent | db/node_embedder.py:101-149 | running the indexer again with the same services leaves the table as the first run left it |
| Indexer.NothingUpsertedNothingStored | db/node_embedder.py:101-149 | if no node upserts, the table is untouched and the count is 0 |
| Indexer.RejectionDiscardsBatch | db/node_embedder.py:140-149 | as written, one rejected insert loses its whole batch, while `embedded_count` still counts the upserts made before it |
| Embedder.CollectNodes | db/node_embedder.py:73-93 | the node list holds exactly the rows of the label queries that succeed |
| Embedder.CollectNodesAppend | db/node_embedder.py:73-86 | `all_nodes.extend` keeps label order and query order: the rows of earlier labels come first, each as often as returned |
| Embedder.CollectNodesOne | db/node_embedder.py:79-86 | one label query adds its rows in query order, or nothing if it fails |
| Embedder.Gather | db/node_embedder.py:76-91 | with local failures it is every successful label's rows, on a healthy transaction; as written, it is the rows of the labels before the first failing query, and the transaction is aborted iff some query failed |
| Embedder.EmbedAll | db/node_embedder.py:34-149 | the table, listing and empty-listing early returns leave the table alone and count nothing; otherwise the node list is indexed in batches from the transaction state the label loop leaves |
| Embedder.NodeEmbedderAsWritten | db/node_embedder.py:34-149 | the node embedder as written reaches the batches iff the table exists and the listing returns some label |
| Embedder.NodeEmbedder | db/node_embedder.py:34-149 | corrected reading (each failed statement undone on its own): it reaches the batches under the same conditions |
| Embedder.SqlNameFilter | db/scripts/csv_loader.py:254-255 | the SQL filter keeps exactly the rows with a non-NULL, non-empty name, in order |
| Embedder.SqlNameFilterInert | db/scripts/csv_loader.py:249-287 | the filter drops only nodes the Python loop skips anyway: writes, successes and embedding requests are unchanged |
| Embedder.CollectFiltered | db/scripts/csv_loader.py:246-265 | filtering each label's rows is filtering the collected list |
| Embedder.ScriptsEmbedderAsWritten | db/scripts/csv_loader.py:194-321 | the scripts variant as written, with its `UUID` id column, reaches the batches iff the table exists and the listing returns some label |
| Embedder.ScriptsEmbedder | db/scripts/csv_loader.py:194-321 | corrected reading (a `TEXT` id column, each failed statement undone on its own): it reaches the batches under the same conditions |
| Embedder.SavepointEmbedsEveryLabel | db/node_embedder.py:76-149 | with local failures, every label's nodes are processed: the count is all successful upserts; if every commit succeeds, the table holds each node's last upsert |
| Embedder.FailedScanHidesLaterLabels | db/node_embedder.py:89-91 | as written, a failing first label query makes the run embed nothing and request nothing |
| Embedder.GraphIdNotUuid | db/scripts/csv_loader.py:209-250 | a graph id printed by `id::text` never has the 32 hex digits a `uuid` needs |
| Embedder.UuidColumnStoresNothing | db/scripts/csv_loader.py:206-321 | as written, the scripts variant upserts nothing into a `UUID`-keyed table: the table is unchanged and the count is 0 |
| Embedder.ScriptsMatchesEmbedder | db/scripts/csv_loader.py:194-321 | on identical node rows, and with a `TEXT` id column, the scripts variant stops, counts and requests exactly as the node embedder does, and leaves the same table when every commit succeeds |
| Loader.Rebuild | db/scripts/csv_loader.py:23-36 | startup always leaves an empty `fcsv`; it reports creation iff no graph existed |
| Loader.Classify | db/scripts/csv_loader.py:51-55 | a failure is reported as "already exists" iff its message contains that phrase; otherwise the message is kept |
| Loader.AlreadyExistsRecognised | db/scripts/csv_loader.py:52 | AGE's duplicate-label error is classified as "already exists" |
| Loader.ExpectedReply | db/scripts/csv_loader.py:47-55 | on a healthy transaction, a label is reported registered iff it is new and does not fault; an existing label is reported as already existing |
| Loader.RegisterOneHealthy | db/scripts/csv_loader.py:47-55 | one call on a healthy transaction gets its expected report; it aborts the transaction iff it fails and the code is as written |
| Loader.RegisterLabels | db/scripts/csv_loader.py:39-76 | registration adds labels and never loads files; it makes one report per label |
| Loader.RegisterLabelsTolerant | db/scripts/csv_loader.py:39-76 | with local failures, every label gets its expected report, and the graph gains exactly the labels whose call does not fault |
| Loader.RegisterLabelsAllOrNothing | db/scripts/csv_loader.py:39-76 | as written, labels are added only if no call fails; after the first failure every report is the aborted-transaction error |
| Loader.ExistingLabelBlocksRest | db/scripts/csv_loader.py:47-75 | as written, one label that already exists blocks every later label and the commit adds nothing |
| Loader.FreshGraphRegistersAll | db/container/csv_loader.py:37-74 | on the rebuilt graph with no faults, all 17 labels are registered and reported as registered |
| Loader.RegisterTwice | db/container/csv_loader.py:37-74 | registering the same labels again leaves the graph unchanged |
| Loader.LabelOfFile | db/scripts/csv_loader.py:94 | `os.path.splitext(name)[0]` for a `.csv` name: the name without `.csv`, or the whole name when only dots precede the extension |
| Loader.LabelOfFileStem | db/scripts/csv_loader.py:94 | a stem with a character other than `.` comes back unchanged as the label |
| Loader.DrugCsvLabel | db/container/csv_loader.py:92 | `Drug.csv` loads into label `Drug` |
| Loader.LoadedMembers | db/scripts/csv_loader.py:88-109 | the loads recorded are exactly those of the `.csv` entries whose load succeeds, with path `dir/name` |
| Loader.LoadedAppend | db/scripts/csv_loader.py:88-109 | loading a listing in two parts is loading it whole, in listing order |
| Loader.FailedFileSkipped | db/scripts/csv_loader.py:107-109 | a failed or non-`.csv` file adds nothing and does not stop the files after it |
| Loader.LoadDir | db/scripts/csv_loader.py:79-141 | a missing directory changes nothing; otherwise the successful loads are appended; labels are untouched |
| Loader.Phases | db/scripts/csv_loader.py:327-343 | the scripts copy runs four phases and the others three: registration, nodes, edges, and for the scripts copy then embeddings |
| Loader.CrashIndex | db/scripts/csv_loader.py:327-350 | the first phase that raises: none before it raises |
| Loader.PhasesInOrder | db/scripts/csv_loader.py:327-350 | the phases run in order and stop at the first that raises |
| Loader.PhaseOrder | db/container/csv_loader.py:142-159 | without an escaping exception every phase of the copy runs, in order; with one, only the phases before it run |
| Loader.RunLoader | csv_loader.py:22-35 | a run reports creating `fcsv` iff it did not exist before |
| Loader.RunIgnoresPriorGraph | csv_loader.py:22-35 | the graph that existed before startup makes no difference to a run |
| Loader.UninterruptedRun | csv_loader.py:194-213 | a run without an exception registers the labels, then appends the node loads, then the edge loads |
| Loader.CleanRunLabels | csv_loader.py:194-213 | with no fault and no exception, all 17 labels are registered and every report says registered, whatever graph existed before |
| Loader.UninterruptedRunLoads | csv_loader.py:194-213 | without an exception the graph holds the successful node-file loads followed by the successful edge-file loads, and nothing else |
| Loader.CopiesAgree | db/container/csv_loader.py:142-159 | the copies build the same graph up to file paths and print the same registration reports |
| Loader.MissingDirectoriesLoadNothing | db/container/csv_loader.py:81-83 | with both directories missing, a run loads nothing |
| Loader.OnlyScriptsEmbeds | db/scripts/csv_loader.py:343 | only the scripts copy changes `document_vectors`, to what its embedding pass leaves (as written or corrected); the others leave it as it was |

## Left out

- Printing, connection set-up, `LOAD 'age'`, `search_path`, `register_vector` and `cursor.close()` are left out. They have no effect on the data modelled.
- The OpenAI client is not modelled. Its answers are the `embed` input, and a failed request is `None`.
- In `vsearch_drug`, the query embedding (`embed_query`) is computed before the `try`, so its failure propagates to the caller. The model takes the ranked rows as given.
- The `<->` ordering is not modelled. The rows reach `VSearchDrug` already ordered by distance.
- `json.loads` is an abstract partial function (`string -> Option<Json>`). Duplicate keys and number formats are not modelled.
- Text.StripTypeTag: `\w` is taken as ASCII, although Python 3 also matches Unicode letters and digits. The model also does not let `$` match before a final newline. Serialized AGE values end in an ASCII tag with no newline.
- Indexer.UuidShaped: this is a necessary condition for PostgreSQL's `uuid` input (32 hex digits, only hyphens and braces besides). The positions of the hyphens are not checked. This is enough for the graph-id argument.
- Indexer.Attempt: an embedding of the wrong width, an id the column rejects, and any other insert error are one kind of failure, "rejected". The store's decision is the `storeAccepts` input.
- The agtype text of `v.id`, `v.name` and `labels(v)` returned by the Cypher query in db/node_embedder.py is not modelled. The rows arrive as `NodeRow` values.
- The ordering of `os.listdir` is an input, the listing itself. `os.path.abspath` normalisation is not modelled; the path is `dir + "/" + name`.
- An exception escaping to the main block is the `crash` input. It is assumed to be raised before the phase commits anything: in `os.listdir`, in the closing commit of `register_labels`, or in `CREATE EXTENSION`. The model does not cover an exception from a commit after some files are already committed.
- `verify_graph` and `verify_data` are left out. They only read and print, and the main blocks have them commented out.
- A `document_vectors` table that already exists with the other copy's columns is not modelled, because `CREATE TABLE IF NOT EXISTS` keeps the existing one. The `UUID` finding concerns a fresh table.
- Loader.RegisterTwice needs distinct labels, as the constant lists are (`Loader.LabelOrderDistinct`).
- Embedder.ScriptsMatchesEmbedder compares the copies on identical node rows only. For the same vertex the two queries return different text: db/node_embedder.py:82 returns the agtype `v.id` property, `v.name` and `labels(v)`, while db/scripts/csv_loader.py:250 returns the graph id as `id::text`, `properties->>'name'` and the literal label name. So their request texts and table keys differ for one graph.
- AGE's default labels are not modelled. The rebuilt graph holds no user label.

## Findings

| source | as written | input that shows it | evidently intended | confidence | as-written member | corrected member |
|---|---|---|---|---|---|---|
| db/node_embedder.py:140-149 | the per-node `except` only logs, so after a rejected `INSERT` the transaction is aborted, every later insert of the batch fails, and `conn.commit()` rolls the batch back | a batch of two nodes: the first upserts, the second's embedding has the wrong width. Nothing is stored, but `embedded_count` reports 1 | each failed node is skipped (savepoint or rollback) and the rest of the batch is committed | not executed | Indexer.RejectionDiscardsBatch | Indexer.AllCommitsDurable |
| db/node_embedder.py:89-91 | a failing per-label node query is logged and the loop continues on an aborted transaction, so every later label query fails too | the first listed label's query fails (for example, a label name that needs quoting). The run finds no nodes and embeds nothing | the failing label is skipped and the other labels are still embedded | not executed | Embedder.FailedScanHidesLaterLabels | Embedder.SavepointEmbedsEveryLabel |
| db/scripts/csv_loader.py:209 | `id UUID PRIMARY KEY` receives `id::text` of an AGE graph id (line 250), which is a decimal integer, so every insert into a fresh table fails | graph id `844424930131969` as the id of any node: rejected by `uuid` input, so the table stays empty and the count is 0 | a `TEXT` id column, as in db/node_embedder.py:39 | not executed | Embedder.UuidColumnStoresNothing | Embedder.ScriptsMatchesEmbedder |
| db/scripts/csv_loader.py:51-75 | the "already exists" branch only logs, so the transaction stays aborted, every later `create_vlabel`/`create_elabel` fails, and the final commit discards every label | `register_labels` on a graph that already has `Drug`: nothing is registered and the 16 other labels report the aborted-transaction error (after the rebuild this needs a graph that was not dropped, or any other failing call) | an existing label is tolerated and the other labels are still created | not executed | Loader.ExistingLabelBlocksRest | Loader.RegisterLabelsTolerant |
