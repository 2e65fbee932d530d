# Semantic sentence search: control logic

A Dafny model of the Go service that answers `GET /search?q=<text>` with the
stored sentences nearest to the query. The service embeds the query with an
Ollama model (`mxbai-embed-large`). It then asks a Postgres/pgvector
`sentences` table for the five rows nearest to that embedding. At start-up it
seeds the table with three bootstrap sentences when the table is empty.

The embedding provider and the table are oracles. An embedding call yields a
vector or a failure. The table is a sequence of `(content, embedding)` records,
and each count, insert and query call succeeds or fails as its caller-supplied
outcome says. Every model member records the collaborator calls it makes, so
call order and short-circuits can be stated.

- `externals.dfy`, module `Externals`: the `Outcome` of a call, `Record`, the
  `Call` trace, the fixed model name, and projections of a trace (`Prompts`,
  `Inserted`).
- `database.dfy`, module `Database` (from `database/database.go`): `ToFloat32`,
  the row collection of `SearchSentences`, the `VectorStore` class and
  `SeedDatabase`. `ToFloat32`, `SearchSentences` and `SeedDatabase` are methods
  with loops, each proved against a specification function, and the lemmas are
  about those functions. `VectorStore.Count` and `VectorStore.Insert` stand for
  the database calls; their contracts state the table's new state directly.
- `handlers.dfy`, module `Handlers` (from `handlers/search.go`): the request
  closure as a pure function `HandleSearch`. It maps (query, embedding outcome,
  search outcome) to a response and a call trace. `FailingSteps` gives the check
  order an independent definition.

Status codes: 400 Bad Request (section 15.5.1 of RFC 9110), 500 Internal Server
Error (section 15.6.1) and 200 OK (section 15.3.1).

## Model

| member | source | states |
|---|---|---|
| `Database.Float32Of` | database/database.go:13-19 | the narrowed vector has the input's length, and element i is element i of the input, rounded |
| `Database.ToFloat32` | database/database.go:13-19 | the buffer filled index by index equals the narrowed vector |
| `Database.CollectRows` | database/database.go:43-51 | rows are collected in store order with no re-sorting, filtering or truncation; a success holds exactly one result per row; any scan error is a failure that discards every row already collected; zero rows give an empty success |
| `Database.SearchSentences` | database/database.go:30-52 | the embedding is narrowed before it is sent; a query error is a failure; otherwise the result is the row collection of the answer |
| `Database.Collected` | database/database.go:30-52 | as written: a success exactly when the query succeeded and every row scanned, whatever way the row stream ended; then it is the row collection |
| `Database.ResultsAreStoredSentences` | database/database.go:30-51 | when the store's answer is drawn from the table, every result is a stored sentence and there are no more results than stored records |
| `Database.EmptyTableSearchIsEmpty` | database/database.go:43-51 | searching an empty table gives an empty success and no error |
| `Database.CollectedKeepsRanking` | database/database.go:32-51 | when the store's answer obeys its `ORDER BY similarity DESC LIMIT 5` contract, a success has at most 5 results by non-increasing similarity |
| `Database.CheckedCollected` | database/database.go:43-51 | corrected collection: a success exactly when the query succeeded, the stream ended without error and every row scanned, and then it holds the rows as collected |
| `Database.InterruptedStreamReportedAsSuccess` | database/database.go:44-51 | as written, a stream that stops on an iteration error is reported as a success; the corrected collection reports it as a failure |
| `Database.VectorStore.Count` | database/database.go:56-60 | the count query gives the number of stored records, or fails |
| `Database.VectorStore.Insert` | database/database.go:84-89 | a successful insert appends exactly the one record; a failed one changes nothing |
| `Database.SelectRecords` | database/database.go:73-90 | a pass stores at most one record per bootstrap sentence, so at most 3; `StoredRecords` (embedding and insert succeeded) and `EmbeddedRecords` (embedding succeeded) name its two uses |
| `Database.SelectedIndices` | database/database.go:73-90 | the indices of the attempts that get through are increasing, in range, and include an index exactly when its attempt gets through |
| `Database.SelectRecordsAt` | database/database.go:73-90 | the records a pass stores are exactly those of the sentences whose embedding and insert both succeeded, in list order, each with its narrowed embedding |
| `Database.AttemptCallsProjected` | database/database.go:74-89 | the first call for a sentence is its one embedding request; an insert follows it exactly when the embedding succeeded |
| `Database.PassEmbedsEverySentence` | database/database.go:73-82 | every bootstrap sentence is sent for embedding exactly once, in list order, whatever fails before it |
| `Database.PassInsertsEveryEmbedded` | database/database.go:78-89 | inserts are attempted for exactly the sentences whose embedding succeeded, in order; a failed embedding skips only its own insert, and a failed insert skips nothing |
| `Database.AllStored` | database/database.go:73-90 | when every attempt succeeds, every sentence is stored, in order |
| `Database.OneSentenceFails` | database/database.go:78-89 | when only sentence j fails, every other sentence is stored, in order, leaving one record fewer than the corpus |
| `Database.PassStoresSomething` | database/database.go:73-90 | a pass stores something exactly when some sentence's embedding and insert both succeed |
| `Database.SeedDatabase` | database/database.go:54-92 | a failed count leaves the table unchanged and makes no other call; a non-empty table is left unchanged; an empty one gets the records of the pass; the call trace is count, then per sentence an embedding request followed by an insert when the embedding succeeded |
| `Database.SeedAgainAfterProgress` | database/database.go:61-64 | seeding twice from empty, when the first pass stored something: the second call only counts and changes nothing |
| `Database.SeedAgainAfterTotalFailure` | database/database.go:61-90 | seeding twice from empty, when every first attempt failed: the table is still empty, and a second call whose count succeeds embeds every sentence again and stores what now succeeds |
| `Handlers.HandleSearch` | handlers/search.go:13-38 | the status is 200, 400 or 500, with an error payload exactly when it is not 200; 400 exactly for an empty query, with no call made; a non-empty query is the prompt, unchanged, of a first embedding request under the fixed model; the search is called, with the embedding unchanged, exactly when the embedding succeeded; 200 exactly when embedding and search succeed, with the search results unchanged |
| `Handlers.EarliestFailureDecides` | handlers/search.go:15-35 | when several steps would fail, the earliest in the order validation, embedding, store decides the response, and the number of calls made is the number of steps before it |
| `Handlers.NoFailureAnswersResults` | handlers/search.go:31-37 | with no failing step the response is 200 carrying the search results |
| `Handlers.Serve` | handlers/search.go:31-37 | end to end with the corrected collection: 200 only when the row stream completed; a stream that stopped on an error is answered 500 "Database query failed" |
| `Handlers.InterruptedStreamAnsweredOK` | handlers/search.go:31-37 | as written, a row stream that stops on an error after rows that all scanned is answered 200 with the rows read so far |
| `Handlers.EmptyTableAnswersEmptyList` | handlers/search.go:31-37 | a non-empty query over an empty table is answered 200 with an empty list, as written and corrected alike |
| `Handlers.ServedResultsAreTheStoreRows` | handlers/search.go:31-37 | end to end with the corrected collection, a 200 answer means the stream completed, and it holds every store row in store order; with a ranked store answer it has at most 5 results by non-increasing similarity |

## Left out

- `main.go` is not part of this model: `.env` loading, pool and client construction, `log.Fatalf` exits and the Echo server setup are process wiring.
- `NewConnection` (database/database.go:26-28) is a one-line wrapper over the pool constructor.
- The similarity `1 - (embedding <=> $1)`, `ORDER BY similarity DESC` and `LIMIT 5` run inside Postgres/pgvector on floats. They appear only as the assumption `Ranked` on the store's answer, never as proved properties.
- Database.Float32Of: float64-to-float32 rounding is the parameter `narrow`, because IEEE 754 rounding is not modelled; only length and position are stated.
- The query's rows are not computed from `VectorStore.records`: which rows are nearest is decided in Postgres. The answer is tied to the table only by the assumption `AnswerFrom`: no more rows than stored records, and each row's content that of a stored record.
- The embedding dimension, and the invariant that every stored vector has it, are properties of the Ollama model and the table schema. They are not modelled.
- JSON encoding is left out. The source encodes an empty result as `null`, because the result is a nil Go slice, and not as `[]`.
- Logging (`log.Printf`, `fmt.Println`, `c.Logger().Errorf`) has no effect on behaviour.
- Request contexts, cancellation and pool concurrency are runtime concerns and are not modelled.
- The seeder's embedding and insert outcomes come as one `SeedAttempt` per bootstrap sentence. The insert outcome is consulted only after a successful embedding.

Two behaviours of the code worth stating:
- Seeding twice from an empty table seeds again when every attempt of the first call failed, because the guard at database/database.go:61-64 sees an empty table once more (`Database.SeedAgainAfterTotalFailure`).
- Zero search results are sent as JSON `null`, not `[]`, because `results` stays a nil slice (database/database.go:43, 51); see the JSON line above.

## Findings

| source | as written | input that shows it | evidently intended | confidence | as-written member | corrected member |
|---|---|---|---|---|---|---|
| database/database.go:44-51 | After the `rows.Next()` loop the function returns `results, nil` without checking `rows.Err()`. | A store answer whose row stream stops on an error that only `rows.Err()` reports, for example a server-side error during execution after zero rows. `SearchSentences` returns an empty success, and the handler answers 200. | Report the error, so the handler answers 500 "Database query failed". | medium, not executed; it rests on pgx v5 reporting such errors only through `rows.Err()` | `Database.InterruptedStreamReportedAsSuccess` | `Database.CheckedCollected` |

`Database.SearchSentences` and `Database.Collected` model the code as written. `Handlers.Serve`, the end-to-end request path, uses the corrected `Database.CheckedCollected`.
