/** The `handlers` package: the request closure `MakeSearchHandler` returns
    for `GET /search?q=<text>`. */
module Handlers {
  import opened Externals
  import Database

  /** Status codes: 200 OK, 400 Bad Request and 500 Internal Server Error
      (sections 15.3.1, 15.5.1 and 15.6.1 of RFC 9110). */
  const StatusOK := 200
  const StatusBadRequest := 400
  const StatusInternalServerError := 500

  /** The `error` strings of the three error payloads. */
  const QueryRequired := "Query parameter 'q' is required"
  const EmbeddingFailed := "Failed to get query embedding"
  const DatabaseFailed := "Database query failed"

  /** A JSON body: an `{"error": ...}` object, or the list of results. */
  datatype Body = ErrorPayload(error: string) | Results(results: seq<Database.SearchResult>)

  datatype Response = Response(status: int, body: Body)

  /** The response, and the collaborator calls made while producing it. */
  datatype Exchange = Exchange(response: Response, calls: seq<Call>)

  /** The handler. `q` is the `q` query parameter (the empty string when it is
      absent), `embedding` the provider's answer for `q`, and `search` what
      `SearchSentences` returns for that embedding. */
  function HandleSearch(q: string, embedding: EmbedOutcome, search: Database.SearchOutcome): (x: Exchange)
    ensures x.response.status in {StatusOK, StatusBadRequest, StatusInternalServerError}
    ensures x.response.body.ErrorPayload? <==> x.response.status != StatusOK
    ensures x.response.status == StatusBadRequest <==> q == ""
    ensures q == "" ==> x.calls == []
    ensures q != "" ==> 1 <= |x.calls| && x.calls[0] == Embed(EmbeddingModel, q)
    ensures |x.calls| <= 2
    ensures |x.calls| == 2 <==> q != "" && embedding.Ok?
    ensures |x.calls| == 2 ==> x.calls[1] == Search(embedding.value)
    ensures x.response.status == StatusOK <==> q != "" && embedding.Ok? && search.Ok?
    ensures x.response.status == StatusOK ==> x.response.body == Results(search.value)
  {
    if q == "" then
      Exchange(Response(StatusBadRequest, ErrorPayload(QueryRequired)), [])
    else
      match embedding
      case Failed =>
        Exchange(Response(StatusInternalServerError, ErrorPayload(EmbeddingFailed)),
                 [Embed(EmbeddingModel, q)])
      case Ok(vector) =>
        var calls := [Embed(EmbeddingModel, q), Search(vector)];
        match search
        case Failed =>
          Exchange(Response(StatusInternalServerError, ErrorPayload(DatabaseFailed)), calls)
        case Ok(results) =>
          Exchange(Response(StatusOK, Results(results)), calls)
  }

  /* ------------------------------------------------------------------ */
  /* The order of the checks, stated independently of the handler      */
  /* ------------------------------------------------------------------ */

  /** The three steps of a request, in the order the handler takes them. */
  datatype Step = Validation | Embedding | Retrieval

  function Rank(s: Step): nat
  {
    match s
    case Validation => 0
    case Embedding => 1
    case Retrieval => 2
  }

  /** The steps that would fail if each were reached. */
  function FailingSteps(q: string, embedding: EmbedOutcome, search: Database.SearchOutcome): set<Step>
  {
    (if q == "" then {Validation} else {}) +
    (if embedding.Failed? then {Embedding} else {}) +
    (if search.Failed? then {Retrieval} else {})
  }

  /** The response that reports a failure of step `s`. */
  function ErrorResponse(s: Step): Response
  {
    match s
    case Validation => Response(StatusBadRequest, ErrorPayload(QueryRequired))
    case Embedding => Response(StatusInternalServerError, ErrorPayload(EmbeddingFailed))
    case Retrieval => Response(StatusInternalServerError, ErrorPayload(DatabaseFailed))
  }

  /** Exactly one outcome: the earliest failing step decides the response,
      and no collaborator is called at or past the step that fails
      (validation calls nothing, embedding makes one call). */
  lemma EarliestFailureDecides(q: string, embedding: EmbedOutcome, search: Database.SearchOutcome, s: Step)
    requires s in FailingSteps(q, embedding, search)
    requires forall t :: t in FailingSteps(q, embedding, search) ==> Rank(s) <= Rank(t)
    ensures HandleSearch(q, embedding, search).response == ErrorResponse(s)
    ensures |HandleSearch(q, embedding, search).calls| == Rank(s)
  {
    if q != "" && embedding.Failed? {
      assert Embedding in FailingSteps(q, embedding, search);
    }
  }

  /** With no failing step the response is 200 with the search results. */
  lemma NoFailureAnswersResults(q: string, embedding: EmbedOutcome, search: Database.SearchOutcome)
    requires FailingSteps(q, embedding, search) == {}
    ensures HandleSearch(q, embedding, search).response == Response(StatusOK, Results(search.value))
  {
    assert Validation !in FailingSteps(q, embedding, search);
    assert Embedding !in FailingSteps(q, embedding, search);
    assert Retrieval !in FailingSteps(q, embedding, search);
  }

  /* ------------------------------------------------------------------ */
  /* The request path end to end                                        */
  /* ------------------------------------------------------------------ */

  /** A request served end to end: the handler over the store's answer,
      collected with the `rows.Err()` check. */
  function Serve(q: string, embedding: EmbedOutcome, answer: Database.QueryAnswer): (x: Exchange)
    ensures x.response.status == StatusOK ==> answer.Answered? && answer.stream.end == Database.Exhausted
    ensures q != "" && embedding.Ok? && answer.Answered? && answer.stream.end == Database.Interrupted ==>
              x.response == Response(StatusInternalServerError, ErrorPayload(DatabaseFailed))
  {
    HandleSearch(q, embedding, Database.CheckedCollected(answer))
  }

  /** A 200 answer holds every row the store produced, in the store's order,
      and only when the row stream completed; when the store's answer is
      ranked, so is the response. */
  lemma ServedResultsAreTheStoreRows(q: string, embedding: EmbedOutcome, answer: Database.QueryAnswer)
    requires Serve(q, embedding, answer).response.status == StatusOK
    ensures answer.Answered? && answer.stream.end == Database.Exhausted
    ensures var rows := answer.stream.rows; var results := Serve(q, embedding, answer).response.body.results;
      |results| == |rows| &&
      forall k :: 0 <= k < |rows| ==>
        rows[k].Row? && results[k] == Database.SearchResult(rows[k].content, rows[k].similarity)
    ensures Database.Ranked(answer.stream.rows) ==>
      var results := Serve(q, embedding, answer).response.body.results;
      |results| <= Database.TopK &&
      forall i, j :: 0 <= i < j < |results| ==> results[i].similarity >= results[j].similarity
  {
    if Database.Ranked(answer.stream.rows) {
      Database.CollectedKeepsRanking(answer.stream);
    }
  }

  /** As written, a stream that stops on an iteration error after rows that
      all scanned is answered with 200 and the rows read so far. */
  lemma InterruptedStreamAnsweredOK(q: string, vector: Vector, rows: seq<Database.RowOutcome>)
    requires q != ""
    requires forall k :: 0 <= k < |rows| ==> rows[k].Row?
    ensures var x := HandleSearch(q, Ok(vector), Database.Collected(Database.Answered(Database.RowStream(rows, Database.Interrupted))));
      x.response.status == StatusOK && |x.response.body.results| == |rows| &&
      forall k :: 0 <= k < |rows| ==>
        x.response.body.results[k] == Database.SearchResult(rows[k].content, rows[k].similarity)
  {
  }

  /** A search of an empty table answers 200 with an empty list, as written
      and with the corrected collection alike. */
  lemma EmptyTableAnswersEmptyList(q: string, vector: Vector, stream: Database.RowStream)
    requires q != ""
    requires Database.AnswerFrom([], stream) && stream.end == Database.Exhausted
    ensures HandleSearch(q, Ok(vector), Database.Collected(Database.Answered(stream))).response
            == Response(StatusOK, Results([]))
    ensures Serve(q, Ok(vector), Database.Answered(stream)).response == Response(StatusOK, Results([]))
  {
    Database.EmptyTableSearchIsEmpty(stream);
  }
}
