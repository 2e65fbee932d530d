/** The `database` package: vector narrowing, the nearest-neighbour search and
    the start-up seeding of the `sentences` table. */
module Database {
  import opened Externals

  /* ------------------------------------------------------------------ */
  /* toFloat32                                                          */
  /* ------------------------------------------------------------------ */

  /** Rounding of one float64 to a float32. IEEE 754 rounding is not
      modelled, so the rounding is a parameter of every member that narrows. */
  type Narrowing = real -> real

  /** The narrowed copy of `v`: same length, element i rounded from v[i]. */
  function Float32Of(v: Vector, narrow: Narrowing): (r: Vector)
    ensures |r| == |v|
    ensures forall i :: 0 <= i < |v| ==> r[i] == narrow(v[i])
  {
    if v == [] then [] else Float32Of(v[..|v| - 1], narrow) + [narrow(v[|v| - 1])]
  }

  /** `toFloat32`: allocates the output buffer and fills it index by index. */
  method ToFloat32(v: Vector, narrow: Narrowing) returns (r: Vector)
    ensures r == Float32Of(v, narrow)
  {
    var out := new real[|v|];
    for i := 0 to |v|
      invariant forall k :: 0 <= k < i ==> out[k] == narrow(v[k])
    {
      out[i] := narrow(v[i]);
    }
    r := out[..];
  }

  /* ------------------------------------------------------------------ */
  /* SearchSentences                                                    */
  /* ------------------------------------------------------------------ */

  /** One element of the search answer. */
  datatype SearchResult = SearchResult(content: string, similarity: real)

  /** What one `rows.Next()` / `rows.Scan` step yields. */
  datatype RowOutcome = Row(content: string, similarity: real) | ScanError

  /** How the row stream stopped: every row was read, or `rows.Next()`
      returned false because of an error that only `rows.Err()` reports. */
  datatype StreamEnd = Exhausted | Interrupted

  datatype RowStream = RowStream(rows: seq<RowOutcome>, end: StreamEnd)

  /** The store's answer to the nearest-neighbour query: `dbpool.Query`
      fails, or it hands back a row stream. */
  datatype QueryAnswer = QueryError | Answered(stream: RowStream)

  type SearchOutcome = Outcome<seq<SearchResult>>

  /** The `LIMIT` of the nearest-neighbour query. */
  const TopK := 5

  /** The rows of a stream collected in order; any scan error discards them all. */
  function CollectRows(rows: seq<RowOutcome>): (r: SearchOutcome)
    ensures r.Ok? <==> forall k :: 0 <= k < |rows| ==> rows[k].Row?
    ensures r.Ok? ==> |r.value| == |rows|
    ensures r.Ok? ==> forall k :: 0 <= k < |rows| ==>
              rows[k].Row? && r.value[k] == SearchResult(rows[k].content, rows[k].similarity)
  {
    if rows == [] then Ok([])
    else match rows[0]
      case ScanError => Failed
      case Row(content, similarity) =>
        match CollectRows(rows[1..])
        case Failed => Failed
        case Ok(tail) => Ok([SearchResult(content, similarity)] + tail)
  }

  /** What `SearchSentences` returns for a store answer, as written: a
      stream that ended on an iteration error counts as complete. */
  function Collected(answer: QueryAnswer): (r: SearchOutcome)
    ensures r.Ok? <==> answer.Answered? && forall k :: 0 <= k < |answer.stream.rows| ==> answer.stream.rows[k].Row?
    ensures answer.Answered? ==> r == CollectRows(answer.stream.rows)
  {
    match answer
    case QueryError => Failed
    case Answered(stream) => CollectRows(stream.rows)
  }

  /** `SearchSentences`: narrows the query vector, sends it with the query
      (`sent`), and collects the rows the store produces. */
  method SearchSentences(embedding: Vector, narrow: Narrowing, answer: QueryAnswer)
    returns (sent: Vector, r: SearchOutcome)
    ensures sent == Float32Of(embedding, narrow)
    ensures r == Collected(answer)
  {
    sent := ToFloat32(embedding, narrow);
    if answer.QueryError? {
      return sent, Failed;
    }
    var rows := answer.stream.rows;
    var results: seq<SearchResult> := [];
    var i := 0;
    while i < |rows|
      invariant 0 <= i <= |rows|
      invariant |results| == i
      invariant forall k :: 0 <= k < i ==>
                  rows[k].Row? && results[k] == SearchResult(rows[k].content, rows[k].similarity)
    {
      match rows[i]
      case ScanError =>
        return sent, Failed;
      case Row(content, similarity) =>
        results := results + [SearchResult(content, similarity)];
      i := i + 1;
    }
    r := Ok(results);
    assert CollectRows(rows).Ok?;
    assert CollectRows(rows).value == results;
  }

  /** The store's contract for the nearest-neighbour query, which Postgres and
      pgvector carry out: at most `TopK` rows, by non-increasing similarity. */
  ghost predicate Ranked(rows: seq<RowOutcome>)
  {
    |rows| <= TopK &&
    forall i, j :: 0 <= i < j < |rows| && rows[i].Row? && rows[j].Row? ==>
      rows[i].similarity >= rows[j].similarity
  }

  /** No re-sorting, filtering or truncation on the Go side: a ranked answer
      stays ranked. */
  lemma CollectedKeepsRanking(stream: RowStream)
    requires Ranked(stream.rows)
    ensures var r := Collected(Answered(stream));
      r.Ok? ==> |r.value| <= TopK &&
                forall i, j :: 0 <= i < j < |r.value| ==> r.value[i].similarity >= r.value[j].similarity
  {
  }

  /** The store's answer is drawn from `records`: no more rows than the table
      holds, each row's content that of a stored record. The nearest-neighbour
      selection itself runs in Postgres and is not computed here. */
  ghost predicate AnswerFrom(records: seq<Record>, stream: RowStream)
  {
    |stream.rows| <= |records| &&
    forall k :: 0 <= k < |stream.rows| && stream.rows[k].Row? ==> stream.rows[k].content in Contents(records)
  }

  /** Every result is a stored sentence, and there are no more results than
      stored records. */
  lemma ResultsAreStoredSentences(records: seq<Record>, stream: RowStream)
    requires AnswerFrom(records, stream)
    ensures var r := Collected(Answered(stream));
      r.Ok? ==> |r.value| <= |records| && forall k :: 0 <= k < |r.value| ==> r.value[k].content in Contents(records)
  {
  }

  /** Searching an empty table yields an empty success, not an error. */
  lemma EmptyTableSearchIsEmpty(stream: RowStream)
    requires AnswerFrom([], stream)
    ensures Collected(Answered(stream)) == Ok([])
    ensures stream.end == Exhausted ==> CheckedCollected(Answered(stream)) == Ok([])
  {
  }

  /** The collection with the `rows.Err()` check the source leaves out: a
      stream that stopped on an error is a failure too. */
  function CheckedCollected(answer: QueryAnswer): (r: SearchOutcome)
    ensures r.Ok? <==> answer.Answered? && answer.stream.end == Exhausted &&
                       forall k :: 0 <= k < |answer.stream.rows| ==> answer.stream.rows[k].Row?
    ensures r.Ok? ==> r == Collected(answer)
  {
    match answer
    case QueryError => Failed
    case Answered(RowStream(rows, Interrupted)) => Failed
    case Answered(RowStream(rows, Exhausted)) => CollectRows(rows)
  }

  /** As written, an interrupted stream whose rows scanned cleanly is reported
      as a success holding only the rows read before the error. */
  lemma InterruptedStreamReportedAsSuccess(rows: seq<RowOutcome>)
    requires forall k :: 0 <= k < |rows| ==> rows[k].Row?
    ensures Collected(Answered(RowStream(rows, Interrupted))).Ok?
    ensures CheckedCollected(Answered(RowStream(rows, Interrupted))).Failed?
  {
  }

  /* ------------------------------------------------------------------ */
  /* The store and SeedDatabase                                         */
  /* ------------------------------------------------------------------ */

  /** The `sentences` table behind the connection pool. Each call's failure
      is decided by the caller-supplied `fails` flag. */
  class VectorStore {
    var records: seq<Record>

    constructor (initial: seq<Record>)
      ensures records == initial
    {
      records := initial;
    }

    /** `SELECT COUNT(*) FROM sentences`. */
    method Count(fails: bool) returns (n: Outcome<nat>)
      ensures n == if fails then Failed else Ok(|records|)
    {
      n := if fails then Failed else Ok(|records|);
    }

    /** `INSERT INTO sentences (content, embedding)`: appends on success. */
    method Insert(content: string, embedding: Vector, fails: bool) returns (ok: bool)
      modifies this
      ensures ok == !fails
      ensures records == if fails then old(records) else old(records) + [Record(content, embedding)]
    {
      ok := !fails;
      if ok {
        records := records + [Record(content, embedding)];
      }
    }
  }

  /** The fixed bootstrap corpus, in insertion order. */
  const BootstrapSentences: seq<string> := [
    "The sun rises in the east.",
    "A cat is a small, furry mammal.",
    "Go is an open-source programming language."
  ]

  /** The collaborators' answers for one bootstrap sentence: the embedding
      call's outcome, and whether the insert (made only after a successful
      embedding) fails. */
  datatype SeedAttempt = SeedAttempt(embed: EmbedOutcome, insertFails: bool)

  /** The attempt reaches the insert; with `insertedOnly`, the insert succeeds too. */
  predicate Selected(a: SeedAttempt, insertedOnly: bool)
  {
    a.embed.Ok? && (insertedOnly ==> !a.insertFails)
  }

  /** The record the attempt for sentence `s` inserts. */
  function RecordOf(s: string, a: SeedAttempt, narrow: Narrowing): Record
    requires a.embed.Ok?
  {
    Record(s, Float32Of(a.embed.value, narrow))
  }

  /** The records of the selected attempts, in sentence order. */
  function SelectRecords(ss: seq<string>, attempts: seq<SeedAttempt>, insertedOnly: bool,
                         narrow: Narrowing): (r: seq<Record>)
    requires |attempts| == |ss|
    ensures |r| <= |ss|
    decreases |ss|
  {
    if ss == [] then []
    else
      var n := |ss| - 1;
      SelectRecords(ss[..n], attempts[..n], insertedOnly, narrow)
      + (if Selected(attempts[n], insertedOnly) then [RecordOf(ss[n], attempts[n], narrow)] else [])
  }

  /** The records a pass stores: those whose embedding and insert both succeed. */
  function StoredRecords(ss: seq<string>, attempts: seq<SeedAttempt>, narrow: Narrowing): seq<Record>
    requires |attempts| == |ss|
  {
    SelectRecords(ss, attempts, true, narrow)
  }

  /** The records a pass asks to insert: those whose embedding succeeds. */
  function EmbeddedRecords(ss: seq<string>, attempts: seq<SeedAttempt>, narrow: Narrowing): seq<Record>
    requires |attempts| == |ss|
  {
    SelectRecords(ss, attempts, false, narrow)
  }

  /** The indices of the selected attempts, an independent view of `SelectRecords`. */
  function SelectedIndices(attempts: seq<SeedAttempt>, insertedOnly: bool): (idx: seq<nat>)
    ensures forall k :: 0 <= k < |idx| ==> idx[k] < |attempts|
    ensures forall k, l :: 0 <= k < l < |idx| ==> idx[k] < idx[l]
    ensures forall i :: 0 <= i < |attempts| ==> (i in idx <==> Selected(attempts[i], insertedOnly))
    decreases |attempts|
  {
    if attempts == [] then []
    else
      var n := |attempts| - 1;
      SelectedIndices(attempts[..n], insertedOnly)
      + (if Selected(attempts[n], insertedOnly) then [n] else [])
  }

  /** The calls one pass over the sentences makes: per sentence, the
      embedding request, then the insert when the embedding succeeded. */
  function PassCalls(ss: seq<string>, attempts: seq<SeedAttempt>, narrow: Narrowing): seq<Call>
    requires |attempts| == |ss|
    decreases |ss|
  {
    if ss == [] then []
    else
      var n := |ss| - 1;
      PassCalls(ss[..n], attempts[..n], narrow) + AttemptCalls(ss[n], attempts[n], narrow)
  }

  function AttemptCalls(s: string, a: SeedAttempt, narrow: Narrowing): seq<Call>
  {
    [Embed(EmbeddingModel, s)] + (if a.embed.Ok? then [InsertRow(s, Float32Of(a.embed.value, narrow))] else [])
  }

  /** The table after seeding: unchanged when the count fails or finds rows,
      else the records whose embedding and insert both succeeded. */
  function SeedRecords(before: seq<Record>, countFails: bool, attempts: seq<SeedAttempt>,
                       narrow: Narrowing): seq<Record>
    requires |attempts| == |BootstrapSentences|
  {
    if countFails || |before| > 0 then before
    else before + StoredRecords(BootstrapSentences, attempts, narrow)
  }

  /** The calls seeding makes. */
  function SeedCalls(before: seq<Record>, countFails: bool, attempts: seq<SeedAttempt>,
                     narrow: Narrowing): seq<Call>
    requires |attempts| == |BootstrapSentences|
  {
    [CountRows] + if countFails || |before| > 0 then [] else PassCalls(BootstrapSentences, attempts, narrow)
  }

  /** One more sentence of the pass: its records and calls follow those of
      the sentences before it. */
  lemma PassStep(ss: seq<string>, attempts: seq<SeedAttempt>, i: nat, narrow: Narrowing)
    requires |attempts| == |ss| && i < |ss|
    ensures StoredRecords(ss[..i + 1], attempts[..i + 1], narrow)
            == StoredRecords(ss[..i], attempts[..i], narrow)
               + if Selected(attempts[i], true) then [RecordOf(ss[i], attempts[i], narrow)] else []
    ensures PassCalls(ss[..i + 1], attempts[..i + 1], narrow)
            == PassCalls(ss[..i], attempts[..i], narrow) + AttemptCalls(ss[i], attempts[i], narrow)
  {
    assert ss[..i + 1][..i] == ss[..i];
    assert attempts[..i + 1][..i] == attempts[..i];
  }

  /** `SeedDatabase`: the count guard, then one embed-and-insert attempt per
      bootstrap sentence, each failure skipping only its own sentence. */
  method SeedDatabase(store: VectorStore, countFails: bool, attempts: seq<SeedAttempt>, narrow: Narrowing)
    returns (calls: seq<Call>)
    requires |attempts| == |BootstrapSentences|
    modifies store
    ensures store.records == SeedRecords(old(store.records), countFails, attempts, narrow)
    ensures calls == SeedCalls(old(store.records), countFails, attempts, narrow)
    ensures countFails ==> store.records == old(store.records) && calls == [CountRows]
    ensures old(store.records) != [] ==> store.records == old(store.records) && calls == [CountRows]
  {
    calls := [CountRows];
    var count := store.Count(countFails);
    if count.Failed? {
      return;
    }
    if count.value > 0 {
      return;
    }
    var sentences := BootstrapSentences;
    for i := 0 to |sentences|
      invariant store.records == StoredRecords(sentences[..i], attempts[..i], narrow)
      invariant calls == [CountRows] + PassCalls(sentences[..i], attempts[..i], narrow)
    {
      var s := sentences[i];
      PassStep(sentences, attempts, i, narrow);
      calls := calls + [Embed(EmbeddingModel, s)];
      var resp := attempts[i].embed;
      if resp.Failed? {
        continue;
      }
      var vector := ToFloat32(resp.value, narrow);
      calls := calls + [InsertRow(s, vector)];
      var ok := store.Insert(s, vector, attempts[i].insertFails);
    }
    assert sentences[..|sentences|] == sentences;
    assert attempts[..|sentences|] == attempts;
  }

  /* ------------------------------------------------------------------ */
  /* Properties of seeding                                              */
  /* ------------------------------------------------------------------ */

  /** The selected records are exactly the records of the selected attempts,
      in sentence order. */
  lemma {:induction false} SelectRecordsAt(ss: seq<string>, attempts: seq<SeedAttempt>, insertedOnly: bool,
                                           narrow: Narrowing)
    requires |attempts| == |ss|
    ensures var idx := SelectedIndices(attempts, insertedOnly);
      var r := SelectRecords(ss, attempts, insertedOnly, narrow);
      |r| == |idx| &&
      forall k :: 0 <= k < |idx| ==>
        Selected(attempts[idx[k]], insertedOnly) && r[k] == RecordOf(ss[idx[k]], attempts[idx[k]], narrow)
    decreases |ss|
  {
    if ss != [] {
      var n := |ss| - 1;
      SelectRecordsAt(ss[..n], attempts[..n], insertedOnly, narrow);
      var idx := SelectedIndices(attempts, insertedOnly);
      var idx' := SelectedIndices(attempts[..n], insertedOnly);
      var r := SelectRecords(ss, attempts, insertedOnly, narrow);
      var r' := SelectRecords(ss[..n], attempts[..n], insertedOnly, narrow);
      var grows := Selected(attempts[n], insertedOnly);
      assert r == r' + if grows then [RecordOf(ss[n], attempts[n], narrow)] else [];
      assert idx == idx' + if grows then [n] else [];
      forall k | 0 <= k < |idx|
        ensures Selected(attempts[idx[k]], insertedOnly) && r[k] == RecordOf(ss[idx[k]], attempts[idx[k]], narrow)
      {
        if k < |idx'| {
          var j := idx'[k];
          assert idx[k] == j && j < n;
          assert r[k] == r'[k];
          assert attempts[..n][j] == attempts[j] && ss[..n][j] == ss[j];
        } else {
          assert idx[k] == n;
        }
      }
    }
  }

  /** One attempt first embeds its sentence, once, and inserts it only after,
      and only if, the embedding succeeded. */
  lemma AttemptCallsProjected(s: string, a: SeedAttempt, narrow: Narrowing)
    ensures AttemptCalls(s, a, narrow)[0] == Embed(EmbeddingModel, s)
    ensures |AttemptCalls(s, a, narrow)| == if a.embed.Ok? then 2 else 1
    ensures Prompts(AttemptCalls(s, a, narrow)) == [s]
    ensures Inserted(AttemptCalls(s, a, narrow)) == if a.embed.Ok? then [RecordOf(s, a, narrow)] else []
  {
    var calls := AttemptCalls(s, a, narrow);
    if a.embed.Ok? {
      assert calls[1..][1..] == [];
      assert Prompts(calls[1..]) == [];
      assert Inserted(calls[1..]) == [RecordOf(s, a, narrow)];
    } else {
      assert calls[1..] == [];
    }
  }

  /** Every sentence is sent to the embedding provider exactly once, in order,
      whatever fails. */
  lemma {:induction false} PassEmbedsEverySentence(ss: seq<string>, attempts: seq<SeedAttempt>,
                                                   narrow: Narrowing)
    requires |attempts| == |ss|
    ensures Prompts(PassCalls(ss, attempts, narrow)) == ss
    decreases |ss|
  {
    if ss != [] {
      var n := |ss| - 1;
      PassEmbedsEverySentence(ss[..n], attempts[..n], narrow);
      PromptsAppend(PassCalls(ss[..n], attempts[..n], narrow), AttemptCalls(ss[n], attempts[n], narrow));
      AttemptCallsProjected(ss[n], attempts[n], narrow);
      assert ss[..n] + [ss[n]] == ss;
    }
  }

  /** Inserts are attempted for exactly the sentences whose embedding
      succeeded, in order: a failed embedding prevents only its own insert,
      and a failed insert prevents nothing. */
  lemma {:induction false} PassInsertsEveryEmbedded(ss: seq<string>, attempts: seq<SeedAttempt>,
                                                    narrow: Narrowing)
    requires |attempts| == |ss|
    ensures Inserted(PassCalls(ss, attempts, narrow)) == EmbeddedRecords(ss, attempts, narrow)
    decreases |ss|
  {
    if ss != [] {
      var n := |ss| - 1;
      PassInsertsEveryEmbedded(ss[..n], attempts[..n], narrow);
      InsertedAppend(PassCalls(ss[..n], attempts[..n], narrow), AttemptCalls(ss[n], attempts[n], narrow));
      AttemptCallsProjected(ss[n], attempts[n], narrow);
    }
  }

  /** The contents of a sequence of records. */
  function Contents(rs: seq<Record>): seq<string>
  {
    seq(|rs|, i requires 0 <= i < |rs| => rs[i].content)
  }

  /** When every attempt succeeds, every sentence is stored, in order. */
  lemma {:induction false} AllStored(ss: seq<string>, attempts: seq<SeedAttempt>, narrow: Narrowing)
    requires |attempts| == |ss|
    requires forall i :: 0 <= i < |ss| ==> Selected(attempts[i], true)
    ensures Contents(StoredRecords(ss, attempts, narrow)) == ss
    decreases |ss|
  {
    if ss != [] {
      var n := |ss| - 1;
      AllStored(ss[..n], attempts[..n], narrow);
      assert ss[..n] + [ss[n]] == ss;
    }
  }

  /** When only attempt `j` fails, every other sentence is stored, in order:
      the table ends up with one record fewer than the corpus. */
  lemma {:induction false} OneSentenceFails(ss: seq<string>, attempts: seq<SeedAttempt>, j: nat,
                                            narrow: Narrowing)
    requires |attempts| == |ss| && j < |ss|
    requires !Selected(attempts[j], true)
    requires forall i :: 0 <= i < |ss| && i != j ==> Selected(attempts[i], true)
    ensures Contents(StoredRecords(ss, attempts, narrow)) == ss[..j] + ss[j + 1..]
    decreases |ss|
  {
    var n := |ss| - 1;
    if j == n {
      AllStored(ss[..n], attempts[..n], narrow);
    } else {
      OneSentenceFails(ss[..n], attempts[..n], j, narrow);
      var r' := SelectRecords(ss[..n], attempts[..n], true, narrow);
      assert SelectRecords(ss, attempts, true, narrow) == r' + [RecordOf(ss[n], attempts[n], narrow)];
      assert Contents(r' + [RecordOf(ss[n], attempts[n], narrow)]) == Contents(r') + [ss[n]];
      assert ss[..n][..j] == ss[..j];
      assert ss[..n][j + 1..] + [ss[n]] == ss[j + 1..];
    }
  }

  /** A pass stores something exactly when some attempt fully succeeds. */
  lemma PassStoresSomething(ss: seq<string>, attempts: seq<SeedAttempt>, narrow: Narrowing)
    requires |attempts| == |ss|
    ensures StoredRecords(ss, attempts, narrow) != [] <==>
            exists i :: 0 <= i < |attempts| && Selected(attempts[i], true)
  {
    SelectRecordsAt(ss, attempts, true, narrow);
    var r := SelectRecords(ss, attempts, true, narrow);
    var idx := SelectedIndices(attempts, true);
    assert StoredRecords(ss, attempts, narrow) == r && |r| == |idx|;
    if exists i :: 0 <= i < |attempts| && Selected(attempts[i], true) {
      var i :| 0 <= i < |attempts| && Selected(attempts[i], true);
      assert i in idx;
    }
    if r != [] {
      assert Selected(attempts[idx[0]], true);
    }
  }

  /** Seeding twice from an empty table, when the first pass stored at least
      one sentence: the second call only counts, and changes nothing. */
  lemma SeedAgainAfterProgress(first: seq<SeedAttempt>, countFails: bool, second: seq<SeedAttempt>,
                               narrow: Narrowing)
    requires |first| == |BootstrapSentences| && |second| == |BootstrapSentences|
    requires exists i :: 0 <= i < |first| && Selected(first[i], true)
    ensures SeedRecords([], false, first, narrow) != []
    ensures SeedRecords(SeedRecords([], false, first, narrow), countFails, second, narrow)
            == SeedRecords([], false, first, narrow)
    ensures SeedCalls(SeedRecords([], false, first, narrow), countFails, second, narrow) == [CountRows]
  {
    PassStoresSomething(BootstrapSentences, first, narrow);
  }

  /** Seeding twice from an empty table, when every attempt of the first pass
      failed: the table stays empty and a second call whose count succeeds
      embeds every sentence again and stores what now succeeds. */
  lemma SeedAgainAfterTotalFailure(first: seq<SeedAttempt>, second: seq<SeedAttempt>, narrow: Narrowing)
    requires |first| == |BootstrapSentences| && |second| == |BootstrapSentences|
    requires forall i :: 0 <= i < |first| ==> !Selected(first[i], true)
    ensures SeedRecords([], false, first, narrow) == []
    ensures SeedRecords(SeedRecords([], false, first, narrow), false, second, narrow)
            == StoredRecords(BootstrapSentences, second, narrow)
    ensures Prompts(SeedCalls(SeedRecords([], false, first, narrow), false, second, narrow)) == BootstrapSentences
  {
    PassStoresSomething(BootstrapSentences, first, narrow);
    var after := SeedRecords([], false, first, narrow);
    assert after == [];
    assert SeedRecords(after, false, second, narrow) == [] + SelectRecords(BootstrapSentences, second, true, narrow);
    var pass := PassCalls(BootstrapSentences, second, narrow);
    assert SeedCalls(after, false, second, narrow) == [CountRows] + pass;
    PassEmbedsEverySentence(BootstrapSentences, second, narrow);
    PromptsAppend([CountRows], pass);
    assert Prompts([CountRows]) == [];
  }
}
