/** Vocabulary shared by the two collaborators the service talks to: the
    Ollama embedding provider and the Postgres/pgvector `sentences` table.
    Both are oracles here: a call's outcome is given, not computed. */
module Externals {

  /** The outcome of a call into a collaborator: a value, or a Go `error`. */
  datatype Outcome<+T> = Ok(value: T) | Failed

  /** An embedding vector; element values are kept abstract as reals. */
  type Vector = seq<real>

  /** What `ollamaClient.Embeddings` returns for one request. */
  type EmbedOutcome = Outcome<Vector>

  /** The model named in every embedding request, whatever the text. */
  const EmbeddingModel: string := "mxbai-embed-large"

  /** One row of the `sentences` table. */
  datatype Record = Record(content: string, embedding: Vector)

  /** The calls made to collaborators, recorded in the order they are made. */
  datatype Call =
    | CountRows                                        // SELECT COUNT(*) FROM sentences
    | Embed(model: string, prompt: string)             // ollamaClient.Embeddings
    | InsertRow(content: string, embedding: Vector)    // INSERT INTO sentences
    | Search(embedding: Vector)                        // the handler's call of SearchSentences

  /** The prompts of the embedding requests in `calls`, in order. */
  function Prompts(calls: seq<Call>): seq<string>
  {
    if calls == [] then []
    else (if calls[0].Embed? then [calls[0].prompt] else []) + Prompts(calls[1..])
  }

  /** The rows whose insertion `calls` asks for, in order. */
  function Inserted(calls: seq<Call>): seq<Record>
  {
    if calls == [] then []
    else (if calls[0].InsertRow? then [Record(calls[0].content, calls[0].embedding)] else [])
         + Inserted(calls[1..])
  }

  lemma {:induction false} PromptsAppend(a: seq<Call>, b: seq<Call>)
    ensures Prompts(a + b) == Prompts(a) + Prompts(b)
  {
    if a != [] {
      assert (a + b)[1..] == a[1..] + b;
      PromptsAppend(a[1..], b);
    } else {
      assert a + b == b;
    }
  }

  lemma {:induction false} InsertedAppend(a: seq<Call>, b: seq<Call>)
    ensures Inserted(a + b) == Inserted(a) + Inserted(b)
  {
    if a != [] {
      assert (a + b)[1..] == a[1..] + b;
      InsertedAppend(a[1..], b);
    } else {
      assert a + b == b;
    }
  }
}
