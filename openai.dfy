/** The OpenAI embedding adapter (`OpenAIAug`): setup of the API key and the
    model name, `get_embedding`, and `search`, which embeds the documents
    and the query, resolves `top_k`, queries the vector database and maps
    the returned positions back to documents.

    The embedding service and the vector database are external. The
    service is a function from (texts, model name) to the list of returned
    embeddings. The database is an object that stores what it is given and
    ranks with a function it carries. Both record the calls made to them,
    so the order and the arguments of those calls can be stated. */
module OpenAIAugmentation {
  import opened Outcomes

  const DefaultModelName := "text-embedding-3-small"
  const DefaultTopK := 2
  /** The last fallback of the `top_k` cascade. */
  const LastResortTopK := 1
  /** `get_embedding` keeps the provider result at this position only. */
  const EmbeddingResultIndex := 0

  const IndicesKey := "indices"
  const ScoresKey := "scores"
  const SearchParamsKey := "search_params"

  /** A floating-point number. Embedding values and scores are carried
      through unchanged and never computed with. */
  type Float(==)

  /** One embedding as the provider returns it (`response.data[i].embedding`). */
  type Embedding = seq<Float>

  /** A two-dimensional array, as a list of rows. */
  type Matrix = seq<seq<Float>>

  datatype EmbeddingRequest = EmbeddingRequest(input: seq<string>, model: string)

  datatype DbCall = EmbedCall(vectors: Matrix) | SearchCall(query: Matrix, topK: int)

  /** What `db.search` returns. */
  datatype Neighbours = Neighbours(scores: seq<Float>, indices: seq<int>)

  datatype LogValue =
    | IndicesLog(indices: seq<int>)
    | ScoresLog(scores: seq<Float>)
    | SearchParamsLog(queryEncoded: Matrix, topK: int)

  /* ---------------------------------------------------------------------
     Pure selection rules
     --------------------------------------------------------------------- */

  /** `self.model_name or self.default_model_name`. */
  function ModelNameOrDefault(modelName: string): (name: string)
    ensures name != []
    ensures modelName != [] ==> name == modelName
    ensures modelName == [] ==> name == DefaultModelName
  {
    if modelName != [] then modelName else DefaultModelName
  }

  /** `top_k or self.top_k or self.default_top_k or 1`, where 0 (or None)
      is false and every other integer, negative ones included, is true. */
  function ResolveTopK(argument: int, configured: int): (k: int)
    ensures k != 0
    ensures argument != 0 ==> k == argument
    ensures argument == 0 && configured != 0 ==> k == configured
    ensures argument == 0 && configured == 0 ==> k == DefaultTopK
  {
    if argument != 0 then argument
    else if configured != 0 then configured
    else if DefaultTopK != 0 then DefaultTopK
    else LastResortTopK
  }

  /** Reference definition of a Python `or` chain over integers: the first
      true (nonzero) value, or the last value when all are false. */
  function FirstTruthy(values: seq<int>): (v: int)
    requires values != []
    ensures v == 0 <==> forall j :: 0 <= j < |values| ==> values[j] == 0
    ensures v != 0 ==> exists i :: 0 <= i < |values| && values[i] == v
                                   && forall j :: 0 <= j < i ==> values[j] == 0
    decreases |values|
  {
    if |values| == 1 || values[0] != 0 then values[0]
    else
      var v := FirstTruthy(values[1..]);
      assert forall j :: 1 <= j < |values| ==> values[j] == values[1..][j - 1];
      v
  }

  /** The cascade is the `or` chain of the argument, the instance value, the
      class default and 1. */
  lemma ResolveTopKIsOrChain(argument: int, configured: int)
    ensures ResolveTopK(argument, configured) == FirstTruthy([argument, configured, DefaultTopK, LastResortTopK])
  {
    var values := [argument, configured, DefaultTopK, LastResortTopK];
    var rest := [configured, DefaultTopK, LastResortTopK];
    assert values[1..] == rest;
    if argument == 0 {
      assert FirstTruthy(values) == FirstTruthy(rest);
      assert rest[1..] == [DefaultTopK, LastResortTopK];
      if configured == 0 {
        assert FirstTruthy(rest) == FirstTruthy([DefaultTopK, LastResortTopK]);
      }
    }
  }

  /** `np.array(response.data[0].embedding)` reshaped to `(1, size)`: one row,
      the provider's first result. An empty result list is an IndexError. */
  function FirstRow(data: seq<Embedding>): (r: Result<Matrix>)
    ensures r.Ok? <==> |data| > EmbeddingResultIndex
    ensures r.Ok? ==> |r.value| == 1 && r.value[0] == data[EmbeddingResultIndex]
    ensures r.Err? ==> r.error == IndexOutOfRange(EmbeddingResultIndex)
  {
    if |data| > EmbeddingResultIndex then Ok([data[EmbeddingResultIndex]])
    else Err(IndexOutOfRange(EmbeddingResultIndex))
  }

  /** Only the first provider result matters, whatever follows it. */
  lemma FirstRowIgnoresLaterResults(data: seq<Embedding>, more: seq<Embedding>)
    requires data != []
    ensures FirstRow(data + more) == FirstRow(data)
    ensures FirstRow(data + more).Ok? && |FirstRow(data + more).value[0]| == |data[0]|
  {
  }

  /** `i` is a valid Python index into a list of length n, negative ones counting from the end. */
  predicate ValidIndex(n: int, i: int)
  {
    -n <= i < n
  }

  /** The position a valid Python index denotes. */
  function Position(n: int, i: int): (p: int)
    requires ValidIndex(n, i)
    ensures 0 <= p < n
    ensures 0 <= i ==> p == i
  {
    if i < 0 then n + i else i
  }

  /** `[documents[i] for i in indices]`: the documents at the given
      positions, in the order of `indices`; the first index out of range
      raises an IndexError. */
  function MapIndices(documents: seq<string>, indices: seq<int>): (r: Result<seq<string>>)
    ensures r.Ok? <==> forall j :: 0 <= j < |indices| ==> ValidIndex(|documents|, indices[j])
    ensures r.Ok? ==> |r.value| == |indices|
    ensures r.Ok? ==> forall j :: 0 <= j < |indices| ==>
                        r.value[j] == documents[Position(|documents|, indices[j])]
    ensures r.Err? ==> exists j :: 0 <= j < |indices| && r.error == IndexOutOfRange(indices[j])
                                   && !ValidIndex(|documents|, indices[j])
                                   && forall k :: 0 <= k < j ==> ValidIndex(|documents|, indices[k])
    decreases |indices|
  {
    if indices == [] then Ok([])
    else if !ValidIndex(|documents|, indices[0]) then Err(IndexOutOfRange(indices[0]))
    else
      var rest := MapIndices(documents, indices[1..]);
      assert forall j :: 1 <= j < |indices| ==> indices[j] == indices[1..][j - 1];
      if rest.Err? then rest
      else Ok([documents[Position(|documents|, indices[0])]] + rest.value)
  }

  /** With indices in `[0, |documents|)` the result is `documents[indices[j]]`
      at every j: order is kept and every result is one of the documents. */
  lemma MapIndicesInRange(documents: seq<string>, indices: seq<int>)
    requires forall j :: 0 <= j < |indices| ==> 0 <= indices[j] < |documents|
    ensures MapIndices(documents, indices).Ok?
    ensures var r := MapIndices(documents, indices).value;
      && |r| == |indices|
      && (forall j :: 0 <= j < |indices| ==> r[j] == documents[indices[j]])
      && (forall j :: 0 <= j < |r| ==> r[j] in documents)
  {
  }

  /* ---------------------------------------------------------------------
     External collaborators
     --------------------------------------------------------------------- */

  /** The `openai` module's global settings, of which `_setup` writes the key. */
  class ProviderSettings {
    var apiKey: string

    constructor()
      ensures apiKey == []
    {
      apiKey := [];
    }
  }

  /** An `openai.OpenAI` client: bound to a key, answering embedding
      requests with `service`, and keeping the list of requests sent. */
  class EmbeddingsClient {
    const apiKey: string
    const service: (seq<string>, string) -> seq<Embedding>
    var requests: seq<EmbeddingRequest>

    constructor(apiKey: string, service: (seq<string>, string) -> seq<Embedding>)
      ensures this.apiKey == apiKey && this.service == service && requests == []
    {
      this.apiKey := apiKey;
      this.service := service;
      requests := [];
    }

    /** `client.embeddings.create(input=input, model=model).data`. */
    method Create(input: seq<string>, model: string) returns (data: seq<Embedding>)
      modifies this
      ensures requests == old(requests) + [EmbeddingRequest(input, model)]
      ensures data == service(input, model)
    {
      requests := requests + [EmbeddingRequest(input, model)];
      data := service(input, model);
    }
  }

  /** The vector database: it stores the matrices it is given and answers
      searches with `rank`, whose ordering is its own business. */
  class VectorDb {
    const rank: (seq<Matrix>, Matrix, int) -> Neighbours
    var stored: seq<Matrix>
    var calls: seq<DbCall>

    constructor(rank: (seq<Matrix>, Matrix, int) -> Neighbours)
      ensures this.rank == rank && stored == [] && calls == []
    {
      this.rank := rank;
      stored := [];
      calls := [];
    }

    /** `db.embed(vectors)`. */
    method Embed(vectors: Matrix)
      modifies this
      ensures stored == old(stored) + [vectors]
      ensures calls == old(calls) + [EmbedCall(vectors)]
    {
      stored := stored + [vectors];
      calls := calls + [EmbedCall(vectors)];
    }

    /** `db.search(query, top_k=topK)`. */
    method Search(query: Matrix, topK: int) returns (result: Neighbours)
      modifies this
      ensures stored == old(stored)
      ensures calls == old(calls) + [SearchCall(query, topK)]
      ensures result == rank(stored, query, topK)
    {
      calls := calls + [SearchCall(query, topK)];
      result := rank(stored, query, topK);
    }
  }

  /* ---------------------------------------------------------------------
     The adapter object
     --------------------------------------------------------------------- */

  class OpenAIAug {
    /** An empty string stands for both None and ''. */
    var apiKey: string
    var modelName: string
    /** The instance `top_k`; 0 stands for both None and 0. */
    var topK: int
    var logs: map<string, LogValue>
    var client: EmbeddingsClient?
    var db: VectorDb?

    /** The configuration the base class stores before `_setup` runs. */
    constructor(apiKey: string, modelName: string, topK: int, db: VectorDb?)
      ensures this.apiKey == apiKey && this.modelName == modelName
      ensures this.topK == topK && this.db == db
      ensures logs == map[] && client == null
    {
      this.apiKey := apiKey;
      this.modelName := modelName;
      this.topK := topK;
      this.db := db;
      logs := map[];
      client := null;
    }

    /** `_setup`: without an API key nothing is touched and a ValueError is
        raised; otherwise the global key is set, the model name defaults to
        `text-embedding-3-small`, and a client bound to the key is created. */
    method Setup(settings: ProviderSettings, service: (seq<string>, string) -> seq<Embedding>)
      returns (r: Outcome)
      modifies this`modelName, this`client, settings
      ensures apiKey == [] ==> r == Fail(MissingApiKey)
      ensures apiKey == [] ==> modelName == old(modelName) && client == old(client)
      ensures apiKey == [] ==> settings.apiKey == old(settings.apiKey)
      ensures apiKey != [] ==> r == Pass && settings.apiKey == apiKey
      ensures apiKey != [] ==> modelName == ModelNameOrDefault(old(modelName))
      ensures apiKey != [] ==> client != null && fresh(client) && client.apiKey == apiKey
      ensures apiKey != [] ==> client.service == service && client.requests == []
    {
      if apiKey == [] {
        return Fail(MissingApiKey);
      }
      settings.apiKey := apiKey;
      modelName := ModelNameOrDefault(modelName);
      client := new EmbeddingsClient(apiKey, service);
      r := Pass;
    }

    /** `get_embedding`: one request with the whole batch; the first result
        as a single row. */
    method GetEmbedding(content: seq<string>) returns (r: Result<Matrix>)
      requires client != null
      modifies client
      ensures client.requests == old(client.requests) + [EmbeddingRequest(content, modelName)]
      ensures r == FirstRow(client.service(content, modelName))
    {
      var data := client.Create(content, modelName);
      r := FirstRow(data);
    }

    /** `search`. Without a database it fails before any provider or
        database call. Otherwise it embeds the documents (as one batch, of
        which only the first vector survives) and the query, resolves
        `top_k`, hands the document matrix to the database, searches with
        the query matrix, and maps the returned positions to documents. On
        success exactly the three search log keys are written. */
    method Search(query: string, documents: seq<string>, topKArgument: int)
      returns (r: Result<seq<string>>)
      requires client != null
      modifies this`logs, client, db
      ensures db == null ==> r == Err(DbNotInitialized) && logs == old(logs)
      ensures db == null ==> client.requests == old(client.requests)
      ensures db != null ==>
        var documentsEncoded := FirstRow(client.service(documents, modelName));
        var queryEncoded := FirstRow(client.service([query], modelName));
        var documentRequest := [EmbeddingRequest(documents, modelName)];
        var queryRequest := [EmbeddingRequest([query], modelName)];
        if documentsEncoded.Err? then
          && r == Err(documentsEncoded.error)
          && client.requests == old(client.requests) + documentRequest
          && db.stored == old(db.stored) && db.calls == old(db.calls)
          && logs == old(logs)
        else if queryEncoded.Err? then
          && r == Err(queryEncoded.error)
          && client.requests == old(client.requests) + documentRequest + queryRequest
          && db.stored == old(db.stored) && db.calls == old(db.calls)
          && logs == old(logs)
        else
          var k := ResolveTopK(topKArgument, topK);
          var found := db.rank(old(db.stored) + [documentsEncoded.value], queryEncoded.value, k);
          && client.requests == old(client.requests) + documentRequest + queryRequest
          && db.stored == old(db.stored) + [documentsEncoded.value]
          && db.calls == old(db.calls) + [EmbedCall(documentsEncoded.value), SearchCall(queryEncoded.value, k)]
          && r == MapIndices(documents, found.indices)
          && logs == if r.Err? then old(logs)
                     else old(logs)[IndicesKey := IndicesLog(found.indices)]
                                   [ScoresKey := ScoresLog(found.scores)]
                                   [SearchParamsKey := SearchParamsLog(queryEncoded.value, k)]
    {
      if db == null {
        return Err(DbNotInitialized);
      }
      var documentsEncoded := GetEmbedding(documents);
      if documentsEncoded.Err? {
        return Err(documentsEncoded.error);
      }
      var queryEncoded := GetEmbedding([query]);
      if queryEncoded.Err? {
        return Err(queryEncoded.error);
      }
      var k := ResolveTopK(topKArgument, topK);
      db.Embed(documentsEncoded.value);
      var found := db.Search(queryEncoded.value, k);
      r := MapIndices(documents, found.indices);
      if r.Err? {
        return;
      }
      logs := logs[IndicesKey := IndicesLog(found.indices)]
                  [ScoresKey := ScoresLog(found.scores)]
                  [SearchParamsKey := SearchParamsLog(queryEncoded.value, k)];
    }
  }

  /** After a successful search the log differs from the old one only at
      the three search keys. */
  lemma SearchLogKeys(old_logs: map<string, LogValue>, indices: seq<int>, scores: seq<Float>,
                      queryEncoded: Matrix, k: int)
    ensures var logs := old_logs[IndicesKey := IndicesLog(indices)]
                                [ScoresKey := ScoresLog(scores)]
                                [SearchParamsKey := SearchParamsLog(queryEncoded, k)];
      && logs.Keys == old_logs.Keys + {IndicesKey, ScoresKey, SearchParamsKey}
      && logs[IndicesKey] == IndicesLog(indices)
      && logs[ScoresKey] == ScoresLog(scores)
      && logs[SearchParamsKey] == SearchParamsLog(queryEncoded, k)
      && forall key :: key in old_logs && key !in {IndicesKey, ScoresKey, SearchParamsKey} ==>
           logs[key] == old_logs[key]
  {
  }
}
