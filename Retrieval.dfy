/** What the four query scripts share: search hits and their payloads, the
    top-k cut the vector store applies, the formatted records built from the
    hits, the generator's reply, the external calls a run makes, and how a run
    ends. */
module Retrieval {
  import opened Common
  import opened Json

  /** One search hit: a similarity score the store computed (carried through,
      never computed here) and the stored payload. */
  datatype Hit = Hit(score: real, payload: map<string, Json>)

  /** `client.search(..., limit=k)`: the store's ranking of the collection for
      the query vector, of which at most the first k come back. */
  function TopK(ranking: seq<Hit>, limit: nat): (hits: seq<Hit>)
    ensures |hits| <= limit && |hits| <= |ranking| && hits == ranking[..|hits|]
    ensures |hits| == limit || hits == ranking
  {
    if |ranking| <= limit then ranking else ranking[..limit]
  }

  const NotAvailable: Json := JStr("N/A")

  /** `hit.payload.get('summary', {}).get('summary_overview', 'N/A')`; the
      second `.get` raises when the stored summary is not a dictionary. */
  function SummaryOverview(payload: map<string, Json>): Result<Json, Error> {
    match Get(payload, "summary", JObj(map[]))
    case JObj(summary) => Ok(Get(summary, "summary_overview", NotAvailable))
    case _ => Err(AttributeError("get"))
  }

  /** The stored summary, if any, is a dictionary. */
  predicate SummaryReadable(payload: map<string, Json>) {
    "summary" !in payload || payload["summary"].JObj?
  }

  /** The overview a readable payload yields: the stored one, or `'N/A'` when
      either the summary or its overview is missing. */
  predicate OverviewIs(payload: map<string, Json>, overview: Json) {
    if "summary" in payload && payload["summary"].JObj? && "summary_overview" in payload["summary"].fields
    then overview == payload["summary"].fields["summary_overview"]
    else overview == NotAvailable
  }

  /** A field copied from the payload, or the default when the payload lacks it. */
  predicate FieldIs(payload: map<string, Json>, key: string, default: Json, value: Json) {
    if key in payload then value == payload[key] else value == default
  }

  /** The record built per hit by the summarising script. */
  datatype SummaryRecord = SummaryRecord(score: real, topic: Json, startTime: Json, duration: Json, summary: Json)

  /** The record built per hit by the sentiment, search and recommendation scripts. */
  datatype ParticipantRecord = ParticipantRecord(score: real, topic: Json, participants: Json, summary: Json)

  /** One hit as the summarising script formats it. */
  function SummaryRecordOf(hit: Hit): (r: Result<SummaryRecord, Error>)
    ensures r.Ok? <==> SummaryReadable(hit.payload)
    ensures r.Ok? ==> var rec := r.value;
      && rec.score == hit.score
      && FieldIs(hit.payload, "topic", NotAvailable, rec.topic)
      && FieldIs(hit.payload, "start_time", NotAvailable, rec.startTime)
      && FieldIs(hit.payload, "duration", NotAvailable, rec.duration)
      && OverviewIs(hit.payload, rec.summary)
  {
    match SummaryOverview(hit.payload)
    case Err(e) => Err(e)
    case Ok(overview) =>
      Ok(SummaryRecord(hit.score, Get(hit.payload, "topic", NotAvailable), Get(hit.payload, "start_time", NotAvailable),
                       Get(hit.payload, "duration", NotAvailable), overview))
  }

  /** One hit as the sentiment, search and recommendation scripts format it. */
  function ParticipantRecordOf(hit: Hit): (r: Result<ParticipantRecord, Error>)
    ensures r.Ok? <==> SummaryReadable(hit.payload)
    ensures r.Ok? ==> var rec := r.value;
      && rec.score == hit.score
      && FieldIs(hit.payload, "topic", NotAvailable, rec.topic)
      && FieldIs(hit.payload, "participants", JArr([]), rec.participants)
      && OverviewIs(hit.payload, rec.summary)
  {
    match SummaryOverview(hit.payload)
    case Err(e) => Err(e)
    case Ok(overview) =>
      Ok(ParticipantRecord(hit.score, Get(hit.payload, "topic", NotAvailable),
                           Get(hit.payload, "participants", JArr([])), overview))
  }

  /** Formatting a list of hits in order; the first hit whose formatting raises
      decides the error. */
  function FormatAll<R>(hits: seq<Hit>, format: Hit -> Result<R, Error>): (r: Result<seq<R>, Error>)
    ensures r.Ok? <==> forall i :: 0 <= i < |hits| ==> format(hits[i]).Ok?
    ensures r.Ok? ==> |r.value| == |hits| && forall i :: 0 <= i < |hits| ==> format(hits[i]) == Ok(r.value[i])
    ensures r.Err? ==> exists i :: && 0 <= i < |hits| && format(hits[i]) == Err(r.error)
                                   && forall j :: 0 <= j < i ==> format(hits[j]).Ok?
    decreases |hits|
  {
    if hits == [] then Ok([])
    else
      var init := hits[..|hits| - 1];
      assert forall i :: 0 <= i < |init| ==> init[i] == hits[i];
      match FormatAll(init, format)
      case Err(e) => Err(e)
      case Ok(records) =>
        match format(hits[|hits| - 1])
        case Err(e) => Err(e)
        case Ok(record) => Ok(records + [record])
  }

  /** The loop of `query_vector_db` that appends one record per hit. */
  method FormatHits<R>(hits: seq<Hit>, format: Hit -> Result<R, Error>) returns (r: Result<seq<R>, Error>)
    ensures r == FormatAll(hits, format)
  {
    var records: seq<R> := [];
    var i := 0;
    while i < |hits|
      invariant 0 <= i <= |hits|
      invariant FormatAll(hits[..i], format) == Ok(records)
    {
      assert hits[..i + 1][..i] == hits[..i];
      match format(hits[i])
      case Err(e) =>
        assert FormatAll(hits[..i + 1], format) == Err(e);
        FormatAllPrefixError(hits, format, i + 1);
        return Err(e);
      case Ok(record) =>
        records := records + [record];
      i := i + 1;
    }
    assert hits[..i] == hits;
    r := Ok(records);
  }

  /** Once a prefix fails, the whole list fails with the same error. */
  lemma {:induction false} FormatAllPrefixError<R>(hits: seq<Hit>, format: Hit -> Result<R, Error>, n: nat)
    requires n <= |hits| && FormatAll(hits[..n], format).Err?
    ensures FormatAll(hits, format) == FormatAll(hits[..n], format)
    decreases |hits| - n
  {
    if n < |hits| {
      assert hits[..n + 1][..n] == hits[..n];
      FormatAllPrefixError(hits, format, n + 1);
    } else {
      assert hits[..n] == hits;
    }
  }

  /** A formatted search result never has more records than the search limit. */
  lemma FormattedWithinLimit<R>(ranking: seq<Hit>, limit: nat, format: Hit -> Result<R, Error>)
    ensures var r := FormatAll(TopK(ranking, limit), format);
      r.Ok? ==> |r.value| <= limit
  {
  }

  /** A content block of the generator's reply. */
  datatype Block = TextBlock(text: string) | OtherBlock

  /** `message.content`: a list of blocks, or plain text. */
  datatype Content = Blocks(blocks: seq<Block>) | Plain(text: string)

  /** An external call a run makes, in order: embedding the query, searching the
      store with a limit, and asking the generator (whose prompt carries the query). */
  datatype Call = Embed(text: string) | Search(limit: nat) | Generate(query: string)

  /** How a command-line run ends. */
  datatype Outcome<T> =
    | Crashed(error: Error)              // an exception escaped: traceback and non-zero exit status
    | Reported(error: Error)             // caught and printed as a JSON error object, exit status 1
    | NoQuery                            // no query given: a message is printed and nothing else runs
    | Answered(query: string, answer: T) // the answer is printed
}
