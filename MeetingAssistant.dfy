/** The sentiment, search and recommendation scripts. All three read the
    generator's API key from `config.js` when they load, search the
    `user_recordings` collection for the ten recordings nearest to the text
    given on the command line, and pass the text and those recordings to the
    generator, printing its reply unchanged. They differ only in the prompt
    and in the headings they print, neither of which this model represents, so
    one module stands for all three. */
module MeetingAssistant {
  import opened Common
  import opened Json
  import opened Strings
  import opened Retrieval
  import KeyExtraction

  const Limit: nat := 10

  const KeyNotSetMessage: string := "Anthropic API key not set."

  /** `query_vector_db`: the ten nearest recordings, formatted. */
  method QueryVectorDb(query: string, embed: string -> seq<real>, ranking: seq<real> -> seq<Hit>)
    returns (results: Result<seq<ParticipantRecord>, Error>)
    ensures results == FormatAll(TopK(ranking(embed(query)), Limit), ParticipantRecordOf)
    ensures results.Ok? ==> |results.value| <= Limit
  {
    var hits := TopK(ranking(embed(query)), Limit);
    results := FormatHits(hits, ParticipantRecordOf);
  }

  /** `analyze_sentiment`, `search_meetings`, and the main block of the
      recommendation script: search, then, unless the key is empty, ask the
      generator about the text and the formatted recordings. */
  method Ask(apiKey: string, query: string, embed: string -> seq<real>, ranking: seq<real> -> seq<Hit>,
             generate: (string, seq<ParticipantRecord>) -> Content)
    returns (reply: Result<Content, Error>, calls: seq<Call>)
    ensures var results := FormatAll(TopK(ranking(embed(query)), Limit), ParticipantRecordOf);
      && (results.Err? ==> reply == Err(results.error) && calls == [Embed(query), Search(Limit)])
      && (results.Ok? && apiKey == "" ==>
            reply == Err(ValueError(KeyNotSetMessage)) && calls == [Embed(query), Search(Limit)])
      && (results.Ok? && apiKey != "" ==>
            reply == Ok(generate(query, results.value)) && calls == [Embed(query), Search(Limit), Generate(query)])
  {
    var results := QueryVectorDb(query, embed, ranking);
    calls := [Embed(query), Search(Limit)];
    if results.Err? {
      return Err(results.error), calls;
    }
    if apiKey == "" {
      return Err(ValueError(KeyNotSetMessage)), calls;
    }
    calls := calls + [Generate(query)];
    reply := Ok(generate(query, results.value));
  }

  /** The whole run: reading the key happens when the script loads and its
      failure ends the run; with no text on the command line a message is
      printed; nothing else is caught. */
  method RunCli(configJs: string, argv: seq<string>, embed: string -> seq<real>, ranking: seq<real> -> seq<Hit>,
                generate: (string, seq<ParticipantRecord>) -> Content)
    returns (outcome: Outcome<Content>, calls: seq<Call>)
    ensures KeyExtraction.FindApiKey(configJs).Err? ==>
      outcome == Crashed(KeyExtraction.FindApiKey(configJs).error) && calls == []
    ensures KeyExtraction.FindApiKey(configJs).Ok? && |argv| <= 1 ==> outcome == NoQuery && calls == []
    ensures KeyExtraction.FindApiKey(configJs).Ok? && |argv| > 1 ==>
      var query := Join(argv[1..], " ");
      var results := FormatAll(TopK(ranking(embed(query)), Limit), ParticipantRecordOf);
      && (results.Err? ==> outcome == Crashed(results.error) && calls == [Embed(query), Search(Limit)])
      && (results.Ok? ==>
            outcome == Answered(query, generate(query, results.value))
            && calls == [Embed(query), Search(Limit), Generate(query)])
  {
    var key := KeyExtraction.FindApiKey(configJs);
    calls := [];
    if key.Err? {
      return Crashed(key.error), calls;
    }
    if |argv| <= 1 {
      return NoQuery, calls;
    }
    var query := Join(argv[1..], " ");
    var reply;
    reply, calls := Ask(key.value, query, embed, ranking, generate);
    if reply.Err? {
      return Crashed(reply.error), calls;
    }
    outcome := Answered(query, reply.value);
  }
}
