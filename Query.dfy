/** The summarising query script: it reads `QDRANT_URL`, `QDRANT_API_KEY`
    and `ANTHROPIC_API_KEY` from the `KEY=value` lines of `.env.local`,
    searches the `zommers` collection for the five recordings nearest to the
    query, asks the generator for an answer and prints it on one line. */
module Query {
  import opened Common
  import opened Json
  import opened Strings
  import opened Retrieval

  /** One setting read from a line of the configuration file. */
  datatype Entry = Entry(key: string, value: string)

  predicate IsDoubleQuote(c: char) {
    c == '"'
  }

  /** A line with an `=` defines a setting: after stripping the line's
      whitespace, the key is everything before the first `=` and the value is
      the rest with surrounding double quotes stripped. A line without `=` is
      skipped. */
  function ParseLine(line: string): (r: Option<Entry>)
    ensures r.None? <==> '=' !in line
    ensures r.Some? ==> var t := Strip(line, IsSpace); var key := r.value.key;
      && |key| < |t| && t[..|key|] == key && t[|key|] == '=' && '=' !in key
      && r.value.value == Strip(t[|key| + 1..], IsDoubleQuote)
  {
    if '=' !in line then None
    else
      var t := Strip(line, IsSpace);
      StripKeeps(line, IsSpace, '=');
      match IndexOf(t, '=')
      case Some(i) => Some(Entry(t[..i], Strip(t[i + 1..], IsDoubleQuote)))
  }

  /** What each line of the file yields. */
  function Parsed(lines: seq<string>): seq<Option<Entry>> {
    seq(|lines|, i requires 0 <= i < |lines| => ParseLine(lines[i]))
  }

  /** The parsed line defines a setting under `key`. */
  predicate Defines(entry: Option<Entry>, key: string) {
    entry.Some? && entry.value.key == key
  }

  /** The settings the parsed lines define, each definition overriding earlier
      ones. */
  function Settings(entries: seq<Option<Entry>>): map<string, string>
    decreases |entries|
  {
    if entries == [] then map[]
    else
      var config := Settings(entries[..|entries| - 1]);
      match entries[|entries| - 1]
      case None => config
      case Some(entry) => config[entry.key := entry.value]
  }

  /** The configuration `load_config` returns for the file's lines. */
  function ConfigOf(lines: seq<string>): map<string, string> {
    Settings(Parsed(lines))
  }

  /** A key is configured exactly when some line defines it. */
  lemma {:induction false} SettingsKeys(entries: seq<Option<Entry>>, key: string)
    ensures key in Settings(entries) <==> exists i :: 0 <= i < |entries| && Defines(entries[i], key)
    decreases |entries|
  {
    if entries != [] {
      var init := entries[..|entries| - 1];
      SettingsKeys(init, key);
      assert forall i :: 0 <= i < |init| ==> init[i] == entries[i];
      if key in Settings(entries) && key !in Settings(init) {
        assert Defines(entries[|entries| - 1], key);
      }
    }
  }

  /** The value of a key is the one its last defining line gives. */
  lemma {:induction false} SettingsLastWins(entries: seq<Option<Entry>>, i: nat, key: string)
    requires i < |entries| && Defines(entries[i], key)
    requires forall j :: i < j < |entries| ==> !Defines(entries[j], key)
    ensures key in Settings(entries) && Settings(entries)[key] == entries[i].value.value
    decreases |entries|
  {
    var init := entries[..|entries| - 1];
    if i < |entries| - 1 {
      assert forall j :: i < j < |init| ==> init[j] == entries[j];
      SettingsLastWins(init, i, key);
    }
  }

  /** Parsing one more line extends the parsed prefix by its entry. */
  lemma ParsedPrefix(lines: seq<string>, n: nat)
    requires n < |lines|
    ensures Parsed(lines[..n + 1]) == Parsed(lines[..n]) + [ParseLine(lines[n])]
  {
    var longer, shorter := lines[..n + 1], lines[..n];
    forall i | 0 <= i < n + 1
      ensures Parsed(longer)[i] == (Parsed(shorter) + [ParseLine(lines[n])])[i]
    {
      if i < n {
        assert longer[i] == shorter[i];
      } else {
        assert longer[i] == lines[n];
      }
    }
  }

  /** One more parsed line updates the settings by its entry, if it has one. */
  lemma SettingsSnoc(entries: seq<Option<Entry>>, entry: Option<Entry>)
    ensures Settings(entries + [entry])
         == if entry.Some? then Settings(entries)[entry.value.key := entry.value.value] else Settings(entries)
  {
    assert (entries + [entry])[..|entries|] == entries;
  }

  /** `load_config`: the loop over the lines of `.env.local`. */
  method LoadConfig(lines: seq<string>) returns (config: map<string, string>)
    ensures config == ConfigOf(lines)
  {
    config := map[];
    for n := 0 to |lines|
      invariant config == Settings(Parsed(lines[..n]))
    {
      ParsedPrefix(lines, n);
      SettingsSnoc(Parsed(lines[..n]), ParseLine(lines[n]));
      if '=' in lines[n] {
        var entry := ParseLine(lines[n]).value;
        config := config[entry.key := entry.value];
      }
    }
    assert lines[..|lines|] == lines;
  }

  /** Writing a setting as `key=value` and reading the line back gives the
      setting, when the key has no `=` and does not start with whitespace, and
      the value neither starts nor ends with a double quote nor ends with
      whitespace. */
  lemma ParseLineRoundTrip(key: string, value: string)
    requires key != [] && '=' !in key && !IsSpace(key[0])
    requires value != [] ==> !IsDoubleQuote(value[0]) && !IsDoubleQuote(value[|value| - 1]) && !IsSpace(value[|value| - 1])
    ensures ParseLine(key + "=" + value) == Some(Entry(key, value))
  {
    var line := key + "=" + value;
    assert line[|key|] == '=' && line[..|key|] == key && line[|key| + 1..] == value;
    StripUnchanged(line, IsSpace);
    IndexOfFirst(line, '=', |key|);
    StripUnchanged(value, IsDoubleQuote);
  }

  /** `config.get(key)` is a non-empty string. */
  predicate HasSetting(config: map<string, string>, key: string) {
    key in config && config[key] != ""
  }

  const QdrantNotSetMessage: string := "QDRANT_URL or QDRANT_API_KEY environment variables are not set"
  const KeyNotSetMessage: string := "Anthropic API key not set in config."
  const Limit: nat := 5

  /** `query_vector_db`: the five nearest recordings, formatted. */
  method QueryVectorDb(query: string, embed: string -> seq<real>, ranking: seq<real> -> seq<Hit>)
    returns (results: Result<seq<SummaryRecord>, Error>)
    ensures results == FormatAll(TopK(ranking(embed(query)), Limit), SummaryRecordOf)
    ensures results.Ok? ==> |results.value| <= Limit
  {
    var hits := TopK(ranking(embed(query)), Limit);
    results := FormatHits(hits, SummaryRecordOf);
  }

  /** The text of the reply: the first block's text, the empty string for no
      blocks, or the content itself when it is not a list. */
  function FirstText(content: Content): (r: Result<string, Error>)
    ensures r.Err? <==> content.Blocks? && content.blocks != [] && content.blocks[0].OtherBlock?
    ensures r.Ok? && content.Plain? ==> r.value == content.text
    ensures r.Ok? && content.Blocks? ==> r.value == if content.blocks == [] then "" else content.blocks[0].text
  {
    match content
    case Plain(text) => Ok(text)
    case Blocks(blocks) =>
      if blocks == [] then Ok("")
      else match blocks[0]
        case TextBlock(text) => Ok(text)
        case OtherBlock => Err(AttributeError("text"))
  }

  /** `content.replace('\n', ' ').strip()`: the answer is one line with no
      surrounding whitespace. */
  function Normalize(content: string): (answer: string)
    ensures '\n' !in answer
    ensures answer == [] || (!IsSpace(answer[0]) && !IsSpace(answer[|answer| - 1]))
  {
    var flat := ReplaceChar(content, '\n', ' ');
    StripDrops(flat, IsSpace, '\n');
    Strip(flat, IsSpace)
  }

  /** Normalizing an answer again changes nothing. */
  lemma {:induction false} NormalizeIdempotent(content: string)
    ensures Normalize(Normalize(content)) == Normalize(content)
  {
    var answer := Normalize(content);
    assert ReplaceChar(answer, '\n', ' ') == answer;
    assert LStrip(answer, IsSpace) == answer;
    assert RStrip(answer, IsSpace) == answer;
  }

  /** Normalizing removes no character except newlines and whitespace at the
      ends: the answer is a contiguous part of the content with its newlines
      read as spaces, and all that is cut off is whitespace. */
  lemma NormalizeKeepsText(content: string)
    ensures var flat := ReplaceChar(content, '\n', ' ');
      TrimmedAt(flat, Normalize(content), |flat| - |LStrip(flat, IsSpace)|, IsSpace)
  {
    NormalizeIsStrip(content);
    StripIsSlice(ReplaceChar(content, '\n', ' '), IsSpace);
  }

  lemma NormalizeIsStrip(content: string)
    ensures Normalize(content) == Strip(ReplaceChar(content, '\n', ' '), IsSpace)
  {
  }

  /** `get_anthropic_response`: without an API key nothing is asked; otherwise
      the generator's reply is normalized. */
  function GetAnthropicResponse(config: map<string, string>, query: string, results: seq<SummaryRecord>,
                                generate: (string, seq<SummaryRecord>) -> Content): (r: Result<string, Error>)
    ensures !HasSetting(config, "ANTHROPIC_API_KEY") ==> r == Err(ValueError(KeyNotSetMessage))
    ensures HasSetting(config, "ANTHROPIC_API_KEY") ==>
      && (r.Ok? <==> FirstText(generate(query, results)).Ok?)
      && (r.Ok? ==> '\n' !in r.value && r.value == Normalize(FirstText(generate(query, results)).value))
  {
    if !HasSetting(config, "ANTHROPIC_API_KEY") then Err(ValueError(KeyNotSetMessage))
    else
      match FirstText(generate(query, results))
      case Ok(text) => Ok(Normalize(text))
      case Err(e) => Err(e)
  }

  /** The whole run: the settings are checked when the script loads, before its
      arguments; a missing query prints the usage error; everything after that
      is caught and printed as an error object. `embed`, `ranking` and
      `generate` stand for the embedding model, the vector store's ranking and
      the generator. */
  method RunCli(configLines: seq<string>, argv: seq<string>, embed: string -> seq<real>,
                ranking: seq<real> -> seq<Hit>, generate: (string, seq<SummaryRecord>) -> Content)
    returns (outcome: Outcome<string>, calls: seq<Call>)
    ensures var config := ConfigOf(configLines);
      !(HasSetting(config, "QDRANT_URL") && HasSetting(config, "QDRANT_API_KEY")) ==>
        outcome == Crashed(ValueError(QdrantNotSetMessage)) && calls == []
    ensures var config := ConfigOf(configLines);
      HasSetting(config, "QDRANT_URL") && HasSetting(config, "QDRANT_API_KEY") && |argv| < 2 ==>
        outcome == NoQuery && calls == []
    ensures var config := ConfigOf(configLines);
      HasSetting(config, "QDRANT_URL") && HasSetting(config, "QDRANT_API_KEY") && |argv| >= 2 ==>
        var query := Join(argv[1..], " ");
        var results := FormatAll(TopK(ranking(embed(query)), Limit), SummaryRecordOf);
        && (results.Err? ==> outcome == Reported(results.error) && calls == [Embed(query), Search(Limit)])
        && (results.Ok? ==>
              var answer := GetAnthropicResponse(config, query, results.value, generate);
              && (answer.Ok? ==> outcome == Answered(query, answer.value))
              && (answer.Err? ==> outcome == Reported(answer.error))
              && calls == [Embed(query), Search(Limit)]
                          + (if HasSetting(config, "ANTHROPIC_API_KEY") then [Generate(query)] else []))
  {
    var config := LoadConfig(configLines);
    calls := [];
    if !HasSetting(config, "QDRANT_URL") || !HasSetting(config, "QDRANT_API_KEY") {
      return Crashed(ValueError(QdrantNotSetMessage)), calls;
    }
    if |argv| < 2 {
      return NoQuery, calls;
    }
    var query := Join(argv[1..], " ");
    var results := QueryVectorDb(query, embed, ranking);
    calls := [Embed(query), Search(Limit)];
    if results.Err? {
      return Reported(results.error), calls;
    }
    if HasSetting(config, "ANTHROPIC_API_KEY") {
      calls := calls + [Generate(query)];
    }
    var answer := GetAnthropicResponse(config, query, results.value, generate);
    if answer.Err? {
      return Reported(answer.error), calls;
    }
    outcome := Answered(query, answer.value);
  }
}
