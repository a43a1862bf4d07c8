# Meeting-recording ingestion and query scripts, modelled in Dafny

The repository embeds the summaries of recorded meetings with a sentence
embedding model, stores them as points in a Qdrant collection, and answers
free-text questions by retrieving the nearest recordings and passing them to
the Anthropic messages API. Almost all of it is glue around those three
services. This project models the logic that sits inside the glue:

- **Record identity** (`Insert.Base64ToUuid`): the recording's `uuid` token is
  stripped of trailing `=`, re-padded, decoded with the URL-safe alphabet of
  section 5 of RFC 4648, and its first 16 bytes are written as a canonical
  UUID (section 3 of RFC 4122). Every failure falls back to a random
  version-4 UUID (section 4.4 of RFC 4122). The decoder (`Base64Url`) follows
  the non-strict decoder behind Python's `urlsafe_b64decode`. The UUID text
  form (`Uuid`) comes with its inverse.
- **Bounded retry** (`Insert.InsertWithRetry`): the upsert outcomes are an
  input, and the sleeps are recorded as a list of delays. A negative delay
  makes `time.sleep` raise, which ends the retry.
- **Record-to-point building** (`Insert.SummaryText`, `Insert.BuildPoint`,
  `Insert.BuildPoints`, `Insert.InsertDataToQdrant`): the text fallback chain,
  one point per recording in order, one guarded batched upsert, and the
  catch-all handler.
- **Configuration parsing** (`Query.ParseLine`, `Query.LoadConfig`): the
  `KEY=value` lines of `.env.local`.
- **Search-hit formatting** (`Retrieval`): the per-hit records of the four
  query scripts, their defaults, and the search limit.
- **Answer handling** (`Query.FirstText`, `Query.Normalize`,
  `Query.GetAnthropicResponse`): the reply text of the summarising script,
  flattened onto one line.
- **API-key extraction** (`KeyExtraction`): Python's `re.search` for
  `anthropicApiKey:\s*['"](.+?)['"]`. It is written as a step-by-step matcher
  and proved equal to a declarative description of a match.
- **Command-line runs** (`Query.RunCli`, `MeetingAssistant.RunCli`): which
  external calls happen, in which order, and how the run ends.

The sentiment, search and recommendation scripts
(`vector/query_sentiment.py`, `vector/query_search.py`,
`vector/query_reccomend.py`) have identical key extraction, search and
formatting code. They differ only in prompt text and printed headings, which
the model does not represent. So one module, `MeetingAssistant`, stands for
all three. Each row below cites one of the three files; the same lines exist
in the other two.

The external services are parameters:

- the embedding model is a function `string -> seq<real>`;
- the vector store's ranking is a function from a query vector to a list of
  hits, cut to the search limit by `Retrieval.TopK`;
- the upsert is a function from attempt number to success;
- the generator is a function from the query and the records to the reply
  content;
- the random bytes of `uuid.uuid4()` are a function from the recording's
  index to 16 bytes;
- the library's handling of tokens with characters outside the base64url
  alphabet is a function from the token to an optional byte string.

Three behaviours of the code are easy to misread:

- A dictionary summary whose `summary_overview` is empty yields the
  placeholder text, not the topic (vector/insert.py:107-112).
- The retry makes at most three attempts and sleeps 1 s and then 2 s. There
  is no sleep after the last failure (vector/insert.py:93-99).
- A single recording that lacks `uuid`, `topic`, `start_time` or `duration`
  aborts the whole file: nothing from that file is upserted
  (vector/insert.py:116-129, 148-149).

## Model

| member | source | states |
|---|---|---|
| Insert.Base64ToUuid | vector/insert.py:74-84 | never fails: every token, including a non-string one, yields a well-formed 36-character 8-4-4-4-12 lowercase-hex UUID |
| Insert.IdentityOfSymbolToken | vector/insert.py:77-84 | for a token of base64url symbols, the id is the UUID of the first 16 decoded bytes exactly when the stripped length is at least 22 and not 1 more than a multiple of 4; otherwise it is the random fallback |
| Insert.TrailingPaddingIrrelevant | vector/insert.py:77-78 | appending any number of `=` to a token does not change its id |
| Insert.EncodedTokenIdentity | vector/insert.py:77-81 | the base64url encoding of at least 16 bytes, with any padding, resolves to the UUID of its first 16 bytes; later bytes are ignored |
| Insert.PaddedTokenIdentity | vector/insert.py:77-81 | the padded encoding of 16 bytes resolves to the UUID of those bytes |
| Insert.RepadDecodes | vector/insert.py:77-78 | after the doubled re-padding, decoding a symbol token fails only for a length 1 more than a multiple of 4, and otherwise gives the decoded symbols |
| Insert.RepadEnough | vector/insert.py:77-78 | the re-padded token strips back to the token and carries at least the padding its last group needs |
| Insert.RepadStrips | vector/insert.py:77-78 | stripping the `=` of the re-padded token gives the token back, and exactly `2 * (-len % 4)` were added |
| Insert.PadCountSuffices | vector/insert.py:78 | `2 * (-len % 4)` `=` characters are at least the `4 - len % 4` the last group needs |
| Insert.DecodedLengthAtLeast16 | vector/insert.py:78-81 | a valid symbol count decodes to at least 16 bytes exactly when it is at least 22 |
| Base64Url.DecodePadded | vector/insert.py:78 | for symbols followed by `=`: an error for a symbol count 1 more than a multiple of 4 or a last group of 2 or 3 symbols without 2 or 1 `=` after it; otherwise the decoded symbols, `DecodedLength` bytes long, with surplus `=` ignored |
| Base64Url.DecodeWithEnoughPadding | vector/insert.py:78 | with enough padding, decoding fails only for a symbol count 1 more than a multiple of 4 |
| Base64Url.DecodeSymbols | vector/insert.py:78 | four symbols give three bytes and a final group of 2 or 3 symbols gives 1 or 2 bytes |
| Base64Url.Encode | vector/insert.py:78 | reference encoder: its output is base64url symbols of the expected length |
| Base64Url.SymbolOf | vector/insert.py:78 | every 6-bit value has a symbol, and decoding the symbol gives the value back |
| Base64Url.DecodeEncode | vector/insert.py:78 | decoding undoes encoding, for every byte string |
| Base64Url.DecodeGroupThen | vector/insert.py:78 | a full group followed by more symbols decodes group by group |
| Base64Url.DecodeSplit | vector/insert.py:78 | decoding a four-symbol group followed by more symbols is the concatenation of both decodings |
| Base64Url.EncodedLengthNotOneModFour | vector/insert.py:78 | the encoder never produces a symbol count 1 more than a multiple of 4, which is the count the decoder rejects |
| Uuid.Render | vector/insert.py:81 | `str(uuid.UUID(bytes=b))` is a canonical 8-4-4-4-12 lowercase-hex string |
| Uuid.Hex | vector/insert.py:81 | two lowercase hex digits per byte |
| Uuid.ParseRender | vector/insert.py:81 | parsing the rendering gives the 16 bytes back, so distinct bytes give distinct ids |
| Uuid.RenderParse | vector/insert.py:81 | every canonical string is the rendering of exactly one 16-byte value |
| Uuid.UnhexHex | vector/insert.py:81 | reading back the hex digits of a byte string gives the bytes |
| Uuid.HexUnhex | vector/insert.py:81 | writing out the bytes read from hex digits gives the digits |
| Uuid.AsVersion4 | vector/insert.py:84 | the version nibble of byte 6 becomes 4 and the top two bits of byte 8 become `10`; all other bits stay random |
| Uuid.Version4Shape | vector/insert.py:84 | a random version-4 id reads `4` at position 14 and one of `8 9 a b` at position 19 |
| Strings.RStrip | vector/insert.py:77 | `rstrip` keeps a prefix, removes only removable characters, and leaves none at the end |
| Strings.RStripAppend | vector/insert.py:77 | removable characters appended at the end are all removed again |
| Strings.Repeat | vector/insert.py:78 | `c * n` is n copies of c |
| Insert.Backoff | vector/insert.py:93-96 | the delay before retry k is `initial_delay * 2^k` |
| Insert.BackoffDoubles | vector/insert.py:94 | each delay is twice the one before it |
| Insert.InsertWithRetry | vector/insert.py:86-99 | at most `max_retries` attempts; True right after the first success, with no further attempt; False after `max_retries` failures, with no sleep after the last; None when `max_retries <= 0`; the delays are the backoff schedule; a negative `initial_delay` raises at the first sleep, after one failed attempt |
| Insert.DefaultBackoff | vector/insert.py:86-96 | with the defaults (3 attempts, 1 s) the delays are 1 s and then 2 s |
| Insert.SummaryText | vector/insert.py:105-112 | the embedded text is never empty or falsy |
| Insert.SummaryTextCases | vector/insert.py:105-112 | a non-empty overview of a dictionary summary is used; an empty one gives the placeholder, not the topic; a missing overview or a non-dictionary summary gives the topic, or the placeholder when the topic is empty |
| Insert.SummaryTextExamples | vector/insert.py:106-112 | an empty overview gives the placeholder despite a topic; no summary gives the topic; an empty recording gives the placeholder |
| Insert.BuildPoint | vector/insert.py:105-134 | a recording becomes a point exactly when it is a dictionary with `uuid`, `topic`, `start_time` and `duration` and a string text; the point's id, vector and payload are the resolved id, the embedding of the text, and the four fields, with `{}` for a non-dictionary summary |
| Insert.TopicOnlyRecording | vector/insert.py:104-134 | a recording with only a topic and a padded 16-byte token becomes a point with that id, the embedding of the topic, and an empty summary |
| Insert.BuildPoints | vector/insert.py:103-134 | one point per recording, in input order; the first recording that raises aborts the loop with its error |
| Insert.Recordings | vector/insert.py:104 | a list of recordings yields its items; a missing key yields none; an empty dictionary or string yields none; a non-empty one raises `AttributeError` at the loop's `.get`; any other value is not iterable; a non-dictionary file raises `AttributeError` |
| Insert.InsertDataToQdrant | vector/insert.py:101-149 | never raises; a raising recording means nothing is upserted; no recordings means no upsert; otherwise exactly one batched upsert of all points, in order, with the retry outcome of the defaults: every attempt before the last failed, True exactly when the last one succeeded, False only after three attempts |
| Strings.Strip | vector/query.py:26-27 | no removable character is left at either end |
| Strings.StripIsSlice | vector/query.py:26-27 | what `strip` keeps is a contiguous part of the input, and all it removes is removable |
| Strings.StripIdempotent | vector/query.py:26-27 | stripping twice is stripping once |
| Strings.StripKeeps | vector/query.py:25-26 | a character that is not removable, such as `=`, survives stripping |
| Strings.StripUnchanged | vector/query.py:26-27 | a string with no removable character at either end is not changed |
| Strings.IndexOf | vector/query.py:26 | the position of the first occurrence, or none exactly when the character is absent |
| Strings.IndexOfFirst | vector/query.py:26 | an occurrence with none before it is the one found |
| Query.ParseLine | vector/query.py:25-27 | a line defines a setting exactly when it contains `=`; the key is the stripped line up to its first `=`, and the value is all the rest with leading and trailing `"` removed, so later `=` and inner quotes are kept |
| Query.ParseLineRoundTrip | vector/query.py:25-27 | writing `key=value` and parsing it gives the setting back, for a key without `=` and a value without surrounding quotes or trailing whitespace |
| Query.SettingsKeys | vector/query.py:22-27 | a key is configured exactly when some line defines it |
| Query.SettingsLastWins | vector/query.py:26-27 | the value of a key is the one given by its last defining line |
| Query.SettingsSnoc | vector/query.py:24-27 | one more line updates the configuration by its setting, if it has one |
| Query.ParsedPrefix | vector/query.py:24 | parsing one more line extends the parsed lines by that line's result |
| Query.LoadConfig | vector/query.py:17-29 | the loop builds exactly the configuration the lines define |
| Retrieval.TopK | vector/query.py:51-55 | the search returns a prefix of the store's ranking of at most `limit` hits |
| Retrieval.SummaryRecordOf | vector/query.py:60-66 | the score is copied unchanged; `topic`, `start_time` and `duration` are copied, or `'N/A'` when missing; the summary is the stored overview, or `'N/A'` when the summary or its overview is missing; a non-dictionary summary raises |
| Retrieval.FormatAll | vector/query.py:59-67 | one record per hit, in the same order, or the error of the first hit whose formatting raises |
| Retrieval.FormatHits | vector/query.py:58-69 | the loop builds exactly the records `FormatAll` describes |
| Retrieval.FormatAllPrefixError | vector/query.py:59-67 | once a prefix of the hits fails, the whole list fails with the same error |
| Retrieval.FormattedWithinLimit | vector/query.py:51-69 | the formatted list never has more records than the search limit |
| Query.QueryVectorDb | vector/query.py:48-73 | the formatted records of the top five hits for the query's embedding, so at most five |
| Query.FirstText | vector/query.py:97-101 | list content gives the first block's text, or `""` when empty; other content is used as it is; a first block without text raises |
| Query.Normalize | vector/query.py:104 | the answer contains no newline and has no whitespace at either end |
| Query.NormalizeIdempotent | vector/query.py:104 | normalising twice is normalising once |
| Query.NormalizeKeepsText | vector/query.py:104 | the answer is a contiguous part of the content with newlines read as spaces, and only whitespace is cut off |
| Query.GetAnthropicResponse | vector/query.py:75-104 | without a non-empty `ANTHROPIC_API_KEY` a `ValueError` is raised; otherwise the reply text, normalised |
| Strings.ReplaceChar | vector/query.py:104 | same length; every replaced character becomes the replacement and every other character stays in place, so no newline is left |
| Strings.Join | vector/query.py:111 | the parts in order with one separator between neighbours: the first part starts the result and the length is the parts' total plus one separator per gap |
| Strings.JoinSnoc | vector/query.py:111 | joining one more part appends the separator and that part |
| Query.RunCli | vector/query.py:106-128 | missing Qdrant settings stop the script at load; fewer than 2 argv entries run nothing; otherwise the query is the arguments joined by single spaces, and the run embeds, searches with limit 5, asks the generator only when the key is set, and reports the modelled errors (a hit whose formatting raises, a missing key, a first block without text) |
| KeyExtraction.FindApiKey | vector/query_sentiment.py:16-26 | the key found is non-empty and has no newline; otherwise the `ValueError` with the script's message |
| KeyExtraction.FindApiKeyLeftmost | vector/query_search.py:22-26 | the error happens exactly when the pattern matches nowhere; the key is the group of the leftmost match |
| KeyExtraction.MatchAt | vector/query_search.py:22 | a match found by the step-by-step matcher is a match of the pattern |
| KeyExtraction.MatchAtExactly | vector/query_search.py:22 | the step-by-step matcher finds exactly the matches of the pattern at a position |
| KeyExtraction.MatchAtFinds | vector/query_search.py:22 | every match of the pattern at a position is found |
| KeyExtraction.SearchFrom | vector/query_search.py:22 | the leftmost position at which the pattern matches, or none when it matches nowhere |
| KeyExtraction.SpacesEnd | vector/query_reccomend.py:24 | `\s*` takes the whole whitespace run |
| KeyExtraction.ClosingQuote | vector/query_reccomend.py:24 | the lazy group stops at the first quote, unless a newline comes first |
| KeyExtraction.SpaceRunEndsAtQuote | vector/query_reccomend.py:24 | the whitespace run before an opening quote is the greedy one |
| KeyExtraction.ClosingQuoteAt | vector/query_reccomend.py:24 | a quote with no quote or newline before it is where the group ends |
| KeyExtraction.FindApiKeyPlain | vector/query_reccomend.py:24-26 | `anthropicApiKey: 'sk-1'` gives `sk-1` |
| KeyExtraction.FindApiKeyAfterNewline | vector/query_reccomend.py:24-26 | whitespace including newlines before the quote is skipped, and double quotes work |
| KeyExtraction.AfterNewlineMatch | vector/query_reccomend.py:24 | the match of that example starts after the opening brace |
| KeyExtraction.FindApiKeyUnclosed | vector/query_reccomend.py:24-28 | a key whose closing quote is on the next line is not found |
| Retrieval.ParticipantRecordOf | vector/query_search.py:57-64 | the score is copied; the topic is copied or `'N/A'`; the participants are copied or `[]`; the summary is the stored overview or `'N/A'`; a non-dictionary summary raises |
| MeetingAssistant.QueryVectorDb | vector/query_sentiment.py:45-66 | the formatted records of the top ten hits for the query's embedding, so at most ten |
| MeetingAssistant.Ask | vector/query_sentiment.py:68-119 | retrieval and then generation; the reply is returned unmodified, with no newline normalisation; an empty key raises before the generator is called |
| MeetingAssistant.RunCli | vector/query_reccomend.py:30-98 | a missing key stops the script at load; with no arguments neither retrieval nor generation runs; otherwise the text is the arguments joined by single spaces and the reply is the generator's content |

## Left out

- Collection bootstrap (`ensure_collection_exists`) and all of vector/connect.py: they are only calls to the Qdrant service.
- The environment-variable debug output, the client construction, listing and reading the data files, and `json.load`: these are I/O. JSON numbers are integers: they keep the zero/non-zero distinction the truthiness test at vector/insert.py:111 needs, and a number reaching the embedder at vector/insert.py:114 is treated as an encoding error whatever its value.
- The embedding model, the vector store's nearest-neighbour ranking and its scores, and the generator are external. They are parameters. Scores are carried through unchanged, and the ordering of hits by score is not stated.
- The prompt text, built with `json.dumps`, `repr` and f-strings: the model records only that the generator is asked about the query.
- The collection-info call after ingestion (vector/insert.py:145-146): it is diagnostic I/O. A failure there is caught by the same handler, like every other error.
- The randomness of `uuid.uuid4()`: the random bytes are an input, and only the version-4 shape is stated.
- Tokens containing characters outside the base64url alphabet, or `=` before the end: Python's decoder discards or interprets such characters, and the model leaves their result to a parameter.
- `time.sleep`: the delays are recorded instead of slept. Only its `ValueError` for a negative delay is modelled.
- Failures of the embedding model, of the vector search and of the generator (network errors, API errors) are not modelled: the oracles always answer. In vector/query.py such a failure would be reported as an error (lines 125-128); in the other three scripts it would end the script with an exception.
- Printed messages, headings and exit statuses. The summarising script reports a missing query as a JSON error with exit status 1; the model records only that nothing else runs.
- Insert.BuildPoint: a text that is not a string is treated as an encoding error. The embedding model's batch behaviour for a list is not modelled.
- Lines of the configuration file are given already split. Reading the file is I/O.
- The three near-identical query scripts are one module. Their prompts and headings, the only differences, are not modelled.
