/** The ingestion script: record identity, bounded retry with exponential
    backoff around the batched upsert, and the record-to-point conversion. */
module Insert {
  import opened Common
  import opened Json
  import Strings
  import Base64Url
  import Uuid

  // ---------------------------------------------------------------------------
  // Record identity

  /** The re-padding of the stripped token: `'==' * (-len(s) % 4)`, i.e. two `=`
      for every one a correct padding would need. Python's `%` with a positive
      divisor is never negative, like Dafny's. */
  function Repad(stripped: string): string {
    stripped + Strings.Repeat('=', 2 * ((-|stripped|) % 4))
  }

  /** The fallback identity: `str(uuid.uuid4())` for the generator's 16 bytes. */
  function FreshId(random: Uuid.Bytes16): string {
    Uuid.Render(Uuid.AsVersion4(random))
  }

  /** `base64_to_uuid(token)`. Trailing `=` are stripped and the token re-padded
      and decoded; the first 16 decoded bytes give the id. Every failure (a
      token that is not a string, a decode error, fewer than 16 bytes) falls
      back to a random version-4 id; nothing is raised. */
  function Base64ToUuid(token: Json, other: string -> Option<seq<Byte>>, random: Uuid.Bytes16): (id: string)
    ensures Uuid.WellFormed(id)
  {
    if !token.JStr? then FreshId(random)
    else
      var stripped := Strings.RStrip(token.s, Base64Url.IsPad);
      var decoded := Base64Url.DecodePadded(Repad(stripped), other);
      if decoded.Some? && |decoded.value| >= 16 then Uuid.Render(decoded.value[..16])
      else FreshId(random)
  }

  /** The doubled re-padding is always enough: on a token made of alphabet
      symbols, decoding fails only for a length one more than a multiple of four. */
  lemma RepadDecodes(stripped: string, other: string -> Option<seq<Byte>>)
    requires Base64Url.AllSymbols(stripped)
    ensures Base64Url.DecodePadded(Repad(stripped), other)
         == if |stripped| % 4 == 1 then None else Some(Base64Url.DecodeSymbols(stripped))
  {
    RepadEnough(stripped);
    Base64Url.DecodeWithEnoughPadding(Repad(stripped), stripped, other);
  }

  /** The re-padded token strips back to the token and carries at least the
      padding its last group needs. */
  lemma RepadEnough(stripped: string)
    requires Base64Url.AllSymbols(stripped)
    ensures Strings.RStrip(Repad(stripped), Base64Url.IsPad) == stripped
    ensures |stripped| % 4 >= 2 ==> |Repad(stripped)| - |stripped| >= 4 - |stripped| % 4
  {
    RepadStrips(stripped);
    PadCountSuffices(|stripped|);
  }

  /** Stripping the `=` of the re-padded token gives the token back, and the
      number of `=` stripped is the number added. */
  lemma RepadStrips(stripped: string)
    requires Base64Url.AllSymbols(stripped)
    ensures Strings.RStrip(Repad(stripped), Base64Url.IsPad) == stripped
    ensures |Repad(stripped)| - |stripped| == 2 * ((-|stripped|) % 4)
  {
    var pads := Strings.Repeat('=', 2 * ((-|stripped|) % 4));
    Strings.RStripAppend(stripped, pads, Base64Url.IsPad);
    assert stripped != [] ==> !Base64Url.IsPad(stripped[|stripped| - 1]);
  }

  /** Twice the needed padding is at least the needed padding. */
  lemma PadCountSuffices(len: int)
    requires len >= 0
    ensures len % 4 >= 2 ==> 2 * ((-len) % 4) >= 4 - len % 4
  {
    var q := len % 4;
    assert -len == -(len / 4) * 4 - q;
    if q == 2 {
      assert (-len) % 4 == 2;
    } else if q == 3 {
      assert (-len) % 4 == 1;
    }
  }

  /** Byte counts of at least 16 come exactly from symbol counts of at least 22. */
  lemma DecodedLengthAtLeast16(n: nat)
    requires n % 4 != 1
    ensures Base64Url.DecodedLength(n) >= 16 <==> n >= 22
  {
    if n >= 22 {
      assert n / 4 >= 5;
      assert n / 4 == 5 ==> n % 4 >= 2;
    } else {
      assert n / 4 <= 5;
      assert n / 4 == 5 ==> n % 4 == 0;
    }
  }

  /** The deterministic path, exactly: a token whose stripped form is alphabet
      symbols gets the hex form of its first 16 decoded bytes when the stripped
      length is at least 22 and not one more than a multiple of four, and the
      random fallback otherwise. Bytes beyond the sixteenth play no part. */
  lemma {:induction false} IdentityOfSymbolToken(token: string, other: string -> Option<seq<Byte>>, random: Uuid.Bytes16)
    requires Base64Url.AllSymbols(Strings.RStrip(token, Base64Url.IsPad))
    ensures var s := Strings.RStrip(token, Base64Url.IsPad);
      Base64ToUuid(JStr(token), other, random)
        == if |s| >= 22 && |s| % 4 != 1 then Uuid.Render(Base64Url.DecodeSymbols(s)[..16]) else FreshId(random)
  {
    var s := Strings.RStrip(token, Base64Url.IsPad);
    RepadDecodes(s, other);
    if |s| % 4 != 1 {
      DecodedLengthAtLeast16(|s|);
    }
  }

  /** Trailing `=` never matter: `t` and `t + "=="` (or any number of `=`)
      resolve to the same id. */
  lemma TrailingPaddingIrrelevant(token: string, n: nat, other: string -> Option<seq<Byte>>, random: Uuid.Bytes16)
    ensures Base64ToUuid(JStr(token + Strings.Repeat('=', n)), other, random)
         == Base64ToUuid(JStr(token), other, random)
  {
    Strings.RStripAppend(token, Strings.Repeat('=', n), Base64Url.IsPad);
  }

  /** A token that is the unpadded base64url encoding of at least 16 bytes
      always resolves to the UUID of its first 16 bytes; with n `=` appended
      (the padded encoding has two for 16 bytes) the id is the same. */
  lemma {:induction false} EncodedTokenIdentity(b: seq<Byte>, n: nat, other: string -> Option<seq<Byte>>, random: Uuid.Bytes16)
    requires |b| >= 16
    ensures Base64ToUuid(JStr(Base64Url.Encode(b) + Strings.Repeat('=', n)), other, random) == Uuid.Render(b[..16])
  {
    var s := Base64Url.Encode(b);
    TrailingPaddingIrrelevant(s, n, other, random);
    assert s != [] ==> !Base64Url.IsPad(s[|s| - 1]);
    assert Strings.RStrip(s, Base64Url.IsPad) == s;
    Base64Url.EncodedLengthNotOneModFour(|b|);
    assert |b| / 3 >= 5;
    assert |s| >= 22;
    IdentityOfSymbolToken(s, other, random);
    Base64Url.DecodeEncode(b);
  }

  // ---------------------------------------------------------------------------
  // Bounded retry

  /** What `insert_with_retry` returns: True, False, or None when `max_retries`
      leaves the loop without a single iteration; `SleepRaised` is the
      ValueError `time.sleep` raises for a negative delay, which leaves the
      function from inside its `except` clause. */
  datatype RetryResult = Inserted | Failed | NoAttempts | SleepRaised

  function Pow2(k: nat): (p: nat)
    ensures p >= 1
  {
    if k == 0 then 1 else 2 * Pow2(k - 1)
  }

  /** The sleeps before the retries that follow `n` failed attempts. */
  function Backoff(initialDelay: int, n: nat): (delays: seq<int>)
    ensures |delays| == n
    ensures forall k :: 0 <= k < n ==> delays[k] == initialDelay * Pow2(k)
  {
    if n == 0 then [] else Backoff(initialDelay, n - 1) + [initialDelay * Pow2(n - 1)]
  }

  /** Each delay is twice the one before it. */
  lemma BackoffDoubles(initialDelay: int, n: nat, k: nat)
    requires k + 1 < n
    ensures Backoff(initialDelay, n)[k + 1] == 2 * Backoff(initialDelay, n)[k]
  {
    assert Pow2(k + 1) == 2 * Pow2(k);
    assert initialDelay * (2 * Pow2(k)) == 2 * (initialDelay * Pow2(k));
  }

  /** `insert_with_retry`: upsert attempt `k` succeeds iff `succeeds(k)`; a
      delay is recorded where the script sleeps. It stops at the first success
      (True), sleeps `initial_delay * 2^k` after failed attempt `k` when another
      attempt remains, and gives up after `max_retries` failures (False) without
      a final sleep. A negative `initial_delay` makes the first sleep raise. */
  method InsertWithRetry(succeeds: nat -> bool, maxRetries: int, initialDelay: int)
    returns (result: RetryResult, attempts: nat, delays: seq<int>)
    ensures result == NoAttempts <==> maxRetries <= 0
    ensures result == NoAttempts ==> attempts == 0 && delays == []
    ensures result == SleepRaised <==> maxRetries > 1 && initialDelay < 0 && !succeeds(0)
    ensures result == SleepRaised ==> attempts == 1 && delays == []
    ensures result != NoAttempts ==> 1 <= attempts <= maxRetries
    ensures result != NoAttempts && result != SleepRaised ==> delays == Backoff(initialDelay, attempts - 1)
    ensures forall k :: 0 <= k < attempts - 1 ==> !succeeds(k)
    ensures result == Inserted <==> attempts >= 1 && succeeds(attempts - 1)
    ensures initialDelay >= 0 ==> (result == Inserted <==> exists k :: 0 <= k < maxRetries && succeeds(k))
    ensures result == Failed ==> attempts == maxRetries
  {
    attempts, delays := 0, [];
    var attempt: nat := 0;
    while attempt < maxRetries
      invariant maxRetries > 0 ==> attempt < maxRetries
      invariant maxRetries <= 0 ==> attempt == 0
      invariant initialDelay < 0 ==> attempt == 0
      invariant attempts == attempt && delays == Backoff(initialDelay, attempt)
      invariant forall k :: 0 <= k < attempt ==> !succeeds(k)
      decreases maxRetries - attempt
    {
      attempts := attempt + 1;
      if succeeds(attempt) {
        result := Inserted;
        return;
      } else if attempt < maxRetries - 1 {
        var delay := initialDelay * Pow2(attempt);
        if delay < 0 {
          result, delays := SleepRaised, [];
          return;
        }
        delays := delays + [delay];
      } else {
        result := Failed;
        return;
      }
      attempt := attempt + 1;
    }
    result := NoAttempts;
  }

  /** Retry examples with the ingestion defaults, and one negative delay. */
  method RetryScenarios() {
    var r, n, d := InsertWithRetry(k => k == 2, 3, 1);
    assert Pow2(1) == 2;
    assert r == Inserted && n == 3 && d == [1, 2];
    r, n, d := InsertWithRetry(k => false, 3, 1);
    assert r == Failed && n == 3 && d == [1, 2];
    r, n, d := InsertWithRetry(k => true, 0, 1);
    assert r == NoAttempts && n == 0;
    r, n, d := InsertWithRetry(k => false, 3, -1);
    assert r == SleepRaised && n == 1;
  }

  // ---------------------------------------------------------------------------
  // Records to points

  const Placeholder: string := "No summary or topic available"

  /** The text that gets embedded: a dictionary summary's `summary_overview`
      (defaulting to the topic), otherwise the topic; an empty choice becomes
      the placeholder. */
  function SummaryText(recording: map<string, Json>): (text: Json)
    ensures Truthy(text)
  {
    var summary := Get(recording, "summary", JObj(map[]));
    var chosen :=
      if summary.JObj? then Get(summary.fields, "summary_overview", Get(recording, "topic", JStr("")))
      else Get(recording, "topic", JStr(""));
    if Truthy(chosen) then chosen else JStr(Placeholder)
  }

  /** The fallback chain of the text choice, case by case. */
  lemma SummaryTextCases(recording: map<string, Json>)
    ensures var summary := Get(recording, "summary", JObj(map[]));
      var topic := Get(recording, "topic", JStr(""));
      var topicText := if Truthy(topic) then topic else JStr(Placeholder);
      && (summary.JObj? && "summary_overview" in summary.fields && Truthy(summary.fields["summary_overview"]) ==>
            SummaryText(recording) == summary.fields["summary_overview"])
      && (summary.JObj? && "summary_overview" in summary.fields && !Truthy(summary.fields["summary_overview"]) ==>
            SummaryText(recording) == JStr(Placeholder))
      && (summary.JObj? && "summary_overview" !in summary.fields ==> SummaryText(recording) == topicText)
      && (!summary.JObj? ==> SummaryText(recording) == topicText)
  {
  }

  /** A recording with an empty overview yields the placeholder even when it has
      a topic; one with no summary at all yields its topic. */
  lemma SummaryTextExamples(topic: string)
    requires topic != ""
    ensures SummaryText(map["topic" := JStr(topic), "summary" := JObj(map["summary_overview" := JStr("")])])
         == JStr(Placeholder)
    ensures SummaryText(map["topic" := JStr(topic)]) == JStr(topic)
    ensures SummaryText(map[]) == JStr(Placeholder)
  {
  }

  datatype Payload = Payload(topic: Json, startTime: Json, duration: Json, summary: map<string, Json>)

  datatype Point = Point(id: string, vector: seq<real>, payload: Payload)

  predicate HasPointFields(recording: map<string, Json>) {
    "uuid" in recording && "topic" in recording && "start_time" in recording && "duration" in recording
  }

  /** One iteration of the loop: the text, its embedding, the id and the
      payload of one recording, or the error the iteration raises. */
  function BuildPoint(recording: Json, embed: string -> seq<real>, other: string -> Option<seq<Byte>>,
                      random: Uuid.Bytes16): (r: Result<Point, Error>)
    ensures r.Ok? <==> recording.JObj? && SummaryText(recording.fields).JStr? && HasPointFields(recording.fields)
    ensures r.Ok? ==> Uuid.WellFormed(r.value.id)
    ensures r.Ok? ==> r.value.id == Base64ToUuid(recording.fields["uuid"], other, random)
    ensures r.Ok? ==> r.value.vector == embed(SummaryText(recording.fields).s)
    ensures r.Ok? ==> var p := r.value.payload; var f := recording.fields;
              p.topic == f["topic"] && p.startTime == f["start_time"] && p.duration == f["duration"]
              && p.summary == (if "summary" in f && f["summary"].JObj? then f["summary"].fields else map[])
  {
    if !recording.JObj? then Err(AttributeError("get"))
    else
      var fields := recording.fields;
      var summary := Get(fields, "summary", JObj(map[]));
      var text := SummaryText(fields);
      if !text.JStr? then Err(EncodeError)
      else
        var vector := embed(text.s);
        if "uuid" !in fields then Err(KeyError("uuid"))
        else
          var id := Base64ToUuid(fields["uuid"], other, random);
          if "topic" !in fields then Err(KeyError("topic"))
          else if "start_time" !in fields then Err(KeyError("start_time"))
          else if "duration" !in fields then Err(KeyError("duration"))
          else
            Ok(Point(id, vector, Payload(fields["topic"], fields["start_time"], fields["duration"],
                                         if summary.JObj? then summary.fields else map[])))
  }

  /** A recording with a topic, no summary and the padded base64url encoding
      of 16 bytes as its token becomes a point whose id is those bytes, whose
      vector embeds the topic and whose payload carries an empty summary. */
  lemma TopicOnlyRecording(b: Uuid.Bytes16, topic: string, startTime: Json, duration: Json,
                           embed: string -> seq<real>, other: string -> Option<seq<Byte>>, random: Uuid.Bytes16)
    requires topic != ""
    ensures var recording := JObj(map["uuid" := JStr(Base64Url.Encode(b) + "=="), "topic" := JStr(topic),
                                      "start_time" := startTime, "duration" := duration]);
      BuildPoint(recording, embed, other, random)
        == Ok(Point(Uuid.Render(b), embed(topic), Payload(JStr(topic), startTime, duration, map[])))
  {
    var fields := map["uuid" := JStr(Base64Url.Encode(b) + "=="), "topic" := JStr(topic),
                      "start_time" := startTime, "duration" := duration];
    PaddedTokenIdentity(b, other, random);
    TopicOnlyText(fields, topic);
    var r := BuildPoint(JObj(fields), embed, other, random);
    assert r.Ok?;
    assert r.value.id == Uuid.Render(b) && r.value.vector == embed(topic);
  }

  /** Without a summary the topic is the text. */
  lemma TopicOnlyText(fields: map<string, Json>, topic: string)
    requires "summary" !in fields && "topic" in fields && fields["topic"] == JStr(topic) && topic != ""
    ensures SummaryText(fields) == JStr(topic)
  {
  }

  /** The padded encoding of 16 bytes resolves to those bytes. */
  lemma PaddedTokenIdentity(b: Uuid.Bytes16, other: string -> Option<seq<Byte>>, random: Uuid.Bytes16)
    ensures Base64ToUuid(JStr(Base64Url.Encode(b) + "=="), other, random) == Uuid.Render(b)
  {
    assert Strings.Repeat('=', 2) == "==";
    EncodedTokenIdentity(b, 2, other, random);
    assert b[..16] == b;
  }

  /** `data.get('recordings', [])` and iterating over it: a list yields its
      items; an empty dictionary or string yields nothing; a non-empty one
      yields strings, on which the loop's `.get` raises. */
  function Recordings(data: Json): (r: Result<seq<Json>, Error>)
    ensures !data.JObj? ==> r == Err(AttributeError("get"))
    ensures data.JObj? ==>
              var value := Get(data.fields, "recordings", JArr([]));
              && (value.JArr? ==> r == Ok(value.items))
              && ((value.JObj? || value.JStr?) && !Truthy(value) ==> r == Ok([]))
              && ((value.JObj? || value.JStr?) && Truthy(value) ==> r == Err(AttributeError("get")))
              && (!value.JArr? && !value.JObj? && !value.JStr? ==> r == Err(NotIterable))
    ensures r.Ok? && data.JObj? && "recordings" !in data.fields ==> r.value == []
  {
    if !data.JObj? then Err(AttributeError("get"))
    else match Get(data.fields, "recordings", JArr([]))
      case JArr(items) => Ok(items)
      case JObj(m) => if m == map[] then Ok([]) else Err(AttributeError("get"))
      case JStr(s) => if s == "" then Ok([]) else Err(AttributeError("get"))
      case _ => Err(NotIterable)
  }

  /** What `insert_data_to_qdrant` did with one file. */
  datatype IngestReport =
    | Aborted(error: Error)            // raised while building; the handler caught it and nothing was upserted
    | NothingToInsert                  // no recordings: no upsert
    | Upserted(points: seq<Point>, result: RetryResult, attempts: nat, delays: seq<int>)

  const MaxRetries: int := 3
  const InitialDelay: int := 1

  /** The loop of `insert_data_to_qdrant`: one point per recording, in order,
      stopping at the first recording whose conversion raises. */
  method BuildPoints(recordings: seq<Json>, embed: string -> seq<real>, other: string -> Option<seq<Byte>>,
                     random: nat -> Uuid.Bytes16)
    returns (points: Result<seq<Point>, Error>)
    ensures points.Ok? <==> forall i :: 0 <= i < |recordings| ==> BuildPoint(recordings[i], embed, other, random(i)).Ok?
    ensures points.Ok? ==>
              && |points.value| == |recordings|
              && forall i :: 0 <= i < |recordings| ==> BuildPoint(recordings[i], embed, other, random(i)) == Ok(points.value[i])
    ensures points.Err? ==>
              exists i :: && 0 <= i < |recordings|
                          && BuildPoint(recordings[i], embed, other, random(i)) == Err(points.error)
                          && forall j :: 0 <= j < i ==> BuildPoint(recordings[j], embed, other, random(j)).Ok?
  {
    var built: seq<Point> := [];
    var i := 0;
    while i < |recordings|
      invariant 0 <= i <= |recordings| && |built| == i
      invariant forall j :: 0 <= j < i ==> BuildPoint(recordings[j], embed, other, random(j)) == Ok(built[j])
    {
      var point := BuildPoint(recordings[i], embed, other, random(i));
      if point.Err? {
        assert BuildPoint(recordings[i], embed, other, random(i)) == Err(point.error);
        return Err(point.error);
      }
      built := built + [point.value];
      i := i + 1;
    }
    points := Ok(built);
  }

  /** With the ingestion defaults (three attempts, one second), the sleeps
      before each retry are 1 and then 2 seconds. */
  lemma DefaultBackoff(n: nat)
    requires n <= 2
    ensures Backoff(InitialDelay, n) == [1, 2][..n]
  {
    assert Pow2(1) == 2;
  }

  /** `insert_data_to_qdrant(data)`: one point per recording, in order, then one
      batched upsert with retry when there is at least one point. Recording `i`
      takes `random(i)` if its id falls back to a random one. It never raises. */
  method InsertDataToQdrant(data: Json, embed: string -> seq<real>, other: string -> Option<seq<Byte>>,
                            random: nat -> Uuid.Bytes16, succeeds: nat -> bool)
    returns (report: IngestReport)
    ensures Recordings(data).Err? ==> report == Aborted(Recordings(data).error)
    ensures Recordings(data).Ok? ==>
              var recordings := Recordings(data).value;
              && (report.Aborted? <==> exists i :: 0 <= i < |recordings| && BuildPoint(recordings[i], embed, other, random(i)).Err?)
              && (report.Aborted? ==> exists i :: 0 <= i < |recordings| && BuildPoint(recordings[i], embed, other, random(i)) == Err(report.error)
                                                && forall j :: 0 <= j < i ==> BuildPoint(recordings[j], embed, other, random(j)).Ok?)
              && (report.NothingToInsert? <==> recordings == [])
              && (report.Upserted? ==>
                    && |report.points| == |recordings|
                    && forall i :: 0 <= i < |recordings| ==> BuildPoint(recordings[i], embed, other, random(i)) == Ok(report.points[i]))
    ensures report.Upserted? ==> report.points != [] && 1 <= report.attempts <= MaxRetries
    ensures report.Upserted? ==> report.delays == [1, 2][..report.attempts - 1]
    ensures report.Upserted? ==> (report.result == Inserted <==> exists k :: 0 <= k < MaxRetries && succeeds(k))
    ensures report.Upserted? ==> (report.result == Failed <==> !succeeds(0) && !succeeds(1) && !succeeds(2))
    ensures report.Upserted? ==>
              && (forall k :: 0 <= k < report.attempts - 1 ==> !succeeds(k))
              && (report.result == Inserted <==> succeeds(report.attempts - 1))
              && (report.result == Failed ==> report.attempts == MaxRetries)
              && report.result != SleepRaised && report.result != NoAttempts
  {
    if Recordings(data).Err? {
      report := Aborted(Recordings(data).error);
      return;
    }
    var recordings := Recordings(data).value;
    var points := BuildPoints(recordings, embed, other, random);
    if points.Err? {
      report := Aborted(points.error);
      return;
    }
    if points.value == [] {
      report := NothingToInsert;
      return;
    }
    var result, attempts, delays := InsertWithRetry(succeeds, MaxRetries, InitialDelay);
    DefaultBackoff(attempts - 1);
    report := Upserted(points.value, result, attempts, delays);
  }
}
