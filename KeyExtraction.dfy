/** Reading the generator's API key out of the text of `config.js` with the
    pattern `anthropicApiKey:\s*['"](.+?)['"]` under Python's `re.search`: the
    leftmost match wins, `\s*` takes every whitespace character it can, and the
    lazy group `(.+?)` takes at least one character, never a newline, and stops
    at the first quote after its first character. */
module KeyExtraction {
  import opened Common
  import opened Json
  import opened Strings

  const Prefix: string := "anthropicApiKey:"

  const NotFoundMessage: string := "Anthropic API key not found in config.js"

  predicate IsQuote(c: char) {
    c == '\'' || c == '"'
  }

  /** The group `key` is what the pattern captures once its whitespace run ends
      at the opening quote `s[w]`: one character or more, none a newline, and
      the first quote after its first character closes it. */
  predicate GroupAt(s: string, w: nat, key: string) {
    && w + |key| + 1 < |s|
    && IsQuote(s[w])
    && s[w + 1..w + 1 + |key|] == key
    && IsQuote(s[w + 1 + |key|])
    && key != []
    && '\n' !in key
    && (forall t :: 1 <= t < |key| ==> !IsQuote(key[t]))
  }

  /** The pattern matches at position `p` and captures `key` (declarative form). */
  predicate MatchesAt(s: string, p: nat, key: string) {
    && p + |Prefix| <= |s|
    && s[p..p + |Prefix|] == Prefix
    && exists w :: p + |Prefix| <= w <= |s| && All(s[p + |Prefix|..w], IsSpace) && GroupAt(s, w, key)
  }

  /** Where a run of whitespace starting at `i` ends (`\s*`, greedy). */
  function SpacesEnd(s: string, i: nat): (j: nat)
    requires i <= |s|
    ensures i <= j <= |s| && All(s[i..j], IsSpace)
    ensures j == |s| || !IsSpace(s[j])
    decreases |s| - i
  {
    if i < |s| && IsSpace(s[i]) then
      var j := SpacesEnd(s, i + 1);
      assert s[i..j] == [s[i]] + s[i + 1..j];
      j
    else i
  }

  /** The first quote at or after `k`, provided no newline comes before it. */
  function ClosingQuote(s: string, k: nat): (e: Option<nat>)
    requires k <= |s|
    ensures e.Some? ==> k <= e.value < |s| && IsQuote(s[e.value])
    ensures e.Some? ==> forall t :: k <= t < e.value ==> !IsQuote(s[t]) && s[t] != '\n'
    ensures e.None? ==> forall q :: k <= q < |s| && IsQuote(s[q]) ==> '\n' in s[k..q]
    decreases |s| - k
  {
    if k == |s| || s[k] == '\n' then
      assert forall q :: k < q <= |s| ==> s[k..q][0] == s[k];
      None
    else if IsQuote(s[k]) then Some(k)
    else
      var e := ClosingQuote(s, k + 1);
      assert forall q :: k < q <= |s| ==> s[k..q] == [s[k]] + s[k + 1..q];
      e
  }

  /** The pattern tried at position `p`, step by step as the regex engine does. */
  function MatchAt(s: string, p: nat): (r: Option<string>)
    ensures r.Some? ==> MatchesAt(s, p, r.value)
  {
    if p + |Prefix| <= |s| && s[p..p + |Prefix|] == Prefix then
      var w := SpacesEnd(s, p + |Prefix|);
      if w + 2 < |s| && IsQuote(s[w]) && s[w + 1] != '\n' then
        match ClosingQuote(s, w + 2)
        case Some(e) =>
          var key := s[w + 1..e];
          assert forall t :: 0 <= t < |key| ==> key[t] == s[w + 1 + t];
          assert GroupAt(s, w, key);
          Some(key)
        case None => None
      else None
    else None
  }

  /** Quotes are not whitespace, so the whitespace run before the opening
      quote is the greedy one. */
  lemma {:induction false} SpaceRunEndsAtQuote(s: string, i: nat, w: nat)
    requires i <= w < |s| && All(s[i..w], IsSpace) && IsQuote(s[w])
    ensures SpacesEnd(s, i) == w
    decreases w - i
  {
    if i < w {
      assert s[i..w][0] == s[i];
      assert s[i + 1..w] == s[i..w][1..];
      SpaceRunEndsAtQuote(s, i + 1, w);
    }
  }

  /** A quote with neither quote nor newline between `k` and it is the one
      the lazy group stops at. */
  lemma {:induction false} ClosingQuoteAt(s: string, k: nat, e: nat)
    requires k <= e < |s| && IsQuote(s[e])
    requires forall t :: k <= t < e ==> !IsQuote(s[t]) && s[t] != '\n'
    ensures ClosingQuote(s, k) == Some(e)
    decreases e - k
  {
    if k < e {
      ClosingQuoteAt(s, k + 1, e);
    }
  }

  /** The step-by-step matcher finds exactly the declarative matches. */
  lemma MatchAtExactly(s: string, p: nat, key: string)
    ensures MatchAt(s, p) == Some(key) <==> MatchesAt(s, p, key)
  {
    if MatchesAt(s, p, key) {
      MatchAtFinds(s, p, key);
    }
  }

  /** Every declarative match is found by the step-by-step matcher. */
  lemma MatchAtFinds(s: string, p: nat, key: string)
    requires MatchesAt(s, p, key)
    ensures MatchAt(s, p) == Some(key)
  {
    var w :| p + |Prefix| <= w <= |s| && All(s[p + |Prefix|..w], IsSpace) && GroupAt(s, w, key);
    SpaceRunEndsAtQuote(s, p + |Prefix|, w);
    GroupCloses(s, w, key);
    MatchAtWhen(s, p, w, w + 1 + |key|);
  }

  /** The matcher's steps at `p`, once their outcomes are known. */
  lemma MatchAtWhen(s: string, p: nat, w: nat, e: nat)
    requires p + |Prefix| <= |s| && s[p..p + |Prefix|] == Prefix
    requires SpacesEnd(s, p + |Prefix|) == w && w + 2 < |s| && IsQuote(s[w]) && s[w + 1] != '\n'
    requires ClosingQuote(s, w + 2) == Some(e)
    ensures MatchAt(s, p) == Some(s[w + 1..e])
  {
  }

  /** The group of a match starts after the opening quote and ends where the
      lazy group stops. */
  lemma GroupCloses(s: string, w: nat, key: string)
    requires GroupAt(s, w, key)
    ensures w + 2 < |s| && IsQuote(s[w]) && s[w + 1] != '\n'
    ensures ClosingQuote(s, w + 2) == Some(w + 1 + |key|) && s[w + 1..w + 1 + |key|] == key
  {
    var e := w + 1 + |key|;
    assert s[w + 1] == key[0];
    assert forall t :: w + 2 <= t < e ==> s[t] == key[t - w - 1];
    ClosingQuoteAt(s, w + 2, e);
  }

  /** `re.search`: the leftmost position at or after `from` where the pattern
      matches. */
  function SearchFrom(s: string, from: nat): (p: Option<nat>)
    requires from <= |s|
    ensures p.Some? ==> from <= p.value <= |s| && MatchAt(s, p.value).Some?
    ensures p.Some? ==> forall q :: from <= q < p.value ==> MatchAt(s, q).None?
    ensures p.None? ==> forall q :: from <= q <= |s| ==> MatchAt(s, q).None?
    decreases |s| - from
  {
    if MatchAt(s, from).Some? then Some(from)
    else if from == |s| then None
    else SearchFrom(s, from + 1)
  }

  /** `get_api_key_from_config` on the file's text: the captured group, or the
      `ValueError` raised when the pattern does not occur. */
  function FindApiKey(content: string): (r: Result<string, Error>)
    ensures r.Ok? ==> r.value != [] && '\n' !in r.value
    ensures r.Err? ==> r.error == ValueError(NotFoundMessage)
  {
    match SearchFrom(content, 0)
    case Some(p) => Ok(MatchAt(content, p).value)
    case None => Err(ValueError(NotFoundMessage))
  }

  /** The key found is the group of the leftmost occurrence of the pattern, and
      the error is raised exactly when the pattern occurs nowhere. */
  lemma FindApiKeyLeftmost(content: string)
    ensures FindApiKey(content).Err? <==> forall p: nat, key: string :: MatchesAt(content, p, key) ==> false
    ensures FindApiKey(content).Ok? ==> exists p ::
      && MatchesAt(content, p, FindApiKey(content).value)
      && forall q: nat, key: string :: q < p && MatchesAt(content, q, key) ==> false
  {
    forall p: nat, key | MatchesAt(content, p, key)
      ensures MatchAt(content, p) == Some(key)
    {
      MatchAtExactly(content, p, key);
    }
    if FindApiKey(content).Ok? {
      var p := SearchFrom(content, 0).value;
      MatchAtExactly(content, p, FindApiKey(content).value);
    }
  }

  /** Example: the usual quoted form. */
  lemma FindApiKeyPlain()
    ensures FindApiKey("anthropicApiKey: 'sk-1'") == Ok("sk-1")
  {
    var s := "anthropicApiKey: 'sk-1'";
    assert s[..|Prefix|] == Prefix;
    SpaceRunEndsAtQuote(s, 16, 17);
    ClosingQuoteAt(s, 19, 22);
    MatchAtWhen(s, 0, 17, 22);
    assert s[18..22] == "sk-1";
  }

  /** Example: the whitespace before the opening quote, newlines included, is
      skipped, and double quotes work as well as single ones. */
  lemma FindApiKeyAfterNewline()
    ensures FindApiKey("{anthropicApiKey:\n  \"k\",}") == Ok("k")
  {
    var s := "{anthropicApiKey:\n  \"k\",}";
    assert MatchAt(s, 0) == None;
    AfterNewlineMatch();
  }

  lemma AfterNewlineMatch()
    ensures MatchAt("{anthropicApiKey:\n  \"k\",}", 1) == Some("k")
  {
    var s := "{anthropicApiKey:\n  \"k\",}";
    AfterNewlinePrefix();
    SpaceRunEndsAtQuote(s, 17, 20);
    ClosingQuoteAt(s, 22, 22);
    MatchAtWhen(s, 1, 20, 22);
    assert s[21..22] == "k";
  }

  lemma AfterNewlinePrefix()
    ensures "{anthropicApiKey:\n  \"k\",}"[1..17] == Prefix
  {
    var s := "{anthropicApiKey:\n  \"k\",}";
    assert s == "{" + Prefix + "\n  \"k\",}";
  }

  /** Example: a key whose closing quote is on the next line is not found. */
  lemma FindApiKeyUnclosed()
    ensures FindApiKey("anthropicApiKey: 'k\n'") == Err(ValueError(NotFoundMessage))
  {
    var s := "anthropicApiKey: 'k\n'";
    SpaceRunEndsAtQuote(s, 16, 17);
    assert MatchAt(s, 0).None?;
    forall p | 1 <= p <= |s|
      ensures MatchAt(s, p).None?
    {
      if p + |Prefix| <= |s| {
        assert s[p..p + |Prefix|][0] != Prefix[0];
      }
    }
  }
}
