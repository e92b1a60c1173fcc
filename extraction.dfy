/**
 * Getting the reply text out of the chat-completion response and cleaning it
 * (prepare-commit-msg.py:201-220, keep-a-changelog.py:197-214).
 */
module Extraction {
  import opened Wrappers
  import opened PyErrors
  import opened JsonValue
  import opened Cleaning
  import Text

  /** The primary path `response["choices"][0]["message"]["content"]`, None where Python raises. */
  function ChoiceContent(r: Json): Option<Json>
  {
    match Field(r, "choices")
    case None => None
    case Some(choices) =>
      match First(choices)
      case None => None
      case Some(choice) =>
        match Field(choice, "message")
        case None => None
        case Some(message) => Field(message, "content")
  }

  /** A well-formed completion's content comes back verbatim from the primary path. */
  lemma ChoiceContentOfCompletion(c: Json, choices: seq<Json>, top: map<string, Json>, msg: map<string, Json>)
    requires choices != [] && choices[0] == JObject(msg) && "message" in msg
    requires msg["message"].JObject? && "content" in msg["message"].fields && msg["message"].fields["content"] == c
    requires "choices" in top && top["choices"] == JArray(choices)
    ensures ChoiceContent(JObject(top)) == Some(c)
  {
  }

  // ---------------------------------------------------------------- the regex fallback

  /** The literal part of `"content":"([^"]*)"` before the capture group. */
  const Key: string := "\"content\":\""

  /** The pattern matches at `p`, its capture ending just before the quote at `q`. */
  ghost predicate MatchAt(s: string, p: int, q: int) {
    0 <= p && p + |Key| <= q < |s| && s[p..p + |Key|] == Key && s[q] == '"' && '"' !in s[p + |Key|..q]
  }

  /** Index of the first `"` at or after `i`. */
  function QuoteFrom(s: string, i: nat): (r: Option<nat>)
    requires i <= |s|
    ensures r.Some? ==> i <= r.value < |s| && s[r.value] == '"' && '"' !in s[i..r.value]
    ensures r.None? ==> '"' !in s[i..]
    decreases |s| - i
  {
    if i == |s| then None
    else if s[i] == '"' then Some(i)
    else
      var r := QuoteFrom(s, i + 1);
      assert r.Some? ==> s[i..r.value] == [s[i]] + s[i + 1..r.value];
      assert s[i..] == [s[i]] + s[i + 1..];
      r
  }

  /**
   * `re.search(r'"content":"([^"]*)"', s)` from position `p` on: the capture of the
   * leftmost match, or None when there is none.
   */
  function SearchFrom(s: string, p: nat): (r: Option<string>)
    requires p <= |s|
    ensures r.Some? ==> '"' !in r.value
    decreases |s| - p
  {
    if p + |Key| <= |s| && s[p..p + |Key|] == Key && QuoteFrom(s, p + |Key|).Some? then
      Some(s[p + |Key|..QuoteFrom(s, p + |Key|).value])
    else if p == |s| then
      None
    else
      SearchFrom(s, p + 1)
  }

  /**
   * The search finds the leftmost match at or after `p` and returns its capture, and
   * finds nothing only when there is no match there at all.
   */
  lemma {:induction false} SearchFromLeftmost(s: string, p: nat)
    requires p <= |s|
    ensures var r := SearchFrom(s, p);
      (r.Some? ==> exists p', q ::
        (p <= p' && MatchAt(s, p', q) && r.value == s[p' + |Key|..q]
         && forall p'', q'' :: p <= p'' < p' ==> !MatchAt(s, p'', q'')))
      && (r.None? ==> forall p', q :: p <= p' ==> !MatchAt(s, p', q))
    decreases |s| - p
  {
    if p + |Key| <= |s| && s[p..p + |Key|] == Key && QuoteFrom(s, p + |Key|).Some? {
      var q := QuoteFrom(s, p + |Key|).value;
      assert MatchAt(s, p, q);
    } else if p < |s| {
      SearchFromLeftmost(s, p + 1);
      assert forall q :: !MatchAt(s, p, q) by {
        if p + |Key| <= |s| && s[p..p + |Key|] == Key {
          assert forall q :: p + |Key| <= q < |s| ==> s[q] == s[p + |Key|..][q - (p + |Key|)];
        }
      }
    }
  }

  /** `re.search` over the whole text: the capture of the first match. */
  function FirstContent(s: string): Option<string> {
    SearchFrom(s, 0)
  }

  /** A text holding a `"content":"…"` fragment yields the quote-free text inside it, unchanged. */
  lemma FirstContentRecovers(t: string, rest: string)
    requires '"' !in t
    ensures FirstContent(Key + t + "\"" + rest) == Some(t)
  {
    var s := Key + t + "\"" + rest;
    assert s[..|Key|] == Key;
    assert s[|Key|..|Key| + |t|] == t;
    var q := |Key| + |t|;
    assert s[q] == '"';
    assert MatchAt(s, 0, q);
    var r := FirstContent(s);
    SearchFromLeftmost(s, 0);
    assert r.Some?;
    var p', q' :| 0 <= p' && MatchAt(s, p', q') && r.value == s[p' + |Key|..q']
      && forall p'', q'' :: 0 <= p'' < p' ==> !MatchAt(s, p'', q'');
    assert p' == 0;
    assert q' == q by {
      assert forall k :: |Key| <= k < q ==> s[k] == t[k - |Key|];
    }
  }

  /**
   * The reply text before cleaning: the structured content when the primary path
   * succeeds, else the fallback capture on a str response.
   */
  function RawContent(r: Json): (x: Result<string, PyError>)
    ensures ChoiceContent(r).Some? ==>
      (x.Success? <==> ChoiceContent(r).value.JString?)
      && (x.Success? ==> x.value == ChoiceContent(r).value.s)
    ensures ChoiceContent(r).Some? && !ChoiceContent(r).value.JString? ==> x == Failure(SubOnNonText)
    ensures ChoiceContent(r).None? ==>
      (x.Success? <==> r.JString? && FirstContent(r.s).Some?)
      && (x.Success? ==> x.value == FirstContent(r.s).value && '"' !in x.value)
    ensures ChoiceContent(r).None? && r.JString? && FirstContent(r.s).None? ==> x == Failure(SubOnNone)
    ensures ChoiceContent(r).None? && !r.JString? ==> x == Failure(SearchOnNonText)
    ensures x.Failure? ==> x.error != MissingArgument
  {
    match ChoiceContent(r)
    case Some(JString(c)) => Success(c)
    case Some(_) => Failure(SubOnNonText)
    case None =>
      if r.JString? then
        match FirstContent(r.s)
        case Some(c) => Success(c)
        case None => Failure(SubOnNone)
      else Failure(SearchOnNonText)
  }

  /** The extractor both hooks share: the raw content put through the five rewrites. */
  function Extract(r: Json): (x: Result<string, PyError>)
    ensures x.Success? <==> RawContent(r).Success?
    ensures x.Success? ==> x.value == Clean(RawContent(r).value) && NoEscapeWord(x.value)
    ensures x.Failure? ==> x.error == RawContent(r).error
  {
    match RawContent(r)
    case Success(c) => Success(Clean(c))
    case Failure(e) => Failure(e)
  }

  /** A response whose first choice carries str content yields that content, cleaned. */
  lemma ExtractCompletion(c: string, choices: seq<Json>, top: map<string, Json>, msg: map<string, Json>)
    requires choices != [] && choices[0] == JObject(msg) && "message" in msg
    requires msg["message"].JObject? && "content" in msg["message"].fields
    requires msg["message"].fields["content"] == JString(c)
    requires "choices" in top && top["choices"] == JArray(choices)
    ensures Extract(JObject(top)) == Success(Clean(c))
  {
    ChoiceContentOfCompletion(JString(c), choices, top, msg);
  }

  /**
   * A completion whose content is a reply with its newlines escaped, no backslash of its
   * own and no whitespace at either end, gives that reply back.
   */
  lemma ExtractEscapedReply(t: string, choices: seq<Json>, msg: map<string, Json>)
    requires '\\' !in t && t != [] && !Text.IsSpace(t[0]) && !Text.IsSpace(t[|t| - 1])
    requires choices != [] && choices[0] == JObject(msg) && "message" in msg
    requires msg["message"] == JObject(map["content" := JString(EscapeNewlines(t))])
    ensures Extract(JObject(map["choices" := JArray(choices)])) == Success(t)
  {
    ExtractCompletion(EscapeNewlines(t), choices, map["choices" := JArray(choices)], msg);
    CleanRestoresEscapedText(t);
  }

  /**
   * A str response without choices that holds a `"content":"…"` fragment yields the
   * fragment's text, when that text has no quote, no backslash and no edge whitespace.
   */
  lemma ExtractFallback(t: string, rest: string)
    requires '"' !in t && '\\' !in t && t != [] && !Text.IsSpace(t[0]) && !Text.IsSpace(t[|t| - 1])
    ensures Extract(JString(Key + t + "\"" + rest)) == Success(t)
  {
    FirstContentRecovers(t, rest);
    CleanWithoutBackslash(t);
    Text.TrimStartSpec(t, Text.IsSpace);
    Text.TrimEndSpec(t, Text.IsSpace);
  }

  /** A failed request (None) and any other non-str value without choices make the fallback raise. */
  lemma ExtractWithoutChoices(r: Json)
    requires !r.JString? && ChoiceContent(r).None?
    ensures Extract(r) == Failure(SearchOnNonText)
  {
  }
}
