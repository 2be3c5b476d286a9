/**
 * The decisions of `llm_utils.py`: how `query_groq` reacts to the answers of
 * the chat-completion endpoint, how `extract_json_from_text` recovers a JSON
 * value from a model's reply, and `normalize_datetime`.
 *
 * The endpoint is not called: the outcome of the i-th request is the
 * parameter `server(i)`. Regular expressions are modelled by scanners that
 * find the same match as Python's `re` engine for the patterns used here.
 */
module LlmUtils {
  import opened Wrappers
  import opened Text
  import opened Json

  // ---------------------------------------------------------------------
  // query_groq
  // ---------------------------------------------------------------------

  /** The default of `max_retries`. */
  const DEFAULT_MAX_RETRIES := 5
  const OK_STATUS: nat := 200
  /** "Model is loading": the only status that is retried. */
  const LOADING_STATUS: nat := 503

  const ERROR := "error"
  const DETAILS := "details"
  const EXCEPTION_PREFIX := "An exception occurred: "
  const STATUS_PREFIX := "API request failed with status code "
  const GAVE_UP := "Max retries reached. Model is still loading or unavailable."

  /**
   * What one `requests.post` produced: a response (its status code, its body
   * and the message of the exception `response.json()` raises when the body
   * does not decode), or an exception raised by the request itself.
   */
  datatype Attempt =
    | Responded(status: nat, text: string, decodeError: string)
    | Raised(message: string)

  /** How a call to `query_groq` ends. */
  datatype Ending =
    | Decoded(value: Json)              // status 200, body decoded
    | Crashed(message: string)          // an exception, from the request or from decoding the body
    | Failed(status: nat, text: string) // a status other than 200 and 503
    | GaveUp                            // every attempt answered 503

  /** The attempt is followed by another one: the model is loading. */
  predicate Retries(a: Attempt)
  {
    a.Responded? && a.status == LOADING_STATUS
  }

  /** How an attempt that is not retried ends the call. */
  function Settled(a: Attempt): (e: Ending)
    requires !Retries(a)
    ensures !e.GaveUp?
    ensures e.Decoded? <==> a.Responded? && a.status == OK_STATUS && ParseJson(a.text).Some?
    ensures e.Decoded? ==> ParseJson(a.text) == Some(e.value)
    ensures e.Failed? <==> a.Responded? && a.status != OK_STATUS
  {
    match a
    case Raised(message) => Crashed(message)
    case Responded(status, text, decodeError) =>
      if status == OK_STATUS then
        match ParseJson(text)
        case Some(v) => Decoded(v)
        case None => Crashed(decodeError)
      else Failed(status, text)
  }

  /** The member of `{"x": 0.5}`, read after its opening brace. */
  lemma FractionBodyMembers(s: string)
    requires s == "{\"x\": 0.5}"
    ensures ParseMembers(s, 1, map[]) == Some((Obj(map["x" := Float("0.5")]), 10))
  {
    assert s[6..9] == "0" + "." + "5";
    FractionAt(s, 6, "0", "5");
    assert "0" + "." + "5" == "0.5";
    assert ParseValue(s, 6) == Some((Float("0.5"), 9));
    assert s[1] == '"' && s[2] == 'x' && s[3] == '"' && s[4] == ':' && s[5] == ' ' && s[9] == '}';
    assert ParseString(s, 3, "x") == Some(("x", 4));
    assert ParseString(s, 2, "") == ParseString(s, 3, "x") by { assert "" + [s[2]] == "x"; }
    assert SkipSpace(s, 4) == 4 && SkipSpace(s, 5) == 6 && SkipSpace(s, 9) == 9;
    assert map[]["x" := Float("0.5")] == map["x" := Float("0.5")];
  }

  /** `{"x": 0.5}` decodes to a dict holding a float. */
  lemma FractionBodyDecodes(s: string)
    requires s == "{\"x\": 0.5}"
    ensures ParseJson(s) == Some(Obj(map["x" := Float("0.5")]))
  {
    FractionBodyMembers(s);
    assert s[0] == '{' && s[1] == '"';
    assert SkipSpace(s, 1) == 1 && ParseObject(s, 1) == ParseMembers(s, 1, map[]);
    assert SkipSpace(s, 0) == 0 && ParseValue(s, 0) == ParseObject(s, 1);
    assert SkipSpace(s, 10) == 10;
  }

  /** A 200 body holding a fraction decodes: `{"x": 0.5}` is returned as a dict. */
  lemma SettledDecodesFraction(decodeError: string)
    ensures Settled(Responded(OK_STATUS, "{\"x\": 0.5}", decodeError)) == Decoded(Obj(map["x" := Float("0.5")]))
  {
    FractionBodyDecodes("{\"x\": 0.5}");
  }

  /**
   * How the attempts numbered `i` and up end the call, with the number of
   * requests they make: `for attempt in range(max_retries)` from `i` on.
   */
  function Run(server: nat -> Attempt, maxRetries: int, i: nat): (Ending, nat)
    decreases maxRetries - i
  {
    if i >= maxRetries then (GaveUp, 0)
    else if Retries(server(i)) then
      var (e, n) := Run(server, maxRetries, i + 1);
      (e, n + 1)
    else (Settled(server(i)), 1)
  }

  /** The dict `query_groq` returns for an ending (the decoded body itself after a 200). */
  function Reply(e: Ending): Json
  {
    match e
    case Decoded(v) => v
    case Crashed(message) => Obj(map[ERROR := Str(EXCEPTION_PREFIX + message)])
    case Failed(status, text) => Obj(map[ERROR := Str(STATUS_PREFIX + NatToString(status)), DETAILS := Str(text)])
    case GaveUp => Obj(map[ERROR := Str(GAVE_UP)])
  }

  /**
   * `query_groq`: at most `max_retries` requests, retrying only while the
   * model is loading; returns the reply and the number of requests made.
   */
  method QueryGroq(server: nat -> Attempt, maxRetries: int) returns (reply: Json, requests: nat)
    ensures reply == Reply(Run(server, maxRetries, 0).0)
    ensures requests == Run(server, maxRetries, 0).1
  {
    requests := 0;
    var attempt: nat := 0;
    while attempt < maxRetries
      invariant requests == attempt
      invariant Run(server, maxRetries, 0) == (Run(server, maxRetries, attempt).0, attempt + Run(server, maxRetries, attempt).1)
      decreases maxRetries - attempt
    {
      var response := server(attempt);
      requests := requests + 1;
      if response.Raised? {
        reply := Reply(Crashed(response.message));
        return;
      }
      if response.status == OK_STATUS {
        var decoded := ParseJson(response.text);
        if decoded.Some? {
          reply := decoded.value;
        } else {
          reply := Reply(Crashed(response.decodeError));
        }
        return;
      } else if response.status != LOADING_STATUS {
        reply := Reply(Failed(response.status, response.text));
        return;
      }
      attempt := attempt + 1;
    }
    reply := Reply(GaveUp);
  }

  /**
   * From attempt `i` on: the call gives up exactly when every remaining
   * attempt answers 503, and then it has made one request per attempt;
   * otherwise the attempts before the last request all answered 503 and
   * the last request decides the ending. Never more than `max_retries`
   * requests.
   */
  lemma {:induction false} RunMeaning(server: nat -> Attempt, maxRetries: int, i: nat)
    ensures var (e, n) := Run(server, maxRetries, i);
      && (e.GaveUp? <==> forall j | i <= j < maxRetries :: Retries(server(j)))
      && (e.GaveUp? ==> n == if i < maxRetries then maxRetries - i else 0)
      && (!e.GaveUp? ==> 1 <= n && i + n <= maxRetries && !Retries(server(i + n - 1)) && e == Settled(server(i + n - 1)))
      && (forall j | i <= j < i + n - 1 :: Retries(server(j)))
    decreases maxRetries - i
  {
    if i < maxRetries && Retries(server(i)) {
      RunMeaning(server, maxRetries, i + 1);
    }
  }

  /**
   * The first attempt that does not answer 503 ends the call: a 200 returns
   * the decoded body, another status returns the error with the details, an
   * exception returns the exception's message; no request follows it.
   */
  lemma FirstDecisiveAttempt(server: nat -> Attempt, maxRetries: int, j: nat)
    requires j < maxRetries && !Retries(server(j))
    requires forall k | 0 <= k < j :: Retries(server(k))
    ensures Run(server, maxRetries, 0) == (Settled(server(j)), j + 1)
  {
    RunMeaning(server, maxRetries, 0);
  }

  /** With no attempt other than 503, the call gives up after `max_retries` requests (none when it is not positive). */
  lemma AlwaysLoadingGivesUp(server: nat -> Attempt, maxRetries: int)
    requires forall k | 0 <= k < maxRetries :: Retries(server(k))
    ensures Run(server, maxRetries, 0) == (GaveUp, if maxRetries > 0 then maxRetries else 0)
    ensures Reply(Run(server, maxRetries, 0).0) == Obj(map[ERROR := Str(GAVE_UP)])
  {
    RunMeaning(server, maxRetries, 0);
  }

  /** The error reply for a failed status names the status in decimal and carries the body as details. */
  lemma FailedReplyNamesStatus(status: nat, text: string)
    ensures var r := Reply(Failed(status, text));
      && r.Obj? && r.fields.Keys == {ERROR, DETAILS} && r.fields[DETAILS] == Str(text)
      && var message := r.fields[ERROR].s;
        && message[..|STATUS_PREFIX|] == STATUS_PREFIX
        && AllDigits(message[|STATUS_PREFIX|..]) && DigitsValue(message[|STATUS_PREFIX|..]) == status
  {
    var message := STATUS_PREFIX + NatToString(status);
    assert message[|STATUS_PREFIX|..] == NatToString(status);
  }

  // ---------------------------------------------------------------------
  // Scanners standing in for the regular expressions
  // ---------------------------------------------------------------------

  /** No character of `s[lo..hi]` is `c`. */
  predicate FreeOf(s: string, c: char, lo: nat, hi: nat)
    requires lo <= hi <= |s|
    decreases hi - lo
  {
    lo == hi || (s[lo] != c && FreeOf(s, c, lo + 1, hi))
  }

  /** Every character of `s[lo..hi]` is white space. */
  predicate SpacesBetween(s: string, lo: nat, hi: nat)
    requires lo <= hi <= |s|
    decreases hi - lo
  {
    lo == hi || (IsSpace(s[lo]) && SpacesBetween(s, lo + 1, hi))
  }

  /** A range free of `c` stays so with one more character that is not `c`. */
  lemma {:induction false} FreeOfExtend(s: string, c: char, lo: nat, hi: nat)
    requires lo <= hi < |s| && FreeOf(s, c, lo, hi) && s[hi] != c
    ensures FreeOf(s, c, lo, hi + 1)
    decreases hi - lo
  {
    if lo < hi {
      FreeOfExtend(s, c, lo + 1, hi);
    }
  }

  /** A range of white space stays so with one more white space character. */
  lemma {:induction false} SpacesExtend(s: string, lo: nat, hi: nat)
    requires lo <= hi < |s| && SpacesBetween(s, lo, hi) && IsSpace(s[hi])
    ensures SpacesBetween(s, lo, hi + 1)
    decreases hi - lo
  {
    if lo < hi {
      SpacesExtend(s, lo + 1, hi);
    }
  }

  /** A range free of `c` stays so when it starts later. */
  lemma {:induction false} FreeOfShrink(s: string, c: char, lo: nat, lo': nat, hi: nat)
    requires lo <= lo' <= hi <= |s| && FreeOf(s, c, lo, hi)
    ensures FreeOf(s, c, lo', hi)
    decreases lo' - lo
  {
    if lo < lo' {
      FreeOfShrink(s, c, lo + 1, lo', hi);
    }
  }

  /** A range free of `c` stays so when it ends earlier. */
  lemma {:induction false} FreeOfTrim(s: string, c: char, lo: nat, hi: nat, hi': nat)
    requires lo <= hi' <= hi <= |s| && FreeOf(s, c, lo, hi)
    ensures FreeOf(s, c, lo, hi')
    decreases hi' - lo
  {
    if lo < hi' {
      FreeOfTrim(s, c, lo + 1, hi, hi');
    }
  }

  /** A range free of `c` has no `c` at any of its indices. */
  lemma {:induction false} FreeOfAt(s: string, c: char, lo: nat, hi: nat, k: nat)
    requires lo <= k < hi <= |s| && FreeOf(s, c, lo, hi)
    ensures s[k] != c
    decreases k - lo
  {
    if lo < k {
      FreeOfAt(s, c, lo + 1, hi, k);
    }
  }

  /** A range free of `c` is a slice that does not contain `c`. */
  lemma {:induction false} FreeOfSlice(s: string, c: char, lo: nat, hi: nat)
    requires lo <= hi <= |s| && FreeOf(s, c, lo, hi)
    ensures c !in s[lo..hi]
    decreases hi - lo
  {
    if lo < hi {
      FreeOfSlice(s, c, lo + 1, hi);
      assert s[lo..hi] == [s[lo]] + s[lo + 1..hi];
    }
  }

  /** A slice without `c` is a range free of `c`. */
  lemma {:induction false} SliceFreeOf(s: string, c: char, lo: nat, hi: nat)
    requires lo <= hi <= |s| && c !in s[lo..hi]
    ensures FreeOf(s, c, lo, hi)
    decreases hi - lo
  {
    if lo < hi {
      assert s[lo..hi] == [s[lo]] + s[lo + 1..hi];
      SliceFreeOf(s, c, lo + 1, hi);
    }
  }

  /** The first index at or after `from` holding `c`. */
  function IndexFrom(s: string, c: char, from: nat): (r: Option<nat>)
    requires from <= |s|
    decreases |s| - from
    ensures r.Some? ==> from <= r.value < |s| && s[r.value] == c && FreeOf(s, c, from, r.value)
    ensures r.None? ==> FreeOf(s, c, from, |s|)
  {
    if from == |s| then None
    else if s[from] == c then Some(from)
    else IndexFrom(s, c, from + 1)
  }

  /** The last index before `end` holding `c`. */
  function LastIndexBefore(s: string, c: char, end: nat): (r: Option<nat>)
    requires end <= |s|
    ensures r.Some? ==> r.value < end && s[r.value] == c && FreeOf(s, c, r.value + 1, end)
    ensures r.None? ==> FreeOf(s, c, 0, end)
  {
    if end == 0 then None
    else if s[end - 1] == c then Some(end - 1)
    else
      var r := LastIndexBefore(s, c, end - 1);
      if r.Some? then FreeOfExtend(s, c, r.value + 1, end - 1); r
      else FreeOfExtend(s, c, 0, end - 1); r
  }

  /** An index holding `c` with no `c` between `from` and it is the one `IndexFrom` finds. */
  lemma {:induction false} IndexFromFinds(s: string, c: char, from: nat, i: nat)
    requires from <= i < |s| && s[i] == c && FreeOf(s, c, from, i)
    ensures IndexFrom(s, c, from) == Some(i)
    decreases i - from
  {
    if from < i {
      IndexFromFinds(s, c, from + 1, i);
    }
  }

  /** An index holding `c` with no `c` after it before `end` is the one `LastIndexBefore` finds. */
  lemma {:induction false} LastIndexFinds(s: string, c: char, j: nat, end: nat)
    requires j < end <= |s| && s[j] == c && FreeOf(s, c, j + 1, end)
    ensures LastIndexBefore(s, c, end) == Some(j)
    decreases end - j
  {
    if j + 1 < end {
      FreeOfAt(s, c, j + 1, end, end - 1);
      FreeOfTrim(s, c, j + 1, end, end - 1);
      LastIndexFinds(s, c, j, end - 1);
    }
  }

  /** The first index at or after `from` where `p` occurs. */
  function FindFrom(s: string, p: string, from: nat): (r: Option<nat>)
    decreases |s| - from
    ensures r.Some? ==> from <= r.value && OccursAt(s, r.value, p)
    ensures forall k | from <= k && (r.None? || k < r.value) :: !OccursAt(s, k, p)
  {
    if from + |p| > |s| then None
    else if OccursAt(s, from, p) then Some(from)
    else FindFrom(s, p, from + 1)
  }

  /** `\s*` from `i`: the first index at or after `i` that is not white space. */
  function SkipSpaces(s: string, i: nat): (r: nat)
    requires i <= |s|
    decreases |s| - i
    ensures i <= r <= |s| && (r < |s| ==> !IsSpace(s[r]))
    ensures SpacesBetween(s, i, r)
  {
    if i < |s| && IsSpace(s[i]) then SkipSpaces(s, i + 1) else i
  }

  /** White space up to a character that is not: `\s*` stops there. */
  lemma {:induction false} SkipSpacesTo(s: string, i: nat, w: nat)
    requires i <= w < |s| && SpacesBetween(s, i, w) && !IsSpace(s[w])
    ensures SkipSpaces(s, i) == w
    decreases w - i
  {
    if i < w {
      SkipSpacesTo(s, i + 1, w);
    }
  }

  /** `\s*` does not pass a character that is not white space. */
  lemma {:induction false} SkipSpacesStops(s: string, i: nat, w: nat)
    requires i <= w < |s| && !IsSpace(s[w])
    ensures SkipSpaces(s, i) <= w
    decreases w - i
  {
    if i < w && IsSpace(s[i]) {
      SkipSpacesStops(s, i + 1, w);
    }
  }

  /** The end of `s[lo..hi]` with its trailing white space dropped. */
  function TrimEnd(s: string, lo: nat, hi: nat): (r: nat)
    requires lo <= hi <= |s|
    decreases hi - lo
    ensures lo <= r <= hi && (lo < r ==> !IsSpace(s[r - 1]))
    ensures SpacesBetween(s, r, hi)
  {
    if lo < hi && IsSpace(s[hi - 1]) then
      var r := TrimEnd(s, lo, hi - 1);
      SpacesExtend(s, r, hi - 1);
      r
    else hi
  }

  /**
   * Where `({[\s\S]*})` matches: from the first `{` to the last `}`, when
   * that `}` comes after it; no match when there is no `{`, or no `}` after
   * the first one.
   */
  function BraceSpan(s: string): (r: Option<(nat, nat)>)
    ensures r.Some? ==>
      var (i, j) := r.value;
      && i < j < |s| && s[i] == '{' && s[j] == '}'
      && FreeOf(s, '{', 0, i) && FreeOf(s, '}', j + 1, |s|)
    ensures r.None? ==> IndexFrom(s, '{', 0).None? || FreeOf(s, '}', IndexFrom(s, '{', 0).value + 1, |s|)
  {
    match IndexFrom(s, '{', 0)
    case None => None
    case Some(i) =>
      match LastIndexBefore(s, '}', |s|)
      case None =>
        FreeOfShrink(s, '}', 0, i + 1, |s|);
        None
      case Some(j) =>
        if i < j then Some((i, j))
        else
          FreeOfShrink(s, '}', j + 1, i + 1, |s|);
          None
  }

  const FENCE := "```"
  const JSON_TAG := "json"

  /**
   * Where the group of ```` ```(?:json)?\s*([\s\S]*?)\s*``` ```` matches: the
   * bounds of the text between the first fence and the next one, without
   * the `json` tag and the white space around it. There is a match exactly
   * when a second fence starts at or after the end of the first.
   */
  function FenceSpan(s: string): (r: Option<(nat, nat)>)
    ensures r.Some? <==> FindFrom(s, FENCE, 0).Some? && FindFrom(s, FENCE, FindFrom(s, FENCE, 0).value + 3).Some?
    ensures r.Some? ==>
      var p := FindFrom(s, FENCE, 0).value;
      var from := if OccursAt(s, p + 3, JSON_TAG) then p + 7 else p + 3;
      var (a, b) := r.value;
      && 3 <= from <= a <= b <= |s|
      && SpacesBetween(s, from, a) && (a < |s| ==> !IsSpace(s[a]))
      && (a < b ==> !IsSpace(s[b - 1]))
      && (forall k | a <= k < b :: !OccursAt(s, k, FENCE))
      && FindFrom(s, FENCE, p + 3) == Some(SkipSpaces(s, b))
  {
    match FindFrom(s, FENCE, 0)
    case None => None
    case Some(p) =>
      match FindFrom(s, FENCE, p + 3)
      case None => None
      case Some(w) =>
        var tagged := OccursAt(s, p + 3, JSON_TAG);
        var from := if tagged then p + 7 else p + 3;
        assert s[w] == '`';
        assert from <= w by {
          if tagged && w < p + 7 {
            OccursAtIndex(s, p + 3, JSON_TAG, 0, w - (p + 3));
          }
        }
        var start := SkipSpaces(s, from);
        SkipSpacesStops(s, from, w);
        var end := TrimEnd(s, start, w);
        SkipSpacesTo(s, end, w);
        Some((start, end))
  }

  /**
   * Where `"\?\s*:\s*"([^"]*)"` matches right after index `j` (the end of a
   * key): the bounds of the captured text, which runs from just after an
   * opening `"` up to the next `"`.
   */
  function QuotedValueAt(s: string, j: nat): (r: Option<(nat, nat)>)
    requires j <= |s|
    ensures r.Some? ==>
      var (a, b) := r.value;
      && j < a <= b < |s| && s[a - 1] == '"' && s[b] == '"'
      && FreeOf(s, '"', a, b)
  {
    var afterQuote := if j < |s| && s[j] == '"' then j + 1 else j;
    var colon := SkipSpaces(s, afterQuote);
    if colon < |s| && s[colon] == ':' then
      var open := SkipSpaces(s, colon + 1);
      if open < |s| && s[open] == '"' then
        match IndexFrom(s, '"', open + 1)
        case Some(close) => Some((open + 1, close))
        case None => None
      else None
    else None
  }

  /**
   * `re.search` of `"?key"?\s*:\s*"([^"]*)"` from index `from`: the first
   * occurrence of `key` that is followed by a quoted value.
   */
  function FirstMatch(s: string, key: string, from: nat): (r: Option<nat>)
    requires |key| > 0
    decreases |s| - from
    ensures r.Some? ==> from <= r.value && OccursAt(s, r.value, key) && QuotedValueAt(s, r.value + |key|).Some?
  {
    if from + |key| > |s| then None
    else if OccursAt(s, from, key) && QuotedValueAt(s, from + |key|).Some? then Some(from)
    else FirstMatch(s, key, from + 1)
  }

  /** Every occurrence of `key` from `from` on that comes before the match, or any when there is none, is followed by no quoted value. */
  lemma {:induction false} FirstMatchLeftmost(s: string, key: string, from: nat, k: nat)
    requires |key| > 0
    requires from <= k && OccursAt(s, k, key)
    requires FirstMatch(s, key, from).None? || k < FirstMatch(s, key, from).value
    ensures QuotedValueAt(s, k + |key|).None?
    decreases k - from
  {
    if from < k {
      FirstMatchLeftmost(s, key, from + 1, k);
    }
  }

  const SUMMARY := "summary"
  const LOCATION := "location"
  const DESCRIPTION := "description"
  const START := "start"
  const END := "end"
  const DATE_TIME := "dateTime"
  const TIME_ZONE := "timeZone"
  /** The zone the field stage gives to the dates it recovers. */
  const PACIFIC_ZONE := "America/Los_Angeles"
  /** The fields of `field_patterns`, in the dict's order. */
  const FIELD_KEYS: seq<string> := [SUMMARY, LOCATION, DESCRIPTION]

  /**
   * `re.search` of the pattern for `key` from index `from`: the value it
   * captures and the index just past the closing `"` of the match.
   */
  function SearchValue(s: string, key: string, from: nat): (r: Option<(string, nat)>)
    requires |key| > 0
    ensures r.Some? ==> '"' !in r.value.0 && from < r.value.1 <= |s|
  {
    match FirstMatch(s, key, from)
    case Some(k) =>
      var (a, b) := QuotedValueAt(s, k + |key|).value;
      FreeOfSlice(s, '"', a, b);
      Some((s[a..b], b + 1))
    case None => None
  }

  /** The value `re.search` captures for one of the field patterns, if any. */
  function FieldValue(s: string, key: string): (r: Option<string>)
    requires |key| > 0
    ensures r.Some? ==> '"' !in r.value
  {
    match SearchValue(s, key, 0)
    case Some((v, _)) => Some(v)
    case None => None
  }

  /**
   * The first two values `re.findall` finds for the `dateTime` pattern, if
   * it finds at least two: the second is searched from the end of the first
   * match, so the two matches do not overlap.
   */
  function DateTimeMatches(s: string): (r: Option<(string, string)>)
    ensures r.Some? ==> '"' !in r.value.0 && '"' !in r.value.1
  {
    match SearchValue(s, DATE_TIME, 0)
    case None => None
    case Some((first, e)) =>
      match SearchValue(s, DATE_TIME, e)
      case None => None
      case Some((second, _)) => Some((first, second))
  }

  // ---------------------------------------------------------------------
  // extract_json_from_text
  // ---------------------------------------------------------------------

  /** The first stage: the brace text, decoded. */
  function BraceValue(s: string): Option<Json>
  {
    match BraceSpan(s)
    case Some((i, j)) => ParseJson(s[i..j + 1])
    case None => None
  }

  /** The second stage: the fenced text, decoded. */
  function FenceValue(s: string): Option<Json>
  {
    match FenceSpan(s)
    case Some((a, b)) => ParseJson(s[a..b])
    case None => None
  }

  /** A dict the field stage builds for a recovered date. */
  function PacificTime(dateTime: string): Json
  {
    Obj(map[DATE_TIME := Str(dateTime), TIME_ZONE := Str(PACIFIC_ZONE)])
  }

  /** The fields among `keys` that have a match, each mapped to the value captured. */
  function FoundFields(s: string, keys: seq<string>): map<string, Json>
    requires forall key | key in keys :: |key| > 0
  {
    if keys == [] then map[]
    else
      var found := FoundFields(s, keys[..|keys| - 1]);
      var key := keys[|keys| - 1];
      match FieldValue(s, key)
      case Some(v) => found[key := Str(v)]
      case None => found
  }

  /** A key is found exactly when it is one of `keys` and its pattern matches; its value is the one captured. */
  lemma {:induction false} FoundFieldsMeaning(s: string, keys: seq<string>)
    requires forall key | key in keys :: |key| > 0
    ensures forall key :: key in FoundFields(s, keys) <==> key in keys && FieldValue(s, key).Some?
    ensures forall key | key in FoundFields(s, keys) :: FoundFields(s, keys)[key] == Str(FieldValue(s, key).value)
  {
    if keys != [] {
      var init := keys[..|keys| - 1];
      FoundFieldsMeaning(s, init);
      assert forall key :: key in keys <==> key in init || key == keys[|keys| - 1] by {
        assert keys == init + [keys[|keys| - 1]];
      }
    }
  }

  /**
   * The third stage: every field of `field_patterns` that has a match, and
   * `start`/`end` from the first two dates when there are two.
   */
  function FieldStage(s: string): map<string, Json>
  {
    WithDates(FoundFields(s, FIELD_KEYS), DateTimeMatches(s))
  }

  /** The fields found, with `start` and `end` added when two dates were found. */
  function WithDates(found: map<string, Json>, dates: Option<(string, string)>): map<string, Json>
  {
    match dates
    case Some((first, second)) => found[START := PacificTime(first)][END := PacificTime(second)]
    case None => found
  }

  /** Adding the dates leaves every other field alone, and leaves the dict empty only when there is nothing to add. */
  lemma WithDatesMeaning(found: map<string, Json>, dates: Option<(string, string)>)
    requires START !in found && END !in found
    ensures var fields := WithDates(found, dates);
      && (forall key | key != START && key != END :: (key in fields <==> key in found))
      && (forall key | key in found :: fields[key] == found[key])
      && (START in fields <==> dates.Some?)
      && (END in fields <==> dates.Some?)
      && (dates.Some? ==> fields[START] == PacificTime(dates.value.0) && fields[END] == PacificTime(dates.value.1))
      && fields.Keys == found.Keys + (if dates.Some? then {START, END} else {})
  {
  }

  /**
   * What `extract_json_from_text` returns, `Null` standing for Python's
   * `None`: the first stage that decodes, else the fields recovered, if any.
   */
  function Extracted(s: string): Json
  {
    match BraceValue(s)
    case Some(v) => v
    case None =>
      match FenceValue(s)
      case Some(v) => v
      case None => if FieldStage(s) != map[] then Obj(FieldStage(s)) else Null
  }

  /** The loop over `field_patterns`: each field whose pattern matches, with the value captured. */
  method CollectFields(text: string) returns (eventData: map<string, Json>)
    ensures eventData == FoundFields(text, FIELD_KEYS)
  {
    eventData := map[];
    for i := 0 to |FIELD_KEYS|
      invariant eventData == FoundFields(text, FIELD_KEYS[..i])
    {
      assert FIELD_KEYS[..i + 1][..i] == FIELD_KEYS[..i];
      var value := FieldValue(text, FIELD_KEYS[i]);
      if value.Some? {
        eventData := eventData[FIELD_KEYS[i] := Str(value.value)];
      }
    }
    assert FIELD_KEYS[..|FIELD_KEYS|] == FIELD_KEYS;
  }

  /** `extract_json_from_text`: the three stages in order, the field stage built by a loop over `field_patterns`. */
  method ExtractJsonFromText(text: string) returns (result: Json)
    ensures result == Extracted(text)
  {
    var brace := BraceSpan(text);
    if brace.Some? {
      var decoded := ParseJson(text[brace.value.0..brace.value.1 + 1]);
      assert BraceValue(text) == decoded;
      if decoded.Some? {
        return decoded.value;
      }
    }
    var fence := FenceSpan(text);
    if fence.Some? {
      var decoded := ParseJson(text[fence.value.0..fence.value.1]);
      assert FenceValue(text) == decoded;
      if decoded.Some? {
        return decoded.value;
      }
    }
    assert BraceValue(text).None? && FenceValue(text).None?;
    var eventData := CollectFieldStage(text);
    if eventData != map[] {
      return Obj(eventData);
    }
    return Null;
  }

  /** The field stage: the field loop, then `start` and `end` from the first two `dateTime` values. */
  method CollectFieldStage(text: string) returns (eventData: map<string, Json>)
    ensures eventData == FieldStage(text)
  {
    eventData := CollectFields(text);
    var dates := DateTimeMatches(text);
    if dates.Some? {
      eventData := eventData[START := PacificTime(dates.value.0)][END := PacificTime(dates.value.1)];
    }
  }

  /** The brace span is the first `{` and the last `}`, whenever that `}` comes after that `{`. */
  lemma BraceSpanFinds(text: string, i: nat, j: nat)
    requires i < j < |text| && text[i] == '{' && text[j] == '}'
    requires '{' !in text[..i] && '}' !in text[j + 1..]
    ensures BraceSpan(text) == Some((i, j))
  {
    SliceFreeOf(text, '{', 0, i);
    SliceFreeOf(text, '}', j + 1, |text|);
    IndexFromFinds(text, '{', 0, i);
    LastIndexFinds(text, '}', j, |text|);
  }

  /**
   * When the text from the first `{` to the last `}` decodes, that value is
   * returned, and it is a dict; the later stages are not consulted.
   */
  lemma BraceStageWins(text: string, i: nat, j: nat)
    requires i < j < |text| && text[i] == '{' && text[j] == '}'
    requires '{' !in text[..i] && '}' !in text[j + 1..]
    requires ParseJson(text[i..j + 1]).Some?
    ensures Extracted(text) == ParseJson(text[i..j + 1]).value
    ensures Extracted(text).Obj?
  {
    BraceSpanFinds(text, i, j);
    assert BraceValue(text) == ParseJson(text[i..j + 1]);
    BraceTextDecodesToObject(text[i..j + 1]);
  }

  /**
   * The field stage keeps each value up to the next `"`, adds `start` and
   * `end` (in the Pacific zone) exactly when two dates are found, and is
   * empty exactly when nothing at all is found.
   */
  lemma FieldStageMeaning(text: string)
    ensures var fields := FieldStage(text);
      && (forall key | key in FIELD_KEYS :: (key in fields <==> FieldValue(text, key).Some?))
      && (forall key | key in FIELD_KEYS && key in fields :: fields[key] == Str(FieldValue(text, key).value))
      && (START in fields <==> DateTimeMatches(text).Some?)
      && (END in fields <==> DateTimeMatches(text).Some?)
      && (DateTimeMatches(text).Some? ==>
            fields[START] == PacificTime(DateTimeMatches(text).value.0) && fields[END] == PacificTime(DateTimeMatches(text).value.1))
      && fields.Keys <= {SUMMARY, LOCATION, DESCRIPTION, START, END}
      && (fields == map[] <==> (forall key | key in FIELD_KEYS :: FieldValue(text, key).None?) && DateTimeMatches(text).None?)
  {
    FoundFieldsMeaning(text, FIELD_KEYS);
    var found := FoundFields(text, FIELD_KEYS);
    assert START !in FIELD_KEYS && END !in FIELD_KEYS;
    WithDatesMeaning(found, DateTimeMatches(text));
    FoundFieldsEmpty(text);
  }

  /** No field is found exactly when no field pattern matches. */
  lemma FoundFieldsEmpty(text: string)
    ensures FoundFields(text, FIELD_KEYS) == map[] <==> forall key | key in FIELD_KEYS :: FieldValue(text, key).None?
  {
    FoundFieldsMeaning(text, FIELD_KEYS);
    var found := FoundFields(text, FIELD_KEYS);
    if forall key | key in FIELD_KEYS :: FieldValue(text, key).None? {
      assert found.Keys == {};
    } else {
      var key :| key in FIELD_KEYS && FieldValue(text, key).Some?;
      assert key in found;
    }
  }

  /**
   * `None` comes back exactly when no stage recovers anything: the brace
   * stage does not decode, and either the fenced text decodes to `null` or
   * it does not decode and no field nor pair of dates is found.
   */
  lemma ExtractedNoneIff(text: string)
    ensures Extracted(text) == Null <==>
      && BraceValue(text).None?
      && (|| FenceValue(text) == Some(Null)
          || (&& FenceValue(text).None?
              && (forall key | key in FIELD_KEYS :: FieldValue(text, key).None?)
              && DateTimeMatches(text).None?))
  {
    match BraceSpan(text) {
      case Some((i, j)) => BraceTextDecodesToObject(text[i..j + 1]);
      case None =>
    }
    FieldStageMeaning(text);
  }

  /** When neither the brace nor the fenced text decodes, whatever the field stage finds is returned as a dict. */
  lemma FieldStageReturned(text: string)
    requires BraceValue(text).None? && FenceValue(text).None?
    ensures FieldStage(text) != map[] ==> Extracted(text) == Obj(FieldStage(text))
    ensures FieldStage(text) == map[] ==> Extracted(text) == Null
  {
  }

  // ---------------------------------------------------------------------
  // normalize_datetime
  // ---------------------------------------------------------------------

  /** The offset `normalize_datetime` appends: Pacific time. */
  const PACIFIC_OFFSET := "-07:00"

  /** `date_str[-6:]`. */
  function LastSix(s: string): string
  {
    if |s| <= 6 then s else s[|s| - 6..]
  }

  /** The string already names a zone: it ends in `Z` or has a `+` or `-` in its last six characters. */
  predicate HasZone(s: string)
  {
    (|s| > 0 && s[|s| - 1] == 'Z') || '+' in LastSix(s) || '-' in LastSix(s)
  }

  /** `normalize_datetime`: append the Pacific offset to a nonempty string that names no zone. */
  function NormalizeDateTime(s: string): (r: string)
    ensures s != "" ==> HasZone(r)
    ensures r == s <==> s == "" || HasZone(s)
    ensures r != s ==> r == s + PACIFIC_OFFSET
  {
    if s != "" && !HasZone(s) then
      var r := s + PACIFIC_OFFSET;
      assert LastSix(r) == PACIFIC_OFFSET;
      assert '-' in LastSix(r) by { assert LastSix(r)[0] == '-'; }
      r
    else s
  }

  /** Normalizing twice is normalizing once. */
  lemma NormalizeIdempotent(s: string)
    ensures NormalizeDateTime(NormalizeDateTime(s)) == NormalizeDateTime(s)
  {
    var r := NormalizeDateTime(s);
    if r != s {
      assert r != "";
    }
  }
}
