/**
 * Decoded JSON values and a decoder for a restricted JSON grammar, standing in
 * for Python's `json.loads` (and for `response.json()`).
 *
 * The grammar: objects, arrays, strings with the escapes \" \\ \/ \b \f \n \r \t,
 * numbers (`-?(0|[1-9][0-9]*)(\.[0-9]+)?([eE][-+]?[0-9]+)?`), the constants
 * `NaN`, `Infinity` and `-Infinity` that Python also accepts, `true`, `false`,
 * `null`, and the JSON white space characters. A number with neither fraction
 * nor exponent decodes to an `int`, any other to a `float`, which is kept as
 * its literal text. `\u` escapes are not part of the grammar: such text is
 * rejected.
 */
module Json {
  import opened Wrappers
  import opened Text

  /** A decoded JSON value. Objects are maps: a repeated key keeps its last value. */
  datatype Json =
    | Null
    | Bool(b: bool)
    | Int(n: int)
    | Float(literal: string)
    | Str(s: string)
    | Arr(items: seq<Json>)
    | Obj(fields: map<string, Json>)

  /** Python's truth value of the decoded value (`if value:`). */
  predicate Truthy(j: Json)
  {
    match j
    case Null => false
    case Bool(b) => b
    case Int(n) => n != 0
    case Float(literal) => !ZeroMantissa(literal)
    case Str(s) => s != ""
    case Arr(items) => items != []
    case Obj(fields) => fields != map[]
  }

  /**
   * The digits of a number literal before its exponent are all zero, so that
   * the float it stands for is 0.0 (or -0.0). `NaN` and `Infinity` are not.
   */
  predicate ZeroMantissa(literal: string)
  {
    || literal == []
    || literal[0] == 'e' || literal[0] == 'E'
    || ((literal[0] == '0' || literal[0] == '-' || literal[0] == '.') && ZeroMantissa(literal[1..]))
  }

  /** The name Python gives the type of the decoded value. */
  function TypeName(j: Json): string
  {
    match j
    case Null => "NoneType"
    case Bool(_) => "bool"
    case Int(_) => "int"
    case Float(_) => "float"
    case Str(_) => "str"
    case Arr(_) => "list"
    case Obj(_) => "dict"
  }

  predicate IsJsonSpace(c: char) { c == ' ' || c == '\t' || c == '\n' || c == '\r' }

  /** The first index at or after `i` that is not JSON white space. */
  function SkipSpace(s: string, i: nat): (k: nat)
    requires i <= |s|
    ensures i <= k <= |s|
    ensures forall j | i <= j < k :: IsJsonSpace(s[j])
    ensures k == |s| || !IsJsonSpace(s[k])
    decreases |s| - i
  {
    if i < |s| && IsJsonSpace(s[i]) then SkipSpace(s, i + 1) else i
  }

  /** The character a backslash escape stands for. */
  function Unescape(c: char): Option<char>
  {
    match c
    case '"' => Some('"')
    case '\\' => Some('\\')
    case '/' => Some('/')
    case 'b' => Some(8 as char)
    case 'f' => Some(12 as char)
    case 'n' => Some('\n')
    case 'r' => Some('\r')
    case 't' => Some('\t')
    case _ => None
  }

  /** The body of a string literal from `i` (just after the opening quote); `acc` holds what is decoded so far. */
  function ParseString(s: string, i: nat, acc: string): (r: Option<(string, nat)>)
    requires i <= |s|
    ensures r.Some? ==> i < r.value.1 <= |s|
    decreases |s| - i
  {
    if i == |s| then None
    else if s[i] == '"' then Some((acc, i + 1))
    else if s[i] == '\\' then
      if i + 1 < |s| && Unescape(s[i + 1]).Some? then ParseString(s, i + 2, acc + [Unescape(s[i + 1]).value])
      else None
    else if s[i] < ' ' then None
    else ParseString(s, i + 1, acc + [s[i]])
  }

  /** The end of the run of digits starting at `i`. */
  function DigitRunEnd(s: string, i: nat): (k: nat)
    requires i <= |s|
    ensures i <= k <= |s| && AllDigits(s[i..k])
    ensures k == |s| || !IsDigit(s[k])
    decreases |s| - i
  {
    if i < |s| && IsDigit(s[i]) then
      var k := DigitRunEnd(s, i + 1);
      assert s[i..k] == [s[i]] + s[i + 1..k];
      k
    else i
  }

  /** The end of an exponent `[eE][-+]?[0-9]+` at `k`, or `k` itself when there is none. */
  function ExponentEnd(s: string, k: nat): (e: nat)
    requires k <= |s|
    ensures k <= e <= |s|
    ensures e > k ==> s[k] == 'e' || s[k] == 'E'
  {
    if k < |s| && (s[k] == 'e' || s[k] == 'E') then
      var d := if k + 1 < |s| && (s[k + 1] == '+' || s[k + 1] == '-') then k + 2 else k + 1;
      if d < |s| && IsDigit(s[d]) then DigitRunEnd(s, d) else k
    else k
  }

  /** The end of a fraction `.[0-9]+` at `k`, or `k` itself when there is none. */
  function FractionEnd(s: string, k: nat): (e: nat)
    requires k <= |s|
    ensures k <= e <= |s|
    ensures e > k ==> s[k] == '.'
  {
    if k + 1 < |s| && s[k] == '.' && IsDigit(s[k + 1]) then DigitRunEnd(s, k + 1) else k
  }

  /**
   * A number literal at `i`: an optional minus, then `0` or a digit run without
   * a leading zero, then an optional fraction and an optional exponent. With
   * neither, the value is an `int`; otherwise a `float`.
   */
  function ParseNumber(s: string, i: nat): (r: Option<(Json, nat)>)
    requires i < |s|
    ensures r.Some? ==> i < r.value.1 <= |s|
    ensures r.Some? ==> r.value.0.Int? || r.value.0.Float?
    ensures r.Some? && r.value.0.Float? ==>
      r.value.0.literal == s[i..r.value.1] && exists k | i < k < r.value.1 :: s[k] == '.' || s[k] == 'e' || s[k] == 'E'
    ensures r.Some? && r.value.0.Int? ==> FractionEnd(s, r.value.1) == r.value.1 && ExponentEnd(s, r.value.1) == r.value.1
  {
    var start := if s[i] == '-' then i + 1 else i;
    if start < |s| && IsDigit(s[start]) then
      var intEnd := if s[start] == '0' then start + 1 else DigitRunEnd(s, start);
      assert AllDigits(s[start..intEnd]) by {
        if s[start] == '0' {
          assert intEnd == start + 1;
          assert s[start..intEnd][0] == s[start];
        }
      }
      var fracEnd := FractionEnd(s, intEnd);
      var end := ExponentEnd(s, fracEnd);
      if end == intEnd then
        var v: int := DigitsValue(s[start..intEnd]);
        Some((Int(if s[i] == '-' then -v else v), intEnd))
      else
        assert s[intEnd] == '.' || s[fracEnd] == 'e' || s[fracEnd] == 'E';
        Some((Float(s[i..end]), end))
    else None
  }

  /** A JSON value starting exactly at `i`; the result carries the index just after it. */
  function ParseValue(s: string, i: nat): (r: Option<(Json, nat)>)
    requires i <= |s|
    ensures r.Some? ==> i < r.value.1 <= |s|
    decreases |s| - i, 0
  {
    if i == |s| then None
    else if s[i] == '{' then ParseObject(s, i + 1)
    else if s[i] == '[' then ParseArray(s, i + 1)
    else if s[i] == '"' then
      match ParseString(s, i + 1, "")
      case Some((text, k)) => Some((Str(text), k))
      case None => None
    else if OccursAt(s, i, "true") then Some((Bool(true), i + 4))
    else if OccursAt(s, i, "false") then Some((Bool(false), i + 5))
    else if OccursAt(s, i, "null") then Some((Null, i + 4))
    else match ParseNumber(s, i)
      case Some(r) => Some(r)
      case None =>
        if OccursAt(s, i, "NaN") then Some((Float("NaN"), i + 3))
        else if OccursAt(s, i, "Infinity") then Some((Float("Infinity"), i + 8))
        else if OccursAt(s, i, "-Infinity") then Some((Float("-Infinity"), i + 9))
        else None
  }

  /** An object body from `i` (just after `{`). */
  function ParseObject(s: string, i: nat): (r: Option<(Json, nat)>)
    requires i <= |s|
    ensures r.Some? ==> i < r.value.1 <= |s| && r.value.0.Obj?
    decreases |s| - i, 2
  {
    var k := SkipSpace(s, i);
    if k < |s| && s[k] == '}' then Some((Obj(map[]), k + 1))
    else ParseMembers(s, k, map[])
  }

  /** The members of an object from `i` (at a key's opening quote); `acc` holds the members read so far. */
  function ParseMembers(s: string, i: nat, acc: map<string, Json>): (r: Option<(Json, nat)>)
    requires i <= |s|
    ensures r.Some? ==> i < r.value.1 <= |s| && r.value.0.Obj?
    decreases |s| - i, 1
  {
    if i < |s| && s[i] == '"' then
      match ParseString(s, i + 1, "")
      case None => None
      case Some((key, j)) =>
        var colon := SkipSpace(s, j);
        if colon < |s| && s[colon] == ':' then
          match ParseValue(s, SkipSpace(s, colon + 1))
          case None => None
          case Some((v, j4)) =>
            var next := SkipSpace(s, j4);
            if next < |s| && s[next] == '}' then Some((Obj(acc[key := v]), next + 1))
            else if next < |s| && s[next] == ',' then ParseMembers(s, SkipSpace(s, next + 1), acc[key := v])
            else None
        else None
    else None
  }

  /** An array body from `i` (just after `[`). */
  function ParseArray(s: string, i: nat): (r: Option<(Json, nat)>)
    requires i <= |s|
    ensures r.Some? ==> i < r.value.1 <= |s| && r.value.0.Arr?
    decreases |s| - i, 2
  {
    var k := SkipSpace(s, i);
    if k < |s| && s[k] == ']' then Some((Arr([]), k + 1))
    else ParseElements(s, k, [])
  }

  /** The elements of an array from `i` (at an element); `acc` holds the elements read so far. */
  function ParseElements(s: string, i: nat, acc: seq<Json>): (r: Option<(Json, nat)>)
    requires i <= |s|
    ensures r.Some? ==> i < r.value.1 <= |s| && r.value.0.Arr?
    decreases |s| - i, 1
  {
    match ParseValue(s, i)
    case None => None
    case Some((v, j)) =>
      var next := SkipSpace(s, j);
      if next < |s| && s[next] == ']' then Some((Arr(acc + [v]), next + 1))
      else if next < |s| && s[next] == ',' then ParseElements(s, SkipSpace(s, next + 1), acc + [v])
      else None
  }

  /** `json.loads`: one value, with only white space around it. */
  function ParseJson(s: string): Option<Json>
  {
    match ParseValue(s, SkipSpace(s, 0))
    case Some((v, end)) => if SkipSpace(s, end) == |s| then Some(v) else None
    case None => None
  }

  /** A run of digits ended by a non-digit (or the end) is the run `DigitRunEnd` finds. */
  lemma {:induction false} DigitRunEndAt(s: string, i: nat, k: nat)
    requires i <= k <= |s| && AllDigits(s[i..k])
    requires k == |s| || !IsDigit(s[k])
    ensures DigitRunEnd(s, i) == k
    decreases k - i
  {
    if i < k {
      assert IsDigit(s[i..k][0]);
      assert s[i + 1..k] == s[i..k][1..];
      DigitRunEndAt(s, i + 1, k);
    }
  }

  /** A value that starts with a digit is a number. */
  lemma DigitStartsNumber(s: string, i: nat)
    requires i < |s| && IsDigit(s[i])
    ensures ParseValue(s, i) == ParseNumber(s, i)
  {
    assert !OccursAt(s, i, "true") && !OccursAt(s, i, "false") && !OccursAt(s, i, "null");
    assert !OccursAt(s, i, "NaN") && !OccursAt(s, i, "Infinity") && !OccursAt(s, i, "-Infinity");
  }

  /** A number whose integer part ends at `w`, whose fraction ends at `e` and that has no exponent is a `float`. */
  lemma FractionNumber(s: string, i: nat, w: nat, e: nat)
    requires i < w < e <= |s| && IsDigit(s[i])
    requires w == (if s[i] == '0' then i + 1 else DigitRunEnd(s, i))
    requires FractionEnd(s, w) == e && ExponentEnd(s, e) == e
    ensures ParseNumber(s, i) == Some((Float(s[i..e]), e))
  {
  }

  /** A literal with a fraction, such as `0.5`, not followed by more of a number, decodes to a `float` written as itself. */
  lemma FractionAt(s: string, i: nat, whole: string, frac: string)
    requires whole != [] && AllDigits(whole) && (|whole| > 1 ==> whole[0] != '0')
    requires frac != [] && AllDigits(frac)
    requires i + |whole| + 1 + |frac| <= |s| && s[i..i + |whole| + 1 + |frac|] == whole + "." + frac
    requires var e := i + |whole| + 1 + |frac|; e == |s| || (!IsDigit(s[e]) && s[e] != 'e' && s[e] != 'E')
    ensures ParseValue(s, i) == Some((Float(whole + "." + frac), i + |whole| + 1 + |frac|))
  {
    var w := i + |whole|;
    var e := w + 1 + |frac|;
    FractionParts(s, i, whole, frac);
    if whole[0] != '0' {
      DigitRunEndAt(s, i, w);
    } else {
      assert |whole| == 1;
    }
    DigitRunEndAt(s, w + 1, e);
    assert FractionEnd(s, w) == e;
    assert ExponentEnd(s, e) == e;
    FractionNumber(s, i, w, e);
    DigitStartsNumber(s, i);
  }

  /** Where the parts of a fraction literal sit in the text. */
  lemma FractionParts(s: string, i: nat, whole: string, frac: string)
    requires whole != [] && AllDigits(whole) && frac != [] && AllDigits(frac)
    requires i + |whole| + 1 + |frac| <= |s| && s[i..i + |whole| + 1 + |frac|] == whole + "." + frac
    ensures var w := i + |whole|;
      && s[i..w] == whole && s[w] == '.' && s[w + 1..w + 1 + |frac|] == frac
      && IsDigit(s[i]) && s[i] == whole[0] && IsDigit(s[w + 1])
  {
    var w := i + |whole|;
    var e := w + 1 + |frac|;
    assert s[i..e][..|whole|] == whole;
    assert s[i..e][|whole|] == '.';
    assert s[i..e][|whole| + 1..] == frac;
    assert s[i] == whole[0];
    assert s[w + 1] == frac[0];
  }

  /** A fraction on its own is a whole JSON text: `json.loads("0.5")` is the float 0.5. */
  lemma FractionDecodes(whole: string, frac: string)
    requires whole != [] && AllDigits(whole) && (|whole| > 1 ==> whole[0] != '0')
    requires frac != [] && AllDigits(frac)
    ensures ParseJson(whole + "." + frac) == Some(Float(whole + "." + frac))
  {
    var s := whole + "." + frac;
    assert SkipSpace(s, 0) == 0 by { assert IsDigit(s[0]); }
    assert s[0..|s|] == s;
    FractionAt(s, 0, whole, frac);
  }

  /** Text that starts with `{` can only decode to an object: a dict, never a list, string or number. */
  lemma BraceTextDecodesToObject(s: string)
    requires |s| > 0 && s[0] == '{'
    ensures ParseJson(s).Some? ==> ParseJson(s).value.Obj?
  {
    assert SkipSpace(s, 0) == 0;
  }
}
