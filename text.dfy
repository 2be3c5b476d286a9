/**
 * Character classes and digit helpers shared by the scanners.
 * Only ASCII is modelled: Python's `\d`, `\w` and `\s` also accept other
 * Unicode digits, letters and spaces.
 */
module Text {

  predicate IsDigit(c: char) { '0' <= c <= '9' }

  function DigitValue(c: char): (v: nat)
    requires IsDigit(c)
    ensures v < 10
  {
    c as int - '0' as int
  }

  function DigitChar(v: nat): (c: char)
    requires v < 10
    ensures IsDigit(c) && DigitValue(c) == v
  {
    ('0' as int + v) as char
  }

  predicate AllDigits(s: string) { forall i | 0 <= i < |s| :: IsDigit(s[i]) }

  /** The value of a run of decimal digits, most significant first. */
  function DigitsValue(s: string): (v: nat)
    requires AllDigits(s)
  {
    if s == [] then 0 else DigitsValue(s[..|s| - 1]) * 10 + DigitValue(s[|s| - 1])
  }

  /** Two digits, zero padded (strftime's `%m`, `%d`, `%H`, `%M`, `%S`). */
  function Pad2(n: nat): (r: string)
    requires n < 100
    ensures |r| == 2 && AllDigits(r) && DigitsValue(r) == n
  {
    var r := [DigitChar(n / 10), DigitChar(n % 10)];
    assert r[..1] == [DigitChar(n / 10)];
    assert r[..1][..0] == [];
    assert DigitsValue(r[..1]) == n / 10;
    assert DigitsValue(r) == (n / 10) * 10 + n % 10;
    r
  }

  /** Four digits, zero padded (strftime's `%Y`). */
  function Pad4(n: nat): (r: string)
    requires n < 10000
    ensures |r| == 4 && AllDigits(r) && DigitsValue(r) == n
  {
    var hi := Pad2(n / 100);
    var lo := Pad2(n % 100);
    var r := hi + lo;
    assert r[..3] == hi + lo[..1];
    assert r[..3][..2] == hi;
    assert lo[..1][..0] == [];
    assert DigitsValue(lo[..1]) == DigitValue(lo[0]);
    assert DigitsValue(lo) == DigitValue(lo[0]) * 10 + DigitValue(lo[1]);
    r
  }

  /** Python's `\s` restricted to ASCII. */
  predicate IsSpace(c: char)
  {
    c == ' ' || c == '\t' || c == '\n' || c == '\r' || c == '\U{0B}' || c == '\U{0C}'
  }

  /** Python's `\w` restricted to ASCII. */
  predicate IsWordChar(c: char)
  {
    ('a' <= c <= 'z') || ('A' <= c <= 'Z') || IsDigit(c) || c == '_'
  }

  function ToLower(c: char): char
  {
    if 'A' <= c <= 'Z' then (c as int + 32) as char else c
  }

  /** ASCII case-insensitive equality, as `re.IGNORECASE` compares letters. */
  predicate EqualsIgnoreCase(a: string, b: string)
  {
    |a| == |b| && forall i | 0 <= i < |a| :: ToLower(a[i]) == ToLower(b[i])
  }

  /** `p` occurs in `s` starting at index `i`. */
  predicate OccursAt(s: string, i: nat, p: string)
  {
    i + |p| <= |s| && MatchesFrom(s, i, p, 0)
  }

  /** The characters of `p` from index `k` on sit in `s` from index `i + k` on. */
  predicate MatchesFrom(s: string, i: nat, p: string, k: nat)
    requires i + |p| <= |s| && k <= |p|
    decreases |p| - k
  {
    k == |p| || (s[i + k] == p[k] && MatchesFrom(s, i, p, k + 1))
  }

  /** Each character of an occurrence matches. */
  lemma {:induction false} OccursAtIndex(s: string, i: nat, p: string, k: nat, m: nat)
    requires i + |p| <= |s| && k <= m < |p| && MatchesFrom(s, i, p, k)
    ensures s[i + m] == p[m]
    decreases m - k
  {
    if k < m {
      OccursAtIndex(s, i, p, k + 1, m);
    }
  }

  /** An occurrence is a slice equal to the pattern. */
  lemma OccursAtSlice(s: string, i: nat, p: string)
    ensures OccursAt(s, i, p) <==> i + |p| <= |s| && s[i..i + |p|] == p
  {
    if i + |p| <= |s| {
      if s[i..i + |p|] == p {
        SliceMatches(s, i, p, |p|);
      } else if OccursAt(s, i, p) {
        forall m | 0 <= m < |p| ensures s[i..i + |p|][m] == p[m] {
          OccursAtIndex(s, i, p, 0, m);
        }
      }
    }
  }

  /** A slice equal to `p` matches `p` from every position of its last `k` characters. */
  lemma {:induction false} SliceMatches(s: string, i: nat, p: string, k: nat)
    requires i + |p| <= |s| && k <= |p| && s[i..i + |p|] == p
    ensures MatchesFrom(s, i, p, |p| - k)
    decreases k
  {
    if k > 0 {
      SliceMatches(s, i, p, k - 1);
      assert s[i..i + |p|][|p| - k] == s[i + |p| - k];
    }
  }

  /** `str(n)` for a natural number: its decimal digits, without leading zeros. */
  function NatToString(n: nat): (r: string)
    ensures |r| >= 1 && AllDigits(r) && DigitsValue(r) == n
    ensures |r| > 1 ==> r[0] != '0'
    ensures n < 10 ==> |r| == 1
    ensures n < 100 ==> |r| <= 2
  {
    if n < 10 then [DigitChar(n)]
    else
      var r := NatToString(n / 10) + [DigitChar(n % 10)];
      assert r[..|r| - 1] == NatToString(n / 10);
      r
  }
}
