/**
 * The PHP string built-ins the controllers depend on, over strings modelled as
 * sequences of characters: `trim`, `empty()`, integer-to-string conversion, and
 * the splitting on a separator that the e-mail pattern's `.`-separated parts imply.
 * Character classes are those of PCRE in the C locale (ASCII only).
 */
module PhpStrings {

  predicate IsDigit(c: char) { '0' <= c <= '9' }

  predicate IsAsciiLetter(c: char) { 'a' <= c <= 'z' || 'A' <= c <= 'Z' }

  /** The POSIX class `[:alnum:]` in the C locale. */
  predicate IsAlnum(c: char) { IsDigit(c) || IsAsciiLetter(c) }

  function LowerChar(c: char): char {
    if 'A' <= c <= 'Z' then (c as int + 32) as char else c
  }

  /** ASCII lower-casing, as PCRE's `/i` flag compares letters. */
  function Lower(s: string): string {
    seq(|s|, i requires 0 <= i < |s| => LowerChar(s[i]))
  }

  predicate AllDigits(s: string) { forall i :: 0 <= i < |s| ==> IsDigit(s[i]) }

  function DigitValue(c: char): nat
    requires IsDigit(c)
  {
    c as int - '0' as int
  }

  function DigitChar(d: nat): (c: char)
    requires d < 10
    ensures IsDigit(c) && DigitValue(c) == d
  {
    ('0' as int + d) as char
  }

  /** Numeric value of a string of decimal digits; leading zeros are allowed. */
  function DecimalValue(s: string): nat
    requires AllDigits(s)
    decreases |s|
  {
    if s == [] then 0 else 10 * DecimalValue(s[..|s| - 1]) + DigitValue(s[|s| - 1])
  }

  /** Decimal text of a natural number, without leading zeros. */
  function NatToString(n: nat): (s: string)
    ensures |s| >= 1 && AllDigits(s)
    ensures DecimalValue(s) == n
    ensures |s| > 1 ==> s[0] != '0'
    decreases n
  {
    if n < 10 then [DigitChar(n)]
    else
      var prefix := NatToString(n / 10);
      var s := prefix + [DigitChar(n % 10)];
      assert s[..|s| - 1] == prefix;
      s
  }

  /** PHP's conversion of an int to a string, as string concatenation performs it. */
  function IntToString(i: int): (s: string)
    ensures |s| >= 1
    ensures i >= 0 ==> AllDigits(s) && DecimalValue(s) == i
    ensures i < 0 ==> s[0] == '-' && |s| >= 2 && AllDigits(s[1..]) && DecimalValue(s[1..]) == -i
    ensures i >= 0 && |s| > 1 ==> s[0] != '0'
    ensures i < 0 ==> s[1] != '0'
  {
    if i < 0 then "-" + NatToString(-i) else NatToString(i)
  }

  /** Position of the first occurrence of `c` in `s`, or `|s|` when there is none. */
  function IndexOf(s: string, c: char): (i: nat)
    ensures i <= |s|
    ensures i < |s| ==> s[i] == c
    ensures forall j :: 0 <= j < i ==> s[j] != c
  {
    if s == [] then 0 else if s[0] == c then 0 else 1 + IndexOf(s[1..], c)
  }

  /** The parts joined with `sep` between consecutive parts. */
  function Join(parts: seq<string>, sep: char): string {
    if parts == [] then ""
    else if |parts| == 1 then parts[0]
    else parts[0] + [sep] + Join(parts[1..], sep)
  }

  /** `s` cut at every occurrence of `sep`; the inverse of `Join`. */
  function Split(s: string, sep: char): (parts: seq<string>)
    ensures |parts| >= 1
    ensures forall k :: 0 <= k < |parts| ==> sep !in parts[k]
    ensures Join(parts, sep) == s
    decreases |s|
  {
    var i := IndexOf(s, sep);
    if i == |s| then [s]
    else
      var rest := Split(s[i + 1..], sep);
      var parts := [s[..i]] + rest;
      assert parts[1..] == rest;
      assert s == s[..i] + [sep] + s[i + 1..];
      parts
  }

  lemma {:induction false} SplitJoin(parts: seq<string>, sep: char)
    requires |parts| >= 1
    requires forall k :: 0 <= k < |parts| ==> sep !in parts[k]
    ensures Split(Join(parts, sep), sep) == parts
    decreases |parts|
  {
    var s := Join(parts, sep);
    if |parts| == 1 {
      assert IndexOf(s, sep) == |s|;
    } else {
      var p := parts[0];
      var rest := Join(parts[1..], sep);
      assert s == p + [sep] + rest;
      assert s[|p|] == sep;
      assert forall j :: 0 <= j < |p| ==> s[j] == p[j];
      assert IndexOf(s, sep) == |p|;
      assert s[..|p|] == p;
      assert s[|p| + 1..] == rest;
      SplitJoin(parts[1..], sep);
      assert [p] + parts[1..] == parts;
    }
  }

  /** Every character of `s` satisfies `p`. */
  predicate AllChars(s: string, p: char -> bool) {
    forall i :: 0 <= i < |s| ==> p(s[i])
  }

  lemma {:induction false} JoinAllChars(parts: seq<string>, sep: char, p: char -> bool)
    requires p(sep)
    requires forall k :: 0 <= k < |parts| ==> AllChars(parts[k], p)
    ensures AllChars(Join(parts, sep), p)
    decreases |parts|
  {
    if |parts| > 1 {
      JoinAllChars(parts[1..], sep, p);
      var s := Join(parts, sep);
      assert s == parts[0] + [sep] + Join(parts[1..], sep);
      forall i | 0 <= i < |s| ensures p(s[i]) {
        if i > |parts[0]| {
          assert s[i] == Join(parts[1..], sep)[i - |parts[0]| - 1];
        }
      }
    }
  }

  /** The characters PHP's `trim` strips by default: " \t\n\r\0\x0B". */
  predicate IsTrimChar(c: char) {
    c == ' ' || c == '\t' || c == '\n' || c == '\r' || c == 0 as char || c == 11 as char
  }

  function TrimStart(s: string): (r: string)
    ensures |r| <= |s| && r == s[|s| - |r|..]
    ensures forall i :: 0 <= i < |s| - |r| ==> IsTrimChar(s[i])
    ensures r == [] || !IsTrimChar(r[0])
  {
    if s != [] && IsTrimChar(s[0]) then TrimStart(s[1..]) else s
  }

  function TrimEnd(s: string): (r: string)
    ensures |r| <= |s| && r == s[..|r|]
    ensures forall i :: |r| <= i < |s| ==> IsTrimChar(s[i])
    ensures r == [] || !IsTrimChar(r[|r| - 1])
  {
    if s != [] && IsTrimChar(s[|s| - 1]) then TrimEnd(s[..|s| - 1]) else s
  }

  /**
   * `r` is `s[lo..lo + |r|]`, everything around it is a trim character, and `r`
   * neither starts nor ends with one: the largest such slice of `s`.
   */
  ghost predicate TrimmedAt(s: string, lo: nat, r: string) {
    && lo + |r| <= |s|
    && r == s[lo..lo + |r|]
    && (forall i :: 0 <= i < lo ==> IsTrimChar(s[i]))
    && (forall i :: lo + |r| <= i < |s| ==> IsTrimChar(s[i]))
    && (r == [] || (!IsTrimChar(r[0]) && !IsTrimChar(r[|r| - 1])))
  }

  /** PHP `trim` with its default character list. */
  function Trim(s: string): (r: string)
    ensures exists lo: nat :: TrimmedAt(s, lo, r)
  {
    var t := TrimStart(s);
    var r := TrimEnd(t);
    assert TrimmedAt(s, |s| - |t|, r);
    r
  }

  /** A string that neither starts nor ends with a trim character is left as it is. */
  lemma TrimKeeps(s: string)
    requires s == [] || (!IsTrimChar(s[0]) && !IsTrimChar(s[|s| - 1]))
    ensures Trim(s) == s
  {
    assert TrimStart(s) == s;
    assert TrimEnd(s) == s;
  }

  /** Trimming twice is trimming once. */
  lemma TrimIdempotent(s: string)
    ensures Trim(Trim(s)) == Trim(s)
  {
    var r := Trim(s);
    var lo: nat :| TrimmedAt(s, lo, r);
    TrimKeeps(r);
  }

  /** PHP's `empty()` on a string: true for "" and for "0". */
  predicate IsPhpEmpty(s: string) { s == "" || s == "0" }
}
