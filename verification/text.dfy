/**
 * Character-level text handling of the converter: the `trim` helper used for
 * flow-file labels, a model of `istream >> int` as used to read the header
 * integers, decimal rendering of sizes (`operator<<` / `to_string` on ints),
 * and reading several whitespace-separated values from one line.
 */
module Text {
  import opened Wrappers

  /** The characters `std::isspace` accepts in the "C" locale. */
  predicate IsSpace(c: char) {
    c == ' ' || c == '\t' || c == '\n' || c == '\r' || c == '\U{0B}' || c == '\U{0C}'
  }

  predicate IsDigit(c: char) {
    '0' <= c <= '9'
  }

  ghost predicate AllSpace(s: string) {
    forall i :: 0 <= i < |s| ==> IsSpace(s[i])
  }

  /** Position of the first non-space character at or after `lo`, or `|s|`
      (`std::find_if_not(begin, end, isspace)` started at `lo`). */
  function SkipSpace(s: string, lo: nat): (l: nat)
    requires lo <= |s|
    ensures lo <= l <= |s|
    ensures forall i :: lo <= i < l ==> IsSpace(s[i])
    ensures l < |s| ==> !IsSpace(s[l])
    decreases |s| - lo
  {
    if lo == |s| || !IsSpace(s[lo]) then lo else SkipSpace(s, lo + 1)
  }

  /** One past the last non-space character at or before `hi`, or 0
      (`std::find_if_not(rbegin, rend, isspace).base()` started at `hi`). */
  function SkipSpaceBack(s: string, hi: nat): (h: nat)
    requires hi <= |s|
    ensures h <= hi
    ensures forall i :: h <= i < hi ==> IsSpace(s[i])
    ensures 0 < h ==> !IsSpace(s[h - 1])
  {
    if hi == 0 || !IsSpace(s[hi - 1]) then hi else SkipSpaceBack(s, hi - 1)
  }

  /** `r` is `s` with a whitespace prefix `s[..l]` and a whitespace suffix
      `s[h..]` removed, and `r` itself neither starts nor ends with whitespace. */
  ghost predicate TrimmedAt(s: string, l: int, h: int, r: string) {
    && 0 <= l <= h <= |s|
    && r == s[l..h]
    && AllSpace(s[..l]) && AllSpace(s[h..])
    && (r == [] || (!IsSpace(r[0]) && !IsSpace(r[|r| - 1])))
  }

  /** Removes all leading and trailing whitespace. */
  function Trim(s: string): (r: string)
    ensures exists l, h :: TrimmedAt(s, l, h, r)
    ensures r == [] <==> AllSpace(s)
  {
    var left := SkipSpace(s, 0);
    var right := SkipSpaceBack(s, |s|);
    if left >= right then
      assert TrimmedAt(s, left, left, []);
      ""
    else
      assert TrimmedAt(s, left, right, s[left..right]);
      assert !IsSpace(s[left]);
      s[left..right]
  }

  /** The trimming of a string is unique: any slice that drops only
      whitespace and keeps no whitespace at its ends is `Trim(s)`. */
  lemma {:induction false} TrimUnique(s: string, l: int, h: int, r: string)
    requires TrimmedAt(s, l, h, r)
    ensures r == Trim(s)
  {
    var l', h' :| TrimmedAt(s, l', h', Trim(s));
    if r == [] {
      assert forall i :: 0 <= i < |s| ==> IsSpace(s[i]) by {
        forall i | 0 <= i < |s| ensures IsSpace(s[i]) {
          if i < l { assert s[..l][i] == s[i]; }
          else { assert s[h..][i - h] == s[i]; }
        }
      }
    } else {
      // both slices start at the first non-space and end after the last one
      assert !IsSpace(s[l]) && !IsSpace(s[h - 1]);
    }
  }

  /** Trimming twice changes nothing. */
  lemma TrimIdempotent(s: string)
    ensures Trim(Trim(s)) == Trim(s)
  {
    var t := Trim(s);
    assert TrimmedAt(t, 0, |t|, t) by {
      assert t[..0] == [] && t[|t|..] == [];
    }
    TrimUnique(t, 0, |t|, t);
  }

  /** End of the run of decimal digits starting at `i`. */
  function DigitRun(s: string, i: nat): (e: nat)
    requires i <= |s|
    ensures i <= e <= |s|
    ensures forall k :: i <= k < e ==> IsDigit(s[k])
    ensures e < |s| ==> !IsDigit(s[e])
    decreases |s| - i
  {
    if i == |s| || !IsDigit(s[i]) then i else DigitRun(s, i + 1)
  }

  /** Value of a string of decimal digits, most significant first. */
  function DigitsValue(ds: string): nat
    requires forall i :: 0 <= i < |ds| ==> IsDigit(ds[i])
  {
    if |ds| == 0 then 0
    else
      assert IsDigit(ds[|ds| - 1]);
      DigitsValue(ds[..|ds| - 1]) * 10 + (ds[|ds| - 1] as int - '0' as int)
  }

  /**
   * Models `stream >> n` for an `int` n on the text `s`: leading whitespace
   * is skipped, an optional `+` or `-` is accepted, then the longest run of
   * decimal digits is consumed. No digit means failure. On success the value
   * and the unread remainder of the text are returned.
   */
  function ExtractInt(s: string): (r: Option<(int, string)>)
    ensures r.Some? ==> |r.value.1| < |s| && r.value.1 == s[|s| - |r.value.1|..]
    ensures r.Some? ==> r.value.1 == [] || !IsDigit(r.value.1[0])
    ensures r.None? <==>
      var b := SkipSpace(s, 0);
      var d := if b < |s| && (s[b] == '+' || s[b] == '-') then b + 1 else b;
      d == |s| || !IsDigit(s[d])
  {
    var b := SkipSpace(s, 0);
    var negative := b < |s| && s[b] == '-';
    var d := if b < |s| && (s[b] == '+' || s[b] == '-') then b + 1 else b;
    var e := DigitRun(s, d);
    if e == d then None
    else
      var magnitude: int := DigitsValue(s[d..e]);
      Some((if negative then -magnitude else magnitude, s[e..]))
  }

  /** `iss >> a >> b` on one line: the two leading integers, or failure. */
  function ExtractTwoInts(s: string): (r: Option<(int, int)>)
    ensures r.Some? <==> ExtractInt(s).Some? && ExtractInt(ExtractInt(s).value.1).Some?
    ensures r.Some? ==> r.value.0 == ExtractInt(s).value.0
    ensures r.Some? ==> r.value.1 == ExtractInt(ExtractInt(s).value.1).value.0
  {
    match ExtractInt(s)
    case None => None
    case Some((a, rest)) =>
      match ExtractInt(rest)
      case None => None
      case Some((b, _)) => Some((a, b))
  }

  function DigitChar(d: nat): (c: char)
    requires d < 10
    ensures IsDigit(c) && c as int - '0' as int == d
  {
    ('0' as int + d) as char
  }

  /** Decimal rendering of a non-negative integer without leading zeros,
      as `operator<<` and `std::to_string` produce it. */
  function NatToString(n: nat): (s: string)
    ensures 1 <= |s|
    ensures forall i :: 0 <= i < |s| ==> IsDigit(s[i])
    ensures DigitsValue(s) == n
    ensures s[0] == '0' ==> s == "0"
  {
    if n < 10 then [DigitChar(n)]
    else
      var s := NatToString(n / 10) + [DigitChar(n % 10)];
      assert s[..|s| - 1] == NatToString(n / 10);
      s
  }

  /** Whitespace skipping stops at the first non-space character. */
  lemma SkipSpaceEnd(s: string, p: nat)
    requires p < |s| && !IsSpace(s[p])
    requires forall i :: 0 <= i < p ==> IsSpace(s[i])
    ensures SkipSpace(s, 0) == p
  {
  }

  /** A digit run ends at the first non-digit character. */
  lemma DigitRunEnd(s: string, i: nat, j: nat)
    requires i <= j <= |s|
    requires forall k :: i <= k < j ==> IsDigit(s[k])
    requires j < |s| ==> !IsDigit(s[j])
    ensures DigitRun(s, i) == j
  {
  }

  /** An unsigned number after the leading whitespace is read as its digits' value. */
  lemma ExtractUnsigned(s: string, p: nat, e: nat)
    requires SkipSpace(s, 0) == p < e <= |s| && IsDigit(s[p])
    requires DigitRun(s, p) == e
    ensures ExtractInt(s) == Some((DigitsValue(s[p..e]), s[e..]))
  {
  }

  /** Reading back a rendered number: `ExtractInt` recovers `n` and stops
      exactly where the digits end, after any leading whitespace. */
  lemma ExtractIntOfNat(pad: string, n: nat, rest: string)
    requires AllSpace(pad)
    requires rest == [] || !IsDigit(rest[0])
    ensures ExtractInt(pad + (NatToString(n) + rest)) == Some((n, rest))
  {
    var ds := NatToString(n);
    var s := pad + (ds + rest);
    var p, e := |pad|, |pad| + |ds|;
    assert s[p] == ds[0];
    SkipSpaceEnd(s, p);
    assert forall k :: p <= k < e ==> s[k] == ds[k - p];
    assert e < |s| ==> s[e] == rest[0];
    DigitRunEnd(s, p, e);
    ExtractUnsigned(s, p, e);
    assert s[p..e] == ds;
    assert s[e..] == rest;
  }

  /**
   * A value reader in the shape of `stream >> v`: given the remaining text
   * of a line it returns the value and the unread remainder, or `None`.
   */
  type Extractor<!T> = string -> Option<(T, string)>

  /** `iss >> v[0] >> ... >> v[n-1]` on one line. */
  function ReadValues<T>(extract: Extractor<T>, line: string, n: nat): (r: Option<seq<T>>)
    ensures r.Some? ==> |r.value| == n
    ensures n == 0 ==> r == Some([])
    decreases n
  {
    if n == 0 then Some([])
    else
      match extract(line)
      case None => None
      case Some((v, rest)) =>
        match ReadValues(extract, rest, n - 1)
        case None => None
        case Some(vs) => Some([v] + vs)
  }

  /** Values are read in order: the first by one extraction from the line,
      the rest from where that extraction stopped. */
  lemma ReadValuesStep<T>(extract: Extractor<T>, line: string, n: nat)
    requires n > 0
    ensures ReadValues(extract, line, n).Some? <==>
      extract(line).Some? && ReadValues(extract, extract(line).value.1, n - 1).Some?
    ensures ReadValues(extract, line, n).Some? ==>
      ReadValues(extract, line, n).value == [extract(line).value.0] + ReadValues(extract, extract(line).value.1, n - 1).value
  {
  }
}
