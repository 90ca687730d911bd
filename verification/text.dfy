/** Character and string helpers shared by the codec, the importer and the
    colour parser: .NET's notion of white space, trimming, splitting on one
    character, and decimal / hexadecimal digits. */
module Text {

  /** `char.IsWhiteSpace`: the Unicode separators (Zs, Zl, Zp) together with
      the control characters U+0009 to U+000D and U+0085. */
  predicate IsWhiteSpace(c: char) {
    || c == ' ' || ('\t' <= c <= '\r') || c == '\U{0085}' || c == '\U{00A0}'
    || c == '\U{1680}' || ('\U{2000}' <= c <= '\U{200A}') || c == '\U{2028}'
    || c == '\U{2029}' || c == '\U{202F}' || c == '\U{205F}' || c == '\U{3000}'
  }

  /** `string.IsNullOrWhiteSpace` for a non-null string. */
  predicate IsBlank(s: string) {
    forall i :: 0 <= i < |s| ==> IsWhiteSpace(s[i])
  }

  /** Number of occurrences of `c` in `s`. */
  function CountChar(s: string, c: char): nat {
    if |s| == 0 then 0 else (if s[0] == c then 1 else 0) + CountChar(s[1..], c)
  }

  /** Where the text of `s` starts when leading white space from position
      `i` on is skipped, as `TrimStart` does. */
  function StartOfText(s: string, i: nat): (a: nat)
    requires i <= |s|
    ensures i <= a <= |s|
    ensures forall k :: i <= k < a ==> IsWhiteSpace(s[k])
    ensures a < |s| ==> !IsWhiteSpace(s[a])
    decreases |s| - i
  {
    if i < |s| && IsWhiteSpace(s[i]) then StartOfText(s, i + 1) else i
  }

  /** Where the text of `s[lo..e]` ends when trailing white space is
      dropped, as `TrimEnd` does. */
  function EndOfText(s: string, lo: nat, e: nat): (end: nat)
    requires lo <= e <= |s|
    ensures lo <= end <= e
    ensures forall k :: end <= k < e ==> IsWhiteSpace(s[k])
    ensures end > lo ==> !IsWhiteSpace(s[end - 1])
  {
    if e > lo && IsWhiteSpace(s[e - 1]) then EndOfText(s, lo, e - 1) else e
  }

  /** `s.Trim()`: the longest slice of `s` that neither starts nor ends with
      white space, everything cut off being white space. */
  function Trim(s: string): (r: string)
    ensures exists i :: TrimmedAt(s, r, i)
    ensures |r| > 0 ==> !IsWhiteSpace(r[0]) && !IsWhiteSpace(r[|r| - 1])
    ensures |r| == 0 <==> IsBlank(s)
  {
    var a := StartOfText(s, 0);
    var e := EndOfText(s, a, |s|);
    assert TrimmedAt(s, s[a..e], a);
    s[a..e]
  }

  /** `r` is the slice of `s` starting at `i`, and everything of `s` outside
      that slice is white space. */
  ghost predicate TrimmedAt(s: string, r: string, i: int) {
    && 0 <= i <= |s| - |r| && r == s[i..i + |r|]
    && (forall k :: 0 <= k < i ==> IsWhiteSpace(s[k]))
    && (forall k :: i + |r| <= k < |s| ==> IsWhiteSpace(s[k]))
  }

  /** `s.TrimStart(c)`: drops every leading occurrence of `c`. */
  function TrimStartChar(s: string, c: char): (r: string)
    ensures |r| <= |s| && r == s[|s| - |r|..]
    ensures forall i :: 0 <= i < |s| - |r| ==> s[i] == c
    ensures |r| > 0 ==> r[0] != c
  {
    if |s| > 0 && s[0] == c then TrimStartChar(s[1..], c) else s
  }

  /** `s.IndexOf(c)`: the first position of `c`, or -1 when it is absent. */
  function IndexOf(s: string, c: char): (r: int)
    ensures -1 <= r < |s|
    ensures r == -1 <==> c !in s
    ensures r >= 0 ==> s[r] == c && c !in s[..r]
  {
    if |s| == 0 then -1
    else if s[0] == c then 0
    else
      var k := IndexOf(s[1..], c);
      if k == -1 then -1
      else
        assert s[..k + 1] == [s[0]] + s[1..][..k];
        k + 1
  }

  /** `s.Split(d)`: the pieces between occurrences of `d`, always at least one. */
  function Split(s: string, d: char): (r: seq<string>)
    ensures |r| == CountChar(s, d) + 1
    ensures forall i :: 0 <= i < |r| ==> d !in r[i]
  {
    if |s| == 0 then [""]
    else
      var rest := Split(s[1..], d);
      if s[0] == d then [""] + rest
      else [[s[0]] + rest[0]] + rest[1..]
  }

  /** The inverse of `Split`: the pieces glued back with `d` between them. */
  function Join(pieces: seq<string>, d: char): string
    requires |pieces| > 0
  {
    if |pieces| == 1 then pieces[0] else pieces[0] + [d] + Join(pieces[1..], d)
  }

  /** The second piece starts right after the first piece and its delimiter. */
  lemma JoinSecond(pieces: seq<string>, d: char)
    requires |pieces| >= 2 && |pieces[1]| > 0
    ensures |Join(pieces, d)| > |pieces[0]| + 1
    ensures Join(pieces, d)[|pieces[0]| + 1] == pieces[1][0]
  {
    var rest := Join(pieces[1..], d);
    assert |pieces[1..]| == 1 ==> rest == pieces[1];
    assert |pieces[1..]| > 1 ==> rest == pieces[1] + [d] + Join(pieces[2..], d);
  }

  lemma {:induction false} JoinSplit(s: string, d: char)
    ensures Join(Split(s, d), d) == s
  {
    if |s| > 0 {
      JoinSplit(s[1..], d);
      var rest := Split(s[1..], d);
      if s[0] != d {
        var r := Split(s, d);
        if |rest| == 1 {
          assert r == [[s[0]] + rest[0]];
        } else {
          assert r[1..] == rest[1..];
          assert Join(r, d) == [s[0]] + rest[0] + [d] + Join(rest[1..], d);
        }
      }
    }
  }

  // ---- decimal digits ----

  predicate IsDigit(c: char) { '0' <= c <= '9' }

  function DigitChar(v: int): (c: char)
    requires 0 <= v < 10
    ensures IsDigit(c) && c as int - '0' as int == v
  {
    (v + '0' as int) as char
  }

  function DigitValue(c: char): (v: int)
    requires IsDigit(c)
    ensures 0 <= v < 10 && DigitChar(v) == c
  {
    c as int - '0' as int
  }

  predicate AllDigits(s: string) {
    forall i :: 0 <= i < |s| ==> IsDigit(s[i])
  }

  /** The value of a string of decimal digits, most significant first. */
  function DigitsValue(s: string): (v: nat)
    requires AllDigits(s)
  {
    if |s| == 0 then 0 else DigitsValue(s[..|s| - 1]) * 10 + DigitValue(s[|s| - 1])
  }

  /** `n` in decimal, without leading zeros (`"0"` for zero). */
  function Decimal(n: nat): (s: string)
    ensures |s| > 0 && AllDigits(s)
    ensures DigitsValue(s) == n
    ensures |s| > 1 ==> s[0] != '0'
  {
    if n < 10 then [DigitChar(n)]
    else
      var p := Decimal(n / 10);
      var s := p + [DigitChar(n % 10)];
      assert s[..|s| - 1] == p;
      s
  }

  lemma DigitsValueAppend(a: string, c: char)
    requires AllDigits(a) && IsDigit(c)
    ensures AllDigits(a + [c]) && DigitsValue(a + [c]) == 10 * DigitsValue(a) + DigitValue(c)
  {
    assert (a + [c])[..|a|] == a;
  }

  lemma DigitsValueAppend2(a: string, b: string)
    requires AllDigits(a) && AllDigits(b) && |b| == 2
    ensures AllDigits(a + b) && DigitsValue(a + b) == 100 * DigitsValue(a) + DigitsValue(b)
  {
    DigitsValueAppend(a, b[0]);
    DigitsValueAppend(a + [b[0]], b[1]);
    assert a + b == a + [b[0]] + [b[1]];
    DigitsValueAppend([], b[0]);
    assert [b[0]] == [] + [b[0]];
    DigitsValueAppend([b[0]], b[1]);
    assert b == [b[0]] + [b[1]];
  }

  /** Digit strings of one length are equal when their values are: the
      value determines every digit, leading zeros included. */
  lemma {:induction false} DigitsUnique(a: string, b: string)
    requires AllDigits(a) && AllDigits(b) && |a| == |b|
    requires DigitsValue(a) == DigitsValue(b)
    ensures a == b
  {
    if |a| > 0 {
      var n := |a| - 1;
      assert DigitValue(a[n]) == DigitsValue(a) % 10 == DigitValue(b[n]);
      assert DigitsValue(a[..n]) == DigitsValue(a) / 10 == DigitsValue(b[..n]);
      DigitsUnique(a[..n], b[..n]);
      assert a == a[..n] + [a[n]] && b == b[..n] + [b[n]];
    }
  }

  /** `n` as exactly two decimal digits (the `D2`, `HH`, `mm`, `ss` formats). */
  function TwoDigits(n: int): (s: string)
    requires 0 <= n < 100
    ensures |s| == 2 && AllDigits(s)
    ensures DigitsValue(s) == n
  {
    var c0, c1 := DigitChar(n / 10), DigitChar(n % 10);
    DigitsValueAppend([], c0);
    assert [] + [c0] == [c0];
    DigitsValueAppend([c0], c1);
    [c0] + [c1]
  }

  /** `n` as exactly four decimal digits (the `yyyy` format). */
  function FourDigits(n: int): (s: string)
    requires 0 <= n < 10000
    ensures |s| == 4 && AllDigits(s)
    ensures DigitsValue(s) == n
  {
    var hi, lo := TwoDigits(n / 100), TwoDigits(n % 100);
    DigitsValueAppend2(hi, lo);
    hi + lo
  }

  // ---- hexadecimal digits ----

  predicate IsHexDigit(c: char) {
    ('0' <= c <= '9') || ('a' <= c <= 'f') || ('A' <= c <= 'F')
  }

  function HexDigitValue(c: char): (v: int)
    requires IsHexDigit(c)
    ensures 0 <= v < 16
  {
    if '0' <= c <= '9' then c as int - '0' as int
    else if 'a' <= c <= 'f' then c as int - 'a' as int + 10
    else c as int - 'A' as int + 10
  }

  /** The upper-case digit the `X` format prints for `v`. */
  function UpperHexChar(v: int): (c: char)
    requires 0 <= v < 16
    ensures IsHexDigit(c) && HexDigitValue(c) == v
    ensures !('a' <= c <= 'f')
  {
    if v < 10 then (v + '0' as int) as char else (v - 10 + 'A' as int) as char
  }
}
