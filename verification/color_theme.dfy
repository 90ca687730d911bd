/** Colours of ColorTheme.cs: the `#RRGGBB` codec used for custom colours,
    whose byte parser follows `byte.TryParse` with `NumberStyles.HexNumber`,
    and the byte clamp of the custom-theme builder. */
module ColorThemes {
  import opened Options
  import opened Text

  type Byte = b: int | 0 <= b < 256

  /** A WPF `Color`: alpha, red, green, blue. */
  datatype Color = Color(a: Byte, r: Byte, g: Byte, b: Byte)

  /** `Color.FromRgb`: fully opaque. */
  function FromRgb(r: Byte, g: Byte, b: Byte): Color {
    Color(255, r, g, b)
  }

  /** What `ParseHex` returns for text it cannot read. */
  const Fallback := Color(255, 0x1E, 0x1E, 0x1E)

  // ---- byte.TryParse(s, NumberStyles.HexNumber) ----

  /** The white space number parsing skips: U+0009 to U+000D and the space. */
  predicate IsNumberWhite(c: char) {
    c == ' ' || ('\t' <= c <= '\r')
  }

  /** The first position from `i` on that is not number white space. */
  function SkipWhite(s: string, i: nat): (a: nat)
    requires i <= |s|
    ensures i <= a <= |s|
    ensures forall k :: i <= k < a ==> IsNumberWhite(s[k])
    ensures a < |s| ==> !IsNumberWhite(s[a])
    decreases |s| - i
  {
    if i < |s| && IsNumberWhite(s[i]) then SkipWhite(s, i + 1) else i
  }

  /** The end of the run of hexadecimal digits starting at position `i`. */
  function HexEnd(s: string, i: nat): (e: nat)
    requires i <= |s|
    ensures i <= e <= |s|
    ensures forall k :: i <= k < e ==> IsHexDigit(s[k])
    ensures e < |s| ==> !IsHexDigit(s[e])
    decreases |s| - i
  {
    if i < |s| && IsHexDigit(s[i]) then HexEnd(s, i + 1) else i
  }

  predicate AllHex(s: string) {
    forall i :: 0 <= i < |s| ==> IsHexDigit(s[i])
  }

  /** The value of a string of hexadecimal digits, most significant first. */
  function HexValue(s: string): nat
    requires AllHex(s)
  {
    if |s| == 0 then 0 else HexValue(s[..|s| - 1]) * 16 + HexDigitValue(s[|s| - 1])
  }

  /** Everything from position `i` on is a NUL character, which .NET number
      parsing ignores at the end of its input. */
  predicate NulsFrom(s: string, i: nat) {
    forall k :: i <= k < |s| ==> s[k] == '\0'
  }

  /** `byte.TryParse(s, NumberStyles.HexNumber, null, out b)`: optional white
      space, at least one hexadecimal digit of either case, optional white
      space, optional NUL characters, and a value that fits a byte. */
  function TryParseHexByte(s: string): Option<Byte> {
    var a := SkipWhite(s, 0);
    var e := HexEnd(s, a);
    if e == a then None
    else
      assert AllHex(s[a..e]);
      var v := HexValue(s[a..e]);
      if v <= 255 && NulsFrom(s, SkipWhite(s, e)) then Some(v) else None
  }

  // ---- ParseHex, IsValidHex, ToHex ----

  /** `ParseHex`: leading `#`s dropped, then exactly six characters read as
      three bytes; anything else gives `Fallback`. */
  function ParseHex(hex: string): (c: Color)
    ensures c.a == 255
  {
    var h := TrimStartChar(hex, '#');
    if |h| == 6 then
      match (TryParseHexByte(h[..2]), TryParseHexByte(h[2..4]), TryParseHexByte(h[4..6]))
      case (Some(r), Some(g), Some(b)) => FromRgb(r, g, b)
      case _ => Fallback
    else Fallback
  }

  /** `IsValidHex`: the same checks as `ParseHex`, as a test. */
  predicate IsValidHex(hex: string) {
    var h := TrimStartChar(hex, '#');
    && |h| == 6
    && TryParseHexByte(h[..2]).Some?
    && TryParseHexByte(h[2..4]).Some?
    && TryParseHexByte(h[4..6]).Some?
  }

  /** A byte in the `X2` format: two upper-case hexadecimal digits. */
  function Hex2(v: Byte): (s: string)
    ensures |s| == 2 && AllHex(s) && HexValue(s) == v
  {
    var s := [UpperHexChar(v / 16), UpperHexChar(v % 16)];
    HexPair(s);
    s
  }

  /** The value of two hexadecimal digits. */
  lemma HexPair(s: string)
    requires |s| == 2 && AllHex(s)
    ensures HexValue(s) == 16 * HexDigitValue(s[0]) + HexDigitValue(s[1])
  {
    var p := s[..1];
    assert p == [s[0]] && p[..0] == [] && s[..|s| - 1] == p;
    assert AllHex(p) && AllHex(p[..0]);
    assert HexValue(p) == HexDigitValue(s[0]);
  }

  /** `ToHex`: `#RRGGBB`; the alpha channel is not written. */
  function ToHex(c: Color): (s: string)
    ensures |s| == 7 && s[0] == '#'
  {
    "#" + Hex2(c.r) + Hex2(c.g) + Hex2(c.b)
  }

  lemma ParseHex2(v: Byte)
    ensures TryParseHexByte(Hex2(v)) == Some(v)
  {
    ParseAllHex(Hex2(v));
  }

  /** A run of digits alone reads as its value when that fits a byte. */
  lemma ParseAllHex(s: string)
    requires |s| > 0 && AllHex(s) && HexValue(s) <= 255
    ensures TryParseHexByte(s) == Some(HexValue(s))
  {
    assert SkipWhite(s, 0) == 0;
    HexEndAll(s, 0);
    assert s[0..|s|] == s;
  }

  lemma {:induction false} HexEndAll(s: string, i: nat)
    requires i <= |s| && AllHex(s)
    ensures HexEnd(s, i) == |s|
    decreases |s| - i
  {
    if i < |s| {
      HexEndAll(s, i + 1);
    }
  }

  /** Writing a colour and reading it back gives the colour made opaque. */
  lemma ParseToHex(c: Color)
    ensures ParseHex(ToHex(c)) == FromRgb(c.r, c.g, c.b)
    ensures c.a == 255 ==> ParseHex(ToHex(c)) == c
    ensures IsValidHex(ToHex(c))
  {
    var x, y, z := Hex2(c.r), Hex2(c.g), Hex2(c.b);
    var h := x + y + z;
    assert TrimStartChar(ToHex(c), '#') == h by {
      assert ToHex(c) == "#" + h && h[0] != '#';
      assert ("#" + h)[1..] == h;
    }
    SixSlices(x, y, z);
    ParseHex2(c.r);
    ParseHex2(c.g);
    ParseHex2(c.b);
  }

  lemma SixSlices(x: string, y: string, z: string)
    requires |x| == 2 && |y| == 2 && |z| == 2
    ensures (x + y + z)[..2] == x && (x + y + z)[2..4] == y && (x + y + z)[4..6] == z
  {
  }

  /** `IsValidHex` and `ParseHex` make the same checks: a rejected text
      falls back, and an accepted one, padded slices included, reads as the
      three bytes its slices parse to, an opaque colour that `ToHex` writes in
      a form both accept again. */
  lemma ValidHexAgrees(hex: string)
    ensures !IsValidHex(hex) ==> ParseHex(hex) == Fallback
    ensures IsValidHex(hex) ==>
      var h := TrimStartChar(hex, '#');
      ParseHex(hex) == FromRgb(TryParseHexByte(h[..2]).value, TryParseHexByte(h[2..4]).value,
                               TryParseHexByte(h[4..6]).value)
    ensures IsValidHex(hex) ==> ParseHex(ToHex(ParseHex(hex))) == ParseHex(hex)
  {
    ParseToHex(ParseHex(hex));
  }

  // ---- digit strings ----

  /** `c` with `a`-`f` made upper case. */
  function UpperHex(c: char): char {
    if 'a' <= c <= 'f' then (c as int - 32) as char else c
  }

  function UpperCase(s: string): (r: string)
    ensures |r| == |s| && forall i {:trigger r[i]} :: 0 <= i < |s| ==> r[i] == UpperHex(s[i])
  {
    seq(|s|, i requires 0 <= i < |s| => UpperHex(s[i]))
  }

  lemma UpperHexDigit(c: char)
    requires IsHexDigit(c)
    ensures UpperHexChar(HexDigitValue(c)) == UpperHex(c)
  {
    var u := UpperHexChar(HexDigitValue(c));
    assert HexDigitValue(u) == HexDigitValue(UpperHex(c));
  }

  /** Two hexadecimal digits read as the byte they spell, which `Hex2`
      writes back as the same digits in upper case. */
  lemma DigitPair(s: string)
    requires |s| == 2 && AllHex(s)
    ensures HexValue(s) < 256
    ensures TryParseHexByte(s) == Some(HexValue(s))
    ensures Hex2(HexValue(s)) == UpperCase(s)
  {
    DigitPairParses(s);
    DigitPairPrints(s);
  }

  lemma DigitPairParses(s: string)
    requires |s| == 2 && AllHex(s)
    ensures HexValue(s) < 256 && TryParseHexByte(s) == Some(HexValue(s))
  {
    HexPair(s);
    ParseAllHex(s);
  }

  lemma DigitPairPrints(s: string)
    requires |s| == 2 && AllHex(s)
    ensures HexValue(s) < 256 && Hex2(HexValue(s)) == UpperCase(s)
  {
    PrintPair(s);
    UpperCasePair(s);
  }

  lemma UpperCasePair(s: string)
    requires |s| == 2
    ensures UpperCase(s) == [UpperHex(s[0]), UpperHex(s[1])]
  {
    var u := UpperCase(s);
    assert u == [u[0], u[1]];
  }

  lemma PrintPair(s: string)
    requires |s| == 2 && AllHex(s)
    ensures HexValue(s) < 256 && Hex2(HexValue(s)) == [UpperHex(s[0]), UpperHex(s[1])]
  {
    var hi, lo := HexDigitValue(s[0]), HexDigitValue(s[1]);
    var v := HexValue(s);
    assert v == 16 * hi + lo by { HexPair(s); }
    assert v / 16 == hi && v % 16 == lo by { DivMod16(hi, lo); }
    assert Hex2(v) == [UpperHexChar(hi), UpperHexChar(lo)];
    UpperHexDigit(s[0]);
    UpperHexDigit(s[1]);
  }

  lemma DivMod16(hi: int, lo: int)
    requires 0 <= hi < 16 && 0 <= lo < 16
    ensures (16 * hi + lo) / 16 == hi && (16 * hi + lo) % 16 == lo
  {
  }

  lemma UpperCaseAppend(a: string, b: string)
    ensures UpperCase(a + b) == UpperCase(a) + UpperCase(b)
  {
    assert forall i | 0 <= i < |a + b| :: UpperCase(a + b)[i] == (UpperCase(a) + UpperCase(b))[i];
  }

  /** Six hexadecimal digits, with or without `#`, are valid, and both
      forms read as the colour the three digit pairs spell. */
  lemma HexDigitsValid(digits: string)
    requires |digits| == 6 && AllHex(digits)
    ensures IsValidHex(digits) && IsValidHex("#" + digits)
    ensures ParseHex("#" + digits) == ParseHex(digits)
    ensures HexValue(digits[..2]) < 256 && HexValue(digits[2..4]) < 256 && HexValue(digits[4..6]) < 256
    ensures ParseHex(digits) == FromRgb(HexValue(digits[..2]), HexValue(digits[2..4]), HexValue(digits[4..6]))
  {
    assert TrimStartChar("#" + digits, '#') == digits by {
      assert ("#" + digits)[1..] == digits;
    }
    ParseSixDigits(digits);
  }

  /** The colour six hexadecimal digits spell. */
  lemma ParseSixDigits(digits: string)
    requires |digits| == 6 && AllHex(digits)
    ensures TrimStartChar(digits, '#') == digits
    ensures HexValue(digits[..2]) < 256 && HexValue(digits[2..4]) < 256 && HexValue(digits[4..6]) < 256
    ensures TryParseHexByte(digits[..2]) == Some(HexValue(digits[..2]))
    ensures TryParseHexByte(digits[2..4]) == Some(HexValue(digits[2..4]))
    ensures TryParseHexByte(digits[4..6]) == Some(HexValue(digits[4..6]))
    ensures ParseHex(digits) == FromRgb(HexValue(digits[..2]), HexValue(digits[2..4]), HexValue(digits[4..6]))
  {
    assert TrimStartChar(digits, '#') == digits;
    SixDigitPairs(digits);
    DigitPairParses(digits[..2]);
    DigitPairParses(digits[2..4]);
    DigitPairParses(digits[4..6]);
  }

  lemma SixDigitPairs(digits: string)
    requires |digits| == 6 && AllHex(digits)
    ensures AllHex(digits[..2]) && AllHex(digits[2..4]) && AllHex(digits[4..6])
    ensures digits == digits[..2] + digits[2..4] + digits[4..6]
  {
  }

  /** Six hexadecimal digits read as a colour that `ToHex` writes back as
      the same digits, upper-cased, after a `#`. */
  lemma HexDigitsRoundTrip(digits: string)
    requires |digits| == 6 && AllHex(digits)
    ensures ToHex(ParseHex(digits)) == "#" + UpperCase(digits)
  {
    var p, q, r := digits[..2], digits[2..4], digits[4..6];
    var c := ParseHex(digits);
    assert AllHex(p) && AllHex(q) && AllHex(r) by { SixDigitPairs(digits); }
    assert c == FromRgb(HexValue(p), HexValue(q), HexValue(r)) by { ParseSixDigits(digits); }
    assert Hex2(c.r) == UpperCase(p) by { DigitPairPrints(p); }
    assert Hex2(c.g) == UpperCase(q) by { DigitPairPrints(q); }
    assert Hex2(c.b) == UpperCase(r) by { DigitPairPrints(r); }
    assert UpperCase(digits) == UpperCase(p) + UpperCase(q) + UpperCase(r) by {
      SixDigitPairs(digits);
      UpperCaseAppend(p + q, r);
      UpperCaseAppend(p, q);
    }
    ToHexSpells(c, UpperCase(p), UpperCase(q), UpperCase(r));
  }

  lemma ToHexSpells(c: Color, x: string, y: string, z: string)
    requires Hex2(c.r) == x && Hex2(c.g) == y && Hex2(c.b) == z
    ensures ToHex(c) == "#" + (x + y + z)
  {
    assert "#" + x + y + z == "#" + (x + y + z);
  }

  /** Each two-character slice may pad a single digit with white space on
      either side or with a trailing NUL; two blanks are rejected. */
  lemma SlicePadding(c: char, w: char)
    requires IsHexDigit(c) && IsNumberWhite(w)
    ensures TryParseHexByte([w, c]) == Some(HexDigitValue(c))
    ensures TryParseHexByte([c, w]) == Some(HexDigitValue(c))
    ensures TryParseHexByte([c, '\0']) == Some(HexDigitValue(c))
    ensures TryParseHexByte([w, w]) == None
  {
    OneDigit(c);
    assert TryParseHexByte([w, c]) == Some(HexDigitValue(c)) by {
      var s := [w, c];
      assert SkipWhite(s, 0) == 1 && HexEnd(s, 1) == 2 && SkipWhite(s, 2) == 2;
      assert s[1..2] == [c];
    }
    assert TryParseHexByte([c, w]) == Some(HexDigitValue(c)) by {
      var s := [c, w];
      assert SkipWhite(s, 0) == 0 && HexEnd(s, 0) == 1 && SkipWhite(s, 1) == 2;
      assert s[0..1] == [c];
    }
    assert TryParseHexByte([c, '\0']) == Some(HexDigitValue(c)) by {
      var s := [c, '\0'];
      assert SkipWhite(s, 0) == 0 && HexEnd(s, 0) == 1 && SkipWhite(s, 1) == 1;
      assert s[0..1] == [c];
    }
    assert SkipWhite([w, w], 0) == 2;
  }

  /** A single digit has the digit's value. */
  lemma OneDigit(c: char)
    requires IsHexDigit(c)
    ensures AllHex([c]) && HexValue([c]) == HexDigitValue(c)
  {
    assert [c][..0] == [];
  }

  // ---- ClampByte ----

  /** `(byte)Math.Clamp(v, 0, 255)`. */
  function ClampByte(v: int): (b: Byte)
    ensures 0 <= v <= 255 ==> b == v
    ensures v < 0 ==> b == 0
    ensures v > 255 ==> b == 255
  {
    if v < 0 then 0 else if v > 255 then 255 else v
  }

  /** Clamping keeps order and a clamped value clamps to itself. */
  lemma ClampMonotone(v: int, w: int)
    requires v <= w
    ensures ClampByte(v) <= ClampByte(w)
    ensures ClampByte(ClampByte(v)) == ClampByte(v)
  {
  }
}
