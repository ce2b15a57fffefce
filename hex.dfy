/**
 * Byte strings as Rust's `&str` sees them, and the hexadecimal pieces of the core library
 * the colour parsers rely on: `str` slicing (which panics off a character boundary),
 * `trim_start_matches`, and `u8::from_str_radix(_, 16)`.
 */
module Hex {
  import opened Wrappers

  type Byte = b: int | 0 <= b < 256

  /** An sRGB colour built by `Color::srgb_u8(r, g, b)`. */
  datatype Rgb = Rgb(r: Byte, g: Byte, b: Byte)

  const Plus: Byte := '+' as int
  const Minus: Byte := '-' as int

  predicate IsHexDigit(b: Byte)
  {
    ('0' as int <= b <= '9' as int) || ('a' as int <= b <= 'f' as int) || ('A' as int <= b <= 'F' as int)
  }

  predicate AllHexDigits(s: seq<Byte>)
  {
    forall i :: 0 <= i < |s| ==> IsHexDigit(s[i])
  }

  function DigitValue(b: Byte): (v: nat)
    requires IsHexDigit(b)
    ensures v < 16
  {
    if b <= '9' as int then b - '0' as int
    else if b <= 'F' as int then b - 'A' as int + 10
    else b - 'a' as int + 10
  }

  /** The number a string of hex digits denotes, most significant digit first. */
  function DigitsValue(s: seq<Byte>): nat
    requires AllHexDigits(s)
  {
    if s == [] then 0 else DigitsValue(s[..|s| - 1]) * 16 + DigitValue(s[|s| - 1])
  }

  /**
   * `u8::from_str_radix(s, 16)`: empty input and a lone sign are errors, one leading `+`
   * is skipped, every remaining byte must be a hex digit, and the value must fit in a u8.
   */
  function ParseU8Hex(s: seq<Byte>): (r: Option<Byte>)
    ensures r.Some? ==> s != [] && s[0] != Minus && (AllHexDigits(s) || (s[0] == Plus && |s| > 1 && AllHexDigits(s[1..])))
    ensures s != [] && AllHexDigits(s) ==> (r.Some? <==> DigitsValue(s) < 256) && (r.Some? ==> r.value == DigitsValue(s))
  {
    if s == [] || s == [Plus] || s == [Minus] then None
    else
      var digits := if s[0] == Plus then s[1..] else s;
      if AllHexDigits(digits) && DigitsValue(digits) < 256 then Some(DigitsValue(digits)) else None
  }

  /** On a two-byte slice the parser accepts two hex digits, or `+` and one hex digit. */
  lemma ParsePair(a: Byte, b: Byte)
    ensures ParseU8Hex([a, b]).Some? <==> (IsHexDigit(a) || a == Plus) && IsHexDigit(b)
    ensures IsHexDigit(a) && IsHexDigit(b) ==> ParseU8Hex([a, b]) == Some(DigitValue(a) * 16 + DigitValue(b))
    ensures a == Plus && IsHexDigit(b) ==> ParseU8Hex([a, b]) == Some(DigitValue(b))
  {
    var s := [a, b];
    assert |s| == 2 && s != [] && s != [Plus] && s != [Minus];
    if a == Plus {
      var d := s[1..];
      assert d == [b];
      if IsHexDigit(b) {
        assert AllHexDigits(d);
        assert d[..|d| - 1] == [];
        assert DigitsValue(d) == DigitValue(b);
      } else {
        assert !IsHexDigit(d[0]);
      }
    } else if IsHexDigit(a) && IsHexDigit(b) {
      assert AllHexDigits(s);
      assert s[..1] == [a];
      assert [a][..0] == [];
      assert DigitsValue([a]) == DigitValue(a);
      assert DigitsValue(s) == DigitValue(a) * 16 + DigitValue(b);
    } else {
      assert !IsHexDigit(s[0]) || !IsHexDigit(s[1]);
      assert !AllHexDigits(s);
    }
  }

  /** The hex digit for a value below 16, lower or upper case. */
  function HexDigit(v: nat, upper: bool): (b: Byte)
    requires v < 16
    ensures IsHexDigit(b) && DigitValue(b) == v
  {
    if v < 10 then '0' as int + v
    else if upper then 'A' as int + (v - 10)
    else 'a' as int + (v - 10)
  }

  /** A byte as two hex digits (`format!("{:02x}")`, or `{:02X}` when upper). */
  function FormatByte(v: Byte, upper: bool): (s: seq<Byte>)
    ensures |s| == 2 && AllHexDigits(s)
  {
    [HexDigit(v / 16, upper), HexDigit(v % 16, upper)]
  }

  /** A colour as six hex digits, `rrggbb`. */
  function FormatRgb(c: Rgb, upper: bool): (s: seq<Byte>)
    ensures |s| == 6 && AllHexDigits(s)
  {
    FormatByte(c.r, upper) + FormatByte(c.g, upper) + FormatByte(c.b, upper)
  }

  /** Parsing a formatted byte gives the byte back. */
  lemma ParseFormatByte(v: Byte, upper: bool)
    ensures ParseU8Hex(FormatByte(v, upper)) == Some(v)
  {
    var s := FormatByte(v, upper);
    ParsePair(s[0], s[1]);
    assert s == [s[0], s[1]];
  }

  // ---- str slicing ----

  /** `str::is_char_boundary`: not inside a multi-byte UTF-8 sequence. */
  predicate IsCharBoundary(s: seq<Byte>, i: nat)
  {
    i == 0 || i == |s| || (i < |s| && (s[i] < 0x80 || s[i] >= 0xC0))
  }

  /** `&s[lo..hi]`, which panics out of range or off a character boundary. */
  function Slice(s: seq<Byte>, lo: nat, hi: nat): (r: Outcome<seq<Byte>>)
    ensures r.Returns? <==> lo <= hi <= |s| && IsCharBoundary(s, lo) && IsCharBoundary(s, hi)
    ensures r.Returns? ==> r.value == s[lo..hi]
  {
    if lo <= hi <= |s| && IsCharBoundary(s, lo) && IsCharBoundary(s, hi) then Returns(s[lo..hi]) else Panics
  }

  /** An ASCII-only string has a character boundary everywhere. */
  lemma AsciiBoundaries(s: seq<Byte>, i: nat)
    requires forall k :: 0 <= k < |s| ==> s[k] < 0x80
    requires i <= |s|
    ensures IsCharBoundary(s, i)
  {
  }

  /** `s.trim_start_matches(c)` for an ASCII `c`: every leading `c` removed. */
  function TrimStart(s: seq<Byte>, c: Byte): (r: seq<Byte>)
    ensures |r| <= |s| && forall i :: 0 <= i < |r| ==> r[i] == s[|s| - |r| + i]
    ensures r == [] || r[0] != c
    ensures forall i :: 0 <= i < |s| - |r| ==> s[i] == c
  {
    if s != [] && s[0] == c then TrimStart(s[1..], c) else s
  }
}
