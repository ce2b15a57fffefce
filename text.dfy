/**
 * The string building blocks the game's text uses: `str::repeat`, counting a glyph,
 * `i32`'s decimal `Display`, and `str::lines().count()`.
 */
module Text {
  import opened Wrappers

  /** `s.repeat(n)`. */
  function Repeat<T>(s: seq<T>, n: nat): (r: seq<T>)
    ensures |r| == |s| * n
  {
    if n == 0 then [] else Repeat(s, n - 1) + s
  }

  /** Block `k` of `Repeat(s, n)` is a copy of `s`. */
  lemma {:induction false} RepeatAt<T>(s: seq<T>, n: nat, k: nat, j: nat)
    requires k < n && j < |s|
    ensures k * |s| + j < |Repeat(s, n)| && Repeat(s, n)[k * |s| + j] == s[j]
  {
    assert |Repeat(s, n - 1)| == |s| * (n - 1) == (n - 1) * |s|;
    if k < n - 1 {
      RepeatAt(s, n - 1, k, j);
      assert k * |s| + j < (n - 1) * |s| by {
        assert k * |s| + |s| == (k + 1) * |s| <= (n - 1) * |s|;
      }
    } else {
      assert k * |s| == (n - 1) * |s|;
    }
  }

  /** The number of times `c` occurs in `s`. */
  function Count<T(==)>(c: T, s: seq<T>): (k: nat)
    ensures k <= |s|
  {
    if s == [] then 0 else Count(c, s[..|s| - 1]) + (if s[|s| - 1] == c then 1 else 0)
  }

  lemma {:induction false} CountConcat<T>(c: T, a: seq<T>, b: seq<T>)
    ensures Count(c, a + b) == Count(c, a) + Count(c, b)
  {
    if b != [] {
      assert (a + b)[..|a + b| - 1] == a + b[..|b| - 1];
      CountConcat(c, a, b[..|b| - 1]);
    } else {
      assert a + b == a;
    }
  }

  /** A glyph that does not occur is counted zero times. */
  lemma {:induction false} CountAbsent<T>(c: T, s: seq<T>)
    requires c !in s
    ensures Count(c, s) == 0
  {
    if s != [] {
      assert forall x :: x in s[..|s| - 1] ==> x in s;
      CountAbsent(c, s[..|s| - 1]);
    }
  }

  /** Repeating a single glyph `n` times yields exactly `n` of it and nothing else. */
  lemma {:induction false} CountRepeat<T>(c: T, d: T, n: nat)
    ensures Count(c, Repeat([d], n)) == if c == d then n else 0
  {
    if n > 0 {
      CountRepeat(c, d, n - 1);
      var r := Repeat([d], n);
      assert r[..|r| - 1] == Repeat([d], n - 1);
      assert r[|r| - 1] == d;
    }
  }

  /** Repeating a two-glyph row `[x, c]` with `x != c` yields exactly one `c` per row. */
  lemma {:induction false} CountRepeatRow<T>(c: T, x: T, n: nat)
    requires x != c
    ensures Count(c, Repeat([x, c], n)) == n
  {
    if n > 0 {
      CountRepeatRow(c, x, n - 1);
      CountConcat(c, Repeat([x, c], n - 1), [x, c]);
      assert [x, c][..1] == [x];
      assert [x][..0] == [];
    }
  }

  // ---- decimal ----

  predicate IsDigit(c: char) { '0' <= c <= '9' }

  function DigitOf(c: char): (d: nat)
    requires IsDigit(c)
    ensures d < 10
  {
    c as int - '0' as int
  }

  function DigitChar(d: nat): (c: char)
    requires d < 10
    ensures IsDigit(c)
  {
    ('0' as int + d) as char
  }

  /** The decimal digits of a natural number, without leading zeros. */
  function Digits(n: nat): (s: seq<char>)
    ensures 1 <= |s|
    ensures forall i :: 0 <= i < |s| ==> IsDigit(s[i])
    decreases n
  {
    if n < 10 then [DigitChar(n)] else Digits(n / 10) + [DigitChar(n % 10)]
  }

  /** `i32`'s `to_string()`: a `-` for negatives, then the digits of the magnitude. */
  function Decimal(n: int): (s: seq<char>)
    ensures 1 <= |s|
    ensures s[0] == '-' <==> n < 0
    ensures forall i :: 1 <= i < |s| ==> IsDigit(s[i])
  {
    if n < 0 then ['-'] + Digits(-n) else Digits(n)
  }

  /** The value of a string of decimal digits. */
  function DigitsValue(s: seq<char>): nat
    requires forall i :: 0 <= i < |s| ==> IsDigit(s[i])
  {
    if s == [] then 0 else DigitsValue(s[..|s| - 1]) * 10 + DigitOf(s[|s| - 1])
  }

  /** Reading an optionally negative decimal back. */
  function ParseDecimal(s: seq<char>): (r: Option<int>)
  {
    if s != [] && s[0] == '-' && |s| > 1 && (forall i :: 1 <= i < |s| ==> IsDigit(s[i])) then
      var v: int := 0 - DigitsValue(s[1..]) as int;
      Some(v)
    else if s != [] && (forall i :: 0 <= i < |s| ==> IsDigit(s[i])) then
      Some(DigitsValue(s))
    else None
  }

  lemma {:induction false} DigitsRoundTrip(n: nat)
    ensures DigitsValue(Digits(n)) == n
    decreases n
  {
    if n >= 10 {
      DigitsRoundTrip(n / 10);
      var s := Digits(n);
      assert s[..|s| - 1] == Digits(n / 10);
    }
  }

  /** The decimal text of any i32 reads back as the same number. */
  lemma DecimalRoundTrip(n: int)
    ensures ParseDecimal(Decimal(n)) == Some(n)
  {
    var s := Decimal(n);
    if n < 0 {
      DigitsRoundTrip(-n);
      assert s[1..] == Digits(-n);
      assert s[0] == '-' && |s| > 1;
    } else {
      DigitsRoundTrip(n);
      assert s == Digits(n) && IsDigit(s[0]);
    }
  }

  // ---- lines ----

  /** `s.lines().count()`: lines end at `\n`, and a final `\n` does not start a new line. */
  function LineCount(s: seq<char>): (r: nat)
    ensures r <= |s|
    ensures r == 0 <==> s == []
  {
    if s == [] then 0 else Count('\n', s) + (if s[|s| - 1] != '\n' then 1 else 0)
  }
}
