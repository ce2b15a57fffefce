/**
 * The in-game HUD strings: lives and bombs drawn as rows of glyphs behind a margin of
 * the same width, and the power, graze and point counters written in decimal behind a
 * margin as wide as the number.
 */
module Hud {
  import opened Wrappers
  import opened Text

  /** `n.max(0) as usize`. */
  function NonNegative(n: int): (k: nat)
    ensures n >= 0 ==> k == n
    ensures n < 0 ==> k == 0
  {
    if n < 0 then 0 else n
  }

  const PlayerLabel: seq<char> := "Player: "
  const BombLabel: seq<char> := "Bomb: "
  const PowerLabel: seq<char> := "Power: "
  const GrazeLabel: seq<char> := "Graze: "
  const PointLabel: seq<char> := "Point: "

  /** `update_lives_text`: two spaces, a margin, the label, then one `@` per life. */
  function LivesText(lives: int): (s: seq<char>)
    ensures |s| == 2 + |PlayerLabel| + 2 * NonNegative(lives)
    ensures s[..2] == "  "
  {
    "  " + Repeat(" ", NonNegative(lives)) + PlayerLabel + Repeat("@", NonNegative(lives))
  }

  /** `update_bombs_text`: a margin, the label, then one `$` per bomb. */
  function BombsText(bombs: int): (s: seq<char>)
    ensures |s| == |BombLabel| + 2 * NonNegative(bombs)
  {
    Repeat(" ", NonNegative(bombs)) + BombLabel + Repeat("$", NonNegative(bombs))
  }

  /** `update_powers_text`, `update_graze_text`, `update_points_text`: the number in decimal. */
  function CounterText(name: seq<char>, n: int): (s: seq<char>)
    ensures |s| == 1 + |name| + 2 * |Decimal(n)|
    ensures s[0] == ' ' && s[|s| - |Decimal(n)|..] == Decimal(n)
  {
    " " + Repeat(" ", |Decimal(n)|) + name + Decimal(n)
  }

  lemma AllSpaces(k: nat, i: nat)
    requires i < k
    ensures Repeat(" ", k)[i] == ' '
  {
    RepeatAt(" ", k, i, 0);
  }

  /**
   * The lives text is the margin, the label and the glyphs, in that order; the margin
   * width and the number of `@` both equal `max(lives, 0)`.
   */
  lemma LivesTextShape(lives: int)
    ensures var k := NonNegative(lives);
            var s := LivesText(lives);
            && |s| == 2 + k + |PlayerLabel| + k
            && (forall i :: 0 <= i < 2 + k ==> s[i] == ' ')
            && s[2 + k .. 2 + k + |PlayerLabel|] == PlayerLabel
            && Count('@', s) == k
  {
    var k := NonNegative(lives);
    var margin := "  " + Repeat(" ", k);
    var s := LivesText(lives);
    assert s == margin + PlayerLabel + Repeat("@", k);
    forall i | 0 <= i < 2 + k
      ensures s[i] == ' '
    {
      if i >= 2 {
        AllSpaces(k, i - 2);
      }
    }
    assert s[2 + k .. 2 + k + |PlayerLabel|] == PlayerLabel;
    assert Count('@', margin) == 0 by {
      CountConcat('@', "  ", Repeat(" ", k));
      CountRepeat('@', ' ', k);
      CountAbsent('@', "  ");
    }
    assert Count('@', margin + PlayerLabel) == 0 by {
      CountConcat('@', margin, PlayerLabel);
      CountAbsent('@', PlayerLabel);
    }
    assert Count('@', s) == k by {
      CountConcat('@', margin + PlayerLabel, Repeat("@", k));
      CountRepeat('@', '@', k);
    }
  }

  /** No lives left (or a negative count) shows the label and no glyph at all. */
  lemma NoLivesNoGlyphs(lives: int)
    requires lives <= 0
    ensures LivesText(lives) == "  Player: "
  {
  }

  /** The bombs text: the margin width and the number of `$` both equal `max(bombs, 0)`. */
  lemma BombsTextShape(bombs: int)
    ensures var k := NonNegative(bombs);
            var s := BombsText(bombs);
            && |s| == k + |BombLabel| + k
            && (forall i :: 0 <= i < k ==> s[i] == ' ')
            && s[k .. k + |BombLabel|] == BombLabel
            && Count('$', s) == k
  {
    var k := NonNegative(bombs);
    var margin := Repeat(" ", k);
    var s := BombsText(bombs);
    assert s == margin + BombLabel + Repeat("$", k);
    forall i | 0 <= i < k
      ensures s[i] == ' '
    {
      AllSpaces(k, i);
    }
    assert s[k .. k + |BombLabel|] == BombLabel;
    assert Count('$', margin + BombLabel) == 0 by {
      CountConcat('$', margin, BombLabel);
      CountRepeat('$', ' ', k);
      CountAbsent('$', BombLabel);
    }
    assert Count('$', s) == k by {
      CountConcat('$', margin + BombLabel, Repeat("$", k));
      CountRepeat('$', '$', k);
    }
  }

  /**
   * A counter text ends with the number, which reads back as the counter's value, and its
   * margin is exactly as wide as the number.
   */
  lemma CounterTextShape(name: seq<char>, n: int)
    ensures var d := Decimal(n);
            var s := CounterText(name, n);
            && |s| == 1 + |d| + |name| + |d|
            && (forall i :: 0 <= i < 1 + |d| ==> s[i] == ' ')
            && s[1 + |d| .. 1 + |d| + |name|] == name
            && ParseDecimal(s[|s| - |d|..]) == Some(n)
  {
    var d := Decimal(n);
    var s := CounterText(name, n);
    forall i | 0 <= i < 1 + |d|
      ensures s[i] == ' '
    {
      if i >= 1 {
        AllSpaces(|d|, i - 1);
      }
    }
    assert s[1 + |d| .. 1 + |d| + |name|] == name;
    assert s[|s| - |d|..] == d;
    DecimalRoundTrip(n);
  }
}
