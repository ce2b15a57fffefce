/**
 * The laser bullet: a column of `!` rows that is first only a warning (the telegraph,
 * during which it collides with nothing), then becomes solid from the top down as `V`
 * rows, and finally blanks out from the top before it is despawned.
 *
 * Times are in milliseconds. The row counts the source computes with `f32` progress
 * fractions and `ceil` are computed here exactly, by rounding up integer fractions.
 */
module Laser {
  import opened Wrappers
  import opened Text
  import opened Timers
  import opened Targets
  import opened Arith

  const TelegraphMs: nat := 3000
  const DurationMs: nat := 2000
  const AnimationMs: nat := 200
  /** The rows start to blank out at 85% of the duration ... */
  const DecayStartMs: nat := 1700
  /** ... and are all blank at its end, 15% later. */
  const DecaySpanMs: nat := 300
  /** `(1600 / 30 / 1.2).floor()`: the laser's length over its row height. */
  const LaserRows: nat := 44

  /** `ceil(total * clamp(animation progress, 0, 1))`: the rows turned solid so far. */
  function RowsToReplace(total: nat, animationElapsed: nat): (r: nat)
    ensures r <= total
    ensures animationElapsed == 0 ==> r == 0
    ensures animationElapsed > 0 && total > 0 ==> r >= 1
    ensures animationElapsed >= AnimationMs ==> r == total
  {
    var m := Min(animationElapsed, AnimationMs);
    MulMonotone(m, AnimationMs, total);
    CeilDivBounds(total * m, AnimationMs, total);
    CeilDiv(total * m, AnimationMs)
  }

  /** `ceil(total * max(duration progress - 0.85, 0) / 0.15)`: the rows blanked out so far. */
  function RowsDecaying(total: nat, durationElapsed: nat): (r: nat)
    ensures durationElapsed <= DurationMs ==> r <= total
    ensures durationElapsed <= DecayStartMs ==> r == 0
    ensures durationElapsed == DurationMs ==> r == total
  {
    var over := if durationElapsed > DecayStartMs then durationElapsed - DecayStartMs else 0;
    if durationElapsed <= DurationMs then
      MulMonotone(over, DecaySpanMs, total);
      CeilDivBounds(total * over, DecaySpanMs, total);
      CeilDiv(total * over, DecaySpanMs)
    else CeilDiv(total * over, DecaySpanMs)
  }

  /**
   * The laser's new text: blank rows, then solid rows, then warning rows. The two `usize`
   * subtractions panic unless `decays <= replace <= total`.
   */
  function RowText(total: nat, replace: nat, decays: nat): (r: Outcome<seq<char>>)
    ensures r.Returns? <==> decays <= replace <= total
    ensures r.Returns? ==> |r.value| == 2 * total
  {
    if decays <= replace <= total then
      Returns(Repeat(" \n", decays) + Repeat("V\n", replace - decays) + Repeat("!\n", total - replace))
    else Panics
  }

  /** The glyph of row `k`. */
  function RowGlyph(k: nat, replace: nat, decays: nat): char
  {
    if k < decays then ' ' else if k < replace then 'V' else '!'
  }

  /** Row `k` of the text is its glyph followed by a line break. */
  lemma RowAt(total: nat, replace: nat, decays: nat, k: nat)
    requires decays <= replace <= total && k < total
    ensures var s := RowText(total, replace, decays).value;
            s[2 * k] == RowGlyph(k, replace, decays) && s[2 * k + 1] == '\n'
  {
    var a, b, c := Repeat(" \n", decays), Repeat("V\n", replace - decays), Repeat("!\n", total - replace);
    assert RowText(total, replace, decays).value == a + b + c;
    if k < decays {
      RepeatAt(" \n", decays, k, 0);
      RepeatAt(" \n", decays, k, 1);
    } else if k < replace {
      RepeatAt("V\n", replace - decays, k - decays, 0);
      RepeatAt("V\n", replace - decays, k - decays, 1);
    } else {
      RepeatAt("!\n", total - replace, k - replace, 0);
      RepeatAt("!\n", total - replace, k - replace, 1);
    }
  }

  /** Rewriting the rows keeps their number: `lines().count()` is `total` again. */
  lemma RowTextLines(total: nat, replace: nat, decays: nat)
    requires decays <= replace <= total
    ensures LineCount(RowText(total, replace, decays).value) == total
  {
    var a, b, c := Repeat(" \n", decays), Repeat("V\n", replace - decays), Repeat("!\n", total - replace);
    var s := a + b + c;
    assert RowText(total, replace, decays).value == s;
    CountConcat('\n', a + b, c);
    CountConcat('\n', a, b);
    CountRepeatRow('\n', ' ', decays);
    CountRepeatRow('\n', 'V', replace - decays);
    CountRepeatRow('\n', '!', total - replace);
    if total > 0 {
      RowAt(total, replace, decays, total - 1);
    }
  }

  /** The spawned laser is all warning rows. */
  lemma InitialText()
    ensures RowText(LaserRows, 0, 0) == Returns(Repeat("!\n", LaserRows))
    ensures LineCount(Repeat("!\n", LaserRows)) == LaserRows
  {
    assert Repeat(" \n", 0) + Repeat("V\n", 0) + Repeat("!\n", LaserRows) == Repeat("!\n", LaserRows);
    RowTextLines(LaserRows, 0, 0);
  }

  /**
   * While the animation timer trails the duration timer (as ticking them together keeps
   * it), the row counts never make the subtractions panic; rows only blank out once all
   * are solid, and at the end of the duration every row is blank.
   */
  lemma RowsOrdered(total: nat, durationElapsed: nat, animationElapsed: nat)
    requires durationElapsed <= DurationMs && animationElapsed == Min(durationElapsed, AnimationMs)
    ensures var replace, decays := RowsToReplace(total, animationElapsed), RowsDecaying(total, durationElapsed);
            && decays <= replace <= total
            && (durationElapsed >= AnimationMs ==> replace == total)
            && (durationElapsed <= DecayStartMs ==> decays == 0)
            && (durationElapsed == DurationMs ==> decays == total)
  {
    var m := Min(animationElapsed, AnimationMs);
    MulMonotone(m, AnimationMs, total);
    CeilDivBounds(total * m, AnimationMs, total);
    var over := if durationElapsed > DecayStartMs then durationElapsed - DecayStartMs else 0;
    MulMonotone(over, DecaySpanMs, total);
    CeilDivBounds(total * over, DecaySpanMs, total);
  }

  /** A laser bullet entity: its three `Once` timers, its collision groups and its text. */
  class LaserBullet {
    var telegraph: Timer
    var duration: Timer
    var animation: Timer
    var groups: CollisionGroups
    var text: seq<char>
    /** The despawn command has been issued. */
    var despawned: bool
    const target: BulletTarget

    ghost predicate Valid()
      reads this
    {
      && telegraph.mode == Once && duration.mode == Once && animation.mode == Once
      && telegraph.duration == TelegraphMs && duration.duration == DurationMs && animation.duration == AnimationMs
      && Consistent(telegraph) && Consistent(duration) && Consistent(animation)
      && (duration.finished <==> duration.elapsed == DurationMs)
      && (animation.finished <==> animation.elapsed == AnimationMs)
      && animation.elapsed == Min(duration.elapsed, AnimationMs)
      // it collides with nothing until the telegraph is over
      && groups == (if telegraph.finished then GroupsFor(target) else NoGroups)
      && (!telegraph.finished ==> duration.elapsed == 0)
      && LineCount(text) == LaserRows
      && (despawned ==> duration.finished)
    }

    /** The laser as `enemy_shoot` spawns it. */
    constructor (target: BulletTarget)
      ensures Valid() && !despawned && this.target == target
      ensures telegraph == NewTimer(TelegraphMs, Once) && duration == NewTimer(DurationMs, Once)
      ensures animation == NewTimer(AnimationMs, Once)
      ensures groups == NoGroups && text == Repeat("!\n", LaserRows)
    {
      var rows := Repeat("!\n", LaserRows);
      assert LineCount(rows) == LaserRows by { InitialText(); }
      telegraph := NewTimer(TelegraphMs, Once);
      duration := NewTimer(DurationMs, Once);
      animation := NewTimer(AnimationMs, Once);
      groups := NoGroups;
      text := rows;
      despawned := false;
      this.target := target;
    }

    /** One frame of `laser_bullet` for this laser. */
    method Step(delta: nat)
      requires Valid() && !despawned
      modifies this
      ensures Valid()
      ensures !old(telegraph).finished ==>
                && telegraph == Tick(old(telegraph), delta)
                && duration == old(duration) && animation == old(animation)
                && text == old(text) && !despawned
      ensures old(telegraph).finished && old(duration).finished ==>
                despawned && telegraph == old(telegraph) && duration == old(duration) && text == old(text)
      ensures old(telegraph).finished && !old(duration).finished ==>
                && telegraph == old(telegraph) && !despawned
                && duration == Tick(old(duration), delta)
                && animation == (if old(animation).finished then old(animation) else Tick(old(animation), delta))
                && RowText(LaserRows, RowsToReplace(LaserRows, animation.elapsed),
                           RowsDecaying(LaserRows, duration.elapsed)) == Returns(text)
    {
      if !telegraph.finished {
        telegraph := Tick(telegraph, delta);
        if telegraph.finished {
          groups := GroupsFor(target);
        }
      } else if duration.finished {
        despawned := true;
      } else {
        duration := Tick(duration, delta);
        if !animation.finished {
          animation := Tick(animation, delta);
        }
        var total := LineCount(text);
        var replace := RowsToReplace(total, animation.elapsed);
        var decays := RowsDecaying(total, duration.elapsed);
        RowsOrdered(total, duration.elapsed, animation.elapsed);
        RowTextLines(total, replace, decays);
        text := RowText(total, replace, decays).value;
      }
    }
  }
}
