/**
 * The main menu: a cursor that moves cyclically over eight entries with the arrow keys
 * (with auto-repeat while a key is held), the entry labels re-prefixed with "> " or "  ",
 * and the confirm and reset keys.
 */
module MainMenu {
  import opened Wrappers
  import opened Timers
  import opened Arith

  /** `MainMenuState`; `Choosing` is the default sub-state while the menu is open. */
  datatype MenuState = Choosing | Start | ExtraStart | PracticeStart | Replay | Score | MusicRoom | OptionEntry | Quit

  /** The cursor order of `main_menu_selection`. */
  const Order: seq<MenuState> := [Start, ExtraStart, PracticeStart, Replay, Score, MusicRoom, OptionEntry, Quit]

  /** The repeat timer of `setup_main_menu`: 0.15 s, in milliseconds. */
  const RepeatMs: nat := 150

  /**
   * `order.iter().position(..).unwrap_or(0)`: the entry's index in the order; `Choosing`
   * is not in the order and counts as the first entry.
   */
  function Position(s: MenuState): (i: nat)
    ensures i < |Order|
    ensures s != Choosing ==> Order[i] == s
    ensures s == Choosing ==> i == 0
  {
    match s
    case Choosing => 0
    case Start => 0
    case ExtraStart => 1
    case PracticeStart => 2
    case Replay => 3
    case Score => 4
    case MusicRoom => 5
    case OptionEntry => 6
    case Quit => 7
  }

  /** One cursor move: `(index + direction + 8) % 8`, looked up in the order. */
  function Step(s: MenuState, dir: int): (r: MenuState)
    requires dir == -1 || dir == 1
    ensures r != Choosing
    ensures Position(r) == if Position(s) + dir < 0 then |Order| - 1
                           else if Position(s) + dir == |Order| then 0
                           else Position(s) + dir
  {
    Order[(Position(s) + dir + |Order|) % |Order|]
  }

  /** Every entry of the order sits at its own position. */
  lemma PositionOfOrder(i: nat)
    requires i < |Order|
    ensures Position(Order[i]) == i
  {
    assert Order[Position(Order[i])] == Order[i];
  }

  /** Up from the first entry wraps to the last, and Down from the last wraps to the first. */
  lemma WrapAround()
    ensures Step(Start, -1) == Quit
    ensures Step(Quit, 1) == Start
  {
    assert Position(Start) == 0 by { PositionOfOrder(0); }
    assert Position(Quit) == 7 by { PositionOfOrder(7); }
  }

  /** Down then Up returns to the entry (for `Choosing`, to the first entry). */
  lemma DownThenUp(s: MenuState)
    ensures Step(Step(s, 1), -1) == (if s == Choosing then Start else s)
    ensures Step(Step(s, -1), 1) == (if s == Choosing then Start else s)
  {
    PositionOfOrder(Position(s));
    PositionOfOrder(Position(Step(Step(s, 1), -1)));
    PositionOfOrder(Position(Step(Step(s, -1), 1)));
  }

  function Steps(s: MenuState, dir: int, k: nat): MenuState
    requires dir == -1 || dir == 1
  {
    if k == 0 then s else Step(Steps(s, dir, k - 1), dir)
  }

  /** A move from position `a % 8` lands on `(a + 1) % 8` (Down) or `(a + 7) % 8` (Up). */
  lemma StepMod(s: MenuState, dir: int, a: nat)
    requires (dir == -1 || dir == 1) && Position(s) == a % 8
    ensures Position(Step(s, dir)) == (a + if dir == 1 then 1 else 7) % 8
  {
    var q, m := a / 8, a % 8;
    assert a == q * 8 + m && m < 8;
    if dir == 1 && m + 1 < 8 {
      ModUnique(a + 1, 8, q, m + 1);
    } else if dir == 1 {
      ModUnique(a + 1, 8, q + 1, 0);
    } else if m == 0 {
      ModUnique(a + 7, 8, q, 7);
    } else {
      ModUnique(a + 7, 8, q + 1, m - 1);
    }
  }

  /** `k` moves Down add `k` to the position, `k` moves Up add `7 * k`, modulo 8. */
  lemma {:induction false} StepsPosition(s: MenuState, dir: int, k: nat)
    requires dir == -1 || dir == 1
    ensures Position(Steps(s, dir, k)) == (Position(s) + k * if dir == 1 then 1 else 7) % 8
  {
    if k > 0 {
      var c := if dir == 1 then 1 else 7;
      var a := Position(s) + (k - 1) * c;
      StepsPosition(s, dir, k - 1);
      StepMod(Steps(s, dir, k - 1), dir, a);
      MulSucc(k - 1, c);
      assert a + c == Position(s) + k * c;
    } else {
      ModUnique(Position(s), 8, 0, Position(s));
    }
  }

  /** Eight moves in one direction visit every entry and come back. */
  lemma EightStepsCycle(s: MenuState, dir: int)
    requires s != Choosing && (dir == -1 || dir == 1)
    ensures Steps(s, dir, |Order|) == s
  {
    var c := if dir == 1 then 1 else 7;
    StepsPosition(s, dir, 8);
    ModUnique(Position(s) + 8 * c, 8, c, Position(s));
    var r := Steps(s, dir, 8);
    assert r == Step(Steps(s, dir, 7), dir);
    assert Order[Position(r)] == r && Order[Position(s)] == s;
  }

  // ---- key handling ----

  /** The arrow keys' state for one frame. */
  datatype ArrowKeys = ArrowKeys(upJustPressed: bool, downJustPressed: bool, upHeld: bool, downHeld: bool)

  /** The direction chosen this frame and the repeat timer after it, by key priority. */
  function Direction(keys: ArrowKeys, t: Timer, delta: nat): (r: (int, Timer))
    ensures r.1.duration == t.duration && r.1.mode == t.mode
    ensures r.0 != 0 ==> keys.upJustPressed || keys.downJustPressed || r.1.finished
    ensures r.0 == -1 ==> keys.upJustPressed || keys.upHeld
    ensures r.0 == 1 ==> keys.downJustPressed || keys.downHeld
  {
    if keys.upJustPressed then (-1, Reset(t))
    else if keys.downJustPressed then (1, Reset(t))
    else if keys.upHeld then
      var t' := Tick(t, delta);
      (if t'.finished then -1 else 0, t')
    else if keys.downHeld then
      var t' := Tick(t, delta);
      (if t'.finished then 1 else 0, t')
    else (0, Reset(t))
  }

  /**
   * Key priority: a fresh Up beats a fresh Down, which beats a held key; a fresh press
   * moves at once and restarts the repeat delay; with no arrow key nothing moves.
   */
  lemma KeyPriority(keys: ArrowKeys, t: Timer, delta: nat)
    ensures keys.upJustPressed ==> Direction(keys, t, delta) == (-1, Reset(t))
    ensures !keys.upJustPressed && keys.downJustPressed ==> Direction(keys, t, delta) == (1, Reset(t))
    ensures keys == ArrowKeys(false, false, false, false) ==> Direction(keys, t, delta) == (0, Reset(t))
    ensures Direction(keys, t, delta).0 in {-1, 0, 1}
  {
  }

  /** A held arrow moves only on the ticks where the repeat timer finishes, in its own direction. */
  lemma HeldKeyRepeats(keys: ArrowKeys, t: Timer, delta: nat)
    requires t.mode == Repeating && !keys.upJustPressed && !keys.downJustPressed && (keys.upHeld || keys.downHeld)
    ensures var (dir, t') := Direction(keys, t, delta);
            t' == Tick(t, delta) &&
            (dir != 0 <==> t'.finished) &&
            (dir != 0 ==> dir == if keys.upHeld then -1 else 1)
  {
  }

  /** After a fresh press, holding moves again only once a whole repeat interval has been held. */
  lemma RepeatDelay(t: Timer, delta: nat)
    requires t.duration == RepeatMs && t.mode == Repeating
    ensures var (_, t1) := Direction(ArrowKeys(true, false, true, false), t, delta);
            var (dir, _) := Direction(ArrowKeys(false, false, true, false), t1, delta);
            dir != 0 <==> delta >= RepeatMs
  {
  }

  // ---- labels ----

  /** A menu entry's marker and text. */
  datatype EntryText = EntryText(entry: MenuState, text: seq<char>)

  predicate IsPrefixChar(c: char)
  {
    c == '>' || c == ' '
  }

  /** The number of marker characters at the front of `s`. */
  function PrefixLength(s: seq<char>): (n: nat)
    ensures n <= |s|
    ensures forall i :: 0 <= i < n ==> IsPrefixChar(s[i])
    ensures n == |s| || !IsPrefixChar(s[n])
  {
    if s != [] && IsPrefixChar(s[0]) then 1 + PrefixLength(s[1..]) else 0
  }

  /** `trim_start_matches(['>', ' '])`. */
  function TrimPrefix(s: seq<char>): (r: seq<char>)
    ensures |r| <= |s| && forall i :: 0 <= i < |r| ==> r[i] == s[|s| - |r| + i]
    ensures r == [] || !IsPrefixChar(r[0])
    ensures forall i :: 0 <= i < |s| - |r| ==> IsPrefixChar(s[i])
  {
    s[PrefixLength(s)..]
  }

  /** One entry of `main_menu_update_texts`: the stripped name behind the right marker. */
  function Relabel(e: EntryText, selected: MenuState): (r: EntryText)
    ensures r.entry == e.entry && |r.text| >= 2 && r.text[2..] == TrimPrefix(e.text)
    ensures r.text[0] == '>' <==> e.entry == selected
  {
    e.(text := (if e.entry == selected then "> " else "  ") + TrimPrefix(e.text))
  }

  function RelabelAll(es: seq<EntryText>, selected: MenuState): (r: seq<EntryText>)
    ensures |r| == |es| && forall i :: 0 <= i < |es| ==> r[i] == Relabel(es[i], selected)
  {
    seq(|es|, i requires 0 <= i < |es| => Relabel(es[i], selected))
  }

  /** Prefix characters in front of a stripped name are stripped again. */
  lemma TrimPrefixOver(p: seq<char>, name: seq<char>)
    requires forall i :: 0 <= i < |p| ==> IsPrefixChar(p[i])
    requires name == [] || !IsPrefixChar(name[0])
    ensures TrimPrefix(p + name) == name
  {
    var s := p + name;
    assert forall i :: 0 <= i < |p| ==> s[i] == p[i];
    assert name != [] ==> s[|p|] == name[0];
    assert PrefixLength(s) == |p|;
    assert s[|p|..] == name;
  }

  /** Exactly the selected entry carries "> ", every other one "  ", and the name is kept. */
  lemma RelabelMarks(e: EntryText, selected: MenuState)
    ensures var r := Relabel(e, selected);
            r.entry == e.entry &&
            (r.text[..2] == "> " <==> e.entry == selected) &&
            (r.text[..2] == "  " <==> e.entry != selected) &&
            TrimPrefix(r.text) == TrimPrefix(e.text)
  {
    var name := TrimPrefix(e.text);
    var marker: seq<char> := if e.entry == selected then "> " else "  ";
    assert (marker + name)[..2] == marker;
    TrimPrefixOver(marker, name);
  }

  /** Relabelling twice is relabelling once. */
  lemma RelabelIdempotent(e: EntryText, selected: MenuState)
    ensures Relabel(Relabel(e, selected), selected) == Relabel(e, selected)
  {
    RelabelMarks(e, selected);
  }

  /** An entry already carrying the right marker in front of its name is left as it is. */
  lemma RelabelFixed(e: EntryText, selected: MenuState)
    requires |e.text| > 2 && !IsPrefixChar(e.text[2])
    requires e.text[..2] == if e.entry == selected then "> " else "  "
    ensures Relabel(e, selected) == e
  {
    assert e.text == e.text[..2] + e.text[2..];
    TrimPrefixOver(e.text[..2], e.text[2..]);
  }

  // ---------------------------------------------------------------------------
  // The `SelectedMenuEntry` resource.
  // ---------------------------------------------------------------------------

  class SelectedMenuEntry {
    var selected: MenuState
    var repeatTimer: Timer

    /** `setup_main_menu`: the first entry selected, a 0.15 s repeating timer. */
    constructor ()
      ensures selected == Start && repeatTimer == NewTimer(RepeatMs, Repeating)
    {
      selected := Start;
      repeatTimer := NewTimer(RepeatMs, Repeating);
    }

    /** `main_menu_selection`. */
    method Selection(keys: ArrowKeys, delta: nat)
      modifies this
      ensures repeatTimer == Direction(keys, old(repeatTimer), delta).1
      ensures var dir := Direction(keys, old(repeatTimer), delta).0;
              selected == if dir == 0 then old(selected) else Step(old(selected), dir)
    {
      var direction := 0;
      if keys.upJustPressed {
        direction := -1;
        repeatTimer := Reset(repeatTimer);
      } else if keys.downJustPressed {
        direction := 1;
        repeatTimer := Reset(repeatTimer);
      } else if keys.upHeld {
        repeatTimer := Tick(repeatTimer, delta);
        if repeatTimer.finished {
          direction := -1;
        }
      } else if keys.downHeld {
        repeatTimer := Tick(repeatTimer, delta);
        if repeatTimer.finished {
          direction := 1;
        }
      } else {
        repeatTimer := Reset(repeatTimer);
      }
      if direction == 0 {
        return;
      }
      var currentIndex := Position(selected);
      var newIndex := (currentIndex + direction + |Order|) % |Order|;
      selected := Order[newIndex];
    }

    /** `main_menu_confirm_selection`: Enter or Z requests the selected state. */
    method ConfirmSelection(enterJustPressed: bool, zJustPressed: bool) returns (next: Option<MenuState>)
      ensures next.Some? <==> enterJustPressed || zJustPressed
      ensures next.Some? ==> next.value == selected
    {
      if enterJustPressed || zJustPressed {
        next := Some(selected);
      } else {
        next := None;
      }
    }

    /** `main_menu_reset_selection` (on X): the cursor jumps to Quit. */
    method ResetSelection()
      modifies this
      ensures selected == Quit && repeatTimer == old(repeatTimer)
    {
      selected := Quit;
    }

    /** `main_menu_update_texts`: when the selection changed, re-mark every entry. */
    method UpdateTexts(entries: array<EntryText>, changed: bool)
      modifies entries
      ensures entries[..] == if changed then RelabelAll(old(entries[..]), selected) else old(entries[..])
    {
      if !changed {
        return;
      }
      ghost var before := entries[..];
      var i := 0;
      while i < entries.Length
        invariant 0 <= i <= entries.Length
        invariant forall k :: 0 <= k < entries.Length ==> entries[k] == if k < i then Relabel(before[k], selected) else before[k]
      {
        entries[i] := Relabel(entries[i], selected);
        i := i + 1;
      }
      ghost var after := RelabelAll(before, selected);
      assert forall k :: 0 <= k < entries.Length ==> entries[..][k] == after[k];
    }
  }
}
