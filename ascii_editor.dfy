/**
 * The ASCII art editor's input widgets: the strict hex colour parser, the colour and
 * character input buffers edited one key event at a time, and the button system that
 * moves focus between the two inputs and picks brush colours and glyphs from samples.
 */
module AsciiEditor {
  import opened Wrappers
  import opened Hex

  // ---------------------------------------------------------------------------
  // parse_hex_color
  // ---------------------------------------------------------------------------

  /**
   * `parse_hex_color`: exactly six bytes, each two-byte slice parsed by
   * `u8::from_str_radix(_, 16)`; slicing panics off a UTF-8 character boundary.
   */
  function ParseHexColor(hex: seq<Byte>): (r: Outcome<Result<Rgb>>)
    ensures |hex| != 6 ==> r == Returns(Err)
    ensures r == Panics <==>
              |hex| == 6 && (!IsCharBoundary(hex, 2) || (ParseU8Hex(hex[0..2]).Some? && !IsCharBoundary(hex, 4)))
    ensures (r.Returns? && r.value.Ok?) <==>
              && |hex| == 6 && IsCharBoundary(hex, 2) && IsCharBoundary(hex, 4)
              && ParseU8Hex(hex[0..2]).Some? && ParseU8Hex(hex[2..4]).Some? && ParseU8Hex(hex[4..6]).Some?
    ensures r.Returns? && r.value.Ok? ==>
              r.value.value == Rgb(ParseU8Hex(hex[0..2]).value, ParseU8Hex(hex[2..4]).value, ParseU8Hex(hex[4..6]).value)
  {
    if |hex| != 6 then Returns(Err)
    else match Slice(hex, 0, 2)
      case Panics => Panics
      case Returns(rs) =>
        match ParseU8Hex(rs)
        case None => Returns(Err)
        case Some(r) =>
          match Slice(hex, 2, 4)
          case Panics => Panics
          case Returns(gs) =>
            match ParseU8Hex(gs)
            case None => Returns(Err)
            case Some(g) =>
              match Slice(hex, 4, 6)
              case Panics => Panics
              case Returns(bs) =>
                match ParseU8Hex(bs)
                case None => Returns(Err)
                case Some(b) => Returns(Ok(Rgb(r, g, b)))
  }

  /** On a string of hex digits the parser never panics and accepts exactly length six. */
  lemma ParseHexDigits(hex: seq<Byte>)
    requires AllHexDigits(hex)
    ensures ParseHexColor(hex).Returns?
    ensures ParseHexColor(hex).value.Ok? <==> |hex| == 6
  {
    if |hex| == 6 {
      assert IsCharBoundary(hex, 2) && IsCharBoundary(hex, 4);
      ParsePair(hex[0], hex[1]);
      ParsePair(hex[2], hex[3]);
      ParsePair(hex[4], hex[5]);
      assert hex[0..2] == [hex[0], hex[1]];
      assert hex[2..4] == [hex[2], hex[3]];
      assert hex[4..6] == [hex[4], hex[5]];
    }
  }

  /** Round trip: a colour written as six hex digits (either case) parses back to itself. */
  lemma ParseFormatRoundTrip(c: Rgb, upper: bool)
    ensures ParseHexColor(FormatRgb(c, upper)) == Returns(Ok(c))
  {
    var s := FormatRgb(c, upper);
    assert s[0..2] == FormatByte(c.r, upper);
    assert s[2..4] == FormatByte(c.g, upper);
    assert s[4..6] == FormatByte(c.b, upper);
    ParseFormatByte(c.r, upper);
    ParseFormatByte(c.g, upper);
    ParseFormatByte(c.b, upper);
  }

  /** `from_str_radix` skips a leading `+`, so "+f+f+f" is accepted as (15, 15, 15). */
  lemma PlusSignAccepted()
    ensures ParseHexColor([Plus, 'f' as int, Plus, 'f' as int, Plus, 'f' as int]) == Returns(Ok(Rgb(15, 15, 15)))
  {
    var f: Byte := 'f' as int;
    var s := [Plus, f, Plus, f, Plus, f];
    ParsePair(Plus, f);
    assert s[0..2] == s[2..4] == s[4..6] == [Plus, f];
  }

  /** A two-byte character straddling offset 2 makes the slice panic ("aé123"). */
  lemma NonAsciiPanics()
    ensures ParseHexColor(['a' as int, 0xC3, 0xA9, '1' as int, '2' as int, '3' as int]) == Panics
  {
  }

  // ---------------------------------------------------------------------------
  // Editor state: the ColorInput, CharInput and Brush resources, the two input
  // texts, and the samples spawned into the two containers.
  // ---------------------------------------------------------------------------

  datatype Key = Character(s: seq<char>) | Backspace | OtherKey
  datatype KeyEvent = KeyEvent(pressed: bool, key: Key)

  datatype Interaction = Pressed | Hovered | NoInteraction
  /** The buttons of the editor: the two input boxes and the samples spawned from them. */
  datatype Button = ColorInputBox | CharInputBox | ColorSample(color: Rgb) | CharSample(ch: char, color: Rgb)
  datatype ButtonEvent = ButtonEvent(interaction: Interaction, button: Button)

  datatype EditorView = EditorView(
    colorValue: seq<Byte>, colorActive: bool, colorText: seq<Byte>,
    charValue: seq<char>, charActive: bool, charText: seq<char>,
    brushCh: char, brushColor: Rgb,
    colorSamples: seq<Rgb>, charSamples: seq<(char, Rgb)>)

  const White := Rgb(255, 255, 255)

  /** The resources' defaults and the texts `setup` spawns. */
  function InitialView(): (v: EditorView)
    ensures !v.colorActive && !v.charActive && v.colorValue == [] && AllHexDigits(v.colorText)
  {
    EditorView([], false, ['f' as int, 'f' as int, 'f' as int, 'f' as int, 'f' as int, 'f' as int],
               [], false, [' '], '\0', White, [], [])
  }

  predicate IsAsciiHexChar(c: char)
  {
    ('0' <= c <= '9') || ('a' <= c <= 'f') || ('A' <= c <= 'F')
  }

  predicate AllAsciiHexChars(s: seq<char>)
  {
    forall i :: 0 <= i < |s| ==> IsAsciiHexChar(s[i])
  }

  /** The UTF-8 bytes of an ASCII hex string: one byte per character. */
  function AsciiHexBytes(s: seq<char>): (b: seq<Byte>)
    requires AllAsciiHexChars(s)
    ensures |b| == |s| && AllHexDigits(b)
    ensures forall i :: 0 <= i < |s| ==> b[i] == s[i] as int
  {
    if s == [] then [] else [s[0] as int] + AsciiHexBytes(s[1..])
  }

  // ---- color_input ----

  /** One key event of `color_input`'s loop: the buffer and the `changed` flag after it. */
  function ColorKey(value: seq<Byte>, changed: bool, ev: KeyEvent): (r: (seq<Byte>, bool))
    ensures changed ==> r.1
    ensures !ev.pressed || ev.key.OtherKey? ==> r == (value, changed)
    ensures ev.pressed && ev.key.Backspace? ==>
              r.1 && |r.0| == (if value == [] then 0 else |value| - 1) && r.0 == value[..|r.0|]
    ensures ev.key.Character? && r.0 != value ==>
              r.1 && |value| < 6 && AllAsciiHexChars(ev.key.s) && |r.0| == |value| + |ev.key.s| && r.0[..|value|] == value
  {
    if !ev.pressed then (value, changed)
    else match ev.key
      case Character(s) =>
        if |value| < 6 && AllAsciiHexChars(s) then (value + AsciiHexBytes(s), true) else (value, changed)
      case Backspace => (if value == [] then [] else value[..|value| - 1], true)
      case OtherKey => (value, changed)
  }

  /** `color_input`'s loop over a frame's key events, from a fresh `changed` flag. */
  function ColorKeys(value: seq<Byte>, events: seq<KeyEvent>): (r: (seq<Byte>, bool))
    ensures !r.1 ==> r.0 == value
  {
    if events == [] then (value, false)
    else
      var p := ColorKeys(value, events[..|events| - 1]);
      ColorKey(p.0, p.1, events[|events| - 1])
  }

  /** `color_input`: nothing when inactive; otherwise edit, refresh the text, and recolour the brush when the buffer parses. */
  function ColorInputRun(v: EditorView, events: seq<KeyEvent>): (r: EditorView)
    ensures r.colorActive == v.colorActive && r.charActive == v.charActive
    ensures r.charValue == v.charValue && r.charText == v.charText && r.brushCh == v.brushCh
    ensures r.colorSamples == v.colorSamples && r.charSamples == v.charSamples
  {
    if !v.colorActive then v
    else
      var p := ColorKeys(v.colorValue, events);
      if !p.1 then v
      else
        var parsed := ParseHexColor(p.0);
        v.(colorValue := p.0, colorText := p.0,
           brushColor := if parsed.Returns? && parsed.value.Ok? then parsed.value.value else v.brushColor)
  }

  /** The colour buffer only ever holds ASCII hex digits. */
  lemma {:induction false} ColorKeysStayHex(value: seq<Byte>, events: seq<KeyEvent>)
    requires AllHexDigits(value)
    ensures AllHexDigits(ColorKeys(value, events).0)
  {
    if events != [] {
      ColorKeysStayHex(value, events[..|events| - 1]);
    }
  }

  predicate SingleCharKeys(events: seq<KeyEvent>)
  {
    forall i :: 0 <= i < |events| && events[i].key.Character? ==> |events[i].key.s| <= 1
  }

  /** With keys of at most one character the colour buffer never exceeds six bytes. */
  lemma {:induction false} ColorKeysBounded(value: seq<Byte>, events: seq<KeyEvent>)
    requires |value| <= 6 && SingleCharKeys(events)
    ensures |ColorKeys(value, events).0| <= 6
  {
    if events != [] {
      ColorKeysBounded(value, events[..|events| - 1]);
    }
  }

  /** Backspace on an empty colour buffer leaves it empty (but still counts as a change). */
  lemma BackspaceOnEmpty(changed: bool)
    ensures ColorKey([], changed, KeyEvent(true, Backspace)) == ([], true)
  {
  }

  /**
   * The brush colour changes only when the edited buffer holds exactly six hex digits,
   * and it then becomes the colour they spell.
   */
  lemma BrushFollowsSixDigits(v: EditorView, events: seq<KeyEvent>)
    requires AllHexDigits(v.colorValue)
    ensures var r := ColorInputRun(v, events);
            r.brushColor != v.brushColor ==>
              |r.colorValue| == 6 && AllHexDigits(r.colorValue) && ParseHexColor(r.colorValue) == Returns(Ok(r.brushColor))
    ensures var r := ColorInputRun(v, events);
            v.colorActive && ColorKeys(v.colorValue, events).1 && |r.colorValue| == 6 ==>
              ParseHexColor(r.colorValue) == Returns(Ok(r.brushColor))
  {
    ColorKeysStayHex(v.colorValue, events);
    ParseHexDigits(ColorKeys(v.colorValue, events).0);
  }

  // ---- char_input ----

  /** One key event of `char_input`'s loop: buffer, brush glyph and `changed` after it. */
  function CharKey(value: seq<char>, ch: char, changed: bool, ev: KeyEvent): (r: (seq<char>, char, bool))
    ensures changed ==> r.2
    ensures !ev.pressed || ev.key.OtherKey? ==> r == (value, ch, changed)
    ensures ev.pressed && ev.key.Backspace? ==> r == ([], ' ', true)
    ensures (r.0, r.1) != (value, ch) ==> r.2 && (r.0 == [r.1] || (r.0 == [] && r.1 == ' '))
  {
    if !ev.pressed then (value, ch, changed)
    else match ev.key
      case Character(s) => if s != [] then ([s[0]], s[0], true) else (value, ch, changed)
      case Backspace => ([], ' ', true)
      case OtherKey => (value, ch, changed)
  }

  function CharKeys(value: seq<char>, ch: char, events: seq<KeyEvent>): (r: (seq<char>, char, bool))
    ensures !r.2 ==> r.0 == value && r.1 == ch
  {
    if events == [] then (value, ch, false)
    else
      var p := CharKeys(value, ch, events[..|events| - 1]);
      CharKey(p.0, p.1, p.2, events[|events| - 1])
  }

  /** `char_input`: nothing when inactive; otherwise edit the buffer and brush glyph, and refresh the text. */
  function CharInputRun(v: EditorView, events: seq<KeyEvent>): (r: EditorView)
    ensures !v.charActive ==> r == v
    ensures r.colorActive == v.colorActive && r.charActive == v.charActive
    ensures r.colorValue == v.colorValue && r.colorText == v.colorText && r.brushColor == v.brushColor
    ensures r.colorSamples == v.colorSamples && r.charSamples == v.charSamples
  {
    if !v.charActive then v
    else
      var p := CharKeys(v.charValue, v.brushCh, events);
      if !p.2 then v
      else v.(charValue := p.0, brushCh := p.1, charText := p.0)
  }

  /**
   * After any edit the buffer and the brush agree: a typed character is both the whole
   * buffer and the brush glyph; a backspace leaves an empty buffer and a blank brush.
   */
  lemma {:induction false} CharKeysAgree(value: seq<char>, ch: char, events: seq<KeyEvent>)
    ensures var r := CharKeys(value, ch, events);
            r.2 ==> (r.0 == [r.1] || (r.0 == [] && r.1 == ' '))
  {
    if events != [] {
      CharKeysAgree(value, ch, events[..|events| - 1]);
    }
  }

  /** The last effective key decides: a character key leaves exactly its first char. */
  lemma CharKeyLast(v: EditorView, events: seq<KeyEvent>, s: seq<char>)
    requires v.charActive && s != []
    ensures var r := CharInputRun(v, events + [KeyEvent(true, Character(s))]);
            r.charValue == [s[0]] && r.brushCh == s[0] && r.charText == [s[0]]
    ensures var r := CharInputRun(v, events + [KeyEvent(true, Backspace)]);
            r.charValue == [] && r.brushCh == ' ' && r.charText == []
  {
    assert (events + [KeyEvent(true, Character(s))])[..|events|] == events;
    assert (events + [KeyEvent(true, Backspace)])[..|events|] == events;
  }

  // ---- button_system ----

  /** One changed button of `button_system`'s loop. */
  function ButtonStep(v: EditorView, ev: ButtonEvent): (r: EditorView)
    ensures r.colorValue == v.colorValue && r.colorText == v.colorText
    ensures r.charValue == v.charValue && r.charText == v.charText
    ensures r.brushCh != v.brushCh ==> ev.interaction == Pressed && ev.button.CharSample?
    ensures r.brushColor != v.brushColor ==> ev.interaction == Pressed && (ev.button.ColorSample? || ev.button.CharSample?)
    ensures !(v.colorActive && v.charActive) ==> !(r.colorActive && r.charActive)
  {
    match ev.interaction
    case Pressed =>
      (match ev.button
       case ColorInputBox =>
         var w := v.(colorActive := true, charActive := false);
         var parsed := ParseHexColor(v.colorValue);
         if parsed.Returns? && parsed.value.Ok? then w.(colorSamples := w.colorSamples + [parsed.value.value]) else w
       case CharInputBox =>
         v.(charActive := true, colorActive := false, charSamples := v.charSamples + [(v.brushCh, v.brushColor)])
       case ColorSample(c) => v.(brushColor := c)
       case CharSample(ch, c) => v.(brushCh := ch, brushColor := c))
    case Hovered =>
      (match ev.button
       case ColorInputBox => v.(colorActive := true, charActive := false)
       case CharInputBox => v.(charActive := true, colorActive := false)
       case _ => v)
    case NoInteraction =>
      (match ev.button
       case ColorInputBox => v.(colorActive := false, charActive := false)
       case CharInputBox => v.(colorActive := false, charActive := false)
       case _ => v)
  }

  /** `button_system` over a frame's changed buttons: it never edits the two input buffers or texts. */
  function ButtonRun(v: EditorView, events: seq<ButtonEvent>): (r: EditorView)
    ensures r.colorValue == v.colorValue && r.colorText == v.colorText
    ensures r.charValue == v.charValue && r.charText == v.charText
  {
    if events == [] then v else ButtonStep(ButtonRun(v, events[..|events| - 1]), events[|events| - 1])
  }

  /**
   * Focus and spawning per button: pressing or hovering an input box focuses it and
   * unfocuses the other; leaving either box unfocuses both; samples never touch focus.
   * Pressing the colour box spawns a sample of the parsed buffer (when it parses);
   * pressing the char box spawns a sample of the current brush. Nothing else spawns.
   */
  lemma ButtonFocus(v: EditorView, ev: ButtonEvent)
    ensures var r := ButtonStep(v, ev);
            ev.button == ColorInputBox && ev.interaction != NoInteraction ==> r.colorActive && !r.charActive
    ensures var r := ButtonStep(v, ev);
            ev.button == CharInputBox && ev.interaction != NoInteraction ==> r.charActive && !r.colorActive
    ensures var r := ButtonStep(v, ev);
            (ev.button == ColorInputBox || ev.button == CharInputBox) && ev.interaction == NoInteraction ==>
              !r.colorActive && !r.charActive
    ensures var r := ButtonStep(v, ev);
            (ev.button.ColorSample? || ev.button.CharSample?) ==>
              r.colorActive == v.colorActive && r.charActive == v.charActive
    ensures var r := ButtonStep(v, ev);
            var parsed := ParseHexColor(v.colorValue);
            ev == ButtonEvent(Pressed, ColorInputBox) ==>
              r.charSamples == v.charSamples &&
              r.colorSamples == v.colorSamples + (if parsed.Returns? && parsed.value.Ok? then [parsed.value.value] else [])
    ensures var r := ButtonStep(v, ev);
            ev == ButtonEvent(Pressed, CharInputBox) ==>
              r.colorSamples == v.colorSamples && r.charSamples == v.charSamples + [(v.brushCh, v.brushColor)]
    ensures var r := ButtonStep(v, ev);
            ev.interaction != Pressed || ev.button.ColorSample? || ev.button.CharSample? ==>
              r.colorSamples == v.colorSamples && r.charSamples == v.charSamples
  {
  }

  /** Pressing a colour sample sets only the brush colour; a char sample sets glyph and colour. */
  lemma SamplePress(v: EditorView, c: Rgb, ch: char)
    ensures ButtonStep(v, ButtonEvent(Pressed, ColorSample(c))) == v.(brushColor := c)
    ensures ButtonStep(v, ButtonEvent(Pressed, CharSample(ch, c))) == v.(brushCh := ch, brushColor := c)
  {
  }

  /** A colour sample is spawned only for a buffer of six hex digits, and it is their colour. */
  lemma {:induction false} ColorSamplesParse(v: EditorView, events: seq<ButtonEvent>)
    requires AllHexDigits(v.colorValue)
    ensures var r := ButtonRun(v, events);
            r.colorValue == v.colorValue &&
            |r.colorSamples| >= |v.colorSamples| && r.colorSamples[..|v.colorSamples|] == v.colorSamples &&
            (|r.colorSamples| > |v.colorSamples| ==>
               |v.colorValue| == 6 && forall i :: |v.colorSamples| <= i < |r.colorSamples| ==>
                 ParseHexColor(v.colorValue) == Returns(Ok(r.colorSamples[i])))
  {
    if events != [] {
      var prev := events[..|events| - 1];
      ColorSamplesParse(v, prev);
      ParseHexDigits(v.colorValue);
      var p := ButtonRun(v, prev);
      var r := ButtonStep(p, events[|events| - 1]);
      ButtonStepSample(p, events[|events| - 1]);
      if r.colorSamples != p.colorSamples {
        assert r.colorSamples[..|p.colorSamples|] == p.colorSamples;
      }
    }
  }

  /** A single button event adds at most one colour sample, the colour the buffer parses to. */
  lemma ButtonStepSample(v: EditorView, ev: ButtonEvent)
    ensures var r := ButtonStep(v, ev);
            r.colorSamples == v.colorSamples ||
            (ParseHexColor(v.colorValue).Returns? && ParseHexColor(v.colorValue).value.Ok? &&
             r.colorSamples == v.colorSamples + [ParseHexColor(v.colorValue).value.value])
  {
  }

  // ---- the editor's systems in any order ----

  /** One run of one of the editor's three input systems. */
  datatype EditorOp = Buttons(buttons: seq<ButtonEvent>) | ColorKeysOp(colorKeys: seq<KeyEvent>) | CharKeysOp(charKeys: seq<KeyEvent>)

  function RunOp(v: EditorView, op: EditorOp): EditorView
  {
    match op
    case Buttons(evs) => ButtonRun(v, evs)
    case ColorKeysOp(evs) => ColorInputRun(v, evs)
    case CharKeysOp(evs) => CharInputRun(v, evs)
  }

  function EditorRun(v: EditorView, ops: seq<EditorOp>): EditorView
  {
    if ops == [] then v else RunOp(EditorRun(v, ops[..|ops| - 1]), ops[|ops| - 1])
  }

  /** A focus state: at most one of the two inputs is active. */
  predicate Exclusive(v: EditorView)
  {
    !(v.colorActive && v.charActive)
  }

  lemma {:induction false} ButtonRunExclusive(v: EditorView, events: seq<ButtonEvent>)
    requires Exclusive(v)
    ensures Exclusive(ButtonRun(v, events))
  {
    if events != [] {
      ButtonRunExclusive(v, events[..|events| - 1]);
    }
  }

  /** Whatever the sequence of interactions and keys, the two inputs are never both active. */
  lemma {:induction false} NeverBothActive(ops: seq<EditorOp>)
    ensures Exclusive(EditorRun(InitialView(), ops))
    ensures AllHexDigits(EditorRun(InitialView(), ops).colorValue)
  {
    if ops != [] {
      NeverBothActive(ops[..|ops| - 1]);
      var p := EditorRun(InitialView(), ops[..|ops| - 1]);
      match ops[|ops| - 1]
      case Buttons(evs) => ButtonRunExclusive(p, evs); ColorSamplesParse(p, evs);
      case ColorKeysOp(evs) => ColorKeysStayHex(p.colorValue, evs);
      case CharKeysOp(evs) =>
    }
  }

  // ---------------------------------------------------------------------------
  // The resources as mutable state, updated in place by the three systems.
  // ---------------------------------------------------------------------------

  class Editor {
    var colorValue: seq<Byte>
    var colorActive: bool
    var colorText: seq<Byte>
    var charValue: seq<char>
    var charActive: bool
    var charText: seq<char>
    var brushCh: char
    var brushColor: Rgb
    var colorSamples: seq<Rgb>
    var charSamples: seq<(char, Rgb)>

    function View(): EditorView
      reads this
    {
      EditorView(colorValue, colorActive, colorText, charValue, charActive, charText,
                 brushCh, brushColor, colorSamples, charSamples)
    }

    /** The colour buffer is ASCII hex, and focus is on at most one input. */
    ghost predicate Valid()
      reads this
    {
      AllHexDigits(colorValue) && !(colorActive && charActive)
    }

    /** The resources' defaults and the texts spawned by `setup`. */
    constructor ()
      ensures Valid() && View() == InitialView()
    {
      colorValue, colorActive := [], false;
      colorText := ['f' as int, 'f' as int, 'f' as int, 'f' as int, 'f' as int, 'f' as int];
      charValue, charActive, charText := [], false, [' '];
      brushCh, brushColor := '\0', White;
      colorSamples, charSamples := [], [];
    }

    /** One changed button of `button_system`'s loop, applied in place. */
    method Interact(ev: ButtonEvent)
      modifies this
      ensures View() == ButtonStep(old(View()), ev)
    {
      match ev.interaction {
        case Pressed =>
          match ev.button {
            case ColorInputBox =>
              colorActive, charActive := true, false;
              var parsed := ParseHexColor(colorValue);
              if parsed.Returns? && parsed.value.Ok? {
                colorSamples := colorSamples + [parsed.value.value];
              }
            case CharInputBox =>
              charActive, colorActive := true, false;
              charSamples := charSamples + [(brushCh, brushColor)];
            case ColorSample(c) =>
              brushColor := c;
            case CharSample(ch, c) =>
              brushCh, brushColor := ch, c;
          }
        case Hovered =>
          match ev.button {
            case ColorInputBox => colorActive, charActive := true, false;
            case CharInputBox => charActive, colorActive := true, false;
            case ColorSample(_) =>
            case CharSample(_, _) =>
          }
        case NoInteraction =>
          match ev.button {
            case ColorSample(_) =>
            case CharSample(_, _) =>
            case ColorInputBox => colorActive, charActive := false, false;
            case CharInputBox => colorActive, charActive := false, false;
          }
      }
    }

    /** `button_system`: every button whose interaction changed this frame, in order. */
    method ButtonSystem(events: seq<ButtonEvent>)
      requires Valid()
      modifies this
      ensures Valid()
      ensures View() == ButtonRun(old(View()), events)
    {
      var i := 0;
      while i < |events|
        invariant 0 <= i <= |events|
        invariant View() == ButtonRun(old(View()), events[..i])
        invariant Valid()
      {
        Interact(events[i]);
        assert events[..i + 1][..i] == events[..i];
        i := i + 1;
      }
      assert events[..|events|] == events;
    }

    /** One key event of `color_input`'s loop, applied in place to the colour buffer. */
    method ColorKeyEvent(changed: bool, ev: KeyEvent) returns (changed': bool)
      modifies this
      ensures (colorValue, changed') == ColorKey(old(colorValue), changed, ev)
      ensures View() == old(View()).(colorValue := colorValue)
    {
      changed' := changed;
      if ev.pressed {
        match ev.key {
          case Character(s) =>
            if |colorValue| < 6 && AllAsciiHexChars(s) {
              colorValue := colorValue + AsciiHexBytes(s);
              changed' := true;
            }
          case Backspace =>
            if colorValue != [] {
              colorValue := colorValue[..|colorValue| - 1];
            }
            changed' := true;
          case OtherKey =>
        }
      }
    }

    /** `color_input`: edit the colour buffer with this frame's key events. */
    method ColorInputSystem(events: seq<KeyEvent>)
      requires Valid()
      modifies this
      ensures Valid()
      ensures View() == ColorInputRun(old(View()), events)
    {
      if !colorActive {
        return;
      }
      var changed := false;
      var i := 0;
      while i < |events|
        invariant 0 <= i <= |events|
        invariant (colorValue, changed) == ColorKeys(old(colorValue), events[..i])
        invariant View() == old(View()).(colorValue := colorValue)
      {
        changed := ColorKeyEvent(changed, events[i]);
        assert events[..i + 1][..i] == events[..i];
        i := i + 1;
      }
      assert events[..|events|] == events;
      if changed {
        ColorRefresh();
      }
      ColorKeysStayHex(old(colorValue), events);
    }

    /** The end of `color_input` after an edit: the text shows the buffer, and a parsable buffer recolours the brush. */
    method ColorRefresh()
      modifies this
      ensures var parsed := ParseHexColor(old(colorValue));
              View() == old(View()).(colorText := old(colorValue),
                                     brushColor := if parsed.Returns? && parsed.value.Ok? then parsed.value.value else old(brushColor))
    {
      colorText := colorValue;
      var parsed := ParseHexColor(colorValue);
      if parsed.Returns? && parsed.value.Ok? {
        brushColor := parsed.value.value;
      }
    }

    /** One key event of `char_input`'s loop, applied in place to the glyph buffer and the brush. */
    method CharKeyEvent(changed: bool, ev: KeyEvent) returns (changed': bool)
      modifies this
      ensures (charValue, brushCh, changed') == CharKey(old(charValue), old(brushCh), changed, ev)
      ensures View() == old(View()).(charValue := charValue, brushCh := brushCh)
    {
      changed' := changed;
      if ev.pressed {
        match ev.key {
          case Character(s) =>
            if s != [] {
              charValue := [s[0]];
              brushCh := s[0];
              changed' := true;
            }
          case Backspace =>
            charValue := [];
            brushCh := ' ';
            changed' := true;
          case OtherKey =>
        }
      }
    }

    /** `char_input`: edit the glyph buffer and the brush glyph with this frame's key events. */
    method CharInputSystem(events: seq<KeyEvent>)
      requires Valid()
      modifies this
      ensures Valid()
      ensures View() == CharInputRun(old(View()), events)
    {
      if !charActive {
        return;
      }
      var changed := false;
      var i := 0;
      while i < |events|
        invariant 0 <= i <= |events|
        invariant (charValue, brushCh, changed) == CharKeys(old(charValue), old(brushCh), events[..i])
        invariant View() == old(View()).(charValue := charValue, brushCh := brushCh)
      {
        changed := CharKeyEvent(changed, events[i]);
        assert events[..i + 1][..i] == events[..i];
        i := i + 1;
      }
      assert events[..|events|] == events;
      if changed {
        charText := charValue;
      }
    }
  }
}
