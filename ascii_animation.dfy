/**
 * ASCII animations: an asset of frames of (glyph, hex colour) cells, decoded into a
 * component that an entity plays by redrawing one text child per cell whenever the
 * repeating frame timer finishes.
 */
module AsciiAnimation {
  import opened Wrappers
  import opened Hex
  import opened Timers
  import opened Arith

  const Hash: Byte := '#' as int
  const White := Rgb(255, 255, 255)

  // ---------------------------------------------------------------------------
  // color_from_hex
  // ---------------------------------------------------------------------------

  /** `unwrap_or(255)` on a parsed channel. */
  function Channel(p: Option<Byte>): Byte
  {
    if p.Some? then p.value else 255
  }

  /**
   * `color_from_hex`: strip every leading `#`, then parse the three two-byte slices; a
   * channel that does not parse is 255, a slice that does not exist panics.
   */
  function ColorFromHex(hex: seq<Byte>): (r: Outcome<Rgb>)
    ensures var h := TrimStart(hex, Hash);
            r.Returns? <==> 6 <= |h| && IsCharBoundary(h, 2) && IsCharBoundary(h, 4) && IsCharBoundary(h, 6)
    ensures var h := TrimStart(hex, Hash);
            r.Returns? ==>
              r.value == Rgb(Channel(ParseU8Hex(h[0..2])), Channel(ParseU8Hex(h[2..4])), Channel(ParseU8Hex(h[4..6])))
  {
    var h := TrimStart(hex, Hash);
    match Slice(h, 0, 2)
    case Panics => Panics
    case Returns(rs) =>
      match Slice(h, 2, 4)
      case Panics => Panics
      case Returns(gs) =>
        match Slice(h, 4, 6)
        case Panics => Panics
        case Returns(bs) => Returns(Rgb(Channel(ParseU8Hex(rs)), Channel(ParseU8Hex(gs)), Channel(ParseU8Hex(bs))))
  }

  /** Leading `#` characters make no difference, however many there are. */
  lemma HashPrefixIgnored(hex: seq<Byte>)
    ensures ColorFromHex([Hash] + hex) == ColorFromHex(hex)
  {
    assert ([Hash] + hex)[1..] == hex;
  }

  /** A colour written as `#rrggbb` or `rrggbb` decodes to itself. */
  lemma FormattedColorDecodes(c: Rgb, upper: bool)
    ensures ColorFromHex(FormatRgb(c, upper)) == Returns(c)
    ensures ColorFromHex([Hash] + FormatRgb(c, upper)) == Returns(c)
  {
    var s := FormatRgb(c, upper);
    assert IsHexDigit(s[0]);
    assert TrimStart(s, Hash) == s;
    assert s[0..2] == FormatByte(c.r, upper);
    assert s[2..4] == FormatByte(c.g, upper);
    assert s[4..6] == FormatByte(c.b, upper);
    ParseFormatByte(c.r, upper);
    ParseFormatByte(c.g, upper);
    ParseFormatByte(c.b, upper);
    HashPrefixIgnored(s);
  }

  /** Channels that are not hex fall back to 255: "zzzzzz" is white. */
  lemma InvalidChannelsAreWhite()
    ensures ColorFromHex(['z' as int, 'z' as int, 'z' as int, 'z' as int, 'z' as int, 'z' as int]) == Returns(White)
  {
    var z: Byte := 'z' as int;
    var s := [z, z, z, z, z, z];
    assert TrimStart(s, Hash) == s;
    assert s[0..2] == s[2..4] == s[4..6] == [z, z];
    ParsePair(z, z);
  }

  /** The three-digit shorthand "#fff" is too short and panics. */
  lemma ShorthandPanics()
    ensures ColorFromHex([Hash, 'f' as int, 'f' as int, 'f' as int]) == Panics
  {
    var f: Byte := 'f' as int;
    assert TrimStart([Hash, f, f, f], Hash) == TrimStart([f, f, f], Hash) == [f, f, f];
  }

  // ---------------------------------------------------------------------------
  // The asset and its component
  // ---------------------------------------------------------------------------

  datatype Pos = Pos(x: nat, y: nat)
  datatype Cell = Cell(ch: char, color: Rgb)

  /**
   * `AsciiAnimationAsset`: `frameNum` frames of `width` x `height` cells, row-major,
   * frame after frame; `frameTime` in timer ticks.
   */
  datatype AnimationAsset = AnimationAsset(frames: seq<(char, seq<Byte>)>, width: nat, height: nat, frameNum: nat, frameTime: nat)

  /** The `AsciiAnimation` component as `get_component` builds it. */
  datatype Animation = Animation(frames: seq<Cell>, currentFrame: nat, frameNum: nat, width: nat, height: nat, frameTime: Timer)

  /** One cell of `get_component`'s `map`: the glyph kept, the colour decoded. */
  function DecodeCell(f: (char, seq<Byte>)): (r: Outcome<Cell>)
    ensures r.Returns? <==> ColorFromHex(f.1).Returns?
    ensures r.Returns? ==> r.value.ch == f.0 && r.value.color == ColorFromHex(f.1).value
  {
    match ColorFromHex(f.1)
    case Panics => Panics
    case Returns(c) => Returns(Cell(f.0, c))
  }

  /** The colours of all cells decoded in order; any colour that panics makes the whole decode panic. */
  function DecodeFrames(frames: seq<(char, seq<Byte>)>): (r: Outcome<seq<Cell>>)
    ensures r.Returns? <==> forall i :: 0 <= i < |frames| ==> ColorFromHex(frames[i].1).Returns?
    ensures r.Returns? ==>
              |r.value| == |frames| &&
              forall i :: 0 <= i < |frames| ==> r.value[i] == Cell(frames[i].0, ColorFromHex(frames[i].1).value)
  {
    MapAll(frames, DecodeCell)
  }

  /** `get_component`: decoded frames, the first frame showing, a repeating frame timer. */
  function GetComponent(asset: AnimationAsset): (r: Outcome<Animation>)
    ensures r.Returns? <==> forall i :: 0 <= i < |asset.frames| ==> ColorFromHex(asset.frames[i].1).Returns?
    ensures r.Returns? ==>
              && |r.value.frames| == |asset.frames|
              && (forall i :: 0 <= i < |asset.frames| ==>
                    r.value.frames[i] == Cell(asset.frames[i].0, ColorFromHex(asset.frames[i].1).value))
              && r.value.currentFrame == 0
              && r.value.frameNum == asset.frameNum && r.value.width == asset.width && r.value.height == asset.height
              && r.value.frameTime == NewTimer(asset.frameTime, Repeating)
  {
    match DecodeFrames(asset.frames)
    case Panics => Panics
    case Returns(cells) =>
      Returns(Animation(cells, 0, asset.frameNum, asset.width, asset.height, NewTimer(asset.frameTime, Repeating)))
  }

  // ---- get_ascii_char_at ----

  /** The index `get_ascii_char_at` reads: row-major inside the frame, frames one after another. */
  function CellIndex(width: nat, height: nat, frame: nat, p: Pos): (r: nat)
    ensures frame * (width * height) <= r
    ensures InFrame(width, height, p) ==> r < (frame + 1) * (width * height)
  {
    if InFrame(width, height, p) then
      MulMonotone(p.y, height - 1, width);
      MulSucc(height - 1, width);
      MulSucc(frame, width * height);
      p.x + p.y * width + frame * (width * height)
    else p.x + p.y * width + frame * (width * height)
  }

  predicate InFrame(width: nat, height: nat, p: Pos)
  {
    p.x < width && p.y < height
  }

  /** A cell of frame `frame` lies in that frame's block of `width * height` cells, inside the asset. */
  lemma CellIndexInFrame(width: nat, height: nat, frameNum: nat, frame: nat, p: Pos)
    requires InFrame(width, height, p) && frame < frameNum
    ensures frame * (width * height) <= CellIndex(width, height, frame, p) < (frame + 1) * (width * height)
    ensures CellIndex(width, height, frame, p) < frameNum * (width * height)
  {
    MulMonotone(p.y, height - 1, width);
    MulSucc(height - 1, width);
    MulSucc(frame, width * height);
    MulMonotone(frame + 1, frameNum, width * height);
  }

  /**
   * Two in-frame positions of two existing frames read the same cell only if they are the
   * same position of the same frame.
   */
  lemma CellIndexInjective(width: nat, height: nat, frameNum: nat, f: nat, g: nat, p: Pos, q: Pos)
    requires InFrame(width, height, p) && InFrame(width, height, q) && f < frameNum && g < frameNum
    requires CellIndex(width, height, f, p) == CellIndex(width, height, g, q)
    ensures f == g && p == q
  {
    CellIndexInFrame(width, height, frameNum, f, p);
    CellIndexInFrame(width, height, frameNum, g, q);
    if f < g {
      MulMonotone(f + 1, g, width * height);
    } else if g < f {
      MulMonotone(g + 1, f, width * height);
    }
    assert f == g;
    if p.y < q.y {
      MulMonotone(p.y + 1, q.y, width);
      MulSucc(p.y, width);
    } else if q.y < p.y {
      MulMonotone(q.y + 1, p.y, width);
      MulSucc(q.y, width);
    }
  }

  // ---- frame advance ----

  /** `(current_frame + 1) % frame_num`. */
  function Advance(frame: nat, frameNum: nat): (r: nat)
    requires frameNum > 0
    ensures r < frameNum
    ensures frame + 1 < frameNum ==> r == frame + 1
    ensures frame + 1 == frameNum ==> r == 0
  {
    (frame + 1) % frameNum
  }

  function AdvanceTimes(frame: nat, frameNum: nat, k: nat): nat
    requires frameNum > 0
  {
    if k == 0 then frame else Advance(AdvanceTimes(frame, frameNum, k - 1), frameNum)
  }

  /** After `k` finished frame timers the animation shows frame `(frame + k) % frameNum`. */
  lemma {:induction false} AdvanceTimesMod(frame: nat, frameNum: nat, k: nat)
    requires frameNum > 0 && frame < frameNum
    ensures AdvanceTimes(frame, frameNum, k) == (frame + k) % frameNum
  {
    if k == 0 {
      ModUnique(frame, frameNum, 0, frame);
    } else {
      var prev := AdvanceTimes(frame, frameNum, k - 1);
      AdvanceTimesMod(frame, frameNum, k - 1);
      AdvanceMod(frame + k - 1, frameNum);
      assert AdvanceTimes(frame, frameNum, k) == Advance(prev, frameNum);
    }
  }

  /** Advancing from a reduced frame number is advancing the unreduced one. */
  lemma AdvanceMod(a: nat, n: nat)
    requires n > 0
    ensures Advance(a % n, n) == (a + 1) % n
  {
    var q, m := a / n, a % n;
    assert a == q * n + m && m < n;
    if m + 1 < n {
      ModUnique(a + 1, n, q, m + 1);
    } else {
      MulSucc(q, n);
      ModUnique(a + 1, n, q + 1, 0);
    }
  }

  /** `frameNum` finished timers bring the animation back to the frame it started from. */
  lemma AnimationCycles(frame: nat, frameNum: nat)
    requires frameNum > 0 && frame < frameNum
    ensures AdvanceTimes(frame, frameNum, frameNum) == frame
  {
    AdvanceTimesMod(frame, frameNum, frameNum);
    ModUnique(frame + frameNum, frameNum, 1, frame);
  }

  // ---- spawn order ----

  /** The children `spawn_ascii_animation` creates for column `x`, top to bottom. */
  function ColumnPositions(x: nat, height: nat): (ps: seq<Pos>)
    ensures |ps| == height
    ensures forall y :: 0 <= y < height ==> ps[y] == Pos(x, y)
  {
    seq(height, y requires 0 <= y => Pos(x, y))
  }

  /** The positions of the spawned children in spawn order: column by column, each top to bottom. */
  function SpawnPositions(width: nat, height: nat): (ps: seq<Pos>)
    ensures |ps| == width * height
  {
    if width == 0 then [] else SpawnPositions(width - 1, height) + ColumnPositions(width - 1, height)
  }

  predicate Distinct(ps: seq<Pos>)
  {
    forall i, j :: 0 <= i < j < |ps| ==> ps[i] != ps[j]
  }

  /** One child per cell of the frame: every cell is covered, none twice, none outside. */
  lemma {:induction false} SpawnCoversFrame(width: nat, height: nat)
    ensures forall i :: 0 <= i < |SpawnPositions(width, height)| ==> InFrame(width, height, SpawnPositions(width, height)[i])
    ensures forall x, y :: 0 <= x < width && 0 <= y < height ==> Pos(x, y) in SpawnPositions(width, height)
    ensures Distinct(SpawnPositions(width, height))
  {
    if width > 0 {
      SpawnCoversFrame(width - 1, height);
      var prefix := SpawnPositions(width - 1, height);
      var column := ColumnPositions(width - 1, height);
      var ps := prefix + column;
      forall x, y | 0 <= x < width && 0 <= y < height
        ensures Pos(x, y) in ps
      {
        if x == width - 1 {
          assert ps[|prefix| + y] == Pos(x, y);
        } else {
          assert Pos(x, y) in prefix;
        }
      }
      forall i, j | 0 <= i < j < |ps|
        ensures ps[i] != ps[j]
      {
        if j < |prefix| {
          assert ps[i] == prefix[i] && ps[j] == prefix[j];
        } else if i < |prefix| {
          assert ps[i].x < width - 1 && ps[j].x == width - 1;
        } else {
          assert ps[i].y == i - |prefix| && ps[j].y == j - |prefix|;
        }
      }
    }
  }

  // ---------------------------------------------------------------------------
  // The animated entity: the component and its text children, updated in place.
  // ---------------------------------------------------------------------------

  /** A child entity: its `AsciiChar` position, its `Text2d` and its `TextColor`. */
  datatype Glyph = Glyph(pos: Pos, text: seq<char>, color: Rgb)

  function Positions(gs: seq<Glyph>): (ps: seq<Pos>)
    ensures |ps| == |gs| && forall i :: 0 <= i < |gs| ==> ps[i] == gs[i].pos
  {
    seq(|gs|, i requires 0 <= i < |gs| => gs[i].pos)
  }

  /** The child shows the cell of frame `frame` at its own position. */
  predicate Shows(frames: seq<Cell>, width: nat, height: nat, frame: nat, g: Glyph)
  {
    && InFrame(width, height, g.pos)
    && CellIndex(width, height, frame, g.pos) < |frames|
    && g.text == [frames[CellIndex(width, height, frame, g.pos)].ch]
    && g.color == frames[CellIndex(width, height, frame, g.pos)].color
  }

  /**
   * The loops of `spawn_ascii_animation`: one text child per cell of the first frame,
   * spawned column by column, each showing its cell's glyph and colour.
   */
  method SpawnChildren(frames: seq<Cell>, width: nat, height: nat) returns (children: seq<Glyph>)
    requires |frames| >= width * height
    ensures Positions(children) == SpawnPositions(width, height)
    ensures forall i :: 0 <= i < |children| ==> Shows(frames, width, height, 0, children[i])
  {
    children := [];
    var x := 0;
    while x < width
      invariant 0 <= x <= width
      invariant Positions(children) == SpawnPositions(x, height)
      invariant forall i :: 0 <= i < |children| ==> Shows(frames, width, height, 0, children[i])
    {
      var y := 0;
      while y < height
        invariant 0 <= y <= height
        invariant Positions(children) == SpawnPositions(x, height) + ColumnPositions(x, height)[..y]
        invariant forall i :: 0 <= i < |children| ==> Shows(frames, width, height, 0, children[i])
      {
        var p := Pos(x, y);
        CellIndexInFrame(width, height, 1, 0, p);
        var cell := frames[CellIndex(width, height, 0, p)];
        var g := Glyph(p, [cell.ch], cell.color);
        assert Shows(frames, width, height, 0, g);
        ghost var before := children;
        children := children + [g];
        assert Positions(children) == Positions(before) + [p];
        assert ColumnPositions(x, height)[..y + 1] == ColumnPositions(x, height)[..y] + [p];
        y := y + 1;
      }
      assert ColumnPositions(x, height)[..height] == ColumnPositions(x, height);
      x := x + 1;
    }
  }

  class AnimationEntity {
    const frames: seq<Cell>
    const frameNum: nat
    const width: nat
    const height: nat
    var currentFrame: nat
    var frameTime: Timer
    var children: seq<Glyph>

    /** Every child displays its cell of the current frame. */
    predicate Valid()
      reads this
    {
      forall i :: 0 <= i < |children| ==> Shows(frames, width, height, currentFrame, children[i])
    }

    /** `spawn_ascii_animation`: the children spawned, and the component inserted on the parent. */
    constructor (anim: Animation)
      requires anim.currentFrame == 0 && |anim.frames| >= anim.width * anim.height
      ensures frames == anim.frames && frameNum == anim.frameNum
      ensures width == anim.width && height == anim.height
      ensures currentFrame == 0 && frameTime == anim.frameTime
      ensures Positions(children) == SpawnPositions(width, height)
      ensures Valid()
    {
      frames, frameNum, width, height := anim.frames, anim.frameNum, anim.width, anim.height;
      var spawned := SpawnChildren(anim.frames, anim.width, anim.height);
      currentFrame, frameTime, children := 0, anim.frameTime, spawned;
    }

    /** `play_ascii_animation` for this entity: tick, and on a finished frame redraw every child. */
    method Play(delta: nat)
      requires Valid() && frameNum > 0 && |frames| >= frameNum * (width * height)
      modifies this
      ensures Valid()
      ensures frameTime == Tick(old(frameTime), delta)
      ensures currentFrame == if frameTime.justFinished then Advance(old(currentFrame), frameNum) else old(currentFrame)
      ensures Positions(children) == Positions(old(children))
      ensures !frameTime.justFinished ==> children == old(children)
    {
      frameTime := Tick(frameTime, delta);
      if frameTime.justFinished {
        currentFrame := Advance(currentFrame, frameNum);
        var i := 0;
        while i < |children|
          invariant 0 <= i <= |children|
          invariant frameTime == Tick(old(frameTime), delta)
          invariant currentFrame == Advance(old(currentFrame), frameNum)
          invariant Positions(children) == Positions(old(children))
          invariant forall k :: 0 <= k < |children| ==> InFrame(width, height, children[k].pos)
          invariant forall k :: 0 <= k < i ==> Shows(frames, width, height, currentFrame, children[k])
        {
          var p := children[i].pos;
          CellIndexInFrame(width, height, frameNum, currentFrame, p);
          var cell := frames[CellIndex(width, height, currentFrame, p)];
          children := children[i := children[i].(text := [cell.ch], color := cell.color)];
          i := i + 1;
        }
      }
    }
  }
}
