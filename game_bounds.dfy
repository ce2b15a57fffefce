/** `despawn_out_of_bounds`: entities that have left the window, plus a margin, are despawned. */
module Bounds {

  /** The window's size in world units. */
  datatype Window = Window(width: real, height: real)

  /** An entity's id and the x and y of its translation. */
  datatype Placed = Placed(id: nat, x: real, y: real)

  const BulletMargin: real := 0.0
  const EnemyMargin: real := 100.0
  const ItemMargin: real := 200.0

  function Abs(v: real): (a: real)
    ensures a >= 0.0 && (a == v || a == -v)
  {
    if v < 0.0 then -v else v
  }

  /** Further than half the window plus the margin from the centre, on either axis. */
  predicate OutOfBounds(p: Placed, win: Window, margin: real)
    ensures OutOfBounds(p, win, margin) <==>
              !(-(win.width / 2.0 + margin) <= p.x <= win.width / 2.0 + margin &&
                -(win.height / 2.0 + margin) <= p.y <= win.height / 2.0 + margin)
  {
    Abs(p.x) > win.width / 2.0 + margin || Abs(p.y) > win.height / 2.0 + margin
  }

  /** The ids to despawn, in query order. */
  function Leaving(ps: seq<Placed>, win: Window, margin: real): (ids: seq<nat>)
    ensures |ids| <= |ps|
  {
    if ps == [] then []
    else
      var rest := Leaving(ps[..|ps| - 1], win, margin);
      if OutOfBounds(ps[|ps| - 1], win, margin) then rest + [ps[|ps| - 1].id] else rest
  }

  /** An id is despawned exactly when some entity with it is out of bounds. */
  lemma {:induction false} LeavingExactly(ps: seq<Placed>, win: Window, margin: real, e: nat)
    ensures e in Leaving(ps, win, margin) <==> exists k :: 0 <= k < |ps| && ps[k].id == e && OutOfBounds(ps[k], win, margin)
  {
    if ps != [] {
      var init := ps[..|ps| - 1];
      LeavingExactly(init, win, margin, e);
      if exists k :: 0 <= k < |init| && init[k].id == e && OutOfBounds(init[k], win, margin) {
        var k :| 0 <= k < |init| && init[k].id == e && OutOfBounds(init[k], win, margin);
        assert ps[k] == init[k];
      }
      if exists k :: 0 <= k < |ps| && ps[k].id == e && OutOfBounds(ps[k], win, margin) {
        var k :| 0 <= k < |ps| && ps[k].id == e && OutOfBounds(ps[k], win, margin);
        if k < |init| {
          assert init[k] == ps[k];
        }
      }
    }
  }

  /** A wider margin despawns less: whatever leaves with the wider margin has also left with the narrower. */
  lemma MarginMonotone(p: Placed, win: Window, narrow: real, wide: real)
    requires narrow <= wide
    ensures OutOfBounds(p, win, wide) ==> OutOfBounds(p, win, narrow)
  {
  }

  /** An entity inside the window is never despawned, whatever the non-negative margin. */
  lemma InsideStays(p: Placed, win: Window, margin: real)
    requires margin >= 0.0 && Abs(p.x) <= win.width / 2.0 && Abs(p.y) <= win.height / 2.0
    ensures !OutOfBounds(p, win, margin)
  {
  }

  /** The loop of `despawn_out_of_bounds`, returning the despawn commands it issues. */
  method DespawnOutOfBounds(ps: seq<Placed>, win: Window, margin: real) returns (despawned: seq<nat>)
    ensures despawned == Leaving(ps, win, margin)
  {
    var maxX := win.width / 2.0 + margin;
    var maxY := win.height / 2.0 + margin;
    despawned := [];
    var i := 0;
    while i < |ps|
      invariant 0 <= i <= |ps|
      invariant despawned == Leaving(ps[..i], win, margin)
    {
      var p := ps[i];
      if Abs(p.x) > maxX || Abs(p.y) > maxY {
        despawned := despawned + [p.id];
      }
      assert ps[..i + 1][..i] == ps[..i];
      i := i + 1;
    }
    assert ps[..|ps|] == ps;
  }
}
