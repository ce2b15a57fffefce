/**
 * The systems that react to Rapier's collision events: `bullet_hit` (enemy health and
 * death, the player's lives and power), `item_hit` (pickups), `player_graze` (the graze
 * marker and counter) and `player_bomb`.
 *
 * Entities are numbered. Component fields that a system changes through a query
 * (`health`, a bullet's velocity and colour) change at once, but `Commands` (despawn,
 * insert, remove) are only queued; the queue is applied when the system has read all of
 * its events. So within one frame every event still sees the entities and markers as
 * they were when the frame began.
 */
module Collisions {
  import opened Wrappers

  datatype CollisionEvent = Started(e1: nat, e2: nat) | Stopped(e1: nat, e2: nat)

  /** The two `rand::random::<u32>()` draws `bullet_hit` makes when an enemy dies. */
  datatype Rolls = Rolls(power: nat, point: nat)

  datatype Enemy = Enemy(health: int, invincible: bool)

  /** A bullet's text colour: one of the game's colours, or a colour brightened by the graze bloom. */
  datatype Glow = Tint(id: nat) | Bloom(inner: Glow)

  /** The `GrazingBullet` marker; its `speed_decay` is always `GrazeDecay`, so only the colour is kept. */
  datatype GrazeMark = GrazeMark(original: Glow)

  datatype Bullet = Bullet(vx: real, vy: real, color: Glow, mark: Option<GrazeMark>)

  /** A deferred command: despawn an entity, make the player invincible (and hide and respawn it), insert or remove a graze marker. */
  datatype Command = Despawn(e: nat) | HitPlayer(e: nat) | Mark(e: nat, m: GrazeMark) | Unmark(e: nat)

  /** The entities and resources the collision systems use, with the commands queued so far. */
  datatype World = World(
    enemies: map<nat, Enemy>,
    bullets: map<nat, Bullet>,
    player: Option<nat>,
    playerInvincible: bool,
    zone: Option<nat>,
    powerItems: set<nat>,
    pointItems: set<nat>,
    lives: int,
    bombs: int,
    powers: int,
    points: int,
    graze: int,
    powerDrops: nat,
    pointDrops: nat,
    queue: seq<Command>)

  const GrazeDecay: real := 0.7

  function Opt(o: Option<nat>): (s: set<nat>)
    ensures forall e :: e in s <==> o == Some(e)
  {
    if o.Some? then {o.value} else {}
  }

  // ---------------------------------------------------------------------------
  // Pair matching
  // ---------------------------------------------------------------------------

  /** `match_bullet_hit_pair`: which of the two colliders is the bullet and which the target. */
  function MatchPair(e1: nat, e2: nat, bullets: set<nat>, targets: set<nat>): (r: Option<(nat, nat)>)
    ensures r.Some? <==> (e1 in bullets && e2 in targets) || (e2 in bullets && e1 in targets)
    ensures r.Some? ==> r.value.0 in bullets && r.value.1 in targets
    ensures r.Some? ==> r.value == (e1, e2) || r.value == (e2, e1)
    ensures e1 in bullets && e2 in targets ==> r == Some((e1, e2))
  {
    if e1 in bullets && e2 in targets then Some((e1, e2))
    else if e2 in bullets && e1 in targets then Some((e2, e1))
    else None
  }

  /** Unless both orders match, the order in which Rapier reports the pair does not matter. */
  lemma MatchPairSymmetric(e1: nat, e2: nat, bullets: set<nat>, targets: set<nat>)
    requires !(e1 in bullets && e2 in targets && e2 in bullets && e1 in targets)
    ensures MatchPair(e1, e2, bullets, targets) == MatchPair(e2, e1, bullets, targets)
  {
  }

  /** `match_graze_bullet_pair`: the bullet of a graze-zone/bullet pair (the zone is matched first). */
  function MatchGraze(e1: nat, e2: nat, zones: set<nat>, bullets: set<nat>): (r: Option<nat>)
    ensures r.Some? <==> (e1 in zones && e2 in bullets) || (e2 in zones && e1 in bullets)
    ensures r.Some? ==> r.value in bullets && (r.value == e1 || r.value == e2)
  {
    if e1 in zones && e2 in bullets then Some(e2)
    else if e2 in zones && e1 in bullets then Some(e1)
    else None
  }

  /** When no entity is both a zone and a bullet, the graze matcher finds the bullet `match_bullet_hit_pair` would. */
  lemma MatchGrazeAgrees(e1: nat, e2: nat, zones: set<nat>, bullets: set<nat>)
    requires zones !! bullets
    ensures var m := MatchPair(e1, e2, bullets, zones);
            MatchGraze(e1, e2, zones, bullets) == if m.Some? then Some(m.value.0) else None
  {
  }

  // ---------------------------------------------------------------------------
  // Deferred commands
  // ---------------------------------------------------------------------------

  function ApplyOne(w: World, c: Command): (r: World)
    ensures r.queue == w.queue && r.lives == w.lives && r.powers == w.powers && r.points == w.points
    ensures r.graze == w.graze && r.bombs == w.bombs
    ensures r.bullets.Keys <= w.bullets.Keys && r.enemies.Keys <= w.enemies.Keys
  {
    match c
    case Despawn(e) =>
      w.(enemies := w.enemies - {e}, bullets := w.bullets - {e},
         powerItems := w.powerItems - {e}, pointItems := w.pointItems - {e},
         player := if w.player == Some(e) then None else w.player,
         zone := if w.zone == Some(e) then None else w.zone)
    case HitPlayer(e) =>
      if w.player == Some(e) then w.(playerInvincible := true) else w
    case Mark(e, m) =>
      if e in w.bullets then w.(bullets := w.bullets[e := w.bullets[e].(mark := Some(m))]) else w
    case Unmark(e) =>
      if e in w.bullets then w.(bullets := w.bullets[e := w.bullets[e].(mark := None)]) else w
  }

  /** Commands only remove entities and set markers and flags: the queue and the counters are left alone. */
  function ApplyAll(w: World, cmds: seq<Command>): (r: World)
    ensures r.queue == w.queue && r.lives == w.lives && r.powers == w.powers && r.points == w.points
    ensures r.graze == w.graze && r.bombs == w.bombs
    ensures r.bullets.Keys <= w.bullets.Keys && r.enemies.Keys <= w.enemies.Keys
  {
    if cmds == [] then w else ApplyOne(ApplyAll(w, cmds[..|cmds| - 1]), cmds[|cmds| - 1])
  }

  /** The end of a system: its queued commands applied in order, and the queue emptied. */
  function Flush(w: World): (r: World)
    ensures r.queue == []
  {
    ApplyAll(w.(queue := []), w.queue)
  }

  lemma FlushOne(w: World, c: Command)
    requires w.queue == [c]
    ensures Flush(w) == ApplyOne(w.(queue := []), c)
  {
    var x := w.(queue := []);
    assert w.queue[..0] == [];
    assert ApplyAll(x, []) == x;
    assert ApplyAll(x, [c]) == ApplyOne(ApplyAll(x, []), c);
  }

  lemma FlushTwo(w: World, c1: Command, c2: Command)
    requires w.queue == [c1, c2]
    ensures Flush(w) == ApplyOne(ApplyOne(w.(queue := []), c1), c2)
  {
    var x := w.(queue := []);
    assert w.queue[..1] == [c1];
    assert w.queue[..1][..0] == [];
    assert ApplyAll(x, []) == x;
    assert ApplyAll(x, [c1]) == ApplyOne(x, c1);
    assert ApplyAll(x, [c1, c2]) == ApplyOne(ApplyAll(x, [c1]), c2);
  }

  // ---------------------------------------------------------------------------
  // bullet_hit
  // ---------------------------------------------------------------------------

  /** `rand::random::<u32>() % 3 + 1`: one to three items. */
  function Drop(roll: nat): (n: nat)
    ensures 1 <= n <= 3
  {
    roll % 3 + 1
  }

  /** `(powers as f32 * 0.5).ceil() as u32`: half the power rounded up, and nothing for a non-positive power. */
  function CeilHalf(p: int): (c: nat)
    ensures p <= 0 ==> c == 0
    ensures p > 0 ==> 2 * c - 1 <= p <= 2 * c
  {
    if p <= 0 then 0 else (p + 1) / 2
  }

  /** One event of `bullet_hit`. */
  function HitStep(w: World, ev: CollisionEvent, rolls: Rolls): (r: World)
    ensures ev.Stopped? ==> r == w
    ensures r.bullets == w.bullets && r.enemies.Keys == w.enemies.Keys && r.player == w.player
    ensures r.playerInvincible == w.playerInvincible && r.points == w.points && r.graze == w.graze && r.bombs == w.bombs
    ensures w.queue <= r.queue && |r.queue| <= |w.queue| + 2
  {
    match ev
    case Stopped(_, _) => w
    case Started(e1, e2) =>
      match MatchPair(e1, e2, w.bullets.Keys, w.enemies.Keys)
      case Some((b, en)) =>
        var enemy := w.enemies[en];
        if enemy.invincible then w
        else
          var h := enemy.health - 1;
          var hit := w.(enemies := w.enemies[en := enemy.(health := h)]);
          var dead :=
            if h <= 0 then
              hit.(powerDrops := hit.powerDrops + Drop(rolls.power),
                   pointDrops := hit.pointDrops + Drop(rolls.point),
                   queue := hit.queue + [Despawn(en)])
            else hit;
          dead.(queue := dead.queue + [Despawn(b)])
      case None =>
        match MatchPair(e1, e2, w.bullets.Keys, Opt(w.player))
        case Some((b, p)) =>
          if w.playerInvincible then w
          else
            w.(lives := if w.lives - 1 > 0 then w.lives - 1 else 0,
               powerDrops := w.powerDrops + CeilHalf(w.powers),
               powers := 0,
               queue := w.queue + [HitPlayer(p), Despawn(b)])
        case None => w
  }

  /** `bullet_hit` over a frame's events: entities stay until the frame's commands are applied, and commands only accumulate. */
  function HitRun(w: World, evs: seq<(CollisionEvent, Rolls)>): (r: World)
    ensures r.bullets == w.bullets && r.enemies.Keys == w.enemies.Keys && r.player == w.player
    ensures w.queue <= r.queue && |r.queue| <= |w.queue| + 2 * |evs|
  {
    if evs == [] then w
    else
      var last := evs[|evs| - 1];
      HitStep(HitRun(w, evs[..|evs| - 1]), last.0, last.1)
  }

  /** A bullet reaching an enemy that is not invincible costs it one health, and the bullet; it dies at 0. */
  lemma EnemyHit(w: World, b: nat, en: nat, rolls: Rolls)
    requires b in w.bullets && en in w.enemies && b !in w.enemies
    ensures var r := HitStep(w, Started(b, en), rolls);
            if w.enemies[en].invincible then r == w
            else
              && r.enemies == w.enemies[en := w.enemies[en].(health := w.enemies[en].health - 1)]
              && r.queue[|r.queue| - 1] == Despawn(b)
              && (Despawn(en) in r.queue[|w.queue|..] <==> w.enemies[en].health <= 1)
              && (w.enemies[en].health <= 1 ==>
                    r.powerDrops - w.powerDrops == Drop(rolls.power) && r.pointDrops - w.pointDrops == Drop(rolls.point))
              && r.lives == w.lives && r.powers == w.powers
  {
    var r := HitStep(w, Started(b, en), rolls);
    if !w.enemies[en].invincible {
      if w.enemies[en].health <= 1 {
        assert r.queue[|w.queue|..] == [Despawn(en), Despawn(b)];
      } else {
        assert r.queue[|w.queue|..] == [Despawn(b)];
      }
    }
  }

  /**
   * A bullet reaching the player (with no enemy in the pair) when it is not invincible:
   * one life lost but never below zero, half the power dropped rounded up, power reset.
   */
  lemma PlayerHit(w: World, b: nat, p: nat, rolls: Rolls)
    requires b in w.bullets && w.player == Some(p) && b !in w.enemies && p !in w.enemies
    ensures var r := HitStep(w, Started(b, p), rolls);
            if w.playerInvincible then r == w
            else
              && r.lives == (if w.lives - 1 > 0 then w.lives - 1 else 0)
              && r.powerDrops == w.powerDrops + CeilHalf(w.powers)
              && r.powers == 0
              && r.queue == w.queue + [HitPlayer(p), Despawn(b)]
              && r.enemies == w.enemies
  {
  }

  /**
   * Over any events of one frame, lives and power never grow and never go negative, and
   * no entity disappears before the frame's commands are applied.
   */
  lemma {:induction false} HitRunBounds(w: World, evs: seq<(CollisionEvent, Rolls)>)
    requires w.lives >= 0 && w.powers >= 0
    ensures var r := HitRun(w, evs);
            && 0 <= r.lives <= w.lives && 0 <= r.powers <= w.powers
            && r.enemies.Keys == w.enemies.Keys && r.bullets == w.bullets
            && r.player == w.player && r.playerInvincible == w.playerInvincible
            && w.queue <= r.queue
            && r.powerDrops >= w.powerDrops && r.pointDrops >= w.pointDrops
            && w.lives - r.lives <= |evs|
  {
    if evs != [] {
      HitRunBounds(w, evs[..|evs| - 1]);
    }
  }

  lemma HitRunTwo(w: World, a: (CollisionEvent, Rolls), b: (CollisionEvent, Rolls))
    ensures HitRun(w, [a, b]) == HitStep(HitStep(w, a.0, a.1), b.0, b.1)
  {
    assert [a, b][..1] == [a];
    assert [a, b][..1][..0] == [];
    assert HitRun(w, []) == w;
    assert HitRun(w, [a]) == HitStep(w, a.0, a.1);
  }

  /**
   * Invincibility is a deferred insert: two bullets that reach the player in the same
   * frame cost two lives, while a second bullet in the next frame costs none.
   */
  lemma TwoHitsInOneFrame(w: World, p: nat, b1: nat, b2: nat, r1: Rolls, r2: Rolls)
    requires w.player == Some(p) && !w.playerInvincible && w.lives >= 2 && w.queue == []
    requires b1 in w.bullets && b2 in w.bullets && b1 != b2 && p !in w.bullets
    requires b1 !in w.enemies && b2 !in w.enemies && p !in w.enemies
    ensures HitRun(w, [(Started(b1, p), r1), (Started(b2, p), r2)]).lives == w.lives - 2
    ensures var first := Flush(HitStep(w, Started(b1, p), r1));
            first.playerInvincible && HitStep(first, Started(b2, p), r2).lives == w.lives - 1
  {
    HitRunTwo(w, (Started(b1, p), r1), (Started(b2, p), r2));
    PlayerHit(w, b1, p, r1);
    var h := HitStep(w, Started(b1, p), r1);
    PlayerHit(h, b2, p, r2);
    FlushTwo(h, HitPlayer(p), Despawn(b1));
    var first := Flush(h);
    assert first.player == Some(p) && first.playerInvincible && p !in first.enemies;
    assert first.lives == w.lives - 1;
  }

  /**
   * Health changes at once but the despawn is deferred: an enemy with 1 health that two
   * bullets reach in the same frame dies twice, dropping its items twice.
   */
  lemma EnemyDiesTwiceInOneFrame(w: World, en: nat, b1: nat, b2: nat, rolls: Rolls)
    requires en in w.enemies && w.enemies[en] == Enemy(1, false) && w.queue == []
    requires b1 in w.bullets && b2 in w.bullets && b1 != b2 && b1 !in w.enemies && b2 !in w.enemies
    ensures var r := HitRun(w, [(Started(b1, en), rolls), (Started(b2, en), rolls)]);
            && en in r.enemies && r.enemies[en].health == -1
            && r.powerDrops == w.powerDrops + 2 * Drop(rolls.power)
            && r.queue == [Despawn(en), Despawn(b1), Despawn(en), Despawn(b2)]
  {
    HitRunTwo(w, (Started(b1, en), rolls), (Started(b2, en), rolls));
    var h := HitStep(w, Started(b1, en), rolls);
    assert h.enemies[en].health == 0 && h.queue == [Despawn(en), Despawn(b1)];
    assert h.bullets == w.bullets;
  }

  // ---------------------------------------------------------------------------
  // item_hit
  // ---------------------------------------------------------------------------

  /** The item a player pair touched: a power item adds one power, a point item one point, and is despawned. */
  function Pickup(w: World, item: nat): (r: World)
    ensures r.powers >= w.powers && r.points >= w.points
    ensures (r.powers - w.powers) + (r.points - w.points) == if item in w.powerItems + w.pointItems then 1 else 0
    ensures r.powers > w.powers <==> item in w.powerItems
    ensures r.queue == w.queue + if item in w.powerItems + w.pointItems then [Despawn(item)] else []
    ensures r.powerItems == w.powerItems && r.pointItems == w.pointItems && r.player == w.player
    ensures r.lives == w.lives && r.bombs == w.bombs && r.graze == w.graze
  {
    if item in w.powerItems then w.(powers := w.powers + 1, queue := w.queue + [Despawn(item)])
    else if item in w.pointItems then w.(points := w.points + 1, queue := w.queue + [Despawn(item)])
    else w
  }

  /** One event of `item_hit`. */
  function ItemStep(w: World, ev: CollisionEvent): (r: World)
    ensures r != w ==> ev.Started? && w.player.Some? && (w.player.value == ev.e1 || w.player.value == ev.e2)
    ensures r.player == w.player && r.bullets == w.bullets && r.enemies == w.enemies
    ensures r.powerItems == w.powerItems && r.pointItems == w.pointItems
  {
    match ev
    case Stopped(_, _) => w
    case Started(e1, e2) =>
      if w.player == Some(e1) then Pickup(w, e2)
      else if w.player == Some(e2) then Pickup(w, e1)
      else w
  }

  /** `item_hit` over a frame's events: nothing happens without a player, and no entity disappears before the flush. */
  function ItemRun(w: World, evs: seq<CollisionEvent>): (r: World)
    ensures w.player.None? ==> r == w
    ensures r.player == w.player && r.bullets == w.bullets && r.enemies == w.enemies
    ensures r.powerItems == w.powerItems && r.pointItems == w.pointItems
  {
    if evs == [] then w else ItemStep(ItemRun(w, evs[..|evs| - 1]), evs[|evs| - 1])
  }

  /** Each event adds at most one power or one point, and only pickups are queued. */
  lemma {:induction false} ItemRunBounds(w: World, evs: seq<CollisionEvent>)
    ensures var r := ItemRun(w, evs);
            && r.powers >= w.powers && r.points >= w.points
            && (r.powers - w.powers) + (r.points - w.points) <= |evs|
            && r.powerItems == w.powerItems && r.pointItems == w.pointItems
            && r.lives == w.lives && r.bombs == w.bombs && r.graze == w.graze
            && w.queue <= r.queue
            && (forall i :: |w.queue| <= i < |r.queue| ==> r.queue[i].Despawn? && r.queue[i].e in w.powerItems + w.pointItems)
  {
    if evs != [] {
      ItemRunBounds(w, evs[..|evs| - 1]);
      ItemStepBounds(ItemRun(w, evs[..|evs| - 1]), evs[|evs| - 1]);
    }
  }

  /** One `item_hit` event adds at most one power or point and queues at most the despawn of an item. */
  lemma ItemStepBounds(w: World, ev: CollisionEvent)
    ensures var r := ItemStep(w, ev);
            && r.powers >= w.powers && r.points >= w.points
            && (r.powers - w.powers) + (r.points - w.points) <= 1
            && r.powerItems == w.powerItems && r.pointItems == w.pointItems
            && r.lives == w.lives && r.bombs == w.bombs && r.graze == w.graze
            && w.queue <= r.queue && |r.queue| <= |w.queue| + 1
            && (forall i :: |w.queue| <= i < |r.queue| ==> r.queue[i].Despawn? && r.queue[i].e in w.powerItems + w.pointItems)
  {
    if ev.Started? && (w.player == Some(ev.e1) || w.player == Some(ev.e2)) {
      var item := if w.player == Some(ev.e1) then ev.e2 else ev.e1;
      assert ItemStep(w, ev) == Pickup(w, item);
    }
  }

  /** A power item is collected once: after the frame that picked it up it is gone and touching it again adds nothing. */
  lemma PowerItemCollectedOnce(w: World, p: nat, item: nat)
    requires w.player == Some(p) && item != p && item in w.powerItems && w.queue == []
    ensures var first := Flush(ItemStep(w, Started(p, item)));
            && first.powers == w.powers + 1
            && item !in first.powerItems && item !in first.pointItems
            && ItemStep(first, Started(p, item)).powers == first.powers
  {
    var r := ItemStep(w, Started(p, item));
    FlushOne(r, Despawn(item));
  }

  // ---------------------------------------------------------------------------
  // player_graze
  // ---------------------------------------------------------------------------

  /** One event of `player_graze`. */
  function GrazeStep(w: World, ev: CollisionEvent): (r: World)
    ensures r != w ==> w.zone.Some? && (w.zone.value == ev.e1 || w.zone.value == ev.e2)
    ensures r.graze != w.graze ==> ev.Started? && r.graze == w.graze + 1
    ensures r.zone == w.zone && r.player == w.player && r.enemies == w.enemies
    ensures w.queue <= r.queue && |r.queue| <= |w.queue| + 1
  {
    match ev
    case Started(e1, e2) =>
      (match MatchGraze(e1, e2, Opt(w.zone), w.bullets.Keys)
       case None => w
       case Some(b) =>
         var bu := w.bullets[b];
         if bu.mark.Some? then w
         else
           w.(bullets := w.bullets[b := bu.(vx := bu.vx * GrazeDecay, vy := bu.vy * GrazeDecay, color := Bloom(bu.color))],
              queue := w.queue + [Mark(b, GrazeMark(bu.color))],
              graze := w.graze + 1))
    case Stopped(e1, e2) =>
      match MatchGraze(e1, e2, Opt(w.zone), w.bullets.Keys)
      case None => w
      case Some(b) =>
        var bu := w.bullets[b];
        if bu.mark.None? then w
        else
          w.(bullets := w.bullets[b := bu.(vx := bu.vx / GrazeDecay, vy := bu.vy / GrazeDecay, color := bu.mark.value.original)],
             queue := w.queue + [Unmark(b)])
  }

  /** `player_graze` over a frame's events: nothing happens without a graze zone. */
  function GrazeRun(w: World, evs: seq<CollisionEvent>): (r: World)
    ensures w.zone.None? ==> r == w
    ensures r.zone == w.zone && r.player == w.player && r.enemies == w.enemies
  {
    if evs == [] then w else GrazeStep(GrazeRun(w, evs[..|evs| - 1]), evs[|evs| - 1])
  }

  /**
   * Within a frame the counter never falls and rises by at most one per event, and no
   * bullet gains or loses its marker before the frame's commands are applied.
   */
  lemma {:induction false} GrazeRunBounds(w: World, evs: seq<CollisionEvent>)
    ensures var r := GrazeRun(w, evs);
            && w.graze <= r.graze <= w.graze + |evs|
            && r.bullets.Keys == w.bullets.Keys
            && (forall b :: b in w.bullets ==> r.bullets[b].mark == w.bullets[b].mark)
            && r.lives == w.lives && r.powers == w.powers && r.enemies == w.enemies
            && w.queue <= r.queue
  {
    if evs != [] {
      GrazeRunBounds(w, evs[..|evs| - 1]);
      GrazeStepBounds(GrazeRun(w, evs[..|evs| - 1]), evs[|evs| - 1]);
    }
  }

  /** One `player_graze` event counts at most one graze and leaves every marker as it was. */
  lemma GrazeStepBounds(w: World, ev: CollisionEvent)
    ensures var r := GrazeStep(w, ev);
            && w.graze <= r.graze <= w.graze + 1
            && r.bullets.Keys == w.bullets.Keys
            && (forall b :: b in w.bullets ==> r.bullets[b].mark == w.bullets[b].mark)
            && r.lives == w.lives && r.powers == w.powers && r.enemies == w.enemies
            && w.queue <= r.queue
  {
  }

  /** A bullet already grazing is not counted or slowed again. */
  lemma MarkedBulletNotRecounted(w: World, z: nat, b: nat)
    requires w.zone == Some(z) && b in w.bullets && w.bullets[b].mark.Some?
    ensures GrazeStep(w, Started(z, b)) == w
  {
  }

  /** Entering the zone: the graze counts, and once the frame ends the bullet is slowed, bloomed and marked. */
  lemma GrazeEnter(w: World, z: nat, b: nat)
    requires w.zone == Some(z) && b in w.bullets && b != z && w.bullets[b].mark.None? && w.queue == []
    ensures var enter := Flush(GrazeStep(w, Started(z, b)));
            && enter.graze == w.graze + 1 && enter.zone == Some(z)
            && b in enter.bullets
            && enter.bullets[b] == w.bullets[b].(vx := w.bullets[b].vx * GrazeDecay, vy := w.bullets[b].vy * GrazeDecay,
                                                 color := Bloom(w.bullets[b].color), mark := Some(GrazeMark(w.bullets[b].color)))
  {
    var bu := w.bullets[b];
    var slowed := bu.(vx := bu.vx * GrazeDecay, vy := bu.vy * GrazeDecay, color := Bloom(bu.color));
    assert MatchGraze(z, b, Opt(w.zone), w.bullets.Keys) == Some(b);
    var s := GrazeStep(w, Started(z, b));
    assert s == w.(bullets := w.bullets[b := slowed], queue := [Mark(b, GrazeMark(bu.color))], graze := w.graze + 1);
    FlushOne(s, Mark(b, GrazeMark(bu.color)));
    assert Flush(s) == s.(queue := [], bullets := s.bullets[b := slowed.(mark := Some(GrazeMark(bu.color)))]);
  }

  /** Leaving the zone: a marked bullet's velocity is divided back by the decay, its colour restored and its marker removed. */
  lemma GrazeLeave(w: World, z: nat, b: nat)
    requires w.zone == Some(z) && b in w.bullets && b != z && w.bullets[b].mark.Some? && w.queue == []
    ensures var leave := Flush(GrazeStep(w, Stopped(z, b)));
            && leave.graze == w.graze && b in leave.bullets
            && leave.bullets[b] == w.bullets[b].(vx := w.bullets[b].vx / GrazeDecay, vy := w.bullets[b].vy / GrazeDecay,
                                                 color := w.bullets[b].mark.value.original, mark := None)
  {
    var t := GrazeStep(w, Stopped(z, b));
    FlushOne(t, Unmark(b));
  }

  /**
   * Entering the zone in one frame and leaving it in a later one counts one graze and
   * gives the bullet back its speed, its colour and no marker.
   */
  lemma GrazeRoundTrip(w: World, z: nat, b: nat)
    requires w.zone == Some(z) && b in w.bullets && b != z && w.bullets[b].mark.None? && w.queue == []
    ensures var enter := Flush(GrazeStep(w, Started(z, b)));
            var leave := Flush(GrazeStep(enter, Stopped(z, b)));
            && b in leave.bullets && leave.bullets[b] == w.bullets[b]
            && leave.graze == w.graze + 1
  {
    GrazeEnter(w, z, b);
    var enter := Flush(GrazeStep(w, Started(z, b)));
    GrazeLeave(enter, z, b);
    var bu := w.bullets[b];
    assert bu.vx * GrazeDecay / GrazeDecay == bu.vx;
    assert bu.vy * GrazeDecay / GrazeDecay == bu.vy;
  }

  /**
   * The marker is a deferred insert: a bullet that enters and leaves the zone in the same
   * frame is not restored, and stays slowed, bloomed and marked.
   */
  lemma EnterAndLeaveInOneFrame(w: World, z: nat, b: nat)
    requires w.zone == Some(z) && b in w.bullets && b != z && w.bullets[b].mark.None? && w.queue == []
    ensures var r := Flush(GrazeRun(w, [Started(z, b), Stopped(z, b)]));
            && r.graze == w.graze + 1
            && b in r.bullets
            && r.bullets[b] == w.bullets[b].(vx := w.bullets[b].vx * GrazeDecay, vy := w.bullets[b].vy * GrazeDecay,
                                             color := Bloom(w.bullets[b].color), mark := Some(GrazeMark(w.bullets[b].color)))
  {
    var evs := [Started(z, b), Stopped(z, b)];
    var s := GrazeStep(w, Started(z, b));
    assert GrazeRun(w, evs[..1]) == s by {
      assert evs[..1] == [Started(z, b)];
      assert evs[..1][..0] == [];
      assert GrazeRun(w, []) == w;
    }
    // the marker is only queued, so leaving finds an unmarked bullet and does nothing
    assert s.zone == Some(z) && b in s.bullets && s.bullets[b].mark.None?;
    assert GrazeStep(s, Stopped(z, b)) == s;
    assert GrazeRun(w, evs) == s;
    GrazeEnter(w, z, b);
  }

  // ---------------------------------------------------------------------------
  // player_bomb
  // ---------------------------------------------------------------------------

  /** `player_bomb`: one bomb fewer, but never below zero. */
  function Bomb(bombs: int): (r: int)
    ensures r >= 0 && r <= (if bombs > 0 then bombs else 0)
  {
    if bombs - 1 > 0 then bombs - 1 else 0
  }

  function Bombs(bombs: int, k: nat): int
  {
    if k == 0 then bombs else Bomb(Bombs(bombs, k - 1))
  }

  /** Bombing `k` times spends `k` bombs while there are any, and then none. */
  lemma {:induction false} BombsSpent(bombs: int, k: nat)
    requires bombs >= 0
    ensures Bombs(bombs, k) == if bombs - k > 0 then bombs - k else 0
  {
    if k > 0 {
      BombsSpent(bombs, k - 1);
    }
  }

  // ---------------------------------------------------------------------------
  // The systems, updating the game's state in place
  // ---------------------------------------------------------------------------

  /** The entities and resources as the systems see them during a frame. */
  class Stage {
    var enemies: map<nat, Enemy>
    var bullets: map<nat, Bullet>
    var player: Option<nat>
    var playerInvincible: bool
    var zone: Option<nat>
    var powerItems: set<nat>
    var pointItems: set<nat>
    var lives: int
    var bombs: int
    var powers: int
    var points: int
    var graze: int
    var powerDrops: nat
    var pointDrops: nat
    var queue: seq<Command>

    function View(): World
      reads this
    {
      World(enemies, bullets, player, playerInvincible, zone, powerItems, pointItems,
            lives, bombs, powers, points, graze, powerDrops, pointDrops, queue)
    }

    /** The counters `setup_game` inserts, over the given entities. */
    constructor (enemies: map<nat, Enemy>, bullets: map<nat, Bullet>, player: Option<nat>, zone: Option<nat>,
                 powerItems: set<nat>, pointItems: set<nat>)
      ensures View() == World(enemies, bullets, player, false, zone, powerItems, pointItems, 2, 3, 0, 0, 0, 0, 0, [])
    {
      this.enemies, this.bullets, this.player, playerInvincible := enemies, bullets, player, false;
      this.zone, this.powerItems, this.pointItems := zone, powerItems, pointItems;
      lives, bombs, powers, points, graze := 2, 3, 0, 0, 0;
      powerDrops, pointDrops, queue := 0, 0, [];
    }

    /** Applies one deferred command. */
    method ApplyCommand(c: Command)
      modifies this
      ensures View() == ApplyOne(old(View()), c)
    {
      match c {
        case Despawn(e) =>
          enemies, bullets := enemies - {e}, bullets - {e};
          powerItems, pointItems := powerItems - {e}, pointItems - {e};
          if player == Some(e) {
            player := None;
          }
          if zone == Some(e) {
            zone := None;
          }
        case HitPlayer(e) =>
          if player == Some(e) {
            playerInvincible := true;
          }
        case Mark(e, m) =>
          if e in bullets {
            bullets := bullets[e := bullets[e].(mark := Some(m))];
          }
        case Unmark(e) =>
          if e in bullets {
            bullets := bullets[e := bullets[e].(mark := None)];
          }
      }
    }

    /** Applies the queued commands in order, as the end of a system does. */
    method ApplyCommands()
      modifies this
      ensures View() == Flush(old(View()))
    {
      var start := View().(queue := []);
      var cmds := queue;
      queue := [];
      var i := 0;
      while i < |cmds|
        invariant 0 <= i <= |cmds|
        invariant View() == ApplyAll(start, cmds[..i])
      {
        ApplyCommand(cmds[i]);
        assert cmds[..i + 1][..i] == cmds[..i];
        i := i + 1;
      }
      assert cmds[..|cmds|] == cmds;
    }

    /** A bullet reaching an enemy in place: health first, then the deferred despawns. */
    method HitEnemy(b: nat, en: nat, rolls: Rolls)
      requires en in enemies
      modifies this
      ensures var w := old(View());
              var enemy := w.enemies[en];
              var hit := w.(enemies := w.enemies[en := enemy.(health := enemy.health - 1)]);
              var dead :=
                if enemy.health - 1 <= 0 then
                  hit.(powerDrops := hit.powerDrops + Drop(rolls.power),
                       pointDrops := hit.pointDrops + Drop(rolls.point),
                       queue := hit.queue + [Despawn(en)])
                else hit;
              View() == if enemy.invincible then w else dead.(queue := dead.queue + [Despawn(b)])
    {
      var enemy := enemies[en];
      if enemy.invincible {
        return;
      }
      var h := enemy.health - 1;
      enemies := enemies[en := enemy.(health := h)];
      if h <= 0 {
        powerDrops, pointDrops := powerDrops + Drop(rolls.power), pointDrops + Drop(rolls.point);
        queue := queue + [Despawn(en)];
      }
      queue := queue + [Despawn(b)];
    }

    /** A bullet reaching the player in place: a life and the power lost, the hit and the despawn deferred. */
    method HitThePlayer(b: nat, p: nat)
      modifies this
      ensures var w := old(View());
              View() == if w.playerInvincible then w
                        else w.(lives := if w.lives - 1 > 0 then w.lives - 1 else 0,
                                powerDrops := w.powerDrops + CeilHalf(w.powers),
                                powers := 0,
                                queue := w.queue + [HitPlayer(p), Despawn(b)])
    {
      if playerInvincible {
        return;
      }
      lives := if lives - 1 > 0 then lives - 1 else 0;
      powerDrops := powerDrops + CeilHalf(powers);
      powers := 0;
      queue := queue + [HitPlayer(p), Despawn(b)];
    }

    /** One event of `bullet_hit`. */
    method HitEvent(ev: CollisionEvent, rolls: Rolls)
      modifies this
      ensures View() == HitStep(old(View()), ev, rolls)
    {
      if ev.Stopped? {
        return;
      }
      var m := MatchPair(ev.e1, ev.e2, bullets.Keys, enemies.Keys);
      if m.Some? {
        HitEnemy(m.value.0, m.value.1, rolls);
      } else {
        var pm := MatchPair(ev.e1, ev.e2, bullets.Keys, Opt(player));
        if pm.Some? {
          HitThePlayer(pm.value.0, pm.value.1);
        }
      }
    }

    /** `bullet_hit`: this frame's collision events, with the random draws each one makes. */
    method BulletHit(events: seq<(CollisionEvent, Rolls)>)
      modifies this
      ensures View() == Flush(HitRun(old(View()), events))
    {
      var start := View();
      var i := 0;
      while i < |events|
        invariant 0 <= i <= |events|
        invariant View() == HitRun(start, events[..i])
      {
        HitEvent(events[i].0, events[i].1);
        assert events[..i + 1][..i] == events[..i];
        i := i + 1;
      }
      assert events[..|events|] == events;
      ApplyCommands();
    }

    /** One event of `item_hit`'s loop, applied in place. */
    method ItemEvent(ev: CollisionEvent)
      modifies this
      ensures View() == ItemStep(old(View()), ev)
    {
      if ev.Started? && (player == Some(ev.e1) || player == Some(ev.e2)) {
        var item := if player == Some(ev.e1) then ev.e2 else ev.e1;
        if item in powerItems {
          powers := powers + 1;
          queue := queue + [Despawn(item)];
        } else if item in pointItems {
          points := points + 1;
          queue := queue + [Despawn(item)];
        }
      }
    }

    /** `item_hit`: this frame's collision events. */
    method ItemHit(events: seq<CollisionEvent>)
      modifies this
      ensures View() == Flush(ItemRun(old(View()), events))
    {
      var start := View();
      var i := 0;
      while i < |events|
        invariant 0 <= i <= |events|
        invariant View() == ItemRun(start, events[..i])
      {
        ItemEvent(events[i]);
        assert events[..i + 1][..i] == events[..i];
        i := i + 1;
      }
      assert events[..|events|] == events;
      ApplyCommands();
    }

    /** One event of `player_graze`'s loop, applied in place. */
    method GrazeEvent(ev: CollisionEvent)
      modifies this
      ensures View() == GrazeStep(old(View()), ev)
    {
      var m := MatchGraze(ev.e1, ev.e2, Opt(zone), bullets.Keys);
      if m.Some? {
        var b := m.value;
        var bu := bullets[b];
        if ev.Started? && bu.mark.None? {
          bullets := bullets[b := bu.(vx := bu.vx * GrazeDecay, vy := bu.vy * GrazeDecay, color := Bloom(bu.color))];
          queue := queue + [Mark(b, GrazeMark(bu.color))];
          graze := graze + 1;
        } else if ev.Stopped? && bu.mark.Some? {
          bullets := bullets[b := bu.(vx := bu.vx / GrazeDecay, vy := bu.vy / GrazeDecay, color := bu.mark.value.original)];
          queue := queue + [Unmark(b)];
        }
      }
    }

    /** `player_graze`: this frame's collision events. */
    method PlayerGraze(events: seq<CollisionEvent>)
      modifies this
      ensures View() == Flush(GrazeRun(old(View()), events))
    {
      var start := View();
      var i := 0;
      while i < |events|
        invariant 0 <= i <= |events|
        invariant View() == GrazeRun(start, events[..i])
      {
        GrazeEvent(events[i]);
        assert events[..i + 1][..i] == events[..i];
        i := i + 1;
      }
      assert events[..|events|] == events;
      ApplyCommands();
    }

    /** `player_bomb`. */
    method PlayerBomb()
      modifies this
      ensures View() == old(View()).(bombs := Bomb(old(bombs)))
    {
      bombs := if bombs - 1 > 0 then bombs - 1 else 0;
    }
  }
}
