/** Who a bullet is aimed at, and the Rapier collision groups that follow from it. */
module Targets {

  datatype BulletTarget = PlayerTarget | EnemyTarget

  /** `CollisionGroups::new(memberships, filters)` as 32-bit group masks. */
  datatype CollisionGroups = CollisionGroups(memberships: bv32, filters: bv32)

  const Group1: bv32 := 0x01
  const Group2: bv32 := 0x02
  const Group4: bv32 := 0x08
  const Group7: bv32 := 0x40
  const Group8: bv32 := 0x80

  /** `CollisionGroups::new(Group::NONE, Group::NONE)`: collides with nothing. */
  const NoGroups := CollisionGroups(0, 0)

  /** `BulletTarget::collision_groups`. */
  function GroupsFor(t: BulletTarget): (g: CollisionGroups)
    ensures g != NoGroups && g.memberships != 0 && g.filters != 0
  {
    match t
    case PlayerTarget => CollisionGroups(Group8, Group1 | Group7)
    case EnemyTarget => CollisionGroups(Group2, Group4)
  }

  /** Bullets aimed at the player and bullets aimed at enemies share no membership group. */
  lemma TargetsDisjoint()
    ensures GroupsFor(PlayerTarget).memberships & GroupsFor(EnemyTarget).memberships == 0
    ensures GroupsFor(PlayerTarget).filters & GroupsFor(EnemyTarget).filters == 0
  {
  }
}
