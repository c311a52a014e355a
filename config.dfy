/** The fixed tuning constants of the game (the CONFIG object and the
    literal numbers of the scene's handlers). */
module Config {
  const WorldW: int := 2400
  const WorldH: int := 1800

  const MaxHp: int := 100
  const StartX: real := 280.0
  const StartY: real := 260.0
  const StartReserve: int := 90

  const FireRateMs: int := 140
  const Damage: int := 25
  const MagSize: int := 18

  const ZombieHp: int := 60
  const ZombieDamage: int := 12
  const HitCooldownMs: int := 650

  const SpawnInitial: nat := 10
  const SpawnMax: nat := 24
  const SpawnEveryMs: int := 1200
  /** Zombies appear this many pixels inside the world edge ... */
  const SpawnInset: int := 30
  /** ... and never closer than this to the player. */
  const SpawnMinDist: int := 520

  const LootCrates: nat := 14
  const LootRadius: int := 44
  /** Health restored per medkit level of a crate. */
  const MedHeal: int := 18

  /** A killed zombie drops `DropMin..DropMax` reserve rounds with this chance. */
  const DropChance: real := 0.25
  const DropMin: int := 4
  const DropMax: int := 10

  /** Side of a wall block, in pixels. */
  const Block: int := 48
}
