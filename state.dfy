/** The entities the scene keeps and the invariant every reachable state keeps. */
module GameState {
  import opened Config
  import opened LootTable

  datatype Option<T> = None | Some(value: T)

  /** A loot crate at a block position; `isOpened` (the `opened` data key) is set once it paid out. */
  datatype Crate = Crate(x: int, y: int, isOpened: bool, loot: Payload)

  /** A zombie: its health, the time it last hurt the player, and whether it
      is still in the world (`destroy()` makes it inactive). */
  datatype Zombie = Zombie(hp: int, lastHitAt: int, active: bool)

  /** The integer bookkeeping of the scene: the player's fields, the score,
      the spawn clock, the game-over flag, the crates and the zombies. */
  datatype State = State(
    hp: int, ammo: int, reserve: int, reloading: bool, lastShot: int,
    score: int, lastSpawn: int, gameOver: bool,
    crates: seq<Crate>, zombies: seq<Zombie>)

  /** Phaser's `countActive(true)` on the zombie group. */
  function CountActive(zs: seq<Zombie>): (n: nat)
    ensures n <= |zs|
  {
    if zs == [] then 0
    else CountActive(zs[..|zs| - 1]) + (if zs[|zs| - 1].active then 1 else 0)
  }

  lemma CountActiveAppend(zs: seq<Zombie>, z: Zombie)
    ensures CountActive(zs + [z]) == CountActive(zs) + (if z.active then 1 else 0)
  {
    assert (zs + [z])[..|zs|] == zs;
  }

  /** Replacing one zombie changes the count by the change of its flag. */
  lemma {:induction false} CountActiveUpdate(zs: seq<Zombie>, i: nat, z: Zombie)
    requires i < |zs|
    ensures CountActive(zs[i := z]) ==
      CountActive(zs) - (if zs[i].active then 1 else 0) + (if z.active then 1 else 0)
  {
    var last := |zs| - 1;
    if i < last {
      CountActiveUpdate(zs[..last], i, z);
      assert zs[i := z][..last] == zs[..last][i := z];
    } else {
      assert zs[i := z][..last] == zs[..last];
    }
  }

  /** Crates as `_spawnCrates` leaves them: `LootCrates` of them, unopened,
      each payload drawn from the loot table. */
  predicate FreshCrates(cs: seq<Crate>) {
    |cs| == LootCrates &&
    forall i :: 0 <= i < |cs| ==> !cs[i].isOpened && LootOk(cs[i].loot)
  }

  /** The invariant of the scene. `hp` has no lower bound: zombie damage is
      not clamped. */
  predicate Inv(s: State) {
    && 0 <= s.ammo <= MagSize
    && 0 <= s.reserve
    && s.hp <= MaxHp
    // A reload is only pending when there is room and something to load.
    && (s.reloading ==> s.ammo < MagSize && 0 < s.reserve)
    && (s.gameOver ==> s.hp <= 0)
    && |s.crates| == LootCrates
    && (forall i :: 0 <= i < |s.crates| ==> LootOk(s.crates[i].loot))
    && (forall i :: 0 <= i < |s.zombies| && s.zombies[i].active ==>
          0 < s.zombies[i].hp <= ZombieHp)
    && CountActive(s.zombies) <= SpawnMax
    // Every zombie that is gone was killed by the player and scored once.
    && s.score == |s.zombies| - CountActive(s.zombies)
  }

  /** The scene right after the player is created (main.js:49-53, 92-93, 102),
      before the first zombies are spawned. */
  function Start(crates: seq<Crate>): (s: State)
    requires FreshCrates(crates)
    ensures Inv(s)
    ensures s.hp == MaxHp && s.ammo == MagSize && s.reserve == StartReserve && !s.reloading
    ensures s.lastShot == 0 && s.score == 0 && s.lastSpawn == 0 && !s.gameOver
    ensures s.zombies == [] && s.crates == crates
  {
    State(MaxHp, MagSize, StartReserve, false, 0, 0, 0, false, crates, [])
  }
}
