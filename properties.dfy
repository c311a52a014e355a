/** What the handlers promise, stated over the functions of `Rules`. */
module Properties {
  import opened Config
  import opened Draws
  import opened GameState
  import opened Rules

  // ---------------------------------------------------------------- weapon

  /** `_tryShoot`'s three outcomes. A shot spends its round even when the
      pool has no bullet to give (the pool does not enter the state). */
  lemma ShootOutcomes(s: State, now: int)
    ensures !ShotReady(s, now) ==> Shoot(s, now) == s
    ensures ShotReady(s, now) && s.ammo <= 0 ==>
              Shoot(s, now) == StartReload(s) &&
              Shoot(s, now).ammo == s.ammo && Shoot(s, now).lastShot == s.lastShot
    ensures Fires(s, now) ==> Shoot(s, now) == s.(ammo := s.ammo - 1, lastShot := now)
  {
  }

  /** `_reload` starts only when idle, not full and with rounds in reserve. */
  lemma ReloadGuards(s: State)
    ensures s.reloading || MagSize <= s.ammo || s.reserve <= 0 ==> StartReload(s) == s
    ensures !s.reloading && s.ammo < MagSize && 0 < s.reserve ==> StartReload(s) == s.(reloading := true)
  {
  }

  /** A whole reload (start, then the timer) fills the magazine as far as
      the reserve allows and creates no ammunition. */
  lemma ReloadCycle(s: State)
    requires Inv(s) && !s.reloading && s.ammo < MagSize && 0 < s.reserve
    ensures var r := FinishReload(StartReload(s));
      && r.ammo == Min(MagSize, s.ammo + s.reserve)
      && r.ammo + r.reserve == s.ammo + s.reserve
      && !r.reloading && Inv(r)
  {
  }

  /** Firing with an empty magazine and ten rounds in reserve: no round is
      spent, a reload starts, and the timer then loads all ten. */
  lemma EmptyMagazineScenario(s: State, now: int)
    requires Inv(s) && s.ammo == 0 && s.reserve == 10 && ShotReady(s, now)
    ensures Shoot(s, now).ammo == 0 && Shoot(s, now).reloading
    ensures FinishReload(Shoot(s, now)).ammo == 10
    ensures FinishReload(Shoot(s, now)).reserve == 0
  {
  }

  /** Holding the fire button on an empty magazine starts a reload in the
      same frame, through `_tryShoot`, and spends no round. */
  lemma HeldFireOnEmptyMagazineReloads(s: State, f: Frame)
    requires f.fireHeld && ShotReady(s, f.time) && s.ammo <= 0 && 0 < s.reserve
    ensures HandleInput(s, f).reloading && HandleInput(s, f).ammo == s.ammo
  {
  }

  /** The pointer-down listener calls `_tryShoot` without looking at the
      game-over flag, so a click still spends a round after the game ends. */
  lemma ClickAfterGameOver(s: State, now: int)
    requires Inv(s) && s.gameOver && Fires(s, now)
    ensures Shoot(s, now).ammo == s.ammo - 1 && Inv(Shoot(s, now))
  {
  }

  // ---------------------------------------------------------------- looting

  /** `_tryLoot` opens crate `k` exactly when `k` is unopened, within the
      loot radius, no farther than any other unopened crate, and strictly
      nearer than every unopened crate before it. */
  lemma LootChoiceIsFirstNearest(cs: seq<Crate>, px: real, py: real, k: nat)
    requires k < |cs|
    ensures LootChoice(cs, px, py) == Some(k) <==>
      && !cs[k].isOpened
      && CrateDist2(cs[k], px, py) <= LootRadius2
      && (forall j :: 0 <= j < |cs| && !cs[j].isOpened ==> CrateDist2(cs[k], px, py) <= CrateDist2(cs[j], px, py))
      && (forall j :: 0 <= j < k && !cs[j].isOpened ==> CrateDist2(cs[k], px, py) < CrateDist2(cs[j], px, py))
  {
    ScanFirstNearest(cs, px, py, |cs|);
    var (c, d) := Scan(cs, px, py, |cs|);
    if !cs[k].isOpened && CrateDist2(cs[k], px, py) <= LootRadius2 &&
       (forall j :: 0 <= j < |cs| && !cs[j].isOpened ==> CrateDist2(cs[k], px, py) <= CrateDist2(cs[j], px, py)) &&
       (forall j :: 0 <= j < k && !cs[j].isOpened ==> CrateDist2(cs[k], px, py) < CrateDist2(cs[j], px, py))
    {
      assert d <= CrateDist2(cs[k], px, py);
      assert LootRadius2 < Far;
      assert c.Some?;
    }
  }

  /** With every unopened crate beyond the loot radius, looting does
      nothing. */
  lemma LootOutOfReach(s: State, px: real, py: real)
    requires forall j :: 0 <= j < |s.crates| && !s.crates[j].isOpened ==>
               LootRadius2 < CrateDist2(s.crates[j], px, py)
    ensures Loot(s, px, py) == s
  {
  }

  /** A crate pays out once: after it is opened, no later loot action, from
      any position, chooses it or changes it again. */
  lemma CratePaysOnce(s: State, px: real, py: real, k: nat, qx: real, qy: real)
    requires LootChoice(s.crates, px, py) == Some(k)
    ensures Loot(s, px, py).crates[k].isOpened
    ensures LootChoice(Loot(s, px, py).crates, qx, qy) != Some(k)
    ensures Loot(Loot(s, px, py), qx, qy).crates[k] == Loot(s, px, py).crates[k]
  {
  }

  /** A reward is the crate's own payload: its rounds, and medkit healing
      capped at `MaxHp`. */
  lemma LootReward(s: State, px: real, py: real, k: nat)
    requires LootChoice(s.crates, px, py) == Some(k)
    ensures Loot(s, px, py).reserve == s.reserve + s.crates[k].loot.ammo
    ensures Loot(s, px, py).hp ==
      if 0 < s.crates[k].loot.med then Min(MaxHp, s.hp + s.crates[k].loot.med * MedHeal) else s.hp
  {
  }

  // ---------------------------------------------------------------- combat

  /** A fresh zombie takes three hits: 60 -> 35 -> 10 -> dead. Only the
      third hit scores, and later hits on it are ignored. */
  lemma ThirdHitKills(s: State, zi: nat, t: int, roll: real, draw: real)
    requires zi < |s.zombies| && s.zombies[zi] == Zombie(ZombieHp, t, true)
    requires IsDraw(roll) && IsDraw(draw)
    ensures var s1 := BulletHit(s, true, zi, roll, draw);
            var s2 := BulletHit(s1, true, zi, roll, draw);
            var s3 := BulletHit(s2, true, zi, roll, draw);
      && s1.zombies[zi].active && s1.zombies[zi].hp == 35 && s1.score == s.score
      && s2.zombies[zi].active && s2.zombies[zi].hp == 10 && s2.score == s.score
      && !s3.zombies[zi].active && s3.score == s.score + 1
      && BulletHit(s3, true, zi, roll, draw) == s3
  {
  }

  /** A hit involving an inactive bullet or zombie changes nothing. */
  lemma InactiveHitIgnored(s: State, b: bool, zi: nat, roll: real, draw: real)
    requires zi < |s.zombies| && IsDraw(roll) && IsDraw(draw)
    requires !b || !s.zombies[zi].active
    ensures BulletHit(s, b, zi, roll, draw) == s
  {
  }

  /** A kill drops nothing or `DropMin..DropMax` reserve rounds. */
  lemma KillDrop(s: State, zi: nat, roll: real, draw: real)
    requires zi < |s.zombies| && IsDraw(roll) && IsDraw(draw)
    requires s.zombies[zi].active && s.zombies[zi].hp <= Damage
    ensures var r := BulletHit(s, true, zi, roll, draw);
      r.score == s.score + 1 &&
      (r.reserve == s.reserve || s.reserve + DropMin <= r.reserve <= s.reserve + DropMax)
  {
  }

  /** Within the cooldown after a hit the same zombie cannot hurt again:
      two touches deal damage once. */
  lemma CooldownBlocksRepeat(s: State, zi: nat, t1: int, t2: int)
    requires zi < |s.zombies|
    requires HitCooldownMs <= t1 - s.zombies[zi].lastHitAt
    requires t2 - t1 < HitCooldownMs
    ensures ZombieTouch(ZombieTouch(s, zi, t1), zi, t2) == ZombieTouch(s, zi, t1)
    ensures ZombieTouch(s, zi, t1).hp == s.hp - ZombieDamage
  {
  }

  /** Once the cooldown has run out the same zombie hurts again: a touch at
      `t2 >= t1 + HitCooldownMs` after a hit at `t1` deals damage a second
      time and restarts the cooldown at `t2`. */
  lemma CooldownRearms(s: State, zi: nat, t1: int, t2: int)
    requires zi < |s.zombies|
    requires HitCooldownMs <= t1 - s.zombies[zi].lastHitAt
    requires t1 + HitCooldownMs <= t2
    ensures ZombieTouch(s, zi, t1).zombies[zi].lastHitAt == t1
    ensures ZombieTouch(ZombieTouch(s, zi, t1), zi, t2).hp == s.hp - 2 * ZombieDamage
    ensures ZombieTouch(ZombieTouch(s, zi, t1), zi, t2).zombies[zi].lastHitAt == t2
  {
  }

  /** The cooldown is per zombie: right after zombie `i` hits, a different
      zombie whose own cooldown has run out still hurts. */
  lemma CooldownIsPerZombie(s: State, i: nat, j: nat, now: int)
    requires i < |s.zombies| && j < |s.zombies| && i != j
    requires HitCooldownMs <= now - s.zombies[i].lastHitAt
    requires HitCooldownMs <= now - s.zombies[j].lastHitAt
    ensures ZombieTouch(ZombieTouch(s, i, now), j, now).hp == s.hp - 2 * ZombieDamage
  {
  }

  /** Damage is not clamped: a touch at 5 health leaves the player at -7,
      and the invariant does not forbid it. */
  lemma HealthGoesNegative(s: State, zi: nat, now: int)
    requires Inv(s) && zi < |s.zombies| && s.hp == 5
    requires HitCooldownMs <= now - s.zombies[zi].lastHitAt
    ensures ZombieTouch(s, zi, now).hp == -7 && Inv(ZombieTouch(s, zi, now))
  {
  }

  // ---------------------------------------------------------------- frames

  /** Once the game is over every later `update` is a no-op, and a frame
      that ends with health gone ends the game. */
  lemma GameOverFreezes(s: State, f: Frame)
    requires IsDraw(f.edgeDraw) && IsDraw(f.coordDraw)
    ensures s.gameOver ==> Tick(s, f) == s
    ensures Tick(s, f).hp <= 0 ==> Tick(s, f).gameOver
  {
  }

  /** Looting comes before the game-over check within `update`: a player
      already at 0 health who loots a crate with a level-2 medkit in the
      same frame survives. */
  lemma LootBeforeGameOverCheck(s: State, f: Frame, k: nat)
    requires Inv(s) && !s.gameOver && -36 < s.hp <= 0
    requires IsDraw(f.edgeDraw) && IsDraw(f.coordDraw)
    requires f.lootPressed && !f.fireHeld && !f.reloadPressed
    requires LootChoice(s.crates, f.px, f.py) == Some(k) && s.crates[k].loot.med == 2
    ensures 0 < Tick(s, f).hp && !Tick(s, f).gameOver
  {
    assert HandleInput(s, f) == Loot(s, f.px, f.py);
  }

  /** The spawn clock restarts whenever a spawn is due, whether or not the
      candidate point is accepted; the population cap holds afterwards. */
  lemma SpawnPacing(s: State, f: Frame)
    requires Inv(s) && !s.gameOver && IsDraw(f.edgeDraw) && IsDraw(f.coordDraw)
    requires SpawnDue(s, f.time)
    ensures Tick(s, f).lastSpawn == f.time
    ensures CountActive(Tick(s, f).zombies) <= SpawnMax
  {
  }

  /** An accepted zombie starts with full health and a zero hit time, on an
      edge and at least `SpawnMinDist` from the player. */
  lemma SpawnedZombie(s: State, px: real, py: real, uEdge: real, uCoord: real)
    requires IsDraw(uEdge) && IsDraw(uCoord)
    requires FarFromPlayer(SpawnPoint(uEdge, uCoord), px, py)
    ensures var r := Spawn(s, SpawnPoint(uEdge, uCoord), px, py);
      |r.zombies| == |s.zombies| + 1 && r.zombies[|s.zombies|] == Zombie(ZombieHp, 0, true)
    ensures OnSpawnEdge(SpawnPoint(uEdge, uCoord).0, SpawnPoint(uEdge, uCoord).1)
  {
  }
}
