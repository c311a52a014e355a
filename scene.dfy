/** `MainScene` of main.js: the scene object whose handlers update the
    player's fields, the score, the crates and the zombies in place. Each
    method is proved to move the scene exactly as the matching function of
    `Rules` moves its `Snapshot()`, and to keep the invariant `Inv`. */
module Scene {
  import opened Config
  import opened Draws
  import opened GameState
  import opened Rules
  import opened Session

  /** The scan of `_tryLoot`: walk the crates once, keeping the first
      unopened crate strictly closer than the best one so far. */
  method FindNearest(cs: seq<Crate>, px: real, py: real) returns (nearest: Option<nat>, bestD2: real)
    ensures (nearest, bestD2) == Scan(cs, px, py, |cs|)
    ensures nearest.Some? ==> nearest.value < |cs| && !cs[nearest.value].isOpened &&
                              bestD2 == CrateDist2(cs[nearest.value], px, py)
    ensures nearest.None? ==> bestD2 == Far
    ensures forall j :: 0 <= j < |cs| && !cs[j].isOpened ==> bestD2 <= CrateDist2(cs[j], px, py)
    ensures nearest.Some? ==> forall j :: 0 <= j < nearest.value && !cs[j].isOpened ==>
                                bestD2 < CrateDist2(cs[j], px, py)
  {
    nearest, bestD2 := None, Far;
    var i := 0;
    while i < |cs|
      invariant i <= |cs|
      invariant (nearest, bestD2) == Scan(cs, px, py, i)
    {
      if !cs[i].isOpened {
        var d := CrateDist2(cs[i], px, py);
        if d < bestD2 {
          nearest, bestD2 := Some(i), d;
        }
      }
      i := i + 1;
    }
    ScanFirstNearest(cs, px, py, |cs|);
  }

  class MainScene {
    var hp: int
    var ammo: int
    var reserve: int
    var reloading: bool
    var lastShot: int
    var score: int
    var lastSpawn: int
    var gameOver: bool
    var crates: seq<Crate>
    var zombies: seq<Zombie>

    /** The scene's bookkeeping as a value. */
    function Snapshot(): (st: State)
      reads this
    {
      State(hp, ammo, reserve, reloading, lastShot, score, lastSpawn, gameOver, crates, zombies)
    }

    predicate Valid()
      reads this
    {
      Inv(Snapshot())
    }

    /** `create`: the player's starting values, the crates `_spawnCrates`
        placed, and the `SpawnInitial` opening spawns with the player at its
        start position. */
    constructor (crates0: seq<Crate>, spawnDraws: seq<(real, real)>)
      requires FreshCrates(crates0)
      requires |spawnDraws| == SpawnInitial && AllDraws(spawnDraws)
      ensures Valid()
      ensures Snapshot() == Created(crates0, spawnDraws)
    {
      hp, ammo, reserve, reloading, lastShot := MaxHp, MagSize, StartReserve, false, 0;
      score, lastSpawn := 0, 0;
      crates, zombies := crates0, [];
      gameOver := false;
      new;
      SpawnOpening(spawnDraws);
    }

    /** The opening spawn loop of `create`: one `_spawnZombie` per pair of
        draws, with the player at its start position. */
    method SpawnOpening(draws: seq<(real, real)>)
      requires Valid() && AllDraws(draws) && CountActive(zombies) + |draws| <= SpawnMax
      modifies this
      ensures Valid()
      ensures Snapshot() == SpawnAll(old(Snapshot()), draws)
    {
      var i := 0;
      while i < |draws|
        invariant 0 <= i <= |draws|
        invariant Valid() && CountActive(zombies) + |draws| - i <= SpawnMax
        invariant SpawnAll(Snapshot(), draws[i..]) == SpawnAll(old(Snapshot()), draws)
      {
        assert draws[i..][1..] == draws[i + 1..];
        SpawnAllStep(Snapshot(), draws[i..]);
        var _ := SpawnZombie(StartX, StartY, draws[i].0, draws[i].1);
        i := i + 1;
      }
    }

    /** `_tryShoot`, given the time and whether the bullet pool yielded a
        bullet; `fired` says a bullet left the gun. */
    method TryShoot(now: int, pooled: bool) returns (fired: bool)
      requires Valid()
      modifies this
      ensures Valid()
      ensures Snapshot() == Shoot(old(Snapshot()), now)
      ensures fired == (Fires(old(Snapshot()), now) && pooled)
    {
      fired := false;
      if now - lastShot < FireRateMs { return; }
      if reloading { return; }
      if ammo <= 0 {
        var _ := Reload();
        return;
      }
      lastShot := now;
      ammo := ammo - 1;
      if !pooled { return; }
      fired := true;
    }

    /** `_reload`; `started` says a reload timer was scheduled. */
    method Reload() returns (started: bool)
      requires Valid()
      modifies this
      ensures Valid()
      ensures Snapshot() == StartReload(old(Snapshot()))
      ensures started == (reloading && !old(reloading))
    {
      started := false;
      if reloading { return; }
      if ammo >= MagSize { return; }
      if reserve <= 0 { return; }
      reloading := true;
      started := true;
    }

    /** The callback `_reload` schedules; the timer only exists while a
        reload is pending. */
    method CompleteReload()
      requires Valid() && reloading
      modifies this
      ensures Valid()
      ensures Snapshot() == FinishReload(old(Snapshot()))
    {
      var need := MagSize - ammo;
      var take := Min(need, reserve);
      reserve := reserve - take;
      ammo := ammo + take;
      reloading := false;
    }

    /** `_tryLoot` with the player at `(px, py)`; `update` calls it only
        before the game is over. */
    method TryLoot(px: real, py: real) returns (looted: Option<nat>)
      requires Valid() && !gameOver
      modifies this
      ensures Valid()
      ensures Snapshot() == Loot(old(Snapshot()), px, py)
      ensures looted == LootChoice(old(crates), px, py)
    {
      var nearest, bestD2 := FindNearest(crates, px, py);
      if nearest.None? || bestD2 > LootRadius2 {
        looted := None;
        return;
      }
      var k := nearest.value;
      var loot := crates[k].loot;
      crates := crates[k := crates[k].(isOpened := true)];
      reserve := reserve + loot.ammo;
      if loot.med > 0 {
        hp := Min(MaxHp, hp + loot.med * MedHeal);
      }
      looted := Some(k);
    }

    /** `_onBulletHitZombie` for the pair (bullet, zombie `zi`);
        `consumed` says the bullet was destroyed. */
    method OnBulletHitZombie(bulletActive: bool, zi: nat, dropRoll: real, dropDraw: real)
      returns (consumed: bool)
      requires Valid() && zi < |zombies| && IsDraw(dropRoll) && IsDraw(dropDraw)
      modifies this
      ensures Valid()
      ensures Snapshot() == BulletHit(old(Snapshot()), bulletActive, zi, dropRoll, dropDraw)
      ensures consumed == (bulletActive && old(zombies[zi].active))
    {
      var z := zombies[zi];
      if !bulletActive || !z.active {
        consumed := false;
        return;
      }
      consumed := true;
      z := z.(hp := z.hp - Damage);
      if z.hp <= 0 {
        z := z.(active := false);
        score := score + 1;
        if dropRoll < DropChance {
          reserve := reserve + Between(DropMin, DropMax, dropDraw);
        }
      }
      zombies := zombies[zi := z];
      assert Snapshot() == BulletHit(old(Snapshot()), bulletActive, zi, dropRoll, dropDraw);
    }

    /** `_onZombieTouchPlayer` for zombie `zi`; `hurt` says damage was dealt. */
    method OnZombieTouchPlayer(zi: nat, now: int) returns (hurt: bool)
      requires Valid() && zi < |zombies|
      modifies this
      ensures Valid()
      ensures Snapshot() == ZombieTouch(old(Snapshot()), zi, now)
      ensures hurt == (HitCooldownMs <= now - old(zombies[zi].lastHitAt))
    {
      if now - zombies[zi].lastHitAt < HitCooldownMs {
        hurt := false;
        return;
      }
      zombies := zombies[zi := zombies[zi].(lastHitAt := now)];
      hp := hp - ZombieDamage;
      hurt := true;
      assert Snapshot() == ZombieTouch(old(Snapshot()), zi, now);
    }

    /** `_spawnZombie` with the player at `(px, py)`; both callers call it
        only below the population cap. */
    method SpawnZombie(px: real, py: real, uEdge: real, uCoord: real) returns (spawned: bool)
      requires Valid() && CountActive(zombies) < SpawnMax && IsDraw(uEdge) && IsDraw(uCoord)
      modifies this
      ensures Valid()
      ensures Snapshot() == Spawn(old(Snapshot()), SpawnPoint(uEdge, uCoord), px, py)
      ensures spawned == FarFromPlayer(SpawnPoint(uEdge, uCoord), px, py)
    {
      var p := SpawnPoint(uEdge, uCoord);
      if Dist2(px, py, p.0, p.1) < (SpawnMinDist * SpawnMinDist) as real {
        spawned := false;
        return;
      }
      CountActiveAppend(zombies, Zombie(ZombieHp, 0, true));
      zombies := zombies + [Zombie(ZombieHp, 0, true)];
      spawned := true;
    }

    /** `_doGameOver`, which `update` calls once health is gone. */
    method DoGameOver()
      requires Valid() && hp <= 0
      modifies this
      ensures Valid()
      ensures Snapshot() == old(Snapshot()).(gameOver := true)
    {
      gameOver := true;
    }

    /** The input part of `update`: shooting, reloading, looting. */
    method HandleFrameInput(f: Frame) returns (fired: bool)
      requires Valid() && !gameOver
      modifies this
      ensures Valid()
      ensures Snapshot() == HandleInput(old(Snapshot()), f)
      ensures fired == (f.fireHeld && Fires(old(Snapshot()), f.time) && f.pooled)
    {
      fired := false;
      if f.fireHeld {
        fired := TryShoot(f.time, f.pooled);
      }
      ghost var s1 := Snapshot();
      if f.reloadPressed {
        var _ := Reload();
      }
      assert Snapshot() == if f.reloadPressed then StartReload(s1) else s1;
      if f.lootPressed {
        var _ := TryLoot(f.px, f.py);
      }
    }

    /** The spawn pacing of `update`. */
    method PaceSpawning(f: Frame)
      requires Valid() && IsDraw(f.edgeDraw) && IsDraw(f.coordDraw)
      modifies this
      ensures Valid()
      ensures Snapshot() == PaceSpawns(old(Snapshot()), f)
    {
      if f.time - lastSpawn > SpawnEveryMs && CountActive(zombies) < SpawnMax {
        lastSpawn := f.time;
        var _ := SpawnZombie(f.px, f.py, f.edgeDraw, f.coordDraw);
      }
    }

    /** `update(time, delta)` for one frame; `fired` says a bullet left the
        gun this frame. */
    method Update(f: Frame) returns (fired: bool)
      requires Valid() && IsDraw(f.edgeDraw) && IsDraw(f.coordDraw)
      modifies this
      ensures Valid()
      ensures Snapshot() == Tick(old(Snapshot()), f)
      ensures fired == (!old(gameOver) && f.fireHeld && Fires(old(Snapshot()), f.time) && f.pooled)
    {
      fired := false;
      if gameOver { return; }
      fired := HandleFrameInput(f);
      PaceSpawning(f);
      if hp <= 0 {
        DoGameOver();
      }
    }
  }
}
