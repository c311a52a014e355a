/** The scene's handlers as functions from the old state to the new one.
    Times are integer milliseconds; positions of the player are reals (the
    physics engine moves it continuously), crates and spawn points sit on
    integer pixels. Distances are compared squared. */
module Rules {
  import opened Config
  import opened Draws
  import opened GameState

  function Min(a: int, b: int): (m: int) { if a <= b then a else b }

  // ---------------------------------------------------------------- weapon

  /** The two guards of `_tryShoot` that make it return at once. */
  predicate ShotReady(s: State, now: int) {
    FireRateMs <= now - s.lastShot && !s.reloading
  }

  /** `_tryShoot` spends a round (whether or not the pool yields a bullet). */
  predicate Fires(s: State, now: int) {
    ShotReady(s, now) && 0 < s.ammo
  }

  /** `_reload`: its only immediate effect is to raise `reloading`; the
      transfer happens later, in `FinishReload`. */
  function StartReload(s: State): (r: State)
    ensures r == s.(reloading := r.reloading)
    ensures r.reloading <==> s.reloading || (s.ammo < MagSize && 0 < s.reserve)
    ensures Inv(s) ==> Inv(r)
  {
    if s.reloading || MagSize <= s.ammo || s.reserve <= 0 then s
    else s.(reloading := true)
  }

  /** The delayed callback `_reload` schedules: move what fits from the
      reserve into the magazine and leave the reloading state. */
  function FinishReload(s: State): (r: State)
    ensures r.ammo + r.reserve == s.ammo + s.reserve
    ensures r == s.(ammo := r.ammo, reserve := r.reserve, reloading := false)
    ensures Inv(s) ==> Inv(r) && s.ammo <= r.ammo && (r.ammo == MagSize || r.reserve == 0)
    ensures Inv(s) && s.reloading ==> s.ammo < r.ammo
  {
    var take := Min(MagSize - s.ammo, s.reserve);
    s.(reserve := s.reserve - take, ammo := s.ammo + take, reloading := false)
  }

  /** `_tryShoot`: with time and weapon ready, an empty magazine only asks
      for a reload; otherwise one round is spent and the shot time kept. */
  function Shoot(s: State, now: int): (r: State)
    ensures r == s.(ammo := r.ammo, lastShot := r.lastShot, reloading := r.reloading)
    ensures r.ammo == (if Fires(s, now) then s.ammo - 1 else s.ammo)
    ensures r.lastShot == (if Fires(s, now) then now else s.lastShot)
    ensures Inv(s) ==> Inv(r)
  {
    if now - s.lastShot < FireRateMs || s.reloading then s
    else if s.ammo <= 0 then StartReload(s)
    else s.(lastShot := now, ammo := s.ammo - 1)
  }

  // ---------------------------------------------------------------- looting

  /** The square of `bestD`'s starting value 1e9 in `_tryLoot`. */
  const Far: real := 1000000000000000000.0
  const LootRadius2: real := (LootRadius * LootRadius) as real

  function Dist2(px: real, py: real, x: int, y: int): (d: real) {
    (x as real - px) * (x as real - px) + (y as real - py) * (y as real - py)
  }

  function CrateDist2(c: Crate, px: real, py: real): (d: real) {
    Dist2(px, py, c.x, c.y)
  }

  /** The accumulators `(nearest, bestD²)` of `_tryLoot`'s scan after the
      first `n` crates: an unopened crate replaces the candidate only when it
      is strictly closer. */
  function Scan(cs: seq<Crate>, px: real, py: real, n: nat): (r: (Option<nat>, real))
    requires n <= |cs|
    ensures r.0.None? ==> r.1 == Far
    ensures r.0.Some? ==> r.0.value < n && !cs[r.0.value].isOpened &&
                          r.1 == CrateDist2(cs[r.0.value], px, py) && r.1 < Far
  {
    if n == 0 then (None, Far)
    else
      var prev := Scan(cs, px, py, n - 1);
      var d := CrateDist2(cs[n - 1], px, py);
      if !cs[n - 1].isOpened && d < prev.1 then (Some(n - 1), d) else prev
  }

  /** The scan picks an unopened crate at minimal distance, and the first
      one among equally distant crates. */
  lemma {:induction false} ScanFirstNearest(cs: seq<Crate>, px: real, py: real, n: nat)
    requires n <= |cs|
    ensures forall j :: 0 <= j < n && !cs[j].isOpened ==>
              Scan(cs, px, py, n).1 <= CrateDist2(cs[j], px, py)
    ensures Scan(cs, px, py, n).0.Some? ==>
              forall j :: 0 <= j < Scan(cs, px, py, n).0.value && !cs[j].isOpened ==>
                Scan(cs, px, py, n).1 < CrateDist2(cs[j], px, py)
  {
    if n > 0 {
      ScanFirstNearest(cs, px, py, n - 1);
    }
  }

  /** The crate `_tryLoot` opens, if any: the scan's pick, when it lies
      within the loot radius (a distance of exactly the radius succeeds). */
  function LootChoice(cs: seq<Crate>, px: real, py: real): (k: Option<nat>)
    ensures k.Some? ==> k.value < |cs| && !cs[k.value].isOpened &&
                        CrateDist2(cs[k.value], px, py) <= LootRadius2
  {
    var (k, d) := Scan(cs, px, py, |cs|);
    if k.None? || LootRadius2 < d then None else k
  }

  /** `_tryLoot`: open the chosen crate, add its rounds to the reserve and
      heal `MedHeal` per medkit level, up to `MaxHp`. */
  function Loot(s: State, px: real, py: real): (r: State)
    ensures |r.crates| == |s.crates|
    ensures forall i :: 0 <= i < |s.crates| && s.crates[i].isOpened ==> r.crates[i] == s.crates[i]
    ensures forall i :: 0 <= i < |s.crates| && r.crates[i] != s.crates[i] ==>
              LootChoice(s.crates, px, py) == Some(i) &&
              r.crates[i] == s.crates[i].(isOpened := true)
    ensures r.reserve == s.reserve + (match LootChoice(s.crates, px, py)
                                      case None => 0
                                      case Some(k) => s.crates[k].loot.ammo)
    ensures r == s.(crates := r.crates, reserve := r.reserve, hp := r.hp)
    ensures Inv(s) && !s.gameOver ==> Inv(r)
  {
    match LootChoice(s.crates, px, py)
    case None => s
    case Some(k) =>
      var c := s.crates[k];
      s.(crates := s.crates[k := c.(isOpened := true)],
         reserve := s.reserve + c.loot.ammo,
         hp := if 0 < c.loot.med then Min(MaxHp, s.hp + c.loot.med * MedHeal) else s.hp)
  }

  // ---------------------------------------------------------------- combat

  /** The reserve rounds a kill drops: `DropMin..DropMax` when the roll is
      below `DropChance`, nothing otherwise. */
  function DropRounds(dropRoll: real, dropDraw: real): (n: int)
    requires IsDraw(dropRoll) && IsDraw(dropDraw)
    ensures dropRoll < DropChance ==> DropMin <= n <= DropMax
    ensures DropChance <= dropRoll ==> n == 0
  {
    if dropRoll < DropChance then Between(DropMin, DropMax, dropDraw) else 0
  }

  /** `_onBulletHitZombie` on zombie `zi`: `dropRoll` and `dropDraw` are the
      two random draws of the kill branch. */
  function BulletHit(s: State, bulletActive: bool, zi: nat, dropRoll: real, dropDraw: real): (r: State)
    requires zi < |s.zombies| && IsDraw(dropRoll) && IsDraw(dropDraw)
    ensures |r.zombies| == |s.zombies|
    ensures forall j :: 0 <= j < |s.zombies| && j != zi ==> r.zombies[j] == s.zombies[j]
    ensures !bulletActive || !s.zombies[zi].active ==> r == s
    ensures bulletActive && s.zombies[zi].active ==>
              r.zombies[zi] == s.zombies[zi].(hp := s.zombies[zi].hp - Damage, active := Damage < s.zombies[zi].hp)
    ensures r.score == s.score + (if bulletActive && s.zombies[zi].active && s.zombies[zi].hp <= Damage then 1 else 0)
    ensures r.score + CountActive(r.zombies) == s.score + CountActive(s.zombies)
    ensures s.reserve <= r.reserve <= s.reserve + DropMax
    ensures r.score == s.score ==> r.reserve == s.reserve
    ensures bulletActive && s.zombies[zi].active && s.zombies[zi].hp <= Damage ==>
              (dropRoll < DropChance ==> DropMin <= r.reserve - s.reserve <= DropMax) &&
              (DropChance <= dropRoll ==> r.reserve == s.reserve)
    ensures r == s.(zombies := r.zombies, score := r.score, reserve := r.reserve)
    ensures Inv(s) ==> Inv(r)
  {
    var z := s.zombies[zi];
    if !bulletActive || !z.active then s
    else if 0 < z.hp - Damage then Wound(s, zi)
    else Kill(s, zi, dropRoll, dropDraw)
  }

  /** A live hit that leaves zombie `zi` standing. */
  function Wound(s: State, zi: nat): (r: State)
    requires zi < |s.zombies| && s.zombies[zi].active && Damage < s.zombies[zi].hp
    ensures r == s.(zombies := s.zombies[zi := s.zombies[zi].(hp := s.zombies[zi].hp - Damage)])
    ensures CountActive(r.zombies) == CountActive(s.zombies)
    ensures Inv(s) ==> Inv(r)
  {
    var z := s.zombies[zi];
    CountActiveUpdate(s.zombies, zi, z.(hp := z.hp - Damage));
    s.(zombies := s.zombies[zi := z.(hp := z.hp - Damage)])
  }

  /** A live hit that destroys zombie `zi`: one more kill, and the drop. */
  function Kill(s: State, zi: nat, dropRoll: real, dropDraw: real): (r: State)
    requires zi < |s.zombies| && s.zombies[zi].active && s.zombies[zi].hp <= Damage
    requires IsDraw(dropRoll) && IsDraw(dropDraw)
    ensures r == s.(zombies := s.zombies[zi := s.zombies[zi].(hp := s.zombies[zi].hp - Damage, active := false)],
                    score := s.score + 1, reserve := s.reserve + DropRounds(dropRoll, dropDraw))
    ensures CountActive(r.zombies) + 1 == CountActive(s.zombies)
    ensures Inv(s) ==> Inv(r)
  {
    var z := s.zombies[zi];
    CountActiveUpdate(s.zombies, zi, z.(hp := z.hp - Damage, active := false));
    s.(zombies := s.zombies[zi := z.(hp := z.hp - Damage, active := false)],
       score := s.score + 1,
       reserve := s.reserve + DropRounds(dropRoll, dropDraw))
  }

  /** `_onZombieTouchPlayer`: the per-zombie cooldown gate, then unclamped
      damage to the player. */
  function ZombieTouch(s: State, zi: nat, now: int): (r: State)
    requires zi < |s.zombies|
    ensures |r.zombies| == |s.zombies|
    ensures forall j :: 0 <= j < |s.zombies| && j != zi ==> r.zombies[j] == s.zombies[j]
    ensures r.zombies[zi] == s.zombies[zi].(lastHitAt := r.zombies[zi].lastHitAt)
    ensures r.zombies[zi].lastHitAt ==
              (if HitCooldownMs <= now - s.zombies[zi].lastHitAt then now else s.zombies[zi].lastHitAt)
    ensures r == s.(zombies := r.zombies, hp := r.hp)
    ensures r.hp == s.hp - (if HitCooldownMs <= now - s.zombies[zi].lastHitAt then ZombieDamage else 0)
    ensures Inv(s) ==> Inv(r)
  {
    var z := s.zombies[zi];
    if now - z.lastHitAt < HitCooldownMs then s
    else
      CountActiveUpdate(s.zombies, zi, z.(lastHitAt := now));
      s.(zombies := s.zombies[zi := z.(lastHitAt := now)], hp := s.hp - ZombieDamage)
  }

  // ---------------------------------------------------------------- spawning

  /** A point on one of the four world edges, `SpawnInset` pixels inside. */
  predicate OnSpawnEdge(x: int, y: int) {
    || ((x == SpawnInset || x == WorldW - SpawnInset) && SpawnInset <= y <= WorldH - SpawnInset)
    || ((y == SpawnInset || y == WorldH - SpawnInset) && SpawnInset <= x <= WorldW - SpawnInset)
  }

  /** The candidate point of `_spawnZombie`: `uEdge` picks the edge (left,
      right, top, bottom), `uCoord` the position along it. */
  function SpawnPoint(uEdge: real, uCoord: real): (p: (int, int))
    requires IsDraw(uEdge) && IsDraw(uCoord)
    ensures OnSpawnEdge(p.0, p.1)
  {
    var edge := Between(0, 3, uEdge);
    if edge == 0 then (SpawnInset, Between(SpawnInset, WorldH - SpawnInset, uCoord))
    else if edge == 1 then (WorldW - SpawnInset, Between(SpawnInset, WorldH - SpawnInset, uCoord))
    else if edge == 2 then (Between(SpawnInset, WorldW - SpawnInset, uCoord), SpawnInset)
    else (Between(SpawnInset, WorldW - SpawnInset, uCoord), WorldH - SpawnInset)
  }

  /** The candidate is kept only at distance `SpawnMinDist` or more. */
  predicate FarFromPlayer(p: (int, int), px: real, py: real) {
    (SpawnMinDist * SpawnMinDist) as real <= Dist2(px, py, p.0, p.1)
  }

  /** `_spawnZombie` with the player at `(px, py)` and candidate point `p`
      (the `SpawnPoint` of the call's two draws). */
  function Spawn(s: State, p: (int, int), px: real, py: real): (r: State)
    ensures FarFromPlayer(p, px, py) ==> r.zombies == s.zombies + [Zombie(ZombieHp, 0, true)]
    ensures !FarFromPlayer(p, px, py) ==> r.zombies == s.zombies
    ensures r == s.(zombies := r.zombies)
    ensures CountActive(r.zombies) <= CountActive(s.zombies) + 1
    ensures Inv(s) && CountActive(s.zombies) < SpawnMax ==> Inv(r)
  {
    if !FarFromPlayer(p, px, py) then s
    else
      CountActiveAppend(s.zombies, Zombie(ZombieHp, 0, true));
      s.(zombies := s.zombies + [Zombie(ZombieHp, 0, true)])
  }

  predicate AllDraws(rolls: seq<(real, real)>) {
    forall i :: 0 <= i < |rolls| ==> IsDraw(rolls[i].0) && IsDraw(rolls[i].1)
  }

  /** How many of the candidate points drawn by `rolls` are far enough from
      the start position to be kept. */
  function FarCount(rolls: seq<(real, real)>): (n: nat)
    requires AllDraws(rolls)
    ensures n <= |rolls|
    ensures rolls != [] && !FarFromPlayer(SpawnPoint(rolls[0].0, rolls[0].1), StartX, StartY) ==> n < |rolls|
    decreases |rolls|
  {
    if rolls == [] then 0
    else
      assert AllDraws(rolls[1..]);
      (if FarFromPlayer(SpawnPoint(rolls[0].0, rolls[0].1), StartX, StartY) then 1 else 0) + FarCount(rolls[1..])
  }

  /** The initial spawn loop of `create`, one spawn per pair of draws, with
      the player at its start position. */
  function SpawnAll(s: State, rolls: seq<(real, real)>): (r: State)
    requires AllDraws(rolls)
    ensures r == s.(zombies := r.zombies)
    ensures s.zombies <= r.zombies && |r.zombies| <= |s.zombies| + |rolls|
    ensures forall i :: |s.zombies| <= i < |r.zombies| ==> r.zombies[i] == Zombie(ZombieHp, 0, true)
    ensures (forall i :: 0 <= i < |rolls| ==> FarFromPlayer(SpawnPoint(rolls[i].0, rolls[i].1), StartX, StartY)) ==>
              |r.zombies| == |s.zombies| + |rolls|
    ensures |r.zombies| == |s.zombies| + FarCount(rolls)
    ensures Inv(s) && CountActive(s.zombies) + |rolls| <= SpawnMax ==> Inv(r)
    decreases |rolls|
  {
    if rolls == [] then s
    else
      var s1 := Spawn(s, SpawnPoint(rolls[0].0, rolls[0].1), StartX, StartY);
      CountActiveAppend(s.zombies, Zombie(ZombieHp, 0, true));
      SpawnAll(s1, rolls[1..])
  }

  /** One step of the opening spawn loop. */
  lemma SpawnAllStep(s: State, rolls: seq<(real, real)>)
    requires AllDraws(rolls) && rolls != []
    ensures AllDraws(rolls[1..])
    ensures SpawnAll(s, rolls) == SpawnAll(Spawn(s, SpawnPoint(rolls[0].0, rolls[0].1), StartX, StartY), rolls[1..])
  {
    assert AllDraws(rolls[1..]);
  }

  // ---------------------------------------------------------------- frame

  /** What one call of `update` is given: the time, the player's position
      after physics, the input, whether the bullet pool has a bullet, and
      the two draws of a spawn. */
  datatype Frame = Frame(
    time: int, px: real, py: real,
    fireHeld: bool, reloadPressed: bool, lootPressed: bool, pooled: bool,
    edgeDraw: real, coordDraw: real)

  /** The spawn guard of `update`. */
  predicate SpawnDue(s: State, time: int) {
    SpawnEveryMs < time - s.lastSpawn && CountActive(s.zombies) < SpawnMax
  }

  /** The input part of `update`: shoot while the button is held, reload
      and loot on a key press, in that order. */
  function HandleInput(s: State, f: Frame): (r: State)
    ensures r.zombies == s.zombies && r.lastSpawn == s.lastSpawn
    ensures r.score == s.score && r.gameOver == s.gameOver
    ensures !f.fireHeld && !f.reloadPressed && !f.lootPressed ==> r == s
    ensures r.ammo == (if f.fireHeld then Shoot(s, f.time).ammo else s.ammo)
    ensures r.lastShot == (if f.fireHeld then Shoot(s, f.time).lastShot else s.lastShot)
    ensures f.reloadPressed && !f.fireHeld && !f.lootPressed ==> r == StartReload(s)
    ensures var s1 := if f.fireHeld then Shoot(s, f.time) else s;
              r.reloading == (if f.reloadPressed then StartReload(s1).reloading else s1.reloading)
    ensures r.crates == (if f.lootPressed then Loot(s, f.px, f.py).crates else s.crates)
    ensures r.reserve == (if f.lootPressed then Loot(s, f.px, f.py).reserve else s.reserve)
    ensures r.hp == (if f.lootPressed then Loot(s, f.px, f.py).hp else s.hp)
    ensures Inv(s) && !s.gameOver ==> Inv(r)
  {
    var s1 := if f.fireHeld then Shoot(s, f.time) else s;
    var s2 := if f.reloadPressed then StartReload(s1) else s1;
    if f.lootPressed then Loot(s2, f.px, f.py) else s2
  }

  /** The spawn pacing of `update`. */
  function PaceSpawns(s: State, f: Frame): (r: State)
    requires IsDraw(f.edgeDraw) && IsDraw(f.coordDraw)
    ensures r.lastSpawn == (if SpawnDue(s, f.time) then f.time else s.lastSpawn)
    ensures r == s.(zombies := r.zombies, lastSpawn := r.lastSpawn)
    ensures !SpawnDue(s, f.time) ==> r == s
    ensures SpawnDue(s, f.time) ==>
              r.zombies == Spawn(s, SpawnPoint(f.edgeDraw, f.coordDraw), f.px, f.py).zombies
    ensures Inv(s) ==> Inv(r)
  {
    if SpawnDue(s, f.time)
    then Spawn(s.(lastSpawn := f.time), SpawnPoint(f.edgeDraw, f.coordDraw), f.px, f.py)
    else s
  }

  /** The spawn pacing reads only the zombies and the spawn clock. */
  lemma SpawnsSeeOnlyZombies(s: State, t: State, f: Frame)
    requires IsDraw(f.edgeDraw) && IsDraw(f.coordDraw)
    requires s.zombies == t.zombies && s.lastSpawn == t.lastSpawn
    ensures PaceSpawns(s, f).zombies == PaceSpawns(t, f).zombies
    ensures PaceSpawns(s, f).lastSpawn == PaceSpawns(t, f).lastSpawn
  {
  }

  /** One `update`: nothing once the game is over; otherwise handle the
      input, spawn when due, and end the game when health is gone. */
  function Tick(s: State, f: Frame): (r: State)
    requires IsDraw(f.edgeDraw) && IsDraw(f.coordDraw)
    ensures s.gameOver ==> r == s
    ensures !s.gameOver ==> (r.gameOver <==> r.hp <= 0)
    ensures !s.gameOver ==> r.lastSpawn == (if SpawnDue(s, f.time) then f.time else s.lastSpawn)
    ensures !s.gameOver ==>
              r.(zombies := s.zombies, lastSpawn := s.lastSpawn, gameOver := false) == HandleInput(s, f)
    ensures !s.gameOver ==> r.zombies == PaceSpawns(s, f).zombies
    ensures r.score == s.score
    ensures Inv(s) ==> Inv(r)
  {
    if s.gameOver then s
    else
      var s1 := HandleInput(s, f);
      SpawnsSeeOnlyZombies(s1, s, f);
      var s2 := PaceSpawns(s1, f);
      assert s2.(zombies := s.zombies, lastSpawn := s.lastSpawn) == s1;
      if s2.hp <= 0 then s2.(gameOver := true) else s2
  }
}
