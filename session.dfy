/** A run of the scene: the calls the engine makes into it, one after
    another, from `create` on. What holds of every state of a run follows
    from `Inv` and the handlers that keep it. */
module Session {
  import opened Config
  import opened Draws
  import opened GameState
  import opened Rules

  /** One call into the scene: a frame, a click of the left button (its
      listener calls `_tryShoot` directly), the reload timer firing, and the
      two overlap callbacks of the physics engine. */
  datatype Event =
    | UpdateCall(f: Frame)
    | Click(now: int)
    | ReloadTimer
    | BulletOverlap(bulletActive: bool, zi: nat, dropRoll: real, dropDraw: real)
    | ZombieOverlap(zi: nat, now: int)

  /** What the engine guarantees about a call it makes: draws lie in
      `[0, 1)`, overlaps name an existing zombie, and the reload timer only
      exists while a reload is pending. */
  predicate Deliverable(s: State, e: Event) {
    match e
    case UpdateCall(f) => IsDraw(f.edgeDraw) && IsDraw(f.coordDraw)
    case Click(_) => true
    case ReloadTimer => s.reloading
    case BulletOverlap(_, zi, roll, draw) => zi < |s.zombies| && IsDraw(roll) && IsDraw(draw)
    case ZombieOverlap(zi, _) => zi < |s.zombies|
  }

  function Step(s: State, e: Event): (r: State)
    requires Deliverable(s, e)
    ensures Inv(s) ==> Inv(r)
  {
    match e
    case UpdateCall(f) => Tick(s, f)
    case Click(now) => Shoot(s, now)
    case ReloadTimer => FinishReload(s)
    case BulletOverlap(b, zi, roll, draw) => BulletHit(s, b, zi, roll, draw)
    case ZombieOverlap(zi, now) => ZombieTouch(s, zi, now)
  }

  /** Every event of `es` is deliverable in the state it meets. */
  predicate Delivers(s: State, es: seq<Event>)
    decreases |es|
  {
    es == [] || (Deliverable(s, es[0]) && Delivers(Step(s, es[0]), es[1..]))
  }

  function Run(s: State, es: seq<Event>): (r: State)
    requires Delivers(s, es)
    decreases |es|
  {
    if es == [] then s else Run(Step(s, es[0]), es[1..])
  }

  /** The invariant holds in every state of a run. */
  lemma {:induction false} RunKeepsInv(s: State, es: seq<Event>)
    requires Inv(s) && Delivers(s, es)
    ensures Inv(Run(s, es))
    decreases |es|
  {
    if es != [] {
      RunKeepsInv(Step(s, es[0]), es[1..]);
    }
  }

  /** An opened crate stays opened, and stays what it was, for the rest of
      the run. */
  lemma {:induction false} RunKeepsCratesOpened(s: State, es: seq<Event>, i: nat)
    requires Delivers(s, es) && i < |s.crates| && s.crates[i].isOpened
    ensures |Run(s, es).crates| == |s.crates| && Run(s, es).crates[i] == s.crates[i]
    decreases |es|
  {
    if es != [] {
      var s1 := Step(s, es[0]);
      assert |s1.crates| == |s.crates| && s1.crates[i] == s.crates[i] by {
        match es[0]
        case UpdateCall(f) =>
          if !s.gameOver {
            var s3 := HandleInput(s, f);
            assert |s3.crates| == |s.crates| && s3.crates[i] == s.crates[i] by {
              var a := if f.fireHeld then Shoot(s, f.time) else s;
              var b := if f.reloadPressed then StartReload(a) else a;
              assert b.crates == s.crates;
            }
          }
        case _ =>
      }
      RunKeepsCratesOpened(s1, es[1..], i);
    }
  }

  /** Game over is final: no call of the scene clears it. */
  lemma {:induction false} RunKeepsGameOver(s: State, es: seq<Event>)
    requires Delivers(s, es) && s.gameOver
    ensures Run(s, es).gameOver
    decreases |es|
  {
    if es != [] {
      RunKeepsGameOver(Step(s, es[0]), es[1..]);
    }
  }

  /** The state `create` leaves: the start values and the opening spawns. */
  function Created(crates: seq<Crate>, rolls: seq<(real, real)>): (s: State)
    requires FreshCrates(crates) && |rolls| == SpawnInitial && AllDraws(rolls)
    ensures Inv(s) && s.hp == MaxHp && s.ammo == MagSize && s.reserve == StartReserve
    ensures s.score == 0 && !s.gameOver && !s.reloading && s.crates == crates
    ensures forall i :: 0 <= i < |s.zombies| ==> s.zombies[i] == Zombie(ZombieHp, 0, true)
    ensures |s.zombies| <= SpawnInitial
    ensures (forall i :: 0 <= i < |rolls| ==> FarFromPlayer(SpawnPoint(rolls[i].0, rolls[i].1), StartX, StartY)) ==>
              |s.zombies| == SpawnInitial
    ensures |s.zombies| == FarCount(rolls)
  {
    SpawnAll(Start(crates), rolls)
  }

  /** From `create` on, in every state: the magazine holds between 0 and
      `MagSize` rounds, the reserve is never negative, health never exceeds
      `MaxHp`, no more than `SpawnMax` zombies are active, and the score is
      the number of zombies killed. */
  lemma Bounds(crates: seq<Crate>, rolls: seq<(real, real)>, es: seq<Event>)
    requires FreshCrates(crates) && |rolls| == SpawnInitial && AllDraws(rolls)
    requires Delivers(Created(crates, rolls), es)
    ensures var s := Run(Created(crates, rolls), es);
      && 0 <= s.ammo <= MagSize && 0 <= s.reserve && s.hp <= MaxHp
      && CountActive(s.zombies) <= SpawnMax
      && s.score == |s.zombies| - CountActive(s.zombies)
  {
    RunKeepsInv(Created(crates, rolls), es);
  }
}
