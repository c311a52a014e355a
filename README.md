# Zombie Loot Alpha — a Dafny model of the scene's game rules

Zombie Loot Alpha is a top-down survival shooter. A Phaser scene, `MainScene`
in `main.js`, holds the player's health, magazine, reserve, reload flag and
last shot time, the kill score, the spawn clock and the game-over flag, plus a
group of loot crates and a group of zombies. Its handlers update all of these
in place: shooting, reloading and the reload timer, looting the nearest crate,
bullet hits, zombie contact, spawn pacing and the game-over check. This project
models that integer bookkeeping and proves what the handlers promise about it.
It also models the outline arithmetic of `_buildHouses`.

Layout:

- `config.dfy` (`Config`): the constants of `CONFIG` and the literal numbers in the handlers.
- `draws.dfy` (`Draws`): each `Math.random()` call becomes a parameter `u` in `[0, 1)`.
  `Between` is Phaser's `Math.Between`, that is `floor(u * (max - min + 1) + min)`.
- `loot.dfy` (`LootTable`): `_rollLoot` and the three bands of the loot table.
- `state.dfy` (`GameState`): crates, zombies, the scene state as a value, and the
  invariant `Inv` that every reachable state keeps.
- `rules.dfy` (`Rules`): each handler as a function from the old state to the new state.
- `properties.dfy` (`Properties`): the guarantees of the handlers, as lemmas.
- `session.dfy` (`Session`): runs, meaning sequences of engine calls starting from
  `create`, and what holds in every state of a run.
- `scene.dfy` (`Scene`): the class `MainScene`, with the fields the source updates.
  Each method is proved to change the fields exactly as the matching `Rules`
  function changes `Snapshot()`, and to keep `Valid()`.
- `houses.dfy` (`Houses`): the wall blocks `_buildHouses` places for each house.

Modelling choices:

- Times are integer milliseconds.
- The player's position is a pair of reals, because physics moves it continuously.
  Crates and spawn points have integer coordinates.
- Distances are compared squared. `d < bestD` becomes `d² < bestD²`, and `bestD`
  starts at 1e9, so its square is 1e18.
  `d > radius` becomes `d² > 44²`, and `d < 520` becomes `d² < 520²`.
- A destroyed zombie stays in the sequence with `active` false.
  Phaser's `countActive(true)` becomes `CountActive`.
- The engine's inputs are passed as parameters: the time, the player's position,
  the input flags, whether the bullet pool yields a bullet, and the random draws.
- The reload timer is the explicit call `CompleteReload` (`FinishReload` on values).
  It may only be called while `reloading` is set, because `_reload` is what schedules it.

Behaviour of the code worth noting:

- Zombie damage is not clamped (main.js:419), so health can go negative
  (`Properties.HealthGoesNegative`).
- Firing on an empty magazine calls `_reload` instead of shooting (main.js:330-333).
  A reload starts only if the reserve is positive (main.js:364).
- The pointer-down listener (main.js:79-81) calls `_tryShoot` without checking
  `gameOver`, so clicks still spend rounds after the game ends
  (`Properties.ClickAfterGameOver`). The overlap handlers (main.js:395-423) do not
  check `gameOver` either.
- Only kills change the score (main.js:405). `_tryLoot` (main.js:296-317) never
  touches it, and `Inv` states that the score equals the number of zombies killed.
- The contact cooldown is the field `lastHitAt` of the touching zombie
  (main.js:416-417), so each zombie has its own cooldown (`Properties.CooldownIsPerZombie`).
- The spawn guard compares `time - lastSpawn` with the spawn interval (main.js:140).
  It does not add up frame times.
- A crate's loot is rolled once, when the crate is created (main.js:281), and opening it
  pays that payload.
- Within one `update`, looting (main.js:129) comes before the health check at
  main.js:153. A player at 0 health who loots a medkit in the same frame survives
  (`Properties.LootBeforeGameOverCheck`).
- The door-gap test includes both ends (main.js:232). A wall whose span is an odd
  number of blocks loses two blocks, and one with an even span loses three.
  Both south-facing houses of the map span 11 blocks, so they get two-block doors.

## Model

| member | source | states |
|---|---|---|
| `Draws.Between` | main.js:291-293 | A `Math.Between(min, max)` draw lies in the closed range `min..max` |
| `Draws.BetweenOnto` | main.js:291-293 | Every value of the range is drawn by some `u` in `[0, 1)` |
| `LootTable.RollLoot` | main.js:288-294 | The result is always in the table: medkit level 0, 1 or 2 with ammo in 8..18, 6..14 or 12..24. Level 0 iff `r < 0.55`, level 2 iff `r >= 0.85` |
| `LootTable.RollLootOnto` | main.js:288-294 | Every payload of the table is rolled by some pair of draws |
| `GameState.CountActive` | main.js:140 | The number of active zombies is at most the number of zombies |
| `GameState.Start` | main.js:49-53 | The start state: hp 100, magazine 18, reserve 90, not reloading, `lastShot`, score and `lastSpawn` 0, not over, no zombies, the given crates. It satisfies `Inv` |
| `Rules.StartReload` | main.js:361-366 | `_reload` changes only `reloading`. The flag is set iff it was already set, or the magazine is not full and the reserve is positive. Keeps `Inv` |
| `Rules.FinishReload` | main.js:367-373 | The reload callback keeps `ammo + reserve`, clears `reloading` and keeps `Inv`. Afterwards the magazine is full or the reserve is empty. If a reload was pending, ammo strictly increases |
| `Rules.Shoot` | main.js:325-336 | `_tryShoot` spends exactly one round and sets `lastShot := now` iff time, reload flag and ammo allow it. Otherwise ammo and `lastShot` are unchanged. Only `ammo`, `lastShot` and `reloading` can change. Keeps `Inv` |
| `Rules.Scan` | main.js:297-304 | The scan's pick is an unopened crate whose squared distance is the best one found, below 1e18. With no pick, the best distance is still 1e18 |
| `Rules.ScanFirstNearest` | main.js:297-304 | The scan's best distance is at most that of every unopened crate. Every unopened crate before the pick is strictly farther |
| `Rules.LootChoice` | main.js:306 | A chosen crate is unopened and within the loot radius, inclusive |
| `Rules.Loot` | main.js:306-317 | Crates keep their number. An opened crate never changes. Only the chosen crate changes, and only to become opened. The reserve grows by the chosen crate's ammo. Only crates, reserve and hp change. Keeps `Inv` before game over |
| `Rules.DropRounds` | main.js:408-409 | The kill drop is 4..10 rounds when the roll is below 0.25, and 0 otherwise |
| `Rules.BulletHit` | main.js:395-411 | A hit with either body inactive changes nothing. Otherwise zombie `zi` loses exactly 25 hp and stays active iff it had more than 25. No other zombie changes. The score grows by one exactly on a kill, and `score + CountActive` is kept. The reserve grows only on a kill: by 4..10 when the drop roll is below 0.25, by nothing otherwise. Only zombies, score and reserve change. Keeps `Inv` |
| `Rules.ZombieTouch` | main.js:414-420 | If `now - lastHitAt >= 650`, health drops by 12 and the zombie's `lastHitAt` becomes `now`. Otherwise both are unchanged. Nothing else changes. Keeps `Inv` |
| `Rules.SpawnPoint` | main.js:378-383 | The candidate spawn point lies on one of the four world edges, 30 px inside |
| `Rules.Spawn` | main.js:385-392 | A zombie with hp 60, `lastHitAt` 0 and active set is appended iff the candidate is at least 520 from the player. Nothing else changes. Keeps `Inv` below the cap |
| `Rules.SpawnAll` | main.js:96 | The opening spawns change only the zombies and keep the ones already there. Every zombie they add is `Zombie(60, 0, true)`, one for each draw whose candidate lies at least 520 from the start position (`FarCount`) and none for a nearer one, so exactly one per draw when every candidate is far. They keep `Inv` when the cap leaves room |
| `Rules.HandleInput` | main.js:122-129 | With no input nothing changes. Ammo and `lastShot` are those of `Shoot` when fire is held, else unchanged. A lone reload press is exactly `StartReload`. The reload flag is that of `StartReload` applied after the shot on a reload press, else that of the shot, so a held button on an empty magazine starts a reload. Crates, reserve and hp are those of `Loot` on a loot press, else unchanged. Zombies, spawn clock, score and game-over flag are left alone. Keeps `Inv` |
| `Rules.PaceSpawns` | main.js:140-143 | When no spawn is due, nothing changes. When one is due, `lastSpawn` becomes the time and the zombies are those of exactly one `Spawn` attempt at the frame's candidate point, accepted or not. Only zombies and `lastSpawn` change. Keeps `Inv` |
| `Rules.Tick` | main.js:108-154 | A game-over state is left unchanged. Otherwise the frame is `HandleInput` on everything but zombies, spawn clock and game-over flag. The zombies are those of `PaceSpawns` from the frame's start, and the frame ends in game over iff hp <= 0. `lastSpawn` follows the spawn guard, the score is unchanged, and `Inv` is kept |
| `Properties.ShootOutcomes` | main.js:325-342 | The three outcomes of `_tryShoot`: no-op, reload attempt with ammo and `lastShot` unchanged, or one round spent. A round is spent whether or not the pool yields a bullet |
| `Properties.ReloadGuards` | main.js:361-366 | `_reload` is a no-op when already reloading, when the magazine is full, or when the reserve is empty. Otherwise it only sets `reloading` |
| `Properties.ReloadCycle` | main.js:361-373 | A full reload leaves `min(18, ammo + reserve)` in the magazine, conserves rounds and keeps `Inv` |
| `Properties.EmptyMagazineScenario` | main.js:330-333 | Firing with 0 in the magazine and 10 in reserve spends nothing and starts a reload. The timer then loads all 10 and empties the reserve |
| `Properties.HeldFireOnEmptyMagazineReloads` | main.js:325-336 | Holding fire on an empty magazine, with the gun ready and rounds in reserve, starts a reload in that frame and spends no round |
| `Properties.ClickAfterGameOver` | main.js:79-81 | After game over a click still spends a round |
| `Properties.LootChoiceIsFirstNearest` | main.js:296-306 | Crate `k` is looted iff it is unopened, within the radius, no farther than any unopened crate, and strictly nearer than every unopened crate before it |
| `Properties.LootOutOfReach` | main.js:306 | With every unopened crate beyond the radius, looting changes nothing |
| `Properties.CratePaysOnce` | main.js:309 | Once opened, a crate is never chosen or changed again, from any position |
| `Properties.LootReward` | main.js:313-317 | The reward is the crate's ammo plus `18 * med` healing, capped at 100 |
| `Properties.ThirdHitKills` | main.js:399-405 | A fresh 60-hp zombie goes to 35 and then 10 without scoring. The third hit kills it and scores once. A further hit is ignored |
| `Properties.InactiveHitIgnored` | main.js:396 | A hit involving an inactive bullet or zombie changes nothing |
| `Properties.KillDrop` | main.js:403-410 | A kill scores one and drops either nothing or 4..10 reserve rounds |
| `Properties.CooldownBlocksRepeat` | main.js:416-419 | Two touches by the same zombie within 650 ms deal damage once |
| `Properties.CooldownRearms` | main.js:416-419 | After a hit at `t1`, a touch at `t2 >= t1 + 650` by the same zombie hurts again and restarts its cooldown at `t2` |
| `Properties.CooldownIsPerZombie` | main.js:416-419 | Two different ready zombies both deal damage at the same instant |
| `Properties.HealthGoesNegative` | main.js:419 | A touch at 5 hp leaves -7 hp, still within `Inv` |
| `Properties.GameOverFreezes` | main.js:109 | Once the game is over, `update` changes nothing. A frame ending at hp <= 0 ends the game |
| `Properties.LootBeforeGameOverCheck` | main.js:129 | A player at 0 hp who loots a level-2 medkit in the same frame survives the frame |
| `Properties.SpawnPacing` | main.js:140-143 | A due spawn resets the spawn clock, and the active count stays at most 24 |
| `Properties.SpawnedZombie` | main.js:385-390 | An accepted zombie is appended with hp 60 and `lastHitAt` 0, on an inset edge |
| `Session.Step` | main.js:65-81 | Each engine call (frame, click, reload timer, the two overlaps) keeps `Inv` |
| `Session.RunKeepsInv` | main.js:325-420 | `Inv` holds in every state of a run |
| `Session.RunKeepsCratesOpened` | main.js:309 | An opened crate stays opened and unchanged for the rest of a run |
| `Session.RunKeepsGameOver` | main.js:425-426 | No call clears the game-over flag |
| `Session.Created` | main.js:45-106 | The state `create` leaves satisfies `Inv`: full health and magazine, 90 in reserve, score 0, not reloading, not over, the crates given. It holds one zombie, `Zombie(60, 0, true)`, for each of the 10 candidates at least 520 from the start position and none for a nearer one, so at most 10 |
| `Session.Bounds` | main.js:49-53 | From `create` on: `0 <= ammo <= 18`, `reserve >= 0`, `hp <= 100`, at most 24 active zombies, and score equal to the kills |
| `Scene.FindNearest` | main.js:297-304 | The scan loop returns an unopened crate at minimal squared distance, the first of any tie, or none with the best distance left at 1e18 |
| `Scene.MainScene.constructor` | main.js:26-106 | `create` leaves a valid scene equal to `Session.Created` |
| `Scene.MainScene.SpawnOpening` | main.js:96 | The opening loop of `_spawnZombie` calls moves the scene as `Rules.SpawnAll` and keeps it valid |
| `Scene.MainScene.TryShoot` | main.js:325-359 | Moves the scene as `Rules.Shoot`. `fired` is true iff a round was spent and the pool yielded a bullet |
| `Scene.MainScene.Reload` | main.js:361-366 | Moves the scene as `Rules.StartReload`. `started` is true iff the reload flag was raised |
| `Scene.MainScene.CompleteReload` | main.js:367-373 | Moves the scene as `Rules.FinishReload` and stays valid |
| `Scene.MainScene.TryLoot` | main.js:296-317 | Moves the scene as `Rules.Loot` and returns the crate opened |
| `Scene.MainScene.OnBulletHitZombie` | main.js:395-411 | Moves the scene as `Rules.BulletHit`. The bullet is consumed iff both bodies were active |
| `Scene.MainScene.OnZombieTouchPlayer` | main.js:414-423 | Moves the scene as `Rules.ZombieTouch`. `hurt` is true iff the cooldown had run out |
| `Scene.MainScene.SpawnZombie` | main.js:376-393 | Moves the scene as `Rules.Spawn`. `spawned` is true iff the candidate was far enough from the player |
| `Scene.MainScene.DoGameOver` | main.js:425-427 | Sets only the game-over flag |
| `Scene.MainScene.HandleFrameInput` | main.js:122-129 | Moves the scene as `Rules.HandleInput`; `fired` is true iff fire was held, the shot spent a round and the pool yielded a bullet |
| `Scene.MainScene.PaceSpawning` | main.js:139-143 | Moves the scene as `Rules.PaceSpawns` |
| `Scene.MainScene.Update` | main.js:108-154 | Moves the scene as `Rules.Tick` and stays valid; `fired` is true iff the game was not over, fire was held, the shot spent a round and the pool yielded a bullet |
| `Houses.Snap` | main.js:219-222 | `floor(v / 48) * 48` is block-aligned, at most `v`, and less than one block below it |
| `Houses.BoxOf` | main.js:219-222 | The wall rectangle has block-aligned corners within one block of the house's edges |
| `Houses.PlaceRows` | main.js:227-234 | The first loop places exactly the top-wall blocks and the bottom-wall blocks outside the door gap |
| `Houses.PlaceSides` | main.js:236-239 | The second loop adds exactly the side-wall blocks from top to bottom, and stops below the bottom wall |
| `Houses.Outline` | main.js:216-245 | A block gets a wall iff it is on the top wall, on the bottom wall outside the door gap, on a side wall, or is one of the three fence blocks |
| `Houses.BuildOutlines` | main.js:217-246 | A block gets a wall iff it is on the outline of one of the houses |
| `Houses.DoorGapBlocks` | main.js:224-233 | For a south door over an `n`-block span, block `i` is skipped iff `n - 2 <= 2i <= n + 2`. That is two blocks for odd `n` and three for even `n` |
| `Houses.TownDoorsTwoBlocks` | main.js:208-233 | Both south-facing houses of the map span 11 blocks and lose exactly bottom blocks 5 and 6 |

## Left out

- Rendering and presentation: textures, the background grid, HUD text, tints, the hit flash and its 80 ms timer, floating text, tweens, camera follow and shake, and the game-over panel. None of them changes game state.
- Floating-point movement, aiming and pursuit: input vector normalisation, pointer angle and rotation, zombie steering, and bullet velocity and spread. This is float trigonometry handed to the physics engine. Zombie positions are not tracked.
- Collision and overlap dispatch and world bounds. Only the handlers are modelled, called explicitly. The event order within a physics step is the engine's.
- Overlap argument order: `_onZombieTouchPlayer(zombie, player)` is modelled with the order its parameters are declared in. Whether Phaser passes the group member or the single sprite first for the overlap at main.js:68 is not settled by main.js, so the per-zombie cooldown is a statement about the handler's text.
- Bullets: pool internals, lifetimes and the wall collider that destroys them. A bullet appears only as the `pooled` flag of a shot and the `bulletActive` flag of a hit.
- `_spawnCrates`: a rejection-sampling loop with no termination argument, whose wall check depends on the engine's `iterate` result. Its output is taken as input: 14 unopened crates whose payloads are in the loot table (`FreshCrates`). Crates are never destroyed, so `_tryLoot`'s `active` check always passes and crates carry no such flag.
- The random border clutter of `_buildHouses`.
- Every random number generator call. Each is replaced by a parameter in `[0, 1)`. Uniformity is not modelled.
- Input bindings and scene restart. A restart reruns `create`, which is the constructor.
- Float time and float distances. Times are integers, and square roots are replaced by exact comparisons of squared distances over the reals, so float rounding at a boundary is not captured.
- Whether the touching zombie is alive: `_onZombieTouchPlayer` does not check it, so neither does the model. The engine only reports overlaps of live bodies, and that filtering is not modelled.
