# Ballistic defence: the simulation core of `GameScene`

This project models the game logic of `GameScene`, a Phaser scene for a turret-defence game.
The turret sits at the centre of the viewport. Enemies spawn just outside one edge and home
in on it. The player fires bullets in the direction the turret points.

The model keeps the state machine behind the scene. It leaves out the drawing. It covers:

- the run state: score, wave, health, invulnerability, game-over flag, wave counters and fire time;
- the enemy and bullet lists;
- the wave director, which sizes a wave and spawns its enemies one timer callback at a time;
- the fire gate;
- the two collision passes;
- taking damage and game over;
- wave completion and the per-frame `update`.

The model has five modules:

- `Rules` holds the balance rules: the enemy kind cascade, per-kind stats, wave size and spawn interval.
- `Entities` holds points, enemies and bullets, the distance tests, spawn positions, new enemies and new shots.
- `Combat` defines each list pass as a function on sequences: flight, homing, the bullet pass and the turret pass. The lemmas about them live here too.
- `Step` defines one frame of `update` as a function `Tick` on a value `RunState`, which holds every field the scene changes. It proves the run invariant once, on values.
- `Scene` defines the class `GameScene`. Its fields are the scene's own fields. Its methods change them step by step, with loops wherever the source uses `filter` or `forEach`. Each method is proved to change its fields exactly as the matching `Step` or `Combat` function says.

`update` is proved to be `Tick` on the scene's fields. Through `Step.TickKeepsInvariant`, every frame therefore keeps the invariant and never lowers the score. The invariant says:

- killed + live enemies ≤ spawned;
- spawned + spawn callbacks still owed ≤ total;
- every live enemy has its kind's stats and health in 1..maxHealth;
- a running game has health left;
- an active wave has not yet been paid.

Phaser's timers and tween completions become explicit continuation methods. Each can be called only while its timer is pending:

- `BeginFirstWave`: the first wave starts one second after `create`;
- `SpawnTick`: one callback of the spawn timer;
- `ExpireInvulnerability`: the end of the 1500 ms window;
- `AdvanceWave`: the end of the bonus display;
- `Restart`: the scene restart.

The clock (`now`), the trigger state (`firing`), the aim direction, the homing step and the random draws are parameters.

Distances use squared Euclidean distance on reals. The source tests `sqrt(dx² + dy²) < r` for a positive `r`, and comparing squares is the same test.

The model keeps these behaviours of the code:

- **A bullet damages every enemy in range.** The inner `filter` of the bullet pass (src/components/game/GameScene.ts:556-590) has no early exit, so one bullet damages every enemy within 20 units (`Combat.StrikeAll`, `Combat.StrikeWoundsInReach`).
- **The bonus continuation does not check game over.** The continuation that ends the bonus display (src/components/game/GameScene.ts:760-765) starts the next wave without looking at the game-over flag, and `gameOver` does not cancel it. `AdvanceWave` can therefore start a wave after the run has ended. Its spawn callbacks then do nothing, because `spawnEnemy` checks the flag.

- **Health can go below zero.** A fatal hit does not make the turret invulnerable, so further arrivals in the same pass hit again (`Combat.TurretDamage`).
- **Survivors overwrite the game-over list.** `gameOver` empties the enemy list, but the turret pass then stores its survivors over it (`Step.ArrivalsResolved`, `Combat.FarEnemySurvivesGameOver`).
- **The wave can close in the same frame that ends the run.** `update` reads the game-over flag only on entry (`Step.Tick`).

## Model

| member | source | states |
|---|---|---|
| Rules.KindFor | src/components/game/GameScene.ts:345-355 | the kind for each wave tier and draw range: wave 1 is always basic; elite needs wave ≥ 5 and draw < 0.1; tank needs wave ≥ 3 and draw in [0.1, 0.25) from wave 5 on, or draw < 0.25 in waves 3-4; fast needs wave ≥ 2 and draw in [0.25, 0.4), or draw < 0.4 in wave 2; a draw ≥ 0.4 is always basic |
| Rules.MaxHealthOf | src/components/game/GameScene.ts:374-375 | hits are between 1 and 4, and above 1 exactly for tank and elite |
| Rules.SpeedOf | src/components/game/GameScene.ts:376 | speed lies in [0.8, 2.5] and is 2.5 exactly for fast enemies |
| Rules.PointsOf | src/components/game/GameScene.ts:378 | a reward lies in [100, 500]; it is 500 exactly for elite and 100 exactly for basic |
| Rules.WaveSize | src/components/game/GameScene.ts:311 | a wave of number ≥ 1 has at least 8 enemies, and every wave size is 2 more than a multiple of 3 |
| Rules.SpawnInterval | src/components/game/GameScene.ts:331-335 | the spawn delay is never below 500 ms, never above 2000 ms for a non-negative wave, and exactly 500 ms from wave 15 on |
| Rules.LaterWavesAreHarder | src/components/game/GameScene.ts:311-332 | a later wave is at least as large and is spawned at least as fast; each wave has exactly 3 more enemies than the one before |
| Entities.SpawnPoint | src/components/game/GameScene.ts:357-366 | a spawn position lies exactly 30 units outside one edge of the viewport, and its other coordinate is the random `along` |
| Entities.NewEnemy | src/components/game/GameScene.ts:372-379 | a new enemy has its kind's stats, is well formed, and has health equal to maxHealth |
| Entities.Shot | src/components/game/GameScene.ts:423-443 | a bullet leaves the muzzle on the line of its own velocity: offset = velocity × 55/12 |
| Combat.Flight | src/components/game/GameScene.ts:502-523 | the flight step never adds bullets, and every bullet it keeps is within the 20-unit margin |
| Combat.FlightKeepsExactlyOnScreen | src/components/game/GameScene.ts:505-522 | over all inputs, the bullets kept are exactly those still within the 20-unit margin once moved, each moved by its own velocity, in their original order (a bullet is kept if and only if it stays on screen) |
| Combat.FlightKeepsOnScreen | src/components/game/GameScene.ts:505-522 | when every moved bullet stays on screen, each bullet is kept in place, moved by exactly its velocity |
| Combat.Homing | src/components/game/GameScene.ts:525-545 | homing keeps every enemy in its place and changes nothing but its position, so well-formed enemies stay well formed |
| Combat.StrikeAll | src/components/game/GameScene.ts:556-590 | one bullet's pass removes exactly as many enemies as it kills |
| Combat.StrikeHitIffInRange | src/components/game/GameScene.ts:564-566 | the bullet is spent if and only if some enemy lies within 20 units of it |
| Combat.StrikeKeepsLive | src/components/game/GameScene.ts:564-577 | survivors stay well formed (no survivor is left at zero health), and the points earned lie between 100 and 500 per kill |
| Combat.StrikePaysFallen | src/components/game/GameScene.ts:571-577 | each kill pays that enemy's own points: the score of one bullet is the sum of the points of the in-range enemies on their last hit, and the kills are their number |
| Combat.StrikePaysRemoved | src/components/game/GameScene.ts:571-577 | the score of one bullet equals the points of the enemies that left the list, since a hit changes health and never points |
| Combat.StrikeRewards | src/components/game/GameScene.ts:564-577 | corollary of `StrikeKeepsLive`, `StrikePaysFallen` and `StrikePaysRemoved`, in the form the bullet pass uses: survivors stay well formed; each kill pays that enemy's own points, i.e. the score is the points of the in-range enemies on their last hit and equally the points that left the list; hence 100 to 500 per kill |
| Combat.StrikeWoundsInReach | src/components/game/GameScene.ts:564-587 | the in-range enemies among the survivors are exactly the in-range enemies before, in their order, each with one health less, without those the hit destroyed |
| Combat.StrikeTakesOneHealthPerEnemyInRange | src/components/game/GameScene.ts:564-565 | each in-range enemy loses exactly one health (its first clause is `StrikeWoundsInReach`, restated so that both facts sit together), and the health taken out of the list equals the number of enemies in range |
| Combat.StrikeMissing | src/components/game/GameScene.ts:556-590 | a bullet with no enemy in range leaves the list unchanged, survives, and scores nothing |
| Combat.Untouched | src/components/game/GameScene.ts:556-590 | helper used to state `StrikeKeepsUntouched`: the enemies of a list outside a bullet's hit radius, each a member of the list |
| Combat.StrikeKeepsUntouched | src/components/game/GameScene.ts:556-590 | enemies out of a bullet's range pass through unchanged and in the same order |
| Combat.StrikeDamagesEveryEnemyInRange | src/components/game/GameScene.ts:556-590 | when every enemy is in range and none is on its last hit, every one of them loses exactly one health and keeps its place |
| Combat.TankTakesThreeHits | src/components/game/GameScene.ts:564-578 | a tank survives two hits with health 2, then 1; the third hit removes it and pays 200 |
| Combat.BulletPass | src/components/game/GameScene.ts:553-597 | the whole pass removes exactly as many enemies as it kills, and never adds bullets |
| Combat.BulletPassKeepsMisses | src/components/game/GameScene.ts:553-597 | over all inputs, the bullets kept are exactly those that find no enemy within 20 units among the enemies the earlier bullets left, in their original order (a bullet is kept if and only if it misses) |
| Combat.BulletPassRewards | src/components/game/GameScene.ts:553-597 | after the whole pass the enemies stay well formed, and the score earned equals the points of the enemies the pass removed, between 100 and 500 per kill, so the score never goes down |
| Combat.BulletPassWithoutEnemies | src/components/game/GameScene.ts:553-597 | with no enemies every bullet survives and nothing is scored |
| Combat.TakeHit | src/components/game/GameScene.ts:708-735 | a hit costs exactly one health; the run is over exactly when health reaches zero or below; the turret turns invulnerable only on a hit it survives |
| Combat.TurretPass | src/components/game/GameScene.ts:600-622 | every enemy is either kept or counted as arrived; survivors come from the list and lie outside the 40-unit radius; health never rises; an invulnerable turret is untouched; a finished run stays finished; a running turret keeps health ≥ 1 |
| Combat.TurretPassKeepsOutside | src/components/game/GameScene.ts:600-622 | over all inputs, the survivors are exactly the enemies outside the 40-unit radius, unchanged and in their order, and the number counted as arrived is the number of the others |
| Combat.TurretDamage | src/components/game/GameScene.ts:613-617 | an invulnerable turret takes nothing; a turret with health to spare takes exactly one hit however many enemies arrive; a turret on its last health takes one hit per arrival, and is never made invulnerable |
| Combat.FarEnemySurvivesGameOver | src/components/game/GameScene.ts:600-622 | two arrivals on the last health leave health -1 and the run over, and the far enemy stays in the list |
| Step.WaveClosed | src/components/game/GameScene.ts:737-767 | a wave that is not cleared is left exactly as it was; a cleared wave ends inactive with the advance continuation armed and the score raised by wave × 500, and no other field changes; the result is never a cleared wave |
| Step.Tick | src/components/game/GameScene.ts:456-500 | a finished run does not change; otherwise the wave and its size are kept and the fire time moves to `now` exactly when a shot is fired |
| Step.MotionKeepsConsistent | src/components/game/GameScene.ts:482-491 | firing and moving keep `Consistent` (the invariant without its active-wave clause), the number of enemies, the score and the kill count |
| Step.BulletsResolvedKeepsConsistent | src/components/game/GameScene.ts:553-597 | the bullet pass keeps killed + live enemies fixed and keeps `Consistent` (the invariant without its active-wave clause, which a pass that kills the last enemy of an active wave breaks until `WaveClosed` runs); the score does not go down; with no enemies nothing is killed |
| Step.ArrivalsResolvedKeepsConsistent | src/components/game/GameScene.ts:600-622 | the turret pass keeps killed + live enemies fixed and keeps `Consistent` (the invariant without its active-wave clause), and leaves the score alone |
| Step.WaveClosedRestoresInvariant | src/components/game/GameScene.ts:496-499 | closing a cleared wave restores the full invariant and does not lower the score |
| Step.TickKeepsInvariant | src/components/game/GameScene.ts:456-500 | every frame keeps the run invariant, including killed ≤ spawned ≤ total, and never lowers the score |
| Step.WaveClosedOnce | src/components/game/GameScene.ts:737-742 | the bonus of a wave is paid once: closing a closed wave changes nothing |
| Scene.GameScene.constructor | src/components/game/GameScene.ts:21-47 | a new scene satisfies the invariant and starts with score 0, wave 1, health 3, empty lists and the first wave pending |
| Scene.GameScene.Create | src/components/game/GameScene.ts:96-124 | `create` resets score, wave, health, both lists and both flags, schedules the first wave, and leaves every other field as it was |
| Scene.GameScene.Restart | src/components/game/GameScene.ts:846-850 | a restart from game over cancels every pending timer, runs `create` again and restores the invariant |
| Scene.GameScene.StartWave | src/components/game/GameScene.ts:307-336 | the wave is active with 5 + 3·wave enemies, both counters are 0, and the spawn timer owes exactly that many callbacks at interval max(500, 2000 − 100·wave) |
| Scene.GameScene.BeginFirstWave | src/components/game/GameScene.ts:124 | the first-wave continuation starts the wave and keeps the invariant |
| Scene.GameScene.AdvanceWave | src/components/game/GameScene.ts:760-765 | the bonus continuation raises the wave by one, starts it and keeps the invariant |
| Scene.GameScene.SpawnEnemy | src/components/game/GameScene.ts:338-383 | nothing changes when the run is over; otherwise exactly one new enemy of the cascade's kind is appended and the spawn count rises by 1 |
| Scene.GameScene.SpawnTick | src/components/game/GameScene.ts:331-335 | one spawn callback uses up one owed callback, spawns as `spawnEnemy` does, and keeps the invariant |
| Scene.GameScene.Fire | src/components/game/GameScene.ts:414-443 | inside the 150 ms cooldown nothing changes; otherwise the fire time becomes `now` and exactly one shot is appended |
| Scene.GameScene.UpdateBullets | src/components/game/GameScene.ts:502-523 | the bullet list becomes its flight step, and nothing else changes |
| Scene.GameScene.UpdateEnemies | src/components/game/GameScene.ts:525-545 | the enemy list becomes its homing step, and nothing else changes |
| Scene.GameScene.AddScore | src/components/game/GameScene.ts:687-688 | the score grows by exactly the points given |
| Scene.GameScene.StrikeEnemies | src/components/game/GameScene.ts:556-590 | the enemy list, score and kill count become those of one bullet's pass, and the result says whether the bullet hit |
| Scene.GameScene.ResolveBullets | src/components/game/GameScene.ts:553-597 | both lists, the score and the kill count become those of the whole bullet pass |
| Scene.GameScene.GameOver | src/components/game/GameScene.ts:769-779 | the run ends, the spawn timer owes nothing and the enemy list is empty |
| Scene.GameScene.TakeDamage | src/components/game/GameScene.ts:708-735 | the vitals change as one hit says; a fatal hit also stops spawning and empties the list; a survived hit arms the invulnerability timer |
| Scene.GameScene.ExpireInvulnerability | src/components/game/GameScene.ts:732-734 | the window closes, the turret is hittable again and the invariant holds |
| Scene.GameScene.ResolveArrivals | src/components/game/GameScene.ts:600-622 | the enemy list, kill count, vitals and timers become those of the turret pass; the survivors replace the list that `gameOver` emptied |
| Scene.GameScene.CheckCollisions | src/components/game/GameScene.ts:547-623 | the run state becomes the bullet pass followed by the turret pass |
| Scene.GameScene.CompleteWave | src/components/game/GameScene.ts:737-767 | the wave closes, the score grows by wave × 500, and the advance continuation is armed without raising the wave |
| Scene.GameScene.Move | src/components/game/GameScene.ts:482-491 | the run state becomes the motion step: the gated shot, bullet flight, then homing |
| Scene.GameScene.Update | src/components/game/GameScene.ts:456-500 | the run state becomes one `Tick` of the old state, so the invariant is kept and the score never goes down |

## Left out

- Rendering and effects are not modelled: background, starfield, turret and enemy graphics, UI text, hearts, particles, popups, camera effects and tweens. None of them affects the run state.
- Turret rotation is left out. It uses atan2, angle normalisation and 0.15 smoothing. `fire` instead receives the unit direction `aim` as a parameter.
- Bullet direction uses cos and sin. It is the `aim` parameter of `Entities.Shot`.
- Enemy homing uses an angle and cos/sin. It is the `home` function parameter. `Combat.Homing` states only that it changes positions.
- The clock and the pointer are parameters of `Update`: `now`, `firing`, `aim` and `home`.
- `Math.random` and `Phaser.Math.Between` are the parameters `draw`, `side` and `along` of `SpawnEnemy`.
- Real time is left out. Timers and tween completions are continuation methods gated by pending flags and by the count of owed spawn callbacks. No delay elapses between calls.
- Floating-point numbers are reals, so rounding is not modelled. Integer fields (score, health, counters) are unbounded integers. JavaScript numbers do not wrap at these magnitudes.
- Scene.GameScene.StartWave: requires that no spawn callback is still owed. The source overwrites the old timer without stopping it. The invariant proves that no callback is owed at either call site, so the one-timer model loses nothing reachable.
- Pointer handlers and restart wiring are left out (src/components/game/GameScene.ts:293-305, 846). Restart is the `Restart` continuation.
- src/components/game/MenuScene.ts, src/components/game/BallisticGame.tsx, src/app/page.tsx and src/app/layout.tsx are not part of this model. They hold scene switching, React and Next.js glue, and markup.
