/** The run state of the scene as a value, and one frame of `update` as a function on it.
    The scene's methods are proved to change their fields exactly as these functions say;
    the invariant of the run is proved here, once, on values. */
module Step {
  import opened Rules
  import opened Entities
  import opened Combat

  /** Every field of the scene that changes after construction. */
  datatype RunState = RunState(
    bullets: seq<Bullet>,
    enemies: seq<Enemy>,
    score: int,
    wave: int,
    health: int,
    lastFireTime: real,
    isInvulnerable: bool,
    waveEnemiesSpawned: int,
    waveEnemiesKilled: int,
    totalWaveEnemies: int,
    isWaveActive: bool,
    isGameOver: bool,
    spawnDelay: int,
    spawnTicksLeft: int,
    firstWavePending: bool,
    invulnerabilityPending: bool,
    advancePending: bool)

  /** What holds after every step of a frame: the counters of the wave add up, live enemies
      are well formed, a running game has health left, and the pending continuations agree
      with the flags they will clear. */
  ghost predicate Consistent(s: RunState)
  {
    && s.wave >= 1
    && s.score >= 0
    && s.health <= StartingHealth
    && (!s.isGameOver ==> s.health >= 1)
    // every enemy of the wave is spawned at most once and removed at most once
    && 0 <= s.waveEnemiesKilled
    && s.waveEnemiesKilled + |s.enemies| <= s.waveEnemiesSpawned
    && 0 <= s.spawnTicksLeft
    && s.waveEnemiesSpawned + s.spawnTicksLeft <= s.totalWaveEnemies
    && AllWellFormed(s.enemies)
    && s.isInvulnerable == s.invulnerabilityPending
    && (s.firstWavePending ==> s.spawnTicksLeft == 0 && s.enemies == [])
    && (s.advancePending ==> s.spawnTicksLeft == 0 && s.enemies == [] && !s.isWaveActive)
    && !(s.firstWavePending && s.advancePending)
  }

  /** What holds between frames: in addition, an active wave is one whose bonus is unpaid. */
  ghost predicate Invariant(s: RunState)
  {
    && Consistent(s)
    && (s.isWaveActive ==> s.waveEnemiesKilled < s.totalWaveEnemies)
  }

  /* ---------------------------------------------------------------------------------------
     The steps of one frame
     --------------------------------------------------------------------------------------- */

  /** Whether a shot leaves the turret at time `now`: the trigger is held and the cooldown
      since the last shot has run out. */
  predicate Fires(s: RunState, now: real, firing: bool)
  {
    firing && now - s.lastFireTime >= FireRate
  }

  /** Fire, then move the bullets, then move the enemies. */
  function Motion(s: RunState, center: Point, width: real, height: real,
                  now: real, firing: bool, aim: Point, home: (Point, real) -> Point): RunState
  {
    var fired := Fires(s, now, firing);
    s.(lastFireTime := if fired then now else s.lastFireTime,
       bullets := Flight(s.bullets + (if fired then [Shot(center, aim)] else []), width, height),
       enemies := Homing(s.enemies, home))
  }

  /** The bullet pass: surviving bullets and enemies, with its points and kills booked. */
  function BulletsResolved(s: RunState): RunState
  {
    var v := BulletPass(s.bullets, s.enemies);
    s.(bullets := v.bullets, enemies := v.enemies,
       score := s.score + v.points, waveEnemiesKilled := s.waveEnemiesKilled + v.kills)
  }

  /** Whether the turret pass called `gameOver`: the turret was hit, and its health ended at
      zero or below. A fatal hit never makes the turret invulnerable, so further arrivals hit
      it again; a hit it survives makes it invulnerable, so no further hit follows. */
  predicate Fell(before: Vitals, after: Vitals)
  {
    after.health < before.health && after.health <= 0
  }

  /** The run state while the turret pass is under way, once `t` is what the pass has done so
      far: the arrivals are booked and their hits taken, and if one of them ended the run the
      spawn timer is gone and the enemy list is the empty one `gameOver` left. */
  function AfterHits(s: RunState, t: Arrival): RunState
  {
    var before := Vitals(s.health, s.isInvulnerable, s.isGameOver);
    var fell := Fell(before, t.vitals);
    s.(waveEnemiesKilled := s.waveEnemiesKilled + t.reached,
       health := t.vitals.health,
       isInvulnerable := t.vitals.invulnerable,
       isGameOver := t.vitals.over,
       invulnerabilityPending := s.invulnerabilityPending || (t.vitals.invulnerable && !s.isInvulnerable),
       spawnTicksLeft := if fell then 0 else s.spawnTicksLeft,
       enemies := if fell then [] else s.enemies)
  }

  /** The turret pass around `center`. The list it filters is the one it started from, so the
      enemy list it leaves is the pass's survivors even when a hit ended the run. */
  function ArrivalsResolved(s: RunState, center: Point): RunState
  {
    var t := TurretPass(center, s.enemies, Vitals(s.health, s.isInvulnerable, s.isGameOver));
    AfterHits(s, t).(enemies := t.survivors)
  }

  /** Whether the wave is over: it is active and every one of its enemies is resolved. */
  predicate Cleared(s: RunState)
  {
    s.isWaveActive && s.waveEnemiesKilled >= s.totalWaveEnemies
  }

  /** `completeWave` when the wave is cleared: the wave closes, pays `wave * 500` and arms the
      continuation that starts the next one. Otherwise nothing changes. */
  function WaveClosed(s: RunState): (r: RunState)
    ensures r.wave == s.wave
    ensures r.score == s.score + (if Cleared(s) then s.wave * WaveBonus else 0)
    ensures !Cleared(r)
    ensures Cleared(s) ==> !r.isWaveActive && r.advancePending
    ensures !Cleared(s) ==> r == s
    ensures Cleared(s) ==> r.(isWaveActive := true, score := s.score, advancePending := s.advancePending) == s
  {
    if Cleared(s) then s.(isWaveActive := false, score := s.score + s.wave * WaveBonus, advancePending := true)
    else s
  }

  /** `update`, one frame. A finished run does not change; otherwise the frame fires, moves,
      resolves the bullets and then the arrivals, and closes the wave if it is cleared. The
      game-over flag is read only at the start, so the wave can close in the frame that ends
      the run. */
  function Tick(s: RunState, center: Point, width: real, height: real,
                now: real, firing: bool, aim: Point, home: (Point, real) -> Point): (r: RunState)
    ensures s.isGameOver ==> r == s
    ensures !s.isGameOver ==> r.wave == s.wave && r.totalWaveEnemies == s.totalWaveEnemies
    ensures !s.isGameOver ==> r.lastFireTime == (if Fires(s, now, firing) then now else s.lastFireTime)
  {
    if s.isGameOver then s
    else WaveClosed(ArrivalsResolved(BulletsResolved(Motion(s, center, width, height, now, firing, aim, home)), center))
  }

  /* ---------------------------------------------------------------------------------------
     The invariant of the run
     --------------------------------------------------------------------------------------- */

  /** Moving keeps every enemy and only moves it. */
  lemma MotionKeepsConsistent(s: RunState, center: Point, width: real, height: real,
                              now: real, firing: bool, aim: Point, home: (Point, real) -> Point)
    requires Consistent(s)
    ensures var m := Motion(s, center, width, height, now, firing, aim, home);
      && Consistent(m)
      && |m.enemies| == |s.enemies|
      && m.score == s.score && m.waveEnemiesKilled == s.waveEnemiesKilled
  {
  }

  /** The bullet pass removes each enemy it kills exactly once, books one kill for it and
      pays for it, so the counters still add up and the score does not go down. */
  lemma BulletsResolvedKeepsConsistent(s: RunState)
    requires Consistent(s)
    ensures var b := BulletsResolved(s);
      && Consistent(b)
      && b.score >= s.score
      && b.waveEnemiesKilled + |b.enemies| == s.waveEnemiesKilled + |s.enemies|
      && (s.enemies == [] ==> b.waveEnemiesKilled == s.waveEnemiesKilled && b.enemies == [])
  {
    BulletPassRewards(s.bullets, s.enemies);
  }

  /** The turret pass removes each arriving enemy exactly once, and a turret that is still
      running has health left. */
  lemma ArrivalsResolvedKeepsConsistent(s: RunState, center: Point)
    requires Consistent(s)
    ensures var a := ArrivalsResolved(s, center);
      && Consistent(a)
      && a.score == s.score
      && a.waveEnemiesKilled + |a.enemies| == s.waveEnemiesKilled + |s.enemies|
      && (s.enemies == [] ==> a.waveEnemiesKilled == s.waveEnemiesKilled)
  {
    var t := TurretPass(center, s.enemies, Vitals(s.health, s.isInvulnerable, s.isGameOver));
    forall i | 0 <= i < |t.survivors|
      ensures WellFormed(t.survivors[i])
    {
      assert t.survivors[i] in s.enemies;
    }
  }

  /** Closing a cleared wave restores the invariant: a cleared wave has no enemy left and no
      spawn pending, so the continuation that starts the next wave may be armed. */
  lemma WaveClosedRestoresInvariant(s: RunState)
    requires Consistent(s)
    requires s.firstWavePending ==> !Cleared(s)
    ensures Invariant(WaveClosed(s))
    ensures WaveClosed(s).score >= s.score
  {
  }

  /** One frame keeps the invariant and never lowers the score. */
  lemma TickKeepsInvariant(s: RunState, center: Point, width: real, height: real,
                           now: real, firing: bool, aim: Point, home: (Point, real) -> Point)
    requires Invariant(s)
    ensures var r := Tick(s, center, width, height, now, firing, aim, home);
      Invariant(r) && r.score >= s.score
  {
    if !s.isGameOver {
      var m := Motion(s, center, width, height, now, firing, aim, home);
      MotionKeepsConsistent(s, center, width, height, now, firing, aim, home);
      var b := BulletsResolved(m);
      BulletsResolvedKeepsConsistent(m);
      var a := ArrivalsResolved(b, center);
      ArrivalsResolvedKeepsConsistent(b, center);
      WaveClosedRestoresInvariant(a);
    }
  }

  /** The bonus of a wave is paid once: closing a closed wave changes nothing. */
  lemma WaveClosedOnce(s: RunState)
    ensures WaveClosed(WaveClosed(s)) == WaveClosed(s)
  {
  }
}
