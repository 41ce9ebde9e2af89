/** The game scene: the run state of one defence session and the operations that change it.
    Phaser's timers and tween completions become explicit continuation methods, each callable
    only while its timer is pending; the clock, the pointer and the random draws become
    parameters. */
module Scene {
  import opened Rules
  import opened Entities
  import opened Combat
  import opened Step

  class GameScene {
    /** Size of the viewport; the turret sits at its centre. */
    const width: real
    const height: real

    var bullets: seq<Bullet>
    var enemies: seq<Enemy>

    var score: int
    var wave: int
    var health: int
    var lastFireTime: real
    var isInvulnerable: bool

    var waveEnemiesSpawned: int
    var waveEnemiesKilled: int
    var totalWaveEnemies: int
    var isWaveActive: bool
    var isGameOver: bool

    /** The wave's spawn timer: its delay and the callbacks it still owes. */
    var spawnDelay: int
    var spawnTicksLeft: int
    /** The other pending continuations: the first wave after the intro, the end of the
        invulnerability window, and the move to the next wave after the bonus display. */
    var firstWavePending: bool
    var invulnerabilityPending: bool
    var advancePending: bool

    function Center(): Point
    {
      Point(width / 2.0, height / 2.0)
    }

    /** The fields that change, as one value. */
    ghost function Snap(): RunState
      reads this
    {
      RunState(bullets, enemies, score, wave, health, lastFireTime, isInvulnerable,
               waveEnemiesSpawned, waveEnemiesKilled, totalWaveEnemies, isWaveActive, isGameOver,
               spawnDelay, spawnTicksLeft, firstWavePending, invulnerabilityPending, advancePending)
    }

    /** The invariant kept between frames and timer callbacks. */
    ghost predicate Valid()
      reads this
    {
      Invariant(Snap())
    }

    /** A new scene: the field initialisers, then `create`. */
    constructor (width: real, height: real)
      ensures Valid()
      ensures this.width == width && this.height == height
      ensures score == 0 && wave == 1 && health == StartingHealth
      ensures bullets == [] && enemies == []
      ensures !isGameOver && !isInvulnerable && !isWaveActive && lastFireTime == 0.0
      ensures waveEnemiesSpawned == 0 && waveEnemiesKilled == 0 && totalWaveEnemies == 0
      ensures firstWavePending && !advancePending && !invulnerabilityPending && spawnTicksLeft == 0
    {
      this.width := width;
      this.height := height;
      bullets, enemies := [], [];
      score, wave, health := 0, 1, StartingHealth;
      lastFireTime, isInvulnerable := 0.0, false;
      waveEnemiesSpawned, waveEnemiesKilled, totalWaveEnemies := 0, 0, 0;
      isWaveActive, isGameOver := false, false;
      spawnDelay, spawnTicksLeft := 0, 0;
      firstWavePending, invulnerabilityPending, advancePending := false, false, false;
      new;
      Create();
    }

    /** `create`: resets the run and schedules the first wave. It leaves the fire time, the
        wave flag and the wave counters as they were. */
    method Create()
      modifies this`score, this`wave, this`health, this`bullets, this`enemies
      modifies this`isGameOver, this`isInvulnerable, this`firstWavePending
      ensures score == 0 && wave == 1 && health == StartingHealth
      ensures bullets == [] && enemies == []
      ensures !isGameOver && !isInvulnerable && firstWavePending
    {
      score := 0;
      wave := 1;
      health := StartingHealth;
      bullets := [];
      enemies := [];
      isGameOver := false;
      isInvulnerable := false;
      firstWavePending := true;
    }

    /** The restart continuation, armed by `gameOver`. Restarting the scene discards every
        pending timer and tween, then runs `create` again on the same object. */
    method Restart()
      requires Valid() && isGameOver
      modifies this`score, this`wave, this`health, this`bullets, this`enemies
      modifies this`isGameOver, this`isInvulnerable
      modifies this`spawnTicksLeft, this`firstWavePending, this`invulnerabilityPending, this`advancePending
      ensures Valid()
      ensures score == 0 && wave == 1 && health == StartingHealth
      ensures bullets == [] && enemies == []
      ensures !isGameOver && !isInvulnerable
      ensures firstWavePending && !advancePending && !invulnerabilityPending && spawnTicksLeft == 0
    {
      spawnTicksLeft := 0;
      firstWavePending, invulnerabilityPending, advancePending := false, false, false;
      Create();
    }

    /** `startWave`: sizes the wave and starts its spawn timer. The timer is created with
        `repeat: total - 1`, so it calls back `total` times. No earlier spawn timer is still
        running when a wave starts (the callers' invariant shows it), so one slot suffices. */
    method StartWave()
      requires spawnTicksLeft == 0
      modifies this`isWaveActive, this`waveEnemiesSpawned, this`waveEnemiesKilled, this`totalWaveEnemies
      modifies this`spawnDelay, this`spawnTicksLeft
      ensures isWaveActive && waveEnemiesSpawned == 0 && waveEnemiesKilled == 0
      ensures totalWaveEnemies == WaveSize(wave)
      ensures spawnTicksLeft == totalWaveEnemies
      ensures spawnDelay == SpawnInterval(wave)
    {
      isWaveActive := true;
      waveEnemiesSpawned := 0;
      waveEnemiesKilled := 0;
      totalWaveEnemies := WaveSize(wave);
      spawnDelay := SpawnInterval(wave);
      var repeat := totalWaveEnemies - 1;
      spawnTicksLeft := repeat + 1;
    }

    /** The continuation one second after `create`: the first wave starts. */
    method BeginFirstWave()
      requires Valid() && firstWavePending
      modifies this`firstWavePending
      modifies this`isWaveActive, this`waveEnemiesSpawned, this`waveEnemiesKilled, this`totalWaveEnemies
      modifies this`spawnDelay, this`spawnTicksLeft
      ensures Valid() && !firstWavePending
      ensures isWaveActive && waveEnemiesSpawned == 0 && waveEnemiesKilled == 0
      ensures totalWaveEnemies == WaveSize(wave) && spawnTicksLeft == totalWaveEnemies
      ensures spawnDelay == SpawnInterval(wave)
    {
      firstWavePending := false;
      StartWave();
    }

    /** The continuation at the end of the bonus display: the next wave starts. */
    method AdvanceWave()
      requires Valid() && advancePending
      modifies this`advancePending, this`wave
      modifies this`isWaveActive, this`waveEnemiesSpawned, this`waveEnemiesKilled, this`totalWaveEnemies
      modifies this`spawnDelay, this`spawnTicksLeft
      ensures Valid() && !advancePending
      ensures wave == old(wave) + 1
      ensures isWaveActive && waveEnemiesSpawned == 0 && waveEnemiesKilled == 0
      ensures totalWaveEnemies == WaveSize(wave) && spawnTicksLeft == totalWaveEnemies
      ensures spawnDelay == SpawnInterval(wave)
    {
      advancePending := false;
      wave := wave + 1;
      StartWave();
    }

    /** `spawnEnemy`: unless the run is over, one enemy of the kind chosen by `draw` appears
        at the edge point chosen by `side` and `along`, at full health. */
    method SpawnEnemy(draw: real, side: int, along: real)
      modifies this`enemies, this`waveEnemiesSpawned
      ensures isGameOver ==> enemies == old(enemies) && waveEnemiesSpawned == old(waveEnemiesSpawned)
      ensures !isGameOver ==>
        && enemies == old(enemies) + [NewEnemy(KindFor(wave, draw), SpawnPoint(side, along, width, height))]
        && waveEnemiesSpawned == old(waveEnemiesSpawned) + 1
    {
      if isGameOver {
        return;
      }
      var kind := KindFor(wave, draw);
      var pos := SpawnPoint(side, along, width, height);
      enemies := enemies + [NewEnemy(kind, pos)];
      waveEnemiesSpawned := waveEnemiesSpawned + 1;
    }

    /** One callback of the spawn timer. */
    method SpawnTick(draw: real, side: int, along: real)
      requires Valid() && spawnTicksLeft > 0
      modifies this`spawnTicksLeft, this`enemies, this`waveEnemiesSpawned
      ensures Valid()
      ensures spawnTicksLeft == old(spawnTicksLeft) - 1
      ensures isGameOver ==> enemies == old(enemies) && waveEnemiesSpawned == old(waveEnemiesSpawned)
      ensures !isGameOver ==>
        && enemies == old(enemies) + [NewEnemy(KindFor(wave, draw), SpawnPoint(side, along, width, height))]
        && waveEnemiesSpawned == old(waveEnemiesSpawned) + 1
    {
      spawnTicksLeft := spawnTicksLeft - 1;
      SpawnEnemy(draw, side, along);
    }

    /** `fire`: at most one shot per cooldown period, along the unit direction `aim` the
        turret points in at time `now`. */
    method Fire(now: real, aim: Point)
      modifies this`lastFireTime, this`bullets
      ensures Snap() == if now - old(lastFireTime) < FireRate then old(Snap())
                        else old(Snap()).(lastFireTime := now, bullets := old(bullets) + [Shot(Center(), aim)])
    {
      if now - lastFireTime < FireRate {
        return;
      }
      lastFireTime := now;
      bullets := bullets + [Shot(Center(), aim)];
    }

    /** `updateBullets`: every bullet moves by its velocity and those now off screen go. */
    method UpdateBullets()
      modifies this`bullets
      ensures Snap() == old(Snap()).(bullets := Flight(old(bullets), width, height))
    {
      var bs := bullets;
      var kept: seq<Bullet> := [];
      var i := 0;
      while i < |bs|
        invariant 0 <= i <= |bs|
        invariant kept == Flight(bs[..i], width, height)
      {
        var b := Moved(bs[i]);
        if !OffScreen(b.pos, width, height) {
          kept := kept + [b];
        }
        assert bs[..i + 1][..i] == bs[..i];
        i := i + 1;
      }
      assert bs[..|bs|] == bs;
      bullets := kept;
    }

    /** `updateEnemies`: every enemy takes one homing step. */
    method UpdateEnemies(home: (Point, real) -> Point)
      modifies this`enemies
      ensures Snap() == old(Snap()).(enemies := Homing(old(enemies), home))
    {
      var es := enemies;
      var moved: seq<Enemy> := [];
      var i := 0;
      while i < |es|
        invariant 0 <= i <= |es|
        invariant moved == Homing(es[..i], home)
      {
        var e := es[i];
        moved := moved + [e.(pos := home(e.pos, e.speed))];
        assert es[..i + 1][..i] == es[..i];
        i := i + 1;
      }
      assert es[..|es|] == es;
      enemies := moved;
    }

    /** `addScore`. */
    method AddScore(points: int)
      modifies this`score
      ensures score == old(score) + points
    {
      score := score + points;
    }

    /** The inner `filter` of the bullet pass for bullet `b`; returns whether `b` hit. */
    method StrikeEnemies(b: Bullet) returns (hit: bool)
      modifies this`enemies, this`score, this`waveEnemiesKilled
      ensures var s := StrikeAll(b, old(enemies));
        && enemies == s.survivors && hit == s.hit
        && score == old(score) + s.points
        && waveEnemiesKilled == old(waveEnemiesKilled) + s.kills
    {
      var es := enemies;
      var kept: seq<Enemy> := [];
      hit := false;
      var i := 0;
      while i < |es|
        invariant 0 <= i <= |es|
        invariant var s := StrikeAll(b, es[..i]);
          && kept == s.survivors && hit == s.hit
          && score == old(score) + s.points
          && waveEnemiesKilled == old(waveEnemiesKilled) + s.kills
      {
        var e := es[i];
        if Within(b.pos, e.pos, HitRadius) {
          e := e.(health := e.health - 1);
          hit := true;
          if e.health <= 0 {
            AddScore(e.points);
            waveEnemiesKilled := waveEnemiesKilled + 1;
          } else {
            kept := kept + [e];
          }
        } else {
          kept := kept + [e];
        }
        assert es[..i + 1][..i] == es[..i];
        i := i + 1;
      }
      assert es[..|es|] == es;
      enemies := kept;
    }

    /** The bullet-versus-enemy pass: a bullet that hit something is dropped. */
    method ResolveBullets()
      modifies this`bullets, this`enemies, this`score, this`waveEnemiesKilled
      ensures var v := BulletPass(old(bullets), old(enemies));
        && bullets == v.bullets && enemies == v.enemies
        && score == old(score) + v.points && waveEnemiesKilled == old(waveEnemiesKilled) + v.kills
    {
      var bs := bullets;
      ghost var es := enemies;
      var kept: seq<Bullet> := [];
      var j := 0;
      ghost var v := Volley([], es, 0, 0);
      while j < |bs|
        invariant 0 <= j <= |bs|
        invariant v == BulletPass(bs[..j], es)
        invariant kept == v.bullets && enemies == v.enemies
        invariant score == old(score) + v.points
        invariant waveEnemiesKilled == old(waveEnemiesKilled) + v.kills
      {
        ghost var s := StrikeAll(bs[j], enemies);
        var hit := StrikeEnemies(bs[j]);
        if !hit {
          kept := kept + [bs[j]];
        }
        BulletPassStep(bs, j, es, v, s);
        v := Volley(v.bullets + (if s.hit then [] else [bs[j]]), s.survivors, v.points + s.points, v.kills + s.kills);
        j := j + 1;
      }
      assert bs[..|bs|] == bs;
      bullets := kept;
    }

    /** `gameOver`, its effect on the run state: the run ends, the spawn timer is destroyed
        and the enemy list is emptied. */
    method GameOver()
      modifies this`isGameOver, this`spawnTicksLeft, this`enemies
      ensures isGameOver && spawnTicksLeft == 0 && enemies == []
    {
      isGameOver := true;
      spawnTicksLeft := 0;
      enemies := [];
    }

    /** `takeDamage`: one health lost; at zero or below the run ends (and the turret is not
        made invulnerable), otherwise the invulnerability window opens. */
    method TakeDamage()
      modifies this`health, this`isInvulnerable, this`invulnerabilityPending
      modifies this`isGameOver, this`spawnTicksLeft, this`enemies
      ensures Vitals(health, isInvulnerable, isGameOver) == TakeHit(Vitals(old(health), old(isInvulnerable), old(isGameOver)))
      ensures health <= 0 ==> spawnTicksLeft == 0 && enemies == [] && invulnerabilityPending == old(invulnerabilityPending)
      ensures health > 0 ==> invulnerabilityPending && spawnTicksLeft == old(spawnTicksLeft) && enemies == old(enemies)
    {
      health := health - 1;
      if health <= 0 {
        GameOver();
        return;
      }
      isInvulnerable := true;
      invulnerabilityPending := true;
    }

    /** The continuation at the end of the invulnerability window. */
    method ExpireInvulnerability()
      requires Valid() && invulnerabilityPending
      modifies this`isInvulnerable, this`invulnerabilityPending
      ensures Valid() && !isInvulnerable && !invulnerabilityPending
    {
      isInvulnerable := false;
      invulnerabilityPending := false;
    }

    /** The enemy-versus-turret pass. The list it filters is the one it started from, and its
        result is stored at the end, so when a hit ends the run midway the survivors replace
        the empty list that `gameOver` left. */
    method ResolveArrivals()
      modifies this`enemies, this`waveEnemiesKilled, this`health, this`isInvulnerable
      modifies this`invulnerabilityPending, this`isGameOver, this`spawnTicksLeft
      ensures var r := ArrivalsResolved(old(Snap()), Center());
        && enemies == r.enemies && waveEnemiesKilled == r.waveEnemiesKilled
        && health == r.health && isInvulnerable == r.isInvulnerable && isGameOver == r.isGameOver
        && invulnerabilityPending == r.invulnerabilityPending && spawnTicksLeft == r.spawnTicksLeft
    {
      var es := enemies;
      var kept: seq<Enemy> := [];
      var i := 0;
      ghost var before := Vitals(health, isInvulnerable, isGameOver);
      while i < |es|
        invariant 0 <= i <= |es|
        invariant var t := TurretPass(Center(), es[..i], before);
          && kept == t.survivors
          && waveEnemiesKilled == old(waveEnemiesKilled) + t.reached
          && Vitals(health, isInvulnerable, isGameOver) == t.vitals
        invariant health <= old(health)
        invariant invulnerabilityPending == (old(invulnerabilityPending) || (isInvulnerable && !old(isInvulnerable)))
        invariant spawnTicksLeft == if Fell(before, Vitals(health, isInvulnerable, isGameOver)) then 0 else old(spawnTicksLeft)
      {
        var e := es[i];
        if Within(e.pos, Center(), TurretRadius) {
          waveEnemiesKilled := waveEnemiesKilled + 1;
          if !isInvulnerable {
            TakeDamage();
          }
        } else {
          kept := kept + [e];
        }
        assert es[..i + 1][..i] == es[..i];
        i := i + 1;
      }
      assert es[..|es|] == es;
      enemies := kept;
    }

    /** `checkCollisions`: the bullet pass, then the turret pass on what it left. */
    method CheckCollisions()
      modifies this`bullets, this`enemies, this`score, this`waveEnemiesKilled, this`health
      modifies this`isInvulnerable, this`invulnerabilityPending, this`isGameOver, this`spawnTicksLeft
      ensures Snap() == ArrivalsResolved(BulletsResolved(old(Snap())), Center())
    {
      ghost var s0 := Snap();
      ResolveBullets();
      ghost var s1 := Snap();
      assert s1 == BulletsResolved(s0);
      ResolveArrivals();
      assert Snap() == ArrivalsResolved(s1, Center());
    }

    /** `completeWave`: the wave closes and pays its bonus; the next wave starts only in the
        later continuation. */
    method CompleteWave()
      modifies this`isWaveActive, this`score, this`advancePending
      ensures !isWaveActive && advancePending
      ensures score == old(score) + wave * WaveBonus
    {
      isWaveActive := false;
      var bonus := wave * WaveBonus;
      score := score + bonus;
      advancePending := true;
    }

    /** The motion half of `update`: fire when the trigger is held, then move the bullets
        and the enemies. */
    method Move(now: real, firing: bool, aim: Point, home: (Point, real) -> Point)
      modifies this`lastFireTime, this`bullets, this`enemies
      ensures Snap() == Motion(old(Snap()), Center(), width, height, now, firing, aim, home)
    {
      ghost var fired := Fires(Snap(), now, firing);
      if firing {
        Fire(now, aim);
      }
      assert bullets == old(bullets) + (if fired then [Shot(Center(), aim)] else []);
      UpdateBullets();
      UpdateEnemies(home);
    }

    /** `update`, one frame: nothing while the run is over; otherwise fire (when the trigger is
        held), move the bullets, move the enemies, resolve collisions, and close the wave once
        all its enemies are resolved. */
    method Update(now: real, firing: bool, aim: Point, home: (Point, real) -> Point)
      requires Valid()
      modifies this`lastFireTime, this`bullets, this`enemies, this`score, this`waveEnemiesKilled
      modifies this`health, this`isInvulnerable, this`invulnerabilityPending, this`isGameOver
      modifies this`spawnTicksLeft, this`isWaveActive, this`advancePending
      ensures Snap() == Tick(old(Snap()), Center(), width, height, now, firing, aim, home)
      ensures Valid()
      ensures score >= old(score)
    {
      TickKeepsInvariant(Snap(), Center(), width, height, now, firing, aim, home);
      if isGameOver {
        return;
      }
      Move(now, firing, aim, home);
      CheckCollisions();
      if isWaveActive && waveEnemiesKilled >= totalWaveEnemies {
        CompleteWave();
      }
    }
  }
}
