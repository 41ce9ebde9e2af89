/** What one tick of combat does to the lists of bullets and enemies, written as functions.
    Each pass walks its list from the first element to the last, as the source's `filter`
    callbacks do, so each is defined on a prefix and its last element; the scene's loops
    keep "what has been done so far" equal to the function of the prefix they have seen. */
module Combat {
  import opened Rules
  import opened Entities

  /* ---------------------------------------------------------------------------------------
     Selections: which elements of a list a pass keeps
     --------------------------------------------------------------------------------------- */

  /** The indices below `n` at which `keep` holds, in increasing order. */
  function Marked(keep: seq<bool>, n: nat): (r: seq<nat>)
    requires n <= |keep|
    ensures forall k :: 0 <= k < |r| ==> r[k] < n
    ensures forall k, l :: 0 <= k < l < |r| ==> r[k] < r[l]
    ensures forall j :: 0 <= j < n ==> (keep[j] <==> j in r)
    decreases n
  {
    if n == 0 then [] else Marked(keep, n - 1) + (if keep[n - 1] then [n - 1] else [])
  }

  /** The elements of `xs` at the indices `idx`, in the order of `idx`. */
  function Pick<T>(xs: seq<T>, idx: seq<nat>): (r: seq<T>)
    requires forall k :: 0 <= k < |idx| ==> idx[k] < |xs|
    ensures |r| == |idx|
  {
    seq(|idx|, k requires 0 <= k < |idx| => xs[idx[k]])
  }

  /** Taking one more index into account appends its element when it is marked. */
  lemma MarkedSnoc<T>(xs: seq<T>, keep: seq<bool>, n: nat)
    requires 0 < n <= |keep| == |xs|
    ensures Pick(xs, Marked(keep, n)) == Pick(xs, Marked(keep, n - 1)) + (if keep[n - 1] then [xs[n - 1]] else [])
  {
  }

  /* ---------------------------------------------------------------------------------------
     Bullets in flight
     --------------------------------------------------------------------------------------- */

  /** The bullets after one tick of flight, without those that left the viewport. */
  function Flight(bs: seq<Bullet>, width: real, height: real): (r: seq<Bullet>)
    ensures |r| <= |bs|
    ensures forall i :: 0 <= i < |r| ==> !OffScreen(r[i].pos, width, height)
    decreases |bs|
  {
    if bs == [] then []
    else
      var r0 := Flight(bs[..|bs| - 1], width, height);
      var m := Moved(bs[|bs| - 1]);
      if OffScreen(m.pos, width, height) then r0 else r0 + [m]
  }

  /** A bullet that stays on screen survives the flight step, moved by its velocity. */
  lemma {:induction false} FlightKeepsOnScreen(bs: seq<Bullet>, width: real, height: real)
    requires forall i :: 0 <= i < |bs| ==> !OffScreen(Moved(bs[i]).pos, width, height)
    ensures |Flight(bs, width, height)| == |bs|
    ensures forall i :: 0 <= i < |bs| ==> Flight(bs, width, height)[i] == Moved(bs[i])
    decreases |bs|
  {
    if bs != [] {
      FlightKeepsOnScreen(bs[..|bs| - 1], width, height);
    }
  }

  /** For each bullet, whether it is still on screen once it has moved. */
  function OnScreenAfterMove(bs: seq<Bullet>, width: real, height: real): seq<bool>
  {
    seq(|bs|, i requires 0 <= i < |bs| => !OffScreen(Moved(bs[i]).pos, width, height))
  }

  /** The flight step keeps exactly the bullets that are still on screen once moved, each
      moved by its velocity, in their original order. */
  lemma FlightKeepsExactlyOnScreen(bs: seq<Bullet>, width: real, height: real)
    ensures var kept := Marked(OnScreenAfterMove(bs, width, height), |bs|);
            Flight(bs, width, height) == seq(|kept|, k requires 0 <= k < |kept| => Moved(bs[kept[k]]))
  {
    FlightPrefix(bs, width, height, |bs|);
    assert bs[..|bs|] == bs;
  }

  /** `FlightKeepsExactlyOnScreen` for the first `n` bullets. */
  lemma {:induction false} FlightPrefix(bs: seq<Bullet>, width: real, height: real, n: nat)
    requires n <= |bs|
    ensures var kept := Marked(OnScreenAfterMove(bs, width, height), n);
            Flight(bs[..n], width, height) == seq(|kept|, k requires 0 <= k < |kept| => Moved(bs[kept[k]]))
    decreases n
  {
    if n > 0 {
      FlightPrefix(bs, width, height, n - 1);
      assert bs[..n][..n - 1] == bs[..n - 1];
    }
  }

  /* ---------------------------------------------------------------------------------------
     Enemies homing in
     --------------------------------------------------------------------------------------- */

  /** Every enemy after one homing step; `home` gives the new position from the old one and
      the enemy's speed. Nothing but the position changes. */
  function Homing(es: seq<Enemy>, home: (Point, real) -> Point): (r: seq<Enemy>)
    ensures |r| == |es|
    ensures forall i :: 0 <= i < |r| ==> r[i].(pos := es[i].pos) == es[i]
    ensures AllWellFormed(es) ==> AllWellFormed(r)
    decreases |es|
  {
    if es == [] then []
    else
      var e := es[|es| - 1];
      Homing(es[..|es| - 1], home) + [e.(pos := home(e.pos, e.speed))]
  }

  /* ---------------------------------------------------------------------------------------
     One bullet against the enemies
     --------------------------------------------------------------------------------------- */

  /** What one bullet does to the enemies: the enemies left, whether the bullet touched any,
      and the score and kills it produced. */
  datatype Strike = Strike(survivors: seq<Enemy>, hit: bool, points: int, kills: nat)

  /** The inner pass for bullet `b`. Every enemy within the hit radius loses one health;
      one whose health drops to zero or below is removed and pays its points. The pass does
      not stop at the first hit, so one bullet damages every enemy in range. */
  function StrikeAll(b: Bullet, es: seq<Enemy>): (r: Strike)
    ensures |r.survivors| + r.kills == |es|
    decreases |es|
  {
    if es == [] then Strike([], false, 0, 0)
    else
      var r0 := StrikeAll(b, es[..|es| - 1]);
      var e := es[|es| - 1];
      if !Within(b.pos, e.pos, HitRadius) then
        r0.(survivors := r0.survivors + [e])
      else if e.health - 1 <= 0 then
        Strike(r0.survivors, true, r0.points + e.points, r0.kills + 1)
      else
        Strike(r0.survivors + [e.(health := e.health - 1)], true, r0.points, r0.kills)
  }

  /** Number of enemies of `es` within the hit radius of `b`. */
  function InRange(b: Bullet, es: seq<Enemy>): nat
    decreases |es|
  {
    if es == [] then 0
    else InRange(b, es[..|es| - 1]) + (if Within(b.pos, es[|es| - 1].pos, HitRadius) then 1 else 0)
  }

  /** The bullet is spent exactly when some enemy is within its hit radius. */
  lemma {:induction false} StrikeHitIffInRange(b: Bullet, es: seq<Enemy>)
    ensures StrikeAll(b, es).hit <==> exists i :: 0 <= i < |es| && Within(b.pos, es[i].pos, HitRadius)
    decreases |es|
  {
    if es != [] {
      var p := es[..|es| - 1];
      StrikeHitIffInRange(b, p);
      assert forall i :: 0 <= i < |p| ==> p[i] == es[i];
    }
  }

  /** Sum of the health of `es`. */
  function TotalHealth(es: seq<Enemy>): int
    decreases |es|
  {
    if es == [] then 0 else TotalHealth(es[..|es| - 1]) + es[|es| - 1].health
  }

  /** Sum of the points of `es`. */
  function TotalPoints(es: seq<Enemy>): int
    decreases |es|
  {
    if es == [] then 0 else TotalPoints(es[..|es| - 1]) + es[|es| - 1].points
  }

  /** Each enemy of `es` after one more hit, without those the hit destroys, in their order. */
  function Wounded(es: seq<Enemy>): (r: seq<Enemy>)
    ensures |r| <= |es|
    decreases |es|
  {
    if es == [] then []
    else
      var e := es[|es| - 1];
      Wounded(es[..|es| - 1]) + (if e.health - 1 <= 0 then [] else [e.(health := e.health - 1)])
  }

  /** The enemies of `es` that one more hit destroys, in their order. */
  function Fallen(es: seq<Enemy>): (r: seq<Enemy>)
    ensures |r| <= |es|
    decreases |es|
  {
    if es == [] then []
    else
      var r0 := Fallen(es[..|es| - 1]);
      var e := es[|es| - 1];
      if e.health - 1 <= 0 then r0 + [e] else r0
  }

  /** The enemies of `es` within the hit radius of `b`, in their order. */
  function InReach(b: Bullet, es: seq<Enemy>): (r: seq<Enemy>)
    ensures |r| <= |es|
    decreases |es|
  {
    if es == [] then []
    else
      var r0 := InReach(b, es[..|es| - 1]);
      var e := es[|es| - 1];
      if Within(b.pos, e.pos, HitRadius) then r0 + [e] else r0
  }

  lemma TotalHealthSnoc(es: seq<Enemy>, e: Enemy)
    ensures TotalHealth(es + [e]) == TotalHealth(es) + e.health
  {
    assert (es + [e])[..|es|] == es;
  }

  lemma TotalPointsSnoc(es: seq<Enemy>, e: Enemy)
    ensures TotalPoints(es + [e]) == TotalPoints(es) + e.points
  {
    assert (es + [e])[..|es|] == es;
  }

  lemma WoundedSnoc(es: seq<Enemy>, e: Enemy)
    ensures Wounded(es + [e]) == Wounded(es) + (if e.health - 1 <= 0 then [] else [e.(health := e.health - 1)])
  {
    assert (es + [e])[..|es|] == es;
  }

  lemma FallenSnoc(es: seq<Enemy>, e: Enemy)
    ensures Fallen(es + [e]) == Fallen(es) + (if e.health - 1 <= 0 then [e] else [])
  {
    assert (es + [e])[..|es|] == es;
  }

  lemma InReachSnoc(b: Bullet, es: seq<Enemy>, e: Enemy)
    ensures InReach(b, es + [e]) == InReach(b, es) + (if Within(b.pos, e.pos, HitRadius) then [e] else [])
  {
    assert (es + [e])[..|es|] == es;
  }

  /** Each kill pays that enemy's own points: the score and the kills of one bullet are those
      of the in-range enemies on their last hit. */
  lemma {:induction false} StrikePaysFallen(b: Bullet, es: seq<Enemy>)
    ensures StrikeAll(b, es).points == TotalPoints(Fallen(InReach(b, es)))
    ensures StrikeAll(b, es).kills == |Fallen(InReach(b, es))|
    decreases |es|
  {
    if es != [] {
      var p := es[..|es| - 1];
      var e := es[|es| - 1];
      StrikePaysFallen(b, p);
      var x := InReach(b, p);
      if Within(b.pos, e.pos, HitRadius) {
        FallenSnoc(x, e);
        if e.health - 1 <= 0 {
          TotalPointsSnoc(Fallen(x), e);
        }
      }
    }
  }

  /** Each kill pays the points that leave the list: a hit changes only health, never points. */
  lemma {:induction false} StrikePaysRemoved(b: Bullet, es: seq<Enemy>)
    ensures StrikeAll(b, es).points == TotalPoints(es) - TotalPoints(StrikeAll(b, es).survivors)
    decreases |es|
  {
    if es != [] {
      var p := es[..|es| - 1];
      var e := es[|es| - 1];
      StrikePaysRemoved(b, p);
      var s0 := StrikeAll(b, p).survivors;
      if !Within(b.pos, e.pos, HitRadius) {
        TotalPointsSnoc(s0, e);
      } else if e.health - 1 > 0 {
        TotalPointsSnoc(s0, e.(health := e.health - 1));
      }
    }
  }

  /** Live enemies stay live, and the score lies between the smallest and the largest reward
      per kill. */
  lemma {:induction false} StrikeKeepsLive(b: Bullet, es: seq<Enemy>)
    requires AllWellFormed(es)
    ensures AllWellFormed(StrikeAll(b, es).survivors)
    ensures MinPoints * StrikeAll(b, es).kills <= StrikeAll(b, es).points <= MaxPoints * StrikeAll(b, es).kills
    decreases |es|
  {
    if es != [] {
      StrikeKeepsLive(b, es[..|es| - 1]);
    }
  }

  /** Live enemies stay live, and each kill pays that enemy's own points: the score earned is
      the points of the in-range enemies on their last hit, and equally the points that left
      the list. It therefore lies between the smallest and the largest reward per kill. */
  lemma StrikeRewards(b: Bullet, es: seq<Enemy>)
    requires AllWellFormed(es)
    ensures AllWellFormed(StrikeAll(b, es).survivors)
    ensures StrikeAll(b, es).points == TotalPoints(Fallen(InReach(b, es)))
    ensures StrikeAll(b, es).kills == |Fallen(InReach(b, es))|
    ensures StrikeAll(b, es).points == TotalPoints(es) - TotalPoints(StrikeAll(b, es).survivors)
    ensures MinPoints * StrikeAll(b, es).kills <= StrikeAll(b, es).points <= MaxPoints * StrikeAll(b, es).kills
  {
    StrikeKeepsLive(b, es);
    StrikePaysFallen(b, es);
    StrikePaysRemoved(b, es);
  }

  /** The enemies in range among the survivors are those in range before, in their order,
      each one hit down, without those the hit destroyed. */
  lemma {:induction false} StrikeWoundsInReach(b: Bullet, es: seq<Enemy>)
    ensures InReach(b, StrikeAll(b, es).survivors) == Wounded(InReach(b, es))
    decreases |es|
  {
    if es != [] {
      var p := es[..|es| - 1];
      var e := es[|es| - 1];
      StrikeWoundsInReach(b, p);
      var s0 := StrikeAll(b, p).survivors;
      var x := InReach(b, p);
      if !Within(b.pos, e.pos, HitRadius) {
        InReachSnoc(b, s0, e);
      } else if e.health - 1 <= 0 {
        WoundedSnoc(x, e);
      } else {
        InReachSnoc(b, s0, e.(health := e.health - 1));
        WoundedSnoc(x, e);
      }
    }
  }

  /** Every enemy in range loses exactly one health and no other enemy loses any: the enemies
      in range among the survivors are those in range before, in their order, each one hit
      down, without those the hit destroyed; and the health taken out of the list equals the
      number of enemies in range. */
  lemma {:induction false} StrikeTakesOneHealthPerEnemyInRange(b: Bullet, es: seq<Enemy>)
    requires AllWellFormed(es)
    ensures InReach(b, StrikeAll(b, es).survivors) == Wounded(InReach(b, es))
    ensures TotalHealth(es) == TotalHealth(StrikeAll(b, es).survivors) + InRange(b, es)
    decreases |es|
  {
    StrikeWoundsInReach(b, es);
    if es != [] {
      var p := es[..|es| - 1];
      var e := es[|es| - 1];
      StrikeTakesOneHealthPerEnemyInRange(b, p);
      var s0 := StrikeAll(b, p).survivors;
      if !Within(b.pos, e.pos, HitRadius) {
        TotalHealthSnoc(s0, e);
      } else if e.health - 1 > 0 {
        TotalHealthSnoc(s0, e.(health := e.health - 1));
      }
    }
  }

  /** A bullet with no enemy in range changes nothing and survives. */
  lemma {:induction false} StrikeMissing(b: Bullet, es: seq<Enemy>)
    requires forall i :: 0 <= i < |es| ==> !Within(b.pos, es[i].pos, HitRadius)
    ensures StrikeAll(b, es) == Strike(es, false, 0, 0)
    decreases |es|
  {
    if es != [] {
      var p := es[..|es| - 1];
      StrikeMissing(b, p);
      assert p + [es[|es| - 1]] == es;
    }
  }

  /** The enemies of `es` outside the hit radius of `b`, in their order. */
  function Untouched(b: Bullet, es: seq<Enemy>): (r: seq<Enemy>)
    ensures |r| <= |es|
    ensures forall i :: 0 <= i < |r| ==> r[i] in es && !Within(b.pos, r[i].pos, HitRadius)
    decreases |es|
  {
    if es == [] then []
    else
      var r0 := Untouched(b, es[..|es| - 1]);
      assert forall x :: x in es[..|es| - 1] ==> x in es;
      var e := es[|es| - 1];
      if Within(b.pos, e.pos, HitRadius) then r0 else r0 + [e]
  }

  /** Enemies out of range come through the pass unchanged and in the same order: a hit enemy
      keeps its position, so the survivors leave exactly the same enemies out of range. */
  lemma {:induction false} StrikeKeepsUntouched(b: Bullet, es: seq<Enemy>)
    ensures Untouched(b, StrikeAll(b, es).survivors) == Untouched(b, es)
    decreases |es|
  {
    if es != [] {
      var p := es[..|es| - 1];
      StrikeKeepsUntouched(b, p);
      var s0 := StrikeAll(b, p).survivors;
      forall e: Enemy ensures Untouched(b, s0 + [e]) == Untouched(b, s0) + (if Within(b.pos, e.pos, HitRadius) then [] else [e]) {
        assert (s0 + [e])[..|s0|] == s0;
      }
    }
  }

  /** A bullet with every enemy in range, none of them on its last hit, damages all of them:
      each keeps its place and loses exactly one health, and nothing is killed. */
  lemma {:induction false} StrikeDamagesEveryEnemyInRange(b: Bullet, es: seq<Enemy>)
    requires forall i :: 0 <= i < |es| ==> Within(b.pos, es[i].pos, HitRadius) && es[i].health >= 2
    ensures StrikeAll(b, es).survivors == seq(|es|, i requires 0 <= i < |es| => es[i].(health := es[i].health - 1))
    ensures StrikeAll(b, es).kills == 0 && StrikeAll(b, es).points == 0
    ensures |es| > 0 ==> StrikeAll(b, es).hit
    decreases |es|
  {
    if es != [] {
      StrikeDamagesEveryEnemyInRange(b, es[..|es| - 1]);
    }
  }

  /** A tank takes three bullets: the first two only wound it, the third removes it and pays
      the tank's 200 points. */
  lemma TankTakesThreeHits(b1: Bullet, b2: Bullet, b3: Bullet, pos: Point)
    requires Within(b1.pos, pos, HitRadius) && Within(b2.pos, pos, HitRadius) && Within(b3.pos, pos, HitRadius)
    ensures var s1 := StrikeAll(b1, [NewEnemy(Tank, pos)]);
            var s2 := StrikeAll(b2, s1.survivors);
            var s3 := StrikeAll(b3, s2.survivors);
            && s1.hit && s1.points == 0 && |s1.survivors| == 1 && s1.survivors[0].health == 2
            && s2.hit && s2.points == 0 && |s2.survivors| == 1 && s2.survivors[0].health == 1
            && s3.hit && s3.points == 200 && s3.survivors == [] && s3.kills == 1
  {
    var t := NewEnemy(Tank, pos);
    var s1 := StrikeAll(b1, [t]);
    assert [t][..0] == [];
    assert s1.survivors == [t.(health := 2)];
    var s2 := StrikeAll(b2, s1.survivors);
    assert [t.(health := 2)][..0] == [];
    assert s2.survivors == [t.(health := 1)];
    assert [t.(health := 1)][..0] == [];
  }

  /* ---------------------------------------------------------------------------------------
     All bullets against the enemies
     --------------------------------------------------------------------------------------- */

  /** What the bullet-versus-enemy pass leaves behind. */
  datatype Volley = Volley(bullets: seq<Bullet>, enemies: seq<Enemy>, points: int, kills: nat)

  /** The outer pass: each bullet in turn strikes the enemies left by the bullets before it,
      and is kept if and only if it touched no enemy. */
  function BulletPass(bs: seq<Bullet>, es: seq<Enemy>): (r: Volley)
    ensures |r.enemies| + r.kills == |es|
    ensures |r.bullets| <= |bs|
    decreases |bs|
  {
    if bs == [] then Volley([], es, 0, 0)
    else
      var v := BulletPass(bs[..|bs| - 1], es);
      var b := bs[|bs| - 1];
      var s := StrikeAll(b, v.enemies);
      Volley(v.bullets + (if s.hit then [] else [b]), s.survivors, v.points + s.points, v.kills + s.kills)
  }

  /** One more bullet: the bullet after a prefix strikes what the prefix left. */
  lemma BulletPassStep(bs: seq<Bullet>, j: int, es: seq<Enemy>, v: Volley, s: Strike)
    requires 0 <= j < |bs|
    requires v == BulletPass(bs[..j], es) && s == StrikeAll(bs[j], v.enemies)
    ensures BulletPass(bs[..j + 1], es) == Volley(v.bullets + (if s.hit then [] else [bs[j]]), s.survivors, v.points + s.points, v.kills + s.kills)
  {
    assert bs[..j + 1][..j] == bs[..j];
  }

  /** The whole pass keeps the enemies live and pays exactly the points of the enemies it
      removes (a hit changes only health, never points), so the score earned lies between the
      smallest and the largest reward per kill and never goes down. */
  lemma {:induction false} BulletPassRewards(bs: seq<Bullet>, es: seq<Enemy>)
    requires AllWellFormed(es)
    ensures AllWellFormed(BulletPass(bs, es).enemies)
    ensures BulletPass(bs, es).points == TotalPoints(es) - TotalPoints(BulletPass(bs, es).enemies)
    ensures MinPoints * BulletPass(bs, es).kills <= BulletPass(bs, es).points <= MaxPoints * BulletPass(bs, es).kills
    decreases |bs|
  {
    if bs != [] {
      BulletPassRewards(bs[..|bs| - 1], es);
      StrikeRewards(bs[|bs| - 1], BulletPass(bs[..|bs| - 1], es).enemies);
    }
  }

  /** Whether no enemy left by the bullets before bullet `j` lies within its hit radius. */
  predicate Missed(bs: seq<Bullet>, es: seq<Enemy>, j: nat)
    requires j < |bs|
  {
    var left := BulletPass(bs[..j], es).enemies;
    forall i :: 0 <= i < |left| ==> !Within(bs[j].pos, left[i].pos, HitRadius)
  }

  /** For each bullet, whether it misses. */
  function Misses(bs: seq<Bullet>, es: seq<Enemy>): seq<bool>
  {
    seq(|bs|, j requires 0 <= j < |bs| => Missed(bs, es, j))
  }

  /** The pass keeps exactly the bullets that find no enemy in range among those the bullets
      before them left, in their original order. */
  lemma BulletPassKeepsMisses(bs: seq<Bullet>, es: seq<Enemy>)
    ensures BulletPass(bs, es).bullets == Pick(bs, Marked(Misses(bs, es), |bs|))
  {
    BulletPassPrefix(bs, es, |bs|);
    assert bs[..|bs|] == bs;
  }

  /** `BulletPassKeepsMisses` for the first `n` bullets. */
  lemma {:induction false} BulletPassPrefix(bs: seq<Bullet>, es: seq<Enemy>, n: nat)
    requires n <= |bs|
    ensures BulletPass(bs[..n], es).bullets == Pick(bs, Marked(Misses(bs, es), n))
    decreases n
  {
    if n > 0 {
      BulletPassPrefix(bs, es, n - 1);
      BulletPassKeepsNext(bs, es, n);
      MarkedSnoc(bs, Misses(bs, es), n);
    }
  }

  /** The bullet after a prefix is kept exactly when it misses. */
  lemma BulletPassKeepsNext(bs: seq<Bullet>, es: seq<Enemy>, n: nat)
    requires 0 < n <= |bs|
    ensures BulletPass(bs[..n], es).bullets == BulletPass(bs[..n - 1], es).bullets + (if Misses(bs, es)[n - 1] then [bs[n - 1]] else [])
  {
    assert bs[..n][..n - 1] == bs[..n - 1];
    StrikeHitIffInRange(bs[n - 1], BulletPass(bs[..n - 1], es).enemies);
  }

  /** With no enemies about, every bullet survives and nothing is scored. */
  lemma {:induction false} BulletPassWithoutEnemies(bs: seq<Bullet>)
    ensures BulletPass(bs, []) == Volley(bs, [], 0, 0)
    decreases |bs|
  {
    if bs != [] {
      BulletPassWithoutEnemies(bs[..|bs| - 1]);
      assert bs[..|bs| - 1] + [bs[|bs| - 1]] == bs;
    }
  }

  /* ---------------------------------------------------------------------------------------
     Enemies against the turret
     --------------------------------------------------------------------------------------- */

  /** The part of the run state that damage touches. */
  datatype Vitals = Vitals(health: int, invulnerable: bool, over: bool)

  /** One hit on the turret: health drops by one; at zero or below the run is over (and the
      invulnerability flag is left as it was), otherwise the turret turns invulnerable. */
  function TakeHit(v: Vitals): (w: Vitals)
    ensures w.health == v.health - 1
    ensures w.over <==> v.over || w.health <= 0
    ensures w.invulnerable <==> v.invulnerable || w.health > 0
  {
    if v.health - 1 <= 0 then Vitals(v.health - 1, v.invulnerable, true)
    else Vitals(v.health - 1, true, v.over)
  }

  /** What the enemy-versus-turret pass leaves behind. */
  datatype Arrival = Arrival(survivors: seq<Enemy>, reached: nat, vitals: Vitals)

  /** The turret pass around `center`: every enemy within the turret radius is removed and
      counted as resolved, and hurts the turret unless it is invulnerable at that moment. */
  function TurretPass(center: Point, es: seq<Enemy>, v: Vitals): (r: Arrival)
    ensures |r.survivors| + r.reached == |es|
    ensures forall i :: 0 <= i < |r.survivors| ==> r.survivors[i] in es && !Within(r.survivors[i].pos, center, TurretRadius)
    ensures r.vitals.health <= v.health
    ensures v.invulnerable ==> r.vitals == v
    ensures r.vitals.invulnerable ==> v.invulnerable || r.vitals.health > 0
    ensures v.over ==> r.vitals.over
    ensures v.health >= 1 && !r.vitals.over ==> r.vitals.health >= 1
    decreases |es|
  {
    if es == [] then Arrival([], 0, v)
    else
      var r0 := TurretPass(center, es[..|es| - 1], v);
      var e := es[|es| - 1];
      assert forall x :: x in es[..|es| - 1] ==> x in es;
      if Within(e.pos, center, TurretRadius) then
        Arrival(r0.survivors, r0.reached + 1, if r0.vitals.invulnerable then r0.vitals else TakeHit(r0.vitals))
      else
        Arrival(r0.survivors + [e], r0.reached, r0.vitals)
  }

  /** The enemies of `es` outside the turret radius around `center`, in their order. */
  function Outside(center: Point, es: seq<Enemy>): (r: seq<Enemy>)
    ensures |r| <= |es|
    ensures forall i :: 0 <= i < |r| ==> r[i] in es && !Within(r[i].pos, center, TurretRadius)
    decreases |es|
  {
    if es == [] then []
    else
      var r0 := Outside(center, es[..|es| - 1]);
      assert forall x :: x in es[..|es| - 1] ==> x in es;
      var e := es[|es| - 1];
      if Within(e.pos, center, TurretRadius) then r0 else r0 + [e]
  }

  /** The turret pass keeps exactly the enemies outside the turret radius, unchanged and in
      their order, and counts every other one as arrived. */
  lemma {:induction false} TurretPassKeepsOutside(center: Point, es: seq<Enemy>, v: Vitals)
    ensures TurretPass(center, es, v).survivors == Outside(center, es)
    ensures TurretPass(center, es, v).reached == |es| - |Outside(center, es)|
    decreases |es|
  {
    if es != [] {
      TurretPassKeepsOutside(center, es[..|es| - 1], v);
    }
  }

  /** How much the turret pass hurts. An invulnerable turret takes nothing. A turret with
      health to spare takes exactly one hit however many enemies arrive, since that hit makes it
      invulnerable. A turret on its last health takes one hit per arriving enemy, because the
      fatal hit does not make it invulnerable; its health then falls below zero when two or more
      arrive in the same pass. */
  lemma {:induction false} TurretDamage(center: Point, es: seq<Enemy>, v: Vitals)
    ensures v.invulnerable ==> TurretPass(center, es, v).vitals == v
    ensures !v.invulnerable && v.health > 1 ==>
      var r := TurretPass(center, es, v);
      && r.vitals.health == v.health - (if r.reached > 0 then 1 else 0)
      && r.vitals.invulnerable == (r.reached > 0)
      && r.vitals.over == v.over
    ensures !v.invulnerable && v.health <= 1 ==>
      var r := TurretPass(center, es, v);
      && r.vitals.health == v.health - r.reached
      && !r.vitals.invulnerable
      && r.vitals.over == (v.over || r.reached > 0)
    decreases |es|
  {
    if es != [] {
      TurretDamage(center, es[..|es| - 1], v);
    }
  }

  /** The pass never removes an enemy that has not reached the turret, even in the pass that
      ends the run: two enemies at the centre and one far away leave the far one behind. */
  lemma FarEnemySurvivesGameOver(center: Point, near: Enemy, far: Enemy)
    requires near.pos == center && far.pos == Point(center.x + 100.0, center.y)
    ensures var r := TurretPass(center, [near, near, far], Vitals(1, false, false));
            r.vitals == Vitals(-1, false, true) && r.survivors == [far] && r.reached == 2
  {
    var v := Vitals(1, false, false);
    assert Within(near.pos, center, TurretRadius);
    assert !Within(far.pos, center, TurretRadius);
    assert [near][..0] == [] && [near, near][..1] == [near] && [near, near, far][..2] == [near, near];
    var r0 := TurretPass(center, [], v);
    assert r0 == Arrival([], 0, v);
    assert TakeHit(v) == Vitals(0, false, true);
    var r1 := TurretPass(center, [near], v);
    assert r1.reached == 1;
    assert r1.survivors == [];
    assert r1.vitals == Vitals(0, false, true);
    var r2 := TurretPass(center, [near, near], v);
    assert r2 == Arrival([], 2, Vitals(-1, false, true));
  }
}
