/** The things that live in the simulation: points of the plane, enemies and bullets,
    the distance tests that decide collisions, and how new enemies and bullets are made. */
module Entities {
  import opened Rules

  /** A position or a velocity, in viewport units with the origin at the top-left corner. */
  datatype Point = Point(x: real, y: real)

  /** An enemy. `health` goes down by one per hit; the other fields are fixed at spawn. */
  datatype Enemy = Enemy(kind: Kind, pos: Point, health: int, maxHealth: int, speed: real, points: int)

  /** A bullet with its position and its constant velocity per tick. */
  datatype Bullet = Bullet(pos: Point, vel: Point)

  function Sq(r: real): real { r * r }

  /** `a` and `b` are less than `radius` apart. The source compares the Euclidean distance
      with `radius`; for a non-negative radius comparing squares is the same test. */
  predicate Within(a: Point, b: Point, radius: real)
  {
    Sq(a.x - b.x) + Sq(a.y - b.y) < Sq(radius)
  }

  /** `p` lies beyond the margin of a `width` x `height` viewport, where bullets are dropped. */
  predicate OffScreen(p: Point, width: real, height: real)
  {
    p.x < -ScreenMargin || p.x > width + ScreenMargin || p.y < -ScreenMargin || p.y > height + ScreenMargin
  }

  /** What every live enemy satisfies: the stats of its kind and a health in 1..maxHealth. */
  predicate WellFormed(e: Enemy)
  {
    && e.maxHealth == MaxHealthOf(e.kind)
    && e.points == PointsOf(e.kind)
    && e.speed == SpeedOf(e.kind)
    && 0 < e.health <= e.maxHealth
  }

  predicate AllWellFormed(es: seq<Enemy>)
  {
    forall i :: 0 <= i < |es| ==> WellFormed(es[i])
  }

  /** Where an enemy appears: `side` picks the top, right, bottom or (any other value) left
      edge, and `along` is the coordinate along that edge. */
  function SpawnPoint(side: int, along: real, width: real, height: real): (p: Point)
    ensures p.x == -SpawnMargin || p.x == width + SpawnMargin || p.y == -SpawnMargin || p.y == height + SpawnMargin
    ensures p.x < 0.0 || p.x > width || p.y < 0.0 || p.y > height
    ensures p.x == along || p.y == along
  {
    match side
    case 0 => Point(along, -SpawnMargin)
    case 1 => Point(width + SpawnMargin, along)
    case 2 => Point(along, height + SpawnMargin)
    case _ => Point(-SpawnMargin, along)
  }

  /** A freshly spawned enemy of kind `k` at `pos`. */
  function NewEnemy(k: Kind, pos: Point): (e: Enemy)
    ensures WellFormed(e)
    ensures e.kind == k && e.pos == pos
    ensures e.health == e.maxHealth
  {
    Enemy(k, pos, MaxHealthOf(k), MaxHealthOf(k), SpeedOf(k), PointsOf(k))
  }

  /** The bullet fired from the turret at `center` along the unit direction `aim`: it starts
      at the muzzle and travels along the same direction at the bullet speed. */
  function Shot(center: Point, aim: Point): (b: Bullet)
    ensures b.pos.x - center.x == b.vel.x * (MuzzleOffset / BulletSpeed)
    ensures b.pos.y - center.y == b.vel.y * (MuzzleOffset / BulletSpeed)
  {
    Bullet(Point(center.x + aim.x * MuzzleOffset, center.y + aim.y * MuzzleOffset),
           Point(aim.x * BulletSpeed, aim.y * BulletSpeed))
  }

  /** A bullet after one tick of flight. */
  function Moved(b: Bullet): Bullet
  {
    b.(pos := Point(b.pos.x + b.vel.x, b.pos.y + b.vel.y))
  }
}
