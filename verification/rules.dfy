/** Balance rules of the defence game: which kind of enemy a wave sends, what each kind is
    worth, how large a wave is and how fast it is spawned. All of these are plain expressions
    in GameScene; they are kept apart so the scene and the lemmas can name them. */
module Rules {

  /** The four enemy kinds. A kind never changes after spawning. */
  datatype Kind = Basic | Fast | Tank | Elite

  /** Minimum time, in milliseconds, between two shots. */
  const FireRate: real := 150.0
  /** Health of the turret at the start of a run. */
  const StartingHealth: int := 3
  /** Bonus per wave number paid when a wave is cleared. */
  const WaveBonus: int := 500
  /** A bullet hits an enemy closer than this. */
  const HitRadius: real := 20.0
  /** An enemy closer than this to the centre has reached the turret. */
  const TurretRadius: real := 40.0
  /** Enemies appear this far outside the visible area. */
  const SpawnMargin: real := 30.0
  /** Bullets are dropped once this far outside the visible area. */
  const ScreenMargin: real := 20.0
  /** Distance from the centre to the muzzle, and the speed of a bullet per tick. */
  const MuzzleOffset: real := 55.0
  const BulletSpeed: real := 12.0

  /** The smallest and largest reward of a kill. */
  const MinPoints: int := 100
  const MaxPoints: int := 500

  /** The kind of enemy spawned in `wave` for one uniform draw in [0, 1).
      The checks run elite first, then tank, then fast, so the draw ranges that select
      each kind depend on the wave's tier, as the clauses below spell out. */
  function KindFor(wave: int, draw: real): (k: Kind)
    ensures wave < 2 ==> k == Basic
    ensures draw >= 0.4 ==> k == Basic
    ensures 2 <= wave < 3 ==> (k == Fast <==> draw < 0.4)
    ensures 3 <= wave < 5 ==> (k == Tank <==> draw < 0.25) && (k == Fast <==> 0.25 <= draw < 0.4)
    ensures 5 <= wave ==>
      && (k == Elite <==> draw < 0.1)
      && (k == Tank <==> 0.1 <= draw < 0.25)
      && (k == Fast <==> 0.25 <= draw < 0.4)
    ensures k == Elite ==> wave >= 5
    ensures k == Tank ==> wave >= 3
  {
    if wave >= 5 && draw < 0.1 then Elite
    else if wave >= 3 && draw < 0.25 then Tank
    else if wave >= 2 && draw < 0.4 then Fast
    else Basic
  }

  /** Hits a freshly spawned enemy of kind `k` can take. */
  function MaxHealthOf(k: Kind): (h: int)
    ensures 1 <= h <= 4
    ensures h > 1 <==> k == Tank || k == Elite
  {
    if k == Tank then 3 else if k == Elite then 4 else 1
  }

  /** Movement per tick of an enemy of kind `k`. */
  function SpeedOf(k: Kind): (s: real)
    ensures 0.8 <= s <= 2.5
    ensures k == Fast <==> s == 2.5
  {
    if k == Fast then 2.5 else if k == Tank then 0.8 else if k == Elite then 1.5 else 1.2
  }

  /** Score for destroying an enemy of kind `k`. */
  function PointsOf(k: Kind): (p: int)
    ensures MinPoints <= p <= MaxPoints
    ensures p == MaxPoints <==> k == Elite
    ensures p == MinPoints <==> k == Basic
  {
    match k
    case Elite => 500
    case Tank => 200
    case Fast => 150
    case Basic => 100
  }

  /** Number of enemies a wave sends. */
  function WaveSize(wave: int): (n: int)
    ensures wave >= 1 ==> n >= 8
    ensures n % 3 == 2
  {
    5 + wave * 3
  }

  /** Delay in milliseconds between two spawns of a wave. */
  function SpawnInterval(wave: int): (d: int)
    ensures d >= 500
    ensures wave >= 0 ==> d <= 2000
    ensures wave >= 15 ==> d == 500
  {
    if 2000 - wave * 100 > 500 then 2000 - wave * 100 else 500
  }

  /** Later waves are larger, by three enemies per wave, and are never spawned more slowly. */
  lemma LaterWavesAreHarder(w1: int, w2: int)
    requires w1 <= w2
    ensures WaveSize(w1) <= WaveSize(w2)
    ensures WaveSize(w1 + 1) == WaveSize(w1) + 3
    ensures SpawnInterval(w2) <= SpawnInterval(w1)
  {
  }
}
