/** Entities of the Space Invaders demo: the plain records that the game
    struct stores, the machine integer types they are built from, and the
    small pure computations the per-frame update applies to them. */
module Types {

  /** Capacity of the inline bullet array (GAME_MAX_BULLETS). */
  const GAME_MAX_BULLETS: nat := 128
  /** Number of aliens the game allocates at start-up. */
  const NUM_ALIENS: nat := 55
  /** 2^64: unsigned `size_t` arithmetic is taken modulo this. */
  const U64_MODULUS: int := 0x1_0000_0000_0000_0000

  newtype u64 = x: int | 0 <= x < 0x1_0000_0000_0000_0000
  newtype i32 = x: int | -0x8000_0000 <= x < 0x8000_0000

  /** The alien kinds; the numeric value of each is given by Code. */
  datatype AlienType = Dead | TypeA | TypeB | TypeC {
    /** The enumerator's value: ALIEN_DEAD = 0, A = 1, B = 2, C = 3. */
    function Code(): (c: int)
      ensures 0 <= c <= 3
      ensures c == 0 <==> this == Dead
    {
      match this
      case Dead => 0
      case TypeA => 1
      case TypeB => 2
      case TypeC => 3
    }
  }

  /** An alien: position in pixels and its kind. */
  datatype Alien = Alien(x: u64, y: u64, kind: AlienType)

  /** A projectile: position and the signed step added to `y` each frame. */
  datatype Bullet = Bullet(x: u64, y: u64, dir: i32)

  /** The player record; `life` is set to 3 at start-up and never read. */
  datatype Player = Player(x: u64, y: u64, life: u64)

  /** Points for killing a live alien: `10 * (4 - type)`. */
  function Award(kind: AlienType): (points: nat)
    requires kind != Dead
    ensures kind == TypeA ==> points == 30
    ensures kind == TypeB ==> points == 20
    ensures kind == TypeC ==> points == 10
    ensures 10 <= points <= 30 && points != 40
  {
    10 * (4 - kind.Code())
  }

  /** `score += points` on a `size_t` score: the sum is reduced modulo 2^64. */
  function AddScore(score: u64, points: nat): (r: u64)
    ensures r as int == (score as int + points) % U64_MODULUS
    ensures score as int + points < U64_MODULUS ==> r as int == score as int + points
  {
    ((score as int + points) % U64_MODULUS) as u64
  }

  /** Two additions to the score are one addition of the sum. */
  lemma AddScoreTwice(score: u64, p: nat, q: nat)
    ensures AddScore(AddScore(score, p), q) == AddScore(score, p + q)
  {
    var x := score as int;
    var m := (x + p) % U64_MODULUS;
    assert x + p == (x + p) / U64_MODULUS * U64_MODULUS + m;
    assert x + p + q == (x + p) / U64_MODULUS * U64_MODULUS + (m + q);
    ModShift((x + p) / U64_MODULUS, m + q);
  }

  lemma AddScoreChain(score: u64, p: nat, q: nat, total: u64, sum: nat)
    requires total == AddScore(AddScore(score, p), q) && sum == p + q
    ensures total == AddScore(score, sum)
  {
    AddScoreTwice(score, p, q);
  }

  lemma AddScoreZero(score: u64)
    ensures AddScore(score, 0) == score
  {
  }

  /** Adding a multiple of 2^64 does not change a value modulo 2^64. */
  lemma {:induction false} ModShift(k: int, n: int)
    requires 0 <= k && 0 <= n
    ensures (k * U64_MODULUS + n) % U64_MODULUS == n % U64_MODULUS
    decreases k
  {
    if k > 0 {
      ModShift(k - 1, n);
      assert k * U64_MODULUS + n == (k - 1) * U64_MODULUS + n + U64_MODULUS;
    }
  }

  /** `bullet.y += bullet.dir`: the signed step is converted to `size_t`
      and added modulo 2^64, so a step below 0 wraps to a huge `y`. */
  function Advance(b: Bullet): (r: Bullet)
    ensures r.x == b.x && r.dir == b.dir
    ensures 0 <= b.y as int + b.dir as int < U64_MODULUS ==> r.y as int == b.y as int + b.dir as int
    ensures b.y as int + b.dir as int < 0 ==> r.y as int == b.y as int + b.dir as int + U64_MODULUS
    ensures U64_MODULUS <= b.y as int + b.dir as int ==> r.y as int == b.y as int + b.dir as int - U64_MODULUS
  {
    b.(y := ((b.y as int + b.dir as int) % U64_MODULUS) as u64)
  }

  /** The cull test `y >= height || y < 0` on an unsigned `y`: the second
      disjunct can never hold, so the test is exactly `y >= height`. */
  function OutOfBounds(y: u64, height: u64): (out: bool)
    ensures out <==> y >= height
  {
    y >= height || (y as int) < 0
  }

  /** A bullet stepped below 0 by a negative `dir` wraps around and is then
      culled, as long as `height` leaves room for the wrapped value. */
  lemma WrappedBulletIsCulled(b: Bullet, height: u64)
    requires b.dir < 0 && b.y as int + b.dir as int < 0
    requires height as int <= U64_MODULUS + b.dir as int
    ensures Advance(b).y as int >= U64_MODULUS + b.dir as int
    ensures OutOfBounds(Advance(b).y, height)
  {
  }

  /** The slot that a swap-and-pop from slot `i` takes out of the live
      prefix `[0, num)`: slot `i` itself when it is live, and otherwise the
      last live slot (whose copy lands at `i`, outside the prefix). */
  function Victim(num: nat, i: nat): (v: nat)
    requires 0 < num
    ensures v < num
    ensures i < num ==> v == i
  {
    if i < num then i else num - 1
  }

  /** Swap-and-pop, `bullets[i] = bullets[num - 1]; --num`, on the whole
      array (the count is the caller's). */
  function RemoveAt(bullets: seq<Bullet>, num: nat, i: nat): (r: seq<Bullet>)
    requires 0 < num <= |bullets| && i < |bullets|
    ensures |r| == |bullets|
  {
    bullets[i := bullets[num - 1]]
  }

  /** After a swap-and-pop the live prefix is one shorter and has lost
      exactly the bullet in slot Victim(num, i); slot `i` holds the last
      live bullet and every other slot keeps its bullet. */
  lemma RemoveAtLive(bullets: seq<Bullet>, num: nat, i: nat)
    requires 0 < num <= |bullets| && i < |bullets|
    ensures var r := RemoveAt(bullets, num, i);
      && r[i] == bullets[num - 1]
      && (forall j :: 0 <= j < |r| && j != i ==> r[j] == bullets[j])
      && multiset(r[..num - 1]) == multiset(bullets[..num]) - multiset{bullets[Victim(num, i)]}
  {
    var r := RemoveAt(bullets, num, i);
    assert bullets[..num] == bullets[..num - 1] + [bullets[num - 1]];
    if i < num - 1 {
      assert bullets[..num - 1] == bullets[..i] + [bullets[i]] + bullets[i + 1..num - 1];
      assert r[..num - 1] == bullets[..i] + [bullets[num - 1]] + bullets[i + 1..num - 1];
    } else {
      assert r[..num - 1] == bullets[..num - 1];
    }
  }
}
