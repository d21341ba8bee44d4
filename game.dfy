/** The `Game` struct of the demo and the bullet simulation that `main` runs
    over it once per frame. */
module Game {
  import opened Types
  import opened Simulation
  import opened Intended

  class Game {
    var width: u64
    var height: u64
    var numAliens: nat
    var numBullets: nat
    var aliens: array<Alien>
    var player: Player
    /** The inline `Bullet bullets[GAME_MAX_BULLETS]`: its storage never moves. */
    const bullets: array<Bullet>

    /** The live prefix fits the fixed array, and `aliens` holds exactly
        `num_aliens` entries. */
    ghost predicate Valid()
      reads this
    {
      && bullets.Length == GAME_MAX_BULLETS
      && numBullets <= bullets.Length
      && aliens.Length == numAliens
    }

    /** The state the bullet simulation works on, as a value. */
    ghost function State(score: u64): (s: Sim)
      reads this, bullets, aliens
      requires Valid()
      ensures s.WellFormed()
    {
      Sim(bullets[..], numBullets, aliens[..], score)
    }

    /** The set-up in `main`: 55 aliens, no bullets, three lives. The window
        size and the aliens' contents are never initialised there, so they
        are taken as parameters. The bullet slots and the player's position
        are left uninitialised too; the model zeroes them, and nothing reads
        them before they are written (no slot is live). */
    constructor (width: u64, height: u64, initialAliens: seq<Alien>)
      requires |initialAliens| == NUM_ALIENS
      ensures Valid() && fresh(bullets) && fresh(aliens)
      ensures this.width == width && this.height == height
      ensures numAliens == NUM_ALIENS && aliens[..] == initialAliens
      ensures numBullets == 0 && player.life == 3
    {
      this.width := width;
      this.height := height;
      numAliens := NUM_ALIENS;
      numBullets := 0;
      aliens := new Alien[NUM_ALIENS](i requires 0 <= i < NUM_ALIENS => initialAliens[i]);
      player := Player(0, 0, 3);
      bullets := new Bullet[GAME_MAX_BULLETS](_ => Bullet(0, 0, 0));
    }

    /** The bullet loop of one frame, in the source's control flow: move each
        live bullet, cull it by swap-and-pop when it leaves the area (and
        re-examine the slot), otherwise scan the live aliens, scoring, killing
        and swap-popping on each overlap, and then step to the next slot. The
        score is the `size_t` global, passed in and returned. `ok` is false
        when a hit came with no live bullet left, where the source would
        underflow `num_bullets`; the state is then the one just before that
        hit. The result is exactly Simulation.Tick, whose accounting is
        proved by Simulation.TickAccounting. */
    method SimulateBullets(score0: u64, overlap: (Bullet, Alien) -> bool)
      returns (score: u64, ok: bool)
      requires Valid()
      modifies this`numBullets, bullets, aliens
      ensures Valid()
      ensures var r := Tick(old(State(score0)), height, overlap);
        State(score) == r.sim && ok == !r.underflow
    {
      ghost var goal := Tick(State(score0), height, overlap);
      ghost var culls, hits := 0, 0;
      score := score0;
      var bi := 0;
      while bi < numBullets
        invariant Valid() && bi <= bullets.Length
        invariant Loop(State(score), bi, culls, hits, height, overlap) == goal
        decreases if bi <= numBullets then numBullets - bi else 0
      {
        ghost var before := State(score);
        bullets[bi] := Advance(bullets[bi]);
        assert State(score) == Moved(before, bi);
        if OutOfBounds(bullets[bi].y, height) {
          bullets[bi] := bullets[numBullets - 1];
          numBullets := numBullets - 1;
          culls := culls + 1;
          assert State(score) == PopBullet(Moved(before, bi), bi);
          continue;
        }
        ghost var scanned := Scan(State(score), bi, 0, culls, hits, overlap);
        score, ok := ScanAliens(bi, score, culls, hits, overlap);
        if !ok {
          return;
        }
        hits := scanned.hits;
        bi := bi + 1;
      }
      ok := true;
    }

    /** The alien scan for slot `bi`: dead aliens are skipped; on each
        overlap with a live alien the award is added to the score, the alien
        dies and slot `bi` is swap-popped, and the scan goes on with the
        next alien (the inner `continue`), testing whatever bullet now sits
        in slot `bi`. The result is exactly Simulation.Scan. */
    method ScanAliens(bi: nat, score0: u64, ghost culls: nat, ghost hits: nat,
                      overlap: (Bullet, Alien) -> bool)
      returns (score: u64, ok: bool)
      requires Valid() && bi < bullets.Length
      modifies this`numBullets, bullets, aliens
      ensures Valid()
      ensures var r := Scan(old(State(score0)), bi, 0, culls, hits, overlap);
        State(score) == r.sim && ok == !r.underflow
    {
      ghost var cur := State(score0);
      ghost var scanned := Scan(cur, bi, 0, culls, hits, overlap);
      ghost var hitCount := hits;
      score := score0;
      var ai := 0;
      while ai < numAliens
        invariant Valid() && ai <= aliens.Length
        invariant cur == State(score)
        invariant Scan(cur, bi, ai, culls, hitCount, overlap) == scanned
      {
        var alien := aliens[ai];
        if alien.kind == Dead {
          ScanSkipStep(cur, bi, ai, culls, hitCount, overlap);
          ai := ai + 1;
          continue;
        }
        if overlap(bullets[bi], alien) {
          if numBullets == 0 {
            // `num_bullets - 1` would wrap around here.
            ok := false;
            return;
          }
          ScanHitStep(cur, bi, ai, culls, hitCount, overlap);
          score := AddScore(score, Award(aliens[ai].kind));
          aliens[ai] := aliens[ai].(kind := Dead);
          bullets[bi] := bullets[numBullets - 1];
          numBullets := numBullets - 1;
          hitCount := hitCount + 1;
          assert State(score) == Hit(cur, bi, ai) by {
            assert bullets[..] == RemoveAt(cur.bullets, cur.num, bi);
            assert aliens[..] == cur.aliens[ai := cur.aliens[ai].(kind := Dead)];
          }
          cur := Hit(cur, bi, ai);
        } else {
          ScanSkipStep(cur, bi, ai, culls, hitCount, overlap);
        }
        ai := ai + 1;
      }
      ok := true;
    }

    /** The bullet loop as intended rather than as written: after a hit the
        alien scan stops, and the slot is examined again whether its bullet
        was culled or hit, so every live bullet moves once per frame and a
        hit never meets an empty array. The result is exactly
        Intended.TickIntended, proved by Intended.SurvivorsMovedOnce and
        Intended.TickIntendedAccounting. */
    method SimulateBulletsIntended(score0: u64, overlap: (Bullet, Alien) -> bool)
      returns (score: u64)
      requires Valid()
      modifies this`numBullets, bullets, aliens
      ensures Valid()
      ensures State(score) == TickIntended(old(State(score0)), height, overlap).sim
    {
      ghost var goal := TickIntended(State(score0), height, overlap);
      ghost var culls, hits := 0, 0;
      score := score0;
      var bi := 0;
      while bi < numBullets
        invariant Valid() && bi <= numBullets
        invariant LoopIntended(State(score), bi, culls, hits, height, overlap) == goal
        decreases numBullets - bi
      {
        ghost var before := State(score);
        bullets[bi] := Advance(bullets[bi]);
        ghost var m := Moved(before, bi);
        assert State(score) == m;
        if OutOfBounds(bullets[bi].y, height) {
          bullets[bi] := bullets[numBullets - 1];
          numBullets := numBullets - 1;
          culls := culls + 1;
          assert State(score) == PopBullet(m, bi);
          continue;
        }
        var ai := FindTarget(bi, overlap);
        if ai < numAliens {
          score := AddScore(score, Award(aliens[ai].kind));
          aliens[ai] := aliens[ai].(kind := Dead);
          bullets[bi] := bullets[numBullets - 1];
          numBullets := numBullets - 1;
          hits := hits + 1;
          assert State(score) == Hit(m, bi, ai) by {
            assert bullets[..] == RemoveAt(m.bullets, m.num, bi);
            assert aliens[..] == m.aliens[ai := m.aliens[ai].(kind := Dead)];
          }
        } else {
          bi := bi + 1;
        }
      }
    }

    /** The alien scan of the intended loop: the index of the first live
        alien that overlaps slot `bi`, or `num_aliens` when there is none. */
    method FindTarget(bi: nat, overlap: (Bullet, Alien) -> bool) returns (ai: nat)
      requires Valid() && bi < bullets.Length
      ensures ai <= numAliens
      ensures FirstHit(bullets[bi], aliens[..], 0, overlap) == if ai < numAliens then Some(ai) else None
    {
      ai := 0;
      while ai < numAliens
        invariant ai <= numAliens
        invariant FirstHit(bullets[bi], aliens[..], ai, overlap) == FirstHit(bullets[bi], aliens[..], 0, overlap)
      {
        if aliens[ai].kind != Dead && overlap(bullets[bi], aliens[ai]) {
          return;
        }
        ai := ai + 1;
      }
    }
  }
}
