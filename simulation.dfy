/** The bullet/alien simulation of one frame, as functions over a snapshot
    of the state it touches. These functions follow the loop in `main`
    statement by statement; the class Game.Game runs the same loop over its
    arrays and is proved equal to them. */
module Simulation {
  import opened Types

  /** What the simulation reads and writes: the whole bullet array (slots
      past the live prefix included, since the loop writes them), the live
      count `num_bullets`, the alien array and the global score. */
  datatype Sim = Sim(bullets: seq<Bullet>, num: nat, aliens: seq<Alien>, score: u64)
  {
    ghost predicate WellFormed() {
      num <= |bullets|
    }

    /** The live prefix `bullets[0 .. num_bullets)`. */
    function Live(): (live: seq<Bullet>)
      requires WellFormed()
      ensures |live| == num
    {
      bullets[..num]
    }
  }

  /** The snapshot the loop ends in, with the number of bullets it culled
      and the number of hits it scored along the way. `underflow` says that
      the loop stopped at a hit taken while `num_bullets` was 0: the source
      would then read `bullets[num_bullets - 1]` with `num_bullets - 1`
      wrapped to SIZE_MAX, and `sim` is the state just before that step. */
  datatype Outcome = Outcome(sim: Sim, culls: nat, hits: nat, underflow: bool)

  /** Swap-and-pop slot `bi`: `bullets[bi] = bullets[num_bullets - 1];
      --num_bullets`. */
  function PopBullet(s: Sim, bi: nat): (r: Sim)
    requires s.WellFormed() && 0 < s.num && bi < |s.bullets|
    ensures r.WellFormed() && r.num == s.num - 1
    ensures |r.bullets| == |s.bullets| && r.aliens == s.aliens && r.score == s.score
  {
    s.(bullets := RemoveAt(s.bullets, s.num, bi), num := s.num - 1)
  }

  /** A hit on live alien `ai` by slot `bi`: score `10 * (4 - type)`, mark
      the alien dead, and swap-and-pop slot `bi`. */
  function Hit(s: Sim, bi: nat, ai: nat): (r: Sim)
    requires s.WellFormed() && 0 < s.num && bi < |s.bullets|
    requires ai < |s.aliens| && s.aliens[ai].kind != Dead
    ensures r.WellFormed() && r.num == s.num - 1 && |r.bullets| == |s.bullets|
    ensures r.bullets[bi] == s.bullets[s.num - 1]
    ensures r.aliens == s.aliens[ai := s.aliens[ai].(kind := Dead)]
    ensures r.score == AddScore(s.score, Award(s.aliens[ai].kind))
  {
    var p := PopBullet(s, bi);
    p.(aliens := s.aliens[ai := s.aliens[ai].(kind := Dead)],
       score := AddScore(s.score, Award(s.aliens[ai].kind)))
  }

  /** The alien scan for the bullet in slot `bi`, from alien `ai` on. Dead
      aliens are skipped. The `continue` after a hit continues THIS scan, so
      the remaining aliens are tested against whatever bullet the swap put
      into slot `bi`, even when slot `bi` is no longer live. */
  function Scan(s: Sim, bi: nat, ai: nat, culls: nat, hits: nat,
                overlap: (Bullet, Alien) -> bool): (r: Outcome)
    requires s.WellFormed() && bi < |s.bullets| && ai <= |s.aliens|
    ensures r.sim.WellFormed() && |r.sim.bullets| == |s.bullets| && |r.sim.aliens| == |s.aliens|
    ensures r.sim.num <= s.num && r.culls == culls && r.hits >= hits
    decreases |s.aliens| - ai
  {
    if ai == |s.aliens| then Outcome(s, culls, hits, false)
    else if s.aliens[ai].kind == Dead || !overlap(s.bullets[bi], s.aliens[ai]) then
      Scan(s, bi, ai + 1, culls, hits, overlap)
    else if s.num == 0 then Outcome(s, culls, hits, true)
    else Scan(Hit(s, bi, ai), bi, ai + 1, culls, hits + 1, overlap)
  }

  /** One step of the scan past an alien that is dead or not overlapped. */
  lemma ScanSkipStep(s: Sim, bi: nat, ai: nat, culls: nat, hits: nat,
                     overlap: (Bullet, Alien) -> bool)
    requires s.WellFormed() && bi < |s.bullets| && ai < |s.aliens|
    requires s.aliens[ai].kind == Dead || !overlap(s.bullets[bi], s.aliens[ai])
    ensures Scan(s, bi, ai, culls, hits, overlap) == Scan(s, bi, ai + 1, culls, hits, overlap)
  {
  }

  /** One step of the scan at a hit: the scan goes on with the next alien,
      from the state after the hit. */
  lemma ScanHitStep(s: Sim, bi: nat, ai: nat, culls: nat, hits: nat,
                    overlap: (Bullet, Alien) -> bool)
    requires s.WellFormed() && bi < |s.bullets| && ai < |s.aliens| && 0 < s.num
    requires s.aliens[ai].kind != Dead && overlap(s.bullets[bi], s.aliens[ai])
    ensures Scan(s, bi, ai, culls, hits, overlap) == Scan(Hit(s, bi, ai), bi, ai + 1, culls, hits + 1, overlap)
  {
  }

  /** Slot `bi` after `bullets[bi].y += bullets[bi].dir`. */
  function Moved(s: Sim, bi: nat): (r: Sim)
    requires bi < |s.bullets|
    ensures r.bullets == s.bullets[bi := Advance(s.bullets[bi])]
    ensures r.num == s.num && r.aliens == s.aliens && r.score == s.score
  {
    s.(bullets := s.bullets[bi := Advance(s.bullets[bi])])
  }

  /** The bullet loop from index `bi` on, with `culls` and `hits` counted so
      far. The index is only advanced after a completed alien scan: a culled
      slot is re-examined, a slot that scored a hit is not. */
  function Loop(s: Sim, bi: nat, culls: nat, hits: nat, height: u64,
                overlap: (Bullet, Alien) -> bool): (r: Outcome)
    requires s.WellFormed() && bi <= |s.bullets|
    ensures r.sim.WellFormed() && |r.sim.bullets| == |s.bullets| && |r.sim.aliens| == |s.aliens|
    ensures r.sim.num <= s.num && r.culls >= culls && r.hits >= hits
    decreases if bi <= s.num then s.num - bi else 0
  {
    if bi >= s.num then Outcome(s, culls, hits, false)
    else
      var m := Moved(s, bi);
      if OutOfBounds(m.bullets[bi].y, height) then
        Loop(PopBullet(m, bi), bi, culls + 1, hits, height, overlap)
      else
        var r := Scan(m, bi, 0, culls, hits, overlap);
        if r.underflow then r
        else Loop(r.sim, bi + 1, r.culls, r.hits, height, overlap)
  }

  /** One frame of the simulation from a snapshot. */
  function Tick(s: Sim, height: u64, overlap: (Bullet, Alien) -> bool): (r: Outcome)
    requires s.WellFormed()
    ensures r.sim.WellFormed() && |r.sim.bullets| == |s.bullets| && |r.sim.aliens| == |s.aliens|
    ensures r.sim.num <= s.num
  {
    Loop(s, 0, 0, 0, height, overlap)
  }

  // ---------------------------------------------------------------------
  // What happened to the aliens over a stretch of the simulation.

  /** `b` is `a` after some aliens died: same count, same positions, and each
      kind either unchanged or turned from live to dead. */
  ghost predicate OnlyDie(a: seq<Alien>, b: seq<Alien>) {
    && |a| == |b|
    && forall i :: 0 <= i < |a| ==>
         && b[i].x == a[i].x && b[i].y == a[i].y
         && (b[i].kind == a[i].kind || (a[i].kind != Dead && b[i].kind == Dead))
  }

  /** Number of aliens alive in `a` and dead in `b`. */
  function Kills(a: seq<Alien>, b: seq<Alien>): (n: nat)
    requires |a| == |b|
    ensures n <= |a|
  {
    if a == [] then 0
    else (if a[0].kind != Dead && b[0].kind == Dead then 1 else 0) + Kills(a[1..], b[1..])
  }

  /** Sum of the awards of the aliens alive in `a` and dead in `b`. */
  function Bounty(a: seq<Alien>, b: seq<Alien>): (points: nat)
    requires |a| == |b|
    ensures points <= 30 * Kills(a, b)
  {
    if a == [] then 0
    else (if a[0].kind != Dead && b[0].kind == Dead then Award(a[0].kind) else 0) + Bounty(a[1..], b[1..])
  }

  lemma {:induction false} NoChange(a: seq<Alien>)
    ensures OnlyDie(a, a) && Kills(a, a) == 0 && Bounty(a, a) == 0
  {
    if a != [] { NoChange(a[1..]); }
  }

  /** Killing live alien `ai` is one kill worth its award. */
  lemma {:induction false} OneKill(a: seq<Alien>, ai: nat)
    requires ai < |a| && a[ai].kind != Dead
    ensures var b := a[ai := a[ai].(kind := Dead)];
      OnlyDie(a, b) && Kills(a, b) == 1 && Bounty(a, b) == Award(a[ai].kind)
  {
    var b := a[ai := a[ai].(kind := Dead)];
    if ai == 0 {
      assert b[1..] == a[1..];
      NoChange(a[1..]);
    } else {
      assert b[1..] == a[1..][ai - 1 := a[ai].(kind := Dead)];
      OneKill(a[1..], ai - 1);
    }
  }

  /** Deaths over two stretches add up. */
  lemma {:induction false} Compose(a: seq<Alien>, b: seq<Alien>, c: seq<Alien>)
    requires OnlyDie(a, b) && OnlyDie(b, c)
    ensures OnlyDie(a, c)
    ensures Kills(a, c) == Kills(a, b) + Kills(b, c)
    ensures Bounty(a, c) == Bounty(a, b) + Bounty(b, c)
  {
    if a != [] {
      assert OnlyDie(a[1..], b[1..]);
      assert OnlyDie(b[1..], c[1..]);
      Compose(a[1..], b[1..], c[1..]);
    }
  }

  /** Over an alien scan: aliens only die, each hit is one kill and takes one
      bullet, and the score grows (modulo 2^64) by the awards of the aliens
      that died. */
  lemma {:induction false} ScanAccounting(s: Sim, bi: nat, ai: nat, culls: nat, hits: nat,
                                          overlap: (Bullet, Alien) -> bool)
    requires s.WellFormed() && bi < |s.bullets| && ai <= |s.aliens|
    ensures var r := Scan(s, bi, ai, culls, hits, overlap);
      && OnlyDie(s.aliens, r.sim.aliens)
      && r.sim.num + r.hits == s.num + hits
      && r.hits == hits + Kills(s.aliens, r.sim.aliens)
    decreases |s.aliens| - ai
  {
    var r := Scan(s, bi, ai, culls, hits, overlap);
    if ai == |s.aliens| {
      NoChange(s.aliens);
    } else if s.aliens[ai].kind == Dead || !overlap(s.bullets[bi], s.aliens[ai]) {
      assert r == Scan(s, bi, ai + 1, culls, hits, overlap);
      ScanAccounting(s, bi, ai + 1, culls, hits, overlap);
    } else if s.num == 0 {
      assert r.sim == s;
      NoChange(s.aliens);
    } else {
      var h := Hit(s, bi, ai);
      assert r == Scan(h, bi, ai + 1, culls, hits + 1, overlap);
      ScanAccounting(h, bi, ai + 1, culls, hits + 1, overlap);
      OneKill(s.aliens, ai);
      Compose(s.aliens, h.aliens, r.sim.aliens);
    }
  }

  /** Over an alien scan the score grows, modulo 2^64, by the awards of the
      aliens that died. */
  lemma {:induction false} ScanScore(s: Sim, bi: nat, ai: nat, culls: nat, hits: nat,
                                     overlap: (Bullet, Alien) -> bool)
    requires s.WellFormed() && bi < |s.bullets| && ai <= |s.aliens|
    ensures var r := Scan(s, bi, ai, culls, hits, overlap);
      r.sim.score == AddScore(s.score, Bounty(s.aliens, r.sim.aliens))
    decreases |s.aliens| - ai
  {
    var r := Scan(s, bi, ai, culls, hits, overlap);
    if ai == |s.aliens| || (s.num == 0 && s.aliens[ai].kind != Dead && overlap(s.bullets[bi], s.aliens[ai])) {
      assert r.sim == s;
      NoChange(s.aliens);
      AddScoreZero(s.score);
    } else if s.aliens[ai].kind == Dead || !overlap(s.bullets[bi], s.aliens[ai]) {
      assert r == Scan(s, bi, ai + 1, culls, hits, overlap);
      ScanScore(s, bi, ai + 1, culls, hits, overlap);
    } else {
      var h := Hit(s, bi, ai);
      assert r == Scan(h, bi, ai + 1, culls, hits + 1, overlap);
      ScanScore(h, bi, ai + 1, culls, hits + 1, overlap);
      ScanAccounting(h, bi, ai + 1, culls, hits + 1, overlap);
      OneKill(s.aliens, ai);
      Compose(s.aliens, h.aliens, r.sim.aliens);
      var p, q := Award(s.aliens[ai].kind), Bounty(h.aliens, r.sim.aliens);
      assert Bounty(s.aliens, r.sim.aliens) == p + q;
      assert h.score == AddScore(s.score, p);
      assert r.sim.score == AddScore(h.score, q);
      AddScoreChain(s.score, p, q, r.sim.score, Bounty(s.aliens, r.sim.aliens));
    }
  }

  /** Over the bullet loop: aliens only die, every bullet that left the live
      prefix was culled or scored a hit, and each hit is one kill. */
  lemma {:induction false} LoopAccounting(s: Sim, bi: nat, culls: nat, hits: nat, height: u64,
                                          overlap: (Bullet, Alien) -> bool)
    requires s.WellFormed() && bi <= |s.bullets|
    ensures var r := Loop(s, bi, culls, hits, height, overlap);
      && OnlyDie(s.aliens, r.sim.aliens)
      && r.sim.num + r.culls + r.hits == s.num + culls + hits
      && r.hits == hits + Kills(s.aliens, r.sim.aliens)
    decreases if bi <= s.num then s.num - bi else 0
  {
    if bi >= s.num {
      NoChange(s.aliens);
    } else {
      var m := Moved(s, bi);
      if OutOfBounds(m.bullets[bi].y, height) {
        LoopAccounting(PopBullet(m, bi), bi, culls + 1, hits, height, overlap);
      } else {
        var r := Scan(m, bi, 0, culls, hits, overlap);
        ScanAccounting(m, bi, 0, culls, hits, overlap);
        if !r.underflow {
          var f := Loop(r.sim, bi + 1, r.culls, r.hits, height, overlap);
          LoopAccounting(r.sim, bi + 1, r.culls, r.hits, height, overlap);
          Compose(s.aliens, r.sim.aliens, f.sim.aliens);
        }
      }
    }
  }

  /** Over the bullet loop the score grows, modulo 2^64, by exactly the
      awards of the aliens that died. */
  lemma {:induction false} LoopScore(s: Sim, bi: nat, culls: nat, hits: nat, height: u64,
                                     overlap: (Bullet, Alien) -> bool)
    requires s.WellFormed() && bi <= |s.bullets|
    ensures var r := Loop(s, bi, culls, hits, height, overlap);
      r.sim.score == AddScore(s.score, Bounty(s.aliens, r.sim.aliens))
    decreases if bi <= s.num then s.num - bi else 0
  {
    var f := Loop(s, bi, culls, hits, height, overlap);
    if bi >= s.num {
      NoChange(s.aliens);
      AddScoreZero(s.score);
    } else {
      var m := Moved(s, bi);
      if OutOfBounds(m.bullets[bi].y, height) {
        var p := PopBullet(m, bi);
        assert f == Loop(p, bi, culls + 1, hits, height, overlap);
        LoopScore(p, bi, culls + 1, hits, height, overlap);
        assert p.aliens == s.aliens && p.score == s.score;
      } else {
        var r := Scan(m, bi, 0, culls, hits, overlap);
        ScanScore(m, bi, 0, culls, hits, overlap);
        if !r.underflow {
          assert f == Loop(r.sim, bi + 1, r.culls, r.hits, height, overlap);
          LoopScore(r.sim, bi + 1, r.culls, r.hits, height, overlap);
          ScanAccounting(m, bi, 0, culls, hits, overlap);
          LoopAccounting(r.sim, bi + 1, r.culls, r.hits, height, overlap);
          Compose(s.aliens, r.sim.aliens, f.sim.aliens);
          var p, q := Bounty(s.aliens, r.sim.aliens), Bounty(r.sim.aliens, f.sim.aliens);
          assert Bounty(s.aliens, f.sim.aliens) == p + q;
          assert m.aliens == s.aliens && m.score == s.score;
          assert r.sim.score == AddScore(s.score, p);
          assert f.sim.score == AddScore(AddScore(s.score, p), q);
          AddScoreChain(s.score, p, q, f.sim.score, Bounty(s.aliens, f.sim.aliens));
        } else {
          assert f == r;
        }
      }
    }
  }

  /** The frame-level statement: over one tick the live count drops by the
      culls plus the hits and never grows, aliens only die, the hits are the
      aliens that died, and the score increase is the sum of their awards. */
  lemma TickAccounting(s: Sim, height: u64, overlap: (Bullet, Alien) -> bool)
    requires s.WellFormed()
    ensures var r := Tick(s, height, overlap);
      && OnlyDie(s.aliens, r.sim.aliens)
      && r.sim.num == s.num - r.culls - r.hits
      && r.hits == Kills(s.aliens, r.sim.aliens)
      && r.sim.score == AddScore(s.score, Bounty(s.aliens, r.sim.aliens))
  {
    LoopAccounting(s, 0, 0, 0, height, overlap);
    LoopScore(s, 0, 0, 0, height, overlap);
  }

  // ---------------------------------------------------------------------
  // The cull branch, and when the hit branch underflows.

  /** The cull branch: a bullet that has left the area is overwritten by the
      last live bullet, the multiset of live bullets loses exactly the culled
      one, and the loop goes on at the same index, so the swapped-in bullet
      is the next one processed. */
  lemma CullStep(s: Sim, bi: nat, culls: nat, hits: nat, height: u64,
                 overlap: (Bullet, Alien) -> bool)
    requires s.WellFormed() && bi < s.num
    requires OutOfBounds(Advance(s.bullets[bi]).y, height)
    ensures var m := Moved(s, bi);
      var p := PopBullet(m, bi);
      && Loop(s, bi, culls, hits, height, overlap) == Loop(p, bi, culls + 1, hits, height, overlap)
      && p.num == s.num - 1
      && (bi < p.num ==> p.bullets[bi] == s.bullets[s.num - 1])
      && multiset(p.Live()) == multiset(s.Live()[bi := Advance(s.bullets[bi])]) - multiset{Advance(s.bullets[bi])}
  {
    var m := Moved(s, bi);
    RemoveAtLive(m.bullets, s.num, bi);
    assert m.Live() == s.Live()[bi := Advance(s.bullets[bi])];
  }

  /** A scan with no hit leaves the bullets as they were (and can only
      fault on an empty array); a scan with exactly one hit, from a slot
      that is not the last live one, puts the last live bullet into slot
      `bi`, drops one bullet and does not fault. */
  lemma {:induction false} ScanHitCount(s: Sim, bi: nat, ai: nat, culls: nat, hits: nat,
                                        overlap: (Bullet, Alien) -> bool)
    requires s.WellFormed() && bi < |s.bullets| && ai <= |s.aliens|
    ensures var r := Scan(s, bi, ai, culls, hits, overlap);
      && (r.hits == hits ==>
            r.sim.bullets == s.bullets && r.sim.num == s.num && (r.underflow ==> s.num == 0))
      && (r.hits == hits + 1 && bi + 1 < s.num ==>
            !r.underflow && r.sim.num == s.num - 1 && r.sim.bullets[bi] == s.bullets[s.num - 1])
    decreases |s.aliens| - ai
  {
    if ai < |s.aliens| {
      if s.aliens[ai].kind == Dead || !overlap(s.bullets[bi], s.aliens[ai]) {
        ScanHitCount(s, bi, ai + 1, culls, hits, overlap);
      } else if s.num > 0 {
        ScanHitCount(Hit(s, bi, ai), bi, ai + 1, culls, hits + 1, overlap);
      }
    }
  }

  /** A scan of slot `bi` writes no other slot. */
  lemma {:induction false} ScanKeepsOtherSlots(s: Sim, bi: nat, ai: nat, culls: nat, hits: nat,
                                               overlap: (Bullet, Alien) -> bool)
    requires s.WellFormed() && bi < |s.bullets| && ai <= |s.aliens|
    ensures var r := Scan(s, bi, ai, culls, hits, overlap);
      forall k :: 0 <= k < |s.bullets| && k != bi ==> r.sim.bullets[k] == s.bullets[k]
    decreases |s.aliens| - ai
  {
    if ai < |s.aliens| {
      if s.aliens[ai].kind == Dead || !overlap(s.bullets[bi], s.aliens[ai]) {
        ScanKeepsOtherSlots(s, bi, ai + 1, culls, hits, overlap);
      } else if s.num > 0 {
        ScanKeepsOtherSlots(Hit(s, bi, ai), bi, ai + 1, culls, hits + 1, overlap);
      }
    }
  }

  /** The loop from index `bi` on never writes a slot below `bi`. */
  lemma {:induction false} LoopKeepsPrefix(s: Sim, bi: nat, culls: nat, hits: nat, height: u64,
                                           overlap: (Bullet, Alien) -> bool)
    requires s.WellFormed() && bi <= |s.bullets|
    ensures var r := Loop(s, bi, culls, hits, height, overlap);
      forall k :: 0 <= k < bi ==> r.sim.bullets[k] == s.bullets[k]
    decreases if bi <= s.num then s.num - bi else 0
  {
    if bi < s.num {
      var m := Moved(s, bi);
      if OutOfBounds(m.bullets[bi].y, height) {
        LoopKeepsPrefix(PopBullet(m, bi), bi, culls + 1, hits, height, overlap);
      } else {
        var r := Scan(m, bi, 0, culls, hits, overlap);
        ScanKeepsOtherSlots(m, bi, 0, culls, hits, overlap);
        if !r.underflow {
          LoopKeepsPrefix(r.sim, bi + 1, r.culls, r.hits, height, overlap);
        }
      }
    }
  }

  /** The hit branch: when the scan of slot `bi` scores exactly one hit and
      `bi` is not the last live slot, the last live bullet lands in slot `bi`
      without being moved, the loop goes on at `bi + 1`, and slot `bi` is
      never written again: the swapped-in bullet is skipped for the frame. */
  lemma HitSkipsSwappedIn(s: Sim, bi: nat, culls: nat, hits: nat, height: u64,
                          overlap: (Bullet, Alien) -> bool)
    requires s.WellFormed() && bi + 1 < s.num
    requires !OutOfBounds(Advance(s.bullets[bi]).y, height)
    requires Scan(Moved(s, bi), bi, 0, culls, hits, overlap).hits == hits + 1
    ensures var r := Scan(Moved(s, bi), bi, 0, culls, hits, overlap);
      var f := Loop(s, bi, culls, hits, height, overlap);
      && !r.underflow
      && f == Loop(r.sim, bi + 1, r.culls, r.hits, height, overlap)
      && bi < r.sim.num && r.sim.bullets[bi] == s.bullets[s.num - 1]
      && f.sim.bullets[bi] == s.bullets[s.num - 1]
  {
    var m := Moved(s, bi);
    var r := Scan(m, bi, 0, culls, hits, overlap);
    ScanHitCount(m, bi, 0, culls, hits, overlap);
    assert m.bullets[s.num - 1] == s.bullets[s.num - 1];
    LoopKeepsPrefix(r.sim, bi + 1, r.culls, r.hits, height, overlap);
  }

  /** Number of live aliens in `a`. */
  function LiveCount(a: seq<Alien>): (n: nat)
    ensures n <= |a|
  {
    if a == [] then 0
    else (if a[0].kind != Dead then 1 else 0) + LiveCount(a[1..])
  }

  /** Deaths never add live aliens. */
  lemma {:induction false} LiveCountOnlyDie(a: seq<Alien>, b: seq<Alien>)
    requires OnlyDie(a, b)
    ensures LiveCount(b) <= LiveCount(a)
  {
    if a != [] {
      assert OnlyDie(a[1..], b[1..]);
      LiveCountOnlyDie(a[1..], b[1..]);
    }
  }

  /** Each hit of a scan takes one live alien and one live bullet, so the
      scan can only reach a hit with no bullet left when it has more live
      aliens ahead of it than there are live bullets. */
  lemma {:induction false} ScanUnderflowNeedsAliens(s: Sim, bi: nat, ai: nat, culls: nat, hits: nat,
                                                    overlap: (Bullet, Alien) -> bool)
    requires s.WellFormed() && bi < |s.bullets| && ai <= |s.aliens|
    ensures Scan(s, bi, ai, culls, hits, overlap).underflow ==> s.num < LiveCount(s.aliens[ai..])
    decreases |s.aliens| - ai
  {
    if ai < |s.aliens| {
      assert s.aliens[ai..][1..] == s.aliens[ai + 1..];
      if s.aliens[ai].kind == Dead || !overlap(s.bullets[bi], s.aliens[ai]) {
        ScanUnderflowNeedsAliens(s, bi, ai + 1, culls, hits, overlap);
      } else if s.num > 0 {
        var h := Hit(s, bi, ai);
        ScanUnderflowNeedsAliens(h, bi, ai + 1, culls, hits + 1, overlap);
        assert h.aliens[ai + 1..] == s.aliens[ai + 1..];
      }
    }
  }

  /** A scan starts with at least one live bullet, so the loop as written
      can only underflow when at least two aliens are alive: with at most
      one live alien a tick is always safe. */
  lemma {:induction false} LoopUnderflowNeedsTwoAliens(s: Sim, bi: nat, culls: nat, hits: nat, height: u64,
                                                       overlap: (Bullet, Alien) -> bool)
    requires s.WellFormed() && bi <= |s.bullets|
    ensures Loop(s, bi, culls, hits, height, overlap).underflow ==> 2 <= LiveCount(s.aliens)
    decreases if bi <= s.num then s.num - bi else 0
  {
    if bi < s.num {
      var m := Moved(s, bi);
      if OutOfBounds(m.bullets[bi].y, height) {
        LoopUnderflowNeedsTwoAliens(PopBullet(m, bi), bi, culls + 1, hits, height, overlap);
      } else {
        var r := Scan(m, bi, 0, culls, hits, overlap);
        ScanUnderflowNeedsAliens(m, bi, 0, culls, hits, overlap);
        assert m.aliens[0..] == s.aliens;
        if !r.underflow {
          LoopUnderflowNeedsTwoAliens(r.sim, bi + 1, r.culls, r.hits, height, overlap);
          ScanAccounting(m, bi, 0, culls, hits, overlap);
          LiveCountOnlyDie(s.aliens, r.sim.aliens);
        }
      }
    }
  }
}
