/** The bullet loop as its comments and structure evidently intend it: after
    a hit the alien scan stops (one bullet kills at most one alien) and the
    same slot is examined again, since the swap just moved an unprocessed
    bullet into it. This is a deviation from the loop as written, which
    Simulation models; the lemmas at the end show where the two differ. */
module Intended {
  import opened Types
  import opened Simulation

  datatype Option<T> = None | Some(value: T)

  /** The first live alien, from `ai` on, that overlaps bullet `b`. */
  function FirstHit(b: Bullet, aliens: seq<Alien>, ai: nat, overlap: (Bullet, Alien) -> bool): (r: Option<nat>)
    requires ai <= |aliens|
    ensures r.Some? ==>
      && ai <= r.value < |aliens|
      && aliens[r.value].kind != Dead && overlap(b, aliens[r.value])
    ensures r.Some? ==> forall k :: ai <= k < r.value ==>
      aliens[k].kind == Dead || !overlap(b, aliens[k])
    ensures r.None? ==> forall k :: ai <= k < |aliens| ==>
      aliens[k].kind == Dead || !overlap(b, aliens[k])
    decreases |aliens| - ai
  {
    if ai == |aliens| then None
    else if aliens[ai].kind != Dead && overlap(b, aliens[ai]) then Some(ai)
    else FirstHit(b, aliens, ai + 1, overlap)
  }

  /** The intended loop: a slot is re-examined after any removal and the
      index only advances past a bullet that stays. A hit always has a live
      bullet to remove, so it never underflows. */
  function LoopIntended(s: Sim, bi: nat, culls: nat, hits: nat, height: u64,
                        overlap: (Bullet, Alien) -> bool): (r: Outcome)
    requires s.WellFormed() && bi <= s.num
    ensures r.sim.WellFormed() && |r.sim.bullets| == |s.bullets| && |r.sim.aliens| == |s.aliens|
    ensures r.sim.num <= s.num && !r.underflow
    decreases s.num - bi
  {
    if bi == s.num then Outcome(s, culls, hits, false)
    else
      var m := Moved(s, bi);
      if OutOfBounds(m.bullets[bi].y, height) then
        LoopIntended(PopBullet(m, bi), bi, culls + 1, hits, height, overlap)
      else
        match FirstHit(m.bullets[bi], m.aliens, 0, overlap)
        case None => LoopIntended(m, bi + 1, culls, hits, height, overlap)
        case Some(ai) => LoopIntended(Hit(m, bi, ai), bi, culls, hits + 1, height, overlap)
  }

  function TickIntended(s: Sim, height: u64, overlap: (Bullet, Alien) -> bool): (r: Outcome)
    requires s.WellFormed()
    ensures r.sim.WellFormed() && r.sim.num <= s.num && !r.underflow
  {
    LoopIntended(s, 0, 0, 0, height, overlap)
  }

  // ---------------------------------------------------------------------
  // Every surviving bullet has been moved exactly once.

  /** Each bullet of `bs` moved by one step. */
  function AdvanceAll(bs: seq<Bullet>): (r: seq<Bullet>)
    ensures |r| == |bs| && forall i :: 0 <= i < |bs| ==> r[i] == Advance(bs[i])
  {
    seq(|bs|, i requires 0 <= i < |bs| => Advance(bs[i]))
  }

  lemma AdvanceAllAppend(a: seq<Bullet>, b: seq<Bullet>)
    ensures AdvanceAll(a + b) == AdvanceAll(a) + AdvanceAll(b)
  {
  }

  /** The bullets of `s` as they will be once the loop has been over them:
      slots before `bi` are done, the live slots from `bi` on are still to
      be moved. */
  ghost function Pending(s: Sim, bi: nat): (pending: multiset<Bullet>)
    requires s.WellFormed() && bi <= s.num
  {
    multiset(s.bullets[..bi]) + multiset(AdvanceAll(s.bullets[bi..s.num]))
  }

  /** Moving slot `bi` and then removing it (a cull or a hit) only takes a
      bullet out of what is pending. */
  lemma PendingAfterRemoval(s: Sim, bi: nat)
    requires s.WellFormed() && bi < s.num
    ensures var p := PopBullet(Moved(s, bi), bi);
      bi <= p.num && Pending(p, bi) <= Pending(s, bi)
  {
    var t := s.bullets;
    var num := s.num;
    var mm := Moved(s, bi).bullets;
    var p := PopBullet(Moved(s, bi), bi);
    assert p.bullets == mm[bi := mm[num - 1]];
    assert p.bullets[..bi] == t[..bi];
    assert t[bi..num] == [t[bi]] + t[bi + 1..num];
    AdvanceAllAppend([t[bi]], t[bi + 1..num]);
    if bi < num - 1 {
      assert t[bi + 1..num] == t[bi + 1..num - 1] + [t[num - 1]];
      assert p.bullets[bi..num - 1] == [t[num - 1]] + t[bi + 1..num - 1];
      AdvanceAllAppend([t[num - 1]], t[bi + 1..num - 1]);
      AdvanceAllAppend(t[bi + 1..num - 1], [t[num - 1]]);
    } else {
      assert p.bullets[bi..num - 1] == [];
    }
  }

  /** Keeping slot `bi` after moving it leaves what is pending unchanged. */
  lemma PendingAfterKeep(s: Sim, bi: nat)
    requires s.WellFormed() && bi < s.num
    ensures Pending(Moved(s, bi), bi + 1) == Pending(s, bi)
  {
    var t := s.bullets;
    var m := Moved(s, bi);
    assert m.bullets[..bi + 1] == t[..bi] + [Advance(t[bi])];
    assert m.bullets[bi + 1..s.num] == t[bi + 1..s.num];
    assert t[bi..s.num] == [t[bi]] + t[bi + 1..s.num];
    AdvanceAllAppend([t[bi]], t[bi + 1..s.num]);
  }

  lemma {:induction false} LoopMovesOnce(s: Sim, bi: nat, culls: nat, hits: nat, height: u64,
                                         overlap: (Bullet, Alien) -> bool)
    requires s.WellFormed() && bi <= s.num
    ensures multiset(LoopIntended(s, bi, culls, hits, height, overlap).sim.Live()) <= Pending(s, bi)
    decreases s.num - bi
  {
    if bi == s.num {
      assert s.bullets[bi..s.num] == [];
    } else {
      var m := Moved(s, bi);
      if OutOfBounds(m.bullets[bi].y, height) {
        LoopMovesOnce(PopBullet(m, bi), bi, culls + 1, hits, height, overlap);
        PendingAfterRemoval(s, bi);
      } else {
        match FirstHit(m.bullets[bi], m.aliens, 0, overlap)
        case None =>
          LoopMovesOnce(m, bi + 1, culls, hits, height, overlap);
          PendingAfterKeep(s, bi);
        case Some(ai) =>
          var h := Hit(m, bi, ai);
          LoopMovesOnce(h, bi, culls, hits + 1, height, overlap);
          PendingAfterRemoval(s, bi);
          assert Pending(h, bi) == Pending(PopBullet(m, bi), bi);
      }
    }
  }

  /** In the intended loop every bullet still live after the frame is one
      of the bullets live before it, moved by exactly one step. */
  lemma SurvivorsMovedOnce(s: Sim, height: u64, overlap: (Bullet, Alien) -> bool)
    requires s.WellFormed()
    ensures multiset(TickIntended(s, height, overlap).sim.Live()) <= multiset(AdvanceAll(s.Live()))
  {
    LoopMovesOnce(s, 0, 0, 0, height, overlap);
    assert s.bullets[..0] == [];
  }

  // ---------------------------------------------------------------------
  // The intended loop keeps the accounting of the loop as written.

  lemma {:induction false} IntendedAccounting(s: Sim, bi: nat, culls: nat, hits: nat, height: u64,
                                              overlap: (Bullet, Alien) -> bool)
    requires s.WellFormed() && bi <= s.num
    ensures var r := LoopIntended(s, bi, culls, hits, height, overlap);
      && OnlyDie(s.aliens, r.sim.aliens)
      && r.sim.num + r.culls + r.hits == s.num + culls + hits
      && r.hits == hits + Kills(s.aliens, r.sim.aliens)
    decreases s.num - bi
  {
    if bi == s.num {
      NoChange(s.aliens);
    } else {
      var m := Moved(s, bi);
      if OutOfBounds(m.bullets[bi].y, height) {
        IntendedAccounting(PopBullet(m, bi), bi, culls + 1, hits, height, overlap);
      } else {
        match FirstHit(m.bullets[bi], m.aliens, 0, overlap)
        case None =>
          IntendedAccounting(m, bi + 1, culls, hits, height, overlap);
        case Some(ai) =>
          var h := Hit(m, bi, ai);
          var r := LoopIntended(h, bi, culls, hits + 1, height, overlap);
          IntendedAccounting(h, bi, culls, hits + 1, height, overlap);
          OneKill(s.aliens, ai);
          Compose(s.aliens, h.aliens, r.sim.aliens);
      }
    }
  }

  lemma {:induction false} IntendedScore(s: Sim, bi: nat, culls: nat, hits: nat, height: u64,
                                         overlap: (Bullet, Alien) -> bool)
    requires s.WellFormed() && bi <= s.num
    ensures var r := LoopIntended(s, bi, culls, hits, height, overlap);
      r.sim.score == AddScore(s.score, Bounty(s.aliens, r.sim.aliens))
    decreases s.num - bi
  {
    if bi == s.num {
      NoChange(s.aliens);
      AddScoreZero(s.score);
    } else {
      var m := Moved(s, bi);
      if OutOfBounds(m.bullets[bi].y, height) {
        IntendedScore(PopBullet(m, bi), bi, culls + 1, hits, height, overlap);
      } else {
        match FirstHit(m.bullets[bi], m.aliens, 0, overlap)
        case None =>
          IntendedScore(m, bi + 1, culls, hits, height, overlap);
        case Some(ai) =>
          var h := Hit(m, bi, ai);
          var r := LoopIntended(h, bi, culls, hits + 1, height, overlap);
          IntendedScore(h, bi, culls, hits + 1, height, overlap);
          IntendedAccounting(h, bi, culls, hits + 1, height, overlap);
          OneKill(s.aliens, ai);
          Compose(s.aliens, h.aliens, r.sim.aliens);
          var p, q := Award(s.aliens[ai].kind), Bounty(h.aliens, r.sim.aliens);
          assert Bounty(s.aliens, r.sim.aliens) == p + q;
          AddScoreChain(s.score, p, q, r.sim.score, Bounty(s.aliens, r.sim.aliens));
      }
    }
  }

  /** Over one intended frame: aliens only die, the live count drops by the
      culls plus the hits, the hits are the aliens that died, and the score
      grows by their awards. */
  lemma TickIntendedAccounting(s: Sim, height: u64, overlap: (Bullet, Alien) -> bool)
    requires s.WellFormed()
    ensures var r := TickIntended(s, height, overlap);
      && OnlyDie(s.aliens, r.sim.aliens)
      && r.sim.num == s.num - r.culls - r.hits
      && r.hits == Kills(s.aliens, r.sim.aliens)
      && r.sim.score == AddScore(s.score, Bounty(s.aliens, r.sim.aliens))
  {
    IntendedAccounting(s, 0, 0, 0, height, overlap);
    IntendedScore(s, 0, 0, 0, height, overlap);
  }

  // ---------------------------------------------------------------------
  // Where the loop as written differs.

  /** Two bullets and one live alien that overlaps everything. As written,
      the first bullet kills the alien, the second is swapped into slot 0,
      and `++bi` then ends the loop: the second bullet survives the frame
      without having moved. The intended loop moves it. */
  lemma WrittenSkipsSwappedInBullet()
    ensures var b0, b1 := Bullet(0, 10, 1), Bullet(5, 10, 1);
      var s := Sim([b0, b1], 2, [Alien(0, 0, TypeA)], 0);
      var all := (b: Bullet, a: Alien) => true;
      && Tick(s, 100, all).sim.Live() == [b1]
      && b1 !in multiset(AdvanceAll(s.Live()))
      && TickIntended(s, 100, all).sim.Live() == [Advance(b1)]
  {
    var b0, b1 := Bullet(0, 10, 1), Bullet(5, 10, 1);
    var s := Sim([b0, b1], 2, [Alien(0, 0, TypeA)], 0);
    var all := (b: Bullet, a: Alien) => true;
    var m := Moved(s, 0);
    assert m.bullets == [Bullet(0, 11, 1), b1];
    var h := Hit(m, 0, 0);
    assert h.bullets == [b1, b1] && h.num == 1 && h.aliens == [Alien(0, 0, Dead)];
    assert Scan(h, 0, 1, 0, 1, all) == Outcome(h, 0, 1, false);
    assert Scan(m, 0, 0, 0, 0, all) == Outcome(h, 0, 1, false);
    assert Loop(h, 1, 0, 1, 100, all) == Outcome(h, 0, 1, false);
    assert Tick(s, 100, all).sim == h;
    assert h.Live() == [b1];
    assert AdvanceAll(s.Live()) == [Bullet(0, 11, 1), Bullet(5, 11, 1)];
    assert FirstHit(m.bullets[0], m.aliens, 0, all) == Some(0);
    var m2 := Moved(h, 0);
    assert m2.bullets == [Bullet(5, 11, 1), b1];
    assert FirstHit(m2.bullets[0], m2.aliens, 0, all) == None;
    assert LoopIntended(m2, 1, 0, 1, 100, all).sim == m2;
    assert LoopIntended(h, 0, 0, 1, 100, all) == LoopIntended(m2, 1, 0, 1, 100, all);
    assert LoopIntended(s, 0, 0, 0, 100, all) == LoopIntended(h, 0, 0, 1, 100, all);
    assert TickIntended(s, 100, all).sim == m2;
    assert m2.Live() == [Advance(b1)];
  }

  /** One bullet and two live aliens that overlap everything. As written,
      the first hit removes the only bullet and the second hit then finds
      `num_bullets == 0`: the source would compute `num_bullets - 1` =
      SIZE_MAX and read past the array. The intended loop stops scanning
      after the first hit. */
  lemma WrittenUnderflows()
    ensures var s := Sim([Bullet(0, 10, 1)], 1, [Alien(0, 0, TypeA), Alien(1, 0, TypeB)], 0);
      var all := (b: Bullet, a: Alien) => true;
      && Tick(s, 100, all).underflow
      && !TickIntended(s, 100, all).underflow
      && TickIntended(s, 100, all).sim.score == 30
  {
    var s := Sim([Bullet(0, 10, 1)], 1, [Alien(0, 0, TypeA), Alien(1, 0, TypeB)], 0);
    var all := (b: Bullet, a: Alien) => true;
    var m := Moved(s, 0);
    var h := Hit(m, 0, 0);
    assert h.num == 0;
    assert Scan(h, 0, 1, 0, 1, all).underflow;
    assert Scan(m, 0, 0, 0, 0, all).underflow;
    assert FirstHit(m.bullets[0], m.aliens, 0, all) == Some(0);
    assert LoopIntended(h, 0, 0, 1, 100, all).sim == h;
    assert h.score == 30;
  }
}
