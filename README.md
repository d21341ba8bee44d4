# Space Invaders demo: the per-frame game-state update

This project models the game-state part of the Space Invaders demo, in
`tutorial02.cpp`. The state is a `Game` record with:
- a fixed array of 128 bullet slots, whose first `num_bullets` slots are live;
- an array of `num_aliens` aliens, each of which is dead or of type A, B or C.

Beside it the program keeps globals: the player position, three input flags
and a `size_t` score. Each frame, `main` does three things in order:
1. It moves the player according to the flags.
2. It runs one loop over the live bullet slots. The index is advanced by hand,
   and the bullets are taken one slot at a time:
   - The bullet is moved by its signed `dir`.
   - If it has left the area (`y >= height`), it is removed by swap-and-pop,
     and the same index is examined again.
   - Otherwise, the live aliens are scanned. On each overlap, the loop awards
     `10 * (4 - type)` points, kills the alien, and swap-pops slot `bi`: the
     last live bullet is copied into slot `bi` and `num_bullets` drops by
     one. Once `bi` is past the live prefix, that removes the last live
     bullet instead of the one that hit. The scan then goes on with the
     aliens after the one that was hit, tested against whatever bullet now
     sits in slot `bi`, and that bullet can be hit in turn. After the scan,
     the index moves on.

   So after a scan with a hit, the bullet in slot `bi` when the scan ends
   is neither moved nor tested against the area in that frame. It was
   tested only against the aliens after the last hit, and `++bi` passes
   over it (`Simulation.HitSkipsSwappedIn`). A scan with several hits can
   also remove bullets other than the one that hit, and a further hit can
   find no live bullet left. The skipped bullet and the empty-array hit are
   listed under "Findings".
3. It clears the fire flag. The GLFW key callback sets this flag, together
   with the two movement flags.

The model is split into five modules:
- `Types` holds the records and the machine-integer arithmetic. `size_t` is
  an unsigned 64-bit integer that wraps around, and `int` is a 32-bit signed
  integer.
- `Simulation` gives the bullet loop as a value-level specification that
  follows the source's control flow exactly. It also holds the lemmas about
  that loop: aliens only die, the bullet count is accounted for, the score
  is accounted for, the cull step, the hit step that skips the swapped-in
  bullet, and when a hit can underflow.
- `Game` is the `Game` record as a class with arrays. Its methods
  `SimulateBullets` and `ScanAliens` are the source's nested loops. They are
  proved equal to the specification.
- `Controls` holds the globals, `key_callback`, the movement block, the fire
  handling, and one frame (`Frame`).
- `Intended` is the bullet loop as its structure evidently intends it: stop
  the scan after a hit, then look at the same slot again. It also holds the
  lemmas showing where the loop as written differs (see "Findings").
  `Game.Game.SimulateBulletsIntended` is that loop over the arrays. It is a
  deliberate deviation from the source. `Controls.Controls.Frame` still runs
  the loop as written, because it models `main` as it is.

Inputs the source never sets, or gets from outside, are parameters of the
model:
- the window `height`;
- the aliens' initial positions and types;
- the `overlap` flag, which is declared at line 303 and never computed. It is
  modelled as an arbitrary predicate `overlap(bullet, alien)`.

Player positions are `real`.

A hit with `num_bullets == 0` would compute `num_bullets - 1`, which wraps
around, and then read outside the array. The model does not go on past that
point: it reports the step as a failure outcome (`underflow`, or `ok ==
false`), and the state is the one just before that hit.

## Model

| member | source | states |
|---|---|---|
| Types.AlienType.Code | tutorial02.cpp:63-69 | the enumerator values are 0..3, and 0 is exactly ALIEN_DEAD |
| Types.Award | tutorial02.cpp:308-309 | a kill of type A, B or C is worth 30, 20 or 10 points; the 40 of the comment cannot occur because dead aliens are never scored |
| Types.AddScore | tutorial02.cpp:37 | adding to the `size_t` score is addition modulo 2^64, and exact when there is no overflow |
| Types.AddScoreTwice | tutorial02.cpp:309 | two successive additions to the score equal one addition of their sum, wrap-around included |
| Types.Advance | tutorial02.cpp:287 | `y += dir` keeps `x` and `dir`, and gives `y + dir` when that is in range, `y + dir + 2^64` below 0 and `y + dir - 2^64` above the range |
| Types.OutOfBounds | tutorial02.cpp:288-289 | the cull test holds exactly when `y >= height`, because `y < 0` never holds for an unsigned value |
| Types.WrappedBulletIsCulled | tutorial02.cpp:287-289 | a bullet moved below 0 by a negative `dir` wraps to at least 2^64 + dir and is culled whenever `height <= 2^64 + dir` |
| Types.RemoveAt | tutorial02.cpp:291-292 | swap-and-pop keeps the array's length |
| Types.RemoveAtLive | tutorial02.cpp:291-292 | after swap-and-pop, slot `i` holds the last live bullet and every other slot is unchanged; the live prefix, as a multiset, loses exactly the removed bullet |
| Simulation.PopBullet | tutorial02.cpp:291-292 | removing a bullet lowers the live count by one and leaves the aliens and the score alone |
| Simulation.Hit | tutorial02.cpp:306-313 | a hit adds the alien's award to the score, marks exactly that alien dead, and moves the last live bullet into slot `bi` |
| Simulation.Moved | tutorial02.cpp:287 | moving a bullet changes only its own slot |
| Simulation.Scan | tutorial02.cpp:297-316 | the alien scan never adds live bullets, keeps the live count within the array and the array lengths fixed, and leaves the cull count alone |
| Simulation.Loop | tutorial02.cpp:285-318 | the bullet loop never adds bullets, never lowers the counters, and keeps the array lengths |
| Simulation.Tick | tutorial02.cpp:285-318 | one frame of the bullet simulation never adds live bullets and keeps the array lengths |
| Simulation.OneKill | tutorial02.cpp:309-310 | killing one live alien is one kill, worth its award, and changes nothing else about the aliens |
| Simulation.Compose | tutorial02.cpp:297-316 | the deaths and the awards of two stretches of the simulation add up |
| Simulation.ScanAccounting | tutorial02.cpp:297-316 | in a scan aliens only die, each hit removes one live bullet, and the hits equal the aliens that died |
| Simulation.ScanScore | tutorial02.cpp:308-310 | in a scan the score grows, modulo 2^64, by the awards of the aliens that died |
| Simulation.LoopAccounting | tutorial02.cpp:285-318 | in the loop aliens only die, live bullets + culls + hits is constant, and the hits equal the aliens that died |
| Simulation.LoopScore | tutorial02.cpp:285-318 | in the loop the score grows, modulo 2^64, by exactly the awards of the aliens that died |
| Simulation.TickAccounting | tutorial02.cpp:285-318 | over a frame aliens only die (positions and count kept, dead stays dead), the final count is the initial count minus culls minus hits, the hits are the aliens that died, and the score rises by their awards |
| Simulation.CullStep | tutorial02.cpp:287-293 | a culled bullet is overwritten by the last live bullet, the live multiset loses exactly the culled bullet, and the loop goes on at the same index with the swapped-in bullet |
| Simulation.Bounty | tutorial02.cpp:308-310 | the awards of the aliens that died total at most 30 points per kill |
| Simulation.ScanHitCount | tutorial02.cpp:297-316 | a scan without hits leaves the bullets alone and faults only on an empty array; a scan with exactly one hit, from a slot that is not the last live one, puts the last live bullet into the slot, removes one bullet, and does not fault |
| Simulation.ScanKeepsOtherSlots | tutorial02.cpp:297-316 | the scan of slot `bi` writes no other bullet slot |
| Simulation.LoopKeepsPrefix | tutorial02.cpp:285-318 | the loop from index `bi` on never writes a slot below `bi` |
| Simulation.HitSkipsSwappedIn | tutorial02.cpp:306-317 | after a scan with exactly one hit, the last live bullet sits unmoved in slot `bi`, the loop goes on at `bi + 1` (`++bi`), and slot `bi` still holds that unmoved bullet when the frame ends |
| Simulation.LiveCountOnlyDie | tutorial02.cpp:310 | killing aliens never increases the number of live aliens |
| Simulation.ScanUnderflowNeedsAliens | tutorial02.cpp:306-314 | a scan reaches a hit with no bullet left only when more live aliens are ahead of it than there are live bullets |
| Simulation.LoopUnderflowNeedsTwoAliens | tutorial02.cpp:285-318 | the loop as written can underflow only when at least two aliens are alive, so with at most one live alien a frame is safe |
| Game.Game.State | tutorial02.cpp:87-94 | the game record seen as a value keeps its live count within the 128 slots |
| Game.Game.constructor | tutorial02.cpp:195-200 | start-up sets 55 aliens, no live bullets and three lives, and a 128-slot array |
| Game.Game.SimulateBullets | tutorial02.cpp:285-318 | the arrays, the count and the score after the nested loop are exactly the specification `Tick` of the state before it, and `ok` is false exactly when it underflows |
| Game.Game.ScanAliens | tutorial02.cpp:297-316 | the arrays, the count and the score after the alien loop are exactly the specification `Scan`, and `ok` is false exactly when it underflows |
| Game.Game.SimulateBulletsIntended | tutorial02.cpp:285-318 | the intended loop over the arrays yields exactly `Intended.TickIntended` of the state before it |
| Game.Game.FindTarget | tutorial02.cpp:297-306 | returns the first live alien that overlaps the slot (`Intended.FirstHit`), or `num_aliens` when there is none |
| Controls.KeyEvent | tutorial02.cpp:96-112 | a key event changes at most one flag; RIGHT or LEFT press sets its flag and release clears it; SPACE release sets the fire flag; nothing clears the fire flag; other keys and actions change nothing |
| Controls.MoveStep | tutorial02.cpp:210-216 | a right or left move happens only from a position at most `rightBound` or at least `leftBound`, by exactly `playerSpeed`, and the band one step beyond the bounds is kept |
| Controls.StaysInBand | tutorial02.cpp:210-216 | from a position in [leftBound - speed, rightBound + speed] the player stays in that band for any sequence of frames, whichever flags are set |
| Controls.StuckPastRight | tutorial02.cpp:210-212 | past the right bound, holding only RIGHT leaves the position unchanged |
| Controls.OvershootAtRightBound | tutorial02.cpp:210-212 | from exactly `rightBound`, holding RIGHT overshoots by exactly one `playerSpeed` and then stops |
| Controls.Controls.constructor | tutorial02.cpp:29-38 | the globals start at position 0, score 0 and all flags false |
| Controls.Controls.KeyCallback | tutorial02.cpp:96-112 | the flags change exactly as `KeyEvent` says, and the position and score are unchanged |
| Controls.Controls.MovePlayer | tutorial02.cpp:210-216 | the position is updated exactly as `MoveStep` says |
| Controls.Controls.HandleFire | tutorial02.cpp:321-324 | the fire flag is false afterwards, whatever it was before |
| Controls.Controls.Frame | tutorial02.cpp:202-324 | a frame moves the player by `MoveStep`, leaves the movement flags alone, updates the game and the score exactly as `Tick`, and clears the fire flag unless the simulation underflowed |
| Intended.FirstHit | tutorial02.cpp:297-306 | the first live alien from `ai` on that overlaps the bullet; none is skipped, and `None` means that no live alien overlaps |
| Intended.LoopIntended | tutorial02.cpp:285-318 | the intended loop never underflows and never adds live bullets |
| Intended.TickIntended | tutorial02.cpp:285-318 | one intended frame never underflows and never adds live bullets |
| Intended.LoopMovesOnce | tutorial02.cpp:285-318 | in the intended loop, every bullet live at the end is a bullet already passed, or a pending bullet moved once |
| Intended.SurvivorsMovedOnce | tutorial02.cpp:285-318 | after an intended frame, the live bullets, as a multiset, are contained in the bullets live before it, each moved exactly once |
| Intended.IntendedAccounting | tutorial02.cpp:285-318 | the intended loop keeps the bullet and kill accounting: aliens only die, live + culls + hits is constant, and the hits are the kills |
| Intended.IntendedScore | tutorial02.cpp:308-310 | in the intended loop the score grows by exactly the awards of the aliens that died |
| Intended.TickIntendedAccounting | tutorial02.cpp:285-318 | over an intended frame the same accounting holds as for the loop as written |
| Intended.WrittenSkipsSwappedInBullet | tutorial02.cpp:312-317 | with two bullets and one overlapping alien, the loop as written leaves the second bullet live but unmoved, while the intended loop moves it |
| Intended.WrittenUnderflows | tutorial02.cpp:312-313 | with one bullet and two overlapping live aliens, the loop as written underflows, while the intended loop scores 30 and is safe |

## Left out

- Window, context, shader, texture and model loading, buffer uploads, matrix
  math and all drawing (tutorial02.cpp:116-194, 205-208, 218-265, 326-345) are
  left out. They are foreign graphics calls.
- The draw helpers `draw_triangle`, `draw_right_triangle`, `draw_square` and
  `draw_cube` are left out. They only render.
- The draw loops over aliens and bullets (tutorial02.cpp:268-282) are left out
  because their bodies are empty. The test `!type == ALIEN_DEAD` at line 271
  parses as `(!type) == 0`, so it would skip the live aliens, against its
  comment. It has no effect on the state.
- Printing "bang" (tutorial02.cpp:322) is output and is not modelled. Only the
  clearing of the flag is.
- The player position and its constants are `float` in the source but `real`
  in the model. IEEE rounding is not modelled.
- The frame loop's exit test (ESC or window closed, lines 331-332) and
  `glfwPollEvents` are not modelled. The key callback is a separate method that
  can run between any two frames.
- `Game.Game.constructor` takes the window size and the aliens' contents as
  parameters, because the source leaves them uninitialised. It also sets the
  bullet slots and the player's `x` and `y` to zero, which the source leaves
  uninitialised too. No live slot exists at start-up, and the player's
  position in the record is never read, so no contract depends on these
  values.
- `Controls.Controls.Frame`: when a hit underflows, the model only reports it
  and stops there. What the program does past that point (it reads slot
  `SIZE_MAX` and wraps `num_bullets`) is undefined behaviour and is not
  modelled.
- Alien `type` values outside 0..3 are not modelled. The type is an `int` in
  the source, but the model uses an enumeration of the four kinds.
- `overlap` is an arbitrary predicate of the bullet and the alien. In the
  source it is an uninitialised local, so the model says nothing about
  collision geometry.
- The source has no code for firing a bullet, losing a life or spawning
  aliens, so the model has none either.

## Findings

| source | as written | input that shows it | evidently intended | confidence | as-written member | corrected member |
|---|---|---|---|---|---|---|
| tutorial02.cpp:312-317 | after a hit, the `continue` resumes the alien loop and `++bi` still runs, so the bullet in slot `bi` when the scan ends is not moved and not tested against the area in that frame; it was tested only against the aliens after the last hit, and `++bi` passes over it (`Simulation.HitSkipsSwappedIn`) | bullets (0,10,+1) and (5,10,+1), one live type-A alien, overlap always true, height 100 | stop the scan after a hit and look at slot `bi` again, so every surviving bullet moves once per frame | not executed | Intended.WrittenSkipsSwappedInBullet | Intended.SurvivorsMovedOnce |
| tutorial02.cpp:312-313 | the scan goes on after the last live bullet was removed, and a further hit computes `num_bullets - 1` on 0 | one bullet (0,10,+1), two live aliens, overlap always true, height 100 | at most one hit per bullet, so a hit always has a live bullet to remove | not executed | Intended.WrittenUnderflows | Intended.LoopIntended |
