/** The file-level globals of the demo (player position, the three input
    flags and the score), the key callback that sets the flags, and the
    per-frame update that `main` runs: player movement, the bullet
    simulation, and the fire-flag handling. */
module Controls {
  import opened Types
  import opened Simulation
  import opened Game

  const LEFT_BOUND: real := -0.9
  const RIGHT_BOUND: real := 0.9
  const PLAYER_SPEED: real := 0.05

  /** The keys and actions the callback distinguishes. */
  datatype Key = KeyRight | KeyLeft | KeySpace | OtherKey
  datatype Action = Press | Release | Repeat

  /** The three input flags. */
  datatype Input = Input(movingRight: bool, movingLeft: bool, firePressed: bool)

  /** What one key event does to the flags. At most one flag changes:
      RIGHT/LEFT press sets the matching movement flag and release clears
      it; SPACE release sets `fire_pressed`, which no key event clears; any
      other key or action changes nothing. */
  function KeyEvent(f: Input, key: Key, action: Action): (r: Input)
    ensures (r.movingLeft == f.movingLeft && r.firePressed == f.firePressed)
         || (r.movingRight == f.movingRight && r.firePressed == f.firePressed)
         || (r.movingRight == f.movingRight && r.movingLeft == f.movingLeft)
    ensures key == KeyRight && action == Press ==> r == f.(movingRight := true)
    ensures key == KeyRight && action == Release ==> r == f.(movingRight := false)
    ensures key == KeyLeft && action == Press ==> r == f.(movingLeft := true)
    ensures key == KeyLeft && action == Release ==> r == f.(movingLeft := false)
    ensures key == KeySpace && action == Release ==> r == f.(firePressed := true)
    ensures f.firePressed ==> r.firePressed
    ensures key == OtherKey || action == Repeat || (key == KeySpace && action == Press) ==> r == f
  {
    if key == KeyRight && action == Press then f.(movingRight := true)
    else if key == KeyRight && action == Release then f.(movingRight := false)
    else if key == KeyLeft && action == Press then f.(movingLeft := true)
    else if key == KeyLeft && action == Release then f.(movingLeft := false)
    else if key == KeySpace && action == Release then f.(firePressed := true)
    else f
  }

  /** The positions the player can reach: one step beyond either bound. */
  ghost predicate InBand(pos: real) {
    LEFT_BOUND - PLAYER_SPEED <= pos <= RIGHT_BOUND + PLAYER_SPEED
  }

  /** The movement block: each bound is tested at the position before that
      move, so the player can end up one step past it. */
  function MoveStep(pos: real, right: bool, left: bool): (r: real)
    ensures !right && !left ==> r == pos
    ensures right && !left ==> r == if pos <= RIGHT_BOUND then pos + PLAYER_SPEED else pos
    ensures left && !right ==> r == if pos >= LEFT_BOUND then pos - PLAYER_SPEED else pos
    ensures InBand(pos) ==> InBand(r)
  {
    var afterRight := if right && pos <= RIGHT_BOUND then pos + PLAYER_SPEED else pos;
    if left && afterRight >= LEFT_BOUND then afterRight - PLAYER_SPEED else afterRight
  }

  /** The position after one movement step per frame, with the flags as
      given for each frame. */
  function MoveTicks(pos: real, frames: seq<Input>): (r: real)
    decreases |frames|
  {
    if frames == [] then pos
    else MoveTicks(MoveStep(pos, frames[0].movingRight, frames[0].movingLeft), frames[1..])
  }

  /** From a position in the band the player stays in it for any number of
      frames, whatever the flags (both may be set). */
  lemma {:induction false} StaysInBand(pos: real, frames: seq<Input>)
    requires InBand(pos)
    ensures InBand(MoveTicks(pos, frames))
    decreases |frames|
  {
    if frames != [] {
      StaysInBand(MoveStep(pos, frames[0].movingRight, frames[0].movingLeft), frames[1..]);
    }
  }

  /** Past the right bound, holding only RIGHT leaves the player where it is. */
  lemma {:induction false} StuckPastRight(pos: real, frames: seq<Input>)
    requires pos > RIGHT_BOUND
    requires forall i :: 0 <= i < |frames| ==> frames[i].movingRight && !frames[i].movingLeft
    ensures MoveTicks(pos, frames) == pos
    decreases |frames|
  {
    if frames != [] {
      StuckPastRight(pos, frames[1..]);
    }
  }

  /** From exactly the right bound, holding RIGHT overshoots by exactly one
      step on the first frame and moves no further after that. */
  lemma {:induction false} OvershootAtRightBound(frames: seq<Input>)
    requires frames != []
    requires forall i :: 0 <= i < |frames| ==> frames[i].movingRight && !frames[i].movingLeft
    ensures MoveTicks(RIGHT_BOUND, frames) == RIGHT_BOUND + PLAYER_SPEED
  {
    StuckPastRight(RIGHT_BOUND + PLAYER_SPEED, frames[1..]);
  }

  /** The globals of the program. */
  class Controls {
    var playerPos: real
    var movingRight: bool
    var movingLeft: bool
    var firePressed: bool
    var score: u64

    function Flags(): (f: Input)
      reads this
    {
      Input(movingRight, movingLeft, firePressed)
    }

    /** The globals' initial values: all zero or false. */
    constructor ()
      ensures playerPos == 0.0 && score == 0
      ensures Flags() == Input(false, false, false)
    {
      playerPos := 0.0;
      movingRight := false;
      movingLeft := false;
      firePressed := false;
      score := 0;
    }

    /** `key_callback`: the flags change as KeyEvent says, nothing else does. */
    method KeyCallback(key: Key, action: Action)
      modifies this
      ensures Flags() == KeyEvent(old(Flags()), key, action)
      ensures playerPos == old(playerPos) && score == old(score)
    {
      if key == KeyRight && action == Press {
        movingRight := true;
      } else if key == KeyRight && action == Release {
        movingRight := false;
      } else if key == KeyLeft && action == Press {
        movingLeft := true;
      } else if key == KeyLeft && action == Release {
        movingLeft := false;
      } else if key == KeySpace && action == Release {
        firePressed := true;
      }
    }

    /** The movement block at the top of the frame. */
    method MovePlayer()
      modifies this`playerPos
      ensures playerPos == MoveStep(old(playerPos), movingRight, movingLeft)
    {
      if movingRight && playerPos <= RIGHT_BOUND {
        playerPos := playerPos + PLAYER_SPEED;
      }
      if movingLeft && playerPos >= LEFT_BOUND {
        playerPos := playerPos - PLAYER_SPEED;
      }
    }

    /** The fire handling after the simulation: the flag is only reported
        (on standard output, which is not modelled) and always cleared. No
        bullet is spawned. */
    method HandleFire()
      modifies this`firePressed
      ensures !firePressed
    {
      firePressed := false;
    }

    /** The game-state part of one frame of `main`: move the player, run the
        bullet simulation (accumulating into the global score), then clear
        the fire flag. When the simulation stops at a `num_bullets`
        underflow the frame stops there too. */
    method Frame(game: Game, overlap: (Bullet, Alien) -> bool) returns (ok: bool)
      requires game.Valid()
      modifies this, game`numBullets, game.bullets, game.aliens
      ensures game.Valid()
      ensures movingRight == old(movingRight) && movingLeft == old(movingLeft)
      ensures playerPos == MoveStep(old(playerPos), movingRight, movingLeft)
      ensures var r := Tick(old(game.State(score)), game.height, overlap);
        game.State(score) == r.sim && ok == !r.underflow
      ensures ok ==> !firePressed
      ensures !ok ==> firePressed == old(firePressed)
    {
      MovePlayer();
      var newScore;
      newScore, ok := game.SimulateBullets(score, overlap);
      score := newScore;
      if !ok {
        return;
      }
      HandleFire();
    }
  }
}
