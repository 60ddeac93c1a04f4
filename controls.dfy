/** Keyboard steering of the player (scripts/game_backup.js): the four
    movement flags that `keyDown`/`keyUp` maintain, and the direction `update`
    derives from them before calling `move`. */
module Controls {

  /** Key codes of W, S, A and D. */
  const KeyW := 87
  const KeyS := 83
  const KeyA := 65
  const KeyD := 68

  /** The sign a pair of opposite keys gives an axis: -1 for the negative key
      alone, +1 for the positive key alone, 0 for neither or both. */
  predicate IsAxis(negative: bool, positive: bool, dir: int)
  {
    -1 <= dir <= 1 &&
    (dir == -1 <==> negative && !positive) &&
    (dir == 1 <==> positive && !negative) &&
    (dir == 0 <==> negative == positive)
  }

  /** The global flags `wKey`, `aKey`, `sKey`, `dKey`, all up at load time. */
  class Keys {
    var w: bool
    var a: bool
    var s: bool
    var d: bool

    constructor ()
      ensures !w && !a && !s && !d
    {
      w, a, s, d := false, false, false, false;
    }

    /** keyDown: W, S, A and D raise their flag; other codes change nothing. */
    method KeyDown(code: int)
      modifies this
      ensures w == (old(w) || code == KeyW)
      ensures s == (old(s) || code == KeyS)
      ensures a == (old(a) || code == KeyA)
      ensures d == (old(d) || code == KeyD)
    {
      if code == KeyW {
        w := true;
      } else if code == KeyS {
        s := true;
      } else if code == KeyA {
        a := true;
      } else if code == KeyD {
        d := true;
      }
    }

    /** keyUp: W, S, A and D lower their flag; other codes change nothing. */
    method KeyUp(code: int)
      modifies this
      ensures w == (old(w) && code != KeyW)
      ensures s == (old(s) && code != KeyS)
      ensures a == (old(a) && code != KeyA)
      ensures d == (old(d) && code != KeyD)
    {
      if code == KeyW {
        w := false;
      } else if code == KeyS {
        s := false;
      } else if code == KeyA {
        a := false;
      } else if code == KeyD {
        d := false;
      }
    }

    /** The direction part of update: W counts -1 and S +1 on the vertical
        axis, A -1 and D +1 on the horizontal one. */
    method Direction() returns (xDir: int, yDir: int)
      ensures IsAxis(a, d, xDir) && IsAxis(w, s, yDir)
    {
      xDir, yDir := 0, 0;
      if w { yDir := yDir - 1; }
      if s { yDir := yDir + 1; }
      if a { xDir := xDir - 1; }
      if d { xDir := xDir + 1; }
    }
  }

  /** keyUp undoes keyDown: pressing and then releasing a key leaves that key
      up and every other flag as it was before the press. */
  method PressRelease(keys: Keys, code: int)
    modifies keys
    ensures code == KeyW ==> !keys.w
    ensures code != KeyW ==> keys.w == old(keys.w)
    ensures code == KeyA ==> !keys.a
    ensures code != KeyA ==> keys.a == old(keys.a)
    ensures code == KeyS ==> !keys.s
    ensures code != KeyS ==> keys.s == old(keys.s)
    ensures code == KeyD ==> !keys.d
    ensures code != KeyD ==> keys.d == old(keys.d)
  {
    keys.KeyDown(code);
    keys.KeyUp(code);
  }
}
