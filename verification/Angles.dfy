/** Rounding and bearings, in ideal arithmetic. */
module Angles {

  /** `std::lround`: nearest integer, halves away from zero. */
  function Round(x: real): int {
    if x >= 0.0 then (x + 0.5).Floor else -((0.5 - x).Floor)
  }

  lemma RoundIsNearest(x: real)
    ensures Round(x) as real - 0.5 <= x <= Round(x) as real + 0.5
  {
  }

  function Truncated(x: real): int {
    if x >= 0.0 then x.Floor else -((-x).Floor)
  }

  /** `std::fmod` by a whole turn: the remainder has the sign of `x`. */
  function RemainderOfTurn(x: real): real {
    x - 360.0 * Truncated(x / 360.0) as real
  }

  function NormalizeBearing(bearing: real): (normalized: real)
    ensures 0.0 <= normalized < 360.0
  {
    var remainder := RemainderOfTurn(bearing);
    var positive := if remainder < 0.0 then remainder + 360.0 else remainder;
    if positive >= 360.0 then 0.0 else positive
  }

  /** The bearing in [0, 360) that differs from the given one by whole turns. */
  lemma NormalizeBearingTurns(bearing: real) returns (turns: int)
    ensures 0.0 <= NormalizeBearing(bearing) < 360.0
    ensures NormalizeBearing(bearing) == bearing - 360.0 * turns as real
  {
    turns := (bearing / 360.0).Floor;
    var q := bearing / 360.0;
    assert bearing == 360.0 * q;
    if q < 0.0 && (-q).Floor as real != -q {
      assert q.Floor == -((-q).Floor) - 1;
    } else if q < 0.0 {
      assert q.Floor == -((-q).Floor);
    }
  }


  /** Halves go away from zero, on both sides. */
  lemma RoundTies(k: nat)
    ensures Round(k as real + 0.5) == k + 1 && Round(-(k as real + 0.5)) == -(k + 1)
  {
  }
}
