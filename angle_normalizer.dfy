/** The angle reduction applied before sin, cos and tan: a value larger
    than 10 in magnitude is read as degrees, brought into [0, 360) and then
    folded into [0, 90]; a value of magnitude at most 10 is left alone. */
module AngleNormalizer {
  import opened Types

  /** Truncation toward zero. */
  function Trunc(x: real): (t: int)
    ensures x >= 0.0 ==> t as real <= x < t as real + 1.0
    ensures x < 0.0 ==> t as real - 1.0 < x <= t as real
  {
    if x >= 0.0 then x.Floor else -((-x).Floor)
  }

  /** JavaScript's v % 360: the remainder of truncated division, which
      takes the sign of v. */
  function Rem360(v: real): (r: real)
    ensures v >= 0.0 ==> 0.0 <= r < 360.0
    ensures v < 0.0 ==> -360.0 < r <= 0.0
  {
    v - 360.0 * Trunc(v / 360.0) as real
  }

  /** The residue of v modulo 360 in [0, 360), from floored division:
      the reference the imperative normaliser is checked against. */
  function Residue360(v: real): (w: real)
    ensures 0.0 <= w < 360.0
  {
    v - 360.0 * (v / 360.0).Floor as real
  }

  /** Folding an angle of [0, 360) into [0, 90]: reflected about 180 in
      the second quadrant, shifted by 180 in the third, reflected about 360
      in the fourth. */
  function Fold(w: real): (a: real)
    requires 0.0 <= w < 360.0
    ensures 0.0 <= a <= 90.0
    ensures w <= 90.0 ==> a == w
    ensures a == w || a == 180.0 - w || a == w - 180.0 || a == 360.0 - w
  {
    if w > 90.0 then
      if w <= 180.0 then 180.0 - w
      else if w <= 270.0 then w - 180.0
      else 360.0 - w
    else w
  }

  /** k half turns, in degrees. */
  function HalfTurns(k: int): real
  {
    180.0 * k as real
  }

  /** normalizeAngleForTrig as a function of its input. */
  function NormalizedAngle(v: real): (a: real)
    ensures -10.0 <= a <= 90.0
  {
    if Abs(v) > 10.0 then Fold(Residue360(v)) else v
  }

  /** Adding 360 to a negative truncated remainder gives the floored
      residue; a non-negative one already is the residue. */
  lemma ShiftedRemainderIsResidue(v: real)
    ensures (if Rem360(v) < 0.0 then Rem360(v) + 360.0 else Rem360(v)) == Residue360(v)
  {
    var q := v / 360.0;
    var f := q.Floor;
    if v < 0.0 {
      if f as real == q {
        assert (-q).Floor == -f;
      } else {
        assert (-q).Floor == -f - 1;
      }
    }
  }

  /** normalizeAngleForTrig: the parameter is reassigned step by step, as
      in the source; the result is NormalizedAngle of the input. */
  method NormalizeAngleForTrig(value: real) returns (result: real)
    ensures result == NormalizedAngle(value)
    ensures Abs(value) <= 10.0 ==> result == value
    ensures Abs(value) > 10.0 ==> 0.0 <= result <= 90.0
  {
    result := value;
    if Abs(result) > 10.0 {
      result := Rem360(result);
      if result < 0.0 {
        result := result + 360.0;
      }
      ShiftedRemainderIsResidue(value);
      if result > 90.0 {
        if result <= 180.0 {
          result := 180.0 - result;
        } else if result <= 270.0 {
          result := result - 180.0;
        } else {
          result := 360.0 - result;
        }
      }
    }
  }

  /** Worked examples: 200 degrees lies in the third quadrant and becomes
      20; -200 becomes 20 as well; 7 stays 7. */
  lemma NormalizedAngleExamples()
    ensures NormalizedAngle(200.0) == 20.0
    ensures NormalizedAngle(-200.0) == 20.0
    ensures NormalizedAngle(7.0) == 7.0
  {
    assert (200.0 / 360.0).Floor == 0;
    assert (-200.0 / 360.0).Floor == -1;
  }

  lemma ResiduePeriodic(v: real)
    ensures Residue360(v + 360.0) == Residue360(v)
  {
    assert (v + 360.0) / 360.0 == v / 360.0 + 1.0;
  }

  /** Outside [-10, 10] the normaliser only sees the angle modulo 360. */
  lemma NormalizedAnglePeriodic(v: real)
    requires Abs(v) > 10.0 && Abs(v + 360.0) > 10.0
    ensures NormalizedAngle(v + 360.0) == NormalizedAngle(v)
  {
    ResiduePeriodic(v);
  }

  lemma ResidueNegated(v: real)
    ensures Residue360(-v) == (if Residue360(v) == 0.0 then 0.0 else 360.0 - Residue360(v))
  {
    var q := v / 360.0;
    var f := q.Floor;
    assert -v / 360.0 == -q;
    if f as real == q {
      assert (-q).Floor == -f;
    } else {
      assert (-q).Floor == -f - 1;
    }
  }

  lemma FoldReflected(w: real)
    requires 0.0 < w < 360.0
    ensures Fold(360.0 - w) == Fold(w)
  {
  }

  /** Outside [-10, 10] the sign of the input is lost: v and -v give the
      same angle, so sin of the normalised angle is never negative. */
  lemma NormalizedAngleDropsSign(v: real)
    requires Abs(v) > 10.0
    ensures NormalizedAngle(-v) == NormalizedAngle(v)
  {
    ResidueNegated(v);
    if Residue360(v) != 0.0 {
      FoldReflected(Residue360(v));
    }
  }

  /** Outside [-10, 10] the normalised angle is the input, or its
      negation, up to a whole number of half turns: the angle whose sine,
      cosine and tangent agree with the input's up to sign. */
  lemma NormalizedAngleCongruent(v: real)
    requires Abs(v) > 10.0
    ensures exists k: int :: NormalizedAngle(v) == v - HalfTurns(k) || NormalizedAngle(v) == HalfTurns(k) - v
  {
    var f := (v / 360.0).Floor;
    var w := Residue360(v);
    assert w == v - HalfTurns(2 * f);
    var a := NormalizedAngle(v);
    if a == w {
      assert a == v - HalfTurns(2 * f);
    } else if a == 180.0 - w {
      assert a == HalfTurns(2 * f + 1) - v;
    } else if a == w - 180.0 {
      assert a == v - HalfTurns(2 * f + 1);
    } else {
      assert a == HalfTurns(2 * f + 2) - v;
    }
  }
}
