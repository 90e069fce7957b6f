/** Angles in radians: the constant pi the block uses, equality of angles modulo
    a full turn, the wrap step that keeps the phase accumulator bounded, and the
    running sum of per-sample phase increments. */
module Angles {

  /** The value of GR_M_PI, written out as a decimal literal. */
  const Pi: real := 3.14159265358979323846
  const TwoPi: real := 6.28318530717958647692

  predicate IsInteger(x: real) {
    x.Floor as real == x
  }

  /** Two angles denote the same rotation when they differ by a whole number of turns. */
  predicate SameAngle(a: real, b: real) {
    IsInteger((a - b) / TwoPi)
  }

  /** The canonical range of a wrapped phase. */
  predicate Canonical(p: real) {
    -Pi < p <= Pi
  }

  /** The phase wrap step: shifts p by whole turns into (-pi, pi]. */
  function Wrap(p: real): (w: real)
    ensures Canonical(w)
    ensures SameAngle(w, p)
  {
    var q := (Pi - p) / TwoPi;
    var k := q.Floor;
    assert TwoPi * (k as real) <= TwoPi * q < TwoPi * (k as real) + TwoPi;
    assert TwoPi * q == Pi - p;
    assert (TwoPi * (k as real)) / TwoPi == k as real;
    p + TwoPi * (k as real)
  }

  /** Each rotation has exactly one representative in the canonical range. */
  lemma CanonicalUnique(a: real, b: real)
    requires Canonical(a) && Canonical(b)
    requires SameAngle(a, b)
    ensures a == b
  {
    var q := (a - b) / TwoPi;
    var k := q.Floor;
    assert q == k as real;
    assert a - b == TwoPi * q;
    assert -TwoPi < TwoPi * q < TwoPi;
    assert -1.0 < q < 1.0;
    assert k == 0;
  }

  /** Wrapping a phase that is already canonical leaves it unchanged. */
  lemma WrapCanonical(p: real)
    requires Canonical(p)
    ensures Wrap(p) == p
  {
    CanonicalUnique(Wrap(p), p);
  }

  lemma SameAngleTransitive(a: real, b: real, c: real)
    requires SameAngle(a, b) && SameAngle(b, c)
    ensures SameAngle(a, c)
  {
    var x := (a - b) / TwoPi;
    var y := (b - c) / TwoPi;
    assert (a - c) / TwoPi == x + y;
    assert (x + y).Floor == x.Floor + y.Floor;
  }

  /** Adding the same increment to two equal angles keeps them equal. */
  lemma SameAngleShift(a: real, b: real, f: real)
    requires SameAngle(a, b)
    ensures SameAngle(a + f, b + f)
  {
    assert (a + f) - (b + f) == a - b;
  }

  /** Sum of phase increments, accumulated from the front. */
  function Sum(s: seq<real>): real {
    if s == [] then 0.0 else Sum(s[..|s| - 1]) + s[|s| - 1]
  }

  /** Integrating a constant frequency f over k samples advances the phase by k*f. */
  lemma {:induction false} ConstantFrequencyPhase(fs: seq<real>, f: real)
    requires forall i :: 0 <= i < |fs| ==> fs[i] == f
    ensures Sum(fs) == |fs| as real * f
  {
    if fs != [] {
      ConstantFrequencyPhase(fs[..|fs| - 1], f);
    }
  }
}
