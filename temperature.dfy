/** `CtoF` and `FtoC`: try the element-wise comprehension, and on TypeError
    (a scalar is not iterable) apply the formula to the scalar. Modelled over
    the reals, where 1.8 is exactly 9/5. */
module Temperature {
  import opened Telemetry

  function CtoFValue(c: real): (f: real) {
    c * 1.8 + 32.0
  }

  function FtoCValue(f: real): (c: real) {
    (f - 32.0) / 1.8
  }

  /** `CtoF(cs)`: the same shape back, each value converted. */
  function CtoF(cs: Reading): (r: Reading)
    ensures cs.Scalar? ==> r == Scalar(CtoFValue(cs.x))
    ensures cs.Array? ==> r.Array? && |r.xs| == |cs.xs|
                          && forall i :: 0 <= i < |cs.xs| ==> r.xs[i] == CtoFValue(cs.xs[i])
  {
    match cs
    case Array(xs) => Array(seq(|xs|, i requires 0 <= i < |xs| => CtoFValue(xs[i])))
    case Scalar(c) => Scalar(CtoFValue(c))
  }

  /** `FtoC(cs)`: the same shape back, each value converted. */
  function FtoC(cs: Reading): (r: Reading)
    ensures cs.Scalar? ==> r == Scalar(FtoCValue(cs.x))
    ensures cs.Array? ==> r.Array? && |r.xs| == |cs.xs|
                          && forall i :: 0 <= i < |cs.xs| ==> r.xs[i] == FtoCValue(cs.xs[i])
  {
    match cs
    case Array(xs) => Array(seq(|xs|, i requires 0 <= i < |xs| => FtoCValue(xs[i])))
    case Scalar(c) => Scalar(FtoCValue(c))
  }

  /** Converting to Fahrenheit and back gives the Celsius reading back. */
  lemma CtoFThenFtoC(cs: Reading)
    ensures FtoC(CtoF(cs)) == cs
  {
    match cs
    case Scalar(c) =>
    case Array(xs) =>
      assert FtoC(CtoF(cs)).xs == xs;
  }

  /** Converting to Celsius and back gives the Fahrenheit reading back. */
  lemma FtoCThenCtoF(fs: Reading)
    ensures CtoF(FtoC(fs)) == fs
  {
    match fs
    case Scalar(f) =>
    case Array(xs) =>
      assert CtoF(FtoC(fs)).xs == xs;
  }

  /** -40 is the same on both scales, and it is the only such temperature. */
  lemma MinusFortyIsFixed(c: real)
    ensures CtoFValue(c) == c <==> c == -40.0
  {
  }

  /** The conversion preserves order strictly, so a maximum in Celsius is a maximum in Fahrenheit. */
  lemma CtoFStrictlyIncreasing(a: real, b: real)
    ensures a < b <==> CtoFValue(a) < CtoFValue(b)
  {
  }
}
