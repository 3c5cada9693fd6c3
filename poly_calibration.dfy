/** Polynomial count-to-temperature conversion: `calc_poly`, which branches
    on the degree, and the degree lookup of `convert_to_temp`. */
module PolyCalibration {
  import opened Wrappers
  import opened Telemetry

  /** One row of the polynomial calibration table (MSID, DEG, COEF0..COEF9). */
  datatype PolyCalRow = PolyCalRow(msid: string, deg: int, coef: seq<real>)

  function Pow(x: real, n: nat): (p: real)
    decreases n
  {
    if n == 0 then 1.0 else x * Pow(x, n - 1)
  }

  /** The term `COEFi * counts**i`. */
  function Term(coef: seq<real>, i: nat, x: real): (t: real)
    requires i < |coef|
  {
    coef[i] * Pow(x, i)
  }

  /** Reference definition: sum of coef[i] * x^i for i = 0..deg. */
  function PolySum(coef: seq<real>, deg: nat, x: real): (sum: real)
    requires deg < |coef|
    decreases deg
  {
    if deg == 0 then coef[0] else PolySum(coef, deg - 1, x) + Term(coef, deg, x)
  }

  /** The expression of the `deg` branch of `calc_poly`, for degrees 2..9, written term by term. */
  function BranchPoly(c: seq<real>, deg: int, x: real): (y: real)
    requires |c| == 10 && 2 <= deg <= 9
  {
    if deg == 2 then c[0] + Term(c, 1, x) + Term(c, 2, x)
    else if deg == 3 then c[0] + Term(c, 1, x) + Term(c, 2, x) + Term(c, 3, x)
    else if deg == 4 then c[0] + Term(c, 1, x) + Term(c, 2, x) + Term(c, 3, x) + Term(c, 4, x)
    else if deg == 5 then c[0] + Term(c, 1, x) + Term(c, 2, x) + Term(c, 3, x) + Term(c, 4, x) + Term(c, 5, x)
    else if deg == 6 then c[0] + Term(c, 1, x) + Term(c, 2, x) + Term(c, 3, x) + Term(c, 4, x) + Term(c, 5, x)
                          + Term(c, 6, x)
    else if deg == 7 then c[0] + Term(c, 1, x) + Term(c, 2, x) + Term(c, 3, x) + Term(c, 4, x) + Term(c, 5, x)
                          + Term(c, 6, x) + Term(c, 7, x)
    else if deg == 8 then c[0] + Term(c, 1, x) + Term(c, 2, x) + Term(c, 3, x) + Term(c, 4, x) + Term(c, 5, x)
                          + Term(c, 6, x) + Term(c, 7, x) + Term(c, 8, x)
    else c[0] + Term(c, 1, x) + Term(c, 2, x) + Term(c, 3, x) + Term(c, 4, x) + Term(c, 5, x)
         + Term(c, 6, x) + Term(c, 7, x) + Term(c, 8, x) + Term(c, 9, x)
  }

  /** Each spelled-out branch adds one term to the branch below it. */
  lemma BranchPolyStep(c: seq<real>, deg: int, x: real)
    requires |c| == 10 && 3 <= deg <= 9
    ensures BranchPoly(c, deg, x) == BranchPoly(c, deg - 1, x) + Term(c, deg, x)
  {
  }

  /** Each spelled-out branch for degrees 2..9 is the degree-`deg` polynomial. */
  lemma {:induction false} BranchPolyIsPolySum(c: seq<real>, deg: int, x: real)
    requires |c| == 10 && 2 <= deg <= 9
    ensures BranchPoly(c, deg, x) == PolySum(c, deg, x)
    decreases deg
  {
    if deg == 2 {
      assert PolySum(c, 1, x) == c[0] + Term(c, 1, x);
    } else {
      BranchPolyIsPolySum(c, deg - 1, x);
      BranchPolyStep(c, deg, x);
    }
  }

  /** `calc_poly(counts, poly, deg)`, with `coef` the COEF0..COEF9 values of the
      calibration row. Degrees 0 and 1 return one number whatever the counts;
      degrees 2..9 apply their polynomial to each count; any other degree leaves
      `eq` unassigned and the return raises UnboundLocalError. */
  function CalcPoly(counts: Reading, coef: seq<real>, deg: int): (r: Result<Reading>)
    requires |coef| == 10
    ensures deg == 0 ==> r == Ok(Scalar(coef[0]))
    ensures deg == 1 ==> r == Ok(Scalar(coef[0] + coef[1]))
    ensures 2 <= deg <= 9 ==> r.Ok? && r.value.Scalar? == counts.Scalar?
    ensures 2 <= deg <= 9 && counts.Scalar? ==> r.value.x == PolySum(coef, deg, counts.x)
    ensures 2 <= deg <= 9 && counts.Array? ==>
      |r.value.xs| == |counts.xs| && forall i :: 0 <= i < |counts.xs| ==> r.value.xs[i] == PolySum(coef, deg, counts.xs[i])
    ensures (deg < 0 || deg > 9) <==> r == Err(UnboundName("eq"))
  {
    if deg == 0 then Ok(Scalar(coef[0]))
    else if deg == 1 then Ok(Scalar(coef[0] + coef[1]))
    else if 2 <= deg <= 9 then
      match counts
      case Scalar(x) =>
        BranchPolyIsPolySum(coef, deg, x);
        Ok(Scalar(BranchPoly(coef, deg, x)))
      case Array(xs) =>
        var ys := seq(|xs|, i requires 0 <= i < |xs| => BranchPoly(coef, deg, xs[i]));
        assert forall i :: 0 <= i < |xs| ==> ys[i] == PolySum(coef, deg, xs[i]) by {
          forall i | 0 <= i < |xs| ensures ys[i] == PolySum(coef, deg, xs[i]) {
            BranchPolyIsPolySum(coef, deg, xs[i]);
          }
        }
        Ok(Array(ys))
    else Err(UnboundName("eq"))
  }

  /** As written, degree 1 drops `counts`: whenever COEF1 is nonzero and the
      count is not 1, it differs from the degree-1 polynomial. */
  lemma DegreeOneIgnoresCounts(coef: seq<real>, x: real)
    requires |coef| == 10 && coef[1] != 0.0 && x != 1.0
    ensures CalcPoly(Scalar(x), coef, 1) != Ok(Scalar(PolySum(coef, 1, x)))
  {
    assert Term(coef, 1, x) == coef[1] * x;
    assert coef[1] * x != coef[1];
  }

  /** The degree lookup of `convert_to_temp`: the loop has no `break`, so the
      DEG of the LAST row whose MSID matches wins; None when no row matches. */
  method FindDegree(table: seq<PolyCalRow>, msid: string) returns (deg: Option<int>)
    ensures deg.None? <==> forall i :: 0 <= i < |table| ==> table[i].msid != msid
    ensures deg.Some? ==> exists i :: 0 <= i < |table| && table[i].msid == msid && table[i].deg == deg.value
                                     && forall j :: i < j < |table| ==> table[j].msid != msid
  {
    deg := None;
    for i := 0 to |table|
      invariant deg.None? <==> forall j :: 0 <= j < i ==> table[j].msid != msid
      invariant deg.Some? ==> exists k :: 0 <= k < i && table[k].msid == msid && table[k].deg == deg.value
                                          && forall j :: k < j < i ==> table[j].msid != msid
    {
      if table[i].msid == msid {
        deg := Some(table[i].deg);
      }
    }
  }

  /** `convert_to_temp` without the telemetry fetches: find the degree, then
      apply `calc_poly` to the raw counts. With no matching row `deg` is unbound. */
  method ConvertToTemp(table: seq<PolyCalRow>, msid: string, coef: seq<real>, counts: Reading) returns (r: Result<Reading>)
    requires |coef| == 10
    ensures (forall i :: 0 <= i < |table| ==> table[i].msid != msid) ==> r == Err(UnboundName("deg"))
    ensures forall i :: 0 <= i < |table| && table[i].msid == msid && (forall j :: i < j < |table| ==> table[j].msid != msid)
                        ==> r == CalcPoly(counts, coef, table[i].deg)
  {
    var deg := FindDegree(table, msid);
    if deg.None? {
      return Err(UnboundName("deg"));
    }
    r := CalcPoly(counts, coef, deg.value);
  }
}
