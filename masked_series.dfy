/** numpy boolean indexing (`xs[mask]`) and the first-occurrence extrema
    (`max`/`np.argmax`, `min`/`np.argmin`) that the notebooks apply to the
    masked telemetry arrays. */
module MaskedSeries {

  /** Number of samples a mask keeps. */
  function CountTrue(mask: seq<bool>): (n: nat)
    ensures n <= |mask|
    decreases |mask|
  {
    if |mask| == 0 then 0 else (if mask[0] then 1 else 0) + CountTrue(mask[1..])
  }

  /** `xs[mask]`: the elements whose mask entry is true, in their original order. */
  function Select<T>(xs: seq<T>, mask: seq<bool>): (r: seq<T>)
    requires |xs| == |mask|
    ensures |r| == CountTrue(mask)
    decreases |xs|
  {
    if |xs| == 0 then [] else (if mask[0] then [xs[0]] else []) + Select(xs[1..], mask[1..])
  }

  /** Position, in the unmasked array, of the k-th kept sample. */
  function KeptIndex(mask: seq<bool>, k: nat): (j: nat)
    requires k < CountTrue(mask)
    ensures k <= j < |mask| && mask[j]
    decreases |mask|
  {
    if mask[0] then (if k == 0 then 0 else 1 + KeptIndex(mask[1..], k - 1))
    else 1 + KeptIndex(mask[1..], k)
  }

  /** Rank of a kept sample among the kept samples: how many are kept before it. */
  function KeptRank(mask: seq<bool>, j: nat): (k: nat)
    requires j < |mask|
    ensures k <= j
    decreases j
  {
    if j == 0 then 0 else (if mask[0] then 1 else 0) + KeptRank(mask[1..], j - 1)
  }

  lemma {:induction false} SelectAt<T>(xs: seq<T>, mask: seq<bool>, k: nat)
    requires |xs| == |mask| && k < CountTrue(mask)
    ensures Select(xs, mask)[k] == xs[KeptIndex(mask, k)]
    decreases |xs|
  {
    if mask[0] {
      if k > 0 { SelectAt(xs[1..], mask[1..], k - 1); }
    } else {
      SelectAt(xs[1..], mask[1..], k);
    }
  }

  /** Every kept sample has a rank, and the rank leads back to it. */
  lemma {:induction false} KeptRankInverse(mask: seq<bool>, j: nat)
    requires j < |mask| && mask[j]
    ensures KeptRank(mask, j) < CountTrue(mask)
    ensures KeptIndex(mask, KeptRank(mask, j)) == j
    decreases j
  {
    if j > 0 { KeptRankInverse(mask[1..], j - 1); }
  }

  /** Kept samples keep their relative order. */
  lemma {:induction false} KeptIndexIncreasing(mask: seq<bool>, k1: nat, k2: nat)
    requires k1 < k2 < CountTrue(mask)
    ensures KeptIndex(mask, k1) < KeptIndex(mask, k2)
    decreases |mask|
  {
    if mask[0] {
      if k1 > 0 { KeptIndexIncreasing(mask[1..], k1 - 1, k2 - 1); }
    } else {
      KeptIndexIncreasing(mask[1..], k1, k2);
    }
  }

  /** A mask that keeps everything selects the whole array. */
  lemma {:induction false} SelectAllTrue<T>(xs: seq<T>, mask: seq<bool>)
    requires |xs| == |mask| && forall i :: 0 <= i < |mask| ==> mask[i]
    ensures Select(xs, mask) == xs
    decreases |xs|
  {
    if |xs| > 0 { SelectAllTrue(xs[1..], mask[1..]); }
  }

  /** A mask that keeps nothing selects nothing. */
  lemma {:induction false} CountTrueZero(mask: seq<bool>)
    ensures CountTrue(mask) == 0 <==> forall i :: 0 <= i < |mask| ==> !mask[i]
    decreases |mask|
  {
    if |mask| > 0 {
      CountTrueZero(mask[1..]);
      assert forall i :: 1 <= i < |mask| ==> mask[i] == mask[1..][i - 1];
    }
  }

  /** `np.argmax`: the first position holding the largest value. */
  function ArgMax(s: seq<real>): (k: nat)
    requires |s| > 0
    ensures k < |s|
    ensures forall j :: 0 <= j < |s| ==> s[j] <= s[k]
    ensures forall j :: 0 <= j < k ==> s[j] < s[k]
    decreases |s|
  {
    if |s| == 1 then 0
    else
      var k := ArgMax(s[..|s| - 1]);
      if s[|s| - 1] > s[k] then |s| - 1 else k
  }

  /** `np.argmin`: the first position holding the smallest value. */
  function ArgMin(s: seq<real>): (k: nat)
    requires |s| > 0
    ensures k < |s|
    ensures forall j :: 0 <= j < |s| ==> s[k] <= s[j]
    ensures forall j :: 0 <= j < k ==> s[k] < s[j]
    decreases |s|
  {
    if |s| == 1 then 0
    else
      var k := ArgMin(s[..|s| - 1]);
      if s[|s| - 1] < s[k] then |s| - 1 else k
  }

  /** Two kept samples with the same rank are the same sample. */
  lemma KeptIndexInjective(mask: seq<bool>, k1: nat, k2: nat)
    requires k1 < CountTrue(mask) && k2 < CountTrue(mask)
    requires KeptIndex(mask, k1) == KeptIndex(mask, k2)
    ensures k1 == k2
  {
    if k1 < k2 { KeptIndexIncreasing(mask, k1, k2); }
    if k2 < k1 { KeptIndexIncreasing(mask, k2, k1); }
  }

  /** `np.argmax` of the masked array names the first kept sample reaching
      the masked maximum: position k of `xs[mask]` is the kept sample j with
      rank k, and no kept sample before j reaches the maximum. */
  lemma FirstKeptMax(vals: seq<real>, mask: seq<bool>)
    requires |vals| == |mask| && CountTrue(mask) > 0
    ensures var s := Select(vals, mask);
      exists j :: 0 <= j < |mask| && mask[j] && vals[j] == s[ArgMax(s)] && KeptRank(mask, j) == ArgMax(s)
                  && forall j' :: 0 <= j' < j && mask[j'] ==> vals[j'] < s[ArgMax(s)]
  {
    var s := Select(vals, mask);
    var k := ArgMax(s);
    var j := KeptIndex(mask, k);
    SelectAt(vals, mask, k);
    KeptRankInverse(mask, j);
    KeptIndexInjective(mask, KeptRank(mask, j), k);
    forall j' | 0 <= j' < j && mask[j'] ensures vals[j'] < s[k] {
      KeptRankInverse(mask, j');
      var k' := KeptRank(mask, j');
      if k <= k' {
        if k < k' { KeptIndexIncreasing(mask, k, k'); }
      }
      SelectAt(vals, mask, k');
    }
  }

  /** `np.argmin` of the masked array names the first kept sample reaching
      the masked minimum, at its rank among the kept samples. */
  lemma FirstKeptMin(vals: seq<real>, mask: seq<bool>)
    requires |vals| == |mask| && CountTrue(mask) > 0
    ensures var s := Select(vals, mask);
      exists j :: 0 <= j < |mask| && mask[j] && vals[j] == s[ArgMin(s)] && KeptRank(mask, j) == ArgMin(s)
                  && forall j' :: 0 <= j' < j && mask[j'] ==> s[ArgMin(s)] < vals[j']
  {
    var s := Select(vals, mask);
    var k := ArgMin(s);
    var j := KeptIndex(mask, k);
    SelectAt(vals, mask, k);
    KeptRankInverse(mask, j);
    KeptIndexInjective(mask, KeptRank(mask, j), k);
    forall j' | 0 <= j' < j && mask[j'] ensures s[k] < vals[j'] {
      KeptRankInverse(mask, j');
      var k' := KeptRank(mask, j');
      if k <= k' {
        if k < k' { KeptIndexIncreasing(mask, k, k'); }
      }
      SelectAt(vals, mask, k');
    }
  }

  /** The time of the largest kept value, reading the time from the masked
      times array at the masked argmax (the indexing of the later analysis):
      the time of the first kept sample that reaches the maximum. */
  function TimeOfMaskedMax(times: seq<real>, vals: seq<real>, mask: seq<bool>): (t: real)
    requires |times| == |mask| && |vals| == |mask| && CountTrue(mask) > 0
    ensures exists j :: 0 <= j < |mask| && mask[j] && times[j] == t && vals[j] == Select(vals, mask)[ArgMax(Select(vals, mask))]
                        && forall j' :: 0 <= j' < j && mask[j'] ==> vals[j'] < Select(vals, mask)[ArgMax(Select(vals, mask))]
  {
    var k := ArgMax(Select(vals, mask));
    FirstKeptMax(vals, mask);
    var j :| 0 <= j < |mask| && mask[j] && vals[j] == Select(vals, mask)[k] && KeptRank(mask, j) == k
             && forall j' :: 0 <= j' < j && mask[j'] ==> vals[j'] < Select(vals, mask)[k];
    KeptRankInverse(mask, j);
    SelectAt(times, mask, k);
    Select(times, mask)[k]
  }

  /** The maximum of the masked array bounds every kept sample and is attained by one. */
  lemma MaskedMaxIsMaxOfKept(vals: seq<real>, mask: seq<bool>)
    requires |vals| == |mask| && CountTrue(mask) > 0
    ensures forall j :: 0 <= j < |mask| && mask[j] ==> vals[j] <= Select(vals, mask)[ArgMax(Select(vals, mask))]
    ensures exists j :: 0 <= j < |mask| && mask[j] && vals[j] == Select(vals, mask)[ArgMax(Select(vals, mask))]
  {
    var s := Select(vals, mask);
    forall j | 0 <= j < |mask| && mask[j] ensures vals[j] <= s[ArgMax(s)] {
      KeptRankInverse(mask, j);
      SelectAt(vals, mask, KeptRank(mask, j));
    }
    SelectAt(vals, mask, ArgMax(s));
  }

  /** The minimum of the masked array bounds every kept sample and is attained by one. */
  lemma MaskedMinIsMinOfKept(vals: seq<real>, mask: seq<bool>)
    requires |vals| == |mask| && CountTrue(mask) > 0
    ensures forall j :: 0 <= j < |mask| && mask[j] ==> Select(vals, mask)[ArgMin(Select(vals, mask))] <= vals[j]
    ensures exists j :: 0 <= j < |mask| && mask[j] && vals[j] == Select(vals, mask)[ArgMin(Select(vals, mask))]
  {
    var s := Select(vals, mask);
    forall j | 0 <= j < |mask| && mask[j] ensures s[ArgMin(s)] <= vals[j] {
      KeptRankInverse(mask, j);
      SelectAt(vals, mask, KeptRank(mask, j));
    }
    SelectAt(vals, mask, ArgMin(s));
  }
}
