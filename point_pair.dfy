/** The table preparation of `point_pair`: collect the point-pair rows of one
    MSID, in table order, then order them by SEQUENCE_NUM. */
module PointPair {

  /** One row of the point-pair table. */
  datatype PointPairRow = PointPairRow(msid: string, calibrationSet: int, sequenceNum: int, rawCount: real, engValue: real)

  /** Reference definition: the rows of `msid`, in table order, across all calibration sets. */
  function RowsFor(table: seq<PointPairRow>, msid: string): (rows: seq<PointPairRow>)
    decreases |table|
  {
    if |table| == 0 then []
    else RowsFor(table[..|table| - 1], msid) + (if table[|table| - 1].msid == msid then [table[|table| - 1]] else [])
  }

  /** `RowsFor` holds exactly the matching rows, each as often as in the table. */
  lemma {:induction false} RowsForExact(table: seq<PointPairRow>, msid: string)
    ensures forall r :: r in RowsFor(table, msid) ==> r.msid == msid
    ensures forall r :: multiset(RowsFor(table, msid))[r] == if r.msid == msid then multiset(table)[r] else 0
    decreases |table|
  {
    if |table| > 0 {
      var init := table[..|table| - 1];
      RowsForExact(init, msid);
      assert table == init + [table[|table| - 1]];
    }
  }

  /** Filtering commutes with splitting the table: the table order is kept. */
  lemma {:induction false} RowsForAppend(a: seq<PointPairRow>, b: seq<PointPairRow>, msid: string)
    ensures RowsFor(a + b, msid) == RowsFor(a, msid) + RowsFor(b, msid)
    decreases |b|
  {
    if |b| == 0 {
      assert a + b == a;
    } else {
      assert (a + b)[..|a + b| - 1] == a + b[..|b| - 1];
      RowsForAppend(a, b[..|b| - 1], msid);
    }
  }

  /** The loop that builds `single_msid_df` row by row. */
  method SelectMsidRows(table: seq<PointPairRow>, msid: string) returns (singleMsid: seq<PointPairRow>)
    ensures singleMsid == RowsFor(table, msid)
  {
    singleMsid := [];
    for j := 0 to |table|
      invariant singleMsid == RowsFor(table[..j], msid)
    {
      assert table[..j + 1][..j] == table[..j];
      if table[j].msid == msid {
        singleMsid := singleMsid + [table[j]];
      }
    }
    assert table[..|table|] == table;
  }

  predicate SortedBySequence(rows: seq<PointPairRow>) {
    forall i, j :: 0 <= i < j < |rows| ==> rows[i].sequenceNum <= rows[j].sequenceNum
  }

  /** Inserts a row before the first row with a larger sequence number. */
  function Insert(row: PointPairRow, sorted: seq<PointPairRow>): (r: seq<PointPairRow>)
    requires SortedBySequence(sorted)
    ensures SortedBySequence(r)
    ensures multiset(r) == multiset(sorted) + multiset{row}
    decreases |sorted|
  {
    if |sorted| == 0 || row.sequenceNum <= sorted[0].sequenceNum then [row] + sorted
    else
      var rest := Insert(row, sorted[1..]);
      assert sorted == [sorted[0]] + sorted[1..];
      BoundSurvivesInsert(sorted[0].sequenceNum, row, sorted[1..], rest);
      [sorted[0]] + rest
  }

  /** A lower bound on the sequence numbers of the rows and of the inserted
      row bounds every row of the result. */
  lemma BoundSurvivesInsert(lo: int, row: PointPairRow, rows: seq<PointPairRow>, rest: seq<PointPairRow>)
    requires lo <= row.sequenceNum && forall k :: 0 <= k < |rows| ==> lo <= rows[k].sequenceNum
    requires multiset(rest) == multiset(rows) + multiset{row}
    ensures forall k :: 0 <= k < |rest| ==> lo <= rest[k].sequenceNum
  {
    forall k | 0 <= k < |rest| ensures lo <= rest[k].sequenceNum {
      assert rest[k] in multiset(rest);
      if rest[k] != row {
        assert rest[k] in multiset(rows);
      }
    }
  }

  /** `sort_values('SN')`: the rows ordered by sequence number. pandas promises
      no particular order among equal sequence numbers; this is one admissible order. */
  function SortBySequence(rows: seq<PointPairRow>): (r: seq<PointPairRow>)
    ensures SortedBySequence(r)
    ensures multiset(r) == multiset(rows)
    decreases |rows|
  {
    if |rows| == 0 then []
    else
      assert rows == [rows[0]] + rows[1..];
      Insert(rows[0], SortBySequence(rows[1..]))
  }

  /** The sorted per-MSID table of `point_pair`: ordered by sequence number,
      holding exactly the rows of `msid` from the table, each as often as there. */
  method PointPairTable(table: seq<PointPairRow>, msid: string) returns (sorted: seq<PointPairRow>)
    ensures SortedBySequence(sorted)
    ensures forall r :: r in sorted ==> r.msid == msid
    ensures forall r :: multiset(sorted)[r] == if r.msid == msid then multiset(table)[r] else 0
  {
    var singleMsid := SelectMsidRows(table, msid);
    RowsForExact(table, msid);
    sorted := SortBySequence(singleMsid);
    assert forall r :: r in sorted ==> r in multiset(singleMsid);
  }
}
