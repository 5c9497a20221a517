/** The body of `process_file` after the header scan: pick the id columns,
    rename them, melt every other column into (time, count) pairs, drop the
    missing counts, split the period label and project to six columns. */
module Reshape {
  import opened Tables
  import opened Text
  import opened Classifier
  import opened Period

  /** One row of the melted frame: the two id values, the period label (the
      name of the column it came from) and the count. */
  datatype Melted = Melted(nuts: Cell, country: Cell, time: string, count: Cell)

  /** One output record; its fields are the output columns, in order. */
  datatype Record = Record(
    nutsType: NutsType,
    nuts: Cell,
    country: Cell,
    year: Cell,
    week: Cell,
    numberOfDeath: Cell)

  const OutputColumns: seq<string> :=
    ["nuts_type", "nuts", "country", "year", "week", "number_of_death"]

  /** Column names of the frame re-read with `header_row` as its header:
      each header cell as a string, stripped of surrounding whitespace. */
  function ColumnNames(header: seq<Cell>): (names: seq<string>)
    ensures |names| == |header|
  {
    seq(|header|, j requires 0 <= j < |header| => Strip(Render(header[j])))
  }

  /** The test for the code column; it accepts only these two spellings. */
  predicate IsCodeName(c: string)
  {
    Contains(c, "Code") || Contains(c, "code")
  }

  /** The test for the label column; it accepts only these two spellings. */
  predicate IsLabelName(c: string)
  {
    Contains(c, "Label") || Contains(c, "label")
  }

  /** The column tests are not case-insensitive: an all-capitals "CODE" is
      not recognised, while "code" and "Code" are. */
  lemma CodeTestCaseSensitive()
    ensures !IsCodeName("GEO CODE")
    ensures IsCodeName("geo code") && IsCodeName("GEO (Codes)")
  {
    MissingCharNotContained("GEO CODE", "Code", 'o');
    MissingCharNotContained("GEO CODE", "code", 'c');
    assert MatchAt("geo code", "code", 4);
    assert MatchAt("GEO (Codes)", "Code", 5);
  }

  /** `next((c for c in columns if p(c)), None)`, searching from `from` on. */
  function FirstColumn(names: seq<string>, p: string -> bool, from: nat): (r: Option<nat>)
    requires from <= |names|
    ensures r.Some? ==>
      from <= r.value < |names| && p(names[r.value]) &&
      forall k :: from <= k < r.value ==> !p(names[k])
    ensures r.None? ==> forall k :: from <= k < |names| ==> !p(names[k])
    decreases |names| - from
  {
    if from == |names| then None
    else if p(names[from]) then Some(from)
    else FirstColumn(names, p, from + 1)
  }

  /** The columns `melt` unpivots: every column from `from` on except the two
      id columns, in frame order. */
  function ValueColumns(width: nat, ci: nat, li: nat, from: nat): (r: seq<nat>)
    ensures forall k :: 0 <= k < |r| ==> from <= r[k] < width && r[k] != ci && r[k] != li
    ensures forall k, k' :: 0 <= k < k' < |r| ==> r[k] < r[k']
    ensures forall j :: from <= j < width && j != ci && j != li ==> j in r
    decreases width - from
  {
    if from >= width then []
    else (if from == ci || from == li then [] else [from]) + ValueColumns(width, ci, li, from + 1)
  }

  /** With two distinct id columns inside the frame, `melt` unpivots all but two columns. */
  lemma {:induction false} ValueColumnsCount(width: nat, ci: nat, li: nat, from: nat)
    requires ci < width && li < width && ci != li && from <= width
    ensures |ValueColumns(width, ci, li, from)| ==
      width - from - (if from <= ci then 1 else 0) - (if from <= li then 1 else 0)
    decreases width - from
  {
    if from < width {
      ValueColumnsCount(width, ci, li, from + 1);
    }
  }

  /** The melted row for data row `r` and column `j`. */
  function Cross(rows: Grid, names: seq<string>, ci: nat, li: nat, j: nat, r: nat): Melted
    requires j < |names| && r < |rows|
  {
    Melted(At(rows[r], ci), At(rows[r], li), names[j], At(rows[r], j))
  }

  /** The block `melt` produces for one value column: one row per data row. */
  function MeltColumn(rows: Grid, names: seq<string>, ci: nat, li: nat, j: nat): seq<Melted>
    requires j < |names|
  {
    seq(|rows|, r requires 0 <= r < |rows| => Cross(rows, names, ci, li, j, r))
  }

  predicate ColumnsIn(vcs: seq<nat>, width: nat)
  {
    forall k :: 0 <= k < |vcs| ==> vcs[k] < width
  }

  /** `melt`: the blocks of the value columns, one after the other. */
  function Melt(rows: Grid, names: seq<string>, ci: nat, li: nat, vcs: seq<nat>): seq<Melted>
    requires ColumnsIn(vcs, |names|)
  {
    if vcs == [] then []
    else MeltColumn(rows, names, ci, li, vcs[0]) + Melt(rows, names, ci, li, vcs[1..])
  }

  lemma {:induction false} MeltLength(rows: Grid, names: seq<string>, ci: nat, li: nat, vcs: seq<nat>)
    requires ColumnsIn(vcs, |names|)
    ensures |Melt(rows, names, ci, li, vcs)| == |vcs| * |rows|
  {
    if vcs != [] {
      MeltLength(rows, names, ci, li, vcs[1..]);
      assert |vcs| * |rows| == |rows| + |vcs[1..]| * |rows|;
    }
  }

  /** Column-major layout: the melted row at position `c * |rows| + r` pairs
      data row `r` with the `c`-th value column. */
  lemma {:induction false} MeltLayout(rows: Grid, names: seq<string>, ci: nat, li: nat, vcs: seq<nat>, c: nat, r: nat)
    requires ColumnsIn(vcs, |names|) && c < |vcs| && r < |rows|
    ensures c * |rows| + r < |Melt(rows, names, ci, li, vcs)|
    ensures Melt(rows, names, ci, li, vcs)[c * |rows| + r] == Cross(rows, names, ci, li, vcs[c], r)
  {
    MeltLength(rows, names, ci, li, vcs);
    if c > 0 {
      MeltLayout(rows, names, ci, li, vcs[1..], c - 1, r);
      assert c * |rows| + r == |rows| + ((c - 1) * |rows| + r);
    }
  }

  /** `dropna(subset=["number_of_death"])`. */
  function DropMissing(ms: seq<Melted>): (r: seq<Melted>)
    ensures |r| <= |ms|
    ensures forall m :: m in r <==> m in ms && m.count.Present?
  {
    if ms == [] then []
    else (if ms[0].count.Present? then [ms[0]] else []) + DropMissing(ms[1..])
  }

  /** Dropping works block by block, so the surviving rows keep their order. */
  lemma {:induction false} DropMissingAppend(a: seq<Melted>, b: seq<Melted>)
    ensures DropMissing(a + b) == DropMissing(a) + DropMissing(b)
  {
    if a == [] {
      assert a + b == b;
    } else {
      assert (a + b)[0] == a[0] && (a + b)[1..] == a[1..] + b;
      DropMissingAppend(a[1..], b);
    }
  }

  /** How many data rows have a present value in column `j`. */
  function PresentIn(rows: Grid, j: nat): nat
  {
    if rows == [] then 0
    else (if At(rows[0], j).Present? then 1 else 0) + PresentIn(rows[1..], j)
  }

  /** How many (data row, value column) pairs have a present value. */
  function PresentPairs(rows: Grid, vcs: seq<nat>): nat
  {
    if vcs == [] then 0 else PresentIn(rows, vcs[0]) + PresentPairs(rows, vcs[1..])
  }

  lemma {:induction false} PresentInBound(rows: Grid, j: nat)
    ensures PresentIn(rows, j) <= |rows|
  {
    if rows != [] {
      PresentInBound(rows[1..], j);
    }
  }

  lemma {:induction false} PresentPairsBound(rows: Grid, vcs: seq<nat>)
    ensures PresentPairs(rows, vcs) <= |vcs| * |rows|
  {
    if vcs != [] {
      PresentInBound(rows, vcs[0]);
      PresentPairsBound(rows, vcs[1..]);
      assert |vcs| * |rows| == |rows| + |vcs[1..]| * |rows|;
    }
  }

  lemma {:induction false} DropMissingColumn(rows: Grid, names: seq<string>, ci: nat, li: nat, j: nat)
    requires j < |names|
    ensures |DropMissing(MeltColumn(rows, names, ci, li, j))| == PresentIn(rows, j)
  {
    if rows != [] {
      var col := MeltColumn(rows, names, ci, li, j);
      assert col[1..] == MeltColumn(rows[1..], names, ci, li, j);
      DropMissingColumn(rows[1..], names, ci, li, j);
    }
  }

  /** The melted and filtered frame has exactly one row per (data row, value
      column) pair whose value is present, hence at most rows * value columns. */
  lemma {:induction false} DropMissingMeltCount(rows: Grid, names: seq<string>, ci: nat, li: nat, vcs: seq<nat>)
    requires ColumnsIn(vcs, |names|)
    ensures |DropMissing(Melt(rows, names, ci, li, vcs))| == PresentPairs(rows, vcs)
    ensures PresentPairs(rows, vcs) <= |vcs| * |rows|
  {
    PresentPairsBound(rows, vcs);
    if vcs != [] {
      DropMissingAppend(MeltColumn(rows, names, ci, li, vcs[0]), Melt(rows, names, ci, li, vcs[1..]));
      DropMissingColumn(rows, names, ci, li, vcs[0]);
      DropMissingMeltCount(rows, names, ci, li, vcs[1..]);
    }
  }

  /** Membership in the melted frame: exactly the crossings of a data row with
      one of the value columns. */
  lemma {:induction false} MeltMembers(rows: Grid, names: seq<string>, ci: nat, li: nat, vcs: seq<nat>, m: Melted)
    requires ColumnsIn(vcs, |names|)
    ensures m in Melt(rows, names, ci, li, vcs) <==>
      exists c, r :: 0 <= c < |vcs| && 0 <= r < |rows| && m == Cross(rows, names, ci, li, vcs[c], r)
  {
    if vcs != [] {
      MeltMembers(rows, names, ci, li, vcs[1..], m);
      var rest := Melt(rows, names, ci, li, vcs[1..]);
      if m in rest {
        var c, r :| 0 <= c < |vcs[1..]| && 0 <= r < |rows| && m == Cross(rows, names, ci, li, vcs[1..][c], r);
        assert m == Cross(rows, names, ci, li, vcs[c + 1], r);
      }
      if c, r :| 0 <= c < |vcs| && 0 <= r < |rows| && m == Cross(rows, names, ci, li, vcs[c], r) {
        if c == 0 {
          assert MeltColumn(rows, names, ci, li, vcs[0])[r] == m;
        } else {
          assert m == Cross(rows, names, ci, li, vcs[1..][c - 1], r);
        }
      }
    }
  }

  /** The long rows of a sheet once its id columns are known. */
  function LongRows(rows: Grid, names: seq<string>, ci: nat, li: nat): seq<Melted>
    requires ci < |names| && li < |names|
  {
    DropMissing(Melt(rows, names, ci, li, ValueColumns(|names|, ci, li, 0)))
  }

  lemma LongRowsCount(rows: Grid, names: seq<string>, ci: nat, li: nat)
    requires ci < |names| && li < |names| && ci != li
    ensures |LongRows(rows, names, ci, li)| == PresentPairs(rows, ValueColumns(|names|, ci, li, 0))
    ensures |LongRows(rows, names, ci, li)| <= (|names| - 2) * |rows|
  {
    var vcs := ValueColumns(|names|, ci, li, 0);
    DropMissingMeltCount(rows, names, ci, li, vcs);
    ValueColumnsCount(|names|, ci, li, 0);
    assert |vcs| == |names| - 2;
  }

  /** Year and week of a period label as cells: both present or both missing,
      and when present the digit groups of the leftmost match. */
  function ToRecord(tag: NutsType, m: Melted): (rec: Record)
    ensures rec.nutsType == tag && rec.nuts == m.nuts && rec.country == m.country
    ensures rec.numberOfDeath == m.count
    ensures rec.year.Present? <==> rec.week.Present?
    ensures rec.year.Present? <==> exists q :: PeriodAt(m.time, q)
    ensures rec.year.Present? ==>
      |rec.year.text| == 4 && AllDigits(rec.year.text) && |rec.week.text| == 2 && AllDigits(rec.week.text)
    ensures rec.year.Present? ==> ExtractPeriod(m.time) == Some((rec.year.text, rec.week.text))
    ensures rec.year.Present? ==> exists q: nat ::
      && PeriodAt(m.time, q) && (forall q' :: 0 <= q' < q ==> !PeriodAt(m.time, q'))
      && rec.year.text == m.time[q..q + 4] && rec.week.text == m.time[q + 6..q + 8]
  {
    match ExtractPeriod(m.time)
    case Some((y, w)) => Record(tag, m.nuts, m.country, Present(y), Present(w), m.count)
    case None => Record(tag, m.nuts, m.country, Missing, Missing, m.count)
  }

  /** `df_long["nuts_type"] = nuts_type` and the projection to `OutputColumns`. */
  function Project(tag: NutsType, ms: seq<Melted>): seq<Record>
  {
    seq(|ms|, k requires 0 <= k < |ms| => ToRecord(tag, ms[k]))
  }

  /** No other column carries the name of column `j`. The rename works by
      name, so a second column of that name would become an id column too. */
  predicate NameOnce(names: seq<string>, j: nat)
    requires j < |names|
  {
    forall k :: 0 <= k < |names| && names[k] == names[j] ==> k == j
  }

  /** The pipeline on a frame with column names `names` and data rows `rows`. */
  function ReshapeFrame(tag: NutsType, names: seq<string>, rows: Grid): Result<seq<Record>>
  {
    var code := FirstColumn(names, IsCodeName, 0);
    var lab := FirstColumn(names, IsLabelName, 0);
    if code.None? || lab.None? then Err(MissingIdColumn)
    else if code.value == lab.value then Err(IdColumnsCoincide)
    else if !NameOnce(names, code.value) || !NameOnce(names, lab.value) then Err(DuplicateIdColumn)
    else Ok(Project(tag, LongRows(rows, names, code.value, lab.value)))
  }

  /** The reshaping of one sheet re-read with row `h` as its header: that row
      gives the column names and the rows below it are the data. */
  function ReshapeSheet(tag: NutsType, grid: Grid, h: nat): Result<seq<Record>>
    requires h < |grid|
  {
    ReshapeFrame(tag, ColumnNames(grid[h]), grid[h + 1..])
  }

  /** When reshaping fails: no column name passes the code test or none passes
      the label test, or the first of each is the same column, or another
      column carries the name of one of them. */
  lemma ReshapeFailures(tag: NutsType, names: seq<string>, rows: Grid)
    ensures ReshapeFrame(tag, names, rows) == Err(MissingIdColumn) <==>
      (forall j :: 0 <= j < |names| ==> !IsCodeName(names[j])) ||
      (forall j :: 0 <= j < |names| ==> !IsLabelName(names[j]))
    ensures ReshapeFrame(tag, names, rows) == Err(IdColumnsCoincide) ==>
      exists j :: 0 <= j < |names| && IsCodeName(names[j]) && IsLabelName(names[j])
    ensures ReshapeFrame(tag, names, rows) == Err(DuplicateIdColumn) ==>
      exists j, k :: 0 <= j < k < |names| && names[j] == names[k] &&
        (IsCodeName(names[j]) || IsLabelName(names[j]))
    ensures ReshapeFrame(tag, names, rows).Ok? <==>
      exists ci, li :: FirstColumn(names, IsCodeName, 0) == Some(ci) &&
        FirstColumn(names, IsLabelName, 0) == Some(li) && ci != li &&
        NameOnce(names, ci) && NameOnce(names, li)
  {
    if ReshapeFrame(tag, names, rows) == Err(DuplicateIdColumn) {
      var ci := FirstColumn(names, IsCodeName, 0).value;
      var li := FirstColumn(names, IsLabelName, 0).value;
      var i := if !NameOnce(names, ci) then ci else li;
      var k :| 0 <= k < |names| && names[k] == names[i] && k != i;
      if k < i {
        assert names[k] == names[i];
      } else {
        assert names[i] == names[k];
      }
    }
  }

  /** The rename is by name: once the frame reshapes, a column is melted
      exactly when its name differs from both id columns' names. */
  lemma ValueColumnsByName(tag: NutsType, names: seq<string>, rows: Grid, ci: nat, li: nat, j: nat)
    requires FirstColumn(names, IsCodeName, 0) == Some(ci)
    requires FirstColumn(names, IsLabelName, 0) == Some(li)
    requires ReshapeFrame(tag, names, rows).Ok? && j < |names|
    ensures j in ValueColumns(|names|, ci, li, 0) <==> names[j] != names[ci] && names[j] != names[li]
  {
    assert NameOnce(names, ci) && NameOnce(names, li);
  }

  /** Every record carries the file's tag and a present count; year and week
      are both present (four and two digits) or both missing, and they are the
      period extracted from the name of some column. */
  lemma ReshapeRecordShape(tag: NutsType, names: seq<string>, rows: Grid, rec: Record)
    requires ReshapeFrame(tag, names, rows).Ok? && rec in ReshapeFrame(tag, names, rows).value
    ensures rec.nutsType == tag && rec.numberOfDeath.Present?
    ensures rec.year.Present? <==> rec.week.Present?
    ensures rec.year.Present? ==>
      |rec.year.text| == 4 && AllDigits(rec.year.text) && |rec.week.text| == 2 && AllDigits(rec.week.text)
    ensures exists j ::
      && 0 <= j < |names|
      && (if rec.year.Present? then ExtractPeriod(names[j]) == Some((rec.year.text, rec.week.text))
          else ExtractPeriod(names[j]) == None)
  {
    var ci := FirstColumn(names, IsCodeName, 0).value;
    var li := FirstColumn(names, IsLabelName, 0).value;
    var long := LongRows(rows, names, ci, li);
    var k :| 0 <= k < |long| && rec == ToRecord(tag, long[k]);
    assert long[k] in long;
    assert long[k].count.Present?;
    LongRowsMembers(rows, names, ci, li, long[k]);
    var j, r :|
      && 0 <= j < |names| && j != ci && j != li && 0 <= r < |rows|
      && long[k] == Cross(rows, names, ci, li, j, r);
    assert long[k].time == names[j];
  }

  /** The long rows are exactly the crossings of a data row with a non-id
      column whose value is present. */
  lemma LongRowsMembers(rows: Grid, names: seq<string>, ci: nat, li: nat, m: Melted)
    requires ci < |names| && li < |names|
    ensures m in LongRows(rows, names, ci, li) <==>
      m.count.Present? &&
      exists j, r :: 0 <= j < |names| && j != ci && j != li && 0 <= r < |rows|
        && m == Cross(rows, names, ci, li, j, r)
  {
    var vcs := ValueColumns(|names|, ci, li, 0);
    MeltMembers(rows, names, ci, li, vcs, m);
    if j, r :|
      && 0 <= j < |names| && j != ci && j != li && 0 <= r < |rows|
      && m == Cross(rows, names, ci, li, j, r)
    {
      assert j in vcs;
      var c :| 0 <= c < |vcs| && vcs[c] == j;
      assert m == Cross(rows, names, ci, li, vcs[c], r);
    }
  }

  /** Each record copies the code, label and count cells of one data row
      crossed with one non-id column whose count is present, and takes year
      and week from that column's name. */
  lemma ReshapeRecordSound(tag: NutsType, names: seq<string>, rows: Grid, ci: nat, li: nat, rec: Record)
    requires FirstColumn(names, IsCodeName, 0) == Some(ci)
    requires FirstColumn(names, IsLabelName, 0) == Some(li)
    requires ci != li
    requires ReshapeFrame(tag, names, rows).Ok? && rec in ReshapeFrame(tag, names, rows).value
    ensures exists j, r ::
      && 0 <= j < |names| && j != ci && j != li && 0 <= r < |rows|
      && At(rows[r], j).Present?
      && rec == ToRecord(tag, Cross(rows, names, ci, li, j, r))
  {
    var long := LongRows(rows, names, ci, li);
    ReshapeValue(tag, names, rows, ci, li);
    ProjectSource(tag, long, rec);
    var m :| m in long && rec == ToRecord(tag, m);
    LongRowsMembers(rows, names, ci, li, m);
    var j, r :|
      && 0 <= j < |names| && j != ci && j != li && 0 <= r < |rows|
      && m == Cross(rows, names, ci, li, j, r);
    assert At(rows[r], j) == m.count;
  }

  /** With the id columns found and distinct, the frame reshapes to the
      projection of its long rows. */
  lemma ReshapeValue(tag: NutsType, names: seq<string>, rows: Grid, ci: nat, li: nat)
    requires FirstColumn(names, IsCodeName, 0) == Some(ci)
    requires FirstColumn(names, IsLabelName, 0) == Some(li)
    requires ci != li && NameOnce(names, ci) && NameOnce(names, li)
    ensures ReshapeFrame(tag, names, rows) == Ok(Project(tag, LongRows(rows, names, ci, li)))
  {
  }

  /** Every projected record comes from one melted row. */
  lemma ProjectSource(tag: NutsType, ms: seq<Melted>, rec: Record)
    requires rec in Project(tag, ms)
    ensures exists m :: m in ms && rec == ToRecord(tag, m)
  {
    var k :| 0 <= k < |ms| && Project(tag, ms)[k] == rec;
    assert ms[k] in ms;
  }

  /** Conversely, every data row crossed with a non-id column whose count is
      present yields a record. */
  lemma ReshapeRecordComplete(tag: NutsType, names: seq<string>, rows: Grid, ci: nat, li: nat, j: nat, r: nat)
    requires FirstColumn(names, IsCodeName, 0) == Some(ci)
    requires FirstColumn(names, IsLabelName, 0) == Some(li)
    requires ci != li && NameOnce(names, ci) && NameOnce(names, li)
    requires j < |names| && j != ci && j != li && r < |rows| && At(rows[r], j).Present?
    ensures ReshapeFrame(tag, names, rows).Ok?
    ensures ToRecord(tag, Cross(rows, names, ci, li, j, r)) in ReshapeFrame(tag, names, rows).value
  {
    var long := LongRows(rows, names, ci, li);
    var m := Cross(rows, names, ci, li, j, r);
    LongRowsMembers(rows, names, ci, li, m);
    var k :| 0 <= k < |long| && long[k] == m;
    assert ReshapeFrame(tag, names, rows).value[k] == ToRecord(tag, m);
  }

  /** The record count: one per present (data row, value column) pair, so at
      most data rows * (columns - 2). */
  lemma ReshapeRecordCount(tag: NutsType, names: seq<string>, rows: Grid, ci: nat, li: nat)
    requires FirstColumn(names, IsCodeName, 0) == Some(ci)
    requires FirstColumn(names, IsLabelName, 0) == Some(li)
    requires ci != li && NameOnce(names, ci) && NameOnce(names, li)
    ensures ReshapeFrame(tag, names, rows).Ok?
    ensures |ReshapeFrame(tag, names, rows).value| == PresentPairs(rows, ValueColumns(|names|, ci, li, 0))
    ensures |ReshapeFrame(tag, names, rows).value| <= (|names| - 2) * |rows|
  {
    LongRowsCount(rows, names, ci, li);
  }
}
