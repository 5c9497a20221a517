/** The header-row scan of `process_file`: the first of rows 0..4 that holds
    "GEO" becomes the header row. */
module HeaderScan {
  import opened Tables
  import opened Text

  /** How many leading rows the scan inspects (`range(5)`). */
  const ScanLimit: nat := 5

  /** Some cell of the row, rendered as a string, contains "GEO" (case-sensitive). */
  predicate HasGeo(row: seq<Cell>)
  {
    exists j :: 0 <= j < |row| && Contains(Render(row[j]), "GEO")
  }

  /** The scan resumed at row `i`: a row past the end of the grid is an
      indexing error, a marked row is the answer, and running past the last
      inspected row falls back to row 0. */
  function ScanFrom(grid: Grid, i: nat): (r: Result<nat>)
    requires i <= ScanLimit && i <= |grid|
    ensures r.Ok? ==> r.value < ScanLimit && r.value < |grid|
    decreases ScanLimit - i
  {
    if i == ScanLimit then Ok(0)
    else if i == |grid| then Err(RowOutOfBounds)
    else if HasGeo(grid[i]) then Ok(i)
    else ScanFrom(grid, i + 1)
  }

  /** The header row chosen for a sheet, or the error the scan raises. */
  function HeaderRow(grid: Grid): (r: Result<nat>)
    ensures r.Ok? ==> r.value < ScanLimit && r.value < |grid|
  {
    ScanFrom(grid, 0)
  }

  /** What the scan promises: the least marked row among rows 0..4; row 0 when
      five rows exist and none is marked; an error exactly when the sheet runs
      out of rows before any marked row. */
  lemma {:induction false} HeaderRowIsFirstMarked(grid: Grid)
    ensures HeaderRow(grid).Ok? && HasGeo(grid[HeaderRow(grid).value]) ==>
      forall k :: 0 <= k < HeaderRow(grid).value ==> !HasGeo(grid[k])
    ensures HeaderRow(grid).Ok? && !HasGeo(grid[HeaderRow(grid).value]) ==>
      HeaderRow(grid).value == 0 && ScanLimit <= |grid| &&
      forall k :: 0 <= k < ScanLimit ==> !HasGeo(grid[k])
    ensures HeaderRow(grid).Err? <==>
      |grid| < ScanLimit && forall k :: 0 <= k < |grid| ==> !HasGeo(grid[k])
  {
    ScanFromIsFirstMarked(grid, 0);
  }

  lemma {:induction false} ScanFromIsFirstMarked(grid: Grid, i: nat)
    requires i <= ScanLimit && i <= |grid|
    requires forall k :: 0 <= k < i ==> !HasGeo(grid[k])
    ensures ScanFrom(grid, i).Ok? && HasGeo(grid[ScanFrom(grid, i).value]) ==>
      forall k :: 0 <= k < ScanFrom(grid, i).value ==> !HasGeo(grid[k])
    ensures ScanFrom(grid, i).Ok? && !HasGeo(grid[ScanFrom(grid, i).value]) ==>
      ScanFrom(grid, i).value == 0 && ScanLimit <= |grid| &&
      forall k :: 0 <= k < ScanLimit ==> !HasGeo(grid[k])
    ensures ScanFrom(grid, i).Err? <==>
      |grid| < ScanLimit && forall k :: 0 <= k < |grid| ==> !HasGeo(grid[k])
    decreases ScanLimit - i
  {
    if i < ScanLimit && i < |grid| && !HasGeo(grid[i]) {
      ScanFromIsFirstMarked(grid, i + 1);
    }
  }

  /** A sheet whose first three rows are unmarked and whose fourth row holds
      "GEO" gets row 3 as its header. */
  lemma MarkerInRowThree(grid: Grid)
    requires |grid| > 3 && HasGeo(grid[3])
    requires forall k :: 0 <= k < 3 ==> !HasGeo(grid[k])
    ensures HeaderRow(grid) == Ok(3)
  {
  }

  /** The `for i in range(5)` loop with its `break`, followed by the default
      to row 0. */
  method LocateHeader(grid: Grid) returns (r: Result<nat>)
    ensures r == HeaderRow(grid)
  {
    var headerRow: Option<nat> := None;
    var i := 0;
    while i < ScanLimit
      invariant 0 <= i <= ScanLimit && i <= |grid|
      invariant headerRow == None
      invariant ScanFrom(grid, i) == HeaderRow(grid)
    {
      if i == |grid| {
        return Err(RowOutOfBounds);
      }
      if HasGeo(grid[i]) {
        headerRow := Some(i);
        break;
      }
      i := i + 1;
    }
    if headerRow == None {
      headerRow := Some(0);
    }
    return Ok(headerRow.value);
  }
}
