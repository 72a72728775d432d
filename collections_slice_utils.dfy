/** MakeGrid of collections/slice_utils.go: a rows-by-cols two-dimensional
    slice, each row allocated on its own. The element type is int, whose
    zero value is 0. */
module CollectionsSliceUtils {

  /** MakeGrid: rows fresh rows of cols zeros each, no two rows the same
      array, so a write to one row cannot show through another. Go's make
      panics on a negative length, hence the precondition; cols is only
      used when there is a row. */
  method MakeGrid(rows: int, cols: int) returns (grid: array<array<int>>)
    requires rows >= 0 && (rows > 0 ==> cols >= 0)
    ensures fresh(grid) && grid.Length == rows
    ensures forall i :: 0 <= i < rows ==> fresh(grid[i]) && grid[i].Length == cols
    ensures forall i, j :: 0 <= i < rows && 0 <= j < grid[i].Length ==> grid[i][j] == 0
    ensures forall i, j :: 0 <= i < j < rows ==> grid[i] != grid[j]
  {
    var empty := new int[0];
    grid := new array<int>[rows](_ => empty);
    var i := 0;
    while i < rows
      invariant 0 <= i <= rows
      invariant forall k :: 0 <= k < i ==> fresh(grid[k]) && grid[k].Length == cols
      invariant forall k, j :: 0 <= k < i && 0 <= j < grid[k].Length ==> grid[k][j] == 0
      invariant forall k, l :: 0 <= k < l < i ==> grid[k] != grid[l]
    {
      var row := new int[cols](_ => 0);
      grid[i] := row;
      i := i + 1;
    }
  }
}
