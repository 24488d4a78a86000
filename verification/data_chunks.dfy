/** Data chunks: equally long columns, appended to, sliced and copied row by row. */
module DataChunks {
  import opened Common
  import opened Values
  import opened Vectors

  /** No two columns share storage. */
  ghost predicate Separate(columns: seq<ColumnVector>) {
    forall i, j :: 0 <= i < j < |columns| ==> columns[i].Repr !! columns[j].Repr
  }

  type Grid = seq<seq<Value>>

  /** Row r of a list of columns. */
  ghost function RowOf(grid: Grid, r: nat): (row: seq<Value>)
    requires forall c :: 0 <= c < |grid| ==> r < |grid[c]|
    ensures |row| == |grid|
  {
    seq(|grid|, c requires 0 <= c < |grid| => grid[c][r])
  }

  ghost predicate IsGrid(grid: Grid) {
    forall c :: 0 <= c < |grid| ==> |grid[c]| == STANDARD_VECTOR_SIZE
  }

  ghost function RowsOf(grid: Grid, count: nat): (rows: seq<seq<Value>>)
    requires IsGrid(grid) && count <= STANDARD_VECTOR_SIZE
    ensures |rows| == count
  {
    seq(count, r requires 0 <= r < count => RowOf(grid, r))
  }

  /** All slots of all columns. */
  ghost function GridOf(columns: seq<ColumnVector>, storage: set<object>): (grid: Grid)
    requires forall c :: 0 <= c < |columns| ==> columns[c].Sized() && columns[c].Repr <= storage
    reads storage
    ensures |grid| == |columns| && IsGrid(grid)
    ensures forall c :: 0 <= c < |columns| ==> grid[c] == columns[c].Contents()
  {
    seq(|columns|, c requires 0 <= c < |columns| && columns[c].Sized() && columns[c].Repr <= storage reads storage =>
      assert columns[c].data in columns[c].Repr && columns[c].validity.words in columns[c].Repr;
      columns[c].Contents())
  }

  class DataChunk {
    var columns: seq<ColumnVector>
    var types: seq<LogicalType>
    var count: nat
    ghost var Storage: set<object>

    ghost predicate Valid()
      reads this, Storage
    {
      && this !in Storage && |types| == |columns| && count <= STANDARD_VECTOR_SIZE && Separate(columns)
      && forall c :: 0 <= c < |columns| ==>
        columns[c].Repr <= Storage && columns[c].Valid() && columns[c].columnType == types[c]
    }

    ghost function Cells(): (grid: Grid)
      requires Valid()
      reads this, Storage
      ensures |grid| == |columns| && IsGrid(grid)
    {
      GridOf(columns, Storage)
    }

    /** The rows of the chunk. */
    ghost function Rows(): (rows: seq<seq<Value>>)
      requires Valid()
      reads this, Storage
      ensures |rows| == count
    {
      RowsOf(Cells(), count)
    }

    constructor ()
      ensures Valid() && columns == [] && types == [] && count == 0 && Storage == {}
    {
      columns, types, count := [], [], 0;
      Storage := {};
    }

    method Initialize(newTypes: seq<LogicalType>)
      modifies this
      ensures Valid() && types == newTypes && count == 0 && fresh(Storage)
      ensures forall c :: 0 <= c < |types| ==> Cells()[c] == BlankColumn(types[c])
    {
      columns, types, count := [], newTypes, 0;
      Storage := {};
      var i := 0;
      while i < |types|
        invariant 0 <= i == |columns| <= |types| == |newTypes| && types == newTypes && count == 0
        invariant Separate(columns) && fresh(Storage) && this !in Storage
        invariant forall c :: 0 <= c < i ==>
          columns[c].Repr <= Storage && columns[c].Valid() && columns[c].columnType == types[c]
        invariant forall c :: 0 <= c < i ==> columns[c].Contents() == BlankColumn(types[c])
      {
        var column := new ColumnVector(types[i]);
        columns := columns + [column];
        Storage := Storage + column.Repr;
        i := i + 1;
      }
    }

    /** Throws (false) beyond the vector size. */
    method SetCardinality(newCount: nat) returns (ok: bool)
      modifies this`count
      ensures ok <==> newCount <= STANDARD_VECTOR_SIZE
      ensures count == if ok then newCount else old(count)
    {
      if newCount > STANDARD_VECTOR_SIZE {
        return false;
      }
      count := newCount;
      return true;
    }

    method GetValue(column: nat, row: nat) returns (r: Option<Value>)
      requires Valid() && column < |columns|
      ensures r == if row < STANDARD_VECTOR_SIZE && Presentable(Cells()[column][row]) then Some(Cells()[column][row]) else None
      ensures r.Some? ==> TypeOf(r.value) == types[column]
    {
      r := columns[column].GetValue(row);
    }

    method SetValue(column: nat, row: nat, value: Value) returns (ok: bool)
      requires Valid() && column < |columns|
      modifies columns[column].Repr
      ensures Valid()
      ensures ok <==> row < STANDARD_VECTOR_SIZE && TypeOf(value) == types[column]
      ensures Cells() == if ok then old(Cells())[column := old(Cells())[column][row := value]] else old(Cells())
    {
      ok := columns[column].SetValue(row, value);
    }

    method ResetColumn(column: nat)
      requires Valid() && column < |columns|
      modifies columns[column].Repr
      ensures Valid()
    {
      columns[column].Reset();
    }

    /** One column from the selected slots of another chunk's column. */
    method GatherColumn(column: nat, source: ColumnVector, selection: seq<nat>, n: nat) returns (ok: bool)
      requires Valid() && column < |columns| && source.Valid() && source.columnType == types[column]
      requires source.Repr !! columns[column].Repr && n <= |selection| && n <= STANDARD_VECTOR_SIZE
      modifies columns[column].Repr
      ensures Valid()
      ensures ok <==> Readable(source.Contents(), selection, n)
      ensures ok ==> Gathered(source.Contents(), Cells()[column], selection, n)
      ensures forall c :: 0 <= c < |columns| && c != column ==> Cells()[c] == old(Cells())[c]
    {
      ok := Gather(source, columns[column], selection, n);
    }

    method Reset()
      requires Valid()
      modifies this`count, Storage
      ensures Valid() && count == 0
    {
      count := 0;
      var c := 0;
      while c < |columns|
        invariant 0 <= c <= |columns| && Valid() && count == 0
      {
        ResetColumn(c);
        c := c + 1;
      }
    }

    /** Throws (false) on a row of another width, on a full chunk and on a value of another
        type. By then it may have written some cells, but no row has changed. */
    method AppendRow(row: seq<Value>) returns (ok: bool)
      requires Valid()
      modifies this`count, Storage
      ensures Valid()
      ensures ok <==> |row| == |columns| && old(count) < STANDARD_VECTOR_SIZE
                      && forall c :: 0 <= c < |row| ==> TypeOf(row[c]) == types[c]
      ensures Rows() == if ok then old(Rows()) + [row] else old(Rows())
    {
      if |row| != |columns| {
        return false;
      }
      if count >= STANDARD_VECTOR_SIZE {
        return false;
      }
      ghost var before := Cells();
      ok := true;
      var c := 0;
      while c < |row|
        invariant 0 <= c <= |row| && Valid() && count == old(count) && ok
        invariant forall k :: 0 <= k < c ==> TypeOf(row[k]) == types[k]
        invariant Stored(before, Cells(), count, row, c)
      {
        var stored := SetValue(c, count, row[c]);
        if !stored {
          ok := false;
          break;
        }
        c := c + 1;
      }
      StoredRows(before, Cells(), count, row, c);
      if ok {
        count := count + 1;
      }
    }

    /** Cell by cell, column by column, the selected rows of another chunk; it stops (false)
        at the first cell that cannot be read. */
    method Fill(other: DataChunk, selection: seq<nat>, n: nat) returns (ok: bool)
      requires Valid() && other.Valid() && other.types == types
      requires Storage !! other.Storage && other !in Storage && this !in other.Storage
      requires n <= |selection| && n <= STANDARD_VECTOR_SIZE
      modifies Storage
      ensures Valid()
      ensures ok <==> AllReadable(other.Cells(), selection, n)
      ensures ok ==> RowsOf(Cells(), n) == Selected(other.Cells(), selection, n)
    {
      ghost var from := other.Cells();
      ok := true;
      var c := 0;
      while c < |columns|
        invariant 0 <= c <= |columns| && Valid() && ok
        invariant other.Valid() && other.Cells() == from
        invariant forall k :: 0 <= k < c ==> Gathered(from[k], Cells()[k], selection, n)
      {
        ok := GatherColumn(c, other.columns[c], selection, n);
        if !ok {
          break;
        }
        c := c + 1;
      }
      if ok {
        GatheredRows(from, Cells(), selection, n);
      }
    }

    /** The selected rows, in the selection's order, become the rows of the chunk. Throws
        (false), and leaves the chunk alone, when there are too many of them or one has a
        cell that cannot be read. */
    method Slice(selection: seq<nat>, newCount: nat) returns (ok: bool)
      requires Valid() && (newCount <= STANDARD_VECTOR_SIZE ==> newCount <= |selection|)
      modifies this
      ensures Valid()
      ensures ok <==> newCount <= STANDARD_VECTOR_SIZE && AllReadable(old(Cells()), selection, newCount)
      ensures ok ==> types == old(types) && Rows() == Selected(old(Cells()), selection, newCount)
      ensures ok ==> forall i :: 0 <= i < newCount && selection[i] < old(count) ==> Rows()[i] == old(Rows())[selection[i]]
      ensures !ok ==> columns == old(columns) && types == old(types) && count == old(count) && Storage == old(Storage)
      ensures ok ==> fresh(Storage)
    {
      var copy;
      copy, ok := Compacted(selection, newCount);
      if ok {
        MoveFrom(copy);
      }
    }

    method Compacted(selection: seq<nat>, newCount: nat) returns (copy: DataChunk, ok: bool)
      requires Valid() && (newCount <= STANDARD_VECTOR_SIZE ==> newCount <= |selection|)
      ensures fresh(copy) && fresh(copy.Storage) && copy.Valid()
      ensures ok <==> newCount <= STANDARD_VECTOR_SIZE && AllReadable(Cells(), selection, newCount)
      ensures ok ==> copy.types == types && copy.Rows() == Selected(Cells(), selection, newCount)
    {
      copy := new DataChunk();
      copy.Initialize(types);
      ok := copy.SetCardinality(newCount);
      if ok {
        ok := copy.Fill(this, selection, newCount);
      }
    }

    method MoveFrom(other: DataChunk)
      requires other.Valid() && this !in other.Storage
      modifies this
      ensures columns == other.columns && types == other.types && Storage == other.Storage && Valid()
      ensures Rows() == old(other.Rows())
    {
      columns, types, count := other.columns, other.types, other.count;
      Storage := other.Storage;
    }

    /** Afterwards both chunks have the same rows, and share nothing. */
    method CopyFrom(other: DataChunk) returns (ok: bool)
      requires Valid() && other.Valid() && other != this
      requires Storage !! other.Storage && other !in Storage && this !in other.Storage
      modifies this, Storage
      ensures Valid() && types == other.types
      ensures Storage !! other.Storage && other !in Storage && this !in other.Storage
      ensures ok <==> AllReadable(other.Cells(), All(other.count), other.count)
      ensures ok ==> Rows() == other.Rows()
    {
      if types != other.types {
        Initialize(other.types);
      }
      Reset();
      ok := SetCardinality(other.count);
      ok := Fill(other, All(other.count), other.count);
      if ok {
      }
    }
  }

  /** The selection of the first n rows. */
  function All(n: nat): seq<nat> { seq(n, i => i) }

  ghost predicate AllReadable(grid: Grid, selection: seq<nat>, n: nat)
    requires n <= |selection|
  {
    forall c :: 0 <= c < |grid| ==> Readable(grid[c], selection, n)
  }

  /** The first n selected slots of a column can be read without an exception. */
  ghost predicate Readable(column: seq<Value>, selection: seq<nat>, n: nat)
    requires n <= |selection|
  {
    forall i :: 0 <= i < n ==> selection[i] < |column| && Presentable(column[selection[i]])
  }

  /** The second column starts with the selected slots of the first. */
  ghost predicate Gathered(from: seq<Value>, to: seq<Value>, selection: seq<nat>, n: nat)
    requires n <= |selection|
  {
    Readable(from, selection, n) && n <= |to| && forall i :: 0 <= i < n ==> to[i] == from[selection[i]]
  }

  /** The inner loop of Slice and CopyFrom: cell by cell, until one cannot be read. */
  method Gather(source: ColumnVector, target: ColumnVector, selection: seq<nat>, n: nat) returns (ok: bool)
    requires source.Valid() && target.Valid() && source.columnType == target.columnType && source.Repr !! target.Repr
    requires n <= |selection| && n <= STANDARD_VECTOR_SIZE
    modifies target.Repr
    ensures target.Valid()
    ensures ok <==> Readable(source.Contents(), selection, n)
    ensures ok ==> Gathered(source.Contents(), target.Contents(), selection, n)
  {
    ghost var from := source.Contents();
    ok := true;
    var i := 0;
    while i < n
      invariant 0 <= i <= n && target.Valid() && source.Valid() && source.Contents() == from && ok
      invariant Gathered(from, target.Contents(), selection, i)
    {
      var value := source.GetValue(selection[i]);
      if value.None? {
        ok := false;
        break;
      }
      var stored := target.SetValue(i, value.value);
      i := i + 1;
    }
  }

  /** Rows of the grid picked by the selection. */
  ghost function Selected(grid: Grid, selection: seq<nat>, n: nat): (rows: seq<seq<Value>>)
    requires n <= |selection| && AllReadable(grid, selection, n)
    ensures |rows| == n
  {
    seq(n, i requires 0 <= i < n =>
      assert forall c :: 0 <= c < |grid| ==> Readable(grid[c], selection, n) && selection[i] < |grid[c]|;
      RowOf(grid, selection[i]))
  }

  /** A cell is unreadable exactly when it holds an embedding without components, or is none. */
  lemma ReadableIff(grid: Grid, selection: seq<nat>, n: nat)
    requires n <= |selection|
    ensures AllReadable(grid, selection, n) <==>
            forall c, i :: 0 <= c < |grid| && 0 <= i < n ==>
              selection[i] < |grid[c]| && grid[c][selection[i]] != Vector([])
  {
    if AllReadable(grid, selection, n) {
      forall c, i | 0 <= c < |grid| && 0 <= i < n ensures selection[i] < |grid[c]| && grid[c][selection[i]] != Vector([]) {
        assert Readable(grid[c], selection, n);
      }
    }
  }

  /** The i-th selected row has the cells of the i-th selected slots. */
  lemma SelectedCell(grid: Grid, selection: seq<nat>, n: nat, i: nat, c: nat)
    requires n <= |selection| && AllReadable(grid, selection, n) && i < n && c < |grid|
    ensures Readable(grid[c], selection, n) && |Selected(grid, selection, n)[i]| == |grid|
    ensures Selected(grid, selection, n)[i][c] == grid[c][selection[i]]
  {
  }

  lemma GatheredRows(from: Grid, to: Grid, selection: seq<nat>, n: nat)
    requires IsGrid(from) && IsGrid(to) && |from| == |to| && n <= |selection| && n <= STANDARD_VECTOR_SIZE
    requires forall c :: 0 <= c < |from| ==> Gathered(from[c], to[c], selection, n)
    ensures AllReadable(from, selection, n)
    ensures RowsOf(to, n) == Selected(from, selection, n)
  {
    forall i | 0 <= i < n ensures RowOf(to, i) == RowOf(from, selection[i]) {
    }
  }

  /** The first n columns have the row stored in slot 'at', the others are as before. */
  ghost predicate Stored(before: Grid, now: Grid, at: nat, row: seq<Value>, n: nat) {
    && IsGrid(before) && IsGrid(now) && |before| == |now| == |row| && n <= |row| && at < STANDARD_VECTOR_SIZE
    && (forall c :: 0 <= c < n ==> now[c] == before[c][at := row[c]])
    && (forall c :: n <= c < |row| ==> now[c] == before[c])
  }

  lemma StoredRows(before: Grid, now: Grid, at: nat, row: seq<Value>, n: nat)
    requires Stored(before, now, at, row, n)
    ensures RowsOf(now, at) == RowsOf(before, at)
    ensures n == |row| ==> RowsOf(now, at + 1) == RowsOf(before, at) + [row]
  {
    forall r | 0 <= r < at ensures RowOf(now, r) == RowOf(before, r) {
    }
    if n == |row| {
      assert RowOf(now, at) == row;
    }
  }

  /** One row, cell by cell. */
  method MaterializeRow(chunk: DataChunk, row: nat) returns (values: seq<Value>, ok: bool)
    requires chunk.Valid() && row < chunk.count
    ensures ok <==> forall c :: 0 <= c < |chunk.columns| ==> Presentable(chunk.Cells()[c][row])
    ensures ok ==> values == RowOf(chunk.Cells(), row)
  {
    ghost var grid := chunk.Cells();
    values, ok := [], true;
    var column := 0;
    while column < |chunk.columns|
      invariant 0 <= column == |values| <= |chunk.columns|
      invariant forall c :: 0 <= c < column ==> Presentable(grid[c][row]) && values[c] == grid[c][row]
    {
      var value := chunk.GetValue(column, row);
      if value.None? {
        return values, false;
      }
      values := values + [value.value];
      column := column + 1;
    }
  }

  /** Copies the rows of a chunk out, cell by cell, to the end of a list of rows. */
  method MaterializeChunk(chunk: DataChunk, rows0: seq<seq<Value>>) returns (rows: seq<seq<Value>>, ok: bool)
    requires chunk.Valid()
    ensures ok <==> AllReadable(chunk.Cells(), All(chunk.count), chunk.count)
    ensures ok ==> rows == rows0 + chunk.Rows()
  {
    ghost var grid, all := chunk.Cells(), chunk.Rows();
    rows, ok := rows0, true;
    var row := 0;
    while row < chunk.count
      invariant 0 <= row <= chunk.count && ok
      invariant rows == rows0 + all[..row]
      invariant forall c, r :: 0 <= c < |grid| && 0 <= r < row ==> Presentable(grid[c][r])
    {
      var values;
      values, ok := MaterializeRow(chunk, row);
      if !ok {
        assert All(chunk.count)[row] == row;
        return;
      }
      assert all[..row + 1] == all[..row] + [values];
      rows := rows + [values];
      row := row + 1;
    }
    assert all[..row] == all;
  }
}
