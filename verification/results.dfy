/** From a materialized sink to the user: rows emitted chunk by chunk through an atomic
    offset, collected per worker, and read back from the query result. A chunk is the list
    of its rows. */
module Results {
  import opened Common
  import opened Rows

  // ----- emitting (ORDER BY and LIMIT as sources)

  /** The chunk a caller gets that finds the given offset. */
  function EmitAt<Row>(rows: seq<Row>, offset: nat): (chunk: seq<Row>)
    ensures |chunk| <= STANDARD_VECTOR_SIZE
  {
    if offset >= |rows| then []
    else if offset + STANDARD_VECTOR_SIZE <= |rows| then rows[offset..offset + STANDARD_VECTOR_SIZE]
    else rows[offset..]
  }

  class Emitter<Row(0)> {
    const rows: seq<Row>
    var emitOffset: nat

    constructor (rows: seq<Row>)
      ensures this.rows == rows && emitOffset == 0
    {
      this.rows := rows;
      emitOffset := 0;
    }

    /** One fetch_add, then a copy of up to one vector of rows. */
    method EmitRows() returns (chunk: seq<Row>)
      modifies this`emitOffset
      ensures emitOffset == old(emitOffset) + STANDARD_VECTOR_SIZE
      ensures chunk == EmitAt(rows, old(emitOffset))
    {
      var offset := emitOffset;
      emitOffset := emitOffset + STANDARD_VECTOR_SIZE;
      chunk := [];
      if offset >= |rows| {
        return;
      }
      var count := if STANDARD_VECTOR_SIZE < |rows| - offset then STANDARD_VECTOR_SIZE else |rows| - offset;
      var row := 0;
      while row < count
        invariant 0 <= row <= count && chunk == rows[offset..offset + row]
      {
        chunk := chunk + [rows[offset + row]];
        row := row + 1;
      }
    }
  }

  /** The chunks that one thread pulls from an offset on, up to the first empty one. */
  function Pulled<Row(!new)>(rows: seq<Row>, offset: nat): seq<seq<Row>>
    decreases |rows| - offset
  {
    if offset >= |rows| then [] else [EmitAt(rows, offset)] + Pulled(rows, offset + STANDARD_VECTOR_SIZE)
  }

  /** One thread pulls all rows in order, in chunks none of which is empty. */
  lemma {:induction false} PulledIsAll<Row(!new)>(rows: seq<Row>, offset: nat)
    requires offset <= |rows|
    ensures Concat(Pulled(rows, offset)) == rows[offset..]
    ensures forall k :: 0 <= k < |Pulled(rows, offset)| ==> Pulled(rows, offset)[k] != []
    decreases |rows| - offset
  {
    if offset == |rows| {
    } else {
      var rest := offset + STANDARD_VECTOR_SIZE;
      if rest <= |rows| {
        PulledIsAll(rows, rest);
        assert rows[offset..] == rows[offset..rest] + rows[rest..];
      } else {
        assert Pulled(rows, rest) == [] && rows[offset..] + [] == rows[offset..];
        assert Concat<Row>([]) == [];
      }
    }
  }

  // ----- the query result

  class QueryResult<V(0, !new)> {
    var chunks: seq<seq<seq<V>>>

    constructor ()
      ensures chunks == []
    {
      chunks := [];
    }

    method AddChunk(chunk: seq<seq<V>>)
      modifies this
      ensures chunks == old(chunks) + [chunk]
    {
      chunks := chunks + [chunk];
    }

    method RowCount() returns (count: nat)
      ensures count == |Concat(chunks)|
    {
      count := 0;
      var i := 0;
      while i < |chunks|
        invariant 0 <= i <= |chunks| && count == |Concat(chunks[..i])|
      {
        ConcatSnoc(chunks, i);
        count := count + |chunks[i]|;
        i := i + 1;
      }
      assert chunks[..|chunks|] == chunks;
    }

    /** One cell; it is an error (false) when there is no such row. */
    method GetValue(column: nat, row0: nat) returns (found: bool, value: V)
      requires forall r :: r in Concat(chunks) ==> column < |r|
      ensures found <==> row0 < |Concat(chunks)|
      ensures found ==> value == Concat(chunks)[row0][column]
    {
      var remaining: nat := row0;
      var i := 0;
      while i < |chunks|
        invariant 0 <= i <= |chunks| && row0 == |Concat(chunks[..i])| + remaining
      {
        ConcatSnoc(chunks, i);
        ConcatPrefix(chunks, i + 1);
        if remaining < |chunks[i]| {
          assert Concat(chunks)[row0] == chunks[i][remaining];
          return true, chunks[i][remaining][column];
        }
        remaining := remaining - |chunks[i]|;
        i := i + 1;
      }
      assert chunks[..|chunks|] == chunks;
      found := false;
      value := *;
    }

    method ToRows() returns (rows: seq<seq<V>>)
      ensures rows == Concat(chunks)
    {
      rows := [];
      var i := 0;
      while i < |chunks|
        invariant 0 <= i <= |chunks| && rows == Concat(chunks[..i])
      {
        ConcatSnoc(chunks, i);
        var row := 0;
        while row < |chunks[i]|
          invariant 0 <= row <= |chunks[i]| && rows == Concat(chunks[..i]) + chunks[i][..row]
        {
          var values: seq<V> := [];
          var column := 0;
          while column < |chunks[i][row]|
            invariant 0 <= column <= |chunks[i][row]| && values == chunks[i][row][..column]
          {
            values := values + [chunks[i][row][column]];
            column := column + 1;
          }
          assert values == chunks[i][row];
          assert chunks[i][..row + 1] == chunks[i][..row] + [chunks[i][row]];
          rows := rows + [values];
          row := row + 1;
        }
        assert chunks[i][..|chunks[i]|] == chunks[i];
        i := i + 1;
      }
      assert chunks[..|chunks|] == chunks;
    }
  }

  lemma ConcatSnoc<Row(!new)>(chunks: seq<seq<Row>>, i: nat)
    requires i < |chunks|
    ensures Concat(chunks[..i + 1]) == Concat(chunks[..i]) + chunks[i]
  {
    assert chunks[..i + 1] == chunks[..i] + [chunks[i]];
    ConcatAppend(chunks[..i], [chunks[i]]);
    assert Concat([chunks[i]]) == chunks[i] + Concat([chunks[i]][1..]);
  }

  lemma ConcatPrefix<Row(!new)>(chunks: seq<seq<Row>>, i: nat)
    requires i <= |chunks|
    ensures Concat(chunks[..i]) <= Concat(chunks)
  {
    assert chunks == chunks[..i] + chunks[i..];
    ConcatAppend(chunks[..i], chunks[i..]);
  }

  // ----- the collector

  /** Sink keeps a copy of each chunk, Combine appends the local list to the global one, and
      Finalize moves the global list to the result. */
  class ResultCollector<V(0, !new)> {
    var local: seq<seq<seq<V>>>
    var global: seq<seq<seq<V>>>

    constructor ()
      ensures local == [] && global == []
    {
      local, global := [], [];
    }

    method Sink(chunk: seq<seq<V>>)
      modifies this`local
      ensures local == old(local) + [chunk]
    {
      local := local + [chunk];
    }

    method Combine()
      modifies this
      ensures global == old(global) + old(local) && local == []
    {
      var i := 0;
      while i < |local|
        invariant 0 <= i <= |local| && local == old(local) && global == old(global) + local[..i]
      {
        global := global + [local[i]];
        i := i + 1;
      }
      local := [];
    }

    method Finalize(result: QueryResult<V>)
      modifies result
      ensures result.chunks == old(result.chunks) + global
    {
      var i := 0;
      while i < |global|
        invariant 0 <= i <= |global| && result.chunks == old(result.chunks) + global[..i]
      {
        result.AddChunk(global[i]);
        i := i + 1;
      }
    }
  }

  lemma PulledStep<Row(!new)>(rows: seq<Row>, offset: nat)
    ensures Pulled(rows, offset) ==
            if EmitAt(rows, offset) == [] then [] else [EmitAt(rows, offset)] + Pulled(rows, offset + STANDARD_VECTOR_SIZE)
  {
  }

  lemma OneMore<A>(before: seq<A>, one: A, rest: seq<A>)
    ensures before + ([one] + rest) == before + [one] + rest
  {
  }

  /** ORDER BY at the top of a plan: its source is drained by one thread, so the result lists
      the sorted rows in order, each exactly once. */
  method DrainOrdered<V(0, !new)>(rows: seq<seq<V>>) returns (result: QueryResult<V>)
    ensures fresh(result) && result.chunks == Pulled(rows, 0) && Concat(result.chunks) == rows
  {
    hide Pulled, Concat;
    var source := new Emitter(rows);
    var collector := new ResultCollector<V>();
    var chunk := source.EmitRows();
    while |chunk| > 0
      invariant fresh(source) && fresh(collector) && source.rows == rows
      invariant source.emitOffset >= STANDARD_VECTOR_SIZE
      invariant chunk == EmitAt(rows, source.emitOffset - STANDARD_VECTOR_SIZE)
      invariant collector.global == []
      invariant collector.local + Pulled(rows, source.emitOffset - STANDARD_VECTOR_SIZE) == Pulled(rows, 0)
      decreases |rows| + STANDARD_VECTOR_SIZE - source.emitOffset
    {
      PulledStep(rows, source.emitOffset - STANDARD_VECTOR_SIZE);
      OneMore(collector.local, chunk, Pulled(rows, source.emitOffset));
      collector.Sink(chunk);
      chunk := source.EmitRows();
    }
    PulledStep(rows, source.emitOffset - STANDARD_VECTOR_SIZE);
    collector.Combine();
    result := new QueryResult<V>();
    collector.Finalize(result);
    PulledIsAll(rows, 0);
  }
}
