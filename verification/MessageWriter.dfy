/** Messages written into a growing buffer, lengths and counts backfilled in place. */
module MessageWriter {
  import opened Bytes
  import opened Values
  import opened Codec
  import opened CodecCursor
  import opened WireLists
  import opened Messages

  lemma Backfilled(base: seq<Byte>, hole: seq<Byte>, body: seq<Byte>, fill: seq<Byte>)
    requires |hole| == |fill|
    ensures var s := (base + hole) + body;
            s[..|base|] + fill + s[|base| + |fill|..] == base + (fill + body)
  {
    var s := (base + hole) + body;
    assert s[..|base|] == base && s[|base| + |fill|..] == body;
    Assoc(base, fill, body);
  }

  /** A value behind its length, which is only known once the value is written. */
  method WriteCell(v: Value, out: Buffer)
    modifies out
    ensures out.bytes == old(out.bytes) + Cell(v)
  {
    hide Encode, Le;
    ghost var base := out.bytes;
    var at := |out.bytes|;
    out.Extend([0, 0, 0, 0]);
    EncodeValue(v, out);
    var len := |out.bytes| - at - 4;
    Backfilled(base, [0, 0, 0, 0], Encode(v), Le(len, 4));
    out.Patch(at, Le(len, 4));
  }

  method WriteCells(cells: Cells, out: Buffer)
    modifies out
    ensures out.bytes == old(out.bytes) + Join(Cell, cells)
  {
    assert Join(Cell, cells[..0]) == [];
    hide Join, Cell;
    for i := 0 to |cells|
      invariant out.bytes == old(out.bytes) + Join(Cell, cells[..i])
    {
      WriteCell(cells[i], out);
      JoinNext(Cell, cells, i);
      Assoc(old(out.bytes), Join(Cell, cells[..i]), Cell(cells[i]));
    }
    assert cells[..|cells|] == cells;
  }

  /** `encode_row_into`. */
  method WriteRow(row: Cells, out: Buffer)
    modifies out
    ensures out.bytes == old(out.bytes) + Row(row)
  {
    hide Join, Cell, Le;
    out.Extend(Le(|row|, 4));
    WriteCells(row, out);
    Assoc(old(out.bytes), Le(|row|, 4), Join(Cell, row));
  }

  method WriteParams(params: Cells, out: Buffer)
    modifies out
    ensures out.bytes == old(out.bytes) + Params(params)
  {
    hide Join, Cell, Le;
    out.Extend(Le(|params|, 2));
    WriteCells(params, out);
    Assoc(old(out.bytes), Le(|params|, 2), Join(Cell, params));
  }

  /** `encode_columns`. */
  method WriteColumns(columns: seq<Text>, out: Buffer)
    modifies out
    ensures out.bytes == old(out.bytes) + Columns(columns)
  {
    assert Join(Prefixed, columns[..0]) == [];
    hide Join, Prefixed, Le;
    out.Extend(Le(|columns|, 4));
    ghost var base := out.bytes;
    for i := 0 to |columns|
      invariant out.bytes == base + Join(Prefixed, columns[..i])
    {
      WriteBytes(columns[i], out);
      JoinNext(Prefixed, columns, i);
      Assoc(base, Join(Prefixed, columns[..i]), Prefixed(columns[i]));
    }
    assert columns[..|columns|] == columns;
    Assoc(old(out.bytes), Le(|columns|, 4), Join(Prefixed, columns));
  }

  method WriteRows(rows: seq<Cells>, out: Buffer)
    modifies out
    ensures out.bytes == old(out.bytes) + RowList(rows)
  {
    assert Join(Row, rows[..0]) == [];
    hide Join, Row, Le;
    out.Extend(Le(|rows|, 4));
    ghost var base := out.bytes;
    for i := 0 to |rows|
      invariant out.bytes == base + Join(Row, rows[..i])
    {
      WriteRow(rows[i], out);
      JoinNext(Row, rows, i);
      Assoc(base, Join(Row, rows[..i]), Row(rows[i]));
    }
    assert rows[..|rows|] == rows;
    Assoc(old(out.bytes), Le(|rows|, 4), Join(Row, rows));
  }

  method WriteBatch(batch: seq<Cells>, out: Buffer)
    modifies out
    ensures out.bytes == old(out.bytes) + Counted(4, Params, batch)
  {
    assert Join(Params, batch[..0]) == [];
    hide Join, Params, Le;
    out.Extend(Le(|batch|, 4));
    ghost var base := out.bytes;
    for i := 0 to |batch|
      invariant out.bytes == base + Join(Params, batch[..i])
    {
      WriteParams(batch[i], out);
      JoinNext(Params, batch, i);
      Assoc(base, Join(Params, batch[..i]), Params(batch[i]));
    }
    assert batch[..|batch|] == batch;
    Assoc(old(out.bytes), Le(|batch|, 4), Join(Params, batch));
  }

  method WriteSets(sets: seq<ResultSet>, out: Buffer)
    modifies out
    ensures out.bytes == old(out.bytes) + Counted(4, SetBytes, sets)
  {
    assert Join(SetBytes, sets[..0]) == [];
    hide Join, Columns, RowList, Le;
    out.Extend(Le(|sets|, 4));
    ghost var base := out.bytes;
    for i := 0 to |sets|
      invariant out.bytes == base + Join(SetBytes, sets[..i])
    {
      ghost var done := Join(SetBytes, sets[..i]);
      WriteColumns(sets[i].columns, out);
      WriteRows(sets[i].rows, out);
      JoinNext(SetBytes, sets, i);
      Assoc(base + done, Columns(sets[i].columns), RowList(sets[i].rows));
      Assoc(base, done, SetBytes(sets[i]));
    }
    assert sets[..|sets|] == sets;
    Assoc(old(out.bytes), Le(|sets|, 4), Join(SetBytes, sets));
  }

  /** `ClientRequest::encode_into`. */
  method WriteRequest(q: Request, out: Buffer)
    modifies out
    ensures out.bytes == old(out.bytes) + EncodeRequest(q)
  {
    hide Prefixed, Params, Le, Counted, Level;
    ghost var base := out.bytes;
    match q {
      case Query(sql, c) =>
        out.Push(OP_QUERY);
        out.Push(Level(c));
        WriteBytes(sql, out);
        Assoc3(base, [OP_QUERY], [Level(c)], Prefixed(sql));
      case Prepare(sql) =>
        out.Push(OP_PREPARE);
        WriteBytes(sql, out);
        Assoc(base, [OP_PREPARE], Prefixed(sql));
      case Execute(id, params, c) =>
        out.Push(OP_EXECUTE);
        out.Push(Level(c));
        out.Extend(Le(id, 4));
        WriteParams(params, out);
        Assoc4(base, [OP_EXECUTE], [Level(c)], Le(id, 4), Params(params));
      case Close(id) =>
        out.Push(OP_CLOSE);
        out.Extend(Le(id, 4));
        Assoc(base, [OP_CLOSE], Le(id, 4));
      case QueryStream(sql, params, c) =>
        var op := if params == [] then OP_QUERY_STREAM else OP_QUERY_STREAM_PARAMS;
        out.Push(op);
        out.Push(Level(c));
        WriteBytes(sql, out);
        if params != [] {
          WriteParams(params, out);
          Assoc4(base, [op], [Level(c)], Prefixed(sql), Params(params));
        } else {
          Assoc3(base, [op], [Level(c)], Prefixed(sql));
        }
      case ExecuteBatch(id, batch, c) =>
        out.Push(OP_EXECUTE_BATCH);
        out.Push(Level(c));
        out.Extend(Le(id, 4));
        WriteBatch(batch, out);
        Assoc4(base, [OP_EXECUTE_BATCH], [Level(c)], Le(id, 4), Counted(4, Params, batch));
      case Hello(name, version) =>
        out.Push(OP_HELLO);
        WriteBytes(name, out);
        WriteBytes(version, out);
        Assoc3(base, [OP_HELLO], Prefixed(name), Prefixed(version));
    }
  }

  lemma Assoc3(a: seq<Byte>, b: seq<Byte>, c: seq<Byte>, d: seq<Byte>)
    ensures ((a + b) + c) + d == a + (b + (c + d))
  {
    Assoc(a + b, c, d);
    Assoc(a, b, c + d);
  }

  lemma Assoc4(a: seq<Byte>, b: seq<Byte>, c: seq<Byte>, d: seq<Byte>, e: seq<Byte>)
    ensures (((a + b) + c) + d) + e == a + (b + (c + (d + e)))
  {
    Assoc3(a + b, c, d, e);
    Assoc(a, b, c + (d + e));
  }

  /** `Response::encode_into`. */
  method WriteResponse(m: Response, out: Buffer)
    modifies out
    ensures out.bytes == old(out.bytes) + EncodeResponse(m)
  {
    hide Prefixed, Columns, RowList, Le, Counted;
    ghost var base := out.bytes;
    match m {
      case Rows(columns, rows) =>
        out.Push(RESP_ROWS);
        WriteColumns(columns, out);
        WriteRows(rows, out);
        Assoc3(base, [RESP_ROWS], Columns(columns), RowList(rows));
      case Mutation(n) =>
        out.Push(RESP_MUTATION);
        out.Extend(Le(n, 8));
        Assoc(base, [RESP_MUTATION], Le(n, 8));
      case Ddl => out.Push(RESP_DDL);
      case Error(message) =>
        out.Push(RESP_ERROR);
        WriteBytes(message, out);
        Assoc(base, [RESP_ERROR], Prefixed(message));
      case Prepared(id, n) =>
        out.Push(RESP_PREPARED);
        out.Extend(Le(id, 4));
        out.Extend(Le(n, 2));
        Assoc3(base, [RESP_PREPARED], Le(id, 4), Le(n, 2));
      case RowsHeader(columns) =>
        out.Push(RESP_ROWS_HEADER);
        WriteColumns(columns, out);
        Assoc(base, [RESP_ROWS_HEADER], Columns(columns));
      case RowsChunk(rows) =>
        out.Push(RESP_ROWS_CHUNK);
        WriteRows(rows, out);
        Assoc(base, [RESP_ROWS_CHUNK], RowList(rows));
      case RowsEnd => out.Push(RESP_ROWS_END);
      case ResultSets(sets) =>
        out.Push(RESP_RESULT_SETS);
        WriteSets(sets, out);
        Assoc(base, [RESP_RESULT_SETS], Counted(4, SetBytes, sets));
    }
  }

  // ---- a chunk built row by row ----

  /** `RowsChunkEncoder`: where the count goes, and the rows so far. */
  class RowsChunkEncoder {
    var countPos: nat
    var count: nat

    /** The buffer holds `base`, an unfinished chunk header and `rows`. */
    ghost predicate Holds(out: Buffer, base: seq<Byte>, rows: seq<Cells>)
      reads this, out
    {
      && countPos == |base| + 1 && count == |rows|
      && out.bytes == (base + [RESP_ROWS_CHUNK]) + [0, 0, 0, 0] + Join(Row, rows)
    }

    constructor (out: Buffer)
      modifies out
      ensures Holds(out, old(out.bytes), [])
    {
      out.Push(RESP_ROWS_CHUNK);
      countPos := |out.bytes|;
      count := 0;
      out.Extend([0, 0, 0, 0]);
    }

    method PushRow(out: Buffer, row: Cells, ghost base: seq<Byte>, ghost rows: seq<Cells>)
      requires Holds(out, base, rows)
      modifies this`count, out
      ensures Holds(out, base, rows + [row])
    {
      hide Row, Join;
      WriteRow(row, out);
      count := count + 1;
      JoinNext(Row, rows + [row], |rows|);
      assert (rows + [row])[..|rows| + 1] == rows + [row] && (rows + [row])[..|rows|] == rows;
      Assoc((base + [RESP_ROWS_CHUNK]) + [0, 0, 0, 0], Join(Row, rows), Row(row));
    }

    method Finish(out: Buffer, ghost base: seq<Byte>, ghost rows: seq<Cells>)
      requires Holds(out, base, rows)
      modifies out
      ensures out.bytes == base + EncodeResponse(RowsChunk(rows))
    {
      hide Row, Join, Le;
      var fill := Le(count, 4);
      Backfilled(base + [RESP_ROWS_CHUNK], [0, 0, 0, 0], Join(Row, rows), fill);
      out.Patch(countPos, fill);
      Assoc(base, [RESP_ROWS_CHUNK], fill + Join(Row, rows));
    }
  }

  /** Rows appended one at a time give the bytes of the whole chunk at once. */
  method WriteChunkByRow(rows: seq<Cells>, out: Buffer)
    modifies out
    ensures out.bytes == old(out.bytes) + EncodeResponse(RowsChunk(rows))
  {
    ghost var base := out.bytes;
    var encoder := new RowsChunkEncoder(out);
    for i := 0 to |rows|
      invariant encoder.Holds(out, base, rows[..i])
    {
      encoder.PushRow(out, rows[i], base, rows[..i]);
      assert rows[..i] + [rows[i]] == rows[..i + 1];
    }
    assert rows[..|rows|] == rows;
    encoder.Finish(out, base, rows);
  }
}
