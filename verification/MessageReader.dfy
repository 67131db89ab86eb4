/** Messages decoded by loops over a cursor: exactly the functional reading. */
module MessageReader {
  import opened Bytes
  import opened Values
  import opened Codec
  import opened CodecCursor
  import opened WireLists
  import opened Messages

  lemma U32IsLe(s: seq<Byte>)
    ensures ReadLe(s, 4) == match ReadU32(s) case Ok(n, r) => Ok(n, r) case Err => Err
  {
    hide FromLe;
  }

  lemma U16IsLe(s: seq<Byte>)
    ensures ReadLe(s, 2) == match ReadU16(s) case Ok(n, r) => Ok(n, r) case Err => Err
  {
    hide FromLe;
  }

  method NextLevel(c: Cursor) returns (r: Option<Consistency>)
    requires c.Valid()
    modifies c
    ensures c.Valid() && Reads(ReadLevel(old(c.Rest())), r, c.Rest())
  {
    var b := c.NextU8();
    if b.None? { return None; }
    return if b.value == 0 then Some(One) else if b.value == 1 then Some(Quorum)
      else if b.value == 2 then Some(All) else None;
  }

  method NextU16(c: Cursor) returns (r: Option<U16>)
    requires c.Valid()
    modifies c
    ensures c.Valid() && Reads(ReadU16(old(c.Rest())), r, c.Rest())
  {
    hide FromLe;
    var b := c.TakeBytes(2);
    Pow256Values();
    match b {
      case None => return None;
      case Some(raw) => return Some(FromLe(raw));
    }
  }

  method NextCell(c: Cursor) returns (r: Option<Value>)
    requires c.Valid()
    modifies c
    ensures c.Valid() && Reads(ReadCell(old(c.Rest())), r, c.Rest())
  {
    hide Decode, ReadPrefixed;
    var raw := c.NextPrefixed();
    if raw.None? { return None; }
    r := DecodeAll(raw.value);
  }

  method NextCells(c: Cursor, n: nat) returns (r: Option<Cells>)
    requires c.Valid()
    modifies c
    ensures c.Valid() && Reads(ParseN(ReadCell, old(c.Rest()), n), r, c.Rest())
  {
    hide ReadCell, ParseN, Prepend;
    var done: Cells := [];
    PrependNone(ParseN(ReadCell, c.Rest(), n));
    for i := 0 to n
      invariant c.Valid() && ParseN(ReadCell, old(c.Rest()), n) == Prepend(done, ParseN(ReadCell, c.Rest(), n - i))
    {
      PrependNext(done, ReadCell, c.Rest(), n - i);
      var v := NextCell(c);
      if v.None? { return None; }
      done := done + [v.value];
    }
    PrependAll(done, ReadCell, c.Rest());
    return Some(done);
  }

  method NextRow(c: Cursor) returns (r: Option<Cells>)
    requires c.Valid()
    modifies c
    ensures c.Valid() && Reads(ReadRow(old(c.Rest())), r, c.Rest())
  {
    hide ReadCell, ParseN, ReadU32, ReadLe;
    U32IsLe(c.Rest());
    var n := c.NextU32();
    if n.None? { return None; }
    r := NextCells(c, n.value);
  }

  method NextParams(c: Cursor) returns (r: Option<Cells>)
    requires c.Valid()
    modifies c
    ensures c.Valid() && Reads(ReadParams(old(c.Rest())), r, c.Rest())
  {
    hide ReadCell, ParseN, ReadU16, ReadLe;
    U16IsLe(c.Rest());
    var n := NextU16(c);
    if n.None? { return None; }
    r := NextCells(c, n.value);
  }

  /** `decode_columns`. */
  method NextColumns(c: Cursor) returns (r: Option<seq<Text>>)
    requires c.Valid()
    modifies c
    ensures c.Valid() && Reads(ReadColumns(old(c.Rest())), r, c.Rest())
  {
    hide ReadStr, ParseN, Prepend, ReadU32, ReadLe;
    U32IsLe(c.Rest());
    var n := c.NextU32();
    if n.None? { return None; }
    ghost var s := c.Rest();
    var done: seq<Text> := [];
    PrependNone(ParseN(ReadStr, s, n.value));
    for i := 0 to n.value
      invariant c.Valid() && ParseN(ReadStr, s, n.value) == Prepend(done, ParseN(ReadStr, c.Rest(), n.value - i))
    {
      PrependNext(done, ReadStr, c.Rest(), n.value - i);
      var t := c.NextStr();
      if t.None? { return None; }
      done := done + [t.value];
    }
    PrependAll(done, ReadStr, c.Rest());
    return Some(done);
  }

  /** `decode_rows`. */
  method NextRows(c: Cursor) returns (r: Option<seq<Cells>>)
    requires c.Valid()
    modifies c
    ensures c.Valid() && Reads(ReadRows(old(c.Rest())), r, c.Rest())
  {
    hide ReadRow, ParseN, Prepend, ReadU32, ReadLe;
    U32IsLe(c.Rest());
    var n := c.NextU32();
    if n.None? { return None; }
    ghost var s := c.Rest();
    var done: seq<Cells> := [];
    PrependNone(ParseN(ReadRow, s, n.value));
    for i := 0 to n.value
      invariant c.Valid() && ParseN(ReadRow, s, n.value) == Prepend(done, ParseN(ReadRow, c.Rest(), n.value - i))
    {
      PrependNext(done, ReadRow, c.Rest(), n.value - i);
      var row := NextRow(c);
      if row.None? { return None; }
      done := done + [row.value];
    }
    PrependAll(done, ReadRow, c.Rest());
    return Some(done);
  }

  method NextBatch(c: Cursor) returns (r: Option<seq<Cells>>)
    requires c.Valid()
    modifies c
    ensures c.Valid() && Reads(ReadCounted(4, ReadParams, old(c.Rest())), r, c.Rest())
  {
    hide ReadParams, ParseN, Prepend, ReadU32, ReadLe;
    U32IsLe(c.Rest());
    var n := c.NextU32();
    if n.None? { return None; }
    ghost var s := c.Rest();
    var done: seq<Cells> := [];
    PrependNone(ParseN(ReadParams, s, n.value));
    for i := 0 to n.value
      invariant c.Valid() && ParseN(ReadParams, s, n.value) == Prepend(done, ParseN(ReadParams, c.Rest(), n.value - i))
    {
      PrependNext(done, ReadParams, c.Rest(), n.value - i);
      var row := NextParams(c);
      if row.None? { return None; }
      done := done + [row.value];
    }
    PrependAll(done, ReadParams, c.Rest());
    return Some(done);
  }

  method NextSet(c: Cursor) returns (r: Option<ResultSet>)
    requires c.Valid()
    modifies c
    ensures c.Valid() && Reads(ReadSet(old(c.Rest())), r, c.Rest())
  {
    hide ReadColumns, ReadRows;
    var columns := NextColumns(c);
    if columns.None? { return None; }
    var rows := NextRows(c);
    return if rows.None? then None else Some(ResultSet(columns.value, rows.value));
  }

  method NextSets(c: Cursor) returns (r: Option<seq<ResultSet>>)
    requires c.Valid()
    modifies c
    ensures c.Valid() && Reads(ReadCounted(4, ReadSet, old(c.Rest())), r, c.Rest())
  {
    hide ReadSet, ParseN, Prepend, ReadU32, ReadLe;
    U32IsLe(c.Rest());
    var n := c.NextU32();
    if n.None? { return None; }
    ghost var s := c.Rest();
    var done: seq<ResultSet> := [];
    PrependNone(ParseN(ReadSet, s, n.value));
    for i := 0 to n.value
      invariant c.Valid() && ParseN(ReadSet, s, n.value) == Prepend(done, ParseN(ReadSet, c.Rest(), n.value - i))
    {
      PrependNext(done, ReadSet, c.Rest(), n.value - i);
      var one := NextSet(c);
      if one.None? { return None; }
      done := done + [one.value];
    }
    PrependAll(done, ReadSet, c.Rest());
    return Some(done);
  }

  method NextBody(c: Cursor, op: Byte) returns (r: Option<Request>)
    requires c.Valid()
    modifies c
    ensures c.Valid() && Reads(ReadBody(op, old(c.Rest())), r, c.Rest())
  {
    hide ReadLevel, ReadStr, ReadU32, ReadParams, ReadCounted;
    if op == OP_QUERY || op == OP_QUERY_STREAM {
      var level := NextLevel(c);
      if level.None? { return None; }
      var sql := c.NextStr();
      if sql.None? { return None; }
      return Some(if op == OP_QUERY then Query(sql.value, level.value) else QueryStream(sql.value, [], level.value));
    } else if op == OP_PREPARE {
      var sql := c.NextStr();
      return if sql.None? then None else Some(Prepare(sql.value));
    } else if op == OP_EXECUTE {
      var level := NextLevel(c);
      if level.None? { return None; }
      var id := c.NextU32();
      if id.None? { return None; }
      var params := NextParams(c);
      return if params.None? then None else Some(Execute(id.value, params.value, level.value));
    } else if op == OP_CLOSE {
      var id := c.NextU32();
      return if id.None? then None else Some(Close(id.value));
    } else if op == OP_HELLO {
      var name := c.NextStr();
      if name.None? { return None; }
      var version := c.NextStr();
      return if version.None? then None else Some(Hello(name.value, version.value));
    } else if op == OP_EXECUTE_BATCH {
      var level := NextLevel(c);
      if level.None? { return None; }
      var id := c.NextU32();
      if id.None? { return None; }
      var batch := NextBatch(c);
      return if batch.None? then None else Some(ExecuteBatch(id.value, batch.value, level.value));
    } else if op == OP_QUERY_STREAM_PARAMS {
      var level := NextLevel(c);
      if level.None? { return None; }
      var sql := c.NextStr();
      if sql.None? { return None; }
      var params := NextParams(c);
      return if params.None? then None else Some(QueryStream(sql.value, params.value, level.value));
    }
    return None;
  }

  /** `ClientRequest::decode`. */
  method RequestFrom(bytes: seq<Byte>) returns (r: Option<Request>)
    ensures r == DecodeRequest(bytes)
  {
    hide ReadBody;
    var c := new Cursor(bytes);
    var op := c.NextU8();
    if op.None? { return None; }
    r := NextBody(c, op.value);
  }

  method NextReply(c: Cursor, tag: Byte) returns (r: Option<Response>)
    requires c.Valid()
    modifies c
    ensures c.Valid() && Reads(ReadReply(tag, old(c.Rest())), r, c.Rest())
  {
    hide ReadColumns, ReadRows, ReadStr, ReadU16, ReadU32, ReadU64, ReadCounted;
    if tag == RESP_ROWS {
      var columns := NextColumns(c);
      if columns.None? { return None; }
      var rows := NextRows(c);
      return if rows.None? then None else Some(Rows(columns.value, rows.value));
    } else if tag == RESP_MUTATION {
      var n := c.NextU64();
      return if n.None? then None else Some(Mutation(n.value));
    } else if tag == RESP_DDL {
      return Some(Ddl);
    } else if tag == RESP_ERROR {
      var message := c.NextStr();
      return if message.None? then None else Some(Error(message.value));
    } else if tag == RESP_PREPARED {
      var id := c.NextU32();
      if id.None? { return None; }
      var n := NextU16(c);
      return if n.None? then None else Some(Prepared(id.value, n.value));
    } else if tag == RESP_ROWS_HEADER {
      var columns := NextColumns(c);
      return if columns.None? then None else Some(RowsHeader(columns.value));
    } else if tag == RESP_ROWS_CHUNK {
      var rows := NextRows(c);
      return if rows.None? then None else Some(RowsChunk(rows.value));
    } else if tag == RESP_ROWS_END {
      return Some(RowsEnd);
    } else if tag == RESP_RESULT_SETS {
      var sets := NextSets(c);
      return if sets.None? then None else Some(ResultSets(sets.value));
    }
    return None;
  }

  /** `Response::decode`. */
  method ResponseFrom(bytes: seq<Byte>) returns (r: Option<Response>)
    ensures r == DecodeResponse(bytes)
  {
    hide ReadReply;
    var c := new Cursor(bytes);
    var tag := c.NextU8();
    if tag.None? { return None; }
    r := NextReply(c, tag.value);
  }
}
