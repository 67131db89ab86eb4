/** Every request and response that fits its fields decodes to itself, plain or tagged. */
module MessageTheorems {
  import opened Bytes
  import opened Values
  import opened Codec
  import opened WireLists
  import opened Messages

  lemma LevelBack(c: Consistency, y: seq<Byte>)
    ensures ReadLevel([Level(c)] + y) == Ok(c, y)
  {
    ReadU8Of(Level(c), y);
  }

  lemma TextBack(t: Text)
    requires TextOk(t)
    ensures ReadsBack(ReadStr, Prefixed(t), t)
  {
    hide Utf8, ReadPrefixed, Prefixed;
    forall y ensures ReadStr(Prefixed(t) + y) == Ok(t, y) { ReadPrefixedOf(t, y); }
  }

  lemma TextBackAt(t: Text, y: seq<Byte>)
    requires TextOk(t)
    ensures ReadStr(Prefixed(t) + y) == Ok(t, y)
  {
    TextBack(t);
  }

  lemma CellBack(v: Value)
    requires ValueOk(v)
    ensures ReadsBack(ReadCell, Cell(v), v)
  {
    hide Decode, Encode, ReadPrefixed, Prefixed, Fits, WellFormed;
    forall y ensures ReadCell(Cell(v) + y) == Ok(v, y) {
      ReadPrefixedOf(Encode(v), y);
      DecodeEncode(v);
    }
  }

  lemma ParamsBack(params: Cells)
    requires CellsOk(params, 0x1_0000)
    ensures ReadsBack(ReadParams, Params(params), params)
  {
    hide ValueOk, ReadCounted, Counted, ReadsBack;
    Pow256Values();
    forall i | 0 <= i < |params| ensures ReadsBack(ReadCell, Cell(params[i]), params[i]) { CellBack(params[i]); }
    AllBack(ReadParams, Params(params), params) by {
      forall y ensures ReadParams(Params(params) + y) == Ok(params, y) {
        CountedReadsBack(2, ReadCell, Cell, params, y);
      }
    }
  }

  lemma AllBack<T>(read: seq<Byte> -> Parsed<T>, bytes: seq<Byte>, x: T)
    requires forall y :: read(bytes + y) == Ok(x, y)
    ensures ReadsBack(read, bytes, x)
  {}

  lemma RowBack(row: Cells)
    requires CellsOk(row, U32_LIMIT)
    ensures ReadsBack(ReadRow, Row(row), row)
  {
    hide ValueOk, ReadCounted, Counted, ReadsBack;
    Pow256Values();
    forall i | 0 <= i < |row| ensures ReadsBack(ReadCell, Cell(row[i]), row[i]) { CellBack(row[i]); }
    AllBack(ReadRow, Row(row), row) by {
      forall y ensures ReadRow(Row(row) + y) == Ok(row, y) { CountedReadsBack(4, ReadCell, Cell, row, y); }
    }
  }

  lemma RowsBack(rows: seq<Cells>, y: seq<Byte>)
    requires RowsOk(rows, U32_LIMIT)
    ensures ReadRows(RowList(rows) + y) == Ok(rows, y)
  {
    hide CellsOk, ReadCounted, Counted, ReadsBack, Row, ReadRow;
    Pow256Values();
    forall i | 0 <= i < |rows| ensures ReadsBack(ReadRow, Row(rows[i]), rows[i]) { RowBack(rows[i]); }
    CountedReadsBack(4, ReadRow, Row, rows, y);
  }

  lemma BatchBack(batch: seq<Cells>, y: seq<Byte>)
    requires RowsOk(batch, 0x1_0000)
    ensures ReadCounted(4, ReadParams, Counted(4, Params, batch) + y) == Ok(batch, y)
  {
    hide CellsOk, ReadCounted, Counted, ReadsBack, Params, ReadParams;
    Pow256Values();
    forall i | 0 <= i < |batch| ensures ReadsBack(ReadParams, Params(batch[i]), batch[i]) { ParamsBack(batch[i]); }
    CountedReadsBack(4, ReadParams, Params, batch, y);
  }

  lemma ColumnsBack(columns: seq<Text>, y: seq<Byte>)
    requires TextsOk(columns)
    ensures ReadColumns(Columns(columns) + y) == Ok(columns, y)
  {
    hide TextOk, ReadCounted, Counted, ReadsBack, Prefixed, ReadStr;
    Pow256Values();
    forall i | 0 <= i < |columns| ensures ReadsBack(ReadStr, Prefixed(columns[i]), columns[i]) { TextBack(columns[i]); }
    CountedReadsBack(4, ReadStr, Prefixed, columns, y);
  }

  lemma SetBack(set_: ResultSet)
    requires SetOk(set_)
    ensures ReadsBack(ReadSet, SetBytes(set_), set_)
  {
    hide ReadColumns, ReadRows, Columns, RowList, TextsOk, RowsOk;
    forall y ensures ReadSet(SetBytes(set_) + y) == Ok(set_, y) {
      Assoc(Columns(set_.columns), RowList(set_.rows), y);
      ColumnsBack(set_.columns, RowList(set_.rows) + y);
      RowsBack(set_.rows, y);
    }
  }

  lemma SetsBack(sets: seq<ResultSet>, y: seq<Byte>)
    requires |sets| < U32_LIMIT && forall i :: 0 <= i < |sets| ==> SetOk(sets[i])
    ensures ReadCounted(4, ReadSet, Counted(4, SetBytes, sets) + y) == Ok(sets, y)
  {
    hide SetOk, ReadCounted, Counted, ReadsBack, SetBytes, ReadSet;
    Pow256Values();
    forall i | 0 <= i < |sets| ensures ReadsBack(ReadSet, SetBytes(sets[i]), sets[i]) { SetBack(sets[i]); }
    CountedReadsBack(4, ReadSet, SetBytes, sets, y);
  }

  // ---- requests ----

  lemma LevelThen(c: Consistency, rest: seq<Byte>, y: seq<Byte>)
    ensures ReadLevel(([Level(c)] + rest) + y) == Ok(c, rest + y)
  {
    Assoc([Level(c)], rest, y);
    LevelBack(c, rest + y);
  }

  lemma IdThen(id: U32, rest: seq<Byte>, y: seq<Byte>)
    ensures ReadU32((Le(id, 4) + rest) + y) == Ok(id, rest + y)
  {
    Assoc(Le(id, 4), rest, y);
    ReadU32Of(id, rest + y);
  }

  lemma TextThen(t: Text, rest: seq<Byte>, y: seq<Byte>)
    requires TextOk(t)
    ensures ReadStr((Prefixed(t) + rest) + y) == Ok(t, rest + y)
  {
    Assoc(Prefixed(t), rest, y);
    TextBackAt(t, rest + y);
  }

  lemma ParamsBackAt(params: Cells, y: seq<Byte>)
    requires CellsOk(params, 0x1_0000)
    ensures ReadParams(Params(params) + y) == Ok(params, y)
  {
    ParamsBack(params);
  }

  function Op(q: Request): Byte {
    EncodeRequest(q)[0]
  }

  lemma BodyBack(q: Request, y: seq<Byte>)
    requires RequestOk(q)
    ensures ReadBody(Op(q), EncodeRequest(q)[1..] + y) == Ok(q, y)
  {
    hide ReadLevel, ReadStr, ReadU32, ReadParams, ReadCounted;
    hide Level, Prefixed, Le, Params, Counted, TextOk, CellsOk, RowsOk;
    var body := EncodeRequest(q)[1..];
    match q {
      case Query(sql, c) =>
        assert body == [Level(c)] + Prefixed(sql);
        LevelThen(c, Prefixed(sql), y);
        TextBackAt(sql, y);
      case Prepare(sql) =>
        assert body == Prefixed(sql);
        TextBackAt(sql, y);
      case Execute(id, params, c) =>
        assert body == [Level(c)] + (Le(id, 4) + Params(params));
        LevelThen(c, Le(id, 4) + Params(params), y);
        IdThen(id, Params(params), y);
        ParamsBackAt(params, y);
      case Close(id) =>
        assert body == Le(id, 4);
        ReadU32Of(id, y);
      case QueryStream(sql, params, c) => StreamBack(q, y);
      case ExecuteBatch(id, batch, c) =>
        assert body == [Level(c)] + (Le(id, 4) + Counted(4, Params, batch));
        LevelThen(c, Le(id, 4) + Counted(4, Params, batch), y);
        IdThen(id, Counted(4, Params, batch), y);
        BatchBack(batch, y);
      case Hello(name, version) =>
        assert body == Prefixed(name) + Prefixed(version);
        TextThen(name, Prefixed(version), y);
        TextBackAt(version, y);
    }
  }

  lemma StreamBack(q: Request, y: seq<Byte>)
    requires RequestOk(q) && q.QueryStream?
    ensures ReadBody(Op(q), EncodeRequest(q)[1..] + y) == Ok(q, y)
  {
    hide ReadLevel, ReadStr, ReadU32, ReadParams, ReadCounted;
    hide Level, Prefixed, Le, Params, Counted, TextOk, CellsOk, RowsOk;
    var body, c, sql := EncodeRequest(q)[1..], q.consistency, q.sql;
    if q.params == [] {
      assert body == [Level(c)] + Prefixed(sql);
      LevelThen(c, Prefixed(sql), y);
      TextBackAt(sql, y);
    } else {
      assert body == [Level(c)] + (Prefixed(sql) + Params(q.params));
      LevelThen(c, Prefixed(sql) + Params(q.params), y);
      TextThen(sql, Params(q.params), y);
      ParamsBackAt(q.params, y);
    }
  }

  /** Every request that fits reads back, whatever follows it. */
  lemma RequestRoundTrip(q: Request, y: seq<Byte>)
    requires RequestOk(q)
    ensures ReadRequest(EncodeRequest(q) + y) == Ok(q, y)
    ensures DecodeRequest(EncodeRequest(q) + y) == Some(q)
  {
    BodyBack(q, y);
    hide EncodeRequest, ReadBody, RequestOk;
    var e := EncodeRequest(q);
    assert e == [e[0]] + e[1..];
    Assoc([e[0]], e[1..], y);
    ReadU8Of(e[0], e[1..] + y);
  }

  lemma TagSplit(t: Byte, id: U32, inner: seq<Byte>)
    ensures var s := [t] + (Le(id, 4) + inner);
            s[0] == t && FromLe(s[1..5]) == id && s[5..] == inner
  {
    hide FromLe, Pow256, Le;
    var s := [t] + (Le(id, 4) + inner);
    assert s[1..5] == Le(id, 4) && s[5..] == inner;
    Pow256Values();
    LeRoundTrip(id, 4);
  }

  /** A tagged request comes back with its id; a plain one without. */
  lemma ClientRequestRoundTrip(id: U32, q: Request)
    requires RequestOk(q)
    ensures DecodeClientRequest(TaggedRequest(id, q)) == Some((Some(id), q))
    ensures DecodeClientRequest(EncodeRequest(q)) == Some((None, q))
  {
    RequestRoundTrip(q, []);
    TagSplit(OP_TAGGED, id, EncodeRequest(q));
    hide EncodeRequest, DecodeRequest, RequestOk, FromLe, Le;
    assert EncodeRequest(q) + [] == EncodeRequest(q);
  }

  // ---- responses ----

  lemma U16Back(n: U16, y: seq<Byte>)
    ensures ReadU16(Le(n, 2) + y) == Ok(n, y)
  {
    TakeOf(Le(n, 2), y);
    Pow256Values();
    LeRoundTrip(n, 2);
  }

  lemma ReplyBack(m: Response, y: seq<Byte>)
    requires ResponseOk(m)
    ensures ReadReply(EncodeResponse(m)[0], EncodeResponse(m)[1..] + y) == Ok(m, y)
  {
    hide ReadStr, ReadU32, ReadU16, ReadU64, ReadCounted, ReadColumns, ReadRows;
    hide Prefixed, Le, Counted, Columns, RowList, TextOk, TextsOk, RowsOk;
    var body := EncodeResponse(m)[1..];
    match m {
      case Rows(columns, rows) =>
        assert body == Columns(columns) + RowList(rows);
        Assoc(Columns(columns), RowList(rows), y);
        ColumnsBack(columns, RowList(rows) + y);
        RowsBack(rows, y);
      case Mutation(n) =>
        assert body == Le(n, 8);
        ReadU64Of(n, y);
      case Ddl => assert body + y == y;
      case Error(message) =>
        assert body == Prefixed(message);
        TextBackAt(message, y);
      case Prepared(id, n) =>
        assert body == Le(id, 4) + Le(n, 2);
        IdThen(id, Le(n, 2), y);
        U16Back(n, y);
      case RowsHeader(columns) =>
        assert body == Columns(columns);
        ColumnsBack(columns, y);
      case RowsChunk(rows) =>
        assert body == RowList(rows);
        RowsBack(rows, y);
      case RowsEnd => assert body + y == y;
      case ResultSets(sets) =>
        assert body == Counted(4, SetBytes, sets);
        SetsBack(sets, y);
    }
  }

  /** Every response that fits reads back, whatever follows it. */
  lemma ResponseRoundTrip(m: Response, y: seq<Byte>)
    requires ResponseOk(m)
    ensures ReadResponse(EncodeResponse(m) + y) == Ok(m, y)
    ensures DecodeResponse(EncodeResponse(m) + y) == Some(m)
  {
    ReplyBack(m, y);
    hide EncodeResponse, ReadReply, ResponseOk;
    var e := EncodeResponse(m);
    assert e == [e[0]] + e[1..];
    Assoc([e[0]], e[1..], y);
    ReadU8Of(e[0], e[1..] + y);
  }

  /** A tagged response comes back with its id. */
  lemma TaggedResponseRoundTrip(id: U32, m: Response)
    requires ResponseOk(m)
    ensures DecodeTaggedResponse(TaggedResponse(id, m)) == Some((Some(id), m))
  {
    ResponseRoundTrip(m, []);
    TagSplit(RESP_TAGGED, id, EncodeResponse(m));
    hide EncodeResponse, DecodeResponse, ResponseOk, FromLe, Le;
    assert EncodeResponse(m) + [] == EncodeResponse(m);
  }

  /**
    A plain response comes back untagged exactly when it is not `ResultSets`. That one's tag is also the
    wrapper's: it is refused, or read as a reply tagged with its number of result sets.
   */
  lemma PlainResponseUntagged(m: Response)
    requires ResponseOk(m)
    ensures DecodeTaggedResponse(EncodeResponse(m)) == Some((None, m)) <==> !m.ResultSets?
    ensures m.ResultSets? && DecodeTaggedResponse(EncodeResponse(m)).Some? ==>
              DecodeTaggedResponse(EncodeResponse(m)).value.0 == Some(|m.sets|)
  {
    if m.ResultSets? {
      TagSplit(RESP_TAGGED, |m.sets|, Join(SetBytes, m.sets));
    }
    ResponseRoundTrip(m, []);
    hide EncodeResponse, DecodeResponse, ResponseOk, FromLe, Le;
    assert EncodeResponse(m) + [] == EncodeResponse(m);
  }
}
