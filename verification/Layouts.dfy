/** The byte layouts that are stored or sent, in literal bytes. */
module Layouts {
  import opened Bytes
  import opened Values
  import opened Keys
  import C = Codec
  import opened Messages
  import opened Frame
  import opened WireLists

  /** The number that bytes say, highest first. */
  function Number(bytes: seq<Byte>): nat {
    if bytes == [] then 0 else 256 * Number(bytes[..|bytes| - 1]) + bytes[|bytes| - 1]
  }

  function Backwards(bytes: seq<Byte>): (r: seq<Byte>)
    ensures |r| == |bytes|
  {
    if bytes == [] then [] else [bytes[|bytes| - 1]] + Backwards(bytes[..|bytes| - 1])
  }

  /** Big-endian is highest byte first, little-endian lowest first. */
  lemma {:induction false} ByteOrder(bytes: seq<Byte>)
    ensures Be(Number(bytes), |bytes|) == bytes && Le(Number(bytes), |bytes|) == Backwards(bytes)
  {
    if bytes != [] {
      var n := |bytes| - 1;
      ByteOrder(bytes[..n]);
      BeSnoc(Number(bytes[..n]), bytes[n], n);
      LeCons(Number(bytes[..n]), bytes[n], n);
      assert bytes == bytes[..n] + [bytes[n]];
    }
  }

  lemma BeSnoc(n: nat, b: Byte, k: nat)
    ensures Be(256 * n + b, k + 1) == Be(n, k) + [b]
  {
    LastByte(n, b);
    hide Be;
    BeUnfold(256 * n + b, k + 1);
  }

  lemma LeCons(n: nat, b: Byte, k: nat)
    ensures Le(256 * n + b, k + 1) == [b] + Le(n, k)
  {
    LastByte(n, b);
    hide Le;
    LeUnfold(256 * n + b, k + 1);
  }

  // ---- keys ----

  /** Numbers as big-endian words shifted so that the lowest is all zeros. */
  lemma KeyWords(code: DecimalCode, i: I64, bits: U64)
    ensures Key(code, Int(i)) == [2] + Be(i + 0x8000_0000_0000_0000, 8)
    ensures Key(code, Timestamp(i)) == [8] + Be(i + 0x8000_0000_0000_0000, 8)
    ensures bits < 0x8000_0000_0000_0000 ==> Key(code, Float(bits)) == [3] + Be(bits + 0x8000_0000_0000_0000, 8)
    ensures bits >= 0x8000_0000_0000_0000 ==> Key(code, Float(bits)) == [3] + Be(0xFFFF_FFFF_FFFF_FFFF - bits, 8)
  {
    hide Be;
  }

  lemma KeyBytes(code: DecimalCode, d: Decimal, u: seq<Byte>)
    ensures Key(code, Null) == [0] && Key(code, Bool(false)) == [1, 0] && Key(code, Bool(true)) == [1, 1]
    ensures Key(code, Dec(d)) == [4] + code(d) && Key(code, Uuid(u)) == [7] + u
  {}

  /** A zero byte is escaped, and two zero bytes end a string. */
  lemma KeyText(code: DecimalCode, b: Byte, s: seq<Byte>)
    ensures Escaped([]) == [0x00, 0x00]
    ensures Escaped([b] + s) == (if b == 0 then [0x00, 0xFF] else [b]) + Escaped(s)
    ensures Key(code, Str(s)) == [5] + Escaped(s) && Key(code, Values.Bytes(s)) == [6] + Escaped(s)
  {
    assert ([b] + s)[1..] == s;
  }

  /** Containers are their parts' keys between a tag and a zero byte. */
  lemma KeyContainers(code: DecimalCode, v: Value, name: seq<Byte>)
    ensures Key(code, Array([])) == [9, 0] && Key(code, Doc([])) == [10, 0]
    ensures Key(code, Array([v])) == [9] + (Key(code, v) + [0])
    ensures Key(code, Doc([Field(name, v)])) == [10] + (Escaped(name) + Key(code, v) + [0])
  {
    OneItemKey(code, v);
    OneFieldKey(code, name, v);
    assert ItemKeys(code, []) == [] && FieldKeys(code, []) == [];
    hide ItemKeys, FieldKeys, Escaped;
    assert Key(code, Array([v])) == [ARRAY_TAG] + (ItemKeys(code, [v]) + [END]);
    assert Key(code, Doc([Field(name, v)])) == [DOCUMENT_TAG] + (FieldKeys(code, [Field(name, v)]) + [END]);
  }

  lemma OneItemKey(code: DecimalCode, v: Value)
    ensures ItemKeys(code, [v]) == Key(code, v)
  {
    assert [v][1..] == [] && ItemKeys(code, [v]) == Key(code, v) + [];
    hide Key;
  }

  lemma OneFieldKey(code: DecimalCode, name: seq<Byte>, v: Value)
    ensures FieldKeys(code, [Field(name, v)]) == Escaped(name) + Key(code, v)
  {
    assert [Field(name, v)][1..] == [];
    assert FieldKeys(code, [Field(name, v)]) == Escaped(name) + (Key(code, v) + []);
    hide Key, Escaped;
    assert Key(code, v) + [] == Key(code, v);
  }

  // ---- stored values ----

  /** Two's complement in 64 and in 128 bits. */
  function Word64(i: I64): nat {
    if i < 0 then i + 0x1_0000_0000_0000_0000 else i
  }

  function Word128(i: I128): nat {
    if i < 0 then i + 0x1_0000_0000_0000_0000_0000_0000_0000_0000 else i
  }

  /** Every value starts with its type's byte; numbers are little-endian two's complement, lengths 4 bytes. */
  lemma ScalarBytes(i: I64, bits: U64, d: Decimal)
    ensures C.Encode(Null) == [0] && C.Encode(Bool(false)) == [1, 0] && C.Encode(Bool(true)) == [1, 1]
    ensures C.Encode(Int(i)) == [2] + Le(Word64(i), 8)
    ensures C.Encode(Float(bits)) == [3] + Le(bits, 8)
    ensures C.Encode(Dec(d)) == [4] + (Le(Word128(d.mantissa), 16) + Le(d.scale, 4))
    ensures C.Encode(Timestamp(i)) == [8] + Le(Word64(i), 8)
  {
    hide Le;
  }

  lemma PrefixedBytes(s: seq<Byte>)
    ensures C.Prefixed(s) == Le(|s|, 4) + s
  {}

  lemma TextBytes(s: seq<Byte>)
    ensures C.Encode(Str(s)) == [5] + C.Prefixed(s)
    ensures C.Encode(Values.Bytes(s)) == [6] + C.Prefixed(s)
    ensures C.Encode(Uuid(s)) == [7] + s
  {
    hide C.Prefixed;
  }

  /** A container is its tag, its 4-byte count, and its parts. */
  lemma ContainerBytes(items: seq<Value>, fields: seq<Field>)
    ensures C.Encode(Array(items)) == [9] + (Le(|items|, 4) + C.EncodeItems(items))
    ensures C.Encode(Doc(fields)) == [10] + (Le(|fields|, 4) + C.EncodeFields(fields))
  {
    hide Le, C.EncodeItems, C.EncodeFields;
  }

  lemma NoBytes()
    ensures C.EncodeItems([]) == [] && C.EncodeFields([]) == []
  {}

  lemma OneItemBytes(v: Value)
    ensures C.EncodeItems([v]) == C.Encode(v)
  {
    assert [v][1..] == [] && C.EncodeItems([v]) == C.Encode(v) + [];
    hide C.Encode;
  }

  lemma OneFieldBytes(name: seq<Byte>, v: Value)
    ensures C.EncodeFields([Field(name, v)]) == C.Prefixed(name) + C.Encode(v)
  {
    hide C.Prefixed, C.Encode;
    assert [Field(name, v)][1..] == [];
    assert C.EncodeFields([Field(name, v)]) == C.Prefixed(name) + (C.Encode(v) + []);
    assert C.Encode(v) + [] == C.Encode(v);
  }

  // ---- messages ----

  /** One, quorum and all are 0, 1 and 2. */
  lemma Levels()
    ensures Level(One) == 0 && Level(Quorum) == 1 && Level(All) == 2
  {}

  /** Every request starts with its opcode, and those with a consistency go on with it. */
  lemma RequestHeads(sql: Text, params: Cells, batch: seq<Cells>, id: U32, c: Consistency)
    ensures EncodeRequest(Query(sql, c))[..2] == [1, Level(c)] && EncodeRequest(Prepare(sql))[..1] == [2]
    ensures EncodeRequest(Execute(id, params, c))[..2] == [3, Level(c)] && EncodeRequest(Close(id))[..1] == [4]
    ensures EncodeRequest(QueryStream(sql, params, c))[..2] == [if params == [] then 5 else 9, Level(c)]
    ensures EncodeRequest(ExecuteBatch(id, batch, c))[..2] == [7, Level(c)]
    ensures EncodeRequest(Hello(sql, sql))[..1] == [8]
    ensures TaggedRequest(id, Prepare(sql))[..1] == [6]
  {
    hide Le, Counted, C.Prefixed, Params;
  }

  /** The rest of a request, field by field. */
  lemma RequestBodies(sql: Text, text: Text, params: Cells, batch: seq<Cells>, id: U32, c: Consistency)
    ensures EncodeRequest(Query(sql, c)) == [1] + ([Level(c)] + C.Prefixed(sql))
    ensures EncodeRequest(Prepare(sql)) == [2] + C.Prefixed(sql)
    ensures EncodeRequest(Execute(id, params, c)) == [3] + ([Level(c)] + (Le(id, 4) + Params(params)))
    ensures EncodeRequest(Close(id)) == [4] + Le(id, 4)
    ensures EncodeRequest(QueryStream(sql, [], c)) == [5] + ([Level(c)] + C.Prefixed(sql))
    ensures params != [] ==>
              EncodeRequest(QueryStream(sql, params, c)) == [9] + ([Level(c)] + (C.Prefixed(sql) + Params(params)))
    ensures EncodeRequest(Hello(sql, text)) == [8] + (C.Prefixed(sql) + C.Prefixed(text))
    ensures EncodeRequest(ExecuteBatch(id, batch, c))
         == [7] + ([Level(c)] + (Le(id, 4) + (Le(|batch|, 4) + Join(Params, batch))))
    ensures TaggedRequest(id, Query(sql, c)) == [6] + (Le(id, 4) + EncodeRequest(Query(sql, c)))
  {
    hide Le, Params, C.Prefixed, Level, Join;
  }

  /** Parameters have a 2-byte count, rows a 4-byte one; a cell is a length and the stored value. */
  lemma CellBytes(cells: Cells, v: Value)
    ensures Params(cells) == Le(|cells|, 2) + Join(Cell, cells)
    ensures Messages.Row(cells) == Le(|cells|, 4) + Join(Cell, cells)
    ensures Cell(v) == Le(|C.Encode(v)|, 4) + C.Encode(v)
  {
    hide Le, C.Encode, Join;
  }

  lemma ResponseBytes(n: U64, id: U32, count: U16, text: Text, columns: seq<Text>, rows: seq<Cells>)
    ensures EncodeResponse(Messages.Rows(columns, rows)) == [0] + (Columns(columns) + RowList(rows))
    ensures EncodeResponse(Mutation(n)) == [1] + Le(n, 8) && EncodeResponse(Ddl) == [2]
    ensures EncodeResponse(Error(text)) == [3] + C.Prefixed(text)
    ensures EncodeResponse(Prepared(id, count)) == [4] + (Le(id, 4) + Le(count, 2))
    ensures EncodeResponse(RowsHeader(columns)) == [5] + Columns(columns)
    ensures EncodeResponse(RowsChunk(rows)) == [6] + RowList(rows) && EncodeResponse(RowsEnd) == [7]
  {
    hide Le, C.Prefixed, Columns, RowList;
  }

  /** Lists have 4-byte counts. */
  lemma ColumnBytes(columns: seq<Text>)
    ensures Columns(columns) == Le(|columns|, 4) + Join(C.Prefixed, columns)
  {
    hide Le, Join;
  }

  lemma RowBytes(rows: seq<Cells>)
    ensures RowList(rows) == Le(|rows|, 4) + Join(Messages.Row, rows)
  {
    hide Le, Join;
  }

  lemma SetsBytes(sets: seq<ResultSet>)
    ensures EncodeResponse(ResultSets(sets)) == [8] + (Le(|sets|, 4) + Join(SetBytes, sets))
  {
    hide Le, Join;
  }

  lemma TagBytes(id: U32, m: Response)
    ensures TaggedResponse(id, m) == [8] + (Le(id, 4) + EncodeResponse(m))
  {
    hide Le, EncodeResponse;
  }

  /** A frame is its length in 4 bytes, highest first, and its payload; 64 MiB is the longest. */
  lemma FrameBytes(length: seq<Byte>, payload: seq<Byte>)
    requires |length| == 4 && |payload| == Number(length)
    ensures FrameOf(payload) == length + payload && MAX_FRAME_LEN == 0x1000 * 0x4000
  {
    ByteOrder(length);
  }

  lemma {:induction false} NumberRead(bytes: seq<Byte>)
    ensures FromBe(bytes) == Number(bytes)
  {
    if bytes != [] { NumberRead(bytes[..|bytes| - 1]); }
  }

  /** A frame is read exactly when its length is there, is no more than 64 MiB, and so many bytes follow. */
  lemma FrameAccepted(s: seq<Byte>)
    ensures ReadFrame(s).Ok? <==> |s| >= 4 && Number(s[..4]) <= 0x1000 * 0x4000 && |s| >= 4 + Number(s[..4])
  {
    if |s| >= 4 { NumberRead(s[..4]); }
    hide FromBe, Number;
  }

  // ---- what is refused ----

  /** An opcode, a consistency or a reply's tag that is not in use. */
  lemma MessagesRefused(s: seq<Byte>)
    requires s != []
    ensures s[0] == 0 || s[0] == 6 || s[0] > 9 ==> DecodeRequest(s) == None
    ensures s[0] in {1, 3, 5, 7, 9} && |s| > 1 && s[1] > 2 ==> DecodeRequest(s) == None
    ensures s[0] > 8 ==> DecodeResponse(s) == None
  {
    hide C.ReadStr, C.ReadU32, ReadParams, ReadCounted, C.ReadU64, ReadU16, ReadColumns, ReadRows;
  }

  /** A value's tag that is not in use. */
  lemma ValuesRefused(s: seq<Byte>)
    requires s == [] || s[0] > 10
    ensures C.Decode(s) == None
  {}
}
