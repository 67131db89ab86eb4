/** Requests and responses: their bytes, and reading them back. */
module Messages {
  import opened Bytes
  import opened Values
  import opened Codec
  import opened WireLists

  type U16 = n: nat | n < 0x1_0000
  type Text = seq<Byte>
  type Cells = seq<Value>

  datatype Consistency = One | Quorum | All

  datatype Request =
    | Query(sql: Text, consistency: Consistency)
    | Prepare(sql: Text)
    | Execute(id: U32, params: Cells, consistency: Consistency)
    | Close(id: U32)
    | QueryStream(sql: Text, params: Cells, consistency: Consistency)
    | ExecuteBatch(id: U32, batch: seq<Cells>, consistency: Consistency)
    | Hello(name: Text, version: Text)

  datatype ResultSet = ResultSet(columns: seq<Text>, rows: seq<Cells>)

  datatype Response =
    | Rows(columns: seq<Text>, rows: seq<Cells>)
    | Mutation(affected: U64)
    | Ddl
    | Error(message: Text)
    | Prepared(id: U32, params: U16)
    | RowsHeader(columns: seq<Text>)
    | RowsChunk(rows: seq<Cells>)
    | RowsEnd
    | ResultSets(sets: seq<ResultSet>)

  const OP_QUERY: Byte := 1
  const OP_PREPARE: Byte := 2
  const OP_EXECUTE: Byte := 3
  const OP_CLOSE: Byte := 4
  const OP_QUERY_STREAM: Byte := 5
  const OP_TAGGED: Byte := 6
  const OP_EXECUTE_BATCH: Byte := 7
  const OP_HELLO: Byte := 8
  const OP_QUERY_STREAM_PARAMS: Byte := 9

  const RESP_ROWS: Byte := 0
  const RESP_MUTATION: Byte := 1
  const RESP_DDL: Byte := 2
  const RESP_ERROR: Byte := 3
  const RESP_PREPARED: Byte := 4
  const RESP_ROWS_HEADER: Byte := 5
  const RESP_ROWS_CHUNK: Byte := 6
  const RESP_ROWS_END: Byte := 7
  const RESP_RESULT_SETS: Byte := 8
  const RESP_TAGGED: Byte := 8

  // ---- parts ----

  function Level(c: Consistency): Byte {
    match c case One => 0 case Quorum => 1 case All => 2
  }

  function ReadLevel(s: seq<Byte>): Parsed<Consistency> {
    var (b, r) :- ReadU8(s);
    if b == 0 then Ok(One, r) else if b == 1 then Ok(Quorum, r) else if b == 2 then Ok(All, r) else Err
  }

  function Cell(v: Value): seq<Byte> {
    Prefixed(Encode(v))
  }

  function ReadCell(s: seq<Byte>): Parsed<Value> {
    var (raw, r) :- ReadPrefixed(s);
    match Decode(raw)
    case Some(v) => Ok(v, r)
    case None => Err
  }

  function Row(row: Cells): seq<Byte> {
    Counted(4, Cell, row)
  }

  function ReadRow(s: seq<Byte>): Parsed<Cells> {
    ReadCounted(4, ReadCell, s)
  }

  function Params(params: Cells): seq<Byte> {
    Counted(2, Cell, params)
  }

  function ReadParams(s: seq<Byte>): Parsed<Cells> {
    ReadCounted(2, ReadCell, s)
  }

  function Columns(columns: seq<Text>): seq<Byte> {
    Counted(4, Prefixed, columns)
  }

  function ReadColumns(s: seq<Byte>): Parsed<seq<Text>> {
    ReadCounted(4, ReadStr, s)
  }

  function RowList(rows: seq<Cells>): seq<Byte> {
    Counted(4, Row, rows)
  }

  function ReadRows(s: seq<Byte>): Parsed<seq<Cells>> {
    ReadCounted(4, ReadRow, s)
  }

  function SetBytes(set_: ResultSet): seq<Byte> {
    Columns(set_.columns) + RowList(set_.rows)
  }

  function ReadSet(s: seq<Byte>): Parsed<ResultSet> {
    var (columns, r) :- ReadColumns(s);
    var (rows, r2) :- ReadRows(r);
    Ok(ResultSet(columns, rows), r2)
  }

  // ---- requests ----

  function EncodeRequest(q: Request): (r: seq<Byte>)
    ensures r != [] && r[0] != OP_TAGGED
  {
    match q
    case Query(sql, c) => [OP_QUERY] + ([Level(c)] + Prefixed(sql))
    case Prepare(sql) => [OP_PREPARE] + Prefixed(sql)
    case Execute(id, params, c) => [OP_EXECUTE] + ([Level(c)] + (Le(id, 4) + Params(params)))
    case Close(id) => [OP_CLOSE] + Le(id, 4)
    case QueryStream(sql, params, c) =>
      if params == [] then [OP_QUERY_STREAM] + ([Level(c)] + Prefixed(sql))
      else [OP_QUERY_STREAM_PARAMS] + ([Level(c)] + (Prefixed(sql) + Params(params)))
    case ExecuteBatch(id, batch, c) => [OP_EXECUTE_BATCH] + ([Level(c)] + (Le(id, 4) + Counted(4, Params, batch)))
    case Hello(name, version) => [OP_HELLO] + (Prefixed(name) + Prefixed(version))
  }

  function ReadBody(op: Byte, s: seq<Byte>): Parsed<Request> {
    if op == OP_QUERY then
      var (c, r) :- ReadLevel(s);
      var (sql, r2) :- ReadStr(r);
      Ok(Query(sql, c), r2)
    else if op == OP_PREPARE then
      var (sql, r) :- ReadStr(s);
      Ok(Prepare(sql), r)
    else if op == OP_EXECUTE then
      var (c, r) :- ReadLevel(s);
      var (id, r2) :- ReadU32(r);
      var (params, r3) :- ReadParams(r2);
      Ok(Execute(id, params, c), r3)
    else if op == OP_CLOSE then
      var (id, r) :- ReadU32(s);
      Ok(Close(id), r)
    else if op == OP_HELLO then
      var (name, r) :- ReadStr(s);
      var (version, r2) :- ReadStr(r);
      Ok(Hello(name, version), r2)
    else if op == OP_EXECUTE_BATCH then
      var (c, r) :- ReadLevel(s);
      var (id, r2) :- ReadU32(r);
      var (batch, r3) :- ReadCounted(4, ReadParams, r2);
      Ok(ExecuteBatch(id, batch, c), r3)
    else if op == OP_QUERY_STREAM then
      var (c, r) :- ReadLevel(s);
      var (sql, r2) :- ReadStr(r);
      Ok(QueryStream(sql, [], c), r2)
    else if op == OP_QUERY_STREAM_PARAMS then
      var (c, r) :- ReadLevel(s);
      var (sql, r2) :- ReadStr(r);
      var (params, r3) :- ReadParams(r2);
      Ok(QueryStream(sql, params, c), r3)
    else Err
  }

  function ReadRequest(s: seq<Byte>): Parsed<Request> {
    var (op, r) :- ReadU8(s);
    ReadBody(op, r)
  }

  /** `ClientRequest::decode`: what follows the request is not looked at. */
  function DecodeRequest(s: seq<Byte>): Option<Request> {
    var p := ReadRequest(s);
    if p.Ok? then Some(p.value) else None
  }

  // ---- responses ----

  function EncodeResponse(m: Response): (r: seq<Byte>)
    ensures r != [] && (r[0] == RESP_TAGGED <==> m.ResultSets?)
  {
    match m
    case Rows(columns, rows) => [RESP_ROWS] + (Columns(columns) + RowList(rows))
    case Mutation(n) => [RESP_MUTATION] + Le(n, 8)
    case Ddl => [RESP_DDL]
    case Error(message) => [RESP_ERROR] + Prefixed(message)
    case Prepared(id, n) => [RESP_PREPARED] + (Le(id, 4) + Le(n, 2))
    case RowsHeader(columns) => [RESP_ROWS_HEADER] + Columns(columns)
    case RowsChunk(rows) => [RESP_ROWS_CHUNK] + RowList(rows)
    case RowsEnd => [RESP_ROWS_END]
    case ResultSets(sets) => [RESP_RESULT_SETS] + Counted(4, SetBytes, sets)
  }

  function ReadU16(s: seq<Byte>): Parsed<U16> {
    var (b, r) :- Take(s, 2);
    Pow256Values();
    Ok(FromLe(b), r)
  }

  function ReadReply(tag: Byte, s: seq<Byte>): Parsed<Response> {
    if tag == RESP_ROWS then
      var (columns, r) :- ReadColumns(s);
      var (rows, r2) :- ReadRows(r);
      Ok(Rows(columns, rows), r2)
    else if tag == RESP_MUTATION then
      var (n, r) :- ReadU64(s);
      Ok(Mutation(n), r)
    else if tag == RESP_DDL then Ok(Ddl, s)
    else if tag == RESP_ERROR then
      var (message, r) :- ReadStr(s);
      Ok(Error(message), r)
    else if tag == RESP_PREPARED then
      var (id, r) :- ReadU32(s);
      var (n, r2) :- ReadU16(r);
      Ok(Prepared(id, n), r2)
    else if tag == RESP_ROWS_HEADER then
      var (columns, r) :- ReadColumns(s);
      Ok(RowsHeader(columns), r)
    else if tag == RESP_ROWS_CHUNK then
      var (rows, r) :- ReadRows(s);
      Ok(RowsChunk(rows), r)
    else if tag == RESP_ROWS_END then Ok(RowsEnd, s)
    else if tag == RESP_RESULT_SETS then
      var (sets, r) :- ReadCounted(4, ReadSet, s);
      Ok(ResultSets(sets), r)
    else Err
  }

  function ReadResponse(s: seq<Byte>): Parsed<Response> {
    var (tag, r) :- ReadU8(s);
    ReadReply(tag, r)
  }

  /** `Response::decode`. */
  function DecodeResponse(s: seq<Byte>): Option<Response> {
    var p := ReadResponse(s);
    if p.Ok? then Some(p.value) else None
  }

  // ---- pipelining wrappers ----

  function TaggedRequest(id: U32, q: Request): seq<Byte> {
    [OP_TAGGED] + (Le(id, 4) + EncodeRequest(q))
  }

  /** `decode_client_request`: a wrapper inside a wrapper is refused. */
  function DecodeClientRequest(s: seq<Byte>): Option<(Option<U32>, Request)> {
    if s != [] && s[0] == OP_TAGGED then
      if |s| < 6 || s[5] == OP_TAGGED then None
      else
        Pow256Values();
        match DecodeRequest(s[5..])
        case Some(q) => Some((Some(FromLe(s[1..5])), q))
        case None => None
    else
      match DecodeRequest(s)
      case Some(q) => Some((None, q))
      case None => None
  }

  function TaggedResponse(id: U32, m: Response): seq<Byte> {
    [RESP_TAGGED] + (Le(id, 4) + EncodeResponse(m))
  }

  /** `decode_tagged_response`. */
  function DecodeTaggedResponse(s: seq<Byte>): Option<(Option<U32>, Response)> {
    if s != [] && s[0] == RESP_TAGGED then
      if |s| < 6 then None
      else
        Pow256Values();
        match DecodeResponse(s[5..])
        case Some(m) => Some((Some(FromLe(s[1..5])), m))
        case None => None
    else
      match DecodeResponse(s)
      case Some(m) => Some((None, m))
      case None => None
  }

  // ---- what can be sent ----

  predicate TextOk(t: Text) {
    Utf8(t) && |t| < U32_LIMIT
  }

  predicate TextsOk(ts: seq<Text>) {
    |ts| < U32_LIMIT && forall i :: 0 <= i < |ts| ==> TextOk(ts[i])
  }

  predicate ValueOk(v: Value) {
    WellFormed(v) && Fits(v) && |Encode(v)| < U32_LIMIT
  }

  /** Cells whose encodings fit and whose count is below `limit`. */
  predicate CellsOk(cells: Cells, limit: nat) {
    |cells| < limit && forall i :: 0 <= i < |cells| ==> ValueOk(cells[i])
  }

  predicate RowsOk(rows: seq<Cells>, limit: nat) {
    |rows| < U32_LIMIT && forall i :: 0 <= i < |rows| ==> CellsOk(rows[i], limit)
  }

  predicate SetOk(set_: ResultSet) {
    TextsOk(set_.columns) && RowsOk(set_.rows, U32_LIMIT)
  }

  /** Counts and lengths fit their fields and strings are UTF-8. */
  predicate RequestOk(q: Request) {
    match q
    case Query(sql, _) => TextOk(sql)
    case Prepare(sql) => TextOk(sql)
    case Execute(_, params, _) => CellsOk(params, 0x1_0000)
    case Close(_) => true
    case QueryStream(sql, params, _) => TextOk(sql) && CellsOk(params, 0x1_0000)
    case ExecuteBatch(_, batch, _) => RowsOk(batch, 0x1_0000)
    case Hello(name, version) => TextOk(name) && TextOk(version)
  }

  predicate ResponseOk(m: Response) {
    match m
    case Rows(columns, rows) => TextsOk(columns) && RowsOk(rows, U32_LIMIT)
    case Error(message) => TextOk(message)
    case RowsHeader(columns) => TextsOk(columns)
    case RowsChunk(rows) => RowsOk(rows, U32_LIMIT)
    case ResultSets(sets) => |sets| < U32_LIMIT && forall i :: 0 <= i < |sets| ==> SetOk(sets[i])
    case _ => true
  }
}
