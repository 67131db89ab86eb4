/** A streamed result set, down to the bytes on the wire: rows in order, then the end, then a request boundary. */
module RowStream {
  import opened Bytes
  import opened Values
  import opened Codec
  import opened WireLists
  import opened Frame
  import opened Messages
  import opened MessageTheorems
  import opened MessageReader

  datatype Fault = Transport | Malformed | Server(message: Text) | Unexpected

  /** The stream's fields and the bytes its connection has not read. */
  datatype Stream = Stream(rest: seq<Byte>, chunk: seq<Cells>, done: bool)

  datatype Item = Row(row: Cells) | Failed(fault: Fault) | Finished

  // ---- the stream's own steps ----

  datatype Fetched = Fetched(fault: Option<Fault>, stream: Stream)

  /** `next_frame`. After a transport fault nothing more is read from the connection. */
  function Fetch(s: Stream): (f: Fetched)
    ensures f.fault.None? ==> |f.stream.rest| < |s.rest|
  {
    match ReadFrame(s.rest)
    case Err => Fetched(Some(Transport), s.(rest := []))
    case Ok(payload, rest) =>
      match DecodeResponse(payload)
      case None => Fetched(Some(Malformed), s.(rest := rest))
      case Some(RowsChunk(rows)) => Fetched(None, s.(rest := rest, chunk := rows))
      case Some(RowsEnd) => Fetched(None, s.(rest := rest, done := true))
      case Some(Error(message)) => Fetched(Some(Server(message)), s.(rest := rest, done := true))
      case Some(_) => Fetched(Some(Unexpected), s.(rest := rest, done := true))
  }

  datatype Turn = Turn(item: Item, stream: Stream)

  /** `next`: empty chunks are passed over; a fault ends the stream. */
  function Advance(s: Stream): Turn
    decreases |s.rest|
  {
    if s.chunk != [] then Turn(Row(s.chunk[0]), s.(chunk := s.chunk[1..]))
    else if s.done then Turn(Finished, s)
    else
      var f := Fetch(s);
      if f.fault.Some? then Turn(Failed(f.fault.value), f.stream.(done := true)) else Advance(f.stream)
  }

  /** `drop`: reads out what the server is still sending. */
  function Drained(s: Stream): Fetched
    decreases |s.rest|
  {
    if s.done then Fetched(None, s)
    else
      var f := Fetch(s);
      if f.fault.Some? then f else Drained(f.stream)
  }

  /** How a stream request is answered: refused, or begun. */
  datatype Opening =
    | Refused(fault: Fault)
    | Begun(columns: seq<Text>, affected: nat, stream: Stream, more: seq<ResultSet>)

  /** The first frame: a header starts a stream, any other result is already complete. */
  function Open(rest: seq<Byte>): Opening {
    match ReadFrame(rest)
    case Err => Refused(Transport)
    case Ok(payload, rest) =>
      match DecodeResponse(payload)
      case None => Refused(Malformed)
      case Some(Error(message)) => Refused(Server(message))
      case Some(RowsHeader(columns)) => Begun(columns, 0, Stream(rest, [], false), [])
      case Some(Mutation(n)) => Begun([], n, Stream(rest, [], true), [])
      case Some(Ddl) => Begun([], 0, Stream(rest, [], true), [])
      case Some(ResultSets(sets)) =>
        if sets == [] then Begun([], 0, Stream(rest, [], true), [])
        else Begun(sets[0].columns, 0, Stream(rest, sets[0].rows, true), sets[1..])
      case Some(_) => Refused(Unexpected)
  }

  // ---- well-formed replies ----

  datatype End = Complete | Broken(message: Text)

  function EndFrame(end: End): Response {
    match end case Complete => RowsEnd case Broken(message) => Error(message)
  }

  function Packet(m: Response): seq<Byte> {
    FrameOf(EncodeResponse(m))
  }

  predicate PacketOk(m: Response) {
    ResponseOk(m) && |EncodeResponse(m)| <= MAX_FRAME_LEN
  }

  /** Any chunks, empty ones included, then the end. */
  function Reply(chunks: seq<seq<Cells>>, end: End): seq<Byte> {
    if chunks == [] then Packet(EndFrame(end)) else Packet(RowsChunk(chunks[0])) + Reply(chunks[1..], end)
  }

  predicate ReplyOk(chunks: seq<seq<Cells>>, end: End) {
    PacketOk(EndFrame(end)) && forall i :: 0 <= i < |chunks| ==> PacketOk(RowsChunk(chunks[i]))
  }

  function AllRows(chunks: seq<seq<Cells>>): seq<Cells> {
    if chunks == [] then [] else chunks[0] + AllRows(chunks[1..])
  }

  /** Mid-reply: `rows` are still to come, then `end`, then the wire stands at `after`. */
  ghost predicate Streaming(s: Stream, chunks: seq<seq<Cells>>, end: End, after: seq<Byte>) {
    !s.done && s.rest == Reply(chunks, end) + after && ReplyOk(chunks, end)
  }

  ghost predicate Midway(s: Stream, rows: seq<Cells>, end: End, after: seq<Byte>) {
    exists chunks :: Streaming(s, chunks, end, after) && rows == s.chunk + AllRows(chunks)
  }

  ghost predicate Over(s: Stream, after: seq<Byte>) {
    s.done && s.chunk == [] && s.rest == after
  }

  lemma PacketBack(m: Response, after: seq<Byte>)
    requires PacketOk(m)
    ensures ReadFrame(Packet(m) + after) == Ok(EncodeResponse(m), after)
    ensures DecodeResponse(EncodeResponse(m)) == Some(m)
  {
    hide ReadFrame, FrameOf, EncodeResponse, DecodeResponse, ResponseOk;
    FrameReadsBack(EncodeResponse(m));
    ResponseRoundTrip(m, []);
    assert EncodeResponse(m) + [] == EncodeResponse(m);
  }

  lemma FetchChunk(s: Stream, chunks: seq<seq<Cells>>, end: End, after: seq<Byte>)
    requires Streaming(s, chunks, end, after) && chunks != []
    ensures var f := Fetch(s);
            f.fault.None? && f.stream.chunk == chunks[0] && Streaming(f.stream, chunks[1..], end, after)
  {
    Assoc(Packet(RowsChunk(chunks[0])), Reply(chunks[1..], end), after);
    PacketBack(RowsChunk(chunks[0]), Reply(chunks[1..], end) + after);
    hide Packet, PacketOk, ReadFrame, DecodeResponse, EncodeResponse;
  }

  lemma FetchEnd(s: Stream, end: End, after: seq<Byte>)
    requires Streaming(s, [], end, after)
    ensures var fault := if end.Complete? then None else Some(Server(end.message));
            Fetch(s) == Fetched(fault, s.(rest := after, done := true))
  {
    PacketBack(EndFrame(end), after);
    hide Packet, PacketOk, ReadFrame, DecodeResponse, EncodeResponse;
  }

  /** What one call gives, mid-reply: the next row, or the end. */
  lemma {:induction false} NextStreaming(s: Stream, chunks: seq<seq<Cells>>, end: End, after: seq<Byte>)
    requires Streaming(s, chunks, end, after)
    ensures var rows := s.chunk + AllRows(chunks);
            var t := Advance(s);
            if rows != [] then t.item == Row(rows[0]) && Midway(t.stream, rows[1..], end, after)
            else t.item == (if end.Complete? then Finished else Failed(Server(end.message))) && Over(t.stream, after)
    decreases |chunks|
  {
    hide Reply, ReplyOk, Fetch;
    var rows := s.chunk + AllRows(chunks);
    if s.chunk != [] {
      var t := s.(chunk := s.chunk[1..]);
      assert rows[1..] == t.chunk + AllRows(chunks);
      assert Streaming(t, chunks, end, after);
    } else if chunks == [] {
      FetchEnd(s, end, after);
      NextOver(s.(rest := after, done := true));
    } else {
      FetchChunk(s, chunks, end, after);
      var f := Fetch(s);
      assert rows == f.stream.chunk + AllRows(chunks[1..]);
      NextStreaming(f.stream, chunks[1..], end, after);
    }
  }

  lemma NextOver(s: Stream)
    requires s.done && s.chunk == []
    ensures Advance(s) == Turn(Finished, s)
  {}

  /** The stream after `n` calls of `next`. */
  function After(s: Stream, n: nat): Stream
    decreases n
  {
    if n == 0 then s else After(Advance(s).stream, n - 1)
  }

  lemma {:induction false} AfterOver(s: Stream, n: nat)
    requires s.done && s.chunk == []
    ensures After(s, n) == s
    decreases n
  {
    if n > 0 { NextOver(s); AfterOver(s, n - 1); }
  }

  /** Where a reply with `rows` still to come stands after `n` calls. */
  lemma {:induction false} AfterMidway(s: Stream, rows: seq<Cells>, end: End, after: seq<Byte>, n: nat)
    requires Midway(s, rows, end, after)
    ensures if n <= |rows| then Midway(After(s, n), rows[n..], end, after) else Over(After(s, n), after)
    decreases n
  {
    hide Advance, Streaming;
    if n > 0 {
      var chunks :| Streaming(s, chunks, end, after) && rows == s.chunk + AllRows(chunks);
      NextStreaming(s, chunks, end, after);
      if rows != [] {
        AfterMidway(Advance(s).stream, rows[1..], end, after, n - 1);
        if n <= |rows| { assert rows[1..][n - 1..] == rows[n..]; }
      } else {
        AfterOver(Advance(s).stream, n - 1);
      }
    }
  }

  lemma FreshMidway(chunks: seq<seq<Cells>>, end: End, after: seq<Byte>)
    requires ReplyOk(chunks, end)
    ensures Midway(Stream(Reply(chunks, end) + after, [], false), AllRows(chunks), end, after)
  {
    hide Reply, ReplyOk;
    var s := Stream(Reply(chunks, end) + after, [], false);
    assert Streaming(s, chunks, end, after);
    assert s.chunk + AllRows(chunks) == AllRows(chunks);
  }

  /** Call `n` on any well-formed reply: row `n`; then the error, if there is one, once; then nothing, forever. */
  lemma StreamDelivers(chunks: seq<seq<Cells>>, end: End, after: seq<Byte>, n: nat)
    requires ReplyOk(chunks, end)
    ensures var rows := AllRows(chunks);
            Advance(After(Stream(Reply(chunks, end) + after, [], false), n)).item ==
              if n < |rows| then Row(rows[n])
              else if n == |rows| && end.Broken? then Failed(Server(end.message))
              else Finished
  {
    hide Advance, After, Streaming, Reply, ReplyOk;
    var s, rows := Stream(Reply(chunks, end) + after, [], false), AllRows(chunks);
    FreshMidway(chunks, end, after);
    AfterMidway(s, rows, end, after, n);
    var t := After(s, n);
    if n <= |rows| {
      var left :| Streaming(t, left, end, after) && rows[n..] == t.chunk + AllRows(left);
      NextStreaming(t, left, end, after);
    } else {
      NextOver(t);
    }
  }

  lemma {:induction false} DropStreaming(s: Stream, chunks: seq<seq<Cells>>, end: End, after: seq<Byte>)
    requires Streaming(s, chunks, end, after)
    ensures Drained(s).stream.rest == after
    decreases |chunks|
  {
    hide Reply, ReplyOk, Fetch;
    if chunks == [] {
      FetchEnd(s, end, after);
    } else {
      FetchChunk(s, chunks, end, after);
      DropStreaming(Fetch(s).stream, chunks[1..], end, after);
    }
  }

  /** Dropped after any number of calls, the stream leaves the wire just past the reply's terminator. */
  lemma DropAtBoundary(chunks: seq<seq<Cells>>, end: End, after: seq<Byte>, n: nat)
    requires ReplyOk(chunks, end)
    ensures Drained(After(Stream(Reply(chunks, end) + after, [], false), n)).stream.rest == after
  {
    hide Advance, After, Streaming, Reply, ReplyOk, Drained;
    var s, rows := Stream(Reply(chunks, end) + after, [], false), AllRows(chunks);
    FreshMidway(chunks, end, after);
    AfterMidway(s, rows, end, after, n);
    var t := After(s, n);
    if n <= |rows| {
      var left :| Streaming(t, left, end, after) && rows[n..] == t.chunk + AllRows(left);
      DropStreaming(t, left, end, after);
    } else {
      DropDone(t);
    }
  }

  lemma DropDone(s: Stream)
    requires s.done
    ensures Drained(s) == Fetched(None, s)
  {}

  // ---- any framed reply ----

  predicate IsChunk(payload: seq<Byte>) {
    DecodeResponse(payload).Some? && DecodeResponse(payload).value.RowsChunk?
  }

  predicate IsEnd(payload: seq<Byte>) {
    DecodeResponse(payload).Some? && (DecodeResponse(payload).value.RowsEnd? || DecodeResponse(payload).value.Error?)
  }

  /** Payloads of which only the last ends a reply; the others may be anything. */
  ghost predicate Terminated(ps: seq<seq<Byte>>) {
    && ps != [] && IsEnd(ps[|ps| - 1])
    && (forall i :: 0 <= i < |ps| ==> |ps[i]| <= MAX_FRAME_LEN)
    && (forall i :: 0 <= i < |ps| - 1 ==> !IsEnd(ps[i]))
  }

  ghost predicate ChunksOnly(ps: seq<seq<Byte>>) {
    forall i :: 0 <= i < |ps| - 1 ==> IsChunk(ps[i])
  }

  ghost predicate Framed(s: Stream, ps: seq<seq<Byte>>, after: seq<Byte>) {
    !s.done && s.rest == Join(FrameOf, ps) + after && Terminated(ps)
  }

  lemma TerminatedStep(ps: seq<seq<Byte>>)
    requires Terminated(ps)
    ensures |ps| == 1 <==> IsEnd(ps[0])
    ensures |ps| > 1 ==> Terminated(ps[1..]) && (ChunksOnly(ps) <==> IsChunk(ps[0]) && ChunksOnly(ps[1..]))
  {
    hide IsChunk, IsEnd;
    if |ps| > 1 {
      var t := ps[1..];
      assert forall i :: 0 <= i < |t| ==> t[i] == ps[i + 1];
      assert ChunksOnly(t) && IsChunk(ps[0]) ==> forall i :: 0 < i < |ps| - 1 ==> ps[i] == t[i - 1];
    }
  }

  lemma FetchPayload(s: Stream, payload: seq<Byte>, rest: seq<Byte>)
    requires ReadFrame(s.rest) == Ok(payload, rest)
    ensures var f := Fetch(s);
            && f.stream.rest == rest
            && (IsChunk(payload) ==> f.fault.None? && f.stream.done == s.done)
            && (!IsChunk(payload) && !IsEnd(payload) ==> f.fault.Some?)
            && (IsEnd(payload) ==> f.stream.done && f.stream.chunk == s.chunk)
  {
    hide ReadFrame, DecodeResponse;
  }

  lemma FirstFrame(ps: seq<seq<Byte>>, after: seq<Byte>)
    requires ps != [] && |ps[0]| <= MAX_FRAME_LEN
    ensures ReadFrame(Join(FrameOf, ps) + after) == Ok(ps[0], Join(FrameOf, ps[1..]) + after)
  {
    var tail := Join(FrameOf, ps[1..]);
    Assoc(FrameOf(ps[0]), tail, after);
    FrameReadsBack(ps[0]);
    hide FrameOf, ReadFrame;
    assert ReadFrame(FrameOf(ps[0]) + (tail + after)) == Ok(ps[0], tail + after);
  }

  /** The next frame of such a reply. */
  lemma FetchFramed(s: Stream, ps: seq<seq<Byte>>, after: seq<Byte>)
    requires Framed(s, ps, after)
    ensures var f, rest := Fetch(s), Join(FrameOf, ps[1..]) + after;
            && f.stream.rest == rest
            && (IsChunk(ps[0]) ==> f.fault.None? && !f.stream.done)
            && (!IsChunk(ps[0]) && !IsEnd(ps[0]) ==> f.fault.Some?)
            && (IsEnd(ps[0]) ==> f.stream.done && f.stream.chunk == s.chunk)
  {
    hide Fetch, IsChunk, IsEnd, Join, FrameOf, ReadFrame;
    FirstFrame(ps, after);
    FetchPayload(s, ps[0], Join(FrameOf, ps[1..]) + after);
  }

  lemma LongerThan(ps: seq<seq<Byte>>, after: seq<Byte>)
    requires ps != []
    ensures Join(FrameOf, ps) + after != after
  {
    assert |Join(FrameOf, ps)| >= |FrameOf(ps[0])| >= 4;
  }

  /** Where the drain will leave the wire: at the boundary exactly if `good`. */
  ghost predicate OnCourse(s: Stream, after: seq<Byte>, good: bool) {
    (s.done && (s.rest == after <==> good))
    || exists ps :: Framed(s, ps, after) && (ChunksOnly(ps) <==> good)
  }

  lemma {:induction false} DrainCourse(s: Stream, ps: seq<seq<Byte>>, after: seq<Byte>)
    requires Framed(s, ps, after)
    ensures Drained(s).stream.rest == after <==> ChunksOnly(ps)
    decreases |ps|
  {
    FetchFramed(s, ps, after);
    TerminatedStep(ps);
    hide Fetch, IsChunk, IsEnd, Terminated, Join, FrameOf;
    var f := Fetch(s);
    if |ps| == 1 {
      NothingLeft(ps, after);
      if f.fault.None? { DropDone(f.stream); }
    } else if IsChunk(ps[0]) {
      DrainCourse(f.stream, ps[1..], after);
    } else {
      LongerThan(ps[1..], after);
    }
  }

  lemma NothingLeft(ps: seq<seq<Byte>>, after: seq<Byte>)
    requires |ps| == 1
    ensures Join(FrameOf, ps[1..]) + after == after && ChunksOnly(ps)
  {
    assert [] + after == after;
  }

  lemma {:induction false} AdvanceCourse(s: Stream, ps: seq<seq<Byte>>, after: seq<Byte>)
    requires Framed(s, ps, after)
    ensures OnCourse(Advance(s).stream, after, ChunksOnly(ps))
    decreases |ps|
  {
    FetchFramed(s, ps, after);
    TerminatedStep(ps);
    hide Fetch, IsChunk, IsEnd, Terminated, Join, FrameOf, ChunksOnly;
    var f := Fetch(s);
    if s.chunk != [] {
      assert Framed(s.(chunk := s.chunk[1..]), ps, after);
    } else if |ps| == 1 {
      NothingLeft(ps, after);
      if f.fault.None? { NextOver(f.stream); }
    } else if IsChunk(ps[0]) {
      AdvanceCourse(f.stream, ps[1..], after);
    } else {
      LongerThan(ps[1..], after);
    }
  }

  lemma DoneCourse(s: Stream, after: seq<Byte>, good: bool)
    requires s.done && (s.rest == after <==> good)
    ensures OnCourse(Advance(s).stream, after, good) && (Drained(s).stream.rest == after <==> good)
  {}

  lemma {:induction false} AfterCourse(s: Stream, after: seq<Byte>, good: bool, n: nat)
    requires OnCourse(s, after, good)
    ensures Drained(After(s, n)).stream.rest == after <==> good
    decreases n
  {
    hide Framed, ChunksOnly, Advance, Drained;
    if s.done && (s.rest == after <==> good) {
      DoneCourse(s, after, good);
      if n > 0 { AfterCourse(Advance(s).stream, after, good, n - 1); }
    } else {
      var ps :| Framed(s, ps, after) && (ChunksOnly(ps) <==> good);
      if n > 0 {
        AdvanceCourse(s, ps, after);
        AfterCourse(Advance(s).stream, after, good, n - 1);
      } else {
        DrainCourse(s, ps, after);
      }
    }
  }

  /**
    For any framed reply that ends once: dropped after any number of calls, the stream leaves the wire at the
    request boundary exactly when every frame before the terminator is a chunk. A frame that does not decode,
    or of another kind, stops the drain with the rest of the reply unread.
   */
  lemma DropExact(ps: seq<seq<Byte>>, after: seq<Byte>, n: nat)
    requires Terminated(ps)
    ensures var s := Stream(Join(FrameOf, ps) + after, [], false);
            Drained(After(s, n)).stream.rest == after <==> ChunksOnly(ps)
  {
    hide Terminated, ChunksOnly, Join, After, Drained;
    var s := Stream(Join(FrameOf, ps) + after, [], false);
    assert Framed(s, ps, after);
    AfterCourse(s, after, ChunksOnly(ps), n);
  }

  /** A well-formed reply opens a stream on its header, ready for its first row. */
  lemma OpenWellFormed(columns: seq<Text>, chunks: seq<seq<Cells>>, end: End, after: seq<Byte>)
    requires PacketOk(RowsHeader(columns))
    ensures Open(Packet(RowsHeader(columns)) + (Reply(chunks, end) + after))
         == Begun(columns, 0, Stream(Reply(chunks, end) + after, [], false), [])
  {
    PacketBack(RowsHeader(columns), Reply(chunks, end) + after);
    hide Packet, PacketOk, ReadFrame, DecodeResponse, EncodeResponse;
  }

  /** A mutation's answer is complete: its count, no rows. */
  lemma OpenMutation(n: U64, after: seq<Byte>)
    ensures Open(Packet(Mutation(n)) + after) == Begun([], n, Stream(after, [], true), [])
  {
    SmallPacket(Mutation(n), 9);
    PacketBack(Mutation(n), after);
    hide Packet, PacketOk, ReadFrame, DecodeResponse, EncodeResponse;
  }

  lemma OpenDdl(after: seq<Byte>)
    ensures Open(Packet(Ddl) + after) == Begun([], 0, Stream(after, [], true), [])
  {
    SmallPacket(Ddl, 1);
    PacketBack(Ddl, after);
    hide Packet, PacketOk, ReadFrame, DecodeResponse, EncodeResponse;
  }

  /** A refusal carries the server's message, and ends the exchange. */
  lemma OpenRefused(message: Text, after: seq<Byte>)
    requires PacketOk(Error(message))
    ensures Open(Packet(Error(message)) + after) == Refused(Server(message))
  {
    PacketBack(Error(message), after);
    hide Packet, PacketOk, ReadFrame, DecodeResponse, EncodeResponse;
  }

  lemma SmallPacket(m: Response, n: nat)
    requires ResponseOk(m) && |EncodeResponse(m)| == n && n <= 9
    ensures PacketOk(m)
  {}

  /** What a frame that is neither a chunk nor an end is to the reader: an error, once, and the end of the stream. */
  lemma FaultEnds(s: Stream, n: nat)
    requires !s.done && s.chunk == [] && Advance(s).item.Failed?
    ensures Advance(After(s, n + 1)).item == Finished
  {
    FaultDone(s);
    hide Advance;
    AfterOver(Advance(s).stream, n);
    NextOver(Advance(s).stream);
  }

  lemma {:induction false} FaultDone(s: Stream)
    requires s.chunk == [] && Advance(s).item.Failed?
    ensures Advance(s).stream.done && Advance(s).stream.chunk == []
    decreases |s.rest|
  {
    if !s.done {
      var f := Fetch(s);
      if f.fault.None? {
        if f.stream.chunk == [] { FaultDone(f.stream); }
      } else {
        FaultKeepsChunk(s);
      }
    }
  }

  lemma FaultKeepsChunk(s: Stream)
    requires Fetch(s).fault.Some?
    ensures Fetch(s).stream.chunk == s.chunk
  {
    hide ReadFrame, DecodeResponse;
  }

  /** Which error: the bytes give out, the payload says nothing, the server's message, or a reply out of place. */
  lemma FaultKinds(payload: seq<Byte>, after: seq<Byte>)
    requires |payload| <= MAX_FRAME_LEN
    ensures Advance(Stream([], [], false)).item == Failed(Transport)
    ensures var item := Advance(Stream(FrameOf(payload) + after, [], false)).item;
            && (DecodeResponse(payload) == None ==> item == Failed(Malformed))
            && (forall m :: DecodeResponse(payload) == Some(m) ==>
                  (m.Error? ==> item == Failed(Server(m.message)))
                  && (!m.RowsChunk? && !m.RowsEnd? && !m.Error? ==> item == Failed(Unexpected)))
  {
    FrameReadsBack(payload);
    assert ReadFrame([]) == Err;
    hide ReadFrame, FrameOf, DecodeResponse;
    assert ReadFrame(FrameOf(payload) + after) == Ok(payload, after);
  }

  // ---- several result sets in one frame ----

  /** `next_result_set`. */
  function MoveOn(o: Opening): Opening {
    if o.Begun? && o.more != []
    then Begun(o.more[0].columns, o.affected, o.stream.(chunk := o.more[0].rows), o.more[1..])
    else o
  }

  function MovedOn(o: Opening, k: nat): Opening
    decreases k
  {
    if k == 0 then o else MovedOn(MoveOn(o), k - 1)
  }

  lemma {:induction false} MovedThrough(sets: seq<ResultSet>, after: seq<Byte>, i: nat, k: nat)
    requires i + k < |sets|
    ensures MovedOn(Begun(sets[i].columns, 0, Stream(after, sets[i].rows, true), sets[i + 1..]), k)
         == Begun(sets[i + k].columns, 0, Stream(after, sets[i + k].rows, true), sets[i + k + 1..])
    decreases k
  {
    if k > 0 {
      assert sets[i + 1..][0] == sets[i + 1] && sets[i + 1..][1..] == sets[i + 2..];
      MovedThrough(sets, after, i + 1, k - 1);
    }
  }

  lemma {:induction false} CompleteRows(rest: seq<Byte>, rows: seq<Cells>, n: nat)
    ensures Advance(After(Stream(rest, rows, true), n)) ==
            if n < |rows| then Turn(Row(rows[n]), Stream(rest, rows[n + 1..], true))
            else Turn(Finished, Stream(rest, [], true))
    decreases n
  {
    if n > 0 {
      if rows == [] {
        NextOver(Stream(rest, [], true));
      } else if n < |rows| {
        assert rows[1..][n..] == rows[n + 1..];
      }
      CompleteRows(rest, if rows == [] then [] else rows[1..], n - 1);
    }
  }

  /**
    A multi-set reply delivers every set in order: after k moves the columns are the k-th set's, and its rows
    come one per call, then nothing; no move and no call reads from the connection.
   */
  lemma SetsDelivered(sets: seq<ResultSet>, after: seq<Byte>, k: nat, n: nat)
    requires PacketOk(ResultSets(sets)) && k < |sets|
    ensures var o := MovedOn(Open(Packet(ResultSets(sets)) + after), k);
            && o.Begun? && o.columns == sets[k].columns && o.affected == 0 && |o.more| == |sets| - 1 - k
            && Advance(After(o.stream, n)).stream.rest == after
            && Advance(After(o.stream, n)).item == if n < |sets[k].rows| then Row(sets[k].rows[n]) else Finished
  {
    OpenSets(sets, after);
    MovedThrough(sets, after, 0, k);
    CompleteRows(after, sets[k].rows, n);
    hide Open, MovedOn, Advance, After;
  }

  lemma OpenSets(sets: seq<ResultSet>, after: seq<Byte>)
    requires PacketOk(ResultSets(sets))
    ensures Open(Packet(ResultSets(sets)) + after) ==
            if sets == [] then Begun([], 0, Stream(after, [], true), [])
            else Begun(sets[0].columns, 0, Stream(after, sets[0].rows, true), sets[1..])
  {
    PacketBack(ResultSets(sets), after);
    hide Packet, PacketOk, ReadFrame, DecodeResponse, EncodeResponse;
  }

  // ---- as the driver runs it ----

  /** After a transport fault the unread bytes no longer matter. */
  ghost predicate Matches(fault: Option<Fault>, spec: Stream, s: Stream) {
    spec.chunk == s.chunk && spec.done == s.done && (fault != Some(Transport) ==> spec.rest == s.rest)
  }

  ghost predicate TurnMatches(t: Turn, item: Item, s: Stream) {
    item == t.item && Matches(if item.Failed? then Some(item.fault) else None, t.stream, s)
  }

  class RowStream {
    const source: Source
    var columns: seq<Text>
    var affected: nat
    var chunk: seq<Cells>
    var more: seq<ResultSet>
    var done: bool

    ghost function State(): Stream
      reads this, source
    {
      Stream(source.rest, chunk, done)
    }

    constructor (source: Source, columns: seq<Text>, affected: nat, chunk: seq<Cells>, more: seq<ResultSet>, done: bool)
      ensures this.source == source && State() == Stream(source.rest, chunk, done)
      ensures this.columns == columns && this.affected == affected && this.more == more
    {
      this.source, this.columns, this.affected := source, columns, affected;
      this.chunk, this.more, this.done := chunk, more, done;
    }

    /** `next_result_set`: the iteration moves on to the next set of a multi-set reply. */
    method NextResultSet() returns (moved: bool)
      modifies this
      ensures moved == (old(more) != []) && affected == old(affected)
      ensures Begun(columns, affected, State(), more) == MoveOn(old(Begun(columns, affected, State(), more)))
    {
      moved := more != [];
      if moved {
        columns, chunk, more := more[0].columns, more[0].rows, more[1..];
      }
    }

    /** `next_frame`. */
    method NextFrame() returns (fault: Option<Fault>)
      modifies this`chunk, this`done, source
      ensures var f := Fetch(old(State())); fault == f.fault && Matches(fault, f.stream, State())
    {
      hide ReadFrame, DecodeResponse;
      var buf := new Buffer();
      var ok := ReadFrameInto(source, buf);
      if !ok { return Some(Transport); }
      var m := ResponseFrom(buf.bytes);
      match m {
        case None => return Some(Malformed);
        case Some(RowsChunk(rows)) =>
          chunk := rows;
          return None;
        case Some(RowsEnd) =>
          done := true;
          return None;
        case Some(Error(message)) =>
          done := true;
          return Some(Server(message));
        case Some(_) =>
          done := true;
          return Some(Unexpected);
      }
    }

    /** `next`: ends, because every frame it reads uses up bytes. */
    method Next() returns (item: Item)
      modifies this`chunk, this`done, source
      ensures TurnMatches(Advance(old(State())), item, State())
    {
      hide Fetch;
      ghost var start := State();
      while true
        invariant Advance(State()) == Advance(start)
        decreases |source.rest|
      {
        if chunk != [] {
          item := Row(chunk[0]);
          chunk := chunk[1..];
          return;
        }
        if done { return Finished; }
        var fault := NextFrame();
        if fault.Some? {
          done := true;
          return Failed(fault.value);
        }
      }
    }

    /** `drop`. */
    method Drain()
      modifies this`chunk, this`done, source
      ensures var d := Drained(old(State())); Matches(d.fault, d.stream, State())
    {
      hide Fetch;
      ghost var start := State();
      while !done
        invariant Drained(State()) == Drained(start)
        decreases |source.rest|
      {
        var fault := NextFrame();
        if fault.Some? { return; }
      }
    }
  }

  /** The answer to a stream request. */
  method OpenStream(source: Source) returns (fault: Option<Fault>, stream: RowStream?)
    modifies source
    ensures match Open(old(source.rest))
            case Refused(f) => fault == Some(f) && stream == null
            case Begun(columns, affected, s, more) =>
              && fault == None && stream != null && stream.source == source && stream.State() == s
              && stream.columns == columns && stream.affected == affected && stream.more == more
  {
    hide ReadFrame, DecodeResponse;
    var buf := new Buffer();
    var ok := ReadFrameInto(source, buf);
    if !ok { return Some(Transport), null; }
    var m := ResponseFrom(buf.bytes);
    fault, stream := None, null;
    match m {
      case None => fault := Some(Malformed);
      case Some(Error(message)) => fault := Some(Server(message));
      case Some(RowsHeader(columns)) => stream := new RowStream(source, columns, 0, [], [], false);
      case Some(Mutation(n)) => stream := new RowStream(source, [], n, [], [], true);
      case Some(Ddl) => stream := new RowStream(source, [], 0, [], [], true);
      case Some(ResultSets(sets)) =>
        if sets == [] { stream := new RowStream(source, [], 0, [], [], true); }
        else { stream := new RowStream(source, sets[0].columns, 0, sets[0].rows, sets[1..], true); }
      case Some(_) => fault := Some(Unexpected);
    }
  }
}
