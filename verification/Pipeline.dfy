/** Pipelined requests: replies matched by id, in whatever order they arrive. */
module Pipeline {
  import opened Bytes
  import opened Values
  import opened Codec
  import opened WireLists
  import opened Frame
  import opened Messages
  import opened MessageTheorems
  import opened MessageWriter
  import opened MessageReader

  type Slots = seq<Option<Response>>

  /** `Panicked` stands for the final unwrap of a slot nothing was put in. */
  datatype Outcome = Done(replies: seq<Response>) | Transport | Malformed | Untagged | UnexpectedId(id: U32) | Panicked

  ghost predicate Filled(slots: Slots) {
    forall i :: 0 <= i < |slots| ==> slots[i].Some?
  }

  function Contents(slots: Slots): seq<Response>
    requires forall i :: 0 <= i < |slots| ==> slots[i].Some?
  {
    seq(|slots|, i requires 0 <= i < |slots| => slots[i].value)
  }

  function Unwrapped(slots: Slots): Outcome {
    if forall i :: 0 <= i < |slots| ==> slots[i].Some? then Done(Contents(slots)) else Panicked
  }

  /** One reply frame: a tagged reply, or the outcome it forces. */
  datatype Arrival = Bad(outcome: Outcome) | Good(id: U32, reply: Response, after: seq<Byte>)

  function Arrive(rest: seq<Byte>): (a: Arrival)
    ensures a.Bad? ==> a.outcome.Transport? || a.outcome.Malformed? || a.outcome.Untagged?
  {
    match ReadFrame(rest)
    case Err => Bad(Transport)
    case Ok(payload, after) =>
      match DecodeTaggedResponse(payload)
      case None => Bad(Malformed)
      case Some((None, _)) => Bad(Untagged)
      case Some((Some(id), m)) => Good(id, m, after)
  }

  /** The reading half of `try_pipeline`: `k` more replies into `slots`. */
  function Collect(slots: Slots, rest: seq<Byte>, k: nat): Outcome
    decreases k
  {
    if k == 0 then Unwrapped(slots)
    else
      match Arrive(rest)
      case Bad(outcome) => outcome
      case Good(id, m, after) =>
        if id < |slots| && slots[id].None? then Collect(slots[id := Some(m)], after, k - 1) else UnexpectedId(id)
  }

  function Empty(n: nat): Slots {
    seq(n, i => None)
  }

  // ---- all slots fill ----

  function Count(slots: Slots): (c: nat)
    ensures c <= |slots|
  {
    if slots == [] then 0 else Count(slots[..|slots| - 1]) + (if slots[|slots| - 1].Some? then 1 else 0)
  }

  lemma {:induction false} CountPut(slots: Slots, i: nat, m: Response)
    requires i < |slots| && slots[i].None?
    ensures Count(slots[i := Some(m)]) == Count(slots) + 1
    decreases |slots|
  {
    var n := |slots| - 1;
    if i == n {
      assert slots[i := Some(m)][..n] == slots[..n];
    } else {
      CountPut(slots[..n], i, m);
      assert slots[i := Some(m)][..n] == slots[..n][i := Some(m)];
    }
  }

  lemma {:induction false} CountFull(slots: Slots)
    requires Count(slots) == |slots|
    ensures Filled(slots)
  {
    if slots != [] {
      CountFull(slots[..|slots| - 1]);
      assert forall i :: 0 <= i < |slots| - 1 ==> slots[i] == slots[..|slots| - 1][i];
    }
  }

  lemma {:induction false} CountEmpty(n: nat)
    ensures Count(Empty(n)) == 0
  {
    if n > 0 {
      CountEmpty(n - 1);
      assert Empty(n)[..n - 1] == Empty(n - 1);
    }
  }

  lemma {:induction false} CollectFills(slots: Slots, rest: seq<Byte>, k: nat)
    requires Count(slots) + k == |slots|
    ensures Collect(slots, rest, k) != Panicked
    decreases k
  {
    hide Arrive;
    if k == 0 {
      CountFull(slots);
    } else {
      var a := Arrive(rest);
      if a.Good? && a.id < |slots| && slots[a.id].None? {
        CountPut(slots, a.id, a.reply);
        CollectFills(slots[a.id := Some(a.reply)], a.after, k - 1);
      }
    }
  }

  /** n accepted replies fill all n slots: the final unwrap never fails, whatever the server sends. */
  lemma NeverPanics(n: nat, rest: seq<Byte>)
    ensures Collect(Empty(n), rest, n) != Panicked
  {
    CountEmpty(n);
    hide Collect;
    CollectFills(Empty(n), rest, n);
  }

  // ---- exactly the well-tagged arrivals are accepted ----

  datatype Tagged = Tagged(id: U32, reply: Response)

  function ReadTagged(s: seq<Byte>): Parsed<Tagged> {
    match Arrive(s)
    case Good(id, m, after) => Ok(Tagged(id, m), after)
    case Bad(_) => Err
  }

  /** Every id names an empty slot, and no two are the same. */
  ghost predicate Fitting(slots: Slots, arrivals: seq<Tagged>) {
    && (forall i :: 0 <= i < |arrivals| ==> arrivals[i].id < |slots| && slots[arrivals[i].id].None?)
    && (forall i, j :: 0 <= i < j < |arrivals| ==> arrivals[i].id != arrivals[j].id)
  }

  /** `out` holds each arrival at its id, and elsewhere what `slots` held. */
  ghost predicate Holds(slots: Slots, arrivals: seq<Tagged>, out: seq<Response>) {
    && |out| == |slots|
    && (forall i :: 0 <= i < |arrivals| ==> arrivals[i].id < |out| && out[arrivals[i].id] == arrivals[i].reply)
    && (forall j :: 0 <= j < |slots| && slots[j].Some? ==> out[j] == slots[j].value)
  }

  lemma FittingStep(slots: Slots, a: Tagged, more: seq<Tagged>)
    ensures Fitting(slots, [a] + more) <==>
              a.id < |slots| && slots[a.id].None? && Fitting(slots[a.id := Some(a.reply)], more)
  {
    if Fitting(slots, [a] + more) { FittingRest(slots, a, more); }
    if a.id < |slots| && slots[a.id].None? && Fitting(slots[a.id := Some(a.reply)], more) {
      FittingAll(slots, a, more);
    }
  }

  lemma FittingRest(slots: Slots, a: Tagged, more: seq<Tagged>)
    requires Fitting(slots, [a] + more)
    ensures a.id < |slots| && slots[a.id].None? && Fitting(slots[a.id := Some(a.reply)], more)
  {
    var all := [a] + more;
    assert all[0] == a;
    forall i | 0 <= i < |more| ensures more[i].id != a.id && more[i].id < |slots| && slots[more[i].id].None? {
      assert all[i + 1] == more[i];
    }
    forall i, j | 0 <= i < j < |more| ensures more[i].id != more[j].id {
      assert all[i + 1] == more[i] && all[j + 1] == more[j];
    }
  }

  lemma FittingAll(slots: Slots, a: Tagged, more: seq<Tagged>)
    requires a.id < |slots| && slots[a.id].None? && Fitting(slots[a.id := Some(a.reply)], more)
    ensures Fitting(slots, [a] + more)
  {
    var all, put := [a] + more, slots[a.id := Some(a.reply)];
    assert put[a.id].Some?;
    forall i | 0 <= i < |all| ensures all[i].id < |slots| && slots[all[i].id].None? && (i > 0 ==> all[i].id != a.id) {
      if i > 0 {
        assert all[i] == more[i - 1];
        assert put[more[i - 1].id].None?;
      }
    }
    forall i, j | 0 <= i < j < |all| ensures all[i].id != all[j].id {
      if i > 0 { assert all[i] == more[i - 1] && all[j] == more[j - 1]; }
    }
  }

  lemma HoldsStep(slots: Slots, a: Tagged, more: seq<Tagged>, out: seq<Response>)
    requires a.id < |slots| && slots[a.id].None? && Holds(slots[a.id := Some(a.reply)], more, out)
    ensures Holds(slots, [a] + more, out)
  {
    var put := slots[a.id := Some(a.reply)];
    assert put[a.id].Some? && out[a.id] == a.reply;
    forall j | 0 <= j < |slots| && slots[j].Some? ensures out[j] == slots[j].value {
      assert put[j] == slots[j];
    }
  }

  lemma {:induction false} CollectAccepts(slots: Slots, rest: seq<Byte>, k: nat)
    requires Count(slots) + k == |slots|
    ensures var p := ParseN(ReadTagged, rest, k);
            && (Collect(slots, rest, k).Done? <==> p.Ok? && Fitting(slots, p.value))
            && (Collect(slots, rest, k).Done? ==> Holds(slots, p.value, Collect(slots, rest, k).replies))
    decreases k
  {
    hide Arrive, Fitting, Holds;
    if k == 0 {
      CountFull(slots);
      CollectNone(slots);
    } else {
      var t := ReadTagged(rest);
      if t.Ok? {
        var id, m := t.value.id, t.value.reply;
        var q := ParseN(ReadTagged, t.rest, k - 1);
        if q.Ok? { FittingStep(slots, t.value, q.value); }
        if id < |slots| && slots[id].None? {
          CountPut(slots, id, m);
          CollectAccepts(slots[id := Some(m)], t.rest, k - 1);
          if Collect(slots, rest, k).Done? {
            HoldsStep(slots, t.value, q.value, Collect(slots, rest, k).replies);
          }
        }
      }
    }
  }

  lemma CollectNone(slots: Slots)
    requires Filled(slots)
    ensures Unwrapped(slots).Done? && Fitting(slots, []) && Holds(slots, [], Unwrapped(slots).replies)
  {}

  /** Accepted exactly when n tagged replies arrive with n different ids below n, each then at its id. */
  lemma PipelineExact(n: nat, rest: seq<Byte>)
    ensures var p, r := ParseN(ReadTagged, rest, n), Collect(Empty(n), rest, n);
            && (r.Done? <==>
                  && p.Ok?
                  && (forall i :: 0 <= i < n ==> p.value[i].id < n)
                  && (forall i, j :: 0 <= i < j < n ==> p.value[i].id != p.value[j].id))
            && (r.Done? ==> |r.replies| == n && forall i :: 0 <= i < n ==> r.replies[p.value[i].id] == p.value[i].reply)
  {
    CountEmpty(n);
    CollectAccepts(Empty(n), rest, n);
    hide Collect, ParseN, ReadTagged;
  }

  /** A plain reply, other than result sets, is recognised as that of a server without pipelining. */
  lemma UntaggedReply(slots: Slots, m: Response, after: seq<Byte>, k: nat)
    requires k > 0 && ResponseOk(m) && |EncodeResponse(m)| <= MAX_FRAME_LEN && !m.ResultSets?
    ensures Collect(slots, FrameOf(EncodeResponse(m)) + after, k) == Untagged
  {
    FrameReadsBack(EncodeResponse(m));
    PlainResponseUntagged(m);
    hide ReadFrame, FrameOf, EncodeResponse, DecodeTaggedResponse, ResponseOk;
    assert ReadFrame(FrameOf(EncodeResponse(m)) + after) == Ok(EncodeResponse(m), after);
  }

  /** A reply whose id is out of range or already answered is reported by that id. */
  lemma StrayReply(slots: Slots, t: Tagged, after: seq<Byte>, k: nat)
    requires k > 0 && TaggedOk(t) && (t.id >= |slots| || slots[t.id].Some?)
    ensures Collect(slots, TaggedPacket(t) + after, k) == UnexpectedId(t.id)
  {
    TaggedBack(t);
    hide ReadFrame, FrameOf, DecodeTaggedResponse, TaggedPacket, TaggedOk;
    assert ReadTagged(TaggedPacket(t) + after) == Ok(t, after);
  }

  // ---- end to end ----

  function TaggedPacket(t: Tagged): seq<Byte> {
    FrameOf(TaggedResponse(t.id, t.reply))
  }

  predicate TaggedOk(t: Tagged) {
    ResponseOk(t.reply) && |TaggedResponse(t.id, t.reply)| <= MAX_FRAME_LEN
  }

  lemma TaggedBack(t: Tagged)
    requires TaggedOk(t)
    ensures ReadsBack(ReadTagged, TaggedPacket(t), t)
  {
    hide ReadFrame, FrameOf, DecodeTaggedResponse, TaggedResponse, ResponseOk;
    FrameReadsBack(TaggedResponse(t.id, t.reply));
    TaggedResponseRoundTrip(t.id, t.reply);
    forall y ensures ReadTagged(TaggedPacket(t) + y) == Ok(t, y) {}
  }

  /** Replies to all n requests, sent in any order, come back in request order. */
  lemma AnyArrivalOrder(replies: seq<Response>, arrivals: seq<Tagged>, after: seq<Byte>)
    requires |arrivals| == |replies| && forall i :: 0 <= i < |arrivals| ==> TaggedOk(arrivals[i])
    requires forall i, j :: 0 <= i < j < |arrivals| ==> arrivals[i].id != arrivals[j].id
    requires forall i :: 0 <= i < |arrivals| ==>
               arrivals[i].id < |replies| && arrivals[i].reply == replies[arrivals[i].id]
    ensures Collect(Empty(|replies|), Join(TaggedPacket, arrivals) + after, |replies|) == Done(replies)
  {
    var n, s := |replies|, Join(TaggedPacket, arrivals) + after;
    forall i | 0 <= i < n ensures ReadsBack(ReadTagged, TaggedPacket(arrivals[i]), arrivals[i]) {
      TaggedBack(arrivals[i]);
    }
    ListReadsBack(ReadTagged, TaggedPacket, arrivals, after);
    PipelineExact(n, s);
    hide Collect, ParseN, Join, ReadTagged, TaggedPacket, TaggedOk;
    CollectMatches(Empty(n), s, n, replies);
  }

  /** Slots and arrivals that agree with `replies` can only give `replies`. */
  lemma {:induction false} CollectMatches(slots: Slots, rest: seq<Byte>, k: nat, replies: seq<Response>)
    requires |slots| == |replies| && forall j :: 0 <= j < |slots| && slots[j].Some? ==> slots[j].value == replies[j]
    requires ParseN(ReadTagged, rest, k).Ok? && Collect(slots, rest, k).Done?
    requires forall i :: 0 <= i < k ==>
               var t := ParseN(ReadTagged, rest, k).value[i]; t.id < |replies| && t.reply == replies[t.id]
    ensures Collect(slots, rest, k).replies == replies
    decreases k
  {
    hide Arrive;
    if k > 0 {
      var t := ReadTagged(rest);
      var p, q := ParseN(ReadTagged, rest, k), ParseN(ReadTagged, t.rest, k - 1);
      assert p.value[0] == t.value;
      assert forall i :: 0 <= i < k - 1 ==> q.value[i] == p.value[i + 1];
      CollectMatches(slots[t.value.id := Some(t.value.reply)], t.rest, k - 1, replies);
    }
  }

  // ---- as the driver runs it ----

  function RequestPayload(i: nat, sql: Text, c: Consistency): seq<Byte> {
    TaggedRequest(i % U32_LIMIT, Query(sql, c))
  }

  /** Payloads of the first `n` requests, in order. */
  function Payloads(stmts: seq<Text>, c: Consistency, n: nat): seq<seq<Byte>>
    requires n <= |stmts|
  {
    seq(n, i requires 0 <= i < n => RequestPayload(i, stmts[i], c))
  }

  /** The server reads the same requests, each with its position as id. */
  lemma ServerReads(stmts: seq<Text>, c: Consistency, y: seq<Byte>)
    requires |stmts| <= U32_LIMIT && forall i :: 0 <= i < |stmts| ==> TextOk(stmts[i])
    requires forall i :: 0 <= i < |stmts| ==> |Payloads(stmts, c, |stmts|)[i]| <= MAX_FRAME_LEN
    ensures var sent := Payloads(stmts, c, |stmts|);
            && ParseN(ReadFrame, Join(FrameOf, sent) + y, |sent|) == Ok(sent, y)
            && forall i :: 0 <= i < |stmts| ==> DecodeClientRequest(sent[i]) == Some((Some(i), Query(stmts[i], c)))
  {
    hide ReadFrame, FrameOf, Join, ParseN, DecodeClientRequest, RequestPayload, TextOk;
    var sent := Payloads(stmts, c, |stmts|);
    FramesReadBack(sent, y);
    forall i | 0 <= i < |stmts| ensures DecodeClientRequest(sent[i]) == Some((Some(i), Query(stmts[i], c))) {
      PayloadReadsBack(i, stmts[i], c);
    }
  }

  lemma PayloadReadsBack(i: U32, sql: Text, c: Consistency)
    requires TextOk(sql)
    ensures DecodeClientRequest(RequestPayload(i, sql, c)) == Some((Some(i), Query(sql, c)))
  {
    hide DecodeClientRequest, TaggedRequest, TextOk;
    ClientRequestRoundTrip(i, Query(sql, c));
  }

  lemma {:induction false} JoinGrows(all: seq<seq<Byte>>, i: nat)
    requires i <= |all|
    ensures Join(FrameOf, all[..i]) <= Join(FrameOf, all)
    decreases |all| - i
  {
    hide FrameOf, Join;
    if i < |all| {
      JoinGrows(all, i + 1);
      JoinNext(FrameOf, all, i);
      PrefixLeft(Join(FrameOf, all[..i]), FrameOf(all[i]));
      PrefixTrans(Join(FrameOf, all[..i]), Join(FrameOf, all[..i + 1]), Join(FrameOf, all));
    } else {
      assert all[..i] == all;
      PrefixLeft(Join(FrameOf, all), []);
      assert Join(FrameOf, all) + [] == Join(FrameOf, all);
    }
  }

  lemma PrefixLeft(a: seq<Byte>, b: seq<Byte>)
    ensures a <= a + b
  {}

  lemma PrefixTrans(a: seq<Byte>, b: seq<Byte>, c: seq<Byte>)
    requires a <= b && b <= c
    ensures a <= c
  {
    assert c[..|a|] == c[..|b|][..|a|];
  }

  lemma PrefixUnder(base: seq<Byte>, a: seq<Byte>, b: seq<Byte>)
    requires a <= b
    ensures base + a <= base + b
  {
    assert (base + b)[..|base + a|] == base + b[..|a|];
  }

  /**
    Every request is written, tagged with its position, before anything is read; `accepts(i)` is what the
    calls that write frame `i` take. A failed write leaves a prefix of the whole batch.
   */
  method SendAll(wire: Buffer, stmts: seq<Text>, c: Consistency, accepts: nat -> Accepts) returns (ok: bool)
    modifies wire
    ensures ok ==> wire.bytes == old(wire.bytes) + Join(FrameOf, Payloads(stmts, c, |stmts|))
    ensures old(wire.bytes) <= wire.bytes <= old(wire.bytes) + Join(FrameOf, Payloads(stmts, c, |stmts|))
    ensures (forall i :: 0 <= i < |stmts| ==> |RequestPayload(i, stmts[i], c)| <= MAX_FRAME_LEN && Willing(accepts(i)))
              ==> ok
  {
    hide FrameOf, TaggedRequest, Join, Willing;
    var buf := new Buffer();
    ghost var all, base := Payloads(stmts, c, |stmts|), wire.bytes;
    JoinNone(all);
    assert base + [] == base;
    for i := 0 to |stmts|
      invariant wire.bytes == base + Join(FrameOf, all[..i])
    {
      WriteTagged(buf, i % U32_LIMIT, Query(stmts[i], c));
      JoinNext(FrameOf, all, i);
      Assoc(base, Join(FrameOf, all[..i]), FrameOf(all[i]));
      JoinGrows(all, i + 1);
      PrefixUnder(base, Join(FrameOf, all[..i + 1]), Join(FrameOf, all));
      ok := WriteFrame(wire, buf.bytes, accepts(i));
      PrefixTrans(wire.bytes, base + Join(FrameOf, all[..i + 1]), base + Join(FrameOf, all));
      if !ok { return; }
    }
    assert all[..|stmts|] == all;
    JoinGrows(all, |stmts|);
    PrefixUnder(base, Join(FrameOf, all), Join(FrameOf, all));
    return true;
  }

  lemma JoinNone(all: seq<seq<Byte>>)
    ensures Join(FrameOf, all[..0]) == []
  {}

  /** `encode_tagged_request` into a cleared buffer. */
  method WriteTagged(buf: Buffer, id: U32, q: Request)
    modifies buf
    ensures buf.bytes == TaggedRequest(id, q)
  {
    hide EncodeRequest, Le;
    buf.bytes := [];
    buf.Push(OP_TAGGED);
    buf.Extend(Le(id, 4));
    WriteRequest(q, buf);
    Assoc([OP_TAGGED], Le(id, 4), EncodeRequest(q));
  }

  method TaggedFrom(payload: seq<Byte>) returns (r: Option<(Option<U32>, Response)>)
    ensures r == DecodeTaggedResponse(payload)
  {
    hide DecodeResponse, FromLe;
    if payload != [] && payload[0] == RESP_TAGGED {
      if |payload| < 6 { return None; }
      Pow256Values();
      var m := ResponseFrom(payload[5..]);
      return if m.None? then None else Some((Some(FromLe(payload[1..5])), m.value));
    }
    var m := ResponseFrom(payload);
    return if m.None? then None else Some((None, m.value));
  }

  method NextArrival(source: Source) returns (a: Arrival)
    modifies source
    ensures a == Arrive(old(source.rest)) && (a.Good? ==> source.rest == a.after)
  {
    hide ReadFrame, DecodeTaggedResponse;
    var buf := new Buffer();
    var ok := ReadFrameInto(source, buf);
    if !ok { return Bad(Transport); }
    var d := TaggedFrom(buf.bytes);
    match d {
      case None => return Bad(Malformed);
      case Some((None, _)) => return Bad(Untagged);
      case Some((Some(id), m)) => return Good(id, m, source.rest);
    }
  }

  /** One reply into its slot. */
  method Accept(source: Source, slots: array<Option<Response>>, ghost k: nat) returns (bad: Option<Outcome>)
    requires k > 0
    modifies source, slots
    ensures match bad
            case Some(outcome) => outcome == Collect(old(slots[..]), old(source.rest), k)
            case None => Collect(slots[..], source.rest, k - 1) == Collect(old(slots[..]), old(source.rest), k)
  {
    hide Collect, Arrive;
    ghost var was := slots[..];
    CollectNext(was, source.rest, k);
    var a := NextArrival(source);
    match a {
      case Bad(outcome) => return Some(outcome);
      case Good(id, m, _) =>
        if id >= slots.Length || slots[id].Some? { return Some(UnexpectedId(id)); }
        slots[id] := Some(m);
        assert slots[..] == was[id := Some(m)];
        return None;
    }
  }

  /** `n` replies into their slots as they arrive, then the final unwrap. */
  method Fill(source: Source, slots: array<Option<Response>>, n: nat, ghost goal: Outcome) returns (r: Outcome)
    requires Collect(slots[..], source.rest, n) == goal
    modifies source, slots
    ensures r == goal
  {
    hide Collect, Unwrapped;
    var k := n;
    while k > 0
      invariant Collect(slots[..], source.rest, k) == goal
    {
      var bad := Accept(source, slots, k);
      if bad.Some? { return bad.value; }
      k := k - 1;
    }
    CollectLast(slots[..], source.rest);
    r := Unwrap(slots);
  }

  /** The replies of `n` requests. */
  method ReadAll(source: Source, n: nat) returns (r: Outcome)
    modifies source
    ensures r == Collect(Empty(n), old(source.rest), n) && r != Panicked
  {
    NeverPanics(n, source.rest);
    hide Collect, Unwrapped, Empty;
    var slots := NewSlots(n);
    r := Fill(source, slots, n, Collect(Empty(n), source.rest, n));
  }

  method NewSlots(n: nat) returns (slots: array<Option<Response>>)
    ensures fresh(slots) && slots[..] == Empty(n)
  {
    slots := new Option<Response>[n](_ => None);
  }

  /** The final unwrap of every slot. */
  method Unwrap(slots: array<Option<Response>>) returns (r: Outcome)
    ensures r == Unwrapped(slots[..])
  {
    var out: seq<Response> := [];
    for i := 0 to slots.Length
      invariant |out| == i && forall j :: 0 <= j < i ==> slots[j] == Some(out[j])
    {
      if slots[i].None? {
        assert slots[..][i].None?;
        return Panicked;
      }
      out := out + [slots[i].value];
    }
    assert out == Contents(slots[..]);
    return Done(out);
  }

  lemma CollectLast(slots: Slots, rest: seq<Byte>)
    ensures Collect(slots, rest, 0) == Unwrapped(slots)
  {}

  /** One turn of the reading loop. */
  lemma CollectNext(slots: Slots, rest: seq<Byte>, k: nat)
    requires k > 0
    ensures Collect(slots, rest, k) == match Arrive(rest)
            case Bad(outcome) => outcome
            case Good(id, m, after) =>
              if id < |slots| && slots[id].None? then Collect(slots[id := Some(m)], after, k - 1) else UnexpectedId(id)
  {
    hide Arrive;
  }
}
