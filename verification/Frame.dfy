/** Length-prefixed frames: written under partial writes, read into a reused buffer. */
module Frame {
  import opened Bytes
  import opened Codec
  import opened WireLists
  import opened Arithmetic

  const MAX_FRAME_LEN: nat := 64 * 1024 * 1024
  const COALESCE_LIMIT: nat := 8 * 1024

  /** A big-endian `u32` length, then the payload. */
  function FrameOf(payload: seq<Byte>): seq<Byte> {
    Be(|payload|, 4) + payload
  }

  function ReadFrame(s: seq<Byte>): Parsed<seq<Byte>> {
    var (b, r) :- Take(s, 4);
    if FromBe(b) > MAX_FRAME_LEN then Err else Take(r, FromBe(b))
  }

  lemma FrameReadsBack(payload: seq<Byte>)
    requires |payload| <= MAX_FRAME_LEN
    ensures ReadsBack(ReadFrame, FrameOf(payload), payload)
  {
    forall y ensures ReadFrame(FrameOf(payload) + y) == Ok(payload, y) {
      Assoc(Be(|payload|, 4), payload, y);
      TakeOf(Be(|payload|, 4), payload + y);
      Pow256Values();
      BeRoundTrip(|payload|, 4);
      hide Be, FromBe, Pow256;
      TakeOf(payload, y);
    }
  }

  /** Frames written one after the other read back as the same payloads, leaving what follows. */
  lemma FramesReadBack(payloads: seq<seq<Byte>>, y: seq<Byte>)
    requires forall i :: 0 <= i < |payloads| ==> |payloads[i]| <= MAX_FRAME_LEN
    ensures ParseN(ReadFrame, Join(FrameOf, payloads) + y, |payloads|) == Ok(payloads, y)
  {
    forall i | 0 <= i < |payloads| ensures ReadsBack(ReadFrame, FrameOf(payloads[i]), payloads[i]) {
      FrameReadsBack(payloads[i]);
    }
    ListReadsBack(ReadFrame, FrameOf, payloads, y);
  }

  lemma {:induction false} BeOfFromBe(s: seq<Byte>)
    ensures Be(FromBe(s), |s|) == s
  {
    if s != [] {
      var n := |s| - 1;
      BeOfFromBe(s[..n]);
      LastByte(FromBe(s[..n]), s[n]);
      assert FromBe(s) == 256 * FromBe(s[..n]) + s[n];
      hide Be, FromBe;
      BeUnfold(FromBe(s), |s|);
      assert s == s[..n] + [s[n]];
    }
  }

  /** And nothing else reads as a frame: the bytes consumed are the payload's frame. */
  lemma FrameExact(s: seq<Byte>)
    requires ReadFrame(s).Ok?
    ensures FrameOf(ReadFrame(s).value) + ReadFrame(s).rest == s
  {
    BeOfFromBe(s[..4]);
    hide Be, FromBe;
    var r := s[4..];
    var p := ReadFrame(s);
    Assoc(s[..4], p.value, p.rest);
    assert s[..4] + r == s;
  }

  // ---- writing ----

  /** What one write call took: a number of bytes, or an I/O error. */
  type Accepts = nat -> Option<nat>

  /** Every call takes something. */
  ghost predicate Willing(accepts: Accepts) {
    forall k :: accepts(k) != None && accepts(k) != Some(0)
  }

  lemma SentMore(base: seq<Byte>, sent: seq<Byte>, n: nat, left: seq<Byte>)
    requires n <= |left|
    ensures base + (sent + left[..n]) == base + sent + left[..n]
    ensures (sent + left[..n]) + left[n..] == sent + left
  {
    Assoc(base, sent, left[..n]);
    Assoc(sent, left[..n], left[n..]);
    assert left[..n] + left[n..] == left;
  }

  lemma SentPrefix(base: seq<Byte>, sent: seq<Byte>, left: seq<Byte>)
    ensures base + sent <= base + (sent + left)
  {
    Assoc(base, sent, left);
  }

  /** `write_all_vectored`: whatever each call accepts, the wire gets `head` then `body`, once, in order. */
  method WriteAllVectored(wire: Buffer, head0: seq<Byte>, body0: seq<Byte>, accepts: Accepts) returns (ok: bool)
    modifies wire
    ensures ok ==> wire.bytes == old(wire.bytes) + (head0 + body0)
    ensures old(wire.bytes) <= wire.bytes <= old(wire.bytes) + (head0 + body0)
    ensures Willing(accepts) ==> ok
  {
    var head, body, call := head0, body0, 0;
    ghost var sent: seq<Byte> := [];
    ghost var base := wire.bytes;
    assert base + [] == base && [] + (head0 + body0) == head0 + body0;
    while head != [] || body != []
      invariant wire.bytes == base + sent && sent + (head + body) == head0 + body0
      decreases |head| + |body|
    {
      SentPrefix(base, sent, head + body);
      var n := accepts(call);
      call := call + 1;
      if n.None? { return false; }
      var k := Min(n.value, |head| + |body|);
      if k == 0 { return false; }
      ghost var left := head + body;
      SentMore(base, sent, k, left);
      wire.Extend((head + body)[..k]);
      sent := sent + left[..k];
      if k >= |head| {
        assert left[k..] == body[k - |head|..];
        body := body[k - |head|..];
        head := [];
        assert [] + body == body;
      } else {
        assert left[k..] == head[k..] + body;
        head := head[k..];
      }
    }
    assert sent + ([] + []) == sent;
    SentPrefix(base, sent, []);
    return true;
  }

  /** `write_frame`: a short payload goes out in one buffer, a long one beside its prefix. */
  method WriteFrame(wire: Buffer, payload: seq<Byte>, accepts: Accepts) returns (ok: bool)
    modifies wire
    ensures ok ==> |payload| <= MAX_FRAME_LEN && wire.bytes == old(wire.bytes) + FrameOf(payload)
    ensures |payload| > MAX_FRAME_LEN ==> wire.bytes == old(wire.bytes)
    ensures old(wire.bytes) <= wire.bytes <= old(wire.bytes) + FrameOf(payload)
    ensures |payload| <= MAX_FRAME_LEN && Willing(accepts) ==> ok
  {
    if |payload| > MAX_FRAME_LEN {
      assert (wire.bytes + FrameOf(payload))[..|wire.bytes|] == wire.bytes;
      return false;
    }
    var len := Be(|payload|, 4);
    if |payload| <= COALESCE_LIMIT {
      ok := WriteAllVectored(wire, len + payload, [], accepts);
      assert (len + payload) + [] == len + payload;
    } else {
      ok := WriteAllVectored(wire, len, payload, accepts);
    }
  }

  /** `begin_frame`: room for the length. */
  method BeginFrame(buf: Buffer)
    modifies buf
    ensures buf.bytes == [0, 0, 0, 0]
  {
    buf.bytes := [];
    buf.Extend([0, 0, 0, 0]);
  }

  /** `finish_frame`: the same frame, built in place. */
  method FinishFrame(wire: Buffer, buf: Buffer, accepts: Accepts) returns (ok: bool)
    requires wire != buf && |buf.bytes| >= 4
    modifies wire, buf
    ensures ok ==> wire.bytes == old(wire.bytes) + FrameOf(old(buf.bytes[4..]))
    ensures |old(buf.bytes)| - 4 > MAX_FRAME_LEN ==> !ok && wire.bytes == old(wire.bytes)
    ensures old(wire.bytes) <= wire.bytes <= old(wire.bytes) + FrameOf(old(buf.bytes[4..]))
    ensures |old(buf.bytes)| - 4 <= MAX_FRAME_LEN && Willing(accepts) ==> ok
  {
    var n := |buf.bytes| - 4;
    ghost var payload := buf.bytes[4..];
    if n > MAX_FRAME_LEN {
      assert (wire.bytes + FrameOf(payload))[..|wire.bytes|] == wire.bytes;
      return false;
    }
    buf.Patch(0, Be(n, 4));
    assert buf.bytes == FrameOf(payload) by { assert old(buf.bytes)[..0] == []; }
    ok := WriteAllVectored(wire, buf.bytes, [], accepts);
    assert buf.bytes + [] == buf.bytes;
  }

  // ---- reading ----

  /** The receiving end of a connection. */
  class Source {
    var rest: seq<Byte>

    constructor (bytes: seq<Byte>)
      ensures rest == bytes
    {
      rest := bytes;
    }

    /** `read_exact` into all of `buf`. */
    method ReadExact(buf: array<Byte>) returns (ok: bool)
      modifies this, buf
      ensures ok <==> buf.Length <= |old(rest)|
      ensures ok ==> buf[..] == old(rest)[..buf.Length] && rest == old(rest)[buf.Length..]
    {
      if buf.Length > |rest| {
        rest := [];
        return false;
      }
      for i := 0 to buf.Length
        invariant rest == old(rest) && buf.Length <= |rest|
        invariant forall j :: 0 <= j < i ==> buf[j] == rest[j]
      {
        buf[i] := rest[i];
      }
      assert buf[..] == rest[..buf.Length];
      rest := rest[buf.Length..];
      return true;
    }
  }

  /** A growable buffer resized to `n`: old bytes kept, zeros added. */
  function Resized(s: seq<Byte>, n: nat): (r: seq<Byte>)
    ensures |r| == n
  {
    if |s| < n then s + seq(n - |s|, i => 0) else s[..n]
  }

  /** `read_frame_into`: exactly the payload, whatever the buffer held before. */
  method ReadFrameInto(source: Source, buf: Buffer) returns (ok: bool)
    modifies source, buf
    ensures match ReadFrame(old(source.rest))
            case Ok(payload, rest) => ok && buf.bytes == payload && source.rest == rest
            case Err => !ok
  {
    hide FromBe;
    ghost var s := source.rest;
    var prefix := new Byte[4](_ => 0);
    ok := source.ReadExact(prefix);
    if !ok { return; }
    assert prefix[..] == s[..4];
    var len := FromBe(prefix[..]);
    if len > MAX_FRAME_LEN { return false; }
    buf.bytes := Resized(buf.bytes, len);
    var scratch := new Byte[len](i requires 0 <= i < len reads buf => if i < |buf.bytes| then buf.bytes[i] else 0);
    ok := source.ReadExact(scratch);
    buf.bytes := scratch[..];
  }
}
