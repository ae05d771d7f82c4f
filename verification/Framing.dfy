/** Control framing. A message travels either as one text frame or as binary frames of at
    most 16 KiB closed by the text frame "0"; both peers reassemble with the same buffer. */
module Framing {
  import opened Base
  import opened RtcProtocol

  /** SendJSONBinary's frames for a marshalled message. */
  function Chunks(data: bytes): seq<Frame> {
    if data == [] then []
    else
      var n := Min(CHUNK_SIZE, |data|);
      [Frame(data[..n], false)] + Chunks(data[n..])
  }

  /** The chunking loop. `budget` is how many sends succeed before the connection fails. */
  method SendJSONBinary(data: bytes, budget: nat) returns (ok: bool, sent: seq<Frame>)
    ensures sent <= Chunks(data)
    ensures ok <==> |Chunks(data)| <= budget
    ensures ok ==> sent == Chunks(data)
    ensures !ok ==> |sent| == budget
  {
    sent := [];
    var start := 0;
    while start < |data|
      invariant 0 <= start <= |data|
      invariant |sent| <= budget
      invariant sent + Chunks(data[start..]) == Chunks(data)
    {
      var end := start + CHUNK_SIZE;
      if end > |data| {
        end := |data|;
      }
      var rest := data[start..];
      assert Min(CHUNK_SIZE, |rest|) == end - start && rest[..end - start] == data[start..end]
          && rest[end - start..] == data[end..];
      var frame := Frame(data[start..end], false);
      assert Chunks(rest) == [frame] + Chunks(data[end..]);
      if |sent| == budget {
        assert sent + Chunks(rest) == Chunks(data);
        return false, sent;
      }
      assert (sent + [frame]) + Chunks(data[end..]) == sent + Chunks(rest);
      sent := sent + [frame];
      start := end;
    }
    assert data[start..] == [] && sent + [] == sent;
    ok := true;
  }

  /** One frame against the reassembly buffer: the new buffer, and the message to parse. */
  function Reassemble(buffer: bytes, f: Frame): (bytes, Option<bytes>) {
    if f.text && f.data == ZERO then
      if |buffer| > 0 then ([], Some(buffer)) else (buffer, None)
    else if !f.text then
      if |buffer| + |f.data| > MAX_CONTROL_BYTES then ([], None) else (buffer + f.data, None)
    else (buffer, Some(f.data))
  }

  /** All the messages some frames deliver, and the buffer they leave. */
  function Deliver(buffer: bytes, frames: seq<Frame>): (bytes, seq<bytes>)
    decreases |frames|
  {
    if frames == [] then (buffer, [])
    else
      var (b1, m) := Reassemble(buffer, frames[0]);
      var (b2, ms) := Deliver(b1, frames[1..]);
      (b2, if m.Some? then [m.value] + ms else ms)
  }

  lemma {:induction false} DeliverAppend(buffer: bytes, a: seq<Frame>, b: seq<Frame>)
    ensures Deliver(buffer, a + b) ==
              var (b1, m1) := Deliver(buffer, a);
              var (b2, m2) := Deliver(b1, b);
              (b2, m1 + m2)
    decreases |a|
  {
    if a == [] {
      assert a + b == b && [] + Deliver(buffer, b).1 == Deliver(buffer, b).1;
    } else {
      assert (a + b)[0] == a[0] && (a + b)[1..] == a[1..] + b;
      var (b0, m) := Reassemble(buffer, a[0]);
      DeliverAppend(b0, a[1..], b);
      var (b1, m1) := Deliver(b0, a[1..]);
      if m.Some? {
        assert [m.value] + (m1 + Deliver(b1, b).1) == ([m.value] + m1) + Deliver(b1, b).1;
      }
    }
  }

  /** Whatever frames arrive, the buffer stays within its limit, and so does every message
      it reassembles. */
  lemma {:induction false} BufferStaysBounded(buffer: bytes, frames: seq<Frame>)
    requires |buffer| <= MAX_CONTROL_BYTES
    ensures |Deliver(buffer, frames).0| <= MAX_CONTROL_BYTES
    ensures forall m | m in Deliver(buffer, frames).1 :: |m| <= MAX_CONTROL_BYTES || Frame(m, true) in frames
    decreases |frames|
  {
    if frames == [] {
    } else {
      BufferStaysBounded(Reassemble(buffer, frames[0]).0, frames[1..]);
    }
  }

  /** A message as it is put on the wire. */
  datatype Wire = AsText(data: bytes) | AsChunks(data: bytes)

  function FramesOf(w: Wire): seq<Frame> {
    match w
    case AsText(d) => [Frame(d, true)]
    case AsChunks(d) => Chunks(d) + [Frame(ZERO, true)]
  }

  function AllFrames(ws: seq<Wire>): seq<Frame> {
    if ws == [] then [] else FramesOf(ws[0]) + AllFrames(ws[1..])
  }

  predicate Fits(w: Wire) {
    match w
    case AsText(d) => d != ZERO
    case AsChunks(d) => 0 < |d| <= MAX_CONTROL_BYTES
  }

  lemma {:induction false} ChunksFill(buffer: bytes, data: bytes)
    requires |buffer| + |data| <= MAX_CONTROL_BYTES
    ensures Deliver(buffer, Chunks(data)) == (buffer + data, [])
    decreases |data|
  {
    if data == [] {
      assert buffer + data == buffer;
    } else {
      var n := Min(CHUNK_SIZE, |data|);
      ChunksFill(buffer + data[..n], data[n..]);
      assert (buffer + data[..n]) + data[n..] == buffer + data;
      assert Chunks(data)[0] == Frame(data[..n], false) && Chunks(data)[1..] == Chunks(data[n..]);
    }
  }

  lemma {:induction false} ChunksDeliverNothing(buffer: bytes, data: bytes)
    ensures Deliver(buffer, Chunks(data)).1 == []
    decreases |data|
  {
    if data == [] {
    } else {
      var n := Min(CHUNK_SIZE, |data|);
      assert Chunks(data)[0] == Frame(data[..n], false) && Chunks(data)[1..] == Chunks(data[n..]);
      ChunksDeliverNothing(Reassemble(buffer, Chunks(data)[0]).0, data[n..]);
    }
  }

  lemma OneFrame(buffer: bytes, f: Frame)
    ensures var (b, m) := Reassemble(buffer, f);
            Deliver(buffer, [f]) == (b, if m.Some? then [m.value] else [])
  {
    var (b, m) := Reassemble(buffer, f);
    assert Deliver(b, [f][1..]) == (b, []);
    if m.Some? {
      assert [m.value] + [] == [m.value];
    }
  }

  /** One message arrives intact if and only if it is not the bare text "0" and, when
      chunked, is neither empty nor longer than the buffer. */
  lemma OneMessageArrives(w: Wire)
    ensures Deliver([], FramesOf(w)) == ([], [w.data]) <==> Fits(w)
  {
    match w
    case AsText(d) =>
      OneFrame([], Frame(d, true));
    case AsChunks(d) =>
      var zero := [Frame(ZERO, true)];
      DeliverAppend([], Chunks(d), zero);
      ChunksDeliverNothing([], d);
      OneFrame(Deliver([], Chunks(d)).0, Frame(ZERO, true));
      assert forall ms: seq<bytes> :: [] + ms == ms;
      if |d| <= MAX_CONTROL_BYTES {
        ChunksFill([], d);
        assert [] + d == d;
      } else {
        BufferStaysBounded([], Chunks(d));
        assert |Deliver([], Chunks(d)).0| < |d|;
      }
  }

  function Payloads(ws: seq<Wire>): (ds: seq<bytes>)
    ensures |ds| == |ws|
  {
    if ws == [] then [] else [ws[0].data] + Payloads(ws[1..])
  }

  /** Any sequence of messages, chunked or not, is reassembled into exactly those messages,
      once each and in order. */
  lemma {:induction false} RoundTrip(ws: seq<Wire>)
    requires forall w | w in ws :: Fits(w)
    ensures Deliver([], AllFrames(ws)) == ([], Payloads(ws))
  {
    if ws == [] {
    } else {
      OneMessageArrives(ws[0]);
      RoundTrip(ws[1..]);
      DeliverAppend([], FramesOf(ws[0]), AllFrames(ws[1..]));
    }
  }

  // -------------------------------------------------- from message to message

  /** A message and how it is sent. */
  datatype Sent = Sent(message: Message, chunked: bool)

  function WireOf(codec: Codec, x: Sent): Wire {
    var data := codec.marshal(ToDoc(x.message));
    if x.chunked then AsChunks(data) else AsText(data)
  }

  function Wires(codec: Codec, xs: seq<Sent>): seq<Wire> {
    if xs == [] then [] else [WireOf(codec, xs[0])] + Wires(codec, xs[1..])
  }

  /** What the other side makes of reassembled messages; None stands for broken JSON. */
  function Understood(codec: Codec, ms: seq<bytes>): seq<Option<Kind>> {
    if ms == [] then []
    else
      var d := codec.unmarshal(ms[0]);
      [if d.None? then None else Some(ParseRTCMessage(d.value))] + Understood(codec, ms[1..])
  }

  function Meant(xs: seq<Sent>): seq<Option<Kind>> {
    if xs == [] then [] else [Some(IntendedKind(xs[0].message))] + Meant(xs[1..])
  }

  lemma {:induction false} WiresFit(codec: Codec, xs: seq<Sent>)
    requires Lossless(codec)
    requires forall x | x in xs :: x.chunked ==> |codec.marshal(ToDoc(x.message))| <= MAX_CONTROL_BYTES
    ensures forall w | w in Wires(codec, xs) :: Fits(w)
  {
    if xs != [] {
      WiresFit(codec, xs[1..]);
      var data := codec.marshal(ToDoc(xs[0].message));
      assert |data| > 0 && data[0] == 123;
      assert Fits(WireOf(codec, xs[0]));
    }
  }

  lemma {:induction false} UnderstoodAsMeant(codec: Codec, xs: seq<Sent>)
    requires Lossless(codec)
    ensures Understood(codec, Payloads(Wires(codec, xs))) == Meant(xs) <==>
              forall x | x in xs :: Recognisable(x.message)
  {
    if xs != [] {
      UnderstoodAsMeant(codec, xs[1..]);
      ParseRecognises(xs[0].message);
      var ws := Wires(codec, xs);
      assert ws[1..] == Wires(codec, xs[1..]) && Payloads(ws)[1..] == Payloads(ws[1..]);
      var all, meant := Understood(codec, Payloads(ws)), Meant(xs);
      assert codec.unmarshal(codec.marshal(ToDoc(xs[0].message))) == Some(ToDoc(xs[0].message));
      assert all == [all[0]] + Understood(codec, Payloads(ws[1..])) && meant == [meant[0]] + Meant(xs[1..]);
      assert all[1..] == Understood(codec, Payloads(ws[1..])) && meant[1..] == Meant(xs[1..]);
    }
  }

  /** Whatever messages one side sends, each in one frame or in chunks as long as those fit the
      buffer: the other side takes them, in order, for exactly what they were meant as, if and
      only if the strings the classification keys on are not empty in any of them. */
  lemma {:induction false} MessagesArriveAsMeant(codec: Codec, xs: seq<Sent>)
    requires Lossless(codec)
    requires forall x | x in xs :: x.chunked ==> |codec.marshal(ToDoc(x.message))| <= MAX_CONTROL_BYTES
    ensures Understood(codec, Deliver([], AllFrames(Wires(codec, xs))).1) == Meant(xs) <==>
              forall x | x in xs :: Recognisable(x.message)
  {
    WiresFit(codec, xs);
    RoundTrip(Wires(codec, xs));
    UnderstoodAsMeant(codec, xs);
  }
}
