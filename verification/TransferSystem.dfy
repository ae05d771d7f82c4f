/** The file transfer as a two-party system: SendFiles on one side, the receiver on the
    other, two FIFO channels between them, and the sender's own message handler, which
    passes acknowledgements to SendFiles through a channel of capacity one.

    A run is any sequence of actions: every interleaving, every split of the files into
    frames, every disk or connection failure. */
module TransferSystem {
  import opened Base
  import opened RtcProtocol
  import opened Framing
  import opened SM = SenderModel
  import RM = ReceiverModel

  datatype Outcome = Running | ReturnedNil | ReturnedError

  /** Where the receiver is in the stream of frames: before the first header, inside file
      `j` having been sent `got`, or past the end. */
  datatype Place = BeforeFirst | Inside(j: nat, got: bytes) | AtEnd

  /** `seen`, `acks` and `taken` are history: the receiver's place in the stream, the
      acknowledgements it has sent, and how many of them SendFiles has taken. */
  datatype Sys = Sys(
    pos: Pos,
    toRecv: seq<Frame>,
    recv: RM.Recv,
    toSend: seq<Frame>,
    send: Send,
    outcome: Outcome,
    seen: Place,
    acks: seq<Ack>,
    taken: nat)

  datatype Action =
    | Transmit(frame: Frame)         // SendFiles puts a frame on the channel
    | TakeAck                        // SendFiles receives from fileResults
    | Receive(renv: RM.Env)          // the receiver handles the oldest frame
    | Notify(senv: SM.Env)           // the sender's handler handles the oldest response
    | Abort                          // closed peer, read error or timeout
    | Return                         // SendFiles is through

  /** The parameters of one transfer. */
  datatype Setup = Setup(rcfg: RM.Config, scfg: SM.Config, q: seq<Item>)

  ghost predicate Wired(u: Setup) {
    Lossless(u.rcfg.codec) && u.scfg.codec == u.rcfg.codec
  }

  // ------------------------------------------------------------------ actions

  function AckOf(o: Out): Ack {
    Ack(StrOf(o.doc.id), o.doc.success == Some(true), o.doc.error)
  }

  function AcksOf(outs: seq<Out>): seq<Ack> {
    seq(|outs|, i requires 0 <= i < |outs| => AckOf(outs[i]))
  }

  function OutFrames(codec: Codec, outs: seq<Out>): seq<Frame> {
    if outs == [] then []
    else FramesOf(if outs[0].Say? then AsText(codec.marshal(outs[0].doc)) else AsChunks(codec.marshal(outs[0].doc)))
         + OutFrames(codec, outs[1..])
  }

  /** How one frame moves a reader of the stream along. */
  function Advance(codec: Codec, q: seq<Item>, p: Place, f: Frame): Option<Place> {
    match p
    case BeforeFirst =>
      if q == [] then (if f == Frame(ZERO, true) then Some(AtEnd) else None)
      else if f == Header(codec, q[0]) then Some(Inside(0, [])) else None
    case Inside(j, got) =>
      if !f.text then Some(Inside(j, got + f.data))
      else if j < |q| && got == q[j].content && f == Boundary(codec, q, j) then
        Some(if j + 1 < |q| then Inside(j + 1, []) else AtEnd)
      else None
    case AtEnd => None
  }

  function Next(u: Setup, s: Sys, a: Action): Option<Sys>
    requires InQueue(u.q, s.pos)
  {
    match a
    case Transmit(f) =>
      if s.outcome != Running then None else
      var p := StepOp(u.scfg.codec, u.q, s.pos, Emit(f));
      if p.None? then None else Some(s.(pos := p.value, toRecv := s.toRecv + [f]))
    case TakeAck =>
      if s.outcome != Running || !s.pos.Awaiting? || s.send.result.None? then None else
      var p := StepOp(u.scfg.codec, u.q, s.pos, Got(s.send.result.value));
      var s1 := s.(send := s.send.(result := None), taken := s.taken + 1);
      Some(if p.Some? then s1.(pos := p.value) else s1.(outcome := ReturnedError))
    case Receive(env) =>
      if s.toRecv == [] || !RM.Deliverable(s.toRecv[0]) then None else
      var (r, outs) := RM.RecvFrame(u.rcfg, s.recv, s.toRecv[0], env);
      var seen := Advance(u.rcfg.codec, u.q, s.seen, s.toRecv[0]);
      Some(s.(recv := r, toRecv := s.toRecv[1..], toSend := s.toSend + OutFrames(u.rcfg.codec, outs),
              seen := if seen.Some? then seen.value else s.seen, acks := s.acks + AcksOf(outs)))
    case Notify(env) =>
      if s.toSend == [] then None else
      Some(s.(send := SendFrame(u.scfg, s.send, s.toSend[0], env).0, toSend := s.toSend[1..]))
    case Abort =>
      if s.outcome == Running then Some(s.(outcome := ReturnedError)) else None
    case Return =>
      if s.outcome == Running && s.pos == Finished then Some(s.(outcome := ReturnedNil)) else None
  }

  /** The state after the handshake: the receiver waits for the first header. */
  function Start(r: RM.Recv, s: Send): Sys {
    Sys(AtStart, [], r, [], s, Running, BeforeFirst, [], 0)
  }

  ghost predicate Ready(u: Setup, before: map<Path, bytes>, r: RM.Recv, s: Send) {
    && RM.Invariant(u.rcfg, before, r) && r.phase == RM.WaitFiles && r.linked && r.control == []
    && s.phase == SendingFiles && s.result == None && s.dropped == 0 && !s.closed
  }

  // ------------------------------------------------------------- the stream

  function Boundaries(q: seq<Item>, p: Place): nat {
    match p
    case BeforeFirst => 0
    case Inside(j, _) => j
    case AtEnd => |q|
  }

  /** The place a reader reaches once it has read everything sent so far. */
  function PlaceOf(q: seq<Item>, p: Pos): Place
    requires InQueue(q, p)
  {
    match p
    case AtStart => BeforeFirst
    case Sending(k, rest) =>
      Inside(k, if |rest| <= |q[k].content| then q[k].content[..|q[k].content| - |rest|] else [])
    case Awaiting(k) => if k + 1 < |q| then Inside(k + 1, []) else AtEnd
    case Finished => AtEnd
  }

  ghost predicate PosOk(q: seq<Item>, p: Pos) {
    && InQueue(q, p)
    && (p.Sending? ==> |p.rest| <= |q[p.k].content| && p.rest == q[p.k].content[|q[p.k].content| - |p.rest|..])
  }

  function Replay(codec: Codec, q: seq<Item>, p: Place, fs: seq<Frame>): Option<Place>
    decreases |fs|
  {
    if fs == [] then Some(p)
    else
      var p1 := Advance(codec, q, p, fs[0]);
      if p1.None? then None else Replay(codec, q, p1.value, fs[1..])
  }

  lemma {:induction false} ReplaySnoc(codec: Codec, q: seq<Item>, p: Place, fs: seq<Frame>, f: Frame)
    requires Replay(codec, q, p, fs).Some?
    ensures Replay(codec, q, p, fs + [f]) == Advance(codec, q, Replay(codec, q, p, fs).value, f)
    decreases |fs|
  {
    if fs == [] {
      assert (fs + [f])[0] == f && (fs + [f])[1..] == [];
    } else {
      ReplaySnoc(codec, q, Advance(codec, q, p, fs[0]).value, fs[1..], f);
      assert (fs + [f])[0] == fs[0] && (fs + [f])[1..] == fs[1..] + [f];
    }
  }

  lemma {:induction false} ReplayMovesForward(codec: Codec, q: seq<Item>, p: Place, fs: seq<Frame>)
    requires Replay(codec, q, p, fs).Some?
    requires p.Inside? ==> p.j < |q|
    ensures Boundaries(q, p) <= Boundaries(q, Replay(codec, q, p, fs).value)
    decreases |fs|
  {
    if fs == [] {
    } else {
      ReplayMovesForward(codec, q, Advance(codec, q, p, fs[0]).value, fs[1..]);
    }
  }

  /** SendFiles' next frame takes a reader from where it is to where SendFiles is. */
  lemma TransmitAdvances(codec: Codec, q: seq<Item>, p: Pos, f: Frame)
    requires Lossless(codec) && PosOk(q, p) && StepOp(codec, q, p, Emit(f)).Some?
    ensures var p1 := StepOp(codec, q, p, Emit(f)).value;
            PosOk(q, p1) && Advance(codec, q, PlaceOf(q, p), f) == Some(PlaceOf(q, p1))
    ensures RM.Deliverable(f)
  {
    if p.Sending? {
      var content, n := q[p.k].content, |q[p.k].content| - |p.rest|;
      if p.rest == [] {
        assert content[..n] == content;
      } else {
        assert content[..n] + f.data == content[..n + |f.data|];
        assert p.rest[|f.data|..] == content[n + |f.data|..];
      }
    } else if q != [] {
      assert q[0].content[..0] == [];
    }
  }
}
