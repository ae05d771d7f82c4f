/** The handshake as it runs on the data channel. Its two channels carry frames: a text frame for
    a short message, binary chunks and a delimiter for a list of files or an answer to one. A
    chunked message over the limit is thrown away on arrival, so a handshake can come to rest
    without having ended; this module says exactly when. */
module HandshakeFrames {
  import opened Base
  import opened RtcProtocol
  import opened Framing
  import SM = SenderModel
  import RM = ReceiverModel
  import H = HandshakeSystem
  import T = TransferSystem

  // ------------------------------------------------------------- the system

  datatype Sys = Sys(s: SM.Send, r: RM.Recv, toRecv: seq<Frame>, toSend: seq<Frame>)

  /** One side handles the oldest frame sent to it. */
  function Next(u: H.Setup, y: Sys, a: H.Action): Option<Sys> {
    match a
    case ToReceiver(env) =>
      if y.toRecv == [] || !RM.Deliverable(y.toRecv[0]) then None else
      var (r, outs) := RM.RecvFrame(u.rcfg, y.r, y.toRecv[0], env);
      Some(y.(r := r, toRecv := y.toRecv[1..], toSend := y.toSend + T.OutFrames(u.rcfg.codec, outs)))
    case ToSender(env) =>
      if y.toSend == [] then None else
      var (s, outs) := SM.SendFrame(u.scfg, y.s, y.toSend[0], env);
      Some(y.(s := s, toSend := y.toSend[1..], toRecv := y.toRecv + T.OutFrames(u.rcfg.codec, outs)))
  }

  function Run(u: H.Setup, y: Sys, actions: seq<H.Action>): Option<Sys>
    decreases |actions|
  {
    if actions == [] then Some(y)
    else
      var y1 := Next(u, y, actions[0]);
      if y1.None? then None else Run(u, y1.value, actions[1..])
  }

  /** The data channel has just opened and the sender has sent its nonce. */
  function Start(u: H.Setup, nonce: bytes, r: RM.Recv): Sys {
    var m := H.Start(u, nonce, r);
    Sys(m.s, m.r, T.OutFrames(u.rcfg.codec, m.toRecv), [])
  }

  /** No proper suffix of a JSON object is one, and a bare status is short. */
  ghost predicate JsonLike(codec: Codec) {
    && (forall d, n | 0 < n < |codec.marshal(d)| :: codec.unmarshal(codec.marshal(d)[n..]) == None)
    && |codec.marshal(ToDoc(FileList("PIN_REQUIRED", [])))| <= MAX_CONTROL_BYTES
    && |codec.marshal(ToDoc(FileList("TOO_MANY_ATTEMPTS", [])))| <= MAX_CONTROL_BYTES
    && |codec.marshal(ToDoc(FileListResponse("DECLINED", map[])))| <= MAX_CONTROL_BYTES
  }

  ghost predicate Framed(u: H.Setup) {
    H.Wired(u) && JsonLike(u.rcfg.codec)
  }

  /** The encoded list of files, and the encoded answer with these tokens, pass the limit of the
      control buffer. Either side can tell before it sends. */
  predicate ListFits(u: H.Setup) {
    |u.rcfg.codec.marshal(ToDoc(FileList("OK", u.scfg.files)))| <= MAX_CONTROL_BYTES
  }

  predicate AnswerFits(u: H.Setup, tokens: map<string, string>) {
    |u.rcfg.codec.marshal(ToDoc(FileListResponse("OK", tokens)))| <= MAX_CONTROL_BYTES
  }

  predicate AtRest(y: Sys) {
    y.toRecv == [] && y.toSend == []
  }

  /** Both sides failed, the offer was declined, or it was accepted. */
  ghost predicate Ended(u: H.Setup, y: Sys) {
    AtRest(y) && H.Ended(u, H.Sys(y.s, y.r, [], []))
  }

  /** Both sides hold the same final nonce. */
  ghost predicate SameNonce(y: Sys) {
    y.s.hs.finalNonce == y.r.hs.finalNonce == H.CombineNonces(y.s.hs.localNonce, y.r.hs.localNonce)
  }

  /** The sender waits for an answer to a list that never arrived. */
  ghost predicate ListLost(u: H.Setup, y: Sys) {
    && AtRest(y) && SameNonce(y) && !ListFits(u)
    && y.s.phase == SM.WaitFileAccept && !y.s.declined && y.s.accepted == None
    && y.r.phase == RM.WaitFileList && y.r.linked && y.r.tokens == map[]
  }

  /** The receiver has accepted, but its answer never arrived. */
  ghost predicate AnswerLost(u: H.Setup, y: Sys) {
    && AtRest(y) && SameNonce(y) && ListFits(u) && !AnswerFits(u, y.r.tokens)
    && y.s.phase == SM.WaitFileAccept && !y.s.declined && y.s.accepted == None
    && y.r.phase == RM.WaitFiles && y.r.linked
  }

  // -------------------------------------------------------- a message in frames

  /** `k` bytes of a chunked message have been handled; the buffer holds the last of them, all
      of them if the message fits. */
  predicate HalfwayAt(data: bytes, k: nat, control: bytes, frames: seq<Frame>) {
    && |control| <= k <= |data| && control == data[k - |control|..k] && |control| <= MAX_CONTROL_BYTES
    && (|data| <= MAX_CONTROL_BYTES ==> |control| == k)
    && frames == Chunks(data[k..]) + [Frame(ZERO, true)]
  }

  ghost predicate Halfway(data: bytes, control: bytes, frames: seq<Frame>) {
    exists k: nat :: HalfwayAt(data, k, control, frames)
  }

  /** The frames of the messages in flight, of which there is one at most. */
  ghost predicate InFlight(codec: Codec, ms: seq<Out>, control: bytes, frames: seq<Frame>) {
    if ms == [] then control == [] && frames == []
    else
      && |ms| == 1
      && var data := codec.marshal(ms[0].doc);
         if ms[0].Say? then control == [] && frames == [Frame(data, true)] else Halfway(data, control, frames)
  }

  lemma {:induction false} ChunkArrives(data: bytes, control: bytes, frames: seq<Frame>)
    requires Halfway(data, control, frames) && |frames| > 1
    ensures !frames[0].text
    ensures var (c, message) := Reassemble(control, frames[0]); message == None && Halfway(data, c, frames[1..])
  {
    var k: nat :| HalfwayAt(data, k, control, frames);
    var rest := data[k..];
    var n := Min(CHUNK_SIZE, |rest|);
    assert rest != [];
    assert Chunks(rest) == [Frame(rest[..n], false)] + Chunks(rest[n..]);
    assert frames[0] == Frame(rest[..n], false) && frames[1..] == Chunks(rest[n..]) + [Frame(ZERO, true)];
    assert rest[n..] == data[k + n..];
    var c := Reassemble(control, frames[0]).0;
    if c != [] {
      assert control + rest[..n] == data[k - |control|..k + n];
    }
    assert HalfwayAt(data, k + n, c, frames[1..]);
  }

  lemma {:induction false} DelimiterArrives(data: bytes, control: bytes, frames: seq<Frame>)
    requires Halfway(data, control, frames) && |frames| == 1 && data != []
    ensures frames[0] == Frame(ZERO, true)
    ensures var (c, message) := Reassemble(control, frames[0]);
            && c == []
            && (|data| <= MAX_CONTROL_BYTES ==> message == Some(data))
            && (|data| > MAX_CONTROL_BYTES ==>
                  message == None || exists n :: 0 < n < |data| && message == Some(data[n..]))
  {
    var k: nat :| HalfwayAt(data, k, control, frames);
    assert data[k..] == [];
    assert control == data[|data| - |control|..];
  }

  lemma {:induction false} HalfwayHasFrames(data: bytes, control: bytes, frames: seq<Frame>)
    requires Halfway(data, control, frames)
    ensures frames != [] && (forall f | f in frames :: RM.Deliverable(f))
    ensures |frames| <= |Chunks(data)| + 1
  {
    var k: nat :| HalfwayAt(data, k, control, frames);
    ChunksAreBinary(data[k..]);
    FewerChunks(data, k);
  }

  lemma {:induction false} ChunksAreBinary(data: bytes)
    ensures forall f | f in Chunks(data) :: !f.text
    decreases |data|
  {
    if data != [] {
      ChunksAreBinary(data[Min(CHUNK_SIZE, |data|)..]);
    }
  }

  /** What is left of a message takes no more chunks than all of it. */
  lemma {:induction false} FewerChunks(data: bytes, k: nat)
    requires k <= |data|
    ensures |Chunks(data[k..])| <= |Chunks(data)|
    decreases |data|
  {
    ChunkCount(data);
    ChunkCount(data[k..]);
  }

  lemma {:induction false} ChunkCount(data: bytes)
    ensures |Chunks(data)| == (|data| + CHUNK_SIZE - 1) / CHUNK_SIZE
    decreases |data|
  {
    if data != [] {
      ChunkCount(data[Min(CHUNK_SIZE, |data|)..]);
    }
  }

  lemma {:induction false} JustSent(codec: Codec, outs: seq<Out>)
    requires |outs| <= 1
    ensures InFlight(codec, outs, [], T.OutFrames(codec, outs))
  {
    if outs != [] {
      var data := codec.marshal(outs[0].doc);
      assert T.OutFrames(codec, outs[1..]) == [];
      assert T.OutFrames(codec, outs) == FramesOf(if outs[0].Say? then AsText(data) else AsChunks(data));
      if outs[0].SayChunked? {
        assert data[0..] == data;
        assert HalfwayAt(data, 0, [], T.OutFrames(codec, outs));
      }
    }
  }

  // ---------------------------------------------------- frames follow messages

  /** The frames are those of the messages in flight, and what was answered had arrived. */
  ghost predicate Follows(u: H.Setup, m: H.Sys, y: Sys) {
    && y.s == m.s.(control := y.s.control) && y.r == m.r.(control := y.r.control)
    && InFlight(u.rcfg.codec, m.toRecv, y.r.control, y.toRecv)
    && InFlight(u.rcfg.codec, m.toSend, y.s.control, y.toSend)
  }

  ghost predicate Arrived(u: H.Setup, m: H.Sys) {
    && (m.s.phase == SM.WaitFileAccept && m.toRecv == [] ==> ListFits(u))
    && (m.s.phase == SM.SendingFiles ==> ListFits(u) && AnswerFits(u, m.r.tokens))
  }

  /** A handshake whose messages have all arrived so far. */
  ghost predicate OnCourse(u: H.Setup, m: H.Sys, y: Sys) {
    H.Inv(u, m) && Follows(u, m, y) && Arrived(u, m)
  }

  lemma OneMessage(u: H.Setup, m: H.Sys)
    requires H.Inv(u, m)
    ensures |m.toRecv| + |m.toSend| <= 1 && m.s.control == [] && m.r.control == [] && m.r.cur == None
  {}

  /** Only a list of files and the answer to one can be too long. */
  lemma LongMessages(u: H.Setup, m: H.Sys)
    requires Framed(u) && H.Inv(u, m)
    ensures m.toRecv != [] && m.toRecv[0].SayChunked? && |u.rcfg.codec.marshal(m.toRecv[0].doc)| > MAX_CONTROL_BYTES ==>
              H.Fresh(m) && H.Agreed(m) && H.FilesOffered(u, m)
    ensures m.toSend != [] && m.toSend[0].SayChunked? && |u.rcfg.codec.marshal(m.toSend[0].doc)| > MAX_CONTROL_BYTES ==>
              H.Agreed(m) && !m.s.declined && m.s.accepted == None && H.ReceiverAccepts(u, m)
  {}

  /** A handshake on its way, or come to rest because a message was too long. */
  ghost predicate Going(u: H.Setup, m: H.Sys, y: Sys) {
    OnCourse(u, m, y) || ListLost(u, y) || AnswerLost(u, y)
  }

  /** Apart from what is in their buffers the two sides are those of `m`. */
  ghost predicate Mirrors(m: H.Sys, y: Sys) {
    y.s == m.s.(control := y.s.control) && y.r == m.r.(control := y.r.control)
  }

  /** The next frame completes a message. */
  predicate Completes(u: H.Setup, m: H.Sys, y: Sys, a: H.Action) {
    var (ms, frames) := if a.ToReceiver? then (m.toRecv, y.toRecv) else (m.toSend, y.toSend);
    ms != [] && (ms[0].Say? || (|frames| == 1 && |u.rcfg.codec.marshal(ms[0].doc)| <= MAX_CONTROL_BYTES))
  }

  /** A message was handled, or at least one of its frames. */
  ghost predicate Advances(u: H.Setup, m: H.Sys, y: Sys, a: H.Action, m1: H.Sys, y1: Sys) {
    && Going(u, m1, y1) && Mirrors(m1, y1)
    && (if Completes(u, m, y, a) then H.Next(u, m, a) == Some(m1) else m1 == m)
    && (AtRest(y1) || H.Rank(m1) < H.Rank(m) || (m1 == m && |y1.toRecv| + |y1.toSend| < |y.toRecv| + |y.toSend|))
  }

  // What the receiver's frames do.

  /** A frame that completes a message is handled as that message. */
  lemma ReceiverCompletes(cfg: RM.Config, r: RM.Recv, bare: RM.Recv, f: Frame, data: bytes, env: RM.Env)
    requires r.cur == None && RM.Deliverable(f) && data != [] && Reassemble(r.control, f) == ([], Some(data))
    requires bare == r.(control := [])
    ensures RM.RecvFrame(cfg, r, f, env) == RM.HandleText(cfg, bare, data, env)
  {}

  lemma SentFollows(u: H.Setup, m1: H.Sys, y1: Sys)
    requires y1.s == m1.s && y1.r == m1.r && m1.s.control == [] && m1.r.control == [] && |m1.toRecv| <= 1
    requires |m1.toSend| <= 1
    requires y1.toRecv == T.OutFrames(u.rcfg.codec, m1.toRecv) && y1.toSend == T.OutFrames(u.rcfg.codec, m1.toSend)
    ensures Follows(u, m1, y1)
  {
    JustSent(u.rcfg.codec, m1.toRecv);
    JustSent(u.rcfg.codec, m1.toSend);
    assert m1.s.(control := []) == m1.s && m1.r.(control := []) == m1.r;
  }

  lemma ReceiverSteps(u: H.Setup, m: H.Sys, y: Sys, env: RM.Env)
    requires Follows(u, m, y) && m.r.control == [] && m.s.control == [] && m.r.cur == None && |m.toRecv| == 1
    requires m.toSend == []
    requires |y.toRecv| == 1 && RM.Deliverable(y.toRecv[0]) && u.rcfg.codec.marshal(m.toRecv[0].doc) != []
    requires Reassemble(y.r.control, y.toRecv[0]) == ([], Some(u.rcfg.codec.marshal(m.toRecv[0].doc)))
    ensures H.Next(u, m, H.ToReceiver(env)).Some? && Next(u, y, H.ToReceiver(env)).Some?
    ensures var m1, y1 := H.Next(u, m, H.ToReceiver(env)).value, Next(u, y, H.ToReceiver(env)).value;
            && m1.s == m.s && y1.s == m1.s && y1.r == m1.r
            && m1.toRecv == [] && y1.toRecv == [] && y1.toSend == T.OutFrames(u.rcfg.codec, m1.toSend)
  {
    var data := u.rcfg.codec.marshal(m.toRecv[0].doc);
    ReceiverCompletes(u.rcfg, y.r, m.r, y.toRecv[0], data, env);
    var outs := RM.RecvFrame(u.rcfg, y.r, y.toRecv[0], env).1;
    assert [] + outs == outs && [] + T.OutFrames(u.rcfg.codec, outs) == T.OutFrames(u.rcfg.codec, outs);
  }

  lemma ReceiverHandles(u: H.Setup, m: H.Sys, y: Sys, env: RM.Env) returns (m1: H.Sys)
    requires Framed(u) && OnCourse(u, m, y) && H.HonestReceiver(env) && |y.toRecv| == 1 && RM.Deliverable(y.toRecv[0])
    requires m.toRecv != [] && Reassemble(y.r.control, y.toRecv[0]) == ([], Some(u.rcfg.codec.marshal(m.toRecv[0].doc)))
    requires H.FilesOffered(u, m) ==> ListFits(u)
    ensures H.Next(u, m, H.ToReceiver(env)) == Some(m1)
    ensures H.Rank(m1) < H.Rank(m) && OnCourse(u, m1, Next(u, y, H.ToReceiver(env)).value)
  {
    OneMessage(u, m);
    H.ReceiverReads(u, m.toRecv[0].doc);
    ReceiverSteps(u, m, y, env);
    m1 := H.Next(u, m, H.ToReceiver(env)).value;
    ReceiverArrives(u, m, m1, env);
    SentFollows(u, m1, Next(u, y, H.ToReceiver(env)).value);
  }

  lemma ReceiverArrives(u: H.Setup, m: H.Sys, m1: H.Sys, env: RM.Env)
    requires H.Wired(u) && H.Inv(u, m) && Arrived(u, m) && H.HonestReceiver(env) && m.toRecv != []
    requires (H.FilesOffered(u, m) ==> ListFits(u)) && H.Next(u, m, H.ToReceiver(env)) == Some(m1) && m1.s == m.s
    ensures H.Inv(u, m1) && Arrived(u, m1) && H.Rank(m1) < H.Rank(m)
    ensures |m1.toRecv| + |m1.toSend| <= 1 && m1.s.control == [] && m1.r.control == []
  {
    H.ReceiverStep(u, m, env);
    OneMessage(u, m1);
    WaitsForAnswer(u, m);
  }

  /** While a message is on its way to the receiver, a sender that waits for an answer has just
      offered its files. */
  lemma WaitsForAnswer(u: H.Setup, m: H.Sys)
    requires H.Inv(u, m) && m.toRecv != []
    ensures m.s.phase == SM.WaitFileAccept ==> H.FilesOffered(u, m)
    ensures m.s.phase != SM.SendingFiles
  {}

  /** A chunk only fills the receiver's buffer. */
  lemma ReceiverBuffers(u: H.Setup, m: H.Sys, y: Sys, env: RM.Env)
    requires OnCourse(u, m, y) && |y.toRecv| > 1
    ensures RM.Deliverable(y.toRecv[0])
    ensures var y1 := Next(u, y, H.ToReceiver(env)).value;
            OnCourse(u, m, y1) && y1.toRecv == y.toRecv[1..] && y1.toSend == y.toSend
  {
    OneMessage(u, m);
    ChunkArrives(u.rcfg.codec.marshal(m.toRecv[0].doc), y.r.control, y.toRecv);
    assert y.toSend + T.OutFrames(u.rcfg.codec, []) == y.toSend;
  }

  /** The end of a list that is too long is not even noticed. */
  lemma ReceiverMisses(u: H.Setup, m: H.Sys, y: Sys, env: RM.Env)
    requires Framed(u) && OnCourse(u, m, y) && |y.toRecv| == 1 && m.toRecv != [] && m.toRecv[0].SayChunked?
    requires |u.rcfg.codec.marshal(m.toRecv[0].doc)| > MAX_CONTROL_BYTES
    ensures RM.Deliverable(y.toRecv[0]) && ListLost(u, Next(u, y, H.ToReceiver(env)).value)
    ensures Mirrors(m, Next(u, y, H.ToReceiver(env)).value)
  {
    OneMessage(u, m);
    LongMessages(u, m);
    var data := u.rcfg.codec.marshal(m.toRecv[0].doc);
    H.ReceiverReads(u, m.toRecv[0].doc);
    DelimiterArrives(data, y.r.control, y.toRecv);
    var (c, message) := Reassemble(y.r.control, y.toRecv[0]);
    if message.Some? {
      assert u.rcfg.codec.unmarshal(message.value) == None;
      assert RM.HandleText(u.rcfg, m.r, message.value, env) == (m.r, []);
    }
    assert y.toSend + T.OutFrames(u.rcfg.codec, []) == y.toSend;
  }

  /** A frame of a chunked message: one more chunk, the end of a message, or of one too long. */
  lemma ReceiverChunk(u: H.Setup, m: H.Sys, y: Sys, env: RM.Env) returns (m1: H.Sys)
    requires Framed(u) && OnCourse(u, m, y) && H.HonestReceiver(env) && y.toRecv != []
    requires m.toRecv != [] && m.toRecv[0].SayChunked?
    ensures var a := H.ToReceiver(env); var n := Next(u, y, a); n.Some? && Advances(u, m, y, a, m1, n.value)
  {
    OneMessage(u, m);
    m1 := m;
    var data := u.rcfg.codec.marshal(m.toRecv[0].doc);
    HalfwayHasFrames(data, y.r.control, y.toRecv);
    if |y.toRecv| > 1 {
      ReceiverBuffers(u, m, y, env);
    } else if |data| > MAX_CONTROL_BYTES {
      ReceiverMisses(u, m, y, env);
    } else {
      H.ReceiverReads(u, m.toRecv[0].doc);
      DelimiterArrives(data, y.r.control, y.toRecv);
      m1 := ReceiverHandles(u, m, y, env);
    }
  }

  lemma ReceiverFrame(u: H.Setup, m: H.Sys, y: Sys, env: RM.Env) returns (m1: H.Sys)
    requires Framed(u) && OnCourse(u, m, y) && H.HonestReceiver(env) && y.toRecv != []
    ensures var a := H.ToReceiver(env); var n := Next(u, y, a); n.Some? && Advances(u, m, y, a, m1, n.value)
  {
    OneMessage(u, m);
    H.ReceiverReads(u, m.toRecv[0].doc);
    if m.toRecv[0].Say? {
      m1 := ReceiverHandles(u, m, y, env);
    } else {
      m1 := ReceiverChunk(u, m, y, env);
    }
  }

  // What the sender's frames do.

  lemma SenderCompletes(cfg: SM.Config, s: SM.Send, bare: SM.Send, f: Frame, data: bytes, env: SM.Env)
    requires Reassemble(s.control, f) == ([], Some(data)) && bare == s.(control := [])
    ensures SM.SendFrame(cfg, s, f, env) == SM.HandleMessage(cfg, bare, data, env)
  {}

  lemma SenderSteps(u: H.Setup, m: H.Sys, y: Sys, env: SM.Env)
    requires Follows(u, m, y) && m.r.control == [] && m.s.control == [] && |m.toSend| == 1 && m.toRecv == []
    requires |y.toSend| == 1 && u.scfg.codec == u.rcfg.codec
    requires Reassemble(y.s.control, y.toSend[0]) == ([], Some(u.rcfg.codec.marshal(m.toSend[0].doc)))
    ensures H.Next(u, m, H.ToSender(env)).Some? && Next(u, y, H.ToSender(env)).Some?
    ensures var m1, y1 := H.Next(u, m, H.ToSender(env)).value, Next(u, y, H.ToSender(env)).value;
            && m1.r == m.r && y1.s == m1.s && y1.r == m1.r
            && m1.toSend == [] && y1.toSend == [] && y1.toRecv == T.OutFrames(u.rcfg.codec, m1.toRecv)
  {
    var data := u.rcfg.codec.marshal(m.toSend[0].doc);
    SenderCompletes(u.scfg, y.s, m.s, y.toSend[0], data, env);
    var outs := SM.SendFrame(u.scfg, y.s, y.toSend[0], env).1;
    assert [] + outs == outs && [] + T.OutFrames(u.rcfg.codec, outs) == T.OutFrames(u.rcfg.codec, outs);
  }

  /** The sender comes to wait for an answer only by offering the files, and to send them only
      from there. */
  ghost predicate Offering(s: SM.Send, s1: SM.Send, outs: seq<Out>) {
    && (s1.phase == SM.WaitFileAccept && outs == [] ==> s.phase == SM.WaitFileAccept)
    && (s1.phase == SM.SendingFiles ==> s.phase == SM.WaitFileAccept || s.phase == SM.SendingFiles)
  }

  lemma TokenOffers(cfg: SM.Config, s: SM.Send, kind: Kind, doc: Doc, env: SM.Env)
    ensures var (s1, outs) := SM.HandleTokenResponse(cfg, s, kind, doc, env);
            s.phase == SM.WaitToken || s.phase == SM.WaitPin ==> Offering(s, s1, outs)
  {}

  lemma PinOffers(cfg: SM.Config, s: SM.Send, kind: Kind, env: SM.Env)
    ensures var (s1, outs) := SM.HandleRequiredPin(cfg, s, kind, env);
            s.phase == SM.WaitRequiredPin ==> Offering(s, s1, outs)
  {}

  lemma DocOffers(cfg: SM.Config, s: SM.Send, doc: Doc, env: SM.Env)
    ensures var (s1, outs) := SM.HandleDoc(cfg, s, doc, env); Offering(s, s1, outs)
  {
    var kind := ParseRTCMessage(doc);
    match s.phase
    case WaitToken => TokenOffers(cfg, s, kind, doc, env);
    case WaitPin => TokenOffers(cfg, s, kind, doc, env);
    case WaitRequiredPin => PinOffers(cfg, s, kind, env);
    case _ =>
  }

  lemma OfferingSends(cfg: SM.Config, s: SM.Send, data: bytes, env: SM.Env)
    ensures var (s1, outs) := SM.HandleMessage(cfg, s, data, env); Offering(s, s1, outs)
  {
    var doc := cfg.codec.unmarshal(data);
    if doc.Some? {
      DocOffers(cfg, s, doc.value, env);
    }
  }

  lemma OnlyAcceptanceSends(u: H.Setup, m1: H.Sys)
    requires H.Inv(u, m1) && m1.s.phase == SM.SendingFiles
    ensures m1.r.phase == RM.WaitFiles
  {}

  lemma OnlyAcceptedAnswers(u: H.Setup, m: H.Sys)
    requires H.Inv(u, m) && m.toSend != [] && m.r.phase == RM.WaitFiles
    ensures H.ReceiverAccepts(u, m) && m.s.phase == SM.WaitFileAccept
  {}

  lemma SenderArrives(u: H.Setup, m: H.Sys, m1: H.Sys, env: SM.Env)
    requires H.Inv(u, m) && H.Inv(u, m1) && Arrived(u, m) && m.toSend != [] && m.toRecv == []
    requires H.Next(u, m, H.ToSender(env)) == Some(m1) && m1.r == m.r
    requires H.ReceiverAccepts(u, m) ==> AnswerFits(u, m.r.tokens)
    ensures Arrived(u, m1)
  {
    OfferingSends(u.scfg, m.s, u.scfg.codec.marshal(m.toSend[0].doc), env);
    var outs := SM.HandleMessage(u.scfg, m.s, u.scfg.codec.marshal(m.toSend[0].doc), env).1;
    assert m1.toRecv == outs by { assert [] + outs == outs; }
    if m1.s.phase == SM.SendingFiles {
      OnlyAcceptanceSends(u, m1);
      OnlyAcceptedAnswers(u, m);
    }
  }

  lemma SenderHandles(u: H.Setup, m: H.Sys, y: Sys, env: SM.Env) returns (m1: H.Sys)
    requires Framed(u) && OnCourse(u, m, y) && env.sendOk && |y.toSend| == 1
    requires m.toSend != [] && Reassemble(y.s.control, y.toSend[0]) == ([], Some(u.rcfg.codec.marshal(m.toSend[0].doc)))
    requires H.ReceiverAccepts(u, m) ==> AnswerFits(u, m.r.tokens)
    ensures H.Next(u, m, H.ToSender(env)) == Some(m1)
    ensures H.Rank(m1) < H.Rank(m) && OnCourse(u, m1, Next(u, y, H.ToSender(env)).value)
  {
    OneMessage(u, m);
    SenderSteps(u, m, y, env);
    m1 := H.Next(u, m, H.ToSender(env)).value;
    H.SenderStep(u, m, env);
    OneMessage(u, m1);
    SenderArrives(u, m, m1, env);
    SentFollows(u, m1, Next(u, y, H.ToSender(env)).value);
  }

  /** A chunk only fills the sender's buffer. */
  lemma SenderBuffers(u: H.Setup, m: H.Sys, y: Sys, env: SM.Env)
    requires OnCourse(u, m, y) && |y.toSend| > 1
    ensures var y1 := Next(u, y, H.ToSender(env)).value;
            OnCourse(u, m, y1) && y1.toSend == y.toSend[1..] && y1.toRecv == y.toRecv
  {
    OneMessage(u, m);
    ChunkArrives(u.rcfg.codec.marshal(m.toSend[0].doc), y.s.control, y.toSend);
    assert y.toRecv + T.OutFrames(u.rcfg.codec, []) == y.toRecv;
  }

  /** The end of an answer that is too long is not even noticed. */
  lemma SenderMisses(u: H.Setup, m: H.Sys, y: Sys, env: SM.Env)
    requires Framed(u) && OnCourse(u, m, y) && |y.toSend| == 1 && m.toSend != [] && m.toSend[0].SayChunked?
    requires |u.rcfg.codec.marshal(m.toSend[0].doc)| > MAX_CONTROL_BYTES
    ensures AnswerLost(u, Next(u, y, H.ToSender(env)).value) && Mirrors(m, Next(u, y, H.ToSender(env)).value)
  {
    OneMessage(u, m);
    LongMessages(u, m);
    var data := u.rcfg.codec.marshal(m.toSend[0].doc);
    H.ReceiverReads(u, m.toSend[0].doc);
    DelimiterArrives(data, y.s.control, y.toSend);
    var (c, message) := Reassemble(y.s.control, y.toSend[0]);
    if message.Some? {
      assert u.rcfg.codec.unmarshal(message.value) == None;
      assert SM.HandleMessage(u.scfg, m.s, message.value, env) == (m.s, []);
    }
    assert y.toRecv + T.OutFrames(u.rcfg.codec, []) == y.toRecv;
  }

  lemma SenderFrame(u: H.Setup, m: H.Sys, y: Sys, env: SM.Env) returns (m1: H.Sys)
    requires Framed(u) && OnCourse(u, m, y) && env.sendOk && y.toSend != []
    ensures var a := H.ToSender(env); var n := Next(u, y, a); n.Some? && Advances(u, m, y, a, m1, n.value)
  {
    OneMessage(u, m);
    m1 := m;
    var data := u.rcfg.codec.marshal(m.toSend[0].doc);
    H.ReceiverReads(u, m.toSend[0].doc);
    if m.toSend[0].Say? {
      m1 := SenderHandles(u, m, y, env);
    } else {
      HalfwayHasFrames(data, y.s.control, y.toSend);
      if |y.toSend| > 1 {
        SenderBuffers(u, m, y, env);
      } else if |data| > MAX_CONTROL_BYTES {
        SenderMisses(u, m, y, env);
      } else {
        DelimiterArrives(data, y.s.control, y.toSend);
        m1 := SenderHandles(u, m, y, env);
      }
    }
  }

  // ------------------------------------------------------------------- all runs

  /** At most how many frames are still to be handled, if no message takes more than `c`. */
  function Left(m: H.Sys, y: Sys, c: nat): nat {
    if AtRest(y) then 0 else H.Rank(m) * c + |y.toRecv| + |y.toSend|
  }

  function FrameCount(codec: Codec, doc: Doc): nat {
    |Chunks(codec.marshal(doc))| + 1
  }

  /** No message of the handshake takes more frames than this. */
  predicate Longest(u: H.Setup, tokens: map<string, string>, c: nat) {
    && FrameCount(u.rcfg.codec, ToDoc(FileList("OK", u.scfg.files))) <= c
    && FrameCount(u.rcfg.codec, ToDoc(FileListResponse("OK", tokens))) <= c
    && FrameCount(u.rcfg.codec, ToDoc(FileList("PIN_REQUIRED", []))) <= c
    && FrameCount(u.rcfg.codec, ToDoc(FileList("TOO_MANY_ATTEMPTS", []))) <= c
    && FrameCount(u.rcfg.codec, ToDoc(FileListResponse("DECLINED", map[]))) <= c
  }

  /** A frame can be handled whenever one is in flight. */
  lemma StepGoes(u: H.Setup, m: H.Sys, y: Sys, a: H.Action) returns (m1: H.Sys)
    requires Framed(u) && Going(u, m, y) && H.Honest(a) && (if a.ToReceiver? then y.toRecv != [] else y.toSend != [])
    ensures var n := Next(u, y, a); n.Some? && Advances(u, m, y, a, m1, n.value)
  {
    match a {
      case ToReceiver(env) => m1 := ReceiverFrame(u, m, y, env);
      case ToSender(env) => m1 := SenderFrame(u, m, y, env);
    }
  }

  lemma {:induction false} MessageIsBounded(codec: Codec, ms: seq<Out>, control: bytes, frames: seq<Frame>, c: nat)
    requires InFlight(codec, ms, control, frames) && c > 0
    requires ms != [] && ms[0].SayChunked? ==> FrameCount(codec, ms[0].doc) <= c
    ensures |frames| <= c
  {
    if ms != [] && ms[0].SayChunked? {
      HalfwayHasFrames(codec.marshal(ms[0].doc), control, frames);
    }
  }

  /** The chunked messages of a handshake are the ones `Longest` names. */
  lemma ChunkedIsNamed(u: H.Setup, m: H.Sys, tokens: map<string, string>, c: nat)
    requires H.Inv(u, m) && Longest(u, tokens, c) && (m.r.phase == RM.WaitFiles ==> tokens == m.r.tokens)
    ensures m.toRecv != [] && m.toRecv[0].SayChunked? ==> FrameCount(u.rcfg.codec, m.toRecv[0].doc) <= c
    ensures m.toSend != [] && m.toSend[0].SayChunked? ==> FrameCount(u.rcfg.codec, m.toSend[0].doc) <= c
  {}

  lemma FramesAreBounded(u: H.Setup, m: H.Sys, y: Sys, tokens: map<string, string>, c: nat)
    requires Going(u, m, y) && Longest(u, tokens, c) && (y.r.phase == RM.WaitFiles ==> tokens == y.r.tokens)
    ensures |y.toRecv| + |y.toSend| <= c
  {
    if OnCourse(u, m, y) {
      OneMessage(u, m);
      ChunkedIsNamed(u, m, tokens, c);
      MessageIsBounded(u.rcfg.codec, m.toRecv, y.r.control, y.toRecv, c);
      MessageIsBounded(u.rcfg.codec, m.toSend, y.s.control, y.toSend, c);
    }
  }

  /** Once the receiver has accepted nothing more is sent to it. */
  lemma AcceptedIsLeftAlone(u: H.Setup, m: H.Sys, y: Sys)
    requires Going(u, m, y) && y.r.phase == RM.WaitFiles
    ensures y.toRecv == []
  {}

  lemma {:induction false} TokensStay(u: H.Setup, m: H.Sys, y: Sys, actions: seq<H.Action>)
    requires Framed(u) && Going(u, m, y) && (forall a | a in actions :: H.Honest(a)) && Run(u, y, actions).Some?
    requires y.r.phase == RM.WaitFiles
    ensures Run(u, y, actions).value.r == y.r
    decreases |actions|
  {
    if actions != [] {
      assert actions[0] in actions;
      AcceptedIsLeftAlone(u, m, y);
      var m1 := StepGoes(u, m, y, actions[0]);
      TokensStay(u, m1, Next(u, y, actions[0]).value, actions[1..]);
    }
  }

  lemma ProductGrows(a: nat, b: nat, c: nat)
    requires a < b
    ensures a * c + c <= b * c
  {
    assert (a + 1) * c <= b * c;
  }

  /** Handling one frame brings the end nearer. */
  lemma StepLeaves(m: H.Sys, y: Sys, m1: H.Sys, y1: Sys, c: nat)
    requires !AtRest(y) && |y1.toRecv| + |y1.toSend| <= c
    requires AtRest(y1) || H.Rank(m1) < H.Rank(m) || (m1 == m && |y1.toRecv| + |y1.toSend| < |y.toRecv| + |y.toSend|)
    ensures Left(m1, y1, c) < Left(m, y, c)
  {
    var a, b := H.Rank(m1), H.Rank(m);
    assert b * c >= 0;
    if !AtRest(y1) && a < b {
      ProductGrows(a, b, c);
    }
  }

  lemma {:induction false} RunGoes(u: H.Setup, m: H.Sys, y: Sys, actions: seq<H.Action>, c: nat) returns (m1: H.Sys)
    requires Framed(u) && Going(u, m, y) && (forall a | a in actions :: H.Honest(a)) && Run(u, y, actions).Some?
    requires Longest(u, Run(u, y, actions).value.r.tokens, c)
    ensures Going(u, m1, Run(u, y, actions).value)
    ensures |actions| + Left(m1, Run(u, y, actions).value, c) <= Left(m, y, c)
    decreases |actions|
  {
    m1 := m;
    if actions != [] {
      assert actions[0] in actions;
      var n := StepGoes(u, m, y, actions[0]);
      var y1 := Next(u, y, actions[0]).value;
      if y1.r.phase == RM.WaitFiles {
        TokensStay(u, n, y1, actions[1..]);
      }
      FramesAreBounded(u, n, y1, Run(u, y, actions).value.r.tokens, c);
      StepLeaves(m, y, n, y1, c);
      m1 := RunGoes(u, n, y1, actions[1..], c);
    }
  }

  lemma StartGoes(u: H.Setup, nonce: bytes, r: RM.Recv)
    requires Framed(u) && |nonce| == H.NONCE_SIZE && H.Opened(r)
    ensures OnCourse(u, H.Start(u, nonce, r), Start(u, nonce, r))
    ensures forall c: nat :: Left(H.Start(u, nonce, r), Start(u, nonce, r), c) <= 42 * c + 1
  {
    H.StartHolds(u, nonce, r);
    JustSent(u.rcfg.codec, H.Start(u, nonce, r).toRecv);
  }

  /** What a handshake at rest is: ended if the messages it sent were not too long. */
  lemma RestMeans(u: H.Setup, m: H.Sys, y: Sys)
    requires Going(u, m, y)
    ensures OnCourse(u, m, y) && AtRest(y) ==> Ended(u, y)
    ensures ListLost(u, y) || AnswerLost(u, y) ==> !Ended(u, y)
    ensures Ended(u, y) && y.s.phase == SM.WaitFileAccept ==> ListFits(u) && y.r.phase != RM.WaitFiles
    ensures Ended(u, y) && y.s.phase == SM.SendingFiles ==> ListFits(u) && AnswerFits(u, y.r.tokens)
    ensures Ended(u, y) && y.s.phase != SM.WaitFileAccept && y.s.phase != SM.SendingFiles ==>
              H.BothFailed(H.Sys(y.s, y.r, [], []))
  {
    if OnCourse(u, m, y) && AtRest(y) {
      RestEnds(u, m, y);
    }
  }

  lemma RestEnds(u: H.Setup, m: H.Sys, y: Sys)
    requires OnCourse(u, m, y) && AtRest(y)
    ensures m.toRecv == [] && m.toSend == [] && Ended(u, y) && y.s == m.s && y.r == m.r
  {
    if m.toRecv != [] && m.toRecv[0].SayChunked? {
      HalfwayHasFrames(u.rcfg.codec.marshal(m.toRecv[0].doc), y.r.control, y.toRecv);
    }
    if m.toSend != [] && m.toSend[0].SayChunked? {
      HalfwayHasFrames(u.rcfg.codec.marshal(m.toSend[0].doc), y.s.control, y.toSend);
    }
    H.InvMeans(u, m);
    assert m.s.(control := y.s.control) == y.s;
  }

  lemma Reached(u: H.Setup, nonce: bytes, r: RM.Recv, actions: seq<H.Action>, c: nat) returns (m: H.Sys)
    requires Framed(u) && |nonce| == H.NONCE_SIZE && H.Opened(r)
    requires (forall a | a in actions :: H.Honest(a)) && Run(u, Start(u, nonce, r), actions).Some?
    requires Longest(u, Run(u, Start(u, nonce, r), actions).value.r.tokens, c)
    ensures Going(u, m, Run(u, Start(u, nonce, r), actions).value) && |actions| <= 42 * c + 1
  {
    StartGoes(u, nonce, r);
    m := RunGoes(u, H.Start(u, nonce, r), Start(u, nonce, r), actions, c);
  }

  /** The bound of `Longest` is met by some number. */
  function Most(u: H.Setup, tokens: map<string, string>): (c: nat)
    ensures Longest(u, tokens, c)
  {
    FrameCount(u.rcfg.codec, ToDoc(FileList("OK", u.scfg.files)))
    + FrameCount(u.rcfg.codec, ToDoc(FileListResponse("OK", tokens)))
    + FrameCount(u.rcfg.codec, ToDoc(FileList("PIN_REQUIRED", [])))
    + FrameCount(u.rcfg.codec, ToDoc(FileList("TOO_MANY_ATTEMPTS", [])))
    + FrameCount(u.rcfg.codec, ToDoc(FileListResponse("DECLINED", map[])))
  }

  /** The sender has sent its list of files. */
  predicate Offered(y: Sys) {
    y.s.phase == SM.WaitFileAccept || y.s.phase == SM.SendingFiles
  }

  /** Every honest handshake, frame by frame, whatever PINs are given. It comes to rest after a
      bounded number of frames, at most 42 messages of at most `c` frames each; the two final
      nonces, once held, are equal. At rest it has ended (both sides failed after three wrong PINs,
      the offer was declined, or the sender holds exactly the receiver's tokens) if and only if
      the list of files, if it was sent, and the answer to it, if it was accepted, fit the control
      buffer; otherwise one of the two was lost and both sides wait. */
  lemma EveryHandshakeEndsIff(u: H.Setup, nonce: bytes, r: RM.Recv, actions: seq<H.Action>, c: nat)
    requires Framed(u) && |nonce| == H.NONCE_SIZE && H.Opened(r)
    requires (forall a | a in actions :: H.Honest(a)) && Run(u, Start(u, nonce, r), actions).Some?
    ensures var y := Run(u, Start(u, nonce, r), actions).value;
            && (Longest(u, y.r.tokens, c) ==> |actions| <= 42 * c + 1)
            && (y.s.hs.finalNonce != [] && y.r.hs.finalNonce != [] ==> SameNonce(y))
            && (AtRest(y) ==>
                  && (Ended(u, y) <==>
                        (Offered(y) ==> ListFits(u) && (y.r.phase == RM.WaitFiles ==> AnswerFits(u, y.r.tokens))))
                  && (Ended(u, y) || ListLost(u, y) || AnswerLost(u, y)))
  {
    var y := Run(u, Start(u, nonce, r), actions).value;
    if Longest(u, y.r.tokens, c) {
      var m := Reached(u, nonce, r, actions, c);
    }
    var m := Reached(u, nonce, r, actions, Most(u, y.r.tokens));
    RestMeans(u, m, y);
    NoncesOnCourse(u, m, y);
  }

  lemma NoncesOnCourse(u: H.Setup, m: H.Sys, y: Sys)
    requires Going(u, m, y)
    ensures y.s.hs.finalNonce != [] && y.r.hs.finalNonce != [] ==> SameNonce(y)
  {
    if OnCourse(u, m, y) {
      H.InvMeans(u, m);
    }
  }

  /** Until a handshake is at rest the oldest frame can be handled, whatever the answers. */
  lemma NeverStuck(u: H.Setup, nonce: bytes, r: RM.Recv, actions: seq<H.Action>, a: H.Action)
    requires Framed(u) && |nonce| == H.NONCE_SIZE && H.Opened(r)
    requires (forall b | b in actions :: H.Honest(b)) && Run(u, Start(u, nonce, r), actions).Some? && H.Honest(a)
    ensures var y := Run(u, Start(u, nonce, r), actions).value;
            (if a.ToReceiver? then y.toRecv != [] else y.toSend != []) ==> Next(u, y, a).Some?
  {
    var y := Run(u, Start(u, nonce, r), actions).value;
    var m := Reached(u, nonce, r, actions, Most(u, y.r.tokens));
    if if a.ToReceiver? then y.toRecv != [] else y.toSend != [] {
      var m1 := StepGoes(u, m, y, a);
    }
  }

  /** An accepted handshake has left nothing behind in the buffers and channels of either side. */
  lemma AcceptedIsClean(u: H.Setup, m: H.Sys, y: Sys)
    requires Going(u, m, y) && Ended(u, y) && H.WasAccepted(u, H.Sys(y.s, y.r, [], []))
    ensures H.Untouched(H.Sys(y.s, y.r, [], [])) && ListFits(u) && AnswerFits(u, y.r.tokens)
  {
    RestMeans(u, m, y);
    RestEnds(u, m, y);
  }

  lemma CourseHasNoFile(u: H.Setup, m: H.Sys, y: Sys)
    requires Going(u, m, y) && !AtRest(y)
    ensures y.r.cur == None
  {
    OneMessage(u, m);
  }

  // ------------------------------------------------------------ a list too long

  /** Neither side asks for a PIN. */
  predicate NoPins(u: H.Setup) {
    u.rcfg.pin == "" && !u.scfg.requirePin
  }

  predicate NoPinsAsked(y: Sys) {
    && y.r.phase != RM.WaitPin && y.r.hs.pinAttempts == 0
    && y.s.phase != SM.WaitRequiredPin && y.s.hs.requiredAttempts == 0
  }

  lemma TextAsksNoPin(cfg: RM.Config, r: RM.Recv, data: bytes, env: RM.Env)
    requires cfg.pin == "" && r.phase != RM.WaitPin && |data| > 0
    ensures var r1 := RM.HandleText(cfg, r, data, env).0;
            r1.phase != RM.WaitPin && r1.hs.pinAttempts == r.hs.pinAttempts
  {}

  lemma FrameAsksNoPin(cfg: RM.Config, r: RM.Recv, f: Frame, env: RM.Env)
    requires cfg.pin == "" && r.phase != RM.WaitPin && RM.Deliverable(f)
    ensures var r1 := RM.RecvFrame(cfg, r, f, env).0; r1.phase != RM.WaitPin && r1.hs.pinAttempts == r.hs.pinAttempts
  {
    var (control, message) := Reassemble(r.control, f);
    if !(r.phase == RM.ReceivingFiles && r.cur.Some?) && message.Some? {
      TextAsksNoPin(cfg, r.(control := control), message.value, env);
    }
  }

  lemma SenderAsksNoPin(cfg: SM.Config, s: SM.Send, data: bytes, env: SM.Env)
    requires !cfg.requirePin && s.phase != SM.WaitRequiredPin
    ensures var s1 := SM.HandleMessage(cfg, s, data, env).0;
            s1.phase != SM.WaitRequiredPin && s1.hs.requiredAttempts == s.hs.requiredAttempts
  {}

  lemma StepAsksNoPin(u: H.Setup, y: Sys, a: H.Action)
    requires NoPins(u) && NoPinsAsked(y) && Next(u, y, a).Some?
    ensures NoPinsAsked(Next(u, y, a).value)
  {
    match a
    case ToReceiver(env) => FrameAsksNoPin(u.rcfg, y.r, y.toRecv[0], env);
    case ToSender(env) =>
      var (control, message) := Reassemble(y.s.control, y.toSend[0]);
      if message.Some? {
        SenderAsksNoPin(u.scfg, y.s.(control := control), message.value, env);
      }
  }

  lemma {:induction false} RunAsksNoPin(u: H.Setup, y: Sys, actions: seq<H.Action>)
    requires NoPins(u) && NoPinsAsked(y) && Run(u, y, actions).Some?
    ensures NoPinsAsked(Run(u, y, actions).value)
    decreases |actions|
  {
    if actions != [] {
      StepAsksNoPin(u, y, actions[0]);
      RunAsksNoPin(u, Next(u, y, actions[0]).value, actions[1..]);
    }
  }

  /** From anywhere on its way a handshake can be run until it is at rest. */
  lemma {:induction false} RunOut(u: H.Setup, m: H.Sys, y: Sys, renv: RM.Env, senv: SM.Env)
    returns (actions: seq<H.Action>)
    requires Framed(u) && Going(u, m, y) && H.HonestReceiver(renv) && senv.sendOk
    ensures forall a | a in actions :: H.Honest(a)
    ensures Run(u, y, actions).Some? && AtRest(Run(u, y, actions).value)
    decreases !AtRest(y), H.Rank(m), |y.toRecv| + |y.toSend|
  {
    actions := [];
    if !AtRest(y) {
      var a := if y.toRecv != [] then H.ToReceiver(renv) else H.ToSender(senv);
      var m1 := StepGoes(u, m, y, a);
      var rest := RunOut(u, m1, Next(u, y, a).value, renv, senv);
      actions := [a] + rest;
      assert actions[1..] == rest;
    }
  }

  /** A list that does not fit is always lost: without PINs every handshake that comes to rest
      has the sender waiting for an answer the receiver was never asked for. And such a run
      exists, whatever the nonces and tokens. */
  lemma LongListIsLost(u: H.Setup, nonce: bytes, r: RM.Recv, renv: RM.Env, senv: SM.Env)
    returns (actions: seq<H.Action>)
    requires Framed(u) && |nonce| == H.NONCE_SIZE && H.Opened(r) && NoPins(u) && !ListFits(u)
    requires H.HonestReceiver(renv) && senv.sendOk
    ensures (forall a | a in actions :: H.Honest(a)) && Run(u, Start(u, nonce, r), actions).Some?
    ensures ListLost(u, Run(u, Start(u, nonce, r), actions).value)
    ensures !Ended(u, Run(u, Start(u, nonce, r), actions).value)
  {
    StartGoes(u, nonce, r);
    actions := RunOut(u, H.Start(u, nonce, r), Start(u, nonce, r), renv, senv);
    LongListAtRest(u, nonce, r, actions);
  }

  lemma LongListAtRest(u: H.Setup, nonce: bytes, r: RM.Recv, actions: seq<H.Action>)
    requires Framed(u) && |nonce| == H.NONCE_SIZE && H.Opened(r) && NoPins(u) && !ListFits(u)
    requires (forall a | a in actions :: H.Honest(a)) && Run(u, Start(u, nonce, r), actions).Some?
    requires AtRest(Run(u, Start(u, nonce, r), actions).value)
    ensures ListLost(u, Run(u, Start(u, nonce, r), actions).value)
    ensures !Ended(u, Run(u, Start(u, nonce, r), actions).value)
  {
    var y := Run(u, Start(u, nonce, r), actions).value;
    var m := Reached(u, nonce, r, actions, Most(u, y.r.tokens));
    RestMeans(u, m, y);
    RunAsksNoPin(u, Start(u, nonce, r), actions);
  }
}
