/** The WebRTC sender as an abstract state machine: the handshake handlers, and the order
    in which SendFiles puts frames on the channel and waits for acknowledgements. */
module SenderModel {
  import opened Base
  import opened RtcProtocol
  import opened Framing

  datatype Phase = Init | WaitNonce | WaitToken | WaitPin | WaitRequiredPin | WaitFileAccept | SendingFiles | Done

  datatype Ack = Ack(id: string, success: bool, error: Option<string>)

  datatype Handshake = Handshake(
    localNonce: bytes,
    remoteNonce: bytes,
    finalNonce: bytes,
    receiverToken: string,
    pinAttempts: nat,
    requiredAttempts: nat)

  /** `accepted`, `declined`, `failed` and `result` are the contents of the sender's channels
      of capacity one; `dropped` counts acknowledgements a full channel refused. */
  datatype Send = Send(
    phase: Phase,
    hs: Handshake,
    control: bytes,
    accepted: Option<map<string, string>>,
    declined: bool,
    failed: bool,
    result: Option<Ack>,
    dropped: nat,
    closed: bool)

  datatype Config = Config(
    codec: Codec,
    encodeNonce: bytes -> string,
    decodeNonce: string -> Option<bytes>,
    signToken: bytes -> string,
    requirePin: bool,
    requiredPin: string,
    files: seq<FileDto>)

  /** What the world decides during one message: the PIN provider's answer, and whether the
      data channel still takes messages. */
  datatype Env = Env(pinAnswer: string, sendOk: bool)

  function Failed(s: Send): Send {
    s.(phase := Done, failed := s.failed || !s.closed)
  }

  // -------------------------------------------------------------- handshake

  function HandleNonceResponse(cfg: Config, s: Send, kind: Kind, env: Env): (Send, seq<Out>) {
    if !kind.KNonce? then (s, []) else
    match cfg.decodeNonce(kind.nonce)
    case None => (s, [])
    case Some(remote) =>
      var s1 := s.(hs := s.hs.(remoteNonce := remote, finalNonce := s.hs.localNonce + remote));
      if env.sendOk then
        (s1.(phase := WaitToken), [Say(ToDoc(TokenRequest(cfg.signToken(s1.hs.finalNonce))))])
      else (s1, [])
  }

  function SendFileList(cfg: Config, s: Send, env: Env): (Send, seq<Out>) {
    if env.sendOk then (s.(phase := WaitFileAccept), [SayChunked(ToDoc(FileList("OK", cfg.files)))])
    else (s, [])
  }

  function BeginFileListPhase(cfg: Config, s: Send, env: Env): (Send, seq<Out>) {
    if !cfg.requirePin then SendFileList(cfg, s, env)
    else if !env.sendOk then (Failed(s), [])
    else (s.(phase := WaitRequiredPin), [SayChunked(ToDoc(FileList("PIN_REQUIRED", [])))])
  }

  function HandleTokenResponse(cfg: Config, s: Send, kind: Kind, doc: Doc, env: Env): (Send, seq<Out>) {
    if kind == KStatus("TOO_MANY_ATTEMPTS") || kind == KStatus("INVALID_SIGNATURE") then (Failed(s), [])
    else if kind != KStatus("OK") && kind != KStatus("PIN_REQUIRED") then (s, [])
    else
      var s1 := s.(hs := s.hs.(receiverToken := StrOf(doc.token)));
      if kind.status == "PIN_REQUIRED" then
        var s2 := s1.(hs := s1.hs.(pinAttempts := s1.hs.pinAttempts + 1));
        if env.sendOk then (s2.(phase := WaitPin), [Say(ToDoc(Pin(env.pinAnswer)))]) else (Failed(s2), [])
      else BeginFileListPhase(cfg, s1, env)
  }

  function HandleRequiredPin(cfg: Config, s: Send, kind: Kind, env: Env): (Send, seq<Out>) {
    if !kind.KPin? then (s, [])
    else if kind.pin == cfg.requiredPin then SendFileList(cfg, s, env)
    else
      var s1 := s.(hs := s.hs.(requiredAttempts := s.hs.requiredAttempts + 1));
      var status := if s1.hs.requiredAttempts >= MAX_PIN_ATTEMPTS then "TOO_MANY_ATTEMPTS" else "PIN_REQUIRED";
      if !env.sendOk then (Failed(s1), [])
      else (if status == "TOO_MANY_ATTEMPTS" then Failed(s1) else s1, [SayChunked(ToDoc(FileList(status, [])))])
  }

  /** The tokens of an acceptance; an omitted map reads as empty. */
  function TokensOf(doc: Doc): map<string, string> {
    if doc.files.TokenObject? then doc.files.tokens else map[]
  }

  function HandleFileAcceptance(s: Send, kind: Kind, doc: Doc): Send {
    if kind == KStatus("DECLINED") then s.(declined := s.declined || !s.closed)
    else if kind == KStatus("OK") then
      s.(phase := SendingFiles,
         accepted := if s.accepted.None? && !s.closed then Some(TokensOf(doc)) else s.accepted)
    else s
  }

  /** The non-blocking hand-over of an acknowledgement to SendFiles. */
  function HandleFileResponse(s: Send, a: Ack): Send {
    if s.closed then s
    else
      var s1 := if s.result.None? then s.(result := Some(a)) else s.(dropped := s.dropped + 1);
      if a.success then s1 else s1.(failed := true)
  }

  function HandleMessage(cfg: Config, s: Send, data: bytes, env: Env): (Send, seq<Out>) {
    var doc := cfg.codec.unmarshal(data);
    if doc.None? then (s, [])
    else HandleDoc(cfg, s, doc.value, env)
  }

  function HandleDoc(cfg: Config, s: Send, doc: Doc, env: Env): (Send, seq<Out>) {
    var kind := ParseRTCMessage(doc);
    if kind.KNone? then (s, [])
    else if kind.KFileResponse? then (HandleFileResponse(s, Ack(kind.id, kind.success, kind.error)), [])
    else match s.phase
      case WaitNonce => HandleNonceResponse(cfg, s, kind, env)
      case WaitToken => HandleTokenResponse(cfg, s, kind, doc, env)
      case WaitPin => HandleTokenResponse(cfg, s, kind, doc, env)
      case WaitRequiredPin => HandleRequiredPin(cfg, s, kind, env)
      case WaitFileAccept => (HandleFileAcceptance(s, kind, doc), [])
      case _ => (s, [])
  }

  function SendFrame(cfg: Config, s: Send, f: Frame, env: Env): (Send, seq<Out>) {
    var (control, message) := Reassemble(s.control, f);
    var s1 := s.(control := control);
    if message.Some? then HandleMessage(cfg, s1, message.value, env) else (s1, [])
  }

  // ------------------------------------------------------ the order of SendFiles

  /** A queued file: its id, the receiver's token and the local bytes. */
  datatype Item = Item(id: string, token: string, content: bytes)

  /** One externally visible action of SendFiles. */
  datatype Op = Emit(frame: Frame) | Got(ack: Ack)

  /** How far SendFiles is: before the first header, inside file `k` with `rest` still to
      send, waiting for the acknowledgement of file `k`, or done. */
  datatype Pos = AtStart | Sending(k: nat, rest: bytes) | Awaiting(k: nat) | Finished

  function Header(codec: Codec, item: Item): Frame {
    Frame(codec.marshal(ToDoc(FileHeader(item.id, item.token))), true)
  }

  /** The text frame that ends file `k`: the next file's header, or the final "0". */
  function Boundary(codec: Codec, q: seq<Item>, k: nat): Frame
    requires k < |q|
  {
    if k + 1 < |q| then Header(codec, q[k + 1]) else Frame(ZERO, true)
  }

  predicate InQueue(q: seq<Item>, p: Pos) {
    (p.Sending? || p.Awaiting? ==> p.k < |q|)
  }

  function StepOp(codec: Codec, q: seq<Item>, p: Pos, op: Op): (r: Option<Pos>)
    requires InQueue(q, p)
    ensures r.Some? ==> InQueue(q, r.value)
  {
    match p
    case AtStart =>
      if !op.Emit? then None
      else if q == [] then (if op.frame == Frame(ZERO, true) then Some(Finished) else None)
      else if op.frame == Header(codec, q[0]) then Some(Sending(0, q[0].content)) else None
    case Sending(k, rest) =>
      if !op.Emit? then None
      else if rest == [] then (if op.frame == Boundary(codec, q, k) then Some(Awaiting(k)) else None)
      else if !op.frame.text && 0 < |op.frame.data| <= CHUNK_SIZE && op.frame.data <= rest then
        Some(Sending(k, rest[|op.frame.data|..]))
      else None
    case Awaiting(k) =>
      if op.Got? && op.ack.id == q[k].id && op.ack.success then
        Some(if k + 1 < |q| then Sending(k + 1, q[k + 1].content) else Finished)
      else None
    case Finished => None
  }

  function RunOps(codec: Codec, q: seq<Item>, p: Pos, ops: seq<Op>): (r: Option<Pos>)
    requires InQueue(q, p)
    ensures r.Some? ==> InQueue(q, r.value)
    decreases |ops|
  {
    if ops == [] then Some(p)
    else
      var n := |ops| - 1;
      var before := RunOps(codec, q, p, ops[..n]);
      if before.None? then None else StepOp(codec, q, before.value, ops[n])
  }

  lemma RunOpsSnoc(codec: Codec, q: seq<Item>, p: Pos, ops: seq<Op>, op: Op)
    requires InQueue(q, p)
    ensures RunOps(codec, q, p, ops + [op]) ==
              var before := RunOps(codec, q, p, ops);
              if before.None? then None else StepOp(codec, q, before.value, op)
  {
    assert (ops + [op])[..|ops|] == ops;
  }
}
