/** The handshake as a two-party system over two FIFO channels of control messages that arrive
    whole, for any PIN answers on either side and any selection of files. Neither side pins a key.
    HandshakeFrames puts these messages on the data channel, where not all of them arrive. */
module HandshakeSystem {
  import opened Base
  import opened RtcProtocol
  import opened Framing
  import SM = SenderModel
  import RM = ReceiverModel

  const NONCE_SIZE: nat := 32

  predicate ValidateNonce(nonce: bytes) {
    16 <= |nonce| <= 128
  }

  /** sender_nonce || receiver_nonce */
  function CombineNonces(senderNonce: bytes, receiverNonce: bytes): bytes {
    senderNonce + receiverNonce
  }

  datatype Setup = Setup(scfg: SM.Config, rcfg: RM.Config)

  /** Both sides speak the same encodings; valid nonces survive theirs; tokens are not empty. */
  ghost predicate Wired(u: Setup) {
    && Lossless(u.rcfg.codec) && u.scfg.codec == u.rcfg.codec
    && u.scfg.encodeNonce == u.rcfg.encodeNonce && u.scfg.decodeNonce == u.rcfg.decodeNonce
    && (forall n | ValidateNonce(n) ::
          u.rcfg.decodeNonce(u.rcfg.encodeNonce(n)) == Some(n) && u.rcfg.encodeNonce(n) != "")
    && (forall n :: u.scfg.signToken(n) != "" && u.rcfg.signToken(n) != "")
  }

  datatype Sys = Sys(s: SM.Send, r: RM.Recv, toRecv: seq<Out>, toSend: seq<Out>)

  datatype Action = ToReceiver(renv: RM.Env) | ToSender(senv: SM.Env)

  /** One side handles the oldest message sent to it. */
  function Next(u: Setup, y: Sys, a: Action): Option<Sys> {
    match a
    case ToReceiver(env) =>
      if y.toRecv == [] || |u.rcfg.codec.marshal(y.toRecv[0].doc)| == 0 then None else
      var (r, outs) := RM.HandleText(u.rcfg, y.r, u.rcfg.codec.marshal(y.toRecv[0].doc), env);
      Some(y.(r := r, toRecv := y.toRecv[1..], toSend := y.toSend + outs))
    case ToSender(env) =>
      if y.toSend == [] then None else
      var (s, outs) := SM.HandleMessage(u.scfg, y.s, u.scfg.codec.marshal(y.toSend[0].doc), env);
      Some(y.(s := s, toSend := y.toSend[1..], toRecv := y.toRecv + outs))
  }

  ghost predicate HonestReceiver(env: RM.Env) {
    |env.nonce| == NONCE_SIZE && forall i: nat :: env.fileToken(i) != ""
  }

  /** The data channel works; the receiver draws nonces of the right size and real tokens. */
  ghost predicate Honest(a: Action) {
    match a
    case ToReceiver(env) => HonestReceiver(env)
    case ToSender(env) => env.sendOk
  }

  /** The data channel has just opened and the sender has sent its nonce. */
  function Start(u: Setup, nonce: bytes, r: RM.Recv): Sys {
    Sys(SM.Send(SM.WaitNonce, SM.Handshake(nonce, [], [], "", 0, 0), [], None, false, false, None, 0, false),
        r, [Say(ToDoc(Nonce(u.scfg.encodeNonce(nonce))))], [])
  }

  ghost predicate Opened(r: RM.Recv) {
    && r.phase == RM.WaitNonce && r.hs == RM.NO_HANDSHAKE && r.tokens == map[] && r.cur == None && r.control == []
    && r.linked
  }

  // ------------------------------------------------------------------- stages

  predicate Carries(channel: seq<Out>, kind: Kind) {
    |channel| == 1 && channel[0].Say? && ParseRTCMessage(channel[0].doc) == kind
  }

  predicate CarriesPin(channel: seq<Out>) {
    |channel| == 1 && channel[0].Say? && ParseRTCMessage(channel[0].doc).KPin?
  }

  predicate SomeStatus(y: Sys, status: string) {
    Carries(y.toSend, KStatus(status)) && y.toRecv == []
  }

  /** The sender waits for the answer to its token or to its PIN. */
  predicate AwaitsToken(y: Sys) {
    y.s.phase == SM.WaitToken || y.s.phase == SM.WaitPin
  }

  /** What the handshake never touches. */
  ghost predicate Untouched(y: Sys) {
    && !y.s.closed && y.s.result == None && y.s.dropped == 0 && y.s.control == []
    && y.r.cur == None && y.r.control == []
  }

  /** Before the receiver has answered, nothing has been accepted or has failed. */
  ghost predicate Fresh(y: Sys) {
    Untouched(y) && !y.s.declined && !y.s.failed && y.s.accepted == None && y.r.tokens == map[]
  }

  /** Every token was issued for an offered file with a usable name, and is not empty. */
  ghost predicate TokensSound(u: Setup, r: RM.Recv) {
    forall id | id in r.tokens ::
      r.tokens[id] != "" && RM.FindFile(r.files, id).Some? && u.rcfg.safeName(RM.FindFile(r.files, id).value)
  }

  /** Both sides hold the same final nonce. */
  ghost predicate Agreed(y: Sys) {
    y.s.hs.finalNonce == y.r.hs.finalNonce == CombineNonces(y.s.hs.localNonce, y.r.hs.localNonce)
  }

  ghost predicate SenderNonceSent(u: Setup, y: Sys) {
    && y.s.phase == SM.WaitNonce && y.r.phase == RM.WaitNonce && y.r.linked
    && Carries(y.toRecv, KNonce(u.scfg.encodeNonce(y.s.hs.localNonce))) && y.toSend == []
    && ValidateNonce(y.s.hs.localNonce) && y.s.hs.finalNonce == [] && y.r.hs == RM.NO_HANDSHAKE
    && y.s.hs.requiredAttempts == 0
  }

  ghost predicate ReceiverNonceSent(u: Setup, y: Sys) {
    && y.s.phase == SM.WaitNonce && y.r.phase == RM.WaitToken && y.r.linked
    && Carries(y.toSend, KNonce(u.rcfg.encodeNonce(y.r.hs.localNonce))) && y.toRecv == []
    && ValidateNonce(y.r.hs.localNonce) && y.s.hs.finalNonce == []
    && y.r.hs.finalNonce == CombineNonces(y.s.hs.localNonce, y.r.hs.localNonce)
    && y.r.hs.pinAttempts == 0 && y.s.hs.requiredAttempts == 0
  }

  ghost predicate TokenSent(y: Sys) {
    && y.s.phase == SM.WaitToken && y.r.phase == RM.WaitToken && y.r.linked
    && |y.toRecv| == 1 && y.toRecv[0].Say? && ParseRTCMessage(y.toRecv[0].doc).KTokenRequest? && y.toSend == []
    && y.r.hs.pinAttempts == 0 && y.s.hs.requiredAttempts == 0
  }

  ghost predicate ReceiverAsksPin(y: Sys) {
    && AwaitsToken(y) && y.r.phase == RM.WaitPin && y.r.linked && SomeStatus(y, "PIN_REQUIRED")
    && y.r.hs.pinAttempts < MAX_PIN_ATTEMPTS && y.s.hs.requiredAttempts == 0
  }

  ghost predicate SenderAnswersPin(y: Sys) {
    && y.s.phase == SM.WaitPin && y.r.phase == RM.WaitPin && y.r.linked && CarriesPin(y.toRecv) && y.toSend == []
    && y.r.hs.pinAttempts < MAX_PIN_ATTEMPTS && y.s.hs.requiredAttempts == 0
  }

  ghost predicate ReceiverSatisfied(y: Sys) {
    && AwaitsToken(y) && y.r.phase == RM.WaitFileList && y.r.linked && SomeStatus(y, "OK")
    && y.s.hs.requiredAttempts == 0
  }

  ghost predicate ReceiverGaveUp(y: Sys) {
    && y.s.phase == SM.WaitPin && y.r.phase == RM.Done && SomeStatus(y, "TOO_MANY_ATTEMPTS")
    && y.r.hs.pinAttempts == MAX_PIN_ATTEMPTS
  }

  ghost predicate SenderAsksPin(y: Sys) {
    && y.s.phase == SM.WaitRequiredPin && y.r.phase == RM.WaitFileList && y.r.linked
    && y.toRecv == [SayChunked(ToDoc(FileList("PIN_REQUIRED", [])))] && y.toSend == []
    && y.s.hs.requiredAttempts < MAX_PIN_ATTEMPTS
  }

  ghost predicate ReceiverAnswersPin(y: Sys) {
    && y.s.phase == SM.WaitRequiredPin && y.r.phase == RM.WaitFileList && y.r.linked
    && CarriesPin(y.toSend) && y.toRecv == [] && y.s.hs.requiredAttempts < MAX_PIN_ATTEMPTS
  }

  ghost predicate SenderGaveUp(y: Sys) {
    && y.s.phase == SM.Done && y.r.phase == RM.WaitFileList
    && y.toRecv == [SayChunked(ToDoc(FileList("TOO_MANY_ATTEMPTS", [])))] && y.toSend == []
    && y.s.hs.requiredAttempts == MAX_PIN_ATTEMPTS
  }

  ghost predicate FilesOffered(u: Setup, y: Sys) {
    && y.s.phase == SM.WaitFileAccept && y.r.phase == RM.WaitFileList && y.r.linked
    && y.toRecv == [SayChunked(ToDoc(FileList("OK", u.scfg.files)))] && y.toSend == []
  }

  ghost predicate ReceiverDeclines(y: Sys) {
    && y.s.phase == SM.WaitFileAccept && y.r.phase == RM.WaitFileList && y.toRecv == []
    && y.toSend == [SayChunked(ToDoc(FileListResponse("DECLINED", map[])))]
  }

  ghost predicate ReceiverAccepts(u: Setup, y: Sys) {
    && y.s.phase == SM.WaitFileAccept && y.r.phase == RM.WaitFiles && y.r.linked
    && y.r.files == u.scfg.files && TokensSound(u, y.r)
    && y.toSend == [SayChunked(ToDoc(FileListResponse("OK", y.r.tokens)))] && y.toRecv == []
  }

  // The three ways a handshake ends.

  ghost predicate BothFailed(y: Sys) {
    && y.s.phase == SM.Done && y.s.failed && y.r.phase == RM.Done && y.toRecv == [] && y.toSend == []
    && (y.r.hs.pinAttempts == MAX_PIN_ATTEMPTS || y.s.hs.requiredAttempts == MAX_PIN_ATTEMPTS)
  }

  ghost predicate WasDeclined(y: Sys) {
    y.s.phase == SM.WaitFileAccept && y.s.declined && y.r.phase == RM.WaitFileList && y.toRecv == [] && y.toSend == []
  }

  ghost predicate WasAccepted(u: Setup, y: Sys) {
    && y.s.phase == SM.SendingFiles && y.r.phase == RM.WaitFiles && y.r.linked
    && y.r.files == u.scfg.files && TokensSound(u, y.r) && y.s.accepted == Some(y.r.tokens) && y.toRecv == []
    && y.toSend == []
  }

  ghost predicate Ended(u: Setup, y: Sys) {
    BothFailed(y) || WasDeclined(y) || WasAccepted(u, y)
  }

  ghost predicate Negotiating(u: Setup, y: Sys) {
    Fresh(y) && (SenderNonceSent(u, y) || ReceiverNonceSent(u, y)
                 || (Agreed(y) && (TokenSent(y) || ReceiverAsksPin(y) || SenderAnswersPin(y) || ReceiverSatisfied(y)
                                   || ReceiverGaveUp(y) || SenderAsksPin(y) || ReceiverAnswersPin(y)
                                   || FilesOffered(u, y) || ReceiverDeclines(y))))
  }

  ghost predicate Closing(u: Setup, y: Sys) {
    && Agreed(y) && Untouched(y)
    && ((SenderGaveUp(y) && y.s.failed) || (ReceiverAccepts(u, y) && y.s.accepted == None && !y.s.declined))
  }

  ghost predicate Inv(u: Setup, y: Sys) {
    Negotiating(u, y) || Closing(u, y) || (Agreed(y) && Untouched(y) && Ended(u, y))
  }

  /** A bound on the messages still to come. */
  function Rank(y: Sys): nat {
    var receiverTries := if y.r.hs.pinAttempts <= 3 then 3 - y.r.hs.pinAttempts else 0;
    var senderTries := if y.s.hs.requiredAttempts <= 3 then 3 - y.s.hs.requiredAttempts else 0;
    if y.s.phase == SM.WaitNonce then (if y.r.phase == RM.WaitNonce then 42 else 41)
    else if y.r.phase == RM.WaitToken then 40
    else if y.r.phase == RM.WaitPin then 20 + 2 * receiverTries + |y.toSend|
    else if AwaitsToken(y) && y.r.phase == RM.WaitFileList then 20
    else if y.s.phase == SM.WaitRequiredPin then 8 + 2 * senderTries + |y.toRecv|
    else if y.s.phase == SM.WaitFileAccept && |y.toRecv| > 0 then 7
    else |y.toRecv| + |y.toSend|
  }

  // -------------------------------------------------------------------- steps

  /** What the receiver's handler sees of a message. */
  lemma ReceiverReads(u: Setup, d: Doc)
    requires Wired(u)
    ensures |u.rcfg.codec.marshal(d)| > 0 && u.rcfg.codec.unmarshal(u.rcfg.codec.marshal(d)) == Some(d)
    ensures u.rcfg.codec.marshal(d)[0] == 123
  {}

  lemma NonceStep(u: Setup, y: Sys, env: RM.Env)
    requires Wired(u) && Fresh(y) && SenderNonceSent(u, y) && HonestReceiver(env)
    ensures var n := Next(u, y, ToReceiver(env));
            n.Some? && Rank(n.value) < Rank(y) && Fresh(n.value) && ReceiverNonceSent(u, n.value)
  {
    ReceiverReads(u, y.toRecv[0].doc);
    ParseRecognises(Nonce(u.rcfg.encodeNonce(env.nonce)));
  }

  lemma NonceResponseStep(u: Setup, y: Sys, env: SM.Env)
    requires Wired(u) && Fresh(y) && ReceiverNonceSent(u, y) && env.sendOk
    ensures var n := Next(u, y, ToSender(env));
            n.Some? && Rank(n.value) < Rank(y) && Fresh(n.value) && Agreed(n.value) && TokenSent(n.value)
  {
    ReceiverReads(u, y.toSend[0].doc);
    ParseRecognises(TokenRequest(u.scfg.signToken(CombineNonces(y.s.hs.localNonce, y.r.hs.localNonce))));
  }

  lemma TokenStep(u: Setup, y: Sys, env: RM.Env)
    requires Wired(u) && Fresh(y) && Agreed(y) && TokenSent(y)
    ensures var n := Next(u, y, ToReceiver(env));
            && n.Some? && Rank(n.value) < Rank(y) && Fresh(n.value) && Agreed(n.value)
            && (ReceiverAsksPin(n.value) || ReceiverSatisfied(n.value))
  {
    ReceiverReads(u, y.toRecv[0].doc);
    ParseRecognises(TokenResponse("PIN_REQUIRED", u.rcfg.signToken(y.r.hs.finalNonce)));
    ParseRecognises(TokenResponse("OK", u.rcfg.signToken(y.r.hs.finalNonce)));
  }

  lemma AskedPinStep(u: Setup, y: Sys, env: SM.Env)
    requires Wired(u) && Fresh(y) && Agreed(y) && ReceiverAsksPin(y) && env.sendOk
    ensures var n := Next(u, y, ToSender(env));
            n.Some? && Rank(n.value) < Rank(y) && Fresh(n.value) && Agreed(n.value) && SenderAnswersPin(n.value)
  {
    ReceiverReads(u, y.toSend[0].doc);
    ParseRecognises(Pin(env.pinAnswer));
  }

  lemma PinStep(u: Setup, y: Sys, env: RM.Env)
    requires Wired(u) && Fresh(y) && Agreed(y) && SenderAnswersPin(y)
    ensures var n := Next(u, y, ToReceiver(env));
            && n.Some? && Rank(n.value) < Rank(y) && Fresh(n.value) && Agreed(n.value)
            && (ReceiverSatisfied(n.value) || ReceiverGaveUp(n.value)
                || (ReceiverAsksPin(n.value) && n.value.r.hs.pinAttempts == y.r.hs.pinAttempts + 1))
  {
    ReceiverReads(u, y.toRecv[0].doc);
    ParseRecognises(PinStatus("OK"));
    ParseRecognises(PinStatus("PIN_REQUIRED"));
    ParseRecognises(PinStatus("TOO_MANY_ATTEMPTS"));
  }

  lemma SatisfiedStep(u: Setup, y: Sys, env: SM.Env)
    requires Wired(u) && Fresh(y) && Agreed(y) && ReceiverSatisfied(y) && env.sendOk
    ensures var n := Next(u, y, ToSender(env));
            && n.Some? && Rank(n.value) < Rank(y) && Fresh(n.value) && Agreed(n.value)
            && (SenderAsksPin(n.value) || FilesOffered(u, n.value))
  {
    ReceiverReads(u, y.toSend[0].doc);
    ParseRecognises(FileList("PIN_REQUIRED", []));
  }

  lemma GaveUpStep(u: Setup, y: Sys, env: SM.Env)
    requires Wired(u) && Fresh(y) && Agreed(y) && ReceiverGaveUp(y)
    ensures var n := Next(u, y, ToSender(env));
            n.Some? && Rank(n.value) < Rank(y) && Agreed(n.value) && Untouched(n.value) && BothFailed(n.value)
  {
    ReceiverReads(u, y.toSend[0].doc);
  }

  lemma SenderPinStep(u: Setup, y: Sys, env: RM.Env)
    requires Wired(u) && Fresh(y) && Agreed(y) && SenderAsksPin(y)
    ensures var n := Next(u, y, ToReceiver(env));
            && n.Some? && Rank(n.value) < Rank(y) && Fresh(n.value) && Agreed(n.value) && ReceiverAnswersPin(n.value)
            && n.value.s.hs == y.s.hs
  {
    ReceiverReads(u, y.toRecv[0].doc);
    ParseRecognises(FileList("PIN_REQUIRED", []));
    ParseRecognises(Pin(env.pinAnswer));
  }

  lemma PinAnswerStep(u: Setup, y: Sys, env: SM.Env)
    requires Wired(u) && Fresh(y) && Agreed(y) && ReceiverAnswersPin(y) && env.sendOk
    ensures var n := Next(u, y, ToSender(env));
            && n.Some? && Rank(n.value) < Rank(y) && Agreed(n.value)
            && ((Fresh(n.value) && FilesOffered(u, n.value))
                || (Fresh(n.value) && SenderAsksPin(n.value)
                    && n.value.s.hs.requiredAttempts == y.s.hs.requiredAttempts + 1)
                || (Closing(u, n.value) && SenderGaveUp(n.value)))
  {
    ReceiverReads(u, y.toSend[0].doc);
    ParseRecognises(FileList("PIN_REQUIRED", []));
    ParseRecognises(FileList("TOO_MANY_ATTEMPTS", []));
  }

  lemma SenderGaveUpStep(u: Setup, y: Sys, env: RM.Env)
    requires Wired(u) && Closing(u, y) && SenderGaveUp(y)
    ensures var n := Next(u, y, ToReceiver(env));
            n.Some? && Rank(n.value) < Rank(y) && Agreed(n.value) && Untouched(n.value) && BothFailed(n.value)
  {
    ReceiverReads(u, y.toRecv[0].doc);
    ParseRecognises(FileList("TOO_MANY_ATTEMPTS", []));
  }

  lemma AnsweredSoundly(u: Setup, r: RM.Recv, env: RM.Env)
    requires HonestReceiver(env) && r.tokens == map[]
    ensures TokensSound(u, RM.AnswerOffer(u.rcfg, r, u.scfg.files, env).0)
  {
    var accepted := if env.selected.Some? then env.selected.value else RM.Ids(u.scfg.files);
    RM.PreparedExactly(u.rcfg, u.scfg.files, accepted, env.fileToken);
    assert forall t: map<string, string> :: map[] + t == t;
  }

  /** What the receiver makes of an offer: it declines, or accepts with sound tokens. */
  lemma OfferIsAnswered(u: Setup, r: RM.Recv, d: Doc, env: RM.Env)
    requires Wired(u) && HonestReceiver(env) && r.phase == RM.WaitFileList && r.linked && r.tokens == map[]
    requires d == ToDoc(FileList("OK", u.scfg.files))
    ensures var (r1, outs) := RM.HandleText(u.rcfg, r, u.rcfg.codec.marshal(d), env);
            && r1.hs == r.hs && r1.cur == r.cur && r1.control == r.control && |outs| == 1
            && ((r1.phase == RM.WaitFileList && r1.tokens == map[]
                 && outs == [SayChunked(ToDoc(FileListResponse("DECLINED", map[])))])
                || (r1.phase == RM.WaitFiles && r1.linked && r1.files == u.scfg.files && TokensSound(u, r1)
                    && outs == [SayChunked(ToDoc(FileListResponse("OK", r1.tokens)))]))
  {
    ReceiverReads(u, d);
    ParseRecognises(FileList("OK", u.scfg.files));
    ParseRecognises(FileListResponse("DECLINED", map[]));
    AnsweredSoundly(u, r, env);
    assert forall t: map<string, string> :: map[] + t == t;
  }

  lemma OfferStep(u: Setup, y: Sys, env: RM.Env)
    requires Wired(u) && Fresh(y) && Agreed(y) && FilesOffered(u, y) && HonestReceiver(env)
    ensures var n := Next(u, y, ToReceiver(env));
            && n.Some? && Rank(n.value) < Rank(y) && Agreed(n.value)
            && ((Fresh(n.value) && ReceiverDeclines(n.value)) || (Closing(u, n.value) && ReceiverAccepts(u, n.value)))
  {
    ReceiverReads(u, y.toRecv[0].doc);
    OfferIsAnswered(u, y.r, y.toRecv[0].doc, env);
    var (r1, outs) := RM.HandleText(u.rcfg, y.r, u.rcfg.codec.marshal(y.toRecv[0].doc), env);
    assert [] + outs == outs && y.toRecv[1..] == [];
  }

  lemma DeclineStep(u: Setup, y: Sys, env: SM.Env)
    requires Wired(u) && Fresh(y) && Agreed(y) && ReceiverDeclines(y)
    ensures var n := Next(u, y, ToSender(env));
            n.Some? && Rank(n.value) < Rank(y) && Agreed(n.value) && Untouched(n.value) && WasDeclined(n.value)
  {
    ReceiverReads(u, y.toSend[0].doc);
    ParseRecognises(FileListResponse("DECLINED", map[]));
  }

  lemma AcceptStep(u: Setup, y: Sys, env: SM.Env)
    requires Wired(u) && Closing(u, y) && ReceiverAccepts(u, y)
    ensures var n := Next(u, y, ToSender(env));
            n.Some? && Rank(n.value) < Rank(y) && Agreed(n.value) && Untouched(n.value) && WasAccepted(u, n.value)
  {
    ReceiverReads(u, y.toSend[0].doc);
    ParseRecognises(FileListResponse("OK", y.r.tokens));
  }

  // ------------------------------------------------------------------- all runs

  lemma ReceiverStep(u: Setup, y: Sys, env: RM.Env)
    requires Wired(u) && Inv(u, y) && HonestReceiver(env) && y.toRecv != []
    ensures var n := Next(u, y, ToReceiver(env)); n.Some? && Inv(u, n.value) && Rank(n.value) < Rank(y)
  {
    if Closing(u, y) {
      SenderGaveUpStep(u, y, env);
    } else if SenderNonceSent(u, y) {
      NonceStep(u, y, env);
    } else if TokenSent(y) {
      TokenStep(u, y, env);
    } else if SenderAnswersPin(y) {
      PinStep(u, y, env);
    } else if SenderAsksPin(y) {
      SenderPinStep(u, y, env);
    } else {
      OfferStep(u, y, env);
    }
  }

  lemma SenderStep(u: Setup, y: Sys, env: SM.Env)
    requires Wired(u) && Inv(u, y) && env.sendOk && y.toSend != []
    ensures var n := Next(u, y, ToSender(env)); n.Some? && Inv(u, n.value) && Rank(n.value) < Rank(y)
  {
    if Closing(u, y) {
      AcceptStep(u, y, env);
    } else if ReceiverNonceSent(u, y) {
      NonceResponseStep(u, y, env);
    } else if ReceiverAsksPin(y) {
      AskedPinStep(u, y, env);
    } else if ReceiverSatisfied(y) {
      SatisfiedStep(u, y, env);
    } else if ReceiverGaveUp(y) {
      GaveUpStep(u, y, env);
    } else if ReceiverAnswersPin(y) {
      PinAnswerStep(u, y, env);
    } else {
      DeclineStep(u, y, env);
    }
  }

  lemma StartHolds(u: Setup, nonce: bytes, r: RM.Recv)
    requires Wired(u) && |nonce| == NONCE_SIZE && Opened(r)
    ensures Inv(u, Start(u, nonce, r)) && Rank(Start(u, nonce, r)) == 42
  {
    ParseRecognises(Nonce(u.scfg.encodeNonce(nonce)));
  }

  lemma InvMeans(u: Setup, y: Sys)
    requires Inv(u, y)
    ensures y.s.hs.finalNonce != [] && y.r.hs.finalNonce != [] ==> Agreed(y)
    ensures Ended(u, y) <==> y.toRecv == [] && y.toSend == []
  {}
}
