/** Who gets past a PIN. Over every run of the handshake, on either side: only the right PIN lets
    the other side on, every wrong one is counted, and the third wrong one ends the session. */
module PinVerdicts {
  import opened Base
  import opened RtcProtocol
  import opened Framing
  import SM = SenderModel
  import RM = ReceiverModel
  import H = HandshakeSystem
  import F = HandshakeFrames

  /** How far the side that wants a PIN has got: it has not asked, waits for an answer, has one on
      its way to it, was given the right one, or gave up. */
  datatype Stage = NotAsked | Asked | Answered | Right | GaveUp

  function RecvStage(pin: string, r: RM.Recv, incoming: bool): Stage {
    match r.phase
    case WaitNonce => NotAsked
    case WaitToken => NotAsked
    case WaitPin => if incoming then Answered else Asked
    case Done => if r.hs.pinAttempts == MAX_PIN_ATTEMPTS then GaveUp else if pin == "" then NotAsked else Right
    case _ => if pin == "" then NotAsked else Right
  }

  function SendStage(required: bool, s: SM.Send, incoming: bool): Stage {
    match s.phase
    case WaitRequiredPin => if incoming then Answered else Asked
    case WaitFileAccept => if required then Right else NotAsked
    case SendingFiles => if required then Right else NotAsked
    case Done => if s.hs.requiredAttempts == MAX_PIN_ATTEMPTS then GaveUp else NotAsked
    case _ => NotAsked
  }

  predicate AllWrong(wanted: string, given: seq<string>) {
    forall i | 0 <= i < |given| :: given[i] != wanted
  }

  predicate LastRight(wanted: string, given: seq<string>) {
    given != [] && given[|given| - 1] == wanted && AllWrong(wanted, given[..|given| - 1])
  }

  /** The answers given so far, and how many were counted as wrong. */
  predicate Ledger(wanted: string, given: seq<string>, attempts: nat, stage: Stage) {
    match stage
    case NotAsked => given == [] && attempts == 0
    case Asked => attempts == |given| < MAX_PIN_ATTEMPTS && AllWrong(wanted, given)
    case Answered => 0 < |given| == attempts + 1 <= MAX_PIN_ATTEMPTS && AllWrong(wanted, given[..|given| - 1])
    case Right => |given| == attempts + 1 <= MAX_PIN_ATTEMPTS && LastRight(wanted, given)
    case GaveUp => attempts == |given| == MAX_PIN_ATTEMPTS && AllWrong(wanted, given)
  }

  /** An answer that has arrived was right, was wrong, or was the third wrong one. */
  lemma AnswerCounts(wanted: string, given: seq<string>, attempts: nat)
    requires Ledger(wanted, given, attempts, Answered)
    ensures given[|given| - 1] == wanted ==> Ledger(wanted, given, attempts, Right)
    ensures given[|given| - 1] != wanted ==>
              Ledger(wanted, given, attempts + 1, if attempts + 1 == MAX_PIN_ATTEMPTS then GaveUp else Asked)
  {}

  lemma AnswerIsGiven(wanted: string, given: seq<string>, attempts: nat, pin: string)
    requires Ledger(wanted, given, attempts, Asked)
    ensures Ledger(wanted, given + [pin], attempts, Answered)
  {
    assert (given + [pin])[..|given|] == given;
  }

  ghost predicate RecvBook(u: H.Setup, m: H.Sys, given: seq<string>) {
    var stage := RecvStage(u.rcfg.pin, m.r, m.toRecv != []);
    && Ledger(u.rcfg.pin, given, m.r.hs.pinAttempts, stage)
    && (u.rcfg.pin == "" ==> stage == NotAsked)
    && (stage == Answered ==> m.toRecv == [Say(ToDoc(Pin(given[|given| - 1])))])
  }

  ghost predicate SendBook(u: H.Setup, m: H.Sys, given: seq<string>) {
    var stage := SendStage(u.scfg.requirePin, m.s, m.toSend != []);
    && Ledger(u.scfg.requiredPin, given, m.s.hs.requiredAttempts, stage)
    && (!u.scfg.requirePin ==> stage == NotAsked)
    && (stage == Answered ==> m.toSend == [Say(ToDoc(Pin(given[|given| - 1])))])
  }

  // ------------------------------------------------------- the receiver's PIN

  lemma TokenBook(u: H.Setup, m: H.Sys, env: RM.Env, given: seq<string>)
    requires H.Wired(u) && H.Fresh(m) && H.TokenSent(m) && RecvBook(u, m, given)
    ensures RecvBook(u, H.Next(u, m, H.ToReceiver(env)).value, given)
  {
    H.ReceiverReads(u, m.toRecv[0].doc);
  }

  lemma PinBook(u: H.Setup, m: H.Sys, env: RM.Env, given: seq<string>)
    requires H.Wired(u) && H.Fresh(m) && H.SenderAnswersPin(m) && RecvBook(u, m, given)
    ensures RecvBook(u, H.Next(u, m, H.ToReceiver(env)).value, given)
  {
    H.ReceiverReads(u, m.toRecv[0].doc);
    ParseRecognises(Pin(given[|given| - 1]));
    AnswerCounts(u.rcfg.pin, given, m.r.hs.pinAttempts);
  }

  lemma NonceBook(u: H.Setup, m: H.Sys, env: RM.Env, given: seq<string>)
    requires H.Wired(u) && H.Fresh(m) && H.SenderNonceSent(u, m) && RecvBook(u, m, given)
    ensures RecvBook(u, H.Next(u, m, H.ToReceiver(env)).value, given)
  {
    H.ReceiverReads(u, m.toRecv[0].doc);
  }

  lemma ListBook(u: H.Setup, m: H.Sys, env: RM.Env, given: seq<string>)
    requires H.Wired(u) && m.r.phase == RM.WaitFileList && m.r.linked && m.r.tokens == map[] && RecvBook(u, m, given)
    requires m.toRecv == [SayChunked(ToDoc(FileList("OK", u.scfg.files)))] && H.HonestReceiver(env)
    ensures RecvBook(u, H.Next(u, m, H.ToReceiver(env)).value, given)
  {
    H.ReceiverReads(u, m.toRecv[0].doc);
    H.OfferIsAnswered(u, m.r, m.toRecv[0].doc, env);
  }

  lemma StatusBook(u: H.Setup, m: H.Sys, env: RM.Env, given: seq<string>, status: string)
    requires H.Wired(u) && m.r.phase == RM.WaitFileList && RecvBook(u, m, given)
    requires status == "PIN_REQUIRED" || status == "TOO_MANY_ATTEMPTS"
    requires m.toRecv == [SayChunked(ToDoc(FileList(status, [])))]
    ensures RecvBook(u, H.Next(u, m, H.ToReceiver(env)).value, given)
  {
    H.ReceiverReads(u, m.toRecv[0].doc);
    ParseRecognises(FileList(status, []));
  }

  lemma RecvBookReceives(u: H.Setup, m: H.Sys, env: RM.Env, given: seq<string>)
    requires H.Wired(u) && H.Inv(u, m) && H.HonestReceiver(env) && m.toRecv != [] && RecvBook(u, m, given)
    ensures RecvBook(u, H.Next(u, m, H.ToReceiver(env)).value, given)
  {
    if H.Closing(u, m) {
      StatusBook(u, m, env, given, "TOO_MANY_ATTEMPTS");
    } else if H.SenderNonceSent(u, m) {
      NonceBook(u, m, env, given);
    } else if H.TokenSent(m) {
      TokenBook(u, m, env, given);
    } else if H.SenderAnswersPin(m) {
      PinBook(u, m, env, given);
    } else if H.SenderAsksPin(m) {
      StatusBook(u, m, env, given, "PIN_REQUIRED");
    } else {
      ListBook(u, m, env, given);
    }
  }

  /** What the receiver is given by the sender's next action. */
  function GivenToReceiver(asked: bool, a: H.Action): seq<string> {
    if asked && a.ToSender? then [a.senv.pinAnswer] else []
  }

  function GivenToSender(asked: bool, a: H.Action): seq<string> {
    if asked && a.ToReceiver? then [a.renv.pinAnswer] else []
  }

  lemma RecvBookSends(u: H.Setup, m: H.Sys, env: SM.Env, given: seq<string>)
    requires H.Wired(u) && H.Inv(u, m) && env.sendOk && m.toSend != [] && RecvBook(u, m, given)
    ensures RecvBook(u, H.Next(u, m, H.ToSender(env)).value,
                     given + GivenToReceiver(m.r.phase == RM.WaitPin, H.ToSender(env)))
  {
    if m.r.phase == RM.WaitPin {
      H.ReceiverReads(u, m.toSend[0].doc);
      AnswerIsGiven(u.rcfg.pin, given, m.r.hs.pinAttempts, env.pinAnswer);
    } else {
      assert given + [] == given;
    }
  }

  // --------------------------------------------------- the PIN the sender requires

  lemma SatisfiedBook(u: H.Setup, m: H.Sys, env: SM.Env, given: seq<string>)
    requires H.Wired(u) && H.Fresh(m) && H.ReceiverSatisfied(m) && env.sendOk && SendBook(u, m, given)
    ensures SendBook(u, H.Next(u, m, H.ToSender(env)).value, given)
  {
    H.ReceiverReads(u, m.toSend[0].doc);
  }

  lemma EarlyBook(u: H.Setup, m: H.Sys, env: SM.Env, given: seq<string>)
    requires H.Wired(u) && H.Fresh(m) && env.sendOk && SendBook(u, m, given)
    requires H.ReceiverNonceSent(u, m) || H.ReceiverAsksPin(m) || H.ReceiverGaveUp(m)
    requires m.s.hs.requiredAttempts == 0
    ensures SendBook(u, H.Next(u, m, H.ToSender(env)).value, given)
  {
    H.ReceiverReads(u, m.toSend[0].doc);
  }

  lemma RequiredPinBook(u: H.Setup, m: H.Sys, env: SM.Env, given: seq<string>)
    requires H.Wired(u) && H.Fresh(m) && H.ReceiverAnswersPin(m) && env.sendOk && SendBook(u, m, given)
    ensures SendBook(u, H.Next(u, m, H.ToSender(env)).value, given)
  {
    H.ReceiverReads(u, m.toSend[0].doc);
    ParseRecognises(Pin(given[|given| - 1]));
    AnswerCounts(u.scfg.requiredPin, given, m.s.hs.requiredAttempts);
  }

  lemma AnswerBook(u: H.Setup, m: H.Sys, env: SM.Env, given: seq<string>)
    requires H.Wired(u) && m.s.phase == SM.WaitFileAccept && |m.toSend| == 1 && SendBook(u, m, given)
    requires H.Fresh(m) || H.Closing(u, m)
    requires H.ReceiverDeclines(m) || H.ReceiverAccepts(u, m)
    ensures SendBook(u, H.Next(u, m, H.ToSender(env)).value, given)
  {
    H.ReceiverReads(u, m.toSend[0].doc);
  }

  lemma SendBookSends(u: H.Setup, m: H.Sys, env: SM.Env, given: seq<string>)
    requires H.Wired(u) && H.Inv(u, m) && env.sendOk && m.toSend != [] && SendBook(u, m, given)
    ensures SendBook(u, H.Next(u, m, H.ToSender(env)).value, given)
  {
    if H.Closing(u, m) || H.ReceiverDeclines(m) {
      AnswerBook(u, m, env, given);
    } else if H.ReceiverSatisfied(m) {
      SatisfiedBook(u, m, env, given);
    } else if H.ReceiverAnswersPin(m) {
      RequiredPinBook(u, m, env, given);
    } else {
      EarlyBook(u, m, env, given);
    }
  }

  lemma RequestBook(u: H.Setup, m: H.Sys, env: RM.Env, given: seq<string>)
    requires H.Wired(u) && H.Fresh(m) && H.Agreed(m) && H.SenderAsksPin(m) && SendBook(u, m, given)
    ensures SendBook(u, H.Next(u, m, H.ToReceiver(env)).value, given + [env.pinAnswer])
  {
    H.ReceiverReads(u, m.toRecv[0].doc);
    ParseRecognises(FileList("PIN_REQUIRED", []));
    AnswerIsGiven(u.scfg.requiredPin, given, m.s.hs.requiredAttempts, env.pinAnswer);
  }

  lemma SenderUntouched(u: H.Setup, m: H.Sys, env: RM.Env)
    requires m.toRecv != [] && H.Next(u, m, H.ToReceiver(env)).Some?
    ensures H.Next(u, m, H.ToReceiver(env)).value.s == m.s
  {}

  lemma SendBookReceives(u: H.Setup, m: H.Sys, env: RM.Env, given: seq<string>)
    requires H.Wired(u) && H.Inv(u, m) && H.HonestReceiver(env) && m.toRecv != [] && SendBook(u, m, given)
    ensures SendBook(u, H.Next(u, m, H.ToReceiver(env)).value,
                     given + GivenToSender(m.s.phase == SM.WaitRequiredPin, H.ToReceiver(env)))
  {
    if m.s.phase == SM.WaitRequiredPin {
      RequestBook(u, m, env, given);
    } else {
      H.ReceiverReads(u, m.toRecv[0].doc);
      SenderUntouched(u, m, env);
      assert given + [] == given;
    }
  }

  // ------------------------------------------------------------- frames and runs

  /** Both books are kept, whatever has become of the last message. */
  ghost predicate Books(u: H.Setup, m: H.Sys, y: F.Sys, recv: seq<string>, send: seq<string>) {
    F.Going(u, m, y) && F.Mirrors(m, y) && RecvBook(u, m, recv) && SendBook(u, m, send)
  }

  /** What each side is given by one action. */
  function ToRecv(y: F.Sys, a: H.Action): seq<string> {
    GivenToReceiver(y.r.phase == RM.WaitPin, a)
  }

  function ToSend(y: F.Sys, a: H.Action): seq<string> {
    GivenToSender(y.s.phase == SM.WaitRequiredPin && |y.toRecv| == 1, a)
  }

  /** The PINs that are handed over in a run, to the receiver and to the sender: the sender's
      answers while the receiver waits for one, and the receiver's while the sender does, given
      when the last frame of the request arrives. */
  function PinsToReceiver(u: H.Setup, y: F.Sys, actions: seq<H.Action>): seq<string>
    requires F.Run(u, y, actions).Some?
    decreases |actions|
  {
    if actions == [] then []
    else ToRecv(y, actions[0]) + PinsToReceiver(u, F.Next(u, y, actions[0]).value, actions[1..])
  }

  function PinsToSender(u: H.Setup, y: F.Sys, actions: seq<H.Action>): seq<string>
    requires F.Run(u, y, actions).Some?
    decreases |actions|
  {
    if actions == [] then []
    else ToSend(y, actions[0]) + PinsToSender(u, F.Next(u, y, actions[0]).value, actions[1..])
  }

  /** On course the frames in flight are those of the messages. */
  lemma SameStages(u: H.Setup, m: H.Sys, y: F.Sys)
    requires F.OnCourse(u, m, y)
    ensures y.toRecv != [] <==> m.toRecv != []
    ensures y.toSend != [] <==> m.toSend != []
    ensures RecvStage(u.rcfg.pin, y.r, y.toRecv != []) == RecvStage(u.rcfg.pin, m.r, m.toRecv != [])
    ensures SendStage(u.scfg.requirePin, y.s, y.toSend != []) == SendStage(u.scfg.requirePin, m.s, m.toSend != [])
  {
    F.OneMessage(u, m);
    if m.toRecv != [] && m.toRecv[0].SayChunked? {
      F.HalfwayHasFrames(u.rcfg.codec.marshal(m.toRecv[0].doc), y.r.control, y.toRecv);
    }
    if m.toSend != [] && m.toSend[0].SayChunked? {
      F.HalfwayHasFrames(u.rcfg.codec.marshal(m.toSend[0].doc), y.s.control, y.toSend);
    }
  }

  lemma PinRequestIsShort(u: H.Setup, m: H.Sys, y: F.Sys, env: RM.Env)
    requires F.Framed(u) && F.OnCourse(u, m, y) && m.s.phase == SM.WaitRequiredPin && y.toRecv != []
    ensures F.Completes(u, m, y, H.ToReceiver(env)) <==> |y.toRecv| == 1
  {
    SameStages(u, m, y);
    F.OneMessage(u, m);
  }

  lemma PinAnswerIsText(u: H.Setup, m: H.Sys, y: F.Sys, env: SM.Env)
    requires F.OnCourse(u, m, y) && m.r.phase == RM.WaitPin && y.toSend != []
    ensures F.Completes(u, m, y, H.ToSender(env))
  {
    SameStages(u, m, y);
    F.OneMessage(u, m);
  }

  lemma BooksReceive(u: H.Setup, m: H.Sys, y: F.Sys, env: RM.Env, recv: seq<string>, send: seq<string>)
    returns (m1: H.Sys)
    requires F.Framed(u) && F.OnCourse(u, m, y) && Books(u, m, y, recv, send) && H.HonestReceiver(env) && y.toRecv != []
    ensures F.Next(u, y, H.ToReceiver(env)).Some?
    ensures Books(u, m1, F.Next(u, y, H.ToReceiver(env)).value, recv,
                  send + GivenToSender(y.s.phase == SM.WaitRequiredPin && |y.toRecv| == 1, H.ToReceiver(env)))
  {
    SameStages(u, m, y);
    m1 := F.ReceiverFrame(u, m, y, env);
    if y.s.phase == SM.WaitRequiredPin {
      PinRequestIsShort(u, m, y, env);
    }
    if F.Completes(u, m, y, H.ToReceiver(env)) {
      RecvBookReceives(u, m, env, recv);
      SendBookReceives(u, m, env, send);
    } else {
      assert send + [] == send;
    }
  }

  lemma BooksSend(u: H.Setup, m: H.Sys, y: F.Sys, env: SM.Env, recv: seq<string>, send: seq<string>)
    returns (m1: H.Sys)
    requires F.Framed(u) && F.OnCourse(u, m, y) && Books(u, m, y, recv, send) && env.sendOk && y.toSend != []
    ensures F.Next(u, y, H.ToSender(env)).Some?
    ensures Books(u, m1, F.Next(u, y, H.ToSender(env)).value,
                  recv + GivenToReceiver(y.r.phase == RM.WaitPin, H.ToSender(env)), send)
  {
    SameStages(u, m, y);
    m1 := F.SenderFrame(u, m, y, env);
    if y.r.phase == RM.WaitPin {
      PinAnswerIsText(u, m, y, env);
    }
    if F.Completes(u, m, y, H.ToSender(env)) {
      RecvBookSends(u, m, env, recv);
      SendBookSends(u, m, env, send);
    } else {
      assert recv + [] == recv;
    }
  }

  lemma BooksStep(u: H.Setup, m: H.Sys, y: F.Sys, a: H.Action, recv: seq<string>, send: seq<string>)
    returns (m1: H.Sys)
    requires F.Framed(u) && Books(u, m, y, recv, send) && H.Honest(a) && F.Next(u, y, a).Some?
    ensures Books(u, m1, F.Next(u, y, a).value, recv + ToRecv(y, a), send + ToSend(y, a))
  {
    match a {
      case ToReceiver(env) =>
        m1 := BooksReceive(u, m, y, env, recv, send);
        assert recv + [] == recv;
      case ToSender(env) =>
        m1 := BooksSend(u, m, y, env, recv, send);
        assert send + [] == send;
    }
  }

  lemma {:induction false} PinsFollow(u: H.Setup, y: F.Sys, actions: seq<H.Action>)
    requires actions != [] && F.Run(u, y, actions).Some?
    ensures F.Next(u, y, actions[0]).Some?
    ensures F.Run(u, F.Next(u, y, actions[0]).value, actions[1..]) == F.Run(u, y, actions)
    ensures var y1 := F.Next(u, y, actions[0]).value;
            && PinsToReceiver(u, y, actions) == ToRecv(y, actions[0]) + PinsToReceiver(u, y1, actions[1..])
            && PinsToSender(u, y, actions) == ToSend(y, actions[0]) + PinsToSender(u, y1, actions[1..])
  {}

  lemma Assoc(a: seq<string>, b: seq<string>, c: seq<string>)
    ensures a + b + c == a + (b + c)
  {}

  lemma {:induction false} RunKeepsBooks(u: H.Setup, m: H.Sys, y: F.Sys, actions: seq<H.Action>, recv: seq<string>,
                                         send: seq<string>) returns (m1: H.Sys)
    requires F.Framed(u) && Books(u, m, y, recv, send) && (forall a | a in actions :: H.Honest(a))
    requires F.Run(u, y, actions).Some?
    ensures Books(u, m1, F.Run(u, y, actions).value,
                  recv + PinsToReceiver(u, y, actions), send + PinsToSender(u, y, actions))
    decreases |actions|
  {
    if actions == [] {
      m1 := m;
      assert recv + [] == recv && send + [] == send;
    } else {
      var a, rest := actions[0], actions[1..];
      assert a in actions;
      PinsFollow(u, y, actions);
      var y1, g, h := F.Next(u, y, a).value, ToRecv(y, a), ToSend(y, a);
      m1 := BooksStep(u, m, y, a, recv, send);
      m1 := RunKeepsBooks(u, m1, y1, rest, recv + g, send + h);
      Assoc(recv, g, PinsToReceiver(u, y1, rest));
      Assoc(send, h, PinsToSender(u, y1, rest));
    }
  }

  ghost predicate RecvKept(u: H.Setup, y: F.Sys, given: seq<string>) {
    var stage := RecvStage(u.rcfg.pin, y.r, y.toRecv != []);
    && Ledger(u.rcfg.pin, given, y.r.hs.pinAttempts, stage)
    && (u.rcfg.pin == "" ==> stage == NotAsked) && y.r.phase != RM.ReceivingFiles
  }

  ghost predicate SendKept(u: H.Setup, y: F.Sys, given: seq<string>) {
    var stage := SendStage(u.scfg.requirePin, y.s, y.toSend != []);
    && Ledger(u.scfg.requiredPin, given, y.s.hs.requiredAttempts, stage)
    && (!u.scfg.requirePin ==> stage == NotAsked)
  }

  /** What the books say of a state that was reached. */
  lemma BooksMean(u: H.Setup, m: H.Sys, y: F.Sys, recv: seq<string>, send: seq<string>)
    requires Books(u, m, y, recv, send)
    ensures RecvKept(u, y, recv) && SendKept(u, y, send)
  {
    if F.OnCourse(u, m, y) {
      SameStages(u, m, y);
    }
  }

  lemma StartBooks(u: H.Setup, nonce: bytes, r: RM.Recv)
    requires F.Framed(u) && |nonce| == H.NONCE_SIZE && H.Opened(r)
    ensures Books(u, H.Start(u, nonce, r), F.Start(u, nonce, r), [], [])
  {
    F.StartGoes(u, nonce, r);
  }

  /** Both ledgers after any run. */
  lemma LedgersOfRun(u: H.Setup, nonce: bytes, r: RM.Recv, actions: seq<H.Action>)
    requires F.Framed(u) && |nonce| == H.NONCE_SIZE && H.Opened(r)
    requires (forall a | a in actions :: H.Honest(a)) && F.Run(u, F.Start(u, nonce, r), actions).Some?
    ensures var y := F.Run(u, F.Start(u, nonce, r), actions).value;
            && RecvKept(u, y, PinsToReceiver(u, F.Start(u, nonce, r), actions))
            && SendKept(u, y, PinsToSender(u, F.Start(u, nonce, r), actions))
  {
    var start := F.Start(u, nonce, r);
    StartBooks(u, nonce, r);
    var m := RunKeepsBooks(u, H.Start(u, nonce, r), start, actions, [], []);
    var recv, send := PinsToReceiver(u, start, actions), PinsToSender(u, start, actions);
    assert [] + recv == recv && [] + send == send;
    BooksMean(u, m, F.Run(u, start, actions).value, recv, send);
  }

  // -------------------------------------------------------------------- verdicts

  /** The receiver has let the sender on. */
  predicate Passed(r: RM.Recv) {
    r.phase == RM.WaitFileList || r.phase == RM.WaitFiles || (r.phase == RM.Done && r.hs.pinAttempts < MAX_PIN_ATTEMPTS)
  }

  /** Answers that have arrived: all but one that is still on its way. */
  function Heard(given: seq<string>, onItsWay: bool): seq<string> {
    if onItsWay && given != [] then given[..|given| - 1] else given
  }

  /** Over every run of the handshake, frame by frame, with a receiver that has a PIN: it lets the
      sender on exactly if one of the answers that have arrived is that PIN; it has counted every
      other answer; it has given up exactly if three have arrived and none is right; and nothing is
      asked after the right one. A receiver without a PIN asks for none. */
  lemma ReceiverPinDecides(u: H.Setup, nonce: bytes, r: RM.Recv, actions: seq<H.Action>)
    requires F.Framed(u) && |nonce| == H.NONCE_SIZE && H.Opened(r)
    requires (forall a | a in actions :: H.Honest(a)) && F.Run(u, F.Start(u, nonce, r), actions).Some?
    ensures var y := F.Run(u, F.Start(u, nonce, r), actions).value;
            var given := PinsToReceiver(u, F.Start(u, nonce, r), actions);
            var heard := Heard(given, y.r.phase == RM.WaitPin && y.toRecv != []);
            if u.rcfg.pin == "" then given == [] && y.r.phase != RM.WaitPin && y.r.hs.pinAttempts == 0
            else
              && (Passed(y.r) <==> u.rcfg.pin in heard)
              && y.r.hs.pinAttempts == |heard| - (if u.rcfg.pin in heard then 1 else 0)
              && (y.r.phase == RM.Done && y.r.hs.pinAttempts == 3 <==> |heard| == 3 && u.rcfg.pin !in heard)
              && (forall i | 0 <= i < |given| - 1 :: given[i] != u.rcfg.pin)
  {
    LedgersOfRun(u, nonce, r, actions);
    var y := F.Run(u, F.Start(u, nonce, r), actions).value;
    RecvVerdict(u, y, PinsToReceiver(u, F.Start(u, nonce, r), actions));
  }

  lemma RecvVerdict(u: H.Setup, y: F.Sys, given: seq<string>)
    requires RecvKept(u, y, given)
    ensures var heard := Heard(given, y.r.phase == RM.WaitPin && y.toRecv != []);
            if u.rcfg.pin == "" then given == [] && y.r.phase != RM.WaitPin && y.r.hs.pinAttempts == 0
            else
              && (Passed(y.r) <==> u.rcfg.pin in heard)
              && y.r.hs.pinAttempts == |heard| - (if u.rcfg.pin in heard then 1 else 0)
              && (y.r.phase == RM.Done && y.r.hs.pinAttempts == 3 <==> |heard| == 3 && u.rcfg.pin !in heard)
              && (forall i | 0 <= i < |given| - 1 :: given[i] != u.rcfg.pin)
  {
    var stage := RecvStage(u.rcfg.pin, y.r, y.toRecv != []);
    assert stage == Answered || stage == Right ==>
          forall i | 0 <= i < |given| - 1 :: given[..|given| - 1][i] == given[i];
  }

  /** The sender has offered its files. */
  predicate OfferMade(s: SM.Send) {
    s.phase == SM.WaitFileAccept || s.phase == SM.SendingFiles
  }

  /** And the same for a PIN that the sender requires: it offers its files exactly if one of the
      receiver's answers that have arrived is that PIN, counts every other, and fails exactly at
      the third wrong one. */
  lemma SenderPinDecides(u: H.Setup, nonce: bytes, r: RM.Recv, actions: seq<H.Action>)
    requires F.Framed(u) && |nonce| == H.NONCE_SIZE && H.Opened(r)
    requires (forall a | a in actions :: H.Honest(a)) && F.Run(u, F.Start(u, nonce, r), actions).Some?
    ensures var y := F.Run(u, F.Start(u, nonce, r), actions).value;
            var given := PinsToSender(u, F.Start(u, nonce, r), actions);
            var heard := Heard(given, y.s.phase == SM.WaitRequiredPin && y.toSend != []);
            if !u.scfg.requirePin then given == [] && y.s.phase != SM.WaitRequiredPin && y.s.hs.requiredAttempts == 0
            else
              && (OfferMade(y.s) <==> u.scfg.requiredPin in heard)
              && y.s.hs.requiredAttempts == |heard| - (if u.scfg.requiredPin in heard then 1 else 0)
              && (y.s.phase == SM.Done && y.s.hs.requiredAttempts == 3 <==>
                    |heard| == 3 && u.scfg.requiredPin !in heard)
              && (forall i | 0 <= i < |given| - 1 :: given[i] != u.scfg.requiredPin)
  {
    LedgersOfRun(u, nonce, r, actions);
    var y := F.Run(u, F.Start(u, nonce, r), actions).value;
    SendVerdict(u, y, PinsToSender(u, F.Start(u, nonce, r), actions));
  }

  lemma SendVerdict(u: H.Setup, y: F.Sys, given: seq<string>)
    requires SendKept(u, y, given)
    ensures var heard := Heard(given, y.s.phase == SM.WaitRequiredPin && y.toSend != []);
            if !u.scfg.requirePin then given == [] && y.s.phase != SM.WaitRequiredPin && y.s.hs.requiredAttempts == 0
            else
              && (OfferMade(y.s) <==> u.scfg.requiredPin in heard)
              && y.s.hs.requiredAttempts == |heard| - (if u.scfg.requiredPin in heard then 1 else 0)
              && (y.s.phase == SM.Done && y.s.hs.requiredAttempts == 3 <==>
                    |heard| == 3 && u.scfg.requiredPin !in heard)
              && (forall i | 0 <= i < |given| - 1 :: given[i] != u.scfg.requiredPin)
  {
    var stage := SendStage(u.scfg.requirePin, y.s, y.toSend != []);
    assert stage == Answered || stage == Right ==>
          forall i | 0 <= i < |given| - 1 :: given[..|given| - 1][i] == given[i];
  }

  /** What is handed over is what the users answer. */
  lemma {:induction false} ReceiverIsGiven(u: H.Setup, y: F.Sys, actions: seq<H.Action>, good: string -> bool)
    requires F.Run(u, y, actions).Some? && forall a | a in actions && a.ToSender? :: good(a.senv.pinAnswer)
    ensures forall i | 0 <= i < |PinsToReceiver(u, y, actions)| :: good(PinsToReceiver(u, y, actions)[i])
    decreases |actions|
  {
    if actions != [] {
      PinsFollow(u, y, actions);
      assert actions[0] in actions;
      ReceiverIsGiven(u, F.Next(u, y, actions[0]).value, actions[1..], good);
    }
  }

  lemma {:induction false} SenderIsGiven(u: H.Setup, y: F.Sys, actions: seq<H.Action>, good: string -> bool)
    requires F.Run(u, y, actions).Some? && forall a | a in actions && a.ToReceiver? :: good(a.renv.pinAnswer)
    ensures forall i | 0 <= i < |PinsToSender(u, y, actions)| :: good(PinsToSender(u, y, actions)[i])
    decreases |actions|
  {
    if actions != [] {
      PinsFollow(u, y, actions);
      assert actions[0] in actions;
      SenderIsGiven(u, F.Next(u, y, actions[0]).value, actions[1..], good);
    }
  }

  /** What this comes to for the person at the sender: someone who does not know the receiver's PIN
      is never let on, whatever else happens. */
  lemma WithoutThePin(u: H.Setup, nonce: bytes, r: RM.Recv, actions: seq<H.Action>)
    requires F.Framed(u) && |nonce| == H.NONCE_SIZE && H.Opened(r) && u.rcfg.pin != ""
    requires (forall a | a in actions :: H.Honest(a)) && F.Run(u, F.Start(u, nonce, r), actions).Some?
    requires forall a | a in actions && a.ToSender? :: a.senv.pinAnswer != u.rcfg.pin
    ensures var r1 := F.Run(u, F.Start(u, nonce, r), actions).value.r;
            r1.phase != RM.WaitFileList && r1.phase != RM.WaitFiles
  {
    var start, pin := F.Start(u, nonce, r), u.rcfg.pin;
    ReceiverPinDecides(u, nonce, r, actions);
    ReceiverIsGiven(u, start, actions, p => p != pin);
    assert forall onItsWay :: pin !in Heard(PinsToReceiver(u, start, actions), onItsWay);
  }

  /** And someone who does is let on without a single wrong attempt, before the handshake rests. */
  lemma WithThePin(u: H.Setup, nonce: bytes, r: RM.Recv, actions: seq<H.Action>)
    requires F.Framed(u) && |nonce| == H.NONCE_SIZE && H.Opened(r) && u.rcfg.pin != ""
    requires (forall a | a in actions :: H.Honest(a)) && F.Run(u, F.Start(u, nonce, r), actions).Some?
    requires forall a | a in actions && a.ToSender? :: a.senv.pinAnswer == u.rcfg.pin
    ensures var y := F.Run(u, F.Start(u, nonce, r), actions).value;
            y.r.hs.pinAttempts == 0 && (F.AtRest(y) ==> Passed(y.r))
  {
    var start, pin := F.Start(u, nonce, r), u.rcfg.pin;
    ReceiverPinDecides(u, nonce, r, actions);
    ReceiverIsGiven(u, start, actions, p => p == pin);
    AlwaysRight(pin, PinsToReceiver(u, start, actions));
    RestIsPassed(u, nonce, r, actions);
  }

  /** Someone at the receiver who does not know the PIN the sender requires never sees its files. */
  lemma WithoutTheRequiredPin(u: H.Setup, nonce: bytes, r: RM.Recv, actions: seq<H.Action>)
    requires F.Framed(u) && |nonce| == H.NONCE_SIZE && H.Opened(r) && u.scfg.requirePin
    requires (forall a | a in actions :: H.Honest(a)) && F.Run(u, F.Start(u, nonce, r), actions).Some?
    requires forall a | a in actions && a.ToReceiver? :: a.renv.pinAnswer != u.scfg.requiredPin
    ensures !OfferMade(F.Run(u, F.Start(u, nonce, r), actions).value.s)
  {
    var start, pin := F.Start(u, nonce, r), u.scfg.requiredPin;
    SenderPinDecides(u, nonce, r, actions);
    SenderIsGiven(u, start, actions, p => p != pin);
    assert forall onItsWay :: pin !in Heard(PinsToSender(u, start, actions), onItsWay);
  }

  lemma RestIsPassed(u: H.Setup, nonce: bytes, r: RM.Recv, actions: seq<H.Action>)
    requires F.Framed(u) && |nonce| == H.NONCE_SIZE && H.Opened(r)
    requires (forall a | a in actions :: H.Honest(a)) && F.Run(u, F.Start(u, nonce, r), actions).Some?
    ensures var y := F.Run(u, F.Start(u, nonce, r), actions).value;
            F.AtRest(y) ==> Passed(y.r) || y.r.hs.pinAttempts >= MAX_PIN_ATTEMPTS
  {
    F.EveryHandshakeEndsIff(u, nonce, r, actions, 0);
  }

  /** Answers that are all right end with the first. */
  lemma AlwaysRight(pin: string, given: seq<string>)
    requires forall i | 0 <= i < |given| :: given[i] == pin
    requires forall i | 0 <= i < |given| - 1 :: given[i] != pin
    ensures given == [] || given == [pin]
  {
    assert given != [] ==> given[0] == pin;
  }
}
