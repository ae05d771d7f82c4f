/** The handshake, frame by frame, and the transfer that follows it: the pieces fit. */
module WholeSession {
  import opened Base
  import opened RtcProtocol
  import opened Framing
  import SM = SenderModel
  import RM = ReceiverModel
  import H = HandshakeSystem
  import F = HandshakeFrames
  import T = TransferSystem
  import Safety = TransferSafety
  import Progress = TransferProgress
  import Sender

  // -------------------------------------------------- the handshake and the disk

  lemma FrameKeepsDisk(cfg: RM.Config, before: map<Path, bytes>, r: RM.Recv, f: Frame, env: RM.Env)
    requires RM.Invariant(cfg, before, r) && RM.Deliverable(f) && r.cur == None
    ensures var r1 := RM.RecvFrame(cfg, r, f, env).0;
            RM.Invariant(cfg, before, r1) && r1.saved == r.saved && r1.disk == r.disk
  {
    RM.FrameKeepsInvariant(cfg, before, r, f, env);
    var (control, message) := Reassemble(r.control, f);
    if message.Some? {
      RM.TextKeepsSession(cfg, r.(control := control), message.value, env);
    }
  }

  /** No handshake touches the disk or reports a saved file. */
  lemma {:induction false} HandshakeKeepsDisk(u: H.Setup, before: map<Path, bytes>, m: H.Sys, y: F.Sys,
                                              actions: seq<H.Action>)
    requires F.Framed(u) && F.Going(u, m, y) && (forall a | a in actions :: H.Honest(a)) && F.Run(u, y, actions).Some?
    requires RM.Invariant(u.rcfg, before, y.r)
    ensures var r1 := F.Run(u, y, actions).value.r;
            RM.Invariant(u.rcfg, before, r1) && r1.saved == y.r.saved && r1.disk == y.r.disk
    decreases |actions|
  {
    if actions != [] {
      assert actions[0] in actions;
      var y1 := F.Next(u, y, actions[0]).value;
      F.CourseHasNoFile(u, m, y);
      if actions[0].ToReceiver? {
        FrameKeepsDisk(u.rcfg, before, y.r, y.toRecv[0], actions[0].renv);
      }
      var m1 := F.StepGoes(u, m, y, actions[0]);
      HandshakeKeepsDisk(u, before, m1, y1, actions[1..]);
    }
  }

  // ------------------------------------------------------ handshake, then transfer

  /** The sender offers its local files truthfully. */
  ghost predicate Truthful(u: H.Setup, files: seq<Sender.FileMeta>) {
    && |u.scfg.files| == |files| && (forall i | 0 <= i < |files| :: u.scfg.files[i] == files[i].dto)
    && forall f | f in files ::
         && f.dto.id != "" && f.dto.size as int == |f.content|
         && (f.dto.sha256 == "" || f.dto.sha256 == u.rcfg.sha(f.content))
  }

  lemma {:induction false} SameFile(dtos: seq<FileDto>, files: seq<Sender.FileMeta>, id: string)
    requires |dtos| == |files| && forall i | 0 <= i < |files| :: dtos[i] == files[i].dto
    ensures RM.FindFile(dtos, id).Some? <==> Sender.FindMeta(files, id).Some?
    ensures Sender.FindMeta(files, id).Some? ==>
              && RM.FindFile(dtos, id).value == Sender.FindMeta(files, id).value.dto
              && Sender.FindMeta(files, id).value in files
  {
    if files == [] {
    } else {
      SameFile(dtos[1..], files[1..], id);
    }
  }

  /** A handshake, frame by frame, that ended in acceptance. */
  ghost predicate Accepted(u: H.Setup, nonce: bytes, r: RM.Recv, actions: seq<H.Action>) {
    && F.Framed(u) && |nonce| == H.NONCE_SIZE && H.Opened(r)
    && (forall a | a in actions :: H.Honest(a)) && F.Run(u, F.Start(u, nonce, r), actions).Some?
    && var y := F.Run(u, F.Start(u, nonce, r), actions).value;
       F.Ended(u, y) && y.s.phase == SM.SendingFiles
  }

  /** What such a handshake leaves to the transfer. */
  function Left(u: H.Setup, nonce: bytes, r: RM.Recv, actions: seq<H.Action>): (y: F.Sys)
    requires F.Run(u, F.Start(u, nonce, r), actions).Some?
  {
    F.Run(u, F.Start(u, nonce, r), actions).value
  }

  function Transfer(u: H.Setup, tokens: map<string, string>, files: seq<Sender.FileMeta>, ids: seq<string>): T.Setup {
    T.Setup(u.rcfg, u.scfg, Sender.SendQueue(ids, tokens, files))
  }

  /** When a handshake ends in acceptance, the transfer starts from a state in which every
      accepted file can be sent: the receiver is ready for the first header, and each item
      SendFiles queues carries a token the receiver will take and bytes of the size and
      checksum it expects. The list and the answer fitted the control buffer. */
  lemma AcceptanceStartsTransfer(u: H.Setup, before: map<Path, bytes>, nonce: bytes, r: RM.Recv, actions: seq<H.Action>,
                                 files: seq<Sender.FileMeta>, ids: seq<string>)
    requires Accepted(u, nonce, r, actions) && RM.Invariant(u.rcfg, before, r) && Truthful(u, files)
    ensures var y := Left(u, nonce, r, actions);
            && F.ListFits(u) && F.AnswerFits(u, y.r.tokens) && y.s.accepted == Some(y.r.tokens)
            && var t := Transfer(u, y.r.tokens, files, ids);
               && T.Wired(t) && Safety.Usable(t.q) && T.Ready(t, before, y.r, y.s)
               && Progress.Announced(t, y.r.tokens, y.r.files)
  {
    var y := Left(u, nonce, r, actions);
    F.StartGoes(u, nonce, r);
    var m := F.Reached(u, nonce, r, actions, F.Most(u, y.r.tokens));
    F.AcceptedIsClean(u, m, y);
    HandshakeKeepsDisk(u, before, H.Start(u, nonce, r), F.Start(u, nonce, r), actions);
    QueueIsAnnounced(u, H.Sys(y.s, y.r, [], []), files, ids);
  }

  /** From the first nonce to the last acknowledgement, frame by frame: whenever a handshake ended
      in acceptance, which takes a list and an answer that fit the control buffer, and SendFiles
      then returned nil, every accepted file the sender has is on the receiver's disk byte for
      byte, saved in order, and was acknowledged exactly once. */
  lemma SessionDelivers(u: H.Setup, before: map<Path, bytes>, nonce: bytes, r: RM.Recv, actions: seq<H.Action>,
                        files: seq<Sender.FileMeta>, ids: seq<string>, transfer: seq<T.Action>)
    requires Accepted(u, nonce, r, actions) && RM.Invariant(u.rcfg, before, r) && Truthful(u, files)
    requires var y := Left(u, nonce, r, actions);
             var end := Safety.Run(Transfer(u, y.r.tokens, files, ids), T.Start(y.r, y.s), transfer);
             end.Some? && end.value.outcome == T.ReturnedNil
    ensures var y := Left(u, nonce, r, actions);
            var t := Transfer(u, y.r.tokens, files, ids);
            var end := Safety.Run(t, T.Start(y.r, y.s), transfer).value;
            && F.ListFits(u) && F.AnswerFits(u, y.r.tokens)
            && Safety.AllOnDisk(t.q, |r.saved|, end.recv) && end.acks == Safety.GoodAcks(t.q, |t.q|)
  {
    AcceptanceStartsTransfer(u, before, nonce, r, actions, files, ids);
    F.StartGoes(u, nonce, r);
    HandshakeKeepsDisk(u, before, H.Start(u, nonce, r), F.Start(u, nonce, r), actions);
    var y := Left(u, nonce, r, actions);
    Safety.NilMeansDelivered(Transfer(u, y.r.tokens, files, ids), before, y.r, y.s, transfer);
  }

  /** Without PINs, and with files and tokens that fit, the whole session can only succeed or be
      declined: a handshake at rest has ended, and if it was accepted the transfer that follows,
      run without failures until nothing more can happen, delivers every accepted file. */
  lemma FittingSessionSucceeds(u: H.Setup, before: map<Path, bytes>, nonce: bytes, r: RM.Recv, actions: seq<H.Action>,
                               files: seq<Sender.FileMeta>, ids: seq<string>, transfer: seq<T.Action>, renv: RM.Env,
                               senv: SM.Env)
    requires F.Framed(u) && |nonce| == H.NONCE_SIZE && H.Opened(r) && RM.Invariant(u.rcfg, before, r)
    requires Truthful(u, files)
    requires (forall a | a in actions :: H.Honest(a)) && F.Run(u, F.Start(u, nonce, r), actions).Some?
    requires var y := Left(u, nonce, r, actions);
             F.AtRest(y) && F.NoPins(u) && F.ListFits(u) && F.AnswerFits(u, y.r.tokens)
    ensures var y := Left(u, nonce, r, actions);
            && F.Ended(u, y)
            && (y.s.declined || Accepted(u, nonce, r, actions))
            && (Accepted(u, nonce, r, actions) ==>
                  var t := Transfer(u, y.r.tokens, files, ids);
                  Progress.FaultlessRun(t, T.Start(y.r, y.s), transfer) ==>
                    && Safety.Run(t, T.Start(y.r, y.s), transfer).Some?
                    && var end := Safety.Run(t, T.Start(y.r, y.s), transfer).value;
                       Progress.Stuck(t, end) ==>
                             end.outcome == T.ReturnedNil && Safety.AllOnDisk(t.q, |y.r.saved|, end.recv))
  {
    var y := Left(u, nonce, r, actions);
    var m := F.Reached(u, nonce, r, actions, F.Most(u, y.r.tokens));
    F.RestMeans(u, m, y);
    F.RunAsksNoPin(u, F.Start(u, nonce, r), actions);
    if Accepted(u, nonce, r, actions) {
      AcceptanceStartsTransfer(u, before, nonce, r, actions, files, ids);
      var t := Transfer(u, y.r.tokens, files, ids);
      if Progress.FaultlessRun(t, T.Start(y.r, y.s), transfer) {
        Progress.FaultlessRunsDeliver(t, before, y.r, y.s, transfer, renv, senv);
      }
    }
  }

  lemma QueueIsAnnounced(u: H.Setup, y: H.Sys, files: seq<Sender.FileMeta>, ids: seq<string>)
    requires H.WasAccepted(u, y) && Truthful(u, files)
    ensures var t := T.Setup(u.rcfg, u.scfg, Sender.SendQueue(ids, y.s.accepted.value, files));
            Safety.Usable(t.q) && Progress.Announced(t, y.r.tokens, y.r.files)
  {
    var tokens := y.r.tokens;
    Sender.QueueIsSendable(ids, tokens, files);
    var q := Sender.SendQueue(ids, tokens, files);
    forall it | it in q
      ensures it.id in tokens && it.id != "" && it.token != "" && tokens[it.id] == it.token
      ensures var meta := RM.FindFile(y.r.files, it.id);
              && meta.Some? && u.rcfg.safeName(meta.value) && meta.value.size as int == |it.content|
              && (meta.value.sha256 == "" || meta.value.sha256 == u.rcfg.sha(it.content))
    {
      SameFile(y.r.files, files, it.id);
      var f := Sender.FindMeta(files, it.id).value;
      assert f in files && f.dto.id == it.id;
    }
  }
}
