/** The wire form of errors, and the sender's retry loop against the receive session. */
module Retry {
  import opened Base
  import U = Uploads
  import R = RecvSession
  import Runs = UploadRuns
  import Rights = UploadRights

  // ------------------------------------------------------------- wire statuses

  datatype LsError =
    | ErrFinished | ErrInvalidBody | ErrRejected | ErrInvalidPIN | ErrBlockedByOthers | ErrUnknown | ErrTooManyReq
    | ErrTooManyFiles | ErrFileIO | ErrChecksum | ErrFingerprint | ErrNotFound | ErrTooManySessions

  function Status(e: Option<LsError>): int {
    match e
    case None => 200
    case Some(ErrFinished) => 204
    case Some(ErrInvalidBody) => 400
    case Some(ErrInvalidPIN) => 401
    case Some(ErrRejected) => 403
    case Some(ErrNotFound) => 404
    case Some(ErrBlockedByOthers) => 409
    case Some(ErrTooManyReq) => 429
    case Some(ErrChecksum) => 422
    case _ => 500
  }

  function ParseError(status: int): Option<LsError> {
    match status
    case 200 => None
    case 204 => Some(ErrFinished)
    case 400 => Some(ErrInvalidBody)
    case 401 => Some(ErrInvalidPIN)
    case 404 => Some(ErrNotFound)
    case 403 => Some(ErrRejected)
    case 409 => Some(ErrBlockedByOthers)
    case 429 => Some(ErrTooManyReq)
    case 422 => Some(ErrChecksum)
    case _ => Some(ErrUnknown)
  }

  /** Four errors have no status of their own and arrive as unknown; every other answer
      survives the wire. */
  lemma StatusRoundTrip(e: Option<LsError>)
    ensures ParseError(Status(e)) == e <==>
              && e != Some(ErrTooManyFiles) && e != Some(ErrFileIO) && e != Some(ErrFingerprint)
              && e != Some(ErrTooManySessions)
    ensures ParseError(Status(e)) != e ==> ParseError(Status(e)) == Some(ErrUnknown)
  {}

  function Wire(e: U.Error): Option<LsError> {
    match e
    case Ok => None
    case InvalidBody => Some(ErrInvalidBody)
    case Rejected => Some(ErrRejected)
    case FileIO => Some(ErrFileIO)
    case Checksum => Some(ErrChecksum)
  }

  // ------------------------------------------------------------------ retrying

  const MAX_UPLOAD_ATTEMPTS: nat := 3

  /** The receiver as the sender meets it. */
  datatype Peer = Peer(sess: U.Session, disk: map<Path, bytes>)

  /** What the world does to one file: the body read for each attempt, what file system and
      network do, and what others make of the receiver before the next attempt. */
  datatype World = World(body: nat -> bytes, env: nat -> U.Env, between: (nat, Peer) -> Peer)

  datatype Result = Result(error: Option<LsError>, peer: Peer, attempts: nat)

  function After(cfg: U.Config, p: Peer, req: U.Request, w: World, n: nat): R.Outcome {
    R.Attempt(cfg, p.sess, p.disk, req.(body := w.body(n)), w.env(n))
  }

  /** The loop from its `n`-th attempt on. */
  function Joint(cfg: U.Config, p: Peer, req: U.Request, w: World, n: nat): Result
    requires n < MAX_UPLOAD_ATTEMPTS
    decreases MAX_UPLOAD_ATTEMPTS - n
  {
    var o := After(cfg, p, req, w, n);
    var e := ParseError(Status(Wire(o.error)));
    if e != Some(ErrChecksum) || n + 1 == MAX_UPLOAD_ATTEMPTS then Result(e, Peer(o.sess, o.disk), n + 1)
    else Joint(cfg, w.between(n, Peer(o.sess, o.disk)), req, w, n + 1)
  }

  /** One request, and what the sender makes of the answer. */
  method SendFile(cfg: U.Config, sess: R.RecvSession, disk: R.Disk, req: U.Request, w: World, n: nat)
    returns (error: Option<LsError>)
    modifies sess, disk
    ensures var o := After(cfg, old(Peer(sess.State(), disk.content)), req, w, n);
            Peer(sess.State(), disk.content) == Peer(o.sess, o.disk) && error == ParseError(Status(Wire(o.error)))
  {
    var err := sess.SaveFile(cfg, disk, req.(body := w.body(n)), w.env(n));
    error := ParseError(Status(Wire(err)));
  }

  /** Between two attempts others use the receiver. */
  method Others(sess: R.RecvSession, disk: R.Disk, w: World, n: nat)
    modifies sess, disk
    ensures Peer(sess.State(), disk.content) == w.between(n, old(Peer(sess.State(), disk.content)))
  {
    var next := w.between(n, Peer(sess.State(), disk.content));
    sess.Become(next.sess);
    disk.Become(next.disk);
  }

  method SendFileWithRetry(cfg: U.Config, sess: R.RecvSession, disk: R.Disk, req: U.Request, w: World)
    returns (error: Option<LsError>, attempts: nat)
    modifies sess, disk
    ensures Result(error, Peer(sess.State(), disk.content), attempts) ==
            Joint(cfg, old(Peer(sess.State(), disk.content)), req, w, 0)
  {
    ghost var all := Joint(cfg, Peer(sess.State(), disk.content), req, w, 0);
    attempts := 0;
    while attempts < MAX_UPLOAD_ATTEMPTS
      invariant attempts < MAX_UPLOAD_ATTEMPTS && all == Joint(cfg, Peer(sess.State(), disk.content), req, w, attempts)
      decreases MAX_UPLOAD_ATTEMPTS - attempts
    {
      error := SendFile(cfg, sess, disk, req, w, attempts);
      attempts := attempts + 1;
      if error != Some(ErrChecksum) || attempts == MAX_UPLOAD_ATTEMPTS {
        return;
      }
      Others(sess, disk, w, attempts - 1);
    }
  }

  // -------------------------------------------------------------- both sides agree

  /** Others leave this file's entry and the session's identity alone, do not end the session,
      and do not create the path reserved for the file. */
  predicate Undisturbed(a: Peer, b: Peer, id: U.Id) {
    && b.sess.id == a.sess.id && b.sess.clientIP == a.sess.clientIP && b.sess.started == a.sess.started
    && b.sess.metas == a.sess.metas && b.sess.tokens == a.sess.tokens
    && id in a.sess.states && id in b.sess.states && b.sess.states[id] == a.sess.states[id]
    && var target := a.sess.states[id].target; (target.Some? && target.value !in a.disk ==> target.value !in b.disk)
  }

  /** Other uploads, interleaved in any way, do not disturb: if nobody claims the file, End is
      not called from outside and the reserved path stays free, the next attempt finds the
      receiver as the last one left it. */
  lemma OtherUploadsDoNotDisturb(cfg: U.Config, y: U.Sys, actions: seq<U.Action>, id: U.Id)
    requires U.Safe(cfg, y) && U.Run(cfg, y, actions).Some? && Runs.NobodyClaims(cfg, y, actions, id)
    requires id in y.sess.states && y.sess.states[id].status == U.Pending && y.sess.started
    requires var z := U.Run(cfg, y, actions).value;
             !z.h.killed && var target := y.sess.states[id].target; (target.Some? ==> target.value !in z.disk)
    ensures var z := U.Run(cfg, y, actions).value; Undisturbed(Peer(y.sess, y.disk), Peer(z.sess, z.disk), id)
  {
    Runs.PendingFileWaits(cfg, y, actions, id);
  }

  /** The receiver is ready for attempt `n` at a file, counting from zero. */
  predicate Expects(p: Peer, req: U.Request, w: World, n: nat) {
    && U.Entitled(p.sess, req)
    && p.sess.states[req.id].attempts == n
    && (if n == 0 then p.sess.states[req.id].target == None && w.env(0).path !in p.disk
        else p.sess.states[req.id].target.Some? && p.sess.states[req.id].target.value !in p.disk)
  }

  /** Bodies of the announced size, on a working system. */
  ghost predicate Sized(meta: U.Meta, w: World) {
    && 0 <= meta.size < 0x7fff_ffff_ffff_ffff
    && (forall i: nat :: |w.body(i)| == meta.size && Rights.Healthy(w.env(i)))
  }

  /** Between the attempts of this run nobody disturbs. */
  ghost predicate Gentle(cfg: U.Config, p: Peer, req: U.Request, w: World, n: nat)
    decreases MAX_UPLOAD_ATTEMPTS - n
  {
    n + 1 < MAX_UPLOAD_ATTEMPTS && After(cfg, p, req, w, n).error == U.Checksum ==>
      var o := After(cfg, p, req, w, n);
      var q := w.between(n, Peer(o.sess, o.disk));
      Undisturbed(Peer(o.sess, o.disk), q, req.id) && Gentle(cfg, q, req, w, n + 1)
  }

  /** What a healthy attempt with a body of the right length comes to: it ends the file exactly
      if the body matches or it was the third, and otherwise the receiver expects the next. */
  predicate AttemptEnds(cfg: U.Config, p: Peer, req: U.Request, w: World, n: nat, o: R.Outcome)
    requires req.id in p.sess.metas
  {
    && req.id in o.sess.states
    && var fs := o.sess.states[req.id];
       && fs.attempts == n + 1 && fs.target.Some?
       && (if U.Matches(cfg, p.sess.metas[req.id], w.body(n)) then
             o.error == U.Ok && fs.status == U.Finished && o.disk == p.disk[fs.target.value := w.body(n)]
           else
             && o.error == U.Checksum && o.disk == p.disk
             && fs.status == (if n + 1 < MAX_UPLOAD_ATTEMPTS then U.Pending else U.Failed)
             && (n + 1 < MAX_UPLOAD_ATTEMPTS ==>
                   Expects(Peer(o.sess, o.disk), req, w, n + 1) && o.sess.metas == p.sess.metas))
  }

  lemma HealthyAttempt(cfg: U.Config, p: Peer, req: U.Request, w: World, n: nat)
    requires n < MAX_UPLOAD_ATTEMPTS && Expects(p, req, w, n) && Sized(p.sess.metas[req.id], w)
    ensures AttemptEnds(cfg, p, req, w, n, After(cfg, p, req, w, n))
  {
    U.CopySucceedsIff(cfg, p.sess.metas[req.id], w.body(n));
  }

  /** The first attempt from `n` on whose body matches, or the last one allowed. */
  function StopsAfter(cfg: U.Config, meta: U.Meta, w: World, n: nat): nat
    requires n < MAX_UPLOAD_ATTEMPTS
    decreases MAX_UPLOAD_ATTEMPTS - n
  {
    if U.Matches(cfg, meta, w.body(n)) || n + 1 == MAX_UPLOAD_ATTEMPTS then n + 1 else StopsAfter(cfg, meta, w, n + 1)
  }

  /** How sender and receiver stand after the loop, entered at attempt `n`. */
  ghost predicate Agree(cfg: U.Config, meta: U.Meta, id: U.Id, w: World, n: nat, r: Result)
    requires n < MAX_UPLOAD_ATTEMPTS
  {
    && (r.error == None <==> exists i: nat :: n <= i < MAX_UPLOAD_ATTEMPTS && U.Matches(cfg, meta, w.body(i)))
    && (r.error.Some? ==> r.error == Some(ErrChecksum))
    && r.attempts == StopsAfter(cfg, meta, w, n) && 0 < r.attempts
    && id in r.peer.sess.states
    && var fs := r.peer.sess.states[id];
       && fs.attempts == r.attempts && fs.status == (if r.error == None then U.Finished else U.Failed)
       && (r.error == None ==>
             && fs.target.Some? && fs.target.value in r.peer.disk
             && r.peer.disk[fs.target.value] == w.body(r.attempts - 1))
  }

  lemma EndsHere(cfg: U.Config, p: Peer, req: U.Request, w: World, n: nat, o: R.Outcome)
    requires n < MAX_UPLOAD_ATTEMPTS && req.id in p.sess.metas && AttemptEnds(cfg, p, req, w, n, o)
    requires U.Matches(cfg, p.sess.metas[req.id], w.body(n)) || n + 1 == MAX_UPLOAD_ATTEMPTS
    ensures Agree(cfg, p.sess.metas[req.id], req.id, w, n,
                  Result(ParseError(Status(Wire(o.error))), Peer(o.sess, o.disk), n + 1))
  {}

  lemma GoesOn(cfg: U.Config, meta: U.Meta, id: U.Id, w: World, n: nat, r: Result)
    requires n + 1 < MAX_UPLOAD_ATTEMPTS && !U.Matches(cfg, meta, w.body(n)) && Agree(cfg, meta, id, w, n + 1, r)
    ensures Agree(cfg, meta, id, w, n, r)
  {}

  lemma JointSplits(cfg: U.Config, p: Peer, req: U.Request, w: World, n: nat)
    requires n < MAX_UPLOAD_ATTEMPTS
    ensures var o := After(cfg, p, req, w, n);
            var e := ParseError(Status(Wire(o.error)));
            Joint(cfg, p, req, w, n) ==
              if e != Some(ErrChecksum) || n + 1 == MAX_UPLOAD_ATTEMPTS then Result(e, Peer(o.sess, o.disk), n + 1)
              else Joint(cfg, w.between(n, Peer(o.sess, o.disk)), req, w, n + 1)
  {}

  lemma {:induction false} JointFrom(cfg: U.Config, p: Peer, req: U.Request, w: World, n: nat)
    requires n < MAX_UPLOAD_ATTEMPTS && Expects(p, req, w, n) && Sized(p.sess.metas[req.id], w)
    requires Gentle(cfg, p, req, w, n)
    ensures Agree(cfg, p.sess.metas[req.id], req.id, w, n, Joint(cfg, p, req, w, n))
    decreases MAX_UPLOAD_ATTEMPTS - n
  {
    var o, meta := After(cfg, p, req, w, n), p.sess.metas[req.id];
    HealthyAttempt(cfg, p, req, w, n);
    JointSplits(cfg, p, req, w, n);
    if U.Matches(cfg, meta, w.body(n)) || n + 1 == MAX_UPLOAD_ATTEMPTS {
      EndsHere(cfg, p, req, w, n, o);
    } else {
      var q := w.between(n, Peer(o.sess, o.disk));
      StillExpects(cfg, p, req, w, n, o, q);
      JointFrom(cfg, q, req, w, n + 1);
      GoesOn(cfg, meta, req.id, w, n, Joint(cfg, q, req, w, n + 1));
    }
  }

  lemma StillExpects(cfg: U.Config, p: Peer, req: U.Request, w: World, n: nat, o: R.Outcome, q: Peer)
    requires n + 1 < MAX_UPLOAD_ATTEMPTS && req.id in p.sess.metas && AttemptEnds(cfg, p, req, w, n, o)
    requires !U.Matches(cfg, p.sess.metas[req.id], w.body(n)) && Undisturbed(Peer(o.sess, o.disk), q, req.id)
    ensures Expects(q, req, w, n + 1) && q.sess.metas == p.sess.metas
  {}

  /** A file of the announced size: the sender succeeds if and only if one of its first three
      bodies has the announced checksum. Both sides stop after the same attempt, the first one
      that matches or the third: the receiver has counted as many attempts as the sender made and
      the file is terminal there. The sender is never refused, only told of a mismatch; and what
      is on the receiver's disk after a success is the body that was sent last. */
  lemma BothSidesAgree(cfg: U.Config, p: Peer, req: U.Request, w: World)
    requires Expects(p, req, w, 0) && Sized(p.sess.metas[req.id], w) && Gentle(cfg, p, req, w, 0)
    ensures var r, meta := Joint(cfg, p, req, w, 0), p.sess.metas[req.id];
            && (r.error == None <==> exists i: nat :: i < 3 && U.Matches(cfg, meta, w.body(i)))
            && (r.error.Some? ==> r.error == Some(ErrChecksum))
            && r.attempts == StopsAfter(cfg, meta, w, 0) && 0 < r.attempts
            && req.id in r.peer.sess.states
            && var fs := r.peer.sess.states[req.id];
               && fs.attempts == r.attempts && fs.status == (if r.error == None then U.Finished else U.Failed)
               && (r.error == None ==>
                     && fs.target.Some? && fs.target.value in r.peer.disk
                     && r.peer.disk[fs.target.value] == w.body(r.attempts - 1))
  {
    JointFrom(cfg, p, req, w, 0);
    assert Agree(cfg, p.sess.metas[req.id], req.id, w, 0, Joint(cfg, p, req, w, 0));
  }

  // -------------------------------------------------- among other uploads

  /** One attempt of the sender in the interleaving model: its own call, by thread `tid`, and
      what all other threads and programs do before the next attempt. */
  datatype Round = Round(tid: nat, mine: seq<U.Action>, others: seq<U.Action>)

  ghost predicate CallReturns(cfg: U.Config, y: U.Sys, req: U.Request, w: World, n: nat, rd: Round) {
    && rd.tid !in y.threads
    && R.Solo(rd.mine, rd.tid, w.env(n)) && rd.mine[0] == U.Call(rd.tid, req.(body := w.body(n)))
    && U.Run(cfg, y, rd.mine).Some?
    && var z := U.Run(cfg, y, rd.mine).value; rd.tid in z.threads && z.threads[rd.tid].Returned?
  }

  /** What the sender makes of the answer. */
  function Heard(z: U.Sys, tid: nat): Option<LsError>
    requires tid in z.threads && z.threads[tid].Returned?
  {
    ParseError(Status(Wire(z.threads[tid].error)))
  }

  /** Others run freely, except that they do not claim the file, end the session or create the
      path reserved for the file. */
  ghost predicate OthersRun(cfg: U.Config, z: U.Sys, others: seq<U.Action>, id: U.Id) {
    && U.Run(cfg, z, others).Some? && Runs.NobodyClaims(cfg, z, others, id)
    && var y := U.Run(cfg, z, others).value;
       && !y.h.killed && id in z.sess.states
       && var target := z.sess.states[id].target; (target.Some? ==> target.value !in y.disk)
  }

  /** The loop of the sender, from its `n`-th attempt on, with one round for each attempt. */
  ghost predicate Played(cfg: U.Config, y: U.Sys, req: U.Request, w: World, rounds: seq<Round>, n: nat)
    decreases |rounds|
  {
    && n < MAX_UPLOAD_ATTEMPTS && rounds != [] && CallReturns(cfg, y, req, w, n, rounds[0])
    && var z := U.Run(cfg, y, rounds[0].mine).value;
       if Heard(z, rounds[0].tid) != Some(ErrChecksum) || n + 1 == MAX_UPLOAD_ATTEMPTS then |rounds| == 1
       else
         && OthersRun(cfg, z, rounds[0].others, req.id)
         && Played(cfg, U.Run(cfg, z, rounds[0].others).value, req, w, rounds[1..], n + 1)
  }

  ghost function Final(cfg: U.Config, y: U.Sys, req: U.Request, w: World, rounds: seq<Round>, n: nat): Result
    requires Played(cfg, y, req, w, rounds, n)
    decreases |rounds|
  {
    var z := U.Run(cfg, y, rounds[0].mine).value;
    if |rounds| == 1 then Result(Heard(z, rounds[0].tid), Peer(z.sess, z.disk), n + 1)
    else Final(cfg, U.Run(cfg, z, rounds[0].others).value, req, w, rounds[1..], n + 1)
  }

  lemma CallIsAttempt(cfg: U.Config, y: U.Sys, req: U.Request, w: World, n: nat, rd: Round)
    requires U.Safe(cfg, y) && CallReturns(cfg, y, req, w, n, rd)
    ensures var z, o := U.Run(cfg, y, rd.mine).value, After(cfg, Peer(y.sess, y.disk), req, w, n);
            && U.Safe(cfg, z) && z.sess == o.sess && z.disk == o.disk
            && Heard(z, rd.tid) == ParseError(Status(Wire(o.error)))
  {
    R.SoloRunIsAttempt(cfg, y, rd.tid, req.(body := w.body(n)), w.env(n), rd.mine);
    Runs.RunIsSafe(cfg, y, rd.mine);
  }

  /** After a mismatch that is not the last the others run, and the receiver expects the next
      attempt. */
  lemma {:induction false} OthersLeaveItReady(cfg: U.Config, p: Peer, req: U.Request, w: World, n: nat, o: R.Outcome,
                                              z: U.Sys, others: seq<U.Action>)
    requires n + 1 < MAX_UPLOAD_ATTEMPTS && req.id in p.sess.metas && AttemptEnds(cfg, p, req, w, n, o)
    requires !U.Matches(cfg, p.sess.metas[req.id], w.body(n)) && z.sess == o.sess && z.disk == o.disk
    requires U.Safe(cfg, z) && OthersRun(cfg, z, others, req.id)
    ensures var y := U.Run(cfg, z, others).value;
            U.Safe(cfg, y) && Expects(Peer(y.sess, y.disk), req, w, n + 1) && y.sess.metas == p.sess.metas
  {
    var y := U.Run(cfg, z, others).value;
    assert Expects(Peer(o.sess, o.disk), req, w, n + 1);
    OtherUploadsDoNotDisturb(cfg, z, others, req.id);
    StillExpects(cfg, p, req, w, n, o, Peer(y.sess, y.disk));
    Runs.RunIsSafe(cfg, z, others);
  }

  /** The sender's `n`-th attempt is its last. */
  ghost predicate RoundEnds(cfg: U.Config, meta: U.Meta, w: World, n: nat) {
    U.Matches(cfg, meta, w.body(n)) || n + 1 >= MAX_UPLOAD_ATTEMPTS
  }

  lemma {:induction false} CallEnds(cfg: U.Config, y: U.Sys, req: U.Request, w: World, n: nat, rd: Round)
    returns (o: R.Outcome, z: U.Sys)
    requires n < MAX_UPLOAD_ATTEMPTS && U.Safe(cfg, y) && CallReturns(cfg, y, req, w, n, rd)
    requires Expects(Peer(y.sess, y.disk), req, w, n) && Sized(y.sess.metas[req.id], w)
    ensures AttemptEnds(cfg, Peer(y.sess, y.disk), req, w, n, o)
    ensures z == U.Run(cfg, y, rd.mine).value && U.Safe(cfg, z) && z.sess == o.sess && z.disk == o.disk
    ensures Heard(z, rd.tid) == ParseError(Status(Wire(o.error)))
  {
    var p := Peer(y.sess, y.disk);
    o, z := After(cfg, p, req, w, n), U.Run(cfg, y, rd.mine).value;
    CallIsAttempt(cfg, y, req, w, n, rd);
    HealthyAttempt(cfg, p, req, w, n);
  }

  /** One round of the loop, `z` being where its call returned. */
  ghost predicate GoesRound(cfg: U.Config, y: U.Sys, req: U.Request, w: World, rounds: seq<Round>, n: nat, z: U.Sys)
    requires Played(cfg, y, req, w, rounds, n)
  {
    && rounds[0].tid in z.threads && z.threads[rounds[0].tid].Returned?
    && var e := Heard(z, rounds[0].tid);
       if e != Some(ErrChecksum) || n + 1 == MAX_UPLOAD_ATTEMPTS then
         Final(cfg, y, req, w, rounds, n) == Result(e, Peer(z.sess, z.disk), n + 1)
       else
         && OthersRun(cfg, z, rounds[0].others, req.id)
         && var y1 := U.Run(cfg, z, rounds[0].others).value;
            && Played(cfg, y1, req, w, rounds[1..], n + 1)
            && Final(cfg, y, req, w, rounds, n) == Final(cfg, y1, req, w, rounds[1..], n + 1)
  }

  lemma {:induction false} PlayedGoesRound(cfg: U.Config, y: U.Sys, req: U.Request, w: World, rounds: seq<Round>,
                                           n: nat)
    requires Played(cfg, y, req, w, rounds, n)
    ensures CallReturns(cfg, y, req, w, n, rounds[0])
    ensures GoesRound(cfg, y, req, w, rounds, n, U.Run(cfg, y, rounds[0].mine).value)
  {
  }

  /** The sender hears of a mismatch exactly if there was one. */
  lemma AnswerTells(cfg: U.Config, p: Peer, req: U.Request, w: World, n: nat, o: R.Outcome)
    requires n < MAX_UPLOAD_ATTEMPTS && req.id in p.sess.metas && AttemptEnds(cfg, p, req, w, n, o)
    ensures RoundEnds(cfg, p.sess.metas[req.id], w, n) <==>
              ParseError(Status(Wire(o.error))) != Some(ErrChecksum) || n + 1 == MAX_UPLOAD_ATTEMPTS
  {}

  lemma {:induction false} PlayedFrom(cfg: U.Config, y: U.Sys, req: U.Request, w: World, rounds: seq<Round>, n: nat)
    requires U.Safe(cfg, y) && Played(cfg, y, req, w, rounds, n)
    requires Expects(Peer(y.sess, y.disk), req, w, n) && Sized(y.sess.metas[req.id], w)
    ensures Agree(cfg, y.sess.metas[req.id], req.id, w, n, Final(cfg, y, req, w, rounds, n))
    decreases |rounds|
  {
    var p, meta := Peer(y.sess, y.disk), y.sess.metas[req.id];
    PlayedGoesRound(cfg, y, req, w, rounds, n);
    var o, z := CallEnds(cfg, y, req, w, n, rounds[0]);
    AnswerTells(cfg, p, req, w, n, o);
    if RoundEnds(cfg, meta, w, n) {
      EndsHere(cfg, p, req, w, n, o);
      assert Final(cfg, y, req, w, rounds, n) == Result(Heard(z, rounds[0].tid), Peer(z.sess, z.disk), n + 1);
    } else {
      assert OthersRun(cfg, z, rounds[0].others, req.id);
      var y1 := U.Run(cfg, z, rounds[0].others).value;
      OthersLeaveItReady(cfg, p, req, w, n, o, z, rounds[0].others);
      PlayedFrom(cfg, y1, req, w, rounds[1..], n + 1);
      GoesOn(cfg, meta, req.id, w, n, Final(cfg, y1, req, w, rounds[1..], n + 1));
    }
  }

  /** The retry protocol among other uploads. The sender's calls are calls of the interleaving
      model; before and between them other threads, other senders and other programs run in any
      order, as long as they do not claim this file, end the session or create its reserved path.
      Then the sender succeeds if and only if one of its first three bodies matches, both sides
      stop after the same attempt, and the sender is never refused. */
  lemma BothSidesAgreeAmongOthers(cfg: U.Config, s: U.Session, disk: map<Path, bytes>, before: seq<U.Action>,
                                  req: U.Request, w: World, rounds: seq<Round>)
    requires Runs.JustStarted(s) && U.Run(cfg, Runs.Start(s, disk), before).Some?
    requires var y := U.Run(cfg, Runs.Start(s, disk), before).value;
             && Expects(Peer(y.sess, y.disk), req, w, 0) && Sized(y.sess.metas[req.id], w)
             && Played(cfg, y, req, w, rounds, 0)
    ensures var y := U.Run(cfg, Runs.Start(s, disk), before).value;
            var r, meta := Final(cfg, y, req, w, rounds, 0), y.sess.metas[req.id];
            && (r.error == None <==> exists i: nat :: i < 3 && U.Matches(cfg, meta, w.body(i)))
            && (r.error.Some? ==> r.error == Some(ErrChecksum))
            && r.attempts == StopsAfter(cfg, meta, w, 0) && 0 < r.attempts
            && req.id in r.peer.sess.states
            && var fs := r.peer.sess.states[req.id];
               && fs.attempts == r.attempts && fs.status == (if r.error == None then U.Finished else U.Failed)
               && (r.error == None ==>
                     && fs.target.Some? && fs.target.value in r.peer.disk
                     && r.peer.disk[fs.target.value] == w.body(r.attempts - 1))
  {
    var y := U.Run(cfg, Runs.Start(s, disk), before).value;
    Runs.StartIsSafe(cfg, s, disk);
    Runs.RunIsSafe(cfg, Runs.Start(s, disk), before);
    PlayedFrom(cfg, y, req, w, rounds, 0);
    assert Agree(cfg, y.sess.metas[req.id], req.id, w, 0, Final(cfg, y, req, w, rounds, 0));
  }

  /** The reserved path is what a retry depends on: an attempt at a matching body on a healthy
      system succeeds if and only if nobody has created that path in the meantime; if somebody
      has, the file has failed for good, with attempts to spare. */
  lemma RetryNeedsItsPath(cfg: U.Config, p: Peer, req: U.Request, env: U.Env)
    requires U.Entitled(p.sess, req) && p.sess.states[req.id].target.Some?
    requires Rights.Healthy(env)
    requires 0 <= p.sess.metas[req.id].size < 0x7fff_ffff_ffff_ffff && U.Matches(cfg, p.sess.metas[req.id], req.body)
    ensures var o := R.Attempt(cfg, p.sess, p.disk, req, env);
            && (o.error == U.Ok <==> p.sess.states[req.id].target.value !in p.disk)
            && (o.error != U.Ok ==> o.error == U.FileIO && o.disk == p.disk && o.sess.states[req.id].status == U.Failed)
  {
    U.CopySucceedsIff(cfg, p.sess.metas[req.id], req.body);
  }
}
