/** Who is served: in every interleaving a call without the right token or from a wrong address is
    turned away and leaves no trace, and a call with them is served. */
module UploadRights {
  import opened Base
  import opened Uploads
  import Runs = UploadRuns
  import R = RecvSession

  // ------------------------------------------------------ what no step changes

  predicate SameIssue(s: Session, s1: Session) {
    s1.id == s.id && s1.clientIP == s.clientIP && s1.metas == s.metas && s1.tokens == s.tokens
  }

  lemma AdvanceKeepsIssue(cfg: Config, y: Sys, tid: nat, env: Env)
    requires tid in y.threads && AdvanceThread(cfg, y, tid, env).Some?
    ensures SameIssue(y.sess, AdvanceThread(cfg, y, tid, env).value.sess)
    ensures AdvanceThread(cfg, y, tid, env).value.threads.Keys == y.threads.Keys
    ensures forall t | t in y.threads && t != tid :: AdvanceThread(cfg, y, tid, env).value.threads[t] == y.threads[t]
  {
    match y.threads[tid] {
      case Called(req) =>
      case Admitted(req) => assert SameIssue(y.sess, BeginStep(y, tid, req).sess);
      case Working(id, target, body) => assert SameIssue(y.sess, WorkStep(y, tid, id, target, body, env).sess);
      case Naming(id, path, body) => assert SameIssue(y.sess, NameStep(y, tid, id, path, body).sess);
      case Copying(id, path, body) =>
      case Removing(id, path, result, error) =>
        assert SameIssue(y.sess, RemoveStep(y, tid, id, path, result, error).sess);
      case Finishing(id, result, error) => assert SameIssue(y.sess, FinishStep(y, tid, id, result, error).sess);
      case Owing(id, error) => assert SameIssue(y.sess, OweStep(y, tid, id, error).sess);
      case Ending(error) => assert SameIssue(y.sess, EndStep(y, tid, error).sess);
      case Zeroing(error) => assert SameIssue(y.sess, ZeroStep(y, tid, error).sess);
      case Returned(_) =>
    }
  }

  // ---------------------------------------------------------- calls turned away

  /** How an unauthorised call is answered. */
  function Answer(s: Session, req: Request): Error {
    if s.id == "" || req.id == "" || req.token == "" then InvalidBody else Rejected
  }

  /** The thread of an unauthorised call: it has not come in yet, or has been turned away. */
  predicate AtTheDoor(s: Session, t: Thread, req: Request) {
    || t == Called(req) || t == Returned(Answer(s, req))
    || (t == Admitted(req) && Answer(s, req) == Rejected && (s.clientIP == "" || s.clientIP == req.clientIP))
  }

  lemma DoorStep(cfg: Config, y: Sys, tid: nat, req: Request, env: Env)
    requires tid in y.threads && AtTheDoor(y.sess, y.threads[tid], req) && !Authorised(y.sess, req)
    requires AdvanceThread(cfg, y, tid, env).Some?
    ensures var y1 := AdvanceThread(cfg, y, tid, env).value;
            y1.sess == y.sess && y1.disk == y.disk && AtTheDoor(y.sess, y1.threads[tid], req)
  {}

  lemma StepKeepsOut(cfg: Config, y: Sys, a: Action, tid: nat, req: Request)
    requires Next(cfg, y, a).Some? && !Authorised(y.sess, req)
    requires tid in y.threads && AtTheDoor(y.sess, y.threads[tid], req)
    ensures var y1 := Next(cfg, y, a).value;
            SameIssue(y.sess, y1.sess) && tid in y1.threads && AtTheDoor(y1.sess, y1.threads[tid], req)
  {
    if a.Advance? {
      AdvanceKeepsIssue(cfg, y, a.tid, a.env);
      if a.tid == tid {
        DoorStep(cfg, y, tid, req, a.env);
      }
    }
  }

  lemma {:induction false} RunKeepsOut(cfg: Config, y: Sys, actions: seq<Action>, tid: nat, req: Request)
    requires Run(cfg, y, actions).Some? && !Authorised(y.sess, req)
    requires if tid in y.threads then AtTheDoor(y.sess, y.threads[tid], req) else Call(tid, req) in actions
    ensures var z := Run(cfg, y, actions).value;
            SameIssue(y.sess, z.sess) && tid in z.threads && AtTheDoor(z.sess, z.threads[tid], req)
    decreases |actions|
  {
    if actions != [] {
      var a, rest := actions[0], actions[1..];
      var y1 := Next(cfg, y, a).value;
      if tid in y.threads {
        StepKeepsOut(cfg, y, a, tid, req);
      } else {
        StepIssues(cfg, y, a, tid);
        CalledOnce(cfg, y, actions, tid, req);
      }
      RunKeepsOut(cfg, y1, rest, tid, req);
    }
  }

  lemma StepIssues(cfg: Config, y: Sys, a: Action, tid: nat)
    requires Next(cfg, y, a).Some? && tid !in y.threads
    ensures var y1 := Next(cfg, y, a).value;
            && SameIssue(y.sess, y1.sess)
            && (tid in y1.threads <==> (a.Call? || a.Kill?) && a.tid == tid)
            && (a.Call? && a.tid == tid ==> y1.threads[tid] == Called(a.req))
  {
    if a.Advance? {
      AdvanceKeepsIssue(cfg, y, a.tid, a.env);
    }
  }

  lemma {:induction false} ThreadsStay(cfg: Config, y: Sys, actions: seq<Action>, tid: nat)
    requires Run(cfg, y, actions).Some? && tid in y.threads
    ensures forall req :: Call(tid, req) !in actions
    decreases |actions|
  {
    if actions != [] {
      var a := actions[0];
      if a.Advance? {
        AdvanceKeepsIssue(cfg, y, a.tid, a.env);
      }
      ThreadsStay(cfg, Next(cfg, y, a).value, actions[1..], tid);
      assert actions == [a] + actions[1..];
    }
  }

  /** A thread is called once. */
  lemma {:induction false} CalledOnce(cfg: Config, y: Sys, actions: seq<Action>, tid: nat, req: Request)
    requires Run(cfg, y, actions).Some? && tid !in y.threads && actions != [] && Call(tid, req) in actions
    ensures var y1 := Next(cfg, y, actions[0]).value;
            if tid in y1.threads then y1.threads[tid] == Called(req) else Call(tid, req) in actions[1..]
  {
    var a, rest := actions[0], actions[1..];
    var y1 := Next(cfg, y, a).value;
    assert actions == [a] + rest;
    StepIssues(cfg, y, a, tid);
    if tid in y1.threads {
      ThreadsStay(cfg, y1, rest, tid);
    }
  }

  /** Over every interleaving: a call whose token is not the one the session issued for its file,
      or that comes from another address than the session's, can only be turned away, and none
      of its steps changes the session or the disk. */
  lemma UnauthorisedIsTurnedAway(cfg: Config, s: Session, disk: map<Path, bytes>, actions: seq<Action>, tid: nat,
                                 req: Request, env: Env)
    requires Runs.JustStarted(s) && Run(cfg, Runs.Start(s, disk), actions).Some? && Call(tid, req) in actions
    requires || req.id !in s.tokens || s.tokens[req.id] != req.token
             || (s.clientIP != "" && s.clientIP != req.clientIP)
    ensures var y := Run(cfg, Runs.Start(s, disk), actions).value;
            && tid in y.threads
            && (y.threads[tid].Returned? ==>
                  y.threads[tid].error ==
                  if s.id == "" || req.id == "" || req.token == "" then InvalidBody else Rejected)
            && (Next(cfg, y, Advance(tid, env)).Some? ==>
                  var y1 := Next(cfg, y, Advance(tid, env)).value; y1.sess == y.sess && y1.disk == y.disk)
  {
    RunKeepsOut(cfg, Runs.Start(s, disk), actions, tid, req);
    var y := Run(cfg, Runs.Start(s, disk), actions).value;
    if Next(cfg, y, Advance(tid, env)).Some? {
      DoorStep(cfg, y, tid, req, env);
    }
  }

  // --------------------------------------------------------------- calls served

  /** An authorised call comes in exactly while the session goes on, and gets hold of its file
      exactly while that waits; otherwise it is turned away without a trace. */
  lemma ClaimsIff(cfg: Config, y: Sys, tid: nat, req: Request, env: Env)
    requires tid in y.threads && (y.threads[tid] == Called(req) || y.threads[tid] == Admitted(req))
    requires Authorised(y.sess, req)
    ensures var y1 := AdvanceThread(cfg, y, tid, env).value;
            if y.threads[tid].Called? then
              && y1.sess == y.sess && y1.disk == y.disk
              && y1.threads[tid] == if y.sess.started then Admitted(req) else Returned(Rejected)
            else if req.id in y.sess.states && y.sess.states[req.id].status == Pending then
              var fs := y.sess.states[req.id];
              && y1.threads[tid] == Working(req.id, fs.target, req.body)
              && y1.sess ==
                 y.sess.(states := y.sess.states[req.id := FileState(InProgress, fs.attempts + 1, fs.target)])
              && y1.disk == y.disk
            else y1.threads[tid] == Returned(Rejected) && y1.sess == y.sess && y1.disk == y.disk
  {}

  /** An earlier attempt has reserved a path for the file. */
  predicate Waiting(s: Session, id: Id) {
    id in s.states && s.states[id].target.Some?
  }

  predicate Healthy(env: Env) {
    env.nameOk && env.dirOk && env.createOk && env.ioOk && env.flushOk
  }

  /** An uninterrupted call on a working system, in any session and whoever calls: it succeeds if
      and only if the call is entitled to the file, the path for it is free and the body is
      exactly the announced one. Then the body is on the disk at that path and nothing else there
      has changed, and the file is finished. */
  lemma AttemptServesIff(cfg: Config, s: Session, disk: map<Path, bytes>, req: Request, env: Env)
    requires Healthy(env) && (req.id in s.metas ==> 0 <= s.metas[req.id].size < 0x7fff_ffff_ffff_ffff)
    ensures var path := if Waiting(s, req.id) then s.states[req.id].target.value else env.path;
            var o := R.Attempt(cfg, s, disk, req, env);
            && (o.error == Ok <==> Entitled(s, req) && path !in disk && Matches(cfg, s.metas[req.id], req.body))
            && (o.error == Ok ==>
                  && o.disk == disk[path := req.body] && req.id in o.sess.states
                  && o.sess.states[req.id] == FileState(Finished, s.states[req.id].attempts + 1, Some(path)))
            && (!Entitled(s, req) ==> o.sess == s && o.disk == disk && (o.error == Rejected || o.error == InvalidBody))
  {
    if req.id in s.metas {
      CopySucceedsIff(cfg, s.metas[req.id], req.body);
    }
  }

  /** Every answer of an uninterrupted call, whatever fails. */
  lemma AttemptAnswers(cfg: Config, s: Session, disk: map<Path, bytes>, req: Request, env: Env)
    requires req.id in s.metas ==> 0 <= s.metas[req.id].size < 0x7fff_ffff_ffff_ffff
    ensures var path := if Waiting(s, req.id) then s.states[req.id].target.value else env.path;
            R.Attempt(cfg, s, disk, req, env).error ==
            if s.id == "" || req.id == "" || req.token == "" then InvalidBody
            else if !Entitled(s, req) then Rejected
            else if !env.nameOk then InvalidBody
            else if !env.dirOk || !env.createOk || path in disk || !env.ioOk then FileIO
            else if |req.body| != s.metas[req.id].size then InvalidBody
            else if !env.flushOk then FileIO
            else if Matches(cfg, s.metas[req.id], req.body) then Ok else Checksum
  {}

  /** The same over runs: whatever ran before, a call that then runs by itself is served if and
      only if it is entitled, its path is free and its body is right. */
  lemma ServedIff(cfg: Config, s: Session, disk: map<Path, bytes>, before: seq<Action>, tid: nat, req: Request,
                  env: Env,
                  call: seq<Action>)
    requires Runs.JustStarted(s) && Run(cfg, Runs.Start(s, disk), before).Some? && Healthy(env)
    requires req.id in s.metas ==> 0 <= s.metas[req.id].size < 0x7fff_ffff_ffff_ffff
    requires var y := Run(cfg, Runs.Start(s, disk), before).value;
             && tid !in y.threads && R.Solo(call, tid, env) && call[0] == Call(tid, req) && Run(cfg, y, call).Some?
             && tid in Run(cfg, y, call).value.threads && Run(cfg, y, call).value.threads[tid].Returned?
    ensures var y := Run(cfg, Runs.Start(s, disk), before).value;
            var path := if Waiting(y.sess, req.id) then y.sess.states[req.id].target.value else env.path;
            var z := Run(cfg, y, call).value;
            && y.sess.tokens == s.tokens && y.sess.metas == s.metas
            && (z.threads[tid].error == Ok <==>
                  && Entitled(y.sess, req) && path !in y.disk && Matches(cfg, s.metas[req.id], req.body))
            && (z.threads[tid].error == Ok ==>
                  && z.disk == y.disk[path := req.body] && req.id in z.sess.states
                  && z.sess.states[req.id].status == Finished && z.sess.states[req.id].target == Some(path))
            && (!Entitled(y.sess, req) ==> z.sess == y.sess && z.disk == y.disk)
  {
    var y := Run(cfg, Runs.Start(s, disk), before).value;
    RunIssues(cfg, Runs.Start(s, disk), before);
    R.SoloRunIsAttempt(cfg, y, tid, req, env, call);
    AttemptServesIff(cfg, y.sess, y.disk, req, env);
  }

  lemma {:induction false} RunIssues(cfg: Config, y: Sys, actions: seq<Action>)
    requires Run(cfg, y, actions).Some?
    ensures SameIssue(y.sess, Run(cfg, y, actions).value.sess)
    decreases |actions|
  {
    if actions != [] {
      var a := actions[0];
      if a.Advance? {
        AdvanceKeepsIssue(cfg, y, a.tid, a.env);
      }
      RunIssues(cfg, Next(cfg, y, a).value, actions[1..]);
    }
  }
}
