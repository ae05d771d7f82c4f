/** The HTTP receive session itself: the fields its methods update, one call at a time. Each
    method is one mutex section, one atomic operation, or a sequence of those; the sequence
    SaveFile performs is a run of the interleaving model. */
module RecvSession {
  import opened Base
  import opened Uploads
  import Runs = UploadRuns

  const MAX_FILES_PER_SESSION: nat := 10000
  const MAX_CONCURRENT_SESSIONS: nat := 100
  const SESSION_TIMEOUT: int := 60

  datatype AcceptError = Accepted | Unknown | BlockedByOthers | TooManyFiles

  // ------------------------------------------------------------ specification

  function EndSession(s: Session): Session {
    if s.started then s.(started := false, filesCount := 0) else s
  }

  /** finishFileAttempt */
  function FinishAttempt(s: Session, id: Id, result: Status): Session
    requires id in s.states
  {
    var fs := s.states[id];
    var status := Settle(fs, result);
    var s1 := SetStatus(s, id, status);
    if !(fs.status == InProgress && Terminal(status)) then s1 else
    var s2 := s1.(filesCount := s1.filesCount - 1);
    if s2.filesCount == 0 then EndSession(s2) else s2
  }

  datatype Outcome = Outcome(sess: Session, disk: map<Path, bytes>, error: Error)

  /** SaveFile from the moment the file is created. */
  function Created(cfg: Config, s: Session, disk: map<Path, bytes>, id: Id, path: Path, body: bytes, env: Env): Outcome
    requires id in s.states && id in s.metas
  {
    var s1 := if s.states[id].target.None? then SetTarget(s, id, path) else s;
    var (result, error) := CopyVerdict(cfg, s.metas[id], body, env.ioOk, env.flushOk);
    var disk1 := if result == Finished then disk[path := Limited(body, s.metas[id].size)] else disk;
    Outcome(FinishAttempt(s1, id, result), disk1, error)
  }

  /** Where a file is created, and why it is not. */
  function PathFor(s: Session, id: Id, env: Env): Path
    requires id in s.states
  {
    if s.states[id].target.Some? then s.states[id].target.value else env.path
  }

  function Refusal(disk: map<Path, bytes>, path: Path, env: Env): Error {
    if !env.nameOk then InvalidBody else if !env.dirOk || !env.createOk || path in disk then FileIO else Ok
  }

  /** SaveFile from the moment the file is claimed. */
  function Receive(cfg: Config, s: Session, disk: map<Path, bytes>, id: Id, body: bytes, env: Env): Outcome
    requires id in s.states && id in s.metas
  {
    var path := PathFor(s, id, env);
    var why := Refusal(disk, path, env);
    if why != Ok then Outcome(FinishAttempt(s, id, Failed), disk, why) else Created(cfg, s, disk, id, path, body, env)
  }

  /** A whole SaveFile call that nothing interrupts. */
  function Attempt(cfg: Config, s: Session, disk: map<Path, bytes>, req: Request, env: Env): Outcome {
    if Admit(s, req) != Ok then Outcome(s, disk, Admit(s, req))
    else if !Acceptable(s, req) then Outcome(s, disk, Rejected)
    else Receive(cfg, Claim(s, req.id), disk, req.id, req.body, env)
  }

  // ------------------------------------------------ SaveFile is a run of threads

  /** `trace` leads from `y` to a state with this session and disk, in which only thread `tid`
      has moved. */
  ghost predicate Leads(cfg: Config, y: Sys, trace: seq<Action>, tid: nat, t: Thread, s: Session,
                        disk: map<Path, bytes>) {
    && Run(cfg, y, trace).Some?
    && var z := Run(cfg, y, trace).value;
       z.sess == s && z.disk == disk && z.threads == y.threads[tid := t]
  }

  lemma OneMore(cfg: Config, y: Sys, trace: seq<Action>, a: Action)
    requires Run(cfg, y, trace).Some?
    ensures Run(cfg, y, trace + [a]) == Next(cfg, Run(cfg, y, trace).value, a)
  {
    RunAppend(cfg, y, trace, [a]);
    var z := Run(cfg, y, trace).value;
    assert [a][0] == a && [a][1..] == [];
  }

  datatype Effect = Effect(thread: Thread, sess: Session, disk: map<Path, bytes>)

  /** What a thread's next step makes of itself, the session and the disk: nothing else matters
      to it. */
  function StepEffect(cfg: Config, t: Thread, s: Session, disk: map<Path, bytes>, env: Env): Option<Effect> {
    var alone := Sys(s, disk, map[0 := t], History(map[], map[], {}, map[], map[], map[], 0, false));
    var n := AdvanceThread(cfg, alone, 0, env);
    if n.None? then None else Some(Effect(n.value.threads[0], n.value.sess, n.value.disk))
  }

  ghost predicate HasEffect(cfg: Config, z: Sys, tid: nat, env: Env)
    requires tid in z.threads
  {
    var n, e := AdvanceThread(cfg, z, tid, env), StepEffect(cfg, z.threads[tid], z.sess, z.disk, env);
    && n.Some? == e.Some?
    && (e.Some? ==>
          && n.value.sess == e.value.sess && n.value.disk == e.value.disk
          && n.value.threads == z.threads[tid := e.value.thread])
  }

  lemma DraftHasEffect(cfg: Config, z: Sys, tid: nat, env: Env)
    requires tid in z.threads && Draft(z.threads[tid]).Some?
    ensures HasEffect(cfg, z, tid, env)
  {
    match z.threads[tid]
    case Naming(id, path, body) =>
    case Copying(id, path, body) =>
    case Removing(id, path, result, error) =>
  }

  lemma AttemptHasEffect(cfg: Config, z: Sys, tid: nat, env: Env)
    requires tid in z.threads && (z.threads[tid].Working? || z.threads[tid].Finishing?)
    ensures HasEffect(cfg, z, tid, env)
  {
    match z.threads[tid]
    case Working(id, target, body) =>
    case Finishing(id, result, error) =>
  }

  lemma EntryHasEffect(cfg: Config, z: Sys, tid: nat, env: Env)
    requires tid in z.threads && (z.threads[tid].Called? || z.threads[tid].Admitted?)
    ensures HasEffect(cfg, z, tid, env)
  {
    match z.threads[tid]
    case Called(req) =>
    case Admitted(req) =>
  }

  lemma ExitHasEffect(cfg: Config, z: Sys, tid: nat, env: Env)
    requires tid in z.threads && Held(z.threads[tid]).None? && !z.threads[tid].Called? && !z.threads[tid].Admitted?
    ensures HasEffect(cfg, z, tid, env)
  {
    match z.threads[tid]
    case Owing(id, error) =>
    case Ending(error) =>
    case Zeroing(error) =>
    case Returned(_) =>
  }

  /** Only thread `tid` takes steps: it is called, and then goes on. */
  ghost predicate Solo(trace: seq<Action>, tid: nat, env: Env) {
    && trace != [] && trace[0].Call? && trace[0].tid == tid
    && (forall i | 0 < i < |trace| :: trace[i] == Advance(tid, env))
  }

  lemma LeadsOn(cfg: Config, y: Sys, trace: seq<Action>, tid: nat, t: Thread, s: Session, disk: map<Path, bytes>,
                env: Env)
    returns (more: seq<Action>)
    requires Leads(cfg, y, trace, tid, t, s, disk) && StepEffect(cfg, t, s, disk, env).Some?
    requires Solo(trace, tid, env)
    ensures Solo(more, tid, env) && more[0] == trace[0]
    ensures var e := StepEffect(cfg, t, s, disk, env).value; Leads(cfg, y, more, tid, e.thread, e.sess, e.disk)
  {
    more := trace + [Advance(tid, env)];
    OneMore(cfg, y, trace, Advance(tid, env));
    var z := Run(cfg, y, trace).value;
    if Draft(t).Some? {
      DraftHasEffect(cfg, z, tid, env);
    } else if Held(t).Some? {
      AttemptHasEffect(cfg, z, tid, env);
    } else if t.Called? || t.Admitted? {
      EntryHasEffect(cfg, z, tid, env);
    } else {
      ExitHasEffect(cfg, z, tid, env);
    }
    assert z.threads[tid := StepEffect(cfg, t, s, disk, env).value.thread] ==
        y.threads[tid := StepEffect(cfg, t, s, disk, env).value.thread];
  }

  lemma EndLeads(cfg: Config, y: Sys, trace: seq<Action>, tid: nat, error: Error, s: Session, disk: map<Path, bytes>,
                 env: Env)
    returns (more: seq<Action>)
    requires Leads(cfg, y, trace, tid, Ending(error), s, disk) && s.filesCount == 0
    requires Solo(trace, tid, env)
    ensures Solo(more, tid, env) && more[0] == trace[0]
    ensures Leads(cfg, y, more, tid, Returned(error), EndSession(s), disk)
  {
    if s.started {
      more := LeadsOn(cfg, y, trace, tid, Ending(error), s, disk, env);
      more := LeadsOn(cfg, y, more, tid, Zeroing(error), s.(started := false), disk, env);
    } else {
      more := LeadsOn(cfg, y, trace, tid, Ending(error), s, disk, env);
    }
  }

  lemma OweLeads(cfg: Config, y: Sys, trace: seq<Action>, tid: nat, id: Id, error: Error, s: Session,
                 disk: map<Path, bytes>, env: Env)
    returns (more: seq<Action>)
    requires Leads(cfg, y, trace, tid, Owing(id, error), s, disk)
    requires Solo(trace, tid, env)
    ensures Solo(more, tid, env) && more[0] == trace[0]
    ensures var s1 := s.(filesCount := s.filesCount - 1);
            Leads(cfg, y, more, tid, Returned(error), if s1.filesCount == 0 then EndSession(s1) else s1, disk)
  {
    var s1 := s.(filesCount := s.filesCount - 1);
    more := LeadsOn(cfg, y, trace, tid, Owing(id, error), s, disk, env);
    if s1.filesCount == 0 {
      more := EndLeads(cfg, y, more, tid, error, s1, disk, env);
    }
  }

  lemma FinishLeads(cfg: Config, y: Sys, trace: seq<Action>, tid: nat, id: Id, result: Status, error: Error,
                    s: Session, disk: map<Path, bytes>, env: Env)
    returns (more: seq<Action>)
    requires Leads(cfg, y, trace, tid, Finishing(id, result, error), s, disk) && id in s.states
    requires Solo(trace, tid, env)
    ensures Solo(more, tid, env) && more[0] == trace[0]
    ensures Leads(cfg, y, more, tid, Returned(error), FinishAttempt(s, id, result), disk)
  {
    var status := Settle(s.states[id], result);
    more := LeadsOn(cfg, y, trace, tid, Finishing(id, result, error), s, disk, env);
    if s.states[id].status == InProgress && Terminal(status) {
      more := OweLeads(cfg, y, more, tid, id, error, SetStatus(s, id, status), disk, env);
    }
  }

  lemma RemoveLeads(cfg: Config, y: Sys, trace: seq<Action>, tid: nat, id: Id, path: Path, result: Status,
                    error: Error, s: Session, disk: map<Path, bytes>, env: Env)
    returns (more: seq<Action>)
    requires Leads(cfg, y, trace, tid, Removing(id, path, result, error), s, disk[path := []]) && path !in disk
    requires id in s.states
    requires Solo(trace, tid, env)
    ensures Solo(more, tid, env) && more[0] == trace[0]
    ensures Leads(cfg, y, more, tid, Returned(error), FinishAttempt(s, id, result), disk)
  {
    assert disk[path := []] - {path} == disk;
    more := LeadsOn(cfg, y, trace, tid, Removing(id, path, result, error), s, disk[path := []], env);
    more := FinishLeads(cfg, y, more, tid, id, result, error, s, disk, env);
  }

  lemma CopyLeads(cfg: Config, y: Sys, trace: seq<Action>, tid: nat, id: Id, path: Path, body: bytes, s: Session,
                  disk: map<Path, bytes>, env: Env)
    returns (more: seq<Action>)
    requires Leads(cfg, y, trace, tid, Copying(id, path, body), s, disk[path := []]) && path !in disk && id in s.states
    requires id in s.metas
    requires Solo(trace, tid, env)
    ensures Solo(more, tid, env) && more[0] == trace[0]
    ensures var (result, error) := CopyVerdict(cfg, s.metas[id], body, env.ioOk, env.flushOk);
            Leads(cfg, y, more, tid, Returned(error), FinishAttempt(s, id, result),
                  if result == Finished then disk[path := Limited(body, s.metas[id].size)] else disk)
  {
    var (result, error) := CopyVerdict(cfg, s.metas[id], body, env.ioOk, env.flushOk);
    var content := Limited(body, s.metas[id].size);
    if result == Finished {
      assert disk[path := []][path := content] == disk[path := content];
      more := LeadsOn(cfg, y, trace, tid, Copying(id, path, body), s, disk[path := []], env);
      more := FinishLeads(cfg, y, more, tid, id, Finished, error, s, disk[path := content], env);
    } else {
      more := LeadsOn(cfg, y, trace, tid, Copying(id, path, body), s, disk[path := []], env);
      more := RemoveLeads(cfg, y, more, tid, id, path, result, error, s, disk, env);
    }
  }

  lemma NameLeads(cfg: Config, y: Sys, trace: seq<Action>, tid: nat, id: Id, path: Path, body: bytes, s: Session,
                  disk: map<Path, bytes>, env: Env)
    returns (more: seq<Action>)
    requires Leads(cfg, y, trace, tid, Naming(id, path, body), s, disk[path := []]) && path !in disk && id in s.states
    requires id in s.metas
    requires Solo(trace, tid, env)
    ensures Solo(more, tid, env) && more[0] == trace[0]
    ensures var (result, error) := CopyVerdict(cfg, s.metas[id], body, env.ioOk, env.flushOk);
            Leads(cfg, y, more, tid, Returned(error), FinishAttempt(SetTarget(s, id, path), id, result),
                  if result == Finished then disk[path := Limited(body, s.metas[id].size)] else disk)
  {
    more := LeadsOn(cfg, y, trace, tid, Naming(id, path, body), s, disk[path := []], env);
    more := CopyLeads(cfg, y, more, tid, id, path, body, SetTarget(s, id, path), disk, env);
  }

  lemma CreatedLeads(cfg: Config, y: Sys, trace: seq<Action>, tid: nat, id: Id, path: Path, body: bytes, s: Session,
                     disk: map<Path, bytes>, env: Env) returns (more: seq<Action>)
    requires id in s.states && id in s.metas && path !in disk && Solo(trace, tid, env)
    requires var t := if s.states[id].target.Some? then Copying(id, path, body) else Naming(id, path, body);
             Leads(cfg, y, trace, tid, t, s, disk[path := []])
    ensures Solo(more, tid, env) && more[0] == trace[0]
    ensures var o := Created(cfg, s, disk, id, path, body, env);
            Leads(cfg, y, more, tid, Returned(o.error), o.sess, o.disk)
  {
    if s.states[id].target.Some? {
      more := CopyLeads(cfg, y, trace, tid, id, path, body, s, disk, env);
    } else {
      more := NameLeads(cfg, y, trace, tid, id, path, body, s, disk, env);
    }
  }

  lemma RefusedLeads(cfg: Config, y: Sys, trace: seq<Action>, tid: nat, id: Id, body: bytes, s: Session,
                     disk: map<Path, bytes>, env: Env, why: Error) returns (more: seq<Action>)
    requires id in s.states && Leads(cfg, y, trace, tid, Working(id, s.states[id].target, body), s, disk)
    requires Solo(trace, tid, env)
    requires why == Refusal(disk, PathFor(s, id, env), env) && why != Ok
    ensures Solo(more, tid, env) && more[0] == trace[0]
    ensures Leads(cfg, y, more, tid, Returned(why), FinishAttempt(s, id, Failed), disk)
  {
    more := LeadsOn(cfg, y, trace, tid, Working(id, s.states[id].target, body), s, disk, env);
    more := FinishLeads(cfg, y, more, tid, id, Failed, why, s, disk, env);
  }

  lemma AllowedLeads(cfg: Config, y: Sys, trace: seq<Action>, tid: nat, id: Id, body: bytes, s: Session,
                     disk: map<Path, bytes>, env: Env) returns (more: seq<Action>)
    requires id in s.states && id in s.metas
    requires Leads(cfg, y, trace, tid, Working(id, s.states[id].target, body), s, disk)
    requires Solo(trace, tid, env) && Refusal(disk, PathFor(s, id, env), env) == Ok
    ensures Solo(more, tid, env) && more[0] == trace[0]
    ensures var o := Created(cfg, s, disk, id, PathFor(s, id, env), body, env);
            Leads(cfg, y, more, tid, Returned(o.error), o.sess, o.disk)
  {
    more := LeadsOn(cfg, y, trace, tid, Working(id, s.states[id].target, body), s, disk, env);
    more := CreatedLeads(cfg, y, more, tid, id, PathFor(s, id, env), body, s, disk, env);
  }

  lemma WorkLeads(cfg: Config, y: Sys, trace: seq<Action>, tid: nat, id: Id, body: bytes, s: Session,
                  disk: map<Path, bytes>, env: Env) returns (more: seq<Action>)
    requires id in s.states && id in s.metas
    requires Leads(cfg, y, trace, tid, Working(id, s.states[id].target, body), s, disk)
    requires Solo(trace, tid, env)
    ensures Solo(more, tid, env) && more[0] == trace[0]
    ensures var o := Receive(cfg, s, disk, id, body, env); Leads(cfg, y, more, tid, Returned(o.error), o.sess, o.disk)
  {
    if Refusal(disk, PathFor(s, id, env), env) == Ok {
      more := AllowedLeads(cfg, y, trace, tid, id, body, s, disk, env);
    } else {
      more := RefusedLeads(cfg, y, trace, tid, id, body, s, disk, env, Refusal(disk, PathFor(s, id, env), env));
    }
  }

  /** A SaveFile call that nothing interrupts is a run of one thread of the interleaving model,
      whatever other threads are suspended in between their steps: what holds of all
      interleavings holds of it. */
  lemma AttemptIsRun(cfg: Config, y: Sys, tid: nat, req: Request, env: Env) returns (trace: seq<Action>)
    requires tid !in y.threads
    ensures Solo(trace, tid, env) && trace[0] == Call(tid, req)
    ensures var o := Attempt(cfg, y.sess, y.disk, req, env);
            Leads(cfg, y, trace, tid, Returned(o.error), o.sess, o.disk)
  {
    OneMore(cfg, y, [], Call(tid, req));
    trace := [] + [Call(tid, req)];
    var s := y.sess;
    if Admit(s, req) != Ok {
      trace := LeadsOn(cfg, y, trace, tid, Called(req), s, y.disk, env);
    } else {
      trace := LeadsOn(cfg, y, trace, tid, Called(req), s, y.disk, env);
      if !Acceptable(s, req) {
        trace := LeadsOn(cfg, y, trace, tid, Admitted(req), s, y.disk, env);
      } else {
        trace := LeadsOn(cfg, y, trace, tid, Admitted(req), s, y.disk, env);
        trace := WorkLeads(cfg, y, trace, tid, req.id, req.body, Claim(s, req.id), y.disk, env);
      }
    }
  }

  /** Of two such runs of one call neither goes on after the thread has returned. */
  lemma {:induction false} SoloRunsAgree(cfg: Config, y: Sys, tid: nat, env: Env, a: seq<Action>, b: seq<Action>)
    requires Solo(a, tid, env) && Solo(b, tid, env) && a[0] == b[0] && Run(cfg, y, a).Some? && Run(cfg, y, b).Some?
    requires tid in Run(cfg, y, a).value.threads && Run(cfg, y, a).value.threads[tid].Returned?
    ensures |b| <= |a|
  {
    if |a| < |b| {
      assert b[..|a|] == a;
      var rest := b[|a|..];
      assert b == a + rest && rest[0] == Advance(tid, env);
      RunAppend(cfg, y, a, rest);
    }
  }

  /** Whoever runs a call alone until it returns gets what the specification says. */
  lemma SoloRunIsAttempt(cfg: Config, y: Sys, tid: nat, req: Request, env: Env, trace: seq<Action>)
    requires tid !in y.threads && Solo(trace, tid, env) && trace[0] == Call(tid, req) && Run(cfg, y, trace).Some?
    requires tid in Run(cfg, y, trace).value.threads && Run(cfg, y, trace).value.threads[tid].Returned?
    ensures var o := Attempt(cfg, y.sess, y.disk, req, env);
            Leads(cfg, y, trace, tid, Returned(o.error), o.sess, o.disk)
  {
    var same := AttemptIsRun(cfg, y, tid, req, env);
    SoloRunsAgree(cfg, y, tid, env, trace, same);
    SoloRunsAgree(cfg, y, tid, env, same, trace);
    assert trace == same;
  }

  // ---------------------------------------------------------------- the session

  /** What AcceptFile answers. */
  function AcceptAnswer(s: Session, fileId: Id, meta: Meta): AcceptError {
    if fileId != meta.id then Unknown
    else if s.started then BlockedByOthers
    else if |s.metas| >= MAX_FILES_PER_SESSION then TooManyFiles
    else Accepted
  }

  function Accept(s: Session, fileId: Id, meta: Meta, token: string): Session {
    s.(metas := s.metas[fileId := meta], tokens := s.tokens[fileId := token],
       states := s.states[fileId := FileState(Pending, 0, None)], filesCount := s.filesCount + 1)
  }

  /** The counter stays exact if and only if no id is accepted twice. */
  lemma AcceptKeepsCount(s: Session, fileId: Id, meta: Meta, token: string)
    requires s.filesCount == |s.states.Keys|
    ensures var s1 := Accept(s, fileId, meta, token); s1.filesCount == |s1.states.Keys| <==> fileId !in s.states
  {
    var s1 := Accept(s, fileId, meta, token);
    assert s1.states.Keys == s.states.Keys + {fileId};
  }

  /** After a second acceptance of a file the session can only be ended from outside. */
  lemma TwiceAcceptedNeverEnds(cfg: Config, s: Session, fileId: Id, meta: Meta, token: string, disk: map<Path, bytes>,
                               actions: seq<Action>)
    requires Runs.JustStarted(s.(started := true)) && fileId in s.states
    requires var s1 := Accept(s, fileId, meta, token).(started := true);
             Run(cfg, Runs.Start(s1, disk), actions).Some? && forall i | 0 <= i < |actions| :: !actions[i].Kill?
    ensures var s1 := Accept(s, fileId, meta, token).(started := true);
            Run(cfg, Runs.Start(s1, disk), actions).value.sess.started
  {
    var s1 := Accept(s, fileId, meta, token).(started := true);
    assert s1.states == s.states && s1.metas.Keys == s.metas.Keys && s1.tokens.Keys == s.tokens.Keys;
    Runs.OvercountedNeverEnds(cfg, s1, disk, actions, 1);
  }

  class RecvSession {
    var id: string
    var clientIP: string
    var fileMetas: map<Id, Meta>
    var fileTokens: map<Id, string>
    var fileStates: map<Id, FileState>
    var filesCount: int
    var lastActivity: int
    var started: bool

    function State(): Session
      reads this
    {
      Session(id, clientIP, fileMetas, fileTokens, fileStates, filesCount, started)
    }

    constructor (sessionId: string, clientIP: string, now: int)
      ensures State() == Session(sessionId, clientIP, map[], map[], map[], 0, false) && lastActivity == now
    {
      this.id := sessionId;
      this.clientIP := clientIP;
      this.fileMetas := map[];
      this.fileTokens := map[];
      this.fileStates := map[];
      this.filesCount := 0;
      this.lastActivity := now;
      this.started := false;
    }

    method AcceptFile(fileId: Id, meta: Meta, token: string) returns (r: AcceptError)
      modifies this
      ensures r == AcceptAnswer(old(State()), fileId, meta)
      ensures r != Accepted ==> State() == old(State())
      ensures r == Accepted ==> State() == Accept(old(State()), fileId, meta, token)
    {
      if fileId != meta.id {
        return Unknown;
      }
      if started {
        return BlockedByOthers;
      }
      if |fileMetas| >= MAX_FILES_PER_SESSION {
        return TooManyFiles;
      }
      fileMetas := fileMetas[fileId := meta];
      fileTokens := fileTokens[fileId := token];
      fileStates := fileStates[fileId := FileState(Pending, 0, None)];
      filesCount := filesCount + 1;
      return Accepted;
    }

    /** Whatever other calls make of the session. */
    method Become(s: Session)
      modifies this
      ensures State() == s
    {
      id := s.id;
      clientIP := s.clientIP;
      fileMetas := s.metas;
      fileTokens := s.tokens;
      fileStates := s.states;
      filesCount := s.filesCount;
      started := s.started;
    }

    method Start()
      modifies this`started
      ensures started
    {
      started := true;
    }

    /** True for the one call that ends the session. */
    method End() returns (ended: bool)
      modifies this`started, this`filesCount
      ensures State() == EndSession(old(State())) && ended == old(started)
    {
      if started {
        started := false;
        filesCount := 0;
        return true;
      }
      return false;
    }

    method Stopped(now: int) returns (stopped: bool)
      ensures stopped <==> now - lastActivity > SESSION_TIMEOUT || !started || filesCount == 0
    {
      var left := filesCount;
      if now - lastActivity > SESSION_TIMEOUT {
        return true;
      }
      return !started || left == 0;
    }

    method FinishFileAttempt(fileId: Id, result: Status)
      requires fileId in fileStates
      modifies this`fileStates, this`filesCount, this`started
      ensures State() == FinishAttempt(old(State()), fileId, result)
    {
      var terminal := false;
      var state := fileStates[fileId];
      if state.status == InProgress {
        if result == Pending && state.attempts < MAX_CHECKSUM_ATTEMPTS {
          fileStates := fileStates[fileId := state.(status := Pending)];
        } else if result == Finished {
          fileStates := fileStates[fileId := state.(status := Finished)];
          terminal := true;
        } else {
          fileStates := fileStates[fileId := state.(status := Failed)];
          terminal := true;
        }
      } else {
        assert fileStates == fileStates[fileId := state];
      }
      if terminal {
        filesCount := filesCount - 1;
        if filesCount == 0 {
          var ended := End();
        }
      }
    }

    /** SaveFile, uninterrupted. */
    method SaveFile(cfg: Config, disk: Disk, req: Request, env: Env) returns (err: Error)
      modifies this`fileStates, this`filesCount, this`started, disk
      ensures Outcome(State(), disk.content, err) == Attempt(cfg, old(State()), old(disk.content), req, env)
    {
      if id == "" || req.id == "" || req.token == "" {
        return InvalidBody;
      }
      if !started {
        return Rejected;
      }
      if clientIP != "" && req.clientIP != clientIP {
        return Rejected;
      }
      if req.id !in fileMetas || req.id !in fileTokens || req.id !in fileStates || fileStates[req.id].status != Pending
          || fileTokens[req.id] != req.token {
        return Rejected;
      }
      var state := fileStates[req.id];
      fileStates := fileStates[req.id := state.(status := InProgress, attempts := state.attempts + 1)];
      err := ReceiveFile(cfg, disk, req.id, req.body, env);
    }

    method ReceiveFile(cfg: Config, disk: Disk, fileId: Id, body: bytes, env: Env) returns (err: Error)
      requires fileId in fileStates && fileId in fileMetas
      modifies this`fileStates, this`filesCount, this`started, disk
      ensures Outcome(State(), disk.content, err) == Receive(cfg, old(State()), old(disk.content), fileId, body, env)
    {
      var target := fileStates[fileId].target;
      var saveAs := if target.Some? then target.value else env.path;
      var ready := false;
      err := InvalidBody;
      if env.nameOk {
        err := FileIO;
        if env.dirOk {
          ready := disk.CreateExclusive(saveAs, env.createOk);
        }
      }
      if !ready {
        FinishFileAttempt(fileId, Failed);
        return;
      }
      if target.None? {
        fileStates := fileStates[fileId := fileStates[fileId].(target := Some(saveAs))];
      }
      ghost var was := old(disk.content);
      assert was[saveAs := []] - {saveAs} == was;
      err := CopyFile(cfg, disk, fileId, saveAs, body, env);
    }

    method CopyFile(cfg: Config, disk: Disk, fileId: Id, saveAs: Path, body: bytes, env: Env) returns (err: Error)
      requires fileId in fileStates && fileId in fileMetas
      modifies this`fileStates, this`filesCount, this`started, disk
      ensures var (result, error) := CopyVerdict(cfg, fileMetas[fileId], body, env.ioOk, env.flushOk);
              && State() == FinishAttempt(old(State()), fileId, result) && err == error
              && disk.content ==
                 (if result == Finished then old(disk.content)[saveAs := Limited(body, fileMetas[fileId].size)]
                                  else old(disk.content) - {saveAs})
    {
      var result;
      result, err := disk.CopyInto(cfg, fileMetas[fileId], saveAs, body, env);
      FinishFileAttempt(fileId, result);
    }
  }

  class Disk {
    var content: map<Path, bytes>

    constructor (content: map<Path, bytes>)
      ensures this.content == content
    {
      this.content := content;
    }

    /** Whatever other calls and programs make of the disk. */
    method Become(content: map<Path, bytes>)
      modifies this
      ensures this.content == content
    {
      this.content := content;
    }

    /** O_CREATE|O_EXCL */
    method CreateExclusive(path: Path, ok: bool) returns (created: bool)
      modifies this
      ensures created == (ok && path !in old(content))
      ensures content == if created then old(content)[path := []] else old(content)
    {
      if !ok || path in content {
        return false;
      }
      content := content[path := []];
      return true;
    }

    /** Receives a body into a file just created, and removes the file unless all is well. */
    method CopyInto(cfg: Config, meta: Meta, path: Path, body: bytes, env: Env) returns (result: Status, error: Error)
      modifies this
      ensures (result, error) == CopyVerdict(cfg, meta, body, env.ioOk, env.flushOk)
      ensures content == if result == Finished then old(content)[path := Limited(body, meta.size)]
                         else old(content) - {path}
    {
      var success := false;
      var received := Limited(body, meta.size);
      if !env.ioOk {
        result, error := Failed, FileIO;
      } else if |received| != meta.size {
        result, error := Failed, InvalidBody;
      } else if !env.flushOk {
        result, error := Failed, FileIO;
      } else {
        content := content[path := received];
        if meta.checksum != "" && !cfg.equalFold(cfg.sha(received), meta.checksum) {
          result, error := Pending, Checksum;
        } else {
          success := true;
          result, error := Finished, Ok;
        }
      }
      if !success {
        content := content - {path};
      }
    }
  }

  // ------------------------------------------------------------ a new session

  datatype NewError = Opened | TooManySessions | Refused(why: AcceptError)

  ghost function Tokens(ids: set<Id>, newToken: Id -> string): map<Id, string> {
    map f | f in ids :: newToken(f)
  }

  ghost function AllPending(ids: set<Id>): map<Id, FileState> {
    map f | f in ids :: FileState(Pending, 0, None)
  }

  /** A session that has accepted exactly `files`. */
  ghost function Offered(id: string, clientIP: string, files: map<Id, Meta>, newToken: Id -> string): Session {
    Session(id, clientIP, files, Tokens(files.Keys, newToken), AllPending(files.Keys), |files.Keys|, false)
  }

  lemma OneMoreFile(ids: set<Id>, newToken: Id -> string, f: Id)
    ensures Tokens(ids + {f}, newToken) == Tokens(ids, newToken)[f := newToken(f)]
    ensures AllPending(ids + {f}) == AllPending(ids)[f := FileState(Pending, 0, None)]
  {}

  lemma OfferedMore(id: string, clientIP: string, files: map<Id, Meta>, newToken: Id -> string, f: Id, meta: Meta)
    requires f !in files
    ensures Offered(id, clientIP, files[f := meta], newToken) ==
            Accept(Offered(id, clientIP, files, newToken), f, meta, newToken(f))
  {
    assert files[f := meta].Keys == files.Keys + {f};
    OneMoreFile(files.Keys, newToken, f);
  }

  /** Whatever a request offers, the session created for it starts with an exact counter. */
  lemma OfferedStarts(id: string, clientIP: string, files: map<Id, Meta>, newToken: Id -> string)
    ensures Runs.JustStarted(Offered(id, clientIP, files, newToken).(started := true))
  {
    var s := Offered(id, clientIP, files, newToken);
    assert s.states.Keys == files.Keys && s.tokens.Keys == files.Keys;
  }

  predicate ProperIds(files: map<Id, Meta>) {
    forall id | id in files :: files[id].id == id
  }

  /** The order in which a map happens to yield its keys. */
  ghost predicate Lists(order: seq<Id>, files: map<Id, Meta>) {
    && (forall i | 0 <= i < |order| :: order[i] in files)
    && (forall id | id in files :: id in order)
    && (forall i, j | 0 <= i < j < |order| :: order[i] != order[j])
  }

  /** The part of a map under the given keys. */
  function Part(files: map<Id, Meta>, order: seq<Id>): map<Id, Meta>
    requires forall i | 0 <= i < |order| :: order[i] in files
  {
    if order == [] then map[] else
    var n := |order| - 1;
    Part(files, order[..n])[order[n] := files[order[n]]]
  }

  lemma {:induction false} PartIsPart(files: map<Id, Meta>, order: seq<Id>)
    requires forall i | 0 <= i < |order| :: order[i] in files
    ensures forall id :: id in Part(files, order) <==> id in order
    ensures forall id | id in Part(files, order) :: Part(files, order)[id] == files[id]
    ensures (forall i, j | 0 <= i < j < |order| :: order[i] != order[j]) ==> |Part(files, order)| == |order|
  {
    if order != [] {
      var n := |order| - 1;
      PartIsPart(files, order[..n]);
      assert order == order[..n] + [order[n]];
    }
  }

  lemma PartNext(id0: string, ip: string, files: map<Id, Meta>, order: seq<Id>, i: nat, newToken: Id -> string)
    requires Lists(order, files) && i < |order|
    ensures |Part(files, order[..i])| == i
    ensures Offered(id0, ip, Part(files, order[..i + 1]), newToken) ==
              Accept(Offered(id0, ip, Part(files, order[..i]), newToken), order[i], files[order[i]], newToken(order[i]))
  {
    PartIsPart(files, order[..i]);
    assert order[..i + 1][..i] == order[..i];
    OfferedMore(id0, ip, Part(files, order[..i]), newToken, order[i], files[order[i]]);
  }

  lemma PartAll(files: map<Id, Meta>, order: seq<Id>)
    requires Lists(order, files)
    ensures Part(files, order) == files && |order| == |files|
  {
    PartIsPart(files, order);
  }

  ghost predicate Filled(s: Session, id: string, ip: string, files: map<Id, Meta>, newToken: Id -> string) {
    s == Offered(id, ip, files, newToken)
  }

  method AcceptNext(s: RecvSession, ghost id0: string, ghost ip: string, files: map<Id, Meta>, order: seq<Id>, i: nat,
                    newToken: Id -> string)
    returns (r: AcceptError)
    requires Lists(order, files) && i < |order| && Filled(s.State(), id0, ip, Part(files, order[..i]), newToken)
    modifies s
    ensures r == Accepted <==> i < MAX_FILES_PER_SESSION && files[order[i]].id == order[i]
    ensures r == Accepted ==> Filled(s.State(), id0, ip, Part(files, order[..i + 1]), newToken)
  {
    PartNext(id0, ip, files, order, i, newToken);
    r := s.AcceptFile(order[i], files[order[i]], newToken(order[i]));
  }

  /** Accepts the files of a request in whatever order its map yields them. */
  method FillSession(s: RecvSession, files: map<Id, Meta>, order: seq<Id>, newToken: Id -> string)
    returns (r: AcceptError)
    requires s.State() == Offered(s.id, s.clientIP, map[], newToken) && Lists(order, files)
    modifies s
    ensures r == Accepted <==> |files| <= MAX_FILES_PER_SESSION && ProperIds(files)
    ensures r == Accepted ==> s.State() == Offered(old(s.id), old(s.clientIP), files, newToken)
  {
    ghost var id0, ip := s.id, s.clientIP;
    PartAll(files, order);
    r := Accepted;
    var i := 0;
    while i < |order|
      invariant 0 <= i <= |order| && i <= MAX_FILES_PER_SESSION
      invariant Filled(s.State(), id0, ip, Part(files, order[..i]), newToken)
      invariant forall k | 0 <= k < i :: files[order[k]].id == order[k]
    {
      r := AcceptNext(s, id0, ip, files, order, i, newToken);
      if r != Accepted {
        return;
      }
      i := i + 1;
    }
    assert order[..|order|] == order;
    r := Accepted;
  }

  /** newSessionLocked */
  method NewSession(sessionCount: nat, sessionId: string, clientIP: string, now: int, files: map<Id, Meta>,
                    order: seq<Id>, newToken: Id -> string)
    returns (e: NewError, sess: RecvSession?)
    requires Lists(order, files)
    ensures e == Opened <==>
              sessionCount < MAX_CONCURRENT_SESSIONS && |files| <= MAX_FILES_PER_SESSION && ProperIds(files)
    ensures e == Opened <==> sess != null
    ensures sess != null ==>
              fresh(sess) && sess.State() == Offered(sessionId, clientIP, files, newToken).(started := true)
  {
    if sessionCount >= MAX_CONCURRENT_SESSIONS {
      return TooManySessions, null;
    }
    var s := new RecvSession(sessionId, clientIP, now);
    assert s.State() == Offered(sessionId, clientIP, map[], newToken);
    var r := FillSession(s, files, order, newToken);
    if r != Accepted {
      return Refused(r), null;
    }
    s.Start();
    return Opened, s;
  }
}
