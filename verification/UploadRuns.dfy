/** What holds after any run of concurrent uploads into a session that has just been started. */
module UploadRuns {
  import opened Base
  import opened Uploads
  import opened UploadSafety

  /** Every offered file is pending and counted. */
  predicate JustStarted(s: Session) {
    && s.started && s.filesCount == |s.states.Keys| && s.metas.Keys == s.states.Keys && s.tokens.Keys == s.states.Keys
    && (forall id | id in s.states :: s.states[id] == FileState(Pending, 0, None))
  }

  function Start(s: Session, disk: map<Path, bytes>): Sys {
    Sys(s, disk, map[], History(map[], map[], {}, map[], map[], disk, 0, false))
  }

  lemma StartEnding(s: Session, disk: map<Path, bytes>)
    requires JustStarted(s)
    ensures EndingOk(Start(s, disk)) && StatesOk(Start(s, disk)) && BooksOk(Start(s, disk))
  {}

  lemma StartCopies(cfg: Config, s: Session, disk: map<Path, bytes>)
    requires JustStarted(s)
    ensures CopiesOk(cfg, Start(s, disk))
  {}

  lemma StartIsSafe(cfg: Config, s: Session, disk: map<Path, bytes>)
    requires JustStarted(s)
    ensures Safe(cfg, Start(s, disk))
  {
    StartEnding(s, disk);
    StartCopies(cfg, s, disk);
  }

  lemma {:induction false} RunIsSafe(cfg: Config, y: Sys, actions: seq<Action>)
    requires Safe(cfg, y) && Run(cfg, y, actions).Some?
    ensures Safe(cfg, Run(cfg, y, actions).value)
    decreases |actions|
  {
    if actions != [] {
      StepKeepsSafe(cfg, y, actions[0]);
      RunIsSafe(cfg, Next(cfg, y, actions[0]).value, actions[1..]);
    }
  }

  // -------------------------------------------------------------- the counter

  function Open(y: Sys): set<Id> {
    set id | id in y.sess.states && !Terminal(y.sess.states[id].status)
  }

  /** The threads that have made a file terminal and not yet decremented the counter. */
  function Debtors(y: Sys): set<nat> {
    set t | t in y.threads && y.threads[t].Owing?
  }

  lemma {:induction false} SameSize(a: map<nat, Id>, b: map<Id, nat>)
    requires forall t | t in a :: a[t] in b && b[a[t]] == t
    requires forall id | id in b :: b[id] in a && a[b[id]] == id
    ensures |a.Keys| == |b.Keys|
    decreases a.Keys
  {
    if a.Keys != {} {
      var t :| t in a;
      var a1, b1 := a - {t}, b - {a[t]};
      SameSize(a1, b1);
      assert a.Keys == a1.Keys + {t} && b.Keys == b1.Keys + {a[t]};
    } else {
      assert b.Keys == {};
    }
  }

  lemma DebtorsAreOwing(y: Sys)
    requires Booked(y.threads, Owed, y.h.owing)
    ensures |Debtors(y)| == |y.h.owing.Keys|
  {
    var a := map t | t in Debtors(y) :: y.threads[t].id;
    forall t | t in a ensures a[t] in y.h.owing && y.h.owing[a[t]] == t {
      assert Owed(y.threads[t]) == Some(a[t]);
    }
    SameSize(a, y.h.owing);
    assert a.Keys == Debtors(y);
  }

  lemma FilesPartition(y: Sys)
    requires StatesOk(y)
    ensures |y.sess.states.Keys| == |Open(y)| + |y.h.owing.Keys| + |y.h.settled|
  {
    var owed, settled := y.h.owing.Keys, y.h.settled;
    forall id | id in y.sess.states
      ensures id in Open(y) <==> id !in owed && id !in settled
      ensures !(id in owed && id in settled)
    {
      assert FileOk(y.sess.states[id], id in y.h.owner.Keys, id in owed, id in settled);
    }
    Partition(y.sess.states.Keys, Open(y), owed, settled);
  }

  lemma Partition(all: set<Id>, a: set<Id>, b: set<Id>, c: set<Id>)
    requires a <= all && b <= all && c <= all
    requires forall id | id in all :: (id in a <==> id !in b && id !in c) && !(id in b && id in c)
    ensures |all| == |a| + |b| + |c|
  {
    assert all == (a + b) + c;
    assert a !! b && (a + b) !! c;
  }

  /** In every reachable state of a started session the counter is the number of files that
      can still change plus the number of decrements still to come. */
  lemma CounterIsExact(cfg: Config, s: Session, disk: map<Path, bytes>, actions: seq<Action>)
    requires JustStarted(s) && Run(cfg, Start(s, disk), actions).Some?
    ensures var y := Run(cfg, Start(s, disk), actions).value;
            y.sess.started ==> y.sess.filesCount == |Open(y)| + |Debtors(y)|
  {
    StartIsSafe(cfg, s, disk);
    RunIsSafe(cfg, Start(s, disk), actions);
    var y := Run(cfg, Start(s, disk), actions).value;
    DebtorsAreOwing(y);
    FilesPartition(y);
  }

  // ---------------------------------------------------------------- the ending

  /** What no step of a thread changes. */
  lemma AdvanceFrame(cfg: Config, y: Sys, tid: nat, env: Env)
    requires tid in y.threads && AdvanceThread(cfg, y, tid, env).Some?
    ensures var y1 := AdvanceThread(cfg, y, tid, env).value; y1.h.killed == y.h.killed && y1.h.foreign == y.h.foreign
  {
    match y.threads[tid] {
      case Admitted(req) => assert BeginStep(y, tid, req).h.killed == y.h.killed;
      case Working(id, target, body) => assert WorkStep(y, tid, id, target, body, env).h.killed == y.h.killed;
      case Naming(id, path, body) => assert NameStep(y, tid, id, path, body).h.killed == y.h.killed;
      case Removing(id, path, result, error) =>
        assert RemoveStep(y, tid, id, path, result, error).h.killed == y.h.killed;
      case Finishing(id, result, error) => assert FinishStep(y, tid, id, result, error).h.killed == y.h.killed;
      case Owing(id, error) => assert OweStep(y, tid, id, error).h.killed == y.h.killed;
      case Ending(error) => assert EndStep(y, tid, error).h.killed == y.h.killed;
      case Zeroing(error) => assert ZeroStep(y, tid, error).h.killed == y.h.killed;
      case _ =>
    }
  }

  lemma {:induction false} OnlyKillKills(cfg: Config, y: Sys, actions: seq<Action>)
    requires Run(cfg, y, actions).Some? && forall i | 0 <= i < |actions| :: !actions[i].Kill?
    ensures Run(cfg, y, actions).value.h.killed == y.h.killed
    decreases |actions|
  {
    if actions != [] {
      if actions[0].Advance? {
        AdvanceFrame(cfg, y, actions[0].tid, actions[0].env);
      }
      OnlyKillKills(cfg, Next(cfg, y, actions[0]).value, actions[1..]);
    }
  }

  /** Nobody is between making a file terminal and having acted on the counter. */
  ghost predicate NoOneEnds(y: Sys) {
    Debtors(y) == {} && !SomeoneEnds(y.threads)
  }

  lemma OpenOrSettled(y: Sys)
    requires StatesOk(y)
    ensures y.h.settled == y.sess.states.Keys ==> Open(y) == {}
    ensures Open(y) == {} && y.h.owing.Keys == {} ==> y.h.settled == y.sess.states.Keys
  {
    forall id | id in y.sess.states
      ensures id in Open(y) <==> id !in y.h.owing.Keys && id !in y.h.settled
    {
      assert FileOk(y.sess.states[id], id in y.h.owner.Keys, id in y.h.owing.Keys, id in y.h.settled);
    }
  }

  /** Unless End is called from outside, a session with files is over exactly when all its
      files are terminal, in every state in which no thread is about to act on the counter;
      and it is never over before. End returns true at most once, killed or not. */
  lemma EndsWithLastFile(cfg: Config, s: Session, disk: map<Path, bytes>, actions: seq<Action>)
    requires JustStarted(s) && Run(cfg, Start(s, disk), actions).Some?
    ensures var y := Run(cfg, Start(s, disk), actions).value;
            && y.h.ends == (if y.sess.started then 0 else 1)
            && ((forall i | 0 <= i < |actions| :: !actions[i].Kill?) ==>
                  && (!y.sess.started ==> Open(y) == {})
                  && (NoOneEnds(y) && y.sess.states != map[] ==> (y.sess.started <==> Open(y) != {})))
  {
    StartIsSafe(cfg, s, disk);
    RunIsSafe(cfg, Start(s, disk), actions);
    var y := Run(cfg, Start(s, disk), actions).value;
    OpenOrSettled(y);
    if forall i | 0 <= i < |actions| :: !actions[i].Kill? {
      OnlyKillKills(cfg, Start(s, disk), actions);
    }
    if Debtors(y) == {} {
      DebtorsAreOwing(y);
    }
  }

  // A session that counts some files twice.

  ghost predicate NobodyEnds(threads: map<nat, Thread>) {
    forall t | t in threads :: !threads[t].Ending? && !threads[t].Zeroing?
  }

  /** The counter is too high by `d`. */
  ghost predicate Overcounts(y: Sys, d: nat) {
    && y.sess.started && NobodyEnds(y.threads) && y.h.settled <= y.sess.states.Keys
    && y.sess.filesCount == |y.sess.states.Keys| - |y.h.settled| + d
  }

  lemma OweOvercounts(y: Sys, tid: nat, id: Id, error: Error, d: nat)
    requires Overcounts(y, d) && d > 0 && tid in y.threads && y.threads[tid] == Owing(id, error)
    requires id in y.sess.states && id !in y.h.settled
    ensures Overcounts(OweStep(y, tid, id, error), d)
  {
    SubsetSize(y.h.settled + {id}, y.sess.states.Keys);
  }

  lemma QuietOvercounts(y: Sys, tid: nat, y1: Sys, d: nat)
    requires Overcounts(y, d) && EndsNothing(y, tid, y1)
    ensures Overcounts(y1, d)
  {}

  lemma AdvanceOvercounts(cfg: Config, y: Sys, tid: nat, env: Env, d: nat)
    requires Overcounts(y, d) && d > 0 && tid in y.threads && AdvanceThread(cfg, y, tid, env).Some?
    requires y.threads[tid].Owing? ==> var id := y.threads[tid].id; id in y.sess.states && id !in y.h.settled
    ensures Overcounts(AdvanceThread(cfg, y, tid, env).value, d)
  {
    if Held(y.threads[tid]).Some? {
      AttemptEndsNothing(cfg, y, tid, env);
      QuietOvercounts(y, tid, AdvanceThread(cfg, y, tid, env).value, d);
    } else {
      match y.threads[tid] {
        case Owing(id, error) => OweOvercounts(y, tid, id, error, d);
        case Admitted(req) => QuietOvercounts(y, tid, BeginStep(y, tid, req), d);
        case Called(req) => QuietOvercounts(y, tid, AdvanceThread(cfg, y, tid, env).value, d);
      }
    }
  }

  lemma StepOvercounts(cfg: Config, y: Sys, a: Action, d: nat)
    requires BooksOk(y) && StatesOk(y) && Overcounts(y, d) && d > 0 && Next(cfg, y, a).Some? && !a.Kill?
    ensures Overcounts(Next(cfg, y, a).value, d)
  {
    match a
    case Call(tid, req) => QuietOvercounts(y, tid, Next(cfg, y, a).value, d);
    case Advance(tid, env) =>
      if y.threads[tid].Owing? {
        OwedIsUnsettled(y, tid);
      }
      AdvanceOvercounts(cfg, y, tid, env, d);
    case _ =>
  }

  /** Nothing but its counter is wrong with the session. */
  ghost predicate Miscounting(cfg: Config, y: Sys, d: nat) {
    BooksOk(y) && StatesOk(y) && CopiesOk(cfg, y) && Overcounts(y, d)
  }

  lemma {:induction false} RunMiscounts(cfg: Config, y: Sys, actions: seq<Action>, d: nat)
    requires Miscounting(cfg, y, d) && d > 0 && Run(cfg, y, actions).Some?
    requires forall i | 0 <= i < |actions| :: !actions[i].Kill?
    ensures Miscounting(cfg, Run(cfg, y, actions).value, d)
    decreases |actions|
  {
    if actions != [] {
      StepMiscounts(cfg, y, actions[0], d);
      RunMiscounts(cfg, Next(cfg, y, actions[0]).value, actions[1..], d);
    }
  }

  lemma StepMiscounts(cfg: Config, y: Sys, a: Action, d: nat)
    requires Miscounting(cfg, y, d) && d > 0 && Next(cfg, y, a).Some? && !a.Kill?
    ensures Miscounting(cfg, Next(cfg, y, a).value, d)
  {
    StepKeepsBooks(cfg, y, a);
    StepKeepsStates(cfg, y, a);
    StepKeepsCopies(cfg, y, a);
    StepOvercounts(cfg, y, a, d);
  }

  /** A session whose counter starts too high, because a file was accepted twice, never ends by
      itself: it is still started when all its files are terminal and all threads have returned. */
  lemma OvercountedNeverEnds(cfg: Config, s: Session, disk: map<Path, bytes>, actions: seq<Action>, d: nat)
    requires d > 0 && JustStarted(s.(filesCount := s.filesCount - d)) && Run(cfg, Start(s, disk), actions).Some?
    requires forall i | 0 <= i < |actions| :: !actions[i].Kill?
    ensures var y := Run(cfg, Start(s, disk), actions).value;
            y.sess.started && y.sess.filesCount == |Open(y)| + |Debtors(y)| + d
  {
    StartMiscounts(cfg, s, disk, d);
    RunMiscounts(cfg, Start(s, disk), actions, d);
    var y := Run(cfg, Start(s, disk), actions).value;
    DebtorsAreOwing(y);
    FilesPartition(y);
  }

  lemma StartMiscounts(cfg: Config, s: Session, disk: map<Path, bytes>, d: nat)
    requires JustStarted(s.(filesCount := s.filesCount - d))
    ensures Miscounting(cfg, Start(s, disk), d)
  {
    var exact := s.(filesCount := s.filesCount - d);
    StartEnding(exact, disk);
    StartCopies(cfg, exact, disk);
    assert Start(s, disk) == Start(exact, disk).(sess := s);
    assert s.states == exact.states && s.metas == exact.metas && s.tokens == exact.tokens;
  }

  // --------------------------------------------------------------- the attempts

  predicate InAttemptOn(t: Thread, id: Id) {
    Held(t) == Some(id)
  }

  /** In every reachable state each file has had at most three attempts, and at most one is
      under way. */
  lemma AttemptsAreBounded(cfg: Config, s: Session, disk: map<Path, bytes>, actions: seq<Action>)
    requires JustStarted(s) && Run(cfg, Start(s, disk), actions).Some?
    ensures var y := Run(cfg, Start(s, disk), actions).value;
            && (forall id | id in y.sess.states :: y.sess.states[id].attempts <= MAX_CHECKSUM_ATTEMPTS)
            && (forall t, u, id | t in y.threads && u in y.threads
                                  && InAttemptOn(y.threads[t], id) && InAttemptOn(y.threads[u], id) :: t == u)
  {
    StartIsSafe(cfg, s, disk);
    RunIsSafe(cfg, Start(s, disk), actions);
    var y := Run(cfg, Start(s, disk), actions).value;
    forall id | id in y.sess.states ensures y.sess.states[id].attempts <= MAX_CHECKSUM_ATTEMPTS {
      assert FileOk(y.sess.states[id], id in y.h.owner.Keys, id in y.h.owing.Keys, id in y.h.settled);
    }
  }

  /** How a file may change: never once it is terminal; its attempts only grow and its target,
      once chosen, stays. */
  predicate Evolves(fs: FileState, fs1: FileState) {
    && (Terminal(fs.status) ==> fs1 == fs)
    && fs.attempts <= fs1.attempts
    && (fs.target.Some? ==> fs1.target == fs.target)
  }

  ghost predicate AllEvolve(states: map<Id, FileState>, states1: map<Id, FileState>) {
    states.Keys == states1.Keys && forall id | id in states :: Evolves(states[id], states1[id])
  }

  lemma AttemptEvolves(cfg: Config, y: Sys, tid: nat, env: Env)
    requires tid in y.threads && AdvanceThread(cfg, y, tid, env).Some?
    requires Held(y.threads[tid]).Some? && InAttempt(y, tid, y.threads[tid].id)
    requires Informed(y.sess.states, y.h.finals, y.threads[tid])
    ensures AllEvolve(y.sess.states, AdvanceThread(cfg, y, tid, env).value.sess.states)
  {
    match y.threads[tid] {
      case Naming(id, path, body) => assert AllEvolve(y.sess.states, NameStep(y, tid, id, path, body).sess.states);
      case Finishing(id, result, error) =>
        assert AllEvolve(y.sess.states, FinishStep(y, tid, id, result, error).sess.states);
      case Working(id, target, body) => assert WorkStep(y, tid, id, target, body, env).sess == y.sess;
      case Copying(id, path, body) => assert AdvanceThread(cfg, y, tid, env).value.sess == y.sess;
      case Removing(id, path, result, error) => assert RemoveStep(y, tid, id, path, result, error).sess == y.sess;
    }
  }

  lemma OutsideEvolves(cfg: Config, y: Sys, tid: nat, env: Env)
    requires tid in y.threads && AdvanceThread(cfg, y, tid, env).Some? && Held(y.threads[tid]).None?
    ensures AllEvolve(y.sess.states, AdvanceThread(cfg, y, tid, env).value.sess.states)
  {
    match y.threads[tid] {
      case Admitted(req) => assert AllEvolve(y.sess.states, BeginStep(y, tid, req).sess.states);
      case Owing(id, error) => assert OweStep(y, tid, id, error).sess.states == y.sess.states;
      case Ending(error) => assert EndStep(y, tid, error).sess.states == y.sess.states;
      case Zeroing(error) => assert ZeroStep(y, tid, error).sess.states == y.sess.states;
      case Called(req) => assert AdvanceThread(cfg, y, tid, env).value.sess == y.sess;
    }
  }

  lemma StepEvolves(cfg: Config, y: Sys, a: Action)
    requires BooksOk(y) && StatesOk(y) && CopiesOk(cfg, y) && Next(cfg, y, a).Some?
    ensures AllEvolve(y.sess.states, Next(cfg, y, a).value.sess.states)
  {
    if a.Advance? {
      if Held(y.threads[a.tid]).Some? {
        HolderAtWork(cfg, y, a.tid);
        AttemptEvolves(cfg, y, a.tid, a.env);
      } else {
        OutsideEvolves(cfg, y, a.tid, a.env);
      }
    } else {
      assert Next(cfg, y, a).value.sess == y.sess;
    }
  }

  /** Over any run: each file turns terminal at most once and keeps the target its first
      attempt chose. */
  lemma {:induction false} FilesEvolve(cfg: Config, y: Sys, actions: seq<Action>)
    requires Safe(cfg, y) && Run(cfg, y, actions).Some?
    ensures AllEvolve(y.sess.states, Run(cfg, y, actions).value.sess.states)
    decreases |actions|
  {
    if actions != [] {
      var y1 := Next(cfg, y, actions[0]).value;
      StepEvolves(cfg, y, actions[0]);
      StepKeepsSafe(cfg, y, actions[0]);
      FilesEvolve(cfg, y1, actions[1..]);
    }
  }

  // ------------------------------------------------------ between two attempts

  /** The thread is about to claim the file, if it may. */
  predicate AboutToClaim(y: Sys, a: Action, id: Id) {
    a.Advance? && a.tid in y.threads && y.threads[a.tid].Admitted? && y.threads[a.tid].req.id == id
  }

  /** What of the session concerns one file. */
  predicate SameFor(s: Session, s1: Session, id: Id) {
    && s1.id == s.id && s1.clientIP == s.clientIP && s1.metas == s.metas && s1.tokens == s.tokens
    && id in s.states && id in s1.states && s1.states[id] == s.states[id]
  }

  lemma AttemptLeavesOthers(cfg: Config, y: Sys, tid: nat, env: Env, id: Id)
    requires tid in y.threads && AdvanceThread(cfg, y, tid, env).Some? && Held(y.threads[tid]).Some?
    requires id in y.sess.states && y.threads[tid].id != id
    ensures SameFor(y.sess, AdvanceThread(cfg, y, tid, env).value.sess, id)
  {
    match y.threads[tid] {
      case Naming(f, path, body) => assert SameFor(y.sess, NameStep(y, tid, f, path, body).sess, id);
      case Finishing(f, result, error) => assert SameFor(y.sess, FinishStep(y, tid, f, result, error).sess, id);
      case Working(f, target, body) => assert WorkStep(y, tid, f, target, body, env).sess == y.sess;
      case Removing(f, path, result, error) => assert RemoveStep(y, tid, f, path, result, error).sess == y.sess;
      case Copying(f, path, body) => assert AdvanceThread(cfg, y, tid, env).value.sess == y.sess;
    }
  }

  lemma OutsideLeavesOthers(cfg: Config, y: Sys, tid: nat, env: Env, id: Id)
    requires tid in y.threads && AdvanceThread(cfg, y, tid, env).Some? && Held(y.threads[tid]).None?
    requires id in y.sess.states && (y.threads[tid].Admitted? ==> y.threads[tid].req.id != id)
    ensures SameFor(y.sess, AdvanceThread(cfg, y, tid, env).value.sess, id)
  {
    match y.threads[tid] {
      case Admitted(req) => assert SameFor(y.sess, BeginStep(y, tid, req).sess, id);
      case Owing(f, error) => assert SameFor(y.sess, OweStep(y, tid, f, error).sess, id);
      case Ending(error) => assert SameFor(y.sess, EndStep(y, tid, error).sess, id);
      case Zeroing(error) => assert SameFor(y.sess, ZeroStep(y, tid, error).sess, id);
      case Called(req) => assert AdvanceThread(cfg, y, tid, env).value.sess == y.sess;
    }
  }

  /** A pending file is touched only by a thread that claims it. */
  lemma PendingIsLeftAlone(cfg: Config, y: Sys, a: Action, id: Id)
    requires Safe(cfg, y) && Next(cfg, y, a).Some? && !AboutToClaim(y, a, id)
    requires id in y.sess.states && y.sess.states[id].status == Pending
    ensures SameFor(y.sess, Next(cfg, y, a).value.sess, id)
  {
    if a.Advance? {
      if Held(y.threads[a.tid]).Some? {
        HeldIsNotOwed(y, a.tid);
        AttemptLeavesOthers(cfg, y, a.tid, a.env, id);
      } else {
        OutsideLeavesOthers(cfg, y, a.tid, a.env, id);
      }
    } else {
      assert Next(cfg, y, a).value.sess == y.sess;
    }
  }

  /** Unless End was called from outside, a session with a pending file is started. */
  lemma PendingMeansStarted(y: Sys, id: Id)
    requires StatesOk(y) && EndingOk(y) && !y.h.killed && id in y.sess.states && y.sess.states[id].status == Pending
    ensures y.sess.started
  {
    assert FileOk(y.sess.states[id], id in y.h.owner.Keys, id in y.h.owing.Keys, id in y.h.settled);
  }

  lemma PendingStep(cfg: Config, y: Sys, a: Action, id: Id)
    requires Safe(cfg, y) && Next(cfg, y, a).Some? && !AboutToClaim(y, a, id)
    requires id in y.sess.states && y.sess.states[id].status == Pending
    ensures SameFor(y.sess, Next(cfg, y, a).value.sess, id) && Safe(cfg, Next(cfg, y, a).value)
  {
    PendingIsLeftAlone(cfg, y, a, id);
    StepKeepsSafe(cfg, y, a);
  }

  ghost predicate NobodyClaims(cfg: Config, y: Sys, actions: seq<Action>, id: Id)
    decreases |actions|
  {
    actions == [] ||
    (!AboutToClaim(y, actions[0], id)
     && (Next(cfg, y, actions[0]).Some? ==> NobodyClaims(cfg, Next(cfg, y, actions[0]).value, actions[1..], id)))
  }

  /** Whatever other uploads do in the meantime, a pending file waits for its next attempt
      unchanged and the session stays open for it, unless End is called from outside. */
  lemma {:induction false} PendingFileWaits(cfg: Config, y: Sys, actions: seq<Action>, id: Id)
    requires Safe(cfg, y) && Run(cfg, y, actions).Some? && NobodyClaims(cfg, y, actions, id)
    requires id in y.sess.states && y.sess.states[id].status == Pending
    ensures SameFor(y.sess, Run(cfg, y, actions).value.sess, id)
    ensures !Run(cfg, y, actions).value.h.killed ==> Run(cfg, y, actions).value.sess.started
    decreases |actions|
  {
    if actions == [] {
      if !y.h.killed {
        PendingMeansStarted(y, id);
      }
    } else {
      PendingStep(cfg, y, actions[0], id);
      PendingFileWaits(cfg, Next(cfg, y, actions[0]).value, actions[1..], id);
    }
  }

  // ------------------------------------------------------------------- the disk

  lemma AdvanceChangesDraft(cfg: Config, y: Sys, tid: nat, env: Env, p: Path)
    requires tid in y.threads && AdvanceThread(cfg, y, tid, env).Some? && p in y.disk
    requires Draft(y.threads[tid]) != Some(p)
    ensures var y1 := AdvanceThread(cfg, y, tid, env).value; p in y1.disk && y1.disk[p] == y.disk[p]
  {
    match y.threads[tid] {
      case Admitted(req) => assert BeginStep(y, tid, req).disk == y.disk;
      case Working(id, target, body) => assert WorkStep(y, tid, id, target, body, env).disk[p] == y.disk[p];
      case Naming(id, path, body) => assert NameStep(y, tid, id, path, body).disk == y.disk;
      case Removing(id, path, result, error) => assert RemoveStep(y, tid, id, path, result, error).disk[p] == y.disk[p];
      case Finishing(id, result, error) => assert FinishStep(y, tid, id, result, error).disk == y.disk;
      case Owing(id, error) => assert OweStep(y, tid, id, error).disk == y.disk;
      case Ending(error) => assert EndStep(y, tid, error).disk == y.disk;
      case Zeroing(error) => assert ZeroStep(y, tid, error).disk == y.disk;
      case _ =>
    }
  }

  /** A step removes or changes a file only if it is the draft of the thread that takes it, which
      that thread created; whatever else was on the disk stays as it was. */
  lemma OnlyOwnDraftsChange(cfg: Config, y: Sys, a: Action, p: Path)
    requires BooksOk(y) && Next(cfg, y, a).Some? && p in y.disk
    ensures var y1 := Next(cfg, y, a).value;
            || (p in y1.disk && y1.disk[p] == y.disk[p])
            || ((a.Advance? || a.Spill?) && p in y.h.drafts && y.h.drafts[p] == a.tid)
  {
    if a.Advance? && Draft(y.threads[a.tid]) != Some(p) {
      AdvanceChangesDraft(cfg, y, a.tid, a.env, p);
    }
  }

  ghost predicate AllReturned(y: Sys) {
    forall t | t in y.threads :: y.threads[t].Returned?
  }

  ghost predicate Includes(a: map<Path, bytes>, b: map<Path, bytes>) {
    forall p | p in b :: p in a && a[p] == b[p]
  }

  lemma ForeignStep(cfg: Config, y: Sys, a: Action)
    requires y.h.foreign.Keys <= y.disk.Keys && Next(cfg, y, a).Some?
    ensures Includes(Next(cfg, y, a).value.h.foreign, y.h.foreign)
  {
    if a.Advance? {
      AdvanceFrame(cfg, y, a.tid, a.env);
    }
  }

  /** What other programs put on the disk is never touched. */
  lemma {:induction false} ForeignStays(cfg: Config, y: Sys, actions: seq<Action>)
    requires Safe(cfg, y) && Run(cfg, y, actions).Some?
    ensures Includes(Run(cfg, y, actions).value.h.foreign, y.h.foreign)
    decreases |actions|
  {
    if actions != [] {
      ForeignStep(cfg, y, actions[0]);
      StepKeepsSafe(cfg, y, actions[0]);
      ForeignStays(cfg, Next(cfg, y, actions[0]).value, actions[1..]);
    }
  }

  /** The path of a finished file. */
  predicate IsCopyOf(y: Sys, id: Id, p: Path) {
    id in y.sess.states && y.sess.states[id].status == Finished && y.sess.states[id].target == Some(p)
  }

  /** Once every thread has returned, the disk holds what was there at the start and what other
      programs added, unchanged, and one copy of each finished file, at its own path, with the
      declared length and checksum; and nothing else. */
  lemma DiskIsConserved(cfg: Config, s: Session, disk: map<Path, bytes>, actions: seq<Action>)
    requires JustStarted(s) && Run(cfg, Start(s, disk), actions).Some?
    requires AllReturned(Run(cfg, Start(s, disk), actions).value)
    ensures var y := Run(cfg, Start(s, disk), actions).value;
            && Includes(y.h.foreign, disk) && Includes(y.disk, y.h.foreign)
            && (forall p | p in y.disk :: p in y.h.foreign || exists id :: IsCopyOf(y, id, p))
            && (forall id, p | IsCopyOf(y, id, p) ::
                  p in y.disk && p !in y.h.foreign && id in y.sess.metas && Matches(cfg, y.sess.metas[id], y.disk[p]))
            && (forall id | id in y.sess.states && y.sess.states[id].status == Finished ::
                  y.sess.states[id].target.Some?)
            && (forall id, jd, p | IsCopyOf(y, id, p) && IsCopyOf(y, jd, p) :: id == jd)
  {
    StartIsSafe(cfg, s, disk);
    RunIsSafe(cfg, Start(s, disk), actions);
    ForeignStays(cfg, Start(s, disk), actions);
    ReturnedDisk(cfg, Run(cfg, Start(s, disk), actions).value);
  }

  lemma NoneHeld(y: Sys)
    requires BooksOk(y) && StatesOk(y) && AllReturned(y)
    ensures y.h.drafts.Keys == {} && forall id | id in y.sess.states :: y.sess.states[id].status != InProgress
  {
    assert forall p | p in y.h.drafts :: Draft(y.threads[y.h.drafts[p]]) == Some(p);
    forall id | id in y.sess.states ensures y.sess.states[id].status != InProgress {
      assert FileOk(y.sess.states[id], id in y.h.owner.Keys, id in y.h.owing.Keys, id in y.h.settled);
      assert id in y.h.owner ==> Held(y.threads[y.h.owner[id]]) == Some(id);
    }
  }

  lemma ReturnedDisk(cfg: Config, y: Sys)
    requires Safe(cfg, y) && AllReturned(y)
    ensures forall p | p in y.h.foreign :: p in y.disk && y.disk[p] == y.h.foreign[p]
    ensures forall p | p in y.disk :: p in y.h.foreign || exists id :: IsCopyOf(y, id, p)
    ensures forall id, p | IsCopyOf(y, id, p) ::
              p in y.disk && p !in y.h.foreign && id in y.sess.metas && Matches(cfg, y.sess.metas[id], y.disk[p])
    ensures forall id | id in y.sess.states && y.sess.states[id].status == Finished :: y.sess.states[id].target.Some?
    ensures forall id, jd, p | IsCopyOf(y, id, p) && IsCopyOf(y, jd, p) :: id == jd
  {
    NoneHeld(y);
    forall p | p in y.disk ensures p in y.h.foreign || exists id :: IsCopyOf(y, id, p) {
      assert p in y.h.drafts.Keys + y.h.finals.Keys + y.h.foreign.Keys;
      if p in y.h.finals {
        assert FinalOk(cfg, y.sess.metas, y.sess.states, y.h.finals[p], p, y.disk[p]);
        assert IsCopyOf(y, y.h.finals[p], p);
      }
    }
    forall id, p | IsCopyOf(y, id, p)
      ensures p in y.h.finals && y.h.finals[p] == id && p in y.disk && p !in y.h.foreign
      ensures id in y.sess.metas && Matches(cfg, y.sess.metas[id], y.disk[p])
    {
      assert Delivered(y.sess.states[id], y.h.finals, id);
      assert FinalOk(cfg, y.sess.metas, y.sess.states, y.h.finals[p], p, y.disk[p]);
    }
  }

  // ------------------------------------------------------------------- progress

  function StepsLeft(t: Thread): nat {
    match t
    case Called(_) => 10
    case Admitted(_) => 9
    case Working(_, _, _) => 8
    case Naming(_, _, _) => 7
    case Copying(_, _, _) => 6
    case Removing(_, _, _, _) => 5
    case Finishing(_, _, _) => 4
    case Owing(_, _) => 3
    case Ending(_) => 2
    case Zeroing(_) => 1
    case Returned(_) => 0
  }

  lemma AdvanceBringsReturn(cfg: Config, y: Sys, tid: nat, env: Env)
    requires tid in y.threads && !y.threads[tid].Returned?
    requires Held(y.threads[tid]).Some? ==> y.threads[tid].id in y.sess.states && y.threads[tid].id in y.sess.metas
    ensures var n := AdvanceThread(cfg, y, tid, env);
            n.Some? && tid in n.value.threads && StepsLeft(n.value.threads[tid]) < StepsLeft(y.threads[tid])
  {}

  /** How many steps a thread takes in a run. */
  function Turns(actions: seq<Action>, tid: nat): nat {
    if actions == [] then 0
    else (if actions[0].Advance? && actions[0].tid == tid then 1 else 0) + Turns(actions[1..], tid)
  }

  function StepsLeftIn(threads: map<nat, Thread>, tid: nat): nat {
    if tid in threads then StepsLeft(threads[tid]) else 10
  }

  /** A step of one thread is a step of no other. */
  lemma AdvanceMovesOne(cfg: Config, y: Sys, tid: nat, env: Env)
    requires tid in y.threads && AdvanceThread(cfg, y, tid, env).Some?
    ensures var threads := AdvanceThread(cfg, y, tid, env).value.threads;
            tid in threads && threads == y.threads[tid := threads[tid]]
  {
    match y.threads[tid] {
      case Admitted(req) => assert BeginStep(y, tid, req).threads.Keys == y.threads.Keys;
      case Working(id, target, body) => assert WorkStep(y, tid, id, target, body, env).threads.Keys == y.threads.Keys;
      case Naming(id, path, body) => assert NameStep(y, tid, id, path, body).threads.Keys == y.threads.Keys;
      case Removing(id, path, result, error) =>
        assert RemoveStep(y, tid, id, path, result, error).threads.Keys == y.threads.Keys;
      case Finishing(id, result, error) => assert FinishStep(y, tid, id, result, error).threads.Keys == y.threads.Keys;
      case Owing(id, error) => assert OweStep(y, tid, id, error).threads.Keys == y.threads.Keys;
      case Ending(error) => assert EndStep(y, tid, error).threads.Keys == y.threads.Keys;
      case Zeroing(error) => assert ZeroStep(y, tid, error).threads.Keys == y.threads.Keys;
      case _ =>
    }
  }

  lemma AdvanceTakesOne(cfg: Config, y: Sys, tid: nat, env: Env)
    requires tid in y.threads && AdvanceThread(cfg, y, tid, env).Some?
    ensures var threads := AdvanceThread(cfg, y, tid, env).value.threads;
            tid in threads && StepsLeft(threads[tid]) < StepsLeft(y.threads[tid])
  {}

  lemma {:induction false} TurnsAreBounded(cfg: Config, y: Sys, actions: seq<Action>, tid: nat)
    requires Run(cfg, y, actions).Some?
    ensures Turns(actions, tid) + StepsLeftIn(Run(cfg, y, actions).value.threads, tid) <= StepsLeftIn(y.threads, tid)
    decreases |actions|
  {
    if actions != [] {
      if actions[0].Advance? {
        AdvanceTakesOne(cfg, y, actions[0].tid, actions[0].env);
        AdvanceMovesOne(cfg, y, actions[0].tid, actions[0].env);
      }
      TurnsAreBounded(cfg, Next(cfg, y, actions[0]).value, actions[1..], tid);
    }
  }

  /** No thread ever waits for another. In any run from a just started session a thread takes at
      most ten steps, and until it has returned it can take its next one, whatever others do. */
  lemma EveryThreadReturns(cfg: Config, s: Session, disk: map<Path, bytes>, actions: seq<Action>, tid: nat, env: Env)
    requires JustStarted(s) && Run(cfg, Start(s, disk), actions).Some?
    ensures Turns(actions, tid) <= 10
    ensures var y := Run(cfg, Start(s, disk), actions).value;
            tid in y.threads && !y.threads[tid].Returned? ==>
                  Turns(actions, tid) < 10 && Next(cfg, y, Advance(tid, env)).Some?
  {
    TurnsAreBounded(cfg, Start(s, disk), actions, tid);
    StartIsSafe(cfg, s, disk);
    RunIsSafe(cfg, Start(s, disk), actions);
    var y := Run(cfg, Start(s, disk), actions).value;
    if tid in y.threads && !y.threads[tid].Returned? {
      CanGoOn(cfg, y, tid, env);
    }
  }

  lemma CanGoOn(cfg: Config, y: Sys, tid: nat, env: Env)
    requires Safe(cfg, y) && tid in y.threads && !y.threads[tid].Returned?
    ensures Next(cfg, y, Advance(tid, env)).Some?
  {
    if Held(y.threads[tid]).Some? {
      HolderAtWork(cfg, y, tid);
    }
    AdvanceBringsReturn(cfg, y, tid, env);
  }
}
