/** What every step of every interleaving of uploads keeps, and what follows for whole runs. */
module UploadSafety {
  import opened Base
  import opened Uploads

  // ---------------------------------------------------------------- the books

  lemma BeginKeepsBooks(y: Sys, tid: nat, req: Request)
    requires BooksOk(y) && FilesOk(y.sess.states, y.h.owner.Keys, y.h.owing.Keys, y.h.settled)
    requires tid in y.threads && y.threads[tid] == Admitted(req)
    ensures BooksOk(BeginStep(y, tid, req))
  {
    if Acceptable(y.sess, req) {
      assert FileOk(y.sess.states[req.id], req.id in y.h.owner.Keys, req.id in y.h.owing.Keys, req.id in y.h.settled);
    }
    GoKeepsBooks(y, tid, BeginStep(y, tid, req).threads[tid]);
  }

  lemma WorkKeepsBooks(y: Sys, tid: nat, id: Id, target: Option<Path>, body: bytes, env: Env)
    requires BooksOk(y) && y.h.drafts.Keys <= y.disk.Keys && tid in y.threads
    requires y.threads[tid] == Working(id, target, body)
    ensures BooksOk(WorkStep(y, tid, id, target, body, env))
  {
    GoKeepsBooks(y, tid, WorkStep(y, tid, id, target, body, env).threads[tid]);
  }

  lemma FinishKeepsBooks(y: Sys, tid: nat, id: Id, result: Status, error: Error)
    requires BooksOk(y) && id in y.sess.states && id !in y.h.owing
    requires tid in y.threads && y.threads[tid] == Finishing(id, result, error)
    ensures BooksOk(FinishStep(y, tid, id, result, error))
  {
    GoKeepsBooks(y, tid, FinishStep(y, tid, id, result, error).threads[tid]);
  }

  /** Only the three steps above give a thread a new key. */
  predicate NoNewKey(t: Thread, t1: Thread) {
    && (Held(t1).Some? ==> Held(t1) == Held(t)) && (Owed(t1).Some? ==> Owed(t1) == Owed(t))
    && (Draft(t1).Some? ==> Draft(t1) == Draft(t))
  }

  ghost predicate LikeGo(y: Sys, tid: nat, y1: Sys) {
    && tid in y1.threads
    && var y2 := Go(y, tid, y1.threads[tid]);
       y1.threads == y2.threads && y1.h.owner == y2.h.owner && y1.h.owing == y2.h.owing && y1.h.drafts == y2.h.drafts
  }

  lemma AdvanceIsGo(cfg: Config, y: Sys, tid: nat, env: Env)
    requires tid in y.threads && AdvanceThread(cfg, y, tid, env).Some?
    requires !y.threads[tid].Admitted? && !y.threads[tid].Working? && !y.threads[tid].Finishing?
    ensures LikeGo(y, tid, AdvanceThread(cfg, y, tid, env).value)
    ensures NoNewKey(y.threads[tid], AdvanceThread(cfg, y, tid, env).value.threads[tid])
  {
    match y.threads[tid]
    case Naming(id, path, body) => assert LikeGo(y, tid, NameStep(y, tid, id, path, body));
    case Copying(id, path, body) =>
      var (result, error) := CopyVerdict(cfg, y.sess.metas[id], body, env.ioOk, env.flushOk);
      assert LikeGo(y, tid, CopyStep(y, tid, id, path, Limited(body, y.sess.metas[id].size), result, error));
    case Removing(id, path, result, error) => assert LikeGo(y, tid, RemoveStep(y, tid, id, path, result, error));
    case Owing(id, error) => assert LikeGo(y, tid, OweStep(y, tid, id, error));
    case Ending(error) => assert LikeGo(y, tid, EndStep(y, tid, error));
    case _ =>
  }

  lemma AdvanceKeepsBooks(cfg: Config, y: Sys, tid: nat, env: Env)
    requires BooksOk(y) && tid in y.threads && AdvanceThread(cfg, y, tid, env).Some?
    requires !y.threads[tid].Admitted? && !y.threads[tid].Working? && !y.threads[tid].Finishing?
    ensures BooksOk(AdvanceThread(cfg, y, tid, env).value)
  {
    AdvanceIsGo(cfg, y, tid, env);
    GoKeepsBooks(y, tid, AdvanceThread(cfg, y, tid, env).value.threads[tid]);
  }

  /** The thread is inside an attempt on the file. */
  ghost predicate InAttempt(y: Sys, tid: nat, id: Id) {
    && id in y.sess.states && id in y.h.owner && y.h.owner[id] == tid && y.sess.states[id].status == InProgress
    && id !in y.h.owing && id !in y.h.settled && 1 <= y.sess.states[id].attempts <= MAX_CHECKSUM_ATTEMPTS
  }

  lemma HeldIsNotOwed(y: Sys, tid: nat)
    requires Booked(y.threads, Held, y.h.owner) && FilesOk(y.sess.states, y.h.owner.Keys, y.h.owing.Keys, y.h.settled)
    requires tid in y.threads && Held(y.threads[tid]).Some?
    ensures InAttempt(y, tid, y.threads[tid].id)
  {
    var id := y.threads[tid].id;
    assert id in y.h.owner.Keys && id in y.sess.states;
    assert FileOk(y.sess.states[id], id in y.h.owner.Keys, id in y.h.owing.Keys, id in y.h.settled);
  }

  lemma AnyAdvanceKeepsBooks(cfg: Config, y: Sys, tid: nat, env: Env)
    requires BooksOk(y) && FilesOk(y.sess.states, y.h.owner.Keys, y.h.owing.Keys, y.h.settled)
    requires y.h.drafts.Keys <= y.disk.Keys && tid in y.threads && AdvanceThread(cfg, y, tid, env).Some?
    ensures BooksOk(AdvanceThread(cfg, y, tid, env).value)
  {
    match y.threads[tid] {
      case Admitted(req) => BeginKeepsBooks(y, tid, req);
      case Working(id, target, body) => WorkKeepsBooks(y, tid, id, target, body, env);
      case Finishing(id, result, error) =>
        HeldIsNotOwed(y, tid);
        FinishKeepsBooks(y, tid, id, result, error);
      case _ => AdvanceKeepsBooks(cfg, y, tid, env);
    }
  }

  lemma StepKeepsBooks(cfg: Config, y: Sys, a: Action)
    requires BooksOk(y) && FilesOk(y.sess.states, y.h.owner.Keys, y.h.owing.Keys, y.h.settled)
    requires y.h.drafts.Keys <= y.disk.Keys && Next(cfg, y, a).Some?
    ensures BooksOk(Next(cfg, y, a).value)
  {
    match a
    case Call(tid, req) => GoKeepsBooks(y, tid, Called(req));
    case Kill(tid) => GoKeepsBooks(y.(h := y.h.(killed := true)), tid, Ending(Ok));
    case Advance(tid, env) => AnyAdvanceKeepsBooks(cfg, y, tid, env);
    case _ =>
  }

  // --------------------------------------------------------------- the files

  /** `book1` is `book`, with `id` listed or not. */
  ghost predicate UpTo(book: set<Id>, book1: set<Id>, id: Id) {
    book1 == book || book1 == book + {id} || book1 == book - {id}
  }

  lemma RebookKeys(book: map<string, nat>, before: Option<string>, after: Option<string>, tid: nat)
    requires before.Some? ==> before.value in book
    requires before.None? || after.None? || before == after
    ensures before == after ==> Rebook(book, before, after, tid).Keys == book.Keys
    ensures before.None? && after.Some? ==> Rebook(book, before, after, tid).Keys == book.Keys + {after.value}
    ensures before.Some? && after.None? ==> Rebook(book, before, after, tid).Keys == book.Keys - {before.value}
  {}

  lemma FilesAfter(states: map<Id, FileState>, states1: map<Id, FileState>, held: set<Id>, held1: set<Id>,
                   owed: set<Id>, owed1: set<Id>,
                   settled: set<Id>, settled1: set<Id>, id: Id)
    requires FilesOk(states, held, owed, settled) && id in states && states1.Keys == states.Keys
    requires FileOk(states1[id], id in held1, id in owed1, id in settled1)
    requires forall k | k in states && k != id :: states1[k] == states[k]
    requires UpTo(held, held1, id) && UpTo(owed, owed1, id) && UpTo(settled, settled1, id)
    ensures FilesOk(states1, held1, owed1, settled1)
  {}

  /** The books of attempts and debts after a step of a thread. */
  lemma BooksAfter(y: Sys, tid: nat, t: Thread)
    requires tid in y.threads
    requires Held(y.threads[tid]).Some? ==> Held(y.threads[tid]).value in y.h.owner
    requires Owed(y.threads[tid]).Some? ==> Owed(y.threads[tid]).value in y.h.owing
    requires var was := y.threads[tid];
             && (Held(was).None? || Held(t).None? || Held(was) == Held(t))
             && (Owed(was).None? || Owed(t).None? || Owed(was) == Owed(t))
    ensures var h, was := Go(y, tid, t).h, y.threads[tid];
            && h.owner.Keys == (if Held(was) == Held(t) then y.h.owner.Keys
                                else if Held(was).None? then y.h.owner.Keys + {Held(t).value}
                                else y.h.owner.Keys - {Held(was).value})
            && h.owing.Keys == (if Owed(was) == Owed(t) then y.h.owing.Keys
                                else if Owed(was).None? then y.h.owing.Keys + {Owed(t).value}
                                else y.h.owing.Keys - {Owed(was).value})
  {
    RebookKeys(y.h.owner, Held(y.threads[tid]), Held(t), tid);
    RebookKeys(y.h.owing, Owed(y.threads[tid]), Owed(t), tid);
  }

  lemma BeginKeepsStates(y: Sys, tid: nat, req: Request)
    requires StatesOk(y) && tid in y.threads && y.threads[tid] == Admitted(req)
    ensures StatesOk(BeginStep(y, tid, req))
  {
    var y1 := BeginStep(y, tid, req);
    BooksAfter(y, tid, y1.threads[tid]);
    if Acceptable(y.sess, req) {
      FilesAfter(y.sess.states, y1.sess.states, y.h.owner.Keys, y1.h.owner.Keys, y.h.owing.Keys, y1.h.owing.Keys,
                 y.h.settled, y1.h.settled, req.id);
    }
  }

  lemma NameKeepsStates(y: Sys, tid: nat, id: Id, path: Path, body: bytes)
    requires StatesOk(y) && tid in y.threads && y.threads[tid] == Naming(id, path, body) && InAttempt(y, tid, id)
    ensures StatesOk(NameStep(y, tid, id, path, body))
  {
    var y1 := NameStep(y, tid, id, path, body);
    BooksAfter(y, tid, y1.threads[tid]);
    FilesAfter(y.sess.states, y1.sess.states, y.h.owner.Keys, y1.h.owner.Keys, y.h.owing.Keys, y1.h.owing.Keys,
               y.h.settled, y1.h.settled, id);
  }

  lemma FinishKeepsStates(y: Sys, tid: nat, id: Id, result: Status, error: Error)
    requires StatesOk(y) && tid in y.threads && y.threads[tid] == Finishing(id, result, error) && InAttempt(y, tid, id)
    requires result == Pending ==> y.sess.states[id].target.Some?
    ensures StatesOk(FinishStep(y, tid, id, result, error))
  {
    var y1 := FinishStep(y, tid, id, result, error);
    BooksAfter(y, tid, y1.threads[tid]);
    FilesAfter(y.sess.states, y1.sess.states, y.h.owner.Keys, y1.h.owner.Keys, y.h.owing.Keys, y1.h.owing.Keys,
               y.h.settled, y1.h.settled, id);
  }

  lemma OweKeepsStates(y: Sys, tid: nat, id: Id, error: Error)
    requires StatesOk(y) && tid in y.threads && y.threads[tid] == Owing(id, error) && id in y.h.owing
    ensures StatesOk(OweStep(y, tid, id, error))
  {
    var y1 := OweStep(y, tid, id, error);
    BooksAfter(y, tid, y1.threads[tid]);
    FilesAfter(y.sess.states, y1.sess.states, y.h.owner.Keys, y1.h.owner.Keys, y.h.owing.Keys, y1.h.owing.Keys,
               y.h.settled, y1.h.settled, id);
  }

  /** A step that changes no file's state and no book of attempts or debts. */
  ghost predicate SameStates(y: Sys, y1: Sys) {
    && y1.h.settled == y.h.settled && y1.h.owner.Keys == y.h.owner.Keys && y1.h.owing.Keys == y.h.owing.Keys
    && y1.sess.states == y.sess.states && y1.sess.metas == y.sess.metas && y1.sess.tokens == y.sess.tokens
  }

  lemma SameStatesKeep(y: Sys, y1: Sys)
    requires StatesOk(y) && SameStates(y, y1)
    ensures StatesOk(y1)
  {}

  lemma WorkKeepsStates(y: Sys, tid: nat, id: Id, target: Option<Path>, body: bytes, env: Env)
    requires StatesOk(y) && tid in y.threads && y.threads[tid] == Working(id, target, body) && id in y.h.owner
    ensures StatesOk(WorkStep(y, tid, id, target, body, env))
  {
    BooksAfter(y, tid, WorkStep(y, tid, id, target, body, env).threads[tid]);
    SameStatesKeep(y, WorkStep(y, tid, id, target, body, env));
  }

  lemma CopyKeepsStates(y: Sys, tid: nat, id: Id, path: Path, body: bytes, content: bytes, result: Status, error: Error)
    requires StatesOk(y) && tid in y.threads && y.threads[tid] == Copying(id, path, body) && id in y.h.owner
    ensures StatesOk(CopyStep(y, tid, id, path, content, result, error))
  {
    BooksAfter(y, tid, CopyStep(y, tid, id, path, content, result, error).threads[tid]);
    SameStatesKeep(y, CopyStep(y, tid, id, path, content, result, error));
  }

  lemma RemoveKeepsStates(y: Sys, tid: nat, id: Id, path: Path, result: Status, error: Error)
    requires StatesOk(y) && tid in y.threads && y.threads[tid] == Removing(id, path, result, error) && id in y.h.owner
    ensures StatesOk(RemoveStep(y, tid, id, path, result, error))
  {
    BooksAfter(y, tid, Finishing(id, result, error));
    SameStatesKeep(y, RemoveStep(y, tid, id, path, result, error));
  }

  lemma CopyAdvanceKeepsStates(cfg: Config, y: Sys, tid: nat, env: Env)
    requires StatesOk(y) && tid in y.threads && AdvanceThread(cfg, y, tid, env).Some?
    requires y.threads[tid].Copying? && y.threads[tid].id in y.h.owner
    ensures StatesOk(AdvanceThread(cfg, y, tid, env).value)
  {
    var t := y.threads[tid];
    var (result, error) := CopyVerdict(cfg, y.sess.metas[t.id], t.body, env.ioOk, env.flushOk);
    CopyKeepsStates(y, tid, t.id, t.path, t.body, Limited(t.body, y.sess.metas[t.id].size), result, error);
  }

  lemma CreateAdvanceKeepsStates(cfg: Config, y: Sys, tid: nat, env: Env)
    requires StatesOk(y) && tid in y.threads && AdvanceThread(cfg, y, tid, env).Some?
    requires (y.threads[tid].Working? || y.threads[tid].Naming?) && InAttempt(y, tid, y.threads[tid].id)
    ensures StatesOk(AdvanceThread(cfg, y, tid, env).value)
  {
    match y.threads[tid] {
      case Working(id, target, body) => WorkKeepsStates(y, tid, id, target, body, env);
      case Naming(id, path, body) => NameKeepsStates(y, tid, id, path, body);
    }
  }

  lemma RemoveAdvanceKeepsStates(cfg: Config, y: Sys, tid: nat, env: Env)
    requires StatesOk(y) && tid in y.threads && y.threads[tid].Removing? && y.threads[tid].id in y.h.owner
    ensures StatesOk(AdvanceThread(cfg, y, tid, env).value)
  {
    var t := y.threads[tid];
    RemoveKeepsStates(y, tid, t.id, t.path, t.result, t.error);
  }

  lemma FinishAdvanceKeepsStates(cfg: Config, y: Sys, tid: nat, env: Env)
    requires StatesOk(y) && tid in y.threads && y.threads[tid].Finishing? && InAttempt(y, tid, y.threads[tid].id)
    requires var t := y.threads[tid]; t.result == Pending ==> y.sess.states[t.id].target.Some?
    ensures StatesOk(AdvanceThread(cfg, y, tid, env).value)
  {
    var t := y.threads[tid];
    FinishKeepsStates(y, tid, t.id, t.result, t.error);
  }

  lemma AttemptKeepsStates(cfg: Config, y: Sys, tid: nat, env: Env)
    requires StatesOk(y) && tid in y.threads && AdvanceThread(cfg, y, tid, env).Some?
    requires Held(y.threads[tid]).Some? && InAttempt(y, tid, y.threads[tid].id)
    requires var t := y.threads[tid]; t.Finishing? && t.result == Pending ==> y.sess.states[t.id].target.Some?
    ensures StatesOk(AdvanceThread(cfg, y, tid, env).value)
  {
    if y.threads[tid].Copying? {
      CopyAdvanceKeepsStates(cfg, y, tid, env);
    } else if y.threads[tid].Removing? {
      RemoveAdvanceKeepsStates(cfg, y, tid, env);
    } else if y.threads[tid].Finishing? {
      FinishAdvanceKeepsStates(cfg, y, tid, env);
    } else {
      CreateAdvanceKeepsStates(cfg, y, tid, env);
    }
  }

  lemma GoKeepsStates(y: Sys, tid: nat, t: Thread)
    requires StatesOk(y) && tid in y.threads && Held(y.threads[tid]).None? && Owed(y.threads[tid]).None?
    requires Held(t).None? && Owed(t).None?
    ensures StatesOk(Go(y, tid, t))
  {
    BooksAfter(y, tid, t);
    SameStatesKeep(y, Go(y, tid, t));
  }

  lemma EndIsSame(y: Sys, tid: nat, error: Error)
    requires tid in y.threads && y.threads[tid] == Ending(error)
    ensures SameStates(y, EndStep(y, tid, error))
  {
    if y.sess.started {
      BooksAfter(y, tid, Zeroing(error));
    } else {
      BooksAfter(y, tid, Returned(error));
    }
  }

  lemma ZeroKeepsStates(y: Sys, tid: nat, error: Error)
    requires StatesOk(y) && tid in y.threads && y.threads[tid] == Zeroing(error)
    ensures StatesOk(ZeroStep(y, tid, error))
  {
    BooksAfter(y, tid, Returned(error));
    SameStatesKeep(y, ZeroStep(y, tid, error));
  }

  lemma OutsideKeepsStates(cfg: Config, y: Sys, tid: nat, env: Env)
    requires StatesOk(y) && tid in y.threads && AdvanceThread(cfg, y, tid, env).Some?
    requires Held(y.threads[tid]).None? && (y.threads[tid].Owing? ==> y.threads[tid].id in y.h.owing)
    ensures StatesOk(AdvanceThread(cfg, y, tid, env).value)
  {
    match y.threads[tid] {
      case Admitted(req) => BeginKeepsStates(y, tid, req);
      case Owing(id, error) => OweKeepsStates(y, tid, id, error);
      case Ending(error) =>
        EndIsSame(y, tid, error);
        SameStatesKeep(y, EndStep(y, tid, error));
      case Zeroing(error) => ZeroKeepsStates(y, tid, error);
      case Called(req) => GoKeepsStates(y, tid, AdvanceThread(cfg, y, tid, env).value.threads[tid]);
    }
  }

  lemma AdvanceKeepsStates(cfg: Config, y: Sys, tid: nat, env: Env)
    requires BooksOk(y) && StatesOk(y) && tid in y.threads && Informed(y.sess.states, y.h.finals, y.threads[tid])
    requires AdvanceThread(cfg, y, tid, env).Some?
    ensures StatesOk(AdvanceThread(cfg, y, tid, env).value)
  {
    if Held(y.threads[tid]).Some? {
      HeldIsNotOwed(y, tid);
      AttemptKeepsStates(cfg, y, tid, env);
    } else {
      OutsideKeepsStates(cfg, y, tid, env);
    }
  }

  lemma StepKeepsStates(cfg: Config, y: Sys, a: Action)
    requires BooksOk(y) && StatesOk(y) && ThreadsOk(y.threads, y.sess.states, y.h.finals) && Next(cfg, y, a).Some?
    ensures StatesOk(Next(cfg, y, a).value)
  {
    if a.Advance? {
      AdvanceKeepsStates(cfg, y, a.tid, a.env);
    } else {
      SameStatesKeep(y, Next(cfg, y, a).value);
    }
  }

  // ---------------------------------------------------------------- the ending

  lemma GoKeepsEnds(threads: map<nat, Thread>, tid: nat, t: Thread)
    requires (tid in threads ==> !threads[tid].Ending?) && !t.Ending?
    ensures SomeoneEnds(threads[tid := t]) <==> SomeoneEnds(threads)
  {
    if SomeoneEnds(threads) {
      var u :| u in threads && threads[u].Ending?;
      assert u in threads[tid := t] && threads[tid := t][u].Ending?;
    }
  }

  /** A step that neither settles a file nor ends anything. */
  ghost predicate EndsNothing(y: Sys, tid: nat, y1: Sys) {
    && tid in y1.threads && y1.threads == y.threads[tid := y1.threads[tid]]
    && y1.h.settled == y.h.settled && y1.h.ends == y.h.ends && y1.h.killed == y.h.killed
    && y1.sess.states.Keys == y.sess.states.Keys
    && y1.sess.started == y.sess.started && (y.sess.started ==> y1.sess.filesCount == y.sess.filesCount)
    && (tid in y.threads ==> !y.threads[tid].Ending?) && !y1.threads[tid].Ending? && !y1.threads[tid].Zeroing?
  }

  lemma QuietKeepsEnding(y: Sys, tid: nat, y1: Sys)
    requires EndingOk(y) && EndsNothing(y, tid, y1)
    ensures EndingOk(y1)
  {
    GoKeepsEnds(y.threads, tid, y1.threads[tid]);
  }

  lemma OweKeepsEnding(y: Sys, tid: nat, id: Id, error: Error)
    requires EndingOk(y) && tid in y.threads && y.threads[tid] == Owing(id, error)
    requires id in y.sess.states && id !in y.h.settled && y.h.settled <= y.sess.states.Keys
    ensures EndingOk(OweStep(y, tid, id, error))
  {
    var y1 := OweStep(y, tid, id, error);
    SubsetSize(y1.h.settled, y.sess.states.Keys);
    if y1.threads[tid].Ending? {
      assert SomeoneEnds(y1.threads);
    } else {
      GoKeepsEnds(y.threads, tid, y1.threads[tid]);
    }
  }

  lemma EndKeepsEnding(y: Sys, tid: nat, error: Error)
    requires EndingOk(y) && tid in y.threads && y.threads[tid] == Ending(error)
    ensures EndingOk(EndStep(y, tid, error))
  {
    var y1 := EndStep(y, tid, error);
    assert SomeoneEnds(y.threads);
    assert SomeoneEnds(y1.threads) ==> SomeoneEnds(y.threads);
  }

  lemma AttemptEndsNothing(cfg: Config, y: Sys, tid: nat, env: Env)
    requires tid in y.threads && AdvanceThread(cfg, y, tid, env).Some? && Held(y.threads[tid]).Some?
    ensures EndsNothing(y, tid, AdvanceThread(cfg, y, tid, env).value)
  {
    match y.threads[tid] {
      case Working(id, target, body) => assert EndsNothing(y, tid, WorkStep(y, tid, id, target, body, env));
      case Naming(id, path, body) => assert EndsNothing(y, tid, NameStep(y, tid, id, path, body));
      case Copying(id, path, body) =>
        var (result, error) := CopyVerdict(cfg, y.sess.metas[id], body, env.ioOk, env.flushOk);
        assert EndsNothing(y, tid, CopyStep(y, tid, id, path, Limited(body, y.sess.metas[id].size), result, error));
      case Removing(id, path, result, error) => assert EndsNothing(y, tid, RemoveStep(y, tid, id, path, result, error));
      case Finishing(id, result, error) => assert EndsNothing(y, tid, FinishStep(y, tid, id, result, error));
    }
  }

  lemma OutsideKeepsEnding(cfg: Config, y: Sys, tid: nat, env: Env)
    requires EndingOk(y) && tid in y.threads && AdvanceThread(cfg, y, tid, env).Some? && Held(y.threads[tid]).None?
    requires y.threads[tid].Owing? ==> var id := y.threads[tid].id;
             id in y.sess.states && id !in y.h.settled && y.h.settled <= y.sess.states.Keys
    ensures EndingOk(AdvanceThread(cfg, y, tid, env).value)
  {
    match y.threads[tid] {
      case Owing(id, error) => OweKeepsEnding(y, tid, id, error);
      case Ending(error) => EndKeepsEnding(y, tid, error);
      case Admitted(req) => QuietKeepsEnding(y, tid, BeginStep(y, tid, req));
      case Called(req) => QuietKeepsEnding(y, tid, AdvanceThread(cfg, y, tid, env).value);
      case Zeroing(error) => QuietKeepsEnding(y, tid, ZeroStep(y, tid, error));
    }
  }

  lemma OwedIsUnsettled(y: Sys, tid: nat)
    requires Booked(y.threads, Owed, y.h.owing) && FilesOk(y.sess.states, y.h.owner.Keys, y.h.owing.Keys, y.h.settled)
    requires tid in y.threads && y.threads[tid].Owing?
    ensures var id := y.threads[tid].id;
            id in y.h.owing && id in y.sess.states && id !in y.h.settled && Terminal(y.sess.states[id].status)
  {
    var id := y.threads[tid].id;
    assert id in y.h.owing.Keys && id in y.sess.states;
    assert FileOk(y.sess.states[id], id in y.h.owner.Keys, id in y.h.owing.Keys, id in y.h.settled);
  }

  lemma StepKeepsEnding(cfg: Config, y: Sys, a: Action)
    requires BooksOk(y) && StatesOk(y) && EndingOk(y) && Next(cfg, y, a).Some?
    ensures EndingOk(Next(cfg, y, a).value)
  {
    match a
    case Call(tid, req) => QuietKeepsEnding(y, tid, Next(cfg, y, a).value);
    case Advance(tid, env) =>
      if y.threads[tid].Owing? {
        OwedIsUnsettled(y, tid);
      }
      if Held(y.threads[tid]).Some? {
        AttemptEndsNothing(cfg, y, tid, env);
        QuietKeepsEnding(y, tid, Next(cfg, y, a).value);
      } else {
        OutsideKeepsEnding(cfg, y, tid, env);
      }
    case _ =>
  }

  // ---------------------------------------------------------------- the copies

  /** What threads know survives a step that concerns one file, which nobody else holds. */
  lemma ThreadsAfter(threads: map<nat, Thread>, tid: nat, t: Thread, states: map<Id, FileState>,
                     states1: map<Id, FileState>,
                     finals: map<Path, Id>, finals1: map<Path, Id>, id: Id)
    requires ThreadsOk(threads, states, finals) && Informed(states1, finals1, t)
    requires forall u | u in threads && u != tid :: Held(threads[u]) != Some(id)
    requires forall k | k in states && k != id :: k in states1 && states1[k] == states[k]
    requires forall k | k in states && k != id :: Delivered(states[k], finals1, k) == Delivered(states[k], finals, k)
    ensures ThreadsOk(threads[tid := t], states1, finals1)
  {
    forall u | u in threads && u != tid ensures Informed(states1, finals1, threads[u]) {
      assert Informed(states, finals, threads[u]);
    }
  }

  lemma DraftsAfter(y: Sys, tid: nat, t: Thread)
    requires tid in y.threads
    requires Draft(y.threads[tid]).Some? ==> Draft(y.threads[tid]).value in y.h.drafts
    requires var was := y.threads[tid]; Draft(was).None? || Draft(t).None? || Draft(was) == Draft(t)
    ensures Go(y, tid, t).h.drafts.Keys ==
              var was := y.threads[tid];
              if Draft(was) == Draft(t) then y.h.drafts.Keys
              else if Draft(was).None? then y.h.drafts.Keys + {Draft(t).value} else y.h.drafts.Keys - {Draft(was).value}
  {
    RebookKeys(y.h.drafts, Draft(y.threads[tid]), Draft(t), tid);
  }

  // Threads.

  ghost predicate Alone(y: Sys, tid: nat, id: Id) {
    forall u | u in y.threads && u != tid :: Held(y.threads[u]) != Some(id)
  }

  lemma BeginKeepsThreads(y: Sys, tid: nat, req: Request)
    requires ThreadsOk(y.threads, y.sess.states, y.h.finals) && FinishedDelivered(y.sess.states, y.h.finals)
    requires tid in y.threads && y.threads[tid] == Admitted(req) && (Acceptable(y.sess, req) ==> Alone(y, tid, req.id))
    ensures var y1 := BeginStep(y, tid, req); ThreadsOk(y1.threads, y1.sess.states, y1.h.finals)
  {
    var y1 := BeginStep(y, tid, req);
    if Acceptable(y.sess, req) {
      ThreadsAfter(y.threads, tid, y1.threads[tid], y.sess.states, y1.sess.states, y.h.finals, y1.h.finals, req.id);
    }
  }

  lemma NameKeepsThreads(y: Sys, tid: nat, id: Id, path: Path, body: bytes)
    requires ThreadsOk(y.threads, y.sess.states, y.h.finals) && path !in y.h.finals
    requires tid in y.threads && y.threads[tid] == Naming(id, path, body) && id in y.sess.states && Alone(y, tid, id)
    ensures var y1 := NameStep(y, tid, id, path, body); ThreadsOk(y1.threads, y1.sess.states, y1.h.finals)
  {
    var y1 := NameStep(y, tid, id, path, body);
    ThreadsAfter(y.threads, tid, y1.threads[tid], y.sess.states, y1.sess.states, y.h.finals, y1.h.finals, id);
  }

  lemma CopyKeepsThreads(y: Sys, tid: nat, id: Id, path: Path, body: bytes, content: bytes, result: Status,
                         error: Error)
    requires ThreadsOk(y.threads, y.sess.states, y.h.finals) && path !in y.h.finals && result != InProgress
    requires tid in y.threads && y.threads[tid] == Copying(id, path, body) && id in y.sess.states && Alone(y, tid, id)
    ensures var y1 := CopyStep(y, tid, id, path, content, result, error);
            ThreadsOk(y1.threads, y1.sess.states, y1.h.finals)
  {
    assert Informed(y.sess.states, y.h.finals, y.threads[tid]);
    var y1 := CopyStep(y, tid, id, path, content, result, error);
    ThreadsAfter(y.threads, tid, y1.threads[tid], y.sess.states, y1.sess.states, y.h.finals, y1.h.finals, id);
  }

  lemma FinishKeepsThreads(y: Sys, tid: nat, id: Id, result: Status, error: Error)
    requires ThreadsOk(y.threads, y.sess.states, y.h.finals)
    requires tid in y.threads && y.threads[tid] == Finishing(id, result, error) && id in y.sess.states
    requires Alone(y, tid, id)
    ensures var y1 := FinishStep(y, tid, id, result, error); ThreadsOk(y1.threads, y1.sess.states, y1.h.finals)
  {
    var y1 := FinishStep(y, tid, id, result, error);
    ThreadsAfter(y.threads, tid, y1.threads[tid], y.sess.states, y1.sess.states, y.h.finals, y1.h.finals, id);
  }

  /** A step that changes no file's state and no final copy. */
  lemma GoKeepsThreads(y: Sys, tid: nat, t: Thread)
    requires ThreadsOk(y.threads, y.sess.states, y.h.finals) && Informed(y.sess.states, y.h.finals, t)
    ensures ThreadsOk(y.threads[tid := t], y.sess.states, y.h.finals)
  {}

  lemma WorkInforms(y: Sys, tid: nat, id: Id, target: Option<Path>, body: bytes, env: Env)
    requires tid in y.threads && y.threads[tid] == Working(id, target, body)
    requires Informed(y.sess.states, y.h.finals, y.threads[tid])
    ensures Informed(y.sess.states, y.h.finals, WorkStep(y, tid, id, target, body, env).threads[tid])
  {}

  lemma RemoveInforms(y: Sys, tid: nat, id: Id, path: Path, result: Status, error: Error)
    requires tid in y.threads && y.threads[tid] == Removing(id, path, result, error)
    requires Informed(y.sess.states, y.h.finals, y.threads[tid])
    ensures Informed(y.sess.states, y.h.finals, Finishing(id, result, error))
  {}

  // The disk.

  lemma DiskGains(disk: map<Path, bytes>, drafts: set<Path>, finals: set<Path>, foreign: map<Path, bytes>, path: Path)
    requires DiskOk(disk, drafts, finals, foreign) && path !in disk
    ensures DiskOk(disk[path := []], drafts + {path}, finals, foreign)
  {}

  lemma DiskKeeps(disk: map<Path, bytes>, drafts: set<Path>, finals: set<Path>, foreign: map<Path, bytes>, path: Path,
                  content: bytes)
    requires DiskOk(disk, drafts, finals, foreign) && path in drafts
    ensures DiskOk(disk[path := content], drafts - {path}, finals + {path}, foreign)
  {}

  lemma DiskLoses(disk: map<Path, bytes>, drafts: set<Path>, finals: set<Path>, foreign: map<Path, bytes>, path: Path)
    requires DiskOk(disk, drafts, finals, foreign) && path in drafts
    ensures DiskOk(disk - {path}, drafts - {path}, finals, foreign)
  {}

  lemma WorkKeepsDisk(y: Sys, tid: nat, id: Id, target: Option<Path>, body: bytes, env: Env)
    requires DiskOk(y.disk, y.h.drafts.Keys, y.h.finals.Keys, y.h.foreign)
    requires tid in y.threads && y.threads[tid] == Working(id, target, body)
    ensures var y1 := WorkStep(y, tid, id, target, body, env);
            && DiskOk(y1.disk, y1.h.drafts.Keys, y1.h.finals.Keys, y1.h.foreign)
            && y1.h.finals == y.h.finals && y1.sess == y.sess
            && (forall p | p in y.disk :: p in y1.disk && y1.disk[p] == y.disk[p])
  {
    var t := WorkStep(y, tid, id, target, body, env).threads[tid];
    DraftsAfter(y, tid, t);
    if Draft(t).Some? {
      DiskGains(y.disk, y.h.drafts.Keys, y.h.finals.Keys, y.h.foreign, t.path);
    }
  }

  lemma CopyKeepsDisk(y: Sys, tid: nat, id: Id, path: Path, body: bytes, content: bytes, result: Status, error: Error)
    requires DiskOk(y.disk, y.h.drafts.Keys, y.h.finals.Keys, y.h.foreign) && path in y.h.drafts
    requires tid in y.threads && y.threads[tid] == Copying(id, path, body)
    ensures var y1 := CopyStep(y, tid, id, path, content, result, error);
            DiskOk(y1.disk, y1.h.drafts.Keys, y1.h.finals.Keys, y1.h.foreign)
  {
    var y1 := CopyStep(y, tid, id, path, content, result, error);
    DraftsAfter(y, tid, y1.threads[tid]);
    if result == Finished {
      DiskKeeps(y.disk, y.h.drafts.Keys, y.h.finals.Keys, y.h.foreign, path, content);
      assert y1.h.finals.Keys == y.h.finals.Keys + {path};
    }
  }

  lemma RemoveKeepsDisk(y: Sys, tid: nat, id: Id, path: Path, result: Status, error: Error)
    requires DiskOk(y.disk, y.h.drafts.Keys, y.h.finals.Keys, y.h.foreign) && path in y.h.drafts
    requires tid in y.threads && y.threads[tid] == Removing(id, path, result, error)
    ensures var y1 := RemoveStep(y, tid, id, path, result, error);
            DiskOk(y1.disk, y1.h.drafts.Keys, y1.h.finals.Keys, y1.h.foreign)
  {
    DraftsAfter(y, tid, Finishing(id, result, error));
    DiskLoses(y.disk, y.h.drafts.Keys, y.h.finals.Keys, y.h.foreign, path);
  }

  lemma SpillKeepsDisk(cfg: Config, y: Sys, tid: nat, n: nat)
    requires DiskOk(y.disk, y.h.drafts.Keys, y.h.finals.Keys, y.h.foreign) && Next(cfg, y, Spill(tid, n)).Some?
    requires y.threads[tid].path in y.h.drafts
    ensures var y1 := Next(cfg, y, Spill(tid, n)).value;
            DiskOk(y1.disk, y1.h.drafts.Keys, y1.h.finals.Keys, y1.h.foreign)
  {}

  lemma AppearKeepsDisk(cfg: Config, y: Sys, path: Path, data: bytes)
    requires DiskOk(y.disk, y.h.drafts.Keys, y.h.finals.Keys, y.h.foreign) && path !in y.disk
    ensures var y1 := Next(cfg, y, Appear(path, data)).value;
            DiskOk(y1.disk, y1.h.drafts.Keys, y1.h.finals.Keys, y1.h.foreign)
  {}

  // The final copies.

  ghost predicate CopiesMatch(cfg: Config, y: Sys) {
    FinalsMatch(cfg, y.sess.metas, y.sess.states, y.disk, y.h.finals) && FinishedDelivered(y.sess.states, y.h.finals)
  }

  lemma BeginKeepsCopies(cfg: Config, y: Sys, tid: nat, req: Request)
    requires CopiesMatch(cfg, y) && tid in y.threads
    ensures CopiesMatch(cfg, BeginStep(y, tid, req))
  {}

  lemma NameKeepsCopies(cfg: Config, y: Sys, tid: nat, id: Id, path: Path, body: bytes)
    requires CopiesMatch(cfg, y) && tid in y.threads && id in y.sess.states
    requires y.sess.states[id].target == None && y.sess.states[id].status == InProgress
    ensures CopiesMatch(cfg, NameStep(y, tid, id, path, body))
  {}

  lemma CopyKeepsCopies(cfg: Config, y: Sys, tid: nat, id: Id, path: Path, content: bytes, result: Status, error: Error)
    requires CopiesMatch(cfg, y) && tid in y.threads && path !in y.h.finals
    requires id in y.sess.states && id in y.sess.metas && y.sess.states[id].status == InProgress
    requires y.sess.states[id].target == Some(path)
    requires result == Finished ==> Matches(cfg, y.sess.metas[id], content)
    ensures CopiesMatch(cfg, CopyStep(y, tid, id, path, content, result, error))
  {}

  lemma FinishKeepsCopies(cfg: Config, y: Sys, tid: nat, id: Id, result: Status, error: Error)
    requires CopiesMatch(cfg, y) && tid in y.threads && id in y.sess.states && y.sess.states[id].status == InProgress
    requires Delivered(y.sess.states[id], y.h.finals, id) <==> result == Finished
    ensures CopiesMatch(cfg, FinishStep(y, tid, id, result, error))
  {}

  /** A step that changes no file's state, no final copy, and no path that holds one. */
  lemma OtherKeepsCopies(cfg: Config, y: Sys, y1: Sys)
    requires CopiesMatch(cfg, y) && y1.sess.states == y.sess.states && y1.sess.metas == y.sess.metas
    requires y1.h.finals == y.h.finals
    requires forall p | p in y.h.finals && p in y.disk :: p in y1.disk && y1.disk[p] == y.disk[p]
    ensures CopiesMatch(cfg, y1)
  {}

  // ------------------------------------------------- every step, all together

  lemma HeldAlone(y: Sys, tid: nat)
    requires Booked(y.threads, Held, y.h.owner) && tid in y.threads && Held(y.threads[tid]).Some?
    ensures Alone(y, tid, y.threads[tid].id)
  {}

  lemma PendingAlone(y: Sys, tid: nat, id: Id)
    requires Booked(y.threads, Held, y.h.owner) && FilesOk(y.sess.states, y.h.owner.Keys, y.h.owing.Keys, y.h.settled)
    requires id in y.sess.states && y.sess.states[id].status == Pending
    ensures Alone(y, tid, id)
  {
    assert FileOk(y.sess.states[id], id in y.h.owner.Keys, id in y.h.owing.Keys, id in y.h.settled);
  }

  /** What an attempt with a file on the disk can rely on. */
  ghost predicate AtWork(y: Sys, tid: nat, id: Id) {
    && tid in y.threads && InAttempt(y, tid, id) && Alone(y, tid, id)
    && Informed(y.sess.states, y.h.finals, y.threads[tid])
    && id in y.sess.metas
    && (Draft(y.threads[tid]).Some? ==> y.threads[tid].path in y.h.drafts && y.threads[tid].path !in y.h.finals)
  }

  lemma HolderAtWork(cfg: Config, y: Sys, tid: nat)
    requires BooksOk(y) && StatesOk(y) && CopiesOk(cfg, y) && tid in y.threads && Held(y.threads[tid]).Some?
    ensures AtWork(y, tid, y.threads[tid].id)
  {
    HeldIsNotOwed(y, tid);
    HeldAlone(y, tid);
    assert Informed(y.sess.states, y.h.finals, y.threads[tid]);
    assert Draft(y.threads[tid]).Some? ==> y.threads[tid].path in y.h.drafts.Keys;
  }

  lemma BeginKeepsAll(cfg: Config, y: Sys, tid: nat, req: Request)
    requires CopiesOk(cfg, y) && tid in y.threads && y.threads[tid] == Admitted(req)
    requires Acceptable(y.sess, req) ==> Alone(y, tid, req.id)
    ensures CopiesOk(cfg, BeginStep(y, tid, req))
  {
    BeginKeepsThreads(y, tid, req);
    BeginKeepsCopies(cfg, y, tid, req);
    DraftsAfter(y, tid, BeginStep(y, tid, req).threads[tid]);
  }

  lemma WorkKeepsAll(cfg: Config, y: Sys, tid: nat, id: Id, target: Option<Path>, body: bytes, env: Env)
    requires CopiesOk(cfg, y) && tid in y.threads && y.threads[tid] == Working(id, target, body)
    ensures CopiesOk(cfg, WorkStep(y, tid, id, target, body, env))
  {
    var y1 := WorkStep(y, tid, id, target, body, env);
    WorkInforms(y, tid, id, target, body, env);
    GoKeepsThreads(y, tid, y1.threads[tid]);
    WorkKeepsDisk(y, tid, id, target, body, env);
    OtherKeepsCopies(cfg, y, y1);
  }

  lemma NameKeepsAll(cfg: Config, y: Sys, tid: nat, id: Id, path: Path, body: bytes)
    requires CopiesOk(cfg, y) && tid in y.threads && y.threads[tid] == Naming(id, path, body) && AtWork(y, tid, id)
    ensures CopiesOk(cfg, NameStep(y, tid, id, path, body))
  {
    NameKeepsThreads(y, tid, id, path, body);
    NameKeepsCopies(cfg, y, tid, id, path, body);
    DraftsAfter(y, tid, Copying(id, path, body));
  }

  lemma CopyKeepsAll(cfg: Config, y: Sys, tid: nat, id: Id, path: Path, body: bytes, ioOk: bool, flushOk: bool)
    requires CopiesOk(cfg, y) && tid in y.threads && y.threads[tid] == Copying(id, path, body) && AtWork(y, tid, id)
    ensures var (result, error) := CopyVerdict(cfg, y.sess.metas[id], body, ioOk, flushOk);
            CopiesOk(cfg, CopyStep(y, tid, id, path, Limited(body, y.sess.metas[id].size), result, error))
  {
    var (result, error) := CopyVerdict(cfg, y.sess.metas[id], body, ioOk, flushOk);
    var content := Limited(body, y.sess.metas[id].size);
    CopyKeepsThreads(y, tid, id, path, body, content, result, error);
    CopyKeepsCopies(cfg, y, tid, id, path, content, result, error);
    CopyKeepsDisk(y, tid, id, path, body, content, result, error);
  }

  lemma RemoveKeepsAll(cfg: Config, y: Sys, tid: nat, id: Id, path: Path, result: Status, error: Error)
    requires CopiesOk(cfg, y) && tid in y.threads && y.threads[tid] == Removing(id, path, result, error)
    requires AtWork(y, tid, id)
    ensures CopiesOk(cfg, RemoveStep(y, tid, id, path, result, error))
  {
    RemoveInforms(y, tid, id, path, result, error);
    GoKeepsThreads(y, tid, Finishing(id, result, error));
    RemoveKeepsDisk(y, tid, id, path, result, error);
    OtherKeepsCopies(cfg, y, RemoveStep(y, tid, id, path, result, error));
  }

  lemma FinishKeepsAll(cfg: Config, y: Sys, tid: nat, id: Id, result: Status, error: Error)
    requires CopiesOk(cfg, y) && tid in y.threads && y.threads[tid] == Finishing(id, result, error)
    requires AtWork(y, tid, id)
    ensures CopiesOk(cfg, FinishStep(y, tid, id, result, error))
  {
    FinishKeepsThreads(y, tid, id, result, error);
    FinishKeepsCopies(cfg, y, tid, id, result, error);
    DraftsAfter(y, tid, FinishStep(y, tid, id, result, error).threads[tid]);
  }

  /** A step of a thread outside any attempt, which leaves files and disk alone. */
  ghost predicate LeavesFiles(y: Sys, tid: nat, y1: Sys) {
    && tid in y1.threads && y1.threads == y.threads[tid := y1.threads[tid]] && Held(y1.threads[tid]).None?
    && y1.sess.states == y.sess.states && y1.sess.metas == y.sess.metas && y1.disk == y.disk
    && y1.h.drafts.Keys == y.h.drafts.Keys && y1.h.finals == y.h.finals && y1.h.foreign == y.h.foreign
  }

  lemma OutsideKeepsAll(cfg: Config, y: Sys, tid: nat, y1: Sys)
    requires CopiesOk(cfg, y) && LeavesFiles(y, tid, y1)
    ensures CopiesOk(cfg, y1)
  {
    GoKeepsThreads(y, tid, y1.threads[tid]);
  }

  lemma AttemptKeepsAll(cfg: Config, y: Sys, tid: nat, env: Env)
    requires CopiesOk(cfg, y) && tid in y.threads && Held(y.threads[tid]).Some? && AtWork(y, tid, y.threads[tid].id)
    ensures var n := AdvanceThread(cfg, y, tid, env); n.Some? && CopiesOk(cfg, n.value)
  {
    match y.threads[tid] {
      case Working(id, target, body) => WorkKeepsAll(cfg, y, tid, id, target, body, env);
      case Naming(id, path, body) => NameKeepsAll(cfg, y, tid, id, path, body);
      case Copying(id, path, body) => CopyKeepsAll(cfg, y, tid, id, path, body, env.ioOk, env.flushOk);
      case Removing(id, path, result, error) => RemoveKeepsAll(cfg, y, tid, id, path, result, error);
      case Finishing(id, result, error) => FinishKeepsAll(cfg, y, tid, id, result, error);
    }
  }

  lemma OweLeavesFiles(y: Sys, tid: nat, id: Id, error: Error)
    requires tid in y.threads && y.threads[tid] == Owing(id, error)
    ensures LeavesFiles(y, tid, OweStep(y, tid, id, error))
  {
    DraftsAfter(y, tid, OweStep(y, tid, id, error).threads[tid]);
  }

  lemma EndLeavesFiles(y: Sys, tid: nat, error: Error)
    requires tid in y.threads && y.threads[tid] == Ending(error)
    ensures LeavesFiles(y, tid, EndStep(y, tid, error))
  {
    if y.sess.started {
      DraftsAfter(y, tid, Zeroing(error));
    } else {
      DraftsAfter(y, tid, Returned(error));
    }
  }

  lemma ZeroLeavesFiles(y: Sys, tid: nat, error: Error)
    requires tid in y.threads && y.threads[tid] == Zeroing(error)
    ensures LeavesFiles(y, tid, ZeroStep(y, tid, error))
  {
    DraftsAfter(y, tid, Returned(error));
  }

  lemma OtherThreadLeavesFiles(cfg: Config, y: Sys, tid: nat, env: Env)
    requires tid in y.threads && AdvanceThread(cfg, y, tid, env).Some?
    requires Held(y.threads[tid]).None? && !y.threads[tid].Admitted?
    ensures LeavesFiles(y, tid, AdvanceThread(cfg, y, tid, env).value)
  {
    match y.threads[tid] {
      case Owing(id, error) => OweLeavesFiles(y, tid, id, error);
      case Ending(error) => EndLeavesFiles(y, tid, error);
      case Zeroing(error) => ZeroLeavesFiles(y, tid, error);
      case Called(req) => DraftsAfter(y, tid, AdvanceThread(cfg, y, tid, env).value.threads[tid]);
    }
  }

  lemma AdvanceKeepsCopies(cfg: Config, y: Sys, tid: nat, env: Env)
    requires BooksOk(y) && StatesOk(y) && CopiesOk(cfg, y) && tid in y.threads && AdvanceThread(cfg, y, tid, env).Some?
    ensures CopiesOk(cfg, AdvanceThread(cfg, y, tid, env).value)
  {
    if Held(y.threads[tid]).Some? {
      HolderAtWork(cfg, y, tid);
      AttemptKeepsAll(cfg, y, tid, env);
    } else if y.threads[tid].Admitted? {
      if Acceptable(y.sess, y.threads[tid].req) {
        PendingAlone(y, tid, y.threads[tid].req.id);
      }
      BeginKeepsAll(cfg, y, tid, y.threads[tid].req);
    } else {
      OtherThreadLeavesFiles(cfg, y, tid, env);
      OutsideKeepsAll(cfg, y, tid, AdvanceThread(cfg, y, tid, env).value);
    }
  }

  lemma StepKeepsCopies(cfg: Config, y: Sys, a: Action)
    requires BooksOk(y) && StatesOk(y) && CopiesOk(cfg, y) && Next(cfg, y, a).Some?
    ensures CopiesOk(cfg, Next(cfg, y, a).value)
  {
    match a
    case Call(tid, req) => OutsideKeepsAll(cfg, y, tid, Next(cfg, y, a).value);
    case Kill(tid) => OutsideKeepsAll(cfg, y, tid, Next(cfg, y, a).value);
    case Appear(path, data) =>
      AppearKeepsDisk(cfg, y, path, data);
      OtherKeepsCopies(cfg, y, Next(cfg, y, a).value);
    case Spill(tid, n) =>
      HolderAtWork(cfg, y, tid);
      SpillKeepsDisk(cfg, y, tid, n);
      OtherKeepsCopies(cfg, y, Next(cfg, y, a).value);
    case Advance(tid, env) => AdvanceKeepsCopies(cfg, y, tid, env);
  }

  lemma StepKeepsSafe(cfg: Config, y: Sys, a: Action)
    requires Safe(cfg, y) && Next(cfg, y, a).Some?
    ensures Safe(cfg, Next(cfg, y, a).value)
  {
    StepKeepsBooks(cfg, y, a);
    StepKeepsStates(cfg, y, a);
    StepKeepsEnding(cfg, y, a);
    StepKeepsCopies(cfg, y, a);
  }
}
