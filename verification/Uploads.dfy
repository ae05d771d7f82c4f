/** Concurrent uploads into one HTTP receive session, as interleaved threads. A thread is a call
    of SaveFile or of End; each of its steps is one mutex section, one atomic operation or one
    file system operation. Between any two steps other threads and other programs may run. */
module Uploads {
  import opened Base

  type Id = string

  const MAX_CHECKSUM_ATTEMPTS: nat := 3

  datatype Meta = Meta(id: Id, filename: string, size: int, checksum: string)

  datatype Status = Pending | InProgress | Finished | Failed

  predicate Terminal(status: Status) {
    status == Finished || status == Failed
  }

  /** `target` is chosen by the first attempt and kept across retries. */
  datatype FileState = FileState(status: Status, attempts: nat, target: Option<Path>)

  datatype Error = Ok | InvalidBody | Rejected | FileIO | Checksum

  datatype Request = Request(id: Id, token: string, clientIP: string, body: bytes)

  datatype Session = Session(
    id: string, clientIP: string, metas: map<Id, Meta>, tokens: map<Id, string>,
    states: map<Id, FileState>, filesCount: int, started: bool)

  /** Hex SHA-256, and comparison up to case. */
  datatype Config = Config(sha: bytes -> string, equalFold: (string, string) -> bool)

  datatype Thread =
    | Called(req: Request)
    | Admitted(req: Request)
    | Working(id: Id, target: Option<Path>, body: bytes)
    | Naming(id: Id, path: Path, body: bytes)
    | Copying(id: Id, path: Path, body: bytes)
    | Removing(id: Id, path: Path, result: Status, error: Error)
    | Finishing(id: Id, result: Status, error: Error)
    | Owing(id: Id, error: Error)
    | Ending(error: Error)
    | Zeroing(error: Error)
    | Returned(error: Error)

  /** What the file system and the network do during one step. */
  datatype Env = Env(nameOk: bool, dirOk: bool, createOk: bool, path: Path, ioOk: bool, flushOk: bool)

  /** Bookkeeping that no step reads: who works on a file, who still owes the decrement of the
      counter for it, for which files that was done; which paths are the draft of a thread,
      the final copy of a file, or something other programs put there; how often End returned
      true, and whether it was called from outside. */
  datatype History = History(
    owner: map<Id, nat>, owing: map<Id, nat>, settled: set<Id>,
    drafts: map<Path, nat>, finals: map<Path, Id>, foreign: map<Path, bytes>,
    ends: nat, killed: bool)

  datatype Sys = Sys(sess: Session, disk: map<Path, bytes>, threads: map<nat, Thread>, h: History)

  datatype Action =
    | Call(tid: nat, req: Request)
    | Kill(tid: nat)
    | Appear(path: Path, data: bytes)
    | Spill(tid: nat, n: nat)
    | Advance(tid: nat, env: Env)

  // ---------------------------------------------------------- mutex sections

  /** The entry checks; the only shared field they read is `started`. */
  function Admit(s: Session, req: Request): Error {
    if s.id == "" || req.id == "" || req.token == "" then InvalidBody
    else if !s.started then Rejected
    else if s.clientIP != "" && req.clientIP != s.clientIP then Rejected
    else Ok
  }

  predicate Acceptable(s: Session, req: Request) {
    && req.id in s.metas && req.id in s.tokens && req.id in s.states
    && s.states[req.id].status == Pending && s.tokens[req.id] == req.token
  }

  /** The call shows who may send this file: it comes from the session's address, with the token
      the session has issued for the file. */
  predicate Authorised(s: Session, req: Request) {
    && s.id != "" && req.id != "" && req.token != "" && (s.clientIP == "" || s.clientIP == req.clientIP)
    && req.id in s.metas && req.id in s.tokens && s.tokens[req.id] == req.token
  }

  /** And the file waits for it in a session that goes on. */
  predicate Entitled(s: Session, req: Request) {
    Authorised(s, req) && s.started && req.id in s.states && s.states[req.id].status == Pending
  }

  function Claim(s: Session, id: Id): Session
    requires id in s.states
  {
    s.(states := s.states[id := s.states[id].(status := InProgress, attempts := s.states[id].attempts + 1)])
  }

  function SetTarget(s: Session, id: Id, path: Path): Session
    requires id in s.states
  {
    s.(states := s.states[id := s.states[id].(target := Some(path))])
  }

  /** What an attempt that ended with `result` makes of the file. */
  function Settle(fs: FileState, result: Status): Status {
    if fs.status != InProgress then fs.status
    else if result == Pending && fs.attempts < MAX_CHECKSUM_ATTEMPTS then Pending
    else if result == Finished then Finished
    else Failed
  }

  function SetStatus(s: Session, id: Id, status: Status): Session
    requires id in s.states
  {
    s.(states := s.states[id := s.states[id].(status := status)])
  }

  // ----------------------------------------------------------------- the copy

  /** int64 arithmetic wraps. */
  function ToInt64(x: int): int {
    (x + 0x8000_0000_0000_0000) % 0x1_0000_0000_0000_0000 - 0x8000_0000_0000_0000
  }

  /** io.LimitReader(body, size + 1) */
  function Limited(body: bytes, size: int): bytes {
    var limit := ToInt64(size + 1);
    if limit <= 0 then [] else if |body| <= limit then body else body[..limit]
  }

  /** How a copy ends: the result it records and the error it reports. */
  function CopyVerdict(cfg: Config, meta: Meta, body: bytes, ioOk: bool, flushOk: bool): (Status, Error) {
    var got := Limited(body, meta.size);
    if !ioOk then (Failed, FileIO)
    else if |got| != meta.size then (Failed, InvalidBody)
    else if !flushOk then (Failed, FileIO)
    else if meta.checksum != "" && !cfg.equalFold(cfg.sha(got), meta.checksum) then (Pending, Checksum)
    else (Finished, Ok)
  }

  /** The content a finished file must have. */
  predicate Matches(cfg: Config, meta: Meta, content: bytes) {
    |content| == meta.size && (meta.checksum != "" ==> cfg.equalFold(cfg.sha(content), meta.checksum))
  }

  /** A copy succeeds only on a body that is exactly right: of the declared length, not longer
      even by one byte, and with the declared checksum. */
  lemma CopySucceedsIff(cfg: Config, meta: Meta, body: bytes)
    requires -0x8000_0000_0000_0000 <= meta.size < 0x7fff_ffff_ffff_ffff
    ensures CopyVerdict(cfg, meta, body, true, true).0 == Finished <==> Matches(cfg, meta, body)
    ensures CopyVerdict(cfg, meta, body, true, true).0 == Pending <==> |body| == meta.size && !Matches(cfg, meta, body)
    ensures CopyVerdict(cfg, meta, body, true, true).0 == Finished ==> Limited(body, meta.size) == body
  {}

  // ------------------------------------------------------------- bookkeeping

  /** The file whose attempt the thread is in. */
  function Held(t: Thread): Option<Id> {
    if t.Working? || t.Naming? || t.Copying? || t.Removing? || t.Finishing? then Some(t.id) else None
  }

  /** The file for which the thread still has to decrement the counter. */
  function Owed(t: Thread): Option<Id> {
    if t.Owing? then Some(t.id) else None
  }

  function Draft(t: Thread): Option<Path> {
    if t.Naming? || t.Copying? || t.Removing? then Some(t.path) else None
  }

  function Rebook(book: map<string, nat>, before: Option<string>, after: Option<string>, tid: nat): map<string, nat> {
    var rest := if before.Some? then book - {before.value} else book;
    if after.Some? then rest[after.value := tid] else rest
  }

  /** A thread's next step. */
  function Go(y: Sys, tid: nat, t: Thread): Sys {
    var was := if tid in y.threads then y.threads[tid] else Returned(Ok);
    y.(threads := y.threads[tid := t],
       h := y.h.(owner := Rebook(y.h.owner, Held(was), Held(t), tid),
                 owing := Rebook(y.h.owing, Owed(was), Owed(t), tid),
                 drafts := Rebook(y.h.drafts, Draft(was), Draft(t), tid)))
  }

  // -------------------------------------------------------------------- steps

  function BeginStep(y: Sys, tid: nat, req: Request): Sys {
    if !Acceptable(y.sess, req) then Go(y, tid, Returned(Rejected))
    else Go(y, tid, Working(req.id, y.sess.states[req.id].target, req.body)).(sess := Claim(y.sess, req.id))
  }

  /** O_CREATE|O_EXCL never touches a path that exists. */
  function WorkStep(y: Sys, tid: nat, id: Id, target: Option<Path>, body: bytes, env: Env): Sys {
    var path := if target.Some? then target.value else env.path;
    if !env.nameOk then Go(y, tid, Finishing(id, Failed, InvalidBody))
    else if !env.dirOk || !env.createOk || path in y.disk then Go(y, tid, Finishing(id, Failed, FileIO))
    else Go(y, tid, if target.Some? then Copying(id, path, body)
                    else Naming(id, path, body)).(disk := y.disk[path := []])
  }

  function NameStep(y: Sys, tid: nat, id: Id, path: Path, body: bytes): Sys
    requires id in y.sess.states
  {
    Go(y, tid, Copying(id, path, body)).(sess := SetTarget(y.sess, id, path))
  }

  /** A copy that ended with `result`, having received `content`. */
  function CopyStep(y: Sys, tid: nat, id: Id, path: Path, content: bytes, result: Status, error: Error): Sys {
    if result == Finished then
      var y1 := Go(y, tid, Finishing(id, Finished, error));
      y1.(disk := y.disk[path := content], h := y1.h.(finals := y.h.finals[path := id]))
    else Go(y, tid, Removing(id, path, result, error))
  }

  function RemoveStep(y: Sys, tid: nat, id: Id, path: Path, result: Status, error: Error): Sys {
    Go(y, tid, Finishing(id, result, error)).(disk := y.disk - {path})
  }

  function FinishStep(y: Sys, tid: nat, id: Id, result: Status, error: Error): Sys
    requires id in y.sess.states
  {
    var fs := y.sess.states[id];
    var status := Settle(fs, result);
    Go(y, tid, if fs.status == InProgress && Terminal(status) then Owing(id, error) else Returned(error)).(
      sess := SetStatus(y.sess, id, status))
  }

  function OweStep(y: Sys, tid: nat, id: Id, error: Error): Sys {
    var count := y.sess.filesCount - 1;
    var y1 := Go(y, tid, if count == 0 then Ending(error) else Returned(error));
    y1.(sess := y.sess.(filesCount := count), h := y1.h.(settled := y.h.settled + {id}))
  }

  /** The compare-and-swap of End. */
  function EndStep(y: Sys, tid: nat, error: Error): Sys {
    if !y.sess.started then Go(y, tid, Returned(error)) else
    var y1 := Go(y, tid, Zeroing(error));
    y1.(sess := y.sess.(started := false), h := y1.h.(ends := y.h.ends + 1))
  }

  function ZeroStep(y: Sys, tid: nat, error: Error): Sys {
    Go(y, tid, Returned(error)).(sess := y.sess.(filesCount := 0))
  }

  function AdvanceThread(cfg: Config, y: Sys, tid: nat, env: Env): Option<Sys>
    requires tid in y.threads
  {
    match y.threads[tid]
    case Called(req) =>
      Some(Go(y, tid, if Admit(y.sess, req) == Ok then Admitted(req) else Returned(Admit(y.sess, req))))
    case Admitted(req) => Some(BeginStep(y, tid, req))
    case Working(id, target, body) => Some(WorkStep(y, tid, id, target, body, env))
    case Naming(id, path, body) => if id !in y.sess.states then None else Some(NameStep(y, tid, id, path, body))
    case Copying(id, path, body) =>
      if id !in y.sess.metas then None else
      var (result, error) := CopyVerdict(cfg, y.sess.metas[id], body, env.ioOk, env.flushOk);
      Some(CopyStep(y, tid, id, path, Limited(body, y.sess.metas[id].size), result, error))
    case Removing(id, path, result, error) => Some(RemoveStep(y, tid, id, path, result, error))
    case Finishing(id, result, error) =>
      if id !in y.sess.states then None else Some(FinishStep(y, tid, id, result, error))
    case Owing(id, error) => Some(OweStep(y, tid, id, error))
    case Ending(error) => Some(EndStep(y, tid, error))
    case Zeroing(error) => Some(ZeroStep(y, tid, error))
    case Returned(_) => None
  }

  function Next(cfg: Config, y: Sys, a: Action): Option<Sys> {
    match a
    case Call(tid, req) => if tid in y.threads then None else Some(Go(y, tid, Called(req)))
    case Kill(tid) => if tid in y.threads then None else Some(Go(y.(h := y.h.(killed := true)), tid, Ending(Ok)))
    case Appear(path, data) =>
      if path in y.disk then None else
      Some(y.(disk := y.disk[path := data], h := y.h.(foreign := y.h.foreign[path := data])))
    case Spill(tid, n) =>
      if tid !in y.threads || !y.threads[tid].Copying? then None else
      var t := y.threads[tid];
      if t.path !in y.disk || n > |t.body| then None else Some(y.(disk := y.disk[t.path := t.body[..n]]))
    case Advance(tid, env) => if tid !in y.threads then None else AdvanceThread(cfg, y, tid, env)
  }

  function Run(cfg: Config, y: Sys, actions: seq<Action>): Option<Sys>
    decreases |actions|
  {
    if actions == [] then Some(y)
    else
      var y1 := Next(cfg, y, actions[0]);
      if y1.None? then None else Run(cfg, y1.value, actions[1..])
  }

  lemma {:induction false} RunAppend(cfg: Config, y: Sys, a: seq<Action>, b: seq<Action>)
    requires Run(cfg, y, a).Some?
    ensures Run(cfg, y, a + b) == Run(cfg, Run(cfg, y, a).value, b)
    decreases |a|
  {
    if a == [] {
      assert a + b == b;
    } else {
      assert (a + b)[0] == a[0] && (a + b)[1..] == a[1..] + b;
      RunAppend(cfg, Next(cfg, y, a[0]).value, a[1..], b);
    }
  }

  // --------------------------------------------------------------- invariants

  /** The book lists exactly the threads for which `key` says something, each under its key;
      so no two threads share a key. */
  ghost predicate Booked(threads: map<nat, Thread>, key: Thread -> Option<string>, book: map<string, nat>) {
    && (forall t | t in threads && key(threads[t]).Some? ::
          key(threads[t]).value in book && book[key(threads[t]).value] == t)
    && (forall k | k in book :: book[k] in threads && key(threads[book[k]]) == Some(k))
  }

  /** A file is in progress exactly while some thread holds it; once terminal it is settled, or
      some thread still owes its decrement. Attempts are bounded, and a retry has a target. */
  predicate FileOk(fs: FileState, held: bool, owed: bool, settled: bool) {
    && (fs.status == InProgress <==> held)
    && (Terminal(fs.status) <==> owed || settled)
    && !(owed && settled)
    && fs.attempts <= MAX_CHECKSUM_ATTEMPTS
    && (fs.status == Pending ==> fs.attempts < MAX_CHECKSUM_ATTEMPTS)
    && (fs.attempts == 0 ==> fs.status == Pending)
    && (fs.status == Pending && fs.attempts > 0 ==> fs.target.Some?)
  }

  ghost predicate FilesOk(states: map<Id, FileState>, held: set<Id>, owed: set<Id>, settled: set<Id>) {
    && held <= states.Keys && owed <= states.Keys && settled <= states.Keys
    && (forall id | id in states :: FileOk(states[id], id in held, id in owed, id in settled))
  }

  ghost predicate SomeoneEnds(threads: map<nat, Thread>) {
    exists t :: t in threads && threads[t].Ending?
  }

  ghost predicate CountOk(s: Session, settled: set<Id>, ends: nat) {
    && (s.started ==> s.filesCount == |s.states.Keys| - |settled|)
    && ends == (if s.started then 0 else 1)
  }

  /** Unless End is called from outside, the session ends when the last file is settled. */
  ghost predicate EndsOnTime(started: bool, files: set<Id>, settled: set<Id>, someoneEnds: bool, killed: bool) {
    !killed ==>
      && (!started || someoneEnds ==> settled == files)
      && (settled == files && files != {} && started ==> someoneEnds)
  }

  /** The file's copy is on the disk, at its target. */
  predicate Delivered(fs: FileState, finals: map<Path, Id>, id: Id) {
    fs.target.Some? && fs.target.value in finals && finals[fs.target.value] == id
  }

  /** What a thread inside an attempt knows about its file. */
  predicate Knows(t: Thread, fs: FileState, delivered: bool) {
    && (t.Working? ==> fs.target == t.target)
    && (t.Naming? ==> fs.target == None)
    && (t.Copying? || t.Removing? ==> fs.target == Some(t.path))
    && (t.Removing? ==> t.result == Pending || t.result == Failed)
    && (t.Finishing? ==> t.result != InProgress && (t.result == Pending ==> fs.target.Some?))
    && (delivered <==> t.Finishing? && t.result == Finished)
  }

  predicate Informed(states: map<Id, FileState>, finals: map<Path, Id>, t: Thread) {
    Held(t).Some? ==> t.id in states && Knows(t, states[t.id], Delivered(states[t.id], finals, t.id))
  }

  ghost predicate ThreadsOk(threads: map<nat, Thread>, states: map<Id, FileState>, finals: map<Path, Id>) {
    forall t | t in threads :: Informed(states, finals, threads[t])
  }

  /** Every path on the disk is a draft, a final copy, or somebody else's and untouched. */
  ghost predicate DiskOk(disk: map<Path, bytes>, drafts: set<Path>, finals: set<Path>, foreign: map<Path, bytes>) {
    && disk.Keys == drafts + finals + foreign.Keys
    && drafts !! finals && drafts !! foreign.Keys && finals !! foreign.Keys
    && (forall p | p in foreign :: disk[p] == foreign[p])
  }

  predicate FinalOk(cfg: Config, metas: map<Id, Meta>, states: map<Id, FileState>, id: Id, path: Path, content: bytes) {
    id in states && id in metas && states[id].target == Some(path) && Matches(cfg, metas[id], content)
  }

  ghost predicate FinalsMatch(cfg: Config, metas: map<Id, Meta>, states: map<Id, FileState>, disk: map<Path, bytes>,
                              finals: map<Path, Id>) {
    forall p | p in finals :: p in disk && FinalOk(cfg, metas, states, finals[p], p, disk[p])
  }

  /** Among the files nobody works on, those with a final copy are the finished ones. */
  ghost predicate FinishedDelivered(states: map<Id, FileState>, finals: map<Path, Id>) {
    forall id | id in states && states[id].status != InProgress ::
          states[id].status == Finished <==> Delivered(states[id], finals, id)
  }

  /** The counter is cleared only after the session has ended. */
  ghost predicate ZeroingOk(threads: map<nat, Thread>, started: bool) {
    forall t | t in threads && threads[t].Zeroing? :: !started
  }

  ghost predicate BooksOk(y: Sys) {
    Booked(y.threads, Held, y.h.owner) && Booked(y.threads, Owed, y.h.owing) && Booked(y.threads, Draft, y.h.drafts)
  }

  ghost predicate StatesOk(y: Sys) {
    && FilesOk(y.sess.states, y.h.owner.Keys, y.h.owing.Keys, y.h.settled)
    && y.sess.metas.Keys == y.sess.states.Keys && y.sess.tokens.Keys == y.sess.states.Keys
  }

  ghost predicate EndingOk(y: Sys) {
    && CountOk(y.sess, y.h.settled, y.h.ends)
    && EndsOnTime(y.sess.started, y.sess.states.Keys, y.h.settled, SomeoneEnds(y.threads), y.h.killed)
    && ZeroingOk(y.threads, y.sess.started)
  }

  ghost predicate CopiesOk(cfg: Config, y: Sys) {
    && ThreadsOk(y.threads, y.sess.states, y.h.finals)
    && DiskOk(y.disk, y.h.drafts.Keys, y.h.finals.Keys, y.h.foreign)
    && FinalsMatch(cfg, y.sess.metas, y.sess.states, y.disk, y.h.finals)
    && FinishedDelivered(y.sess.states, y.h.finals)
  }

  ghost predicate Safe(cfg: Config, y: Sys) {
    BooksOk(y) && StatesOk(y) && EndingOk(y) && CopiesOk(cfg, y)
  }

  // ---------------------------------------------------------- books are kept

  lemma RebookKeeps(threads: map<nat, Thread>, key: Thread -> Option<string>, book: map<string, nat>, tid: nat,
                    was: Thread, t: Thread)
    requires Booked(threads, key, book)
    requires if tid in threads then was == threads[tid] else key(was).None?
    requires key(t).Some? && key(t) != key(was) ==> key(t).value !in book
    ensures Booked(threads[tid := t], key, Rebook(book, key(was), key(t), tid))
  {}

  lemma GoKeepsBooks(y: Sys, tid: nat, t: Thread)
    requires BooksOk(y)
    requires var was := if tid in y.threads then y.threads[tid] else Returned(Ok);
             && (Held(t).Some? && Held(t) != Held(was) ==> Held(t).value !in y.h.owner)
             && (Owed(t).Some? && Owed(t) != Owed(was) ==> Owed(t).value !in y.h.owing)
             && (Draft(t).Some? && Draft(t) != Draft(was) ==> Draft(t).value !in y.h.drafts)
    ensures BooksOk(Go(y, tid, t))
  {
    var was := if tid in y.threads then y.threads[tid] else Returned(Ok);
    RebookKeeps(y.threads, Held, y.h.owner, tid, was, t);
    RebookKeeps(y.threads, Owed, y.h.owing, tid, was, t);
    RebookKeeps(y.threads, Draft, y.h.drafts, tid, was, t);
  }
}
