/** Every transfer ends, and without failures it ends with everything delivered. */
module TransferProgress {
  import opened Base
  import opened RtcProtocol
  import opened Framing
  import opened SM = SenderModel
  import RM = ReceiverModel
  import opened TransferSystem
  import opened TransferSafety

  // -------------------------------------------------------------- termination

  /** At most how many actions SendFiles still has before it from file `k` on. */
  function OpsFrom(q: seq<Item>, k: nat): nat
    decreases |q| - k
  {
    if k >= |q| then 0 else |q[k].content| + 2 + OpsFrom(q, k + 1)
  }

  function OpsLeft(q: seq<Item>, p: Pos): nat {
    match p
    case AtStart => 1 + OpsFrom(q, 0)
    case Sending(k, rest) => |rest| + 2 + OpsFrom(q, k + 1)
    case Awaiting(k) => 1 + OpsFrom(q, k + 1)
    case Finished => 0
  }

  function Measure(q: seq<Item>, s: Sys): nat {
    4 * OpsLeft(q, s.pos) + 3 * |s.toRecv| + 2 * |s.toSend|
    + (if s.send.result.Some? then 1 else 0) + (if s.outcome == Running then 1 else 0)
  }

  lemma ReceiveDecreases(u: Setup, before: map<Path, bytes>, base: nat, s: Sys, env: RM.Env)
    requires Inv(u, before, base, s) && Next(u, s, Receive(env)).Some?
    ensures Measure(u.q, Next(u, s, Receive(env)).value) < Measure(u.q, s)
  {
    FrameResponds(u.rcfg, s.recv, s.toRecv[0], env);
    var outs := RM.RecvFrame(u.rcfg, s.recv, s.toRecv[0], env).1;
    if outs != [] {
      OneOutFrame(u.rcfg.codec, outs);
    }
  }

  lemma TransmitDecreases(u: Setup, s: Sys, f: Frame)
    requires InQueue(u.q, s.pos) && Next(u, s, Transmit(f)).Some?
    ensures Measure(u.q, Next(u, s, Transmit(f)).value) < Measure(u.q, s)
  {}

  lemma TakeAckDecreases(u: Setup, s: Sys)
    requires InQueue(u.q, s.pos) && Next(u, s, TakeAck).Some?
    ensures Measure(u.q, Next(u, s, TakeAck).value) < Measure(u.q, s)
  {}

  lemma NotifyDecreases(u: Setup, before: map<Path, bytes>, base: nat, s: Sys, env: SM.Env)
    requires Inv(u, before, base, s) && Next(u, s, Notify(env)).Some?
    ensures Measure(u.q, Next(u, s, Notify(env)).value) < Measure(u.q, s)
  {
    OneOutstanding(u, before, base, s);
  }

  /** Every action of every run brings the end nearer. */
  lemma StepDecreases(u: Setup, before: map<Path, bytes>, base: nat, s: Sys, a: Action)
    requires Inv(u, before, base, s) && Next(u, s, a).Some?
    ensures Measure(u.q, Next(u, s, a).value) < Measure(u.q, s)
  {
    match a
    case Transmit(f) => TransmitDecreases(u, s, f);
    case TakeAck => TakeAckDecreases(u, s);
    case Receive(env) => ReceiveDecreases(u, before, base, s, env);
    case Notify(env) => NotifyDecreases(u, before, base, s, env);
    case Abort =>
    case Return =>
  }

  /** No run is longer than the measure of its first state. */
  lemma {:induction false} RunsAreBounded(u: Setup, before: map<Path, bytes>, base: nat, s: Sys, actions: seq<Action>)
    requires Wired(u) && Usable(u.q) && Inv(u, before, base, s) && Run(u, s, actions).Some?
    ensures |actions| <= Measure(u.q, s)
    decreases |actions|
  {
    if actions == [] {
    } else {
      StepDecreases(u, before, base, s, actions[0]);
      StepKeeps(u, before, base, s, actions[0]);
      RunsAreBounded(u, before, base, Next(u, s, actions[0]).value, actions[1..]);
    }
  }

  // ----------------------------------------------------------- without failures

  /** The queue is what was offered and accepted: each item carries the token the receiver
      issued, and its declared size and checksum are those of its bytes. */
  ghost predicate Announced(u: Setup, tokens: map<string, string>, files: seq<FileDto>) {
    forall it | it in u.q ::
      && it.id in tokens && tokens[it.id] == it.token
      && var meta := RM.FindFile(files, it.id);
         && meta.Some? && u.rcfg.safeName(meta.value) && meta.value.size as int == |it.content|
         && (meta.value.sha256 == "" || meta.value.sha256 == u.rcfg.sha(it.content))
  }

  /** The receiver's file system does what it is asked. */
  ghost predicate Healthy(r: RM.Recv, env: RM.Env) {
    && env.dirOk && env.createOk && env.writeOk && env.flushOk && env.closeOk
    && env.path !in r.disk && (r.cur.Some? ==> env.path != r.cur.value.path)
  }

  ghost predicate Faultless(s: Sys, a: Action) {
    !a.Abort? && (a.Receive? ==> Healthy(s.recv, a.renv))
  }

  ghost predicate Clean(u: Setup, base: nat, r: RM.Recv, seen: Place, acks: seq<Ack>) {
    && OnTrack(u.q, base, r, seen, acks) && Announced(u, r.tokens, r.files)
    && (r.cur.Some? ==> !r.cur.value.broken)
  }

  lemma {:induction false} ReadSoFar(codec: Codec, q: seq<Item>, p: Place, fs: seq<Frame>)
    requires Replay(codec, q, p, fs).Some? && p.Inside? && p.j < |q|
    requires var e := Replay(codec, q, p, fs).value; e.Inside? ==> e.j < |q| && e.got <= q[e.j].content
    ensures p.got <= q[p.j].content
    decreases |fs|
  {
    if fs == [] {
    } else if !fs[0].text {
      ReadSoFar(codec, q, Advance(codec, q, p, fs[0]).value, fs[1..]);
    }
  }

  lemma CleanHeader(u: Setup, base: nat, r: RM.Recv, f: Frame, env: RM.Env)
    requires Wired(u) && Usable(u.q) && u.q != [] && Clean(u, base, r, BeforeFirst, []) && r.cur.None?
    requires f == Header(u.rcfg.codec, u.q[0]) && Healthy(r, env)
    ensures Clean(u, base, RM.RecvFrame(u.rcfg, r, f, env).0, Inside(0, []), [])
  {
    var doc := ToDoc(FileHeader(u.q[0].id, u.q[0].token));
    assert u.q[0] in u.q;
    assert u.rcfg.codec.unmarshal(u.rcfg.codec.marshal(doc)) == Some(doc) && f.data[0] == 123;
    ParseRecognises(FileHeader(u.q[0].id, u.q[0].token));
    FirstHeader(u, base, r, f, env);
  }

  lemma CleanData(u: Setup, base: nat, r: RM.Recv, j: nat, got: bytes, acks: seq<Ack>, f: Frame, env: RM.Env)
    requires Clean(u, base, r, Inside(j, got), acks) && !f.text && Healthy(r, env)
    requires got + f.data <= u.q[j].content
    ensures Clean(u, base, RM.RecvFrame(u.rcfg, r, f, env).0, Inside(j, got + f.data), acks)
  {
    assert u.q[j] in u.q;
  }

  lemma CleanFinish(u: Setup, base: nat, r: RM.Recv, j: nat, acks: seq<Ack>, env: RM.Env)
    requires j < |u.q| && Clean(u, base, r, Inside(j, u.q[j].content), acks) && Healthy(r, env)
    ensures var (r1, outs) := RM.FinishCurrent(u.rcfg, r, env);
            && acks + AcksOf(outs) == GoodAcks(u.q, j + 1) && Delivered(u.q, j + 1, base, r1.saved)
            && r1 == r.(cur := None, disk := r1.disk, saved := r1.saved)
            && r1.disk == r.disk[r.cur.value.path := u.q[j].content]
  {
    assert u.q[j] in u.q;
    var (r1, outs) := RM.FinishCurrent(u.rcfg, r, env);
    assert AcksOf(outs) == [Ack(u.q[j].id, true, None)];
    GoodAcksSnoc(u.q, j);
  }

  lemma CleanBoundary(u: Setup, base: nat, r: RM.Recv, j: nat, acks: seq<Ack>, f: Frame, env: RM.Env)
    requires Wired(u) && Usable(u.q) && j < |u.q| && Clean(u, base, r, Inside(j, u.q[j].content), acks)
    requires Healthy(r, env)
    requires f == Boundary(u.rcfg.codec, u.q, j)
    ensures var (r1, outs) := RM.HandleBoundary(u.rcfg, r, f.data, env);
            Clean(u, base, r1, if j + 1 < |u.q| then Inside(j + 1, []) else AtEnd, acks + AcksOf(outs))
  {
    CleanFinish(u, base, r, j, acks, env);
    if j + 1 < |u.q| {
      var doc := ToDoc(FileHeader(u.q[j + 1].id, u.q[j + 1].token));
      assert u.q[j + 1] in u.q;
      assert u.rcfg.codec.unmarshal(f.data) == Some(doc) && f.data[0] == 123;
    }
  }

  /** What faultless runs keep on top of the safety invariant. */
  ghost predicate Flawless(u: Setup, before: map<Path, bytes>, base: nat, s: Sys) {
    Inv(u, before, base, s) && Clean(u, base, s.recv, s.seen, s.acks) && s.outcome != ReturnedError
  }

  /** One frame of the stream, on the receiving side. */
  lemma CleanFrame(u: Setup, base: nat, r: RM.Recv, seen: Place, acks: seq<Ack>, f: Frame, next: Place, env: RM.Env)
    requires Wired(u) && Usable(u.q) && Clean(u, base, r, seen, acks) && Healthy(r, env) && RM.Deliverable(f)
    requires seen.BeforeFirst? ==> r.cur.None? && u.q != []
    requires Advance(u.rcfg.codec, u.q, seen, f) == Some(next)
    requires next.Inside? ==> next.j < |u.q| && next.got <= u.q[next.j].content
    ensures var (r1, outs) := RM.RecvFrame(u.rcfg, r, f, env); Clean(u, base, r1, next, acks + AcksOf(outs))
  {
    match seen
    case BeforeFirst =>
      CleanHeader(u, base, r, f, env);
      FirstHeader(u, base, r, f, env);
      assert AcksOf([]) == [] && acks + [] == acks;
    case Inside(j, got) =>
      if f.text {
        CleanBoundary(u, base, r, j, acks, f, env);
      } else {
        CleanData(u, base, r, j, got, acks, f, env);
        assert AcksOf([]) == [] && acks + [] == acks;
      }
  }

  /** Everything the stream still holds is bytes of the current file. */
  lemma NextPlaceReads(u: Setup, s: Sys, env: RM.Env)
    requires StreamOk(u, s) && Next(u, s, Receive(env)).Some?
    ensures var p := Next(u, s, Receive(env)).value.seen;
            && Advance(u.rcfg.codec, u.q, s.seen, s.toRecv[0]) == Some(p)
            && (p.Inside? ==> p.j < |u.q| && p.got <= u.q[p.j].content)
  {
    ReceiveKeepsStream(u, s, env);
    var s1 := Next(u, s, Receive(env)).value;
    assert PlaceOf(u.q, s.pos).Inside? ==> PlaceOf(u.q, s.pos).got <= u.q[PlaceOf(u.q, s.pos).j].content;
    if s1.seen.Inside? {
      ReadSoFar(u.rcfg.codec, u.q, s1.seen, s1.toRecv);
    }
  }

  lemma CleanReceive(u: Setup, before: map<Path, bytes>, base: nat, s: Sys, env: RM.Env)
    requires Wired(u) && Usable(u.q) && Flawless(u, before, base, s) && Next(u, s, Receive(env)).Some?
    requires Healthy(s.recv, env)
    ensures var s1 := Next(u, s, Receive(env)).value; Clean(u, base, s1.recv, s1.seen, s1.acks)
  {
    NextPlaceReads(u, s, env);
    var next := Next(u, s, Receive(env)).value.seen;
    if s.seen.BeforeFirst? && u.q == [] {
      EmptyQueueFrame(u, s, env);
    } else {
      CleanFrame(u, base, s.recv, s.seen, s.acks, s.toRecv[0], next, env);
    }
  }

  lemma EmptyQueueFrame(u: Setup, s: Sys, env: RM.Env)
    requires StreamOk(u, s) && Next(u, s, Receive(env)).Some? && s.seen.BeforeFirst? && u.q == []
    requires s.recv.phase == RM.WaitFiles && s.recv.control == [] && s.recv.cur.None?
    ensures var s1 := Next(u, s, Receive(env)).value; s1.recv == s.recv && s1.acks == s.acks
  {
    ReceiveKeepsStream(u, s, env);
    assert AcksOf([]) == [] && s.acks + [] == s.acks;
  }

  lemma CleanTakeAck(u: Setup, before: map<Path, bytes>, base: nat, s: Sys)
    requires Wired(u) && Flawless(u, before, base, s) && Next(u, s, TakeAck).Some?
    ensures Next(u, s, TakeAck).value.outcome == Running
  {
    ReplayMovesForward(u.rcfg.codec, u.q, s.seen, s.toRecv);
    var k := s.pos.k;
    assert s.taken == k && s.acks == GoodAcks(u.q, Boundaries(u.q, s.seen)) && s.send.result.value == s.acks[k];
  }

  lemma FlawlessStep(u: Setup, before: map<Path, bytes>, base: nat, s: Sys, a: Action)
    requires Wired(u) && Usable(u.q) && Flawless(u, before, base, s) && Faultless(s, a) && Next(u, s, a).Some?
    ensures Flawless(u, before, base, Next(u, s, a).value)
  {
    StepKeeps(u, before, base, s, a);
    match a
    case Receive(env) => CleanReceive(u, before, base, s, env);
    case TakeAck => CleanTakeAck(u, before, base, s);
    case _ =>
  }

  ghost predicate Enabled(u: Setup, s: Sys, a: Action) {
    InQueue(u.q, s.pos) && Next(u, s, a).Some?
  }

  /** Nothing can happen any more except a failure. */
  ghost predicate Stuck(u: Setup, s: Sys) {
    forall a: Action | !a.Abort? :: !Enabled(u, s, a)
  }

  lemma SenderCanGoOn(u: Setup, s: Sys) returns (a: Action)
    requires PosOk(u.q, s.pos) && s.outcome == Running && !s.pos.Awaiting?
    requires u.scfg.codec == u.rcfg.codec
    ensures !a.Abort? && Enabled(u, s, a)
  {
    var codec := u.scfg.codec;
    match s.pos
    case AtStart => a := Transmit(if u.q == [] then Frame(ZERO, true) else Header(codec, u.q[0]));
    case Sending(k, rest) => a := Transmit(if rest == [] then Boundary(codec, u.q, k) else Frame(rest[..1], false));
    case Finished => a := Return;
  }

  lemma ResponsesCount(u: Setup, s: Sys)
    requires ResponsesOk(u, s)
    ensures |s.acks| == s.taken + |s.toSend| + if s.send.result.Some? then 1 else 0
  {}

  lemma AcksCount(q: seq<Item>, base: nat, r: RM.Recv, seen: Place, acks: seq<Ack>)
    requires OnTrack(q, base, r, seen, acks)
    ensures |acks| == Boundaries(q, seen)
  {}

  lemma AckHasArrived(u: Setup, base: nat, s: Sys)
    requires StreamOk(u, s) && ResponsesOk(u, s) && OnTrack(u.q, base, s.recv, s.seen, s.acks)
    requires s.pos.Awaiting? && s.taken == s.pos.k && s.toRecv == [] && s.toSend == []
    ensures s.send.result.Some?
  {
    ResponsesCount(u, s);
    AcksCount(u.q, base, s.recv, s.seen, s.acks);
    assert s.seen == PlaceOf(u.q, s.pos);
  }

  /** A faultless run never gets stuck before SendFiles has returned nil. */
  lemma SomeActionIsPossible(u: Setup, before: map<Path, bytes>, base: nat, s: Sys, renv: RM.Env, senv: SM.Env)
    returns (a: Action)
    requires Wired(u) && Flawless(u, before, base, s) && s.outcome == Running
    ensures !a.Abort? && Enabled(u, s, a)
  {
    if s.toRecv != [] {
      assert s.toRecv[0] in s.toRecv;
      a := Receive(renv);
    } else if s.toSend != [] {
      a := Notify(senv);
    } else if s.pos.Awaiting? {
      AckHasArrived(u, base, s);
      a := TakeAck;
    } else {
      a := SenderCanGoOn(u, s);
    }
  }

  ghost predicate FaultlessRun(u: Setup, s: Sys, actions: seq<Action>)
    requires InQueue(u.q, s.pos)
    decreases |actions|
  {
    actions == [] ||
    (Faultless(s, actions[0]) && Next(u, s, actions[0]).Some?
     && FaultlessRun(u, Next(u, s, actions[0]).value, actions[1..]))
  }

  lemma {:induction false} FaultlessRunKeeps(u: Setup, before: map<Path, bytes>, base: nat, s: Sys,
                                             actions: seq<Action>)
    requires Wired(u) && Usable(u.q) && Flawless(u, before, base, s) && FaultlessRun(u, s, actions)
    ensures Run(u, s, actions).Some? && Flawless(u, before, base, Run(u, s, actions).value)
    decreases |actions|
  {
    if actions == [] {
    } else {
      FlawlessStep(u, before, base, s, actions[0]);
      FaultlessRunKeeps(u, before, base, Next(u, s, actions[0]).value, actions[1..]);
    }
  }

  /** A transfer without failures, run until nothing more can happen, ends within a number
      of actions fixed by the queue, SendFiles returns nil, and everything is delivered. */
  lemma FaultlessRunsDeliver(u: Setup, before: map<Path, bytes>, r: RM.Recv, s: Send, actions: seq<Action>,
                             renv: RM.Env, senv: SM.Env)
    requires Wired(u) && Usable(u.q) && Ready(u, before, r, s) && Announced(u, r.tokens, r.files)
    requires FaultlessRun(u, Start(r, s), actions)
    ensures Run(u, Start(r, s), actions).Some? && |actions| <= Measure(u.q, Start(r, s))
    ensures var t := Run(u, Start(r, s), actions).value;
            Stuck(u, t) ==> t.outcome == ReturnedNil && AllOnDisk(u.q, |r.saved|, t.recv)
  {
    StartHolds(u, before, r, s);
    FaultlessRunKeeps(u, before, |r.saved|, Start(r, s), actions);
    RunsAreBounded(u, before, |r.saved|, Start(r, s), actions);
    var t := Run(u, Start(r, s), actions).value;
    if t.outcome == Running {
      var a := SomeActionIsPossible(u, before, |r.saved|, t, renv, senv);
    } else {
      NilMeansDelivered(u, before, r, s, actions);
    }
  }
}
