/** If SendFiles returns nil, every queued file is on the receiver's disk byte for byte, and
    no acknowledgement is ever dropped: for every run, with any failures. */
module TransferSafety {
  import opened Base
  import opened RtcProtocol
  import opened Framing
  import opened SM = SenderModel
  import RM = ReceiverModel
  import opened TransferSystem

  ghost predicate Usable(q: seq<Item>) {
    forall it | it in q :: it.id != "" && it.token != ""
  }

  /** The files saved since the start are the first `j` of the queue, in order. */
  ghost predicate Delivered(q: seq<Item>, j: nat, base: nat, saved: seq<RM.Saved>) {
    && j <= |q| && |saved| == base + j
    && forall i | 0 <= i < j :: saved[base + i].file.id == q[i].id && saved[base + i].bytes == q[i].content
  }

  function GoodAcks(q: seq<Item>, j: nat): (r: seq<Ack>)
    requires j <= |q|
    ensures |r| == j && forall i | 0 <= i < j :: r[i] == Ack(q[i].id, true, None)
  {
    seq(j, i requires 0 <= i < j => Ack(q[i].id, true, None))
  }

  ghost predicate InTransfer(r: RM.Recv) {
    r.phase == RM.WaitFiles || r.phase == RM.ReceivingFiles || r.phase == RM.Done
  }

  /** The receiver is where the stream says it is, and everything so far went well. */
  ghost predicate OnTrack(q: seq<Item>, base: nat, r: RM.Recv, seen: Place, acks: seq<Ack>) {
    match seen
    case BeforeFirst =>
      r.phase == RM.WaitFiles && r.linked && r.control == [] && acks == [] && Delivered(q, 0, base, r.saved)
    case Inside(j, got) =>
      && j < |q| && r.phase == RM.ReceivingFiles && r.cur.Some? && r.linked
      && r.cur.value.id == q[j].id && (!r.cur.value.broken ==> r.cur.value.bytes == got)
      && acks == GoodAcks(q, j) && Delivered(q, j, base, r.saved)
    case AtEnd => acks == GoodAcks(q, |q|) && Delivered(q, |q|, base, r.saved)
  }

  /** Something went wrong in a way SendFiles is bound to notice: a failure was reported, or
      the connection is gone before enough acknowledgements were sent. */
  ghost predicate OffTrack(n: nat, r: RM.Recv, acks: seq<Ack>) {
    (exists i :: 0 <= i < |acks| && !acks[i].success) || (!r.linked && |acks| < n)
  }

  // ------------------------------------------------------ one frame, receiver side

  /** During the transfer a frame causes at most one message: the response to the file it
      ended, sent only while the connection is set. */
  lemma FrameResponds(cfg: RM.Config, r: RM.Recv, f: Frame, env: RM.Env)
    requires InTransfer(r) && RM.Deliverable(f) && (r.phase == RM.ReceivingFiles <==> r.cur.Some?)
    ensures var (r1, outs) := RM.RecvFrame(cfg, r, f, env);
            && InTransfer(r1)
            && (!r.linked ==> !r1.linked)
            && (outs == [] ||
                (f.text && r.cur.Some? && r.linked &&
                 var v := RM.Verdict(cfg, r.cur.value, RM.FindFile(r.files, r.cur.value.id), env);
                 outs == [Say(ToDoc(FileResponse(r.cur.value.id, v.None?, v)))]))
  {}

  lemma GoodAcksSnoc(q: seq<Item>, j: nat)
    requires j < |q|
    ensures GoodAcks(q, j) + [Ack(q[j].id, true, None)] == GoodAcks(q, j + 1)
  {}

  lemma FirstHeader(u: Setup, base: nat, r: RM.Recv, f: Frame, env: RM.Env)
    requires Wired(u) && Usable(u.q) && u.q != [] && OnTrack(u.q, base, r, BeforeFirst, []) && r.cur.None?
    requires f == Header(u.rcfg.codec, u.q[0])
    ensures var (r1, outs) := RM.RecvFrame(u.rcfg, r, f, env);
            outs == [] && (OnTrack(u.q, base, r1, Inside(0, []), []) || OffTrack(|u.q|, r1, []))
  {
    var doc := ToDoc(FileHeader(u.q[0].id, u.q[0].token));
    assert u.q[0] in u.q;
    assert u.rcfg.codec.unmarshal(u.rcfg.codec.marshal(doc)) == Some(doc) && f.data[0] == 123;
    ParseRecognises(FileHeader(u.q[0].id, u.q[0].token));
    assert GoodAcks(u.q, 0) == [];
  }

  lemma FileData(u: Setup, base: nat, r: RM.Recv, j: nat, got: bytes, acks: seq<Ack>, f: Frame, env: RM.Env)
    requires OnTrack(u.q, base, r, Inside(j, got), acks) && !f.text
    ensures var (r1, outs) := RM.RecvFrame(u.rcfg, r, f, env);
            outs == [] && (OnTrack(u.q, base, r1, Inside(j, got + f.data), acks) || OffTrack(|u.q|, r1, acks))
  {}

  lemma FinishOnTrack(u: Setup, base: nat, r: RM.Recv, j: nat, acks: seq<Ack>, env: RM.Env)
    requires j < |u.q| && OnTrack(u.q, base, r, Inside(j, u.q[j].content), acks)
    ensures var (r1, outs) := RM.FinishCurrent(u.rcfg, r, env);
            && |outs| == 1 && outs[0].Say? && r1.linked && r1.cur.None?
            && (AckOf(outs[0]).success ==>
                  AckOf(outs[0]) == Ack(u.q[j].id, true, None) && Delivered(u.q, j + 1, base, r1.saved))
  {}

  lemma FileBoundary(u: Setup, base: nat, r: RM.Recv, j: nat, acks: seq<Ack>, f: Frame, env: RM.Env)
    requires Wired(u) && Usable(u.q) && j < |u.q| && OnTrack(u.q, base, r, Inside(j, u.q[j].content), acks)
    requires f == Boundary(u.rcfg.codec, u.q, j)
    ensures var (r1, outs) := RM.HandleBoundary(u.rcfg, r, f.data, env);
            var seen := if j + 1 < |u.q| then Inside(j + 1, []) else AtEnd;
            OnTrack(u.q, base, r1, seen, acks + AcksOf(outs)) || OffTrack(|u.q|, r1, acks + AcksOf(outs))
  {
    FinishOnTrack(u, base, r, j, acks, env);
    var (r0, outs) := RM.FinishCurrent(u.rcfg, r, env);
    var all := acks + AcksOf(outs);
    if !AckOf(outs[0]).success {
      assert !all[|acks|].success;
    } else {
      GoodAcksSnoc(u.q, j);
      assert all == GoodAcks(u.q, j + 1);
      if j + 1 < |u.q| {
        var doc := ToDoc(FileHeader(u.q[j + 1].id, u.q[j + 1].token));
        assert u.q[j + 1] in u.q;
        assert u.rcfg.codec.unmarshal(f.data) == Some(doc) && f.data[0] == 123;
      }
    }
  }

  /** A frame of the stream keeps the receiver on track or takes it off for good. */
  lemma TrackStep(u: Setup, base: nat, r: RM.Recv, seen: Place, acks: seq<Ack>, f: Frame, env: RM.Env)
    requires Wired(u) && Usable(u.q) && OnTrack(u.q, base, r, seen, acks) && RM.Deliverable(f)
    requires r.phase == RM.ReceivingFiles <==> r.cur.Some?
    requires Advance(u.rcfg.codec, u.q, seen, f).Some?
    ensures var (r1, outs) := RM.RecvFrame(u.rcfg, r, f, env);
            var seen1 := Advance(u.rcfg.codec, u.q, seen, f).value;
            var acks1 := acks + AcksOf(outs);
            OnTrack(u.q, base, r1, seen1, acks1) || (u.q != [] && OffTrack(|u.q|, r1, acks1))
  {
    var (r1, outs) := RM.RecvFrame(u.rcfg, r, f, env);
    assert outs == [] ==> acks + AcksOf(outs) == acks;
    match seen
    case BeforeFirst =>
      if u.q != [] {
        FirstHeader(u, base, r, f, env);
      }
    case Inside(j, got) =>
      if f.text {
        FileBoundary(u, base, r, j, acks, f, env);
      } else {
        FileData(u, base, r, j, got, acks, f, env);
      }
    case AtEnd =>
  }

  lemma OffTrackStep(u: Setup, r: RM.Recv, acks: seq<Ack>, f: Frame, env: RM.Env)
    requires OffTrack(|u.q|, r, acks) && InTransfer(r) && RM.Deliverable(f)
    requires r.phase == RM.ReceivingFiles <==> r.cur.Some?
    ensures var (r1, outs) := RM.RecvFrame(u.rcfg, r, f, env);
            OffTrack(|u.q|, r1, acks + AcksOf(outs))
  {
    FrameResponds(u.rcfg, r, f, env);
    var (r1, outs) := RM.RecvFrame(u.rcfg, r, f, env);
    if i :| 0 <= i < |acks| && !acks[i].success {
      assert (acks + AcksOf(outs))[i] == acks[i];
    }
  }

  // ---------------------------------------------------------------- the invariant

  function AckFrames(codec: Codec, acks: seq<Ack>): (fs: seq<Frame>)
    ensures |fs| == |acks|
  {
    seq(|acks|, i requires 0 <= i < |acks| =>
      Frame(codec.marshal(ToDoc(FileResponse(acks[i].id, acks[i].success, acks[i].error))), true))
  }

  /** How many acknowledgements SendFiles has taken when it is at `p`. */
  function TakenBy(q: seq<Item>, p: Pos): nat {
    match p
    case AtStart => 0
    case Sending(k, _) => k
    case Awaiting(k) => k
    case Finished => |q|
  }

  ghost predicate StreamOk(u: Setup, s: Sys) {
    && PosOk(u.q, s.pos)
    && Replay(u.rcfg.codec, u.q, s.seen, s.toRecv) == Some(PlaceOf(u.q, s.pos))
    && (s.seen.Inside? ==> s.seen.j < |u.q|)
    && (forall f | f in s.toRecv :: RM.Deliverable(f))
  }

  ghost predicate ReceiverOk(u: Setup, before: map<Path, bytes>, base: nat, s: Sys) {
    && RM.Invariant(u.rcfg, before, s.recv) && InTransfer(s.recv)
    && |s.acks| <= Boundaries(u.q, s.seen)
    && (forall a | a in s.acks :: a.id != "")
    && (OnTrack(u.q, base, s.recv, s.seen, s.acks) || (s.seen != BeforeFirst && OffTrack(|u.q|, s.recv, s.acks)))
  }

  /** Acknowledgements travel in order: taken, then buffered, then in flight. */
  ghost predicate ResponsesOk(u: Setup, s: Sys) {
    var m := s.taken + if s.send.result.Some? then 1 else 0;
    && !s.send.closed && s.send.dropped == 0 && m <= |s.acks|
    && (s.send.result.Some? ==> s.send.result.value == s.acks[s.taken])
    && s.toSend == AckFrames(u.rcfg.codec, s.acks[m..])
  }

  ghost predicate ProgressOk(u: Setup, s: Sys) {
    && InQueue(u.q, s.pos) && TakenBy(u.q, s.pos) <= s.taken
    && (s.outcome != ReturnedError ==>
          s.taken == TakenBy(u.q, s.pos) && forall i | 0 <= i < s.taken && i < |s.acks| && i < |u.q| ::
                s.acks[i].success && s.acks[i].id == u.q[i].id)
    && (s.outcome == ReturnedNil ==> s.pos == Finished)
  }

  ghost predicate Inv(u: Setup, before: map<Path, bytes>, base: nat, s: Sys) {
    StreamOk(u, s) && ReceiverOk(u, before, base, s) && ResponsesOk(u, s) && ProgressOk(u, s)
  }

  lemma BoundariesAhead(q: seq<Item>, p: Pos)
    requires InQueue(q, p)
    ensures Boundaries(q, PlaceOf(q, p)) <= TakenBy(q, p) + 1
  {}

  /** At most one acknowledgement is buffered or in flight. */
  lemma OneOutstanding(u: Setup, before: map<Path, bytes>, base: nat, s: Sys)
    requires Inv(u, before, base, s)
    ensures |s.toSend| + (if s.send.result.Some? then 1 else 0) <= 1
  {
    ReplayMovesForward(u.rcfg.codec, u.q, s.seen, s.toRecv);
    BoundariesAhead(u.q, s.pos);
  }

  lemma TransmitKeeps(u: Setup, before: map<Path, bytes>, base: nat, s: Sys, f: Frame)
    requires Wired(u) && Inv(u, before, base, s) && Next(u, s, Transmit(f)).Some?
    ensures Inv(u, before, base, Next(u, s, Transmit(f)).value)
  {
    TransmitAdvances(u.rcfg.codec, u.q, s.pos, f);
    ReplaySnoc(u.rcfg.codec, u.q, s.seen, s.toRecv, f);
  }

  lemma TakeAckKeeps(u: Setup, before: map<Path, bytes>, base: nat, s: Sys)
    requires Wired(u) && Inv(u, before, base, s) && Next(u, s, TakeAck).Some?
    ensures Inv(u, before, base, Next(u, s, TakeAck).value)
  {
    var s1 := Next(u, s, TakeAck).value;
    if s1.outcome == Running {
      assert s1.pos.Sending? ==> s1.pos.rest == u.q[s1.pos.k].content[0..];
      assert PlaceOf(u.q, s1.pos) == PlaceOf(u.q, s.pos);
    }
  }

  lemma ReceiveKeepsStream(u: Setup, s: Sys, env: RM.Env)
    requires StreamOk(u, s) && Next(u, s, Receive(env)).Some?
    ensures StreamOk(u, Next(u, s, Receive(env)).value)
    ensures Advance(u.rcfg.codec, u.q, s.seen, s.toRecv[0]) == Some(Next(u, s, Receive(env)).value.seen)
  {}

  lemma ReceiveKeepsTrack(u: Setup, before: map<Path, bytes>, base: nat, s: Sys, env: RM.Env)
    requires Wired(u) && Usable(u.q) && StreamOk(u, s) && ReceiverOk(u, before, base, s)
    requires Next(u, s, Receive(env)).Some?
    ensures var s1 := Next(u, s, Receive(env)).value;
            OnTrack(u.q, base, s1.recv, s1.seen, s1.acks)
                || (s1.seen != BeforeFirst && OffTrack(|u.q|, s1.recv, s1.acks))
  {
    ReceiveKeepsStream(u, s, env);
    if OnTrack(u.q, base, s.recv, s.seen, s.acks) {
      TrackStep(u, base, s.recv, s.seen, s.acks, s.toRecv[0], env);
    } else {
      OffTrackStep(u, s.recv, s.acks, s.toRecv[0], env);
    }
  }

  lemma ReceiveCountsAcks(u: Setup, before: map<Path, bytes>, base: nat, s: Sys, env: RM.Env)
    requires StreamOk(u, s) && ReceiverOk(u, before, base, s) && Next(u, s, Receive(env)).Some?
    ensures var s1 := Next(u, s, Receive(env)).value;
            |s1.acks| <= Boundaries(u.q, s1.seen) && InTransfer(s1.recv) && forall a | a in s1.acks :: a.id != ""
  {
    var f := s.toRecv[0];
    var s1 := Next(u, s, Receive(env)).value;
    ReceiveKeepsStream(u, s, env);
    FrameResponds(u.rcfg, s.recv, f, env);
    var outs := RM.RecvFrame(u.rcfg, s.recv, f, env).1;
    if outs == [] {
      assert s1.acks == s.acks;
    } else {
      assert s1.acks == s.acks + [AckOf(outs[0])];
    }
  }

  lemma ReceiveKeepsReceiver(u: Setup, before: map<Path, bytes>, base: nat, s: Sys, env: RM.Env)
    requires Wired(u) && Usable(u.q) && StreamOk(u, s) && ReceiverOk(u, before, base, s)
    requires Next(u, s, Receive(env)).Some?
    ensures ReceiverOk(u, before, base, Next(u, s, Receive(env)).value)
  {
    RM.FrameKeepsInvariant(u.rcfg, before, s.recv, s.toRecv[0], env);
    ReceiveKeepsTrack(u, before, base, s, env);
    ReceiveCountsAcks(u, before, base, s, env);
  }

  lemma ReceiveKeepsResponses(u: Setup, s: Sys, env: RM.Env)
    requires InQueue(u.q, s.pos) && ResponsesOk(u, s) && InTransfer(s.recv) && Next(u, s, Receive(env)).Some?
    requires s.recv.phase == RM.ReceivingFiles <==> s.recv.cur.Some?
    ensures var s1 := Next(u, s, Receive(env)).value;
            ResponsesOk(u, s1) && s.acks <= s1.acks
  {
    FrameResponds(u.rcfg, s.recv, s.toRecv[0], env);
    var s1 := Next(u, s, Receive(env)).value;
    var outs := RM.RecvFrame(u.rcfg, s.recv, s.toRecv[0], env).1;
    var m := s.taken + if s.send.result.Some? then 1 else 0;
    if outs == [] {
      assert s1.acks == s.acks;
    } else {
      OneOutFrame(u.rcfg.codec, outs);
      assert s1.acks == s.acks + [AckOf(outs[0])];
      assert s1.acks[m..] == s.acks[m..] + [AckOf(outs[0])];
    }
  }

  lemma OneOutFrame(codec: Codec, outs: seq<Out>)
    requires |outs| == 1 && outs[0].Say?
    requires outs[0].doc == ToDoc(FileResponse(AckOf(outs[0]).id, AckOf(outs[0]).success, AckOf(outs[0]).error))
    ensures OutFrames(codec, outs) == AckFrames(codec, [AckOf(outs[0])])
  {
    assert OutFrames(codec, outs[1..]) == [];
  }

  lemma NotifyKeeps(u: Setup, before: map<Path, bytes>, base: nat, s: Sys, env: SM.Env)
    requires Wired(u) && Inv(u, before, base, s) && Next(u, s, Notify(env)).Some?
    ensures Inv(u, before, base, Next(u, s, Notify(env)).value)
  {
    OneOutstanding(u, before, base, s);
    var a := s.acks[s.taken];
    var m := FileResponse(a.id, a.success, a.error);
    assert a in s.acks && s.acks[s.taken..][0] == a;
    assert s.toSend[0] == Frame(u.rcfg.codec.marshal(ToDoc(m)), true);
    assert u.rcfg.codec.unmarshal(s.toSend[0].data) == Some(ToDoc(m)) && s.toSend[0].data[0] == 123;
    ParseRecognises(m);
    assert SendFrame(u.scfg, s.send, s.toSend[0], env).0 == HandleFileResponse(s.send, a);
    assert s.toSend[1..] == AckFrames(u.rcfg.codec, s.acks[s.taken + 1..]);
  }

  /** Every action keeps the invariant. */
  lemma StepKeeps(u: Setup, before: map<Path, bytes>, base: nat, s: Sys, a: Action)
    requires Wired(u) && Usable(u.q) && Inv(u, before, base, s) && Next(u, s, a).Some?
    ensures Inv(u, before, base, Next(u, s, a).value)
  {
    match a
    case Transmit(f) => TransmitKeeps(u, before, base, s, f);
    case TakeAck => TakeAckKeeps(u, before, base, s);
    case Receive(env) =>
      ReceiveKeepsStream(u, s, env);
      ReceiveKeepsReceiver(u, before, base, s, env);
      ReceiveKeepsResponses(u, s, env);
    case Notify(env) => NotifyKeeps(u, before, base, s, env);
    case Abort =>
    case Return =>
  }

  lemma StartHolds(u: Setup, before: map<Path, bytes>, r: RM.Recv, s: Send)
    requires Ready(u, before, r, s)
    ensures Inv(u, before, |r.saved|, Start(r, s))
  {}

  // ------------------------------------------------------------------- whole runs

  /** The state after a sequence of actions, if every one of them was possible. */
  function Run(u: Setup, s: Sys, actions: seq<Action>): (r: Option<Sys>)
    requires InQueue(u.q, s.pos)
    ensures r.Some? ==> InQueue(u.q, r.value.pos)
    decreases |actions|
  {
    if actions == [] then Some(s)
    else
      var s1 := Next(u, s, actions[0]);
      if s1.None? then None else Run(u, s1.value, actions[1..])
  }

  lemma {:induction false} RunKeeps(u: Setup, before: map<Path, bytes>, base: nat, s: Sys, actions: seq<Action>)
    requires Wired(u) && Usable(u.q) && Inv(u, before, base, s) && Run(u, s, actions).Some?
    ensures Inv(u, before, base, Run(u, s, actions).value)
    decreases |actions|
  {
    if actions == [] {
    } else {
      StepKeeps(u, before, base, s, actions[0]);
      RunKeeps(u, before, base, Next(u, s, actions[0]).value, actions[1..]);
    }
  }

  /** In every reachable state at most one acknowledgement is outstanding, and the
      non-blocking send into the capacity-one channel has never dropped one. */
  lemma NoAckIsDropped(u: Setup, before: map<Path, bytes>, r: RM.Recv, s: Send, actions: seq<Action>)
    requires Wired(u) && Usable(u.q) && Ready(u, before, r, s) && Run(u, Start(r, s), actions).Some?
    ensures var t := Run(u, Start(r, s), actions).value;
            t.send.dropped == 0 && |t.toSend| + (if t.send.result.Some? then 1 else 0) <= 1
  {
    StartHolds(u, before, r, s);
    RunKeeps(u, before, |r.saved|, Start(r, s), actions);
    OneOutstanding(u, before, |r.saved|, Run(u, Start(r, s), actions).value);
  }

  ghost predicate Holds(disk: map<Path, bytes>, path: Path, content: bytes) {
    path in disk && disk[path] == content
  }

  /** The whole queue is saved, in order, and each file is on the disk byte for byte. */
  ghost predicate AllOnDisk(q: seq<Item>, base: nat, r: RM.Recv) {
    && Delivered(q, |q|, base, r.saved)
    && forall i | 0 <= i < |q| :: Holds(r.disk, r.saved[base + i].path, q[i].content)
  }

  lemma SavedOnDisk(u: Setup, before: map<Path, bytes>, base: nat, r: RM.Recv)
    requires RM.Invariant(u.rcfg, before, r) && Delivered(u.q, |u.q|, base, r.saved)
    ensures AllOnDisk(u.q, base, r)
  {
    forall i | 0 <= i < |u.q|
      ensures Holds(r.disk, r.saved[base + i].path, u.q[i].content)
    {
      RM.SavedDiskHolds(before, r.saved, base + i);
      assert r.saved[base + i].bytes == u.q[i].content;
    }
  }

  lemma FinishedOnTrack(u: Setup, before: map<Path, bytes>, base: nat, t: Sys)
    requires Inv(u, before, base, t) && t.outcome == ReturnedNil
    ensures t.acks == GoodAcks(u.q, |u.q|) && AllOnDisk(u.q, base, t.recv)
  {
    ReplayMovesForward(u.rcfg.codec, u.q, t.seen, t.toRecv);
    assert |t.acks| == |u.q|;
    assert OnTrack(u.q, base, t.recv, t.seen, t.acks);
    SavedOnDisk(u, before, base, t.recv);
  }

  /** Once SendFiles has returned nil: exactly one acknowledgement per file was sent, all
      successful and in queue order, and each queued file was saved in order and byte for
      byte, at its own path of the receiver's disk. */
  lemma NilMeansDelivered(u: Setup, before: map<Path, bytes>, r: RM.Recv, s: Send, actions: seq<Action>)
    requires Wired(u) && Usable(u.q) && Ready(u, before, r, s) && Run(u, Start(r, s), actions).Some?
    requires Run(u, Start(r, s), actions).value.outcome == ReturnedNil
    ensures var t := Run(u, Start(r, s), actions).value;
            t.acks == GoodAcks(u.q, |u.q|) && AllOnDisk(u.q, |r.saved|, t.recv)
  {
    StartHolds(u, before, r, s);
    RunKeeps(u, before, |r.saved|, Start(r, s), actions);
    FinishedOnTrack(u, before, |r.saved|, Run(u, Start(r, s), actions).value);
  }
}
