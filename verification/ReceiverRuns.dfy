/** Whole runs of the receiver under arbitrary traffic: the invariant holds in every
    reachable state, and which finished files the sender is told about. */
module ReceiverRuns {
  import opened Base
  import opened RtcProtocol
  import opened Framing
  import opened ReceiverModel

  type Trace = seq<(Event, Env)>

  ghost predicate ValidTrace(t: Trace) {
    forall i | 0 <= i < |t| :: ValidEvent(t[i].0)
  }

  function Run(cfg: Config, r: Recv, t: Trace): (Recv, seq<Out>)
    requires ValidTrace(t)
    decreases |t|
  {
    if t == [] then (r, [])
    else
      var (r1, out1) := Step(cfg, r, t[0].0, t[0].1);
      var (r2, out2) := Run(cfg, r1, t[1..]);
      (r2, out1 + out2)
  }

  /** NewRTCReceiver: nothing negotiated, no peer. */
  function NewReceiver(disk: map<Path, bytes>): Recv {
    Recv(WaitNonce, NO_HANDSHAKE, [], map[], None, [], false, disk, [])
  }

  lemma {:induction false} RunKeepsInvariant(cfg: Config, before: map<Path, bytes>, r: Recv, t: Trace)
    requires Invariant(cfg, before, r) && ValidTrace(t)
    ensures Invariant(cfg, before, Run(cfg, r, t).0)
    decreases |t|
  {
    if t == [] {
    } else {
      StepKeepsInvariant(cfg, before, r, t[0].0, t[0].1);
      RunKeepsInvariant(cfg, before, Step(cfg, r, t[0].0, t[0].1).0, t[1..]);
    }
  }

  /** Every reachable state of a new receiver is sound, and no file that was on the disk
      before is ever changed or removed. */
  lemma EveryRunIsSound(cfg: Config, disk: map<Path, bytes>, t: Trace)
    requires ValidTrace(t)
    ensures var r := Run(cfg, NewReceiver(disk), t).0;
            && Invariant(cfg, disk, r)
            && (r.phase == Done ==> r.cur.None?)
            && disk.Keys <= r.disk.Keys && (forall p | p in disk :: r.disk[p] == disk[p])
            && (forall p | p in r.disk && p !in disk ::
                  exists s :: s in r.saved && s.path == p && s.bytes == r.disk[p] && GoodSaved(cfg, s))
  {
    RunKeepsInvariant(cfg, disk, NewReceiver(disk), t);
    var r := Run(cfg, NewReceiver(disk), t).0;
    SavedDiskKeys(disk, r.saved);
    forall p | p in r.disk && p !in disk
      ensures exists s :: s in r.saved && s.path == p && s.bytes == r.disk[p] && GoodSaved(cfg, s)
    {
      var k :| 0 <= k < |r.saved| && r.saved[k].path == p;
      SavedDiskHolds(disk, r.saved, k);
      assert r.saved[k] in r.saved;
    }
  }

  // ------------------------------------------------------------ success responses

  predicate IsSuccess(o: Out) {
    o.Say? && o.doc.success == Some(true)
  }

  /** The ids of the success responses among some messages, in order. */
  function SuccessIds(outs: seq<Out>): seq<string> {
    if outs == [] then []
    else (if IsSuccess(outs[0]) then [StrOf(outs[0].doc.id)] else []) + SuccessIds(outs[1..])
  }

  function SavedIds(saved: seq<Saved>): (ids: seq<string>)
    ensures |ids| == |saved|
  {
    seq(|saved|, i requires 0 <= i < |saved| => saved[i].file.id)
  }

  lemma {:induction false} SuccessIdsAppend(a: seq<Out>, b: seq<Out>)
    ensures SuccessIds(a + b) == SuccessIds(a) + SuccessIds(b)
  {
    if a == [] {
      assert a + b == b && [] + SuccessIds(b) == SuccessIds(b);
    } else {
      assert (a + b)[0] == a[0] && (a + b)[1..] == a[1..] + b;
      SuccessIdsAppend(a[1..], b);
      var first := if IsSuccess(a[0]) then [StrOf(a[0].doc.id)] else [];
      assert first + (SuccessIds(a[1..]) + SuccessIds(b)) == first + SuccessIds(a[1..]) + SuccessIds(b);
    }
  }

  ghost predicate Quiet(r: Recv, result: (Recv, seq<Out>)) {
    SuccessIds(result.1) == [] && result.0.saved == r.saved
  }

  lemma HandshakeIsQuiet(cfg: Config, r: Recv, kind: Kind, env: Env)
    ensures Quiet(r, HandleNonce(cfg, r, kind, env))
    ensures Quiet(r, HandleToken(cfg, r, kind))
    ensures Quiet(r, HandlePin(cfg, r, kind))
  {}

  lemma FileListIsQuiet(cfg: Config, r: Recv, kind: Kind, doc: Doc, env: Env)
    ensures Quiet(r, HandleFileList(cfg, r, kind, doc, env))
  {}

  lemma TextSendsNoSuccess(cfg: Config, r: Recv, data: bytes, env: Env)
    requires |data| > 0
    ensures Quiet(r, HandleText(cfg, r, data, env))
  {
    var doc := cfg.codec.unmarshal(data);
    var kind := if doc.Some? then ParseRTCMessage(doc.value) else KNone;
    HandshakeIsQuiet(cfg, r, kind, env);
    if !kind.KNone? && r.phase == WaitFileList {
      FileListIsQuiet(cfg, r, kind, doc.value, env);
    }
  }

  lemma FinishAnswers(cfg: Config, r: Recv, env: Env)
    requires r.cur.Some?
    ensures var (r1, outs) := FinishCurrent(cfg, r, env);
            && r.saved <= r1.saved
            && SuccessIds(outs) == (if r.linked then SavedIds(r1.saved[|r.saved|..]) else [])
  {
    var (r1, outs) := FinishCurrent(cfg, r, env);
    if |outs| > 0 {
      assert outs[1..] == [];
    }
  }

  ghost predicate Answers(r: Recv, result: (Recv, seq<Out>)) {
    && r.saved <= result.0.saved
    && SuccessIds(result.1) == (if r.linked then SavedIds(result.0.saved[|r.saved|..]) else [])
  }

  lemma BoundaryAnswers(cfg: Config, r: Recv, data: bytes, env: Env)
    requires r.cur.Some?
    ensures Answers(r, HandleBoundary(cfg, r, data, env))
  {
    FinishAnswers(cfg, r, env);
    var (r1, outs) := FinishCurrent(cfg, r, env);
    assert HandleBoundary(cfg, r, data, env).0.saved == r1.saved;
  }

  lemma FrameAnswers(cfg: Config, r: Recv, f: Frame, env: Env)
    requires Deliverable(f)
    ensures Answers(r, RecvFrame(cfg, r, f, env))
  {
    if r.phase == ReceivingFiles && r.cur.Some? {
      if f.text {
        BoundaryAnswers(cfg, r, f.data, env);
      }
    } else {
      var (control, message) := Reassemble(r.control, f);
      if message.Some? {
        TextSendsNoSuccess(cfg, r.(control := control), message.value, env);
      }
    }
  }

  /** One event reports success for exactly the files it saves, unless the peer connection
      is already gone; then it reports nothing. */
  lemma StepAnswers(cfg: Config, r: Recv, e: Event, env: Env)
    requires ValidEvent(e)
    ensures var (r1, outs) := Step(cfg, r, e, env);
            && r.saved <= r1.saved
            && SuccessIds(outs) == (if r.linked then SavedIds(r1.saved[|r.saved|..]) else [])
  {
    if e.Arrive? {
      FrameAnswers(cfg, r, e.frame, env);
    }
  }

  /** No file is finished at a moment when the peer connection has already been dropped. */
  ghost predicate NoUnlinkedSave(cfg: Config, r: Recv, t: Trace)
    requires ValidTrace(t)
    decreases |t|
  {
    t == [] ||
    var r1 := Step(cfg, r, t[0].0, t[0].1).0;
    (!r.linked ==> r1.saved == r.saved) && NoUnlinkedSave(cfg, r1, t[1..])
  }

  lemma {:induction false} RunGrows(cfg: Config, r: Recv, t: Trace)
    requires ValidTrace(t)
    ensures r.saved <= Run(cfg, r, t).0.saved
    ensures |SuccessIds(Run(cfg, r, t).1)| <= |Run(cfg, r, t).0.saved| - |r.saved|
    decreases |t|
  {
    if t == [] {
    } else {
      var (r1, out1) := Step(cfg, r, t[0].0, t[0].1);
      StepAnswers(cfg, r, t[0].0, t[0].1);
      RunGrows(cfg, r1, t[1..]);
      SuccessIdsAppend(out1, Run(cfg, r1, t[1..]).1);
    }
  }

  lemma SamePrefix(a: seq<string>, x: seq<string>, y: seq<string>)
    ensures a + x == a + y <==> x == y
  {
    if a + x == a + y {
      assert (a + x)[|a|..] == x && (a + y)[|a|..] == y;
    }
  }

  /** Over a whole run the success responses are exactly the saved files, in order, if and
      only if no file was finished after the connection had been dropped. */
  lemma {:induction false} AnsweredIffLinked(cfg: Config, r: Recv, t: Trace)
    requires ValidTrace(t)
    ensures var (r', outs) := Run(cfg, r, t);
            && r.saved <= r'.saved
            && (SuccessIds(outs) == SavedIds(r'.saved[|r.saved|..]) <==> NoUnlinkedSave(cfg, r, t))
    decreases |t|
  {
    RunGrows(cfg, r, t);
    if t == [] {
    } else {
      var (r1, out1) := Step(cfg, r, t[0].0, t[0].1);
      var (r2, out2) := Run(cfg, r1, t[1..]);
      StepAnswers(cfg, r, t[0].0, t[0].1);
      RunGrows(cfg, r1, t[1..]);
      AnsweredIffLinked(cfg, r1, t[1..]);
      SuccessIdsAppend(out1, out2);
      var a, b := SavedIds(r1.saved[|r.saved|..]), SavedIds(r2.saved[|r1.saved|..]);
      assert SavedIds(r2.saved[|r.saved|..]) == a + b;
      if r.linked || r1.saved == r.saved {
        assert SuccessIds(out1) == a;
        SamePrefix(a, SuccessIds(out2), b);
      }
    }
  }

  /** The condition can fail: after a rejected header the connection is dropped, yet a good
      header that was already on its way is still received and saved, without a response. */
  lemma UnansweredSave(cfg: Config, r: Recv, env: Env, file: FileDto, token: string)
    requires Lossless(cfg.codec) && r.phase == WaitFiles && r.cur.None? && r.linked
    requires r.files == [file] && r.tokens == map[file.id := token] && file.id != "" && token != ""
    requires file.size == 0 && file.sha256 == "" && cfg.safeName(file)
    requires env.dirOk && env.createOk && env.flushOk && env.closeOk && env.path !in r.disk
    ensures var r1 := HandleText(cfg, r, cfg.codec.marshal(ToDoc(FileHeader(file.id, token + "x"))), env).0;
            var r2 := HandleText(cfg, r1, cfg.codec.marshal(ToDoc(FileHeader(file.id, token))), env).0;
            r2.cur.Some? &&
            var (r3, outs) := HandleBoundary(cfg, r2, ZERO, env);
            r3.saved == r.saved + [Saved(file, env.path, [])] && outs == []
  {
    var wrong, good := ToDoc(FileHeader(file.id, token + "x")), ToDoc(FileHeader(file.id, token));
    assert cfg.codec.unmarshal(cfg.codec.marshal(wrong)) == Some(wrong);
    assert cfg.codec.unmarshal(cfg.codec.marshal(good)) == Some(good);
    ParseRecognises(FileHeader(file.id, token + "x"));
    ParseRecognises(FileHeader(file.id, token));
    assert |token + "x"| != |token|;
    assert HandleText(cfg, r, cfg.codec.marshal(wrong), env).0 == Dropped(r);
  }
}
