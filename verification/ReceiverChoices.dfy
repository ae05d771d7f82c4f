/** What the user of the receiver decides: which files are accepted, which tokens are issued, and
    that nothing else is ever received. */
module ReceiverChoices {
  import opened Base
  import opened RtcProtocol
  import opened Framing
  import opened ReceiverModel
  import opened ReceiverRuns

  // ------------------------------------------------------------------ one offer

  /** The ids the user selects from an offer; without a callback all that are offered. */
  function Selection(files: seq<FileDto>, selected: Option<seq<string>>): set<string> {
    match selected
    case Some(ids) => set id | id in ids
    case None => set f | f in files :: f.id
  }

  ghost predicate IsFirst(files: seq<FileDto>, i: int, id: string) {
    0 <= i < |files| && files[i].id == id && forall j | 0 <= j < i :: files[j].id != id
  }

  /** An offered file that can be saved: the first with this id has a usable name. */
  ghost predicate Usable(cfg: Config, files: seq<FileDto>, id: string) {
    exists i :: IsFirst(files, i, id) && cfg.safeName(files[i])
  }

  lemma {:induction false} FindsFirst(files: seq<FileDto>, i: nat)
    requires i < |files| && IsFirst(files, i, files[i].id)
    ensures FindFile(files, files[i].id) == Some(files[i])
  {
    if i > 0 {
      assert files[1..][i - 1] == files[i] && forall j | 0 <= j < i - 1 :: files[1..][j] == files[j + 1];
      FindsFirst(files[1..], i - 1);
    }
  }

  lemma {:induction false} FoundIsFirst(files: seq<FileDto>, id: string) returns (i: nat)
    requires FindFile(files, id).Some?
    ensures IsFirst(files, i, id) && files[i] == FindFile(files, id).value
  {
    if files[0].id == id {
      i := 0;
    } else {
      var k := FoundIsFirst(files[1..], id);
      i := k + 1;
      forall j | 0 <= j < i ensures files[j].id != id {
        assert j > 0 ==> files[j] == files[1..][j - 1];
      }
    }
  }

  lemma {:induction false} UsableIsFound(cfg: Config, files: seq<FileDto>, id: string)
    ensures Usable(cfg, files, id) <==> FindFile(files, id).Some? && cfg.safeName(FindFile(files, id).value)
  {
    if FindFile(files, id).Some? {
      var i := FoundIsFirst(files, id);
    }
    if i :| IsFirst(files, i, id) && cfg.safeName(files[i]) {
      FindsFirst(files, i);
    }
  }

  /** The tokens of an answer: for each selected file that is offered and usable, and no other. */
  ghost predicate TokensFor(cfg: Config, files: seq<FileDto>, env: Env, tokens: map<string, string>) {
    && (forall id :: id in tokens <==> id in Selection(files, env.selected) && Usable(cfg, files, id))
    && (forall id | id in tokens :: exists i: nat {:trigger env.fileToken(i)} :: tokens[id] == env.fileToken(i))
  }

  ghost predicate IsOffer(cfg: Config, data: bytes, files: seq<FileDto>) {
    && data != []
    && var doc := cfg.codec.unmarshal(data);
       && doc.Some?
       && (ParseRTCMessage(doc.value).KFileList? || ParseRTCMessage(doc.value) == KStatus("OK"))
       && (doc.value.files == FileArray(files) || (doc.value.files.NoFiles? && files == []))
  }

  /** An offer is declined if and only if it is too large or the user selects nothing from it.
      Otherwise exactly the selected files that are offered and usable get tokens, the sender is
      told these tokens, and the receiver waits for the files. */
  lemma {:induction false} OfferIsAnsweredAsChosen(cfg: Config, r: Recv, data: bytes, files: seq<FileDto>, env: Env)
    requires r.phase == WaitFileList && r.linked && r.tokens == map[] && IsOffer(cfg, data, files)
    ensures var (r1, outs) := HandleText(cfg, r, data, env);
            if |files| > MAX_FILES_PER_SESSION || Selection(files, env.selected) == {} then
              && outs == [SayChunked(ToDoc(FileListResponse("DECLINED", map[])))]
              && r1.phase == WaitFileList && r1.tokens == map[]
            else
              && outs == [SayChunked(ToDoc(FileListResponse("OK", r1.tokens)))]
              && r1.phase == WaitFiles && r1.files == files && TokensFor(cfg, files, env, r1.tokens)
  {
    var accepted := if env.selected.Some? then env.selected.value else Ids(files);
    SelectionIsAccepted(files, env.selected, accepted);
    AcceptedTokens(cfg, files, env, accepted);
    assert map[] + PrepareTokens(cfg, files, accepted, env.fileToken) ==
        PrepareTokens(cfg, files, accepted, env.fileToken);
  }

  lemma {:induction false} SelectionIsAccepted(files: seq<FileDto>, selected: Option<seq<string>>,
                                               accepted: seq<string>)
    requires accepted == if selected.Some? then selected.value else Ids(files)
    ensures forall id :: id in Selection(files, selected) <==> id in accepted
    ensures Selection(files, selected) == {} <==> accepted == []
  {
    forall id ensures id in Selection(files, selected) <==> id in accepted {
      if selected.None? {
        if id in accepted {
          var i :| 0 <= i < |accepted| && accepted[i] == id;
          assert files[i] in files;
        }
        if id in Selection(files, selected) {
          var i :| 0 <= i < |files| && files[i].id == id;
          assert accepted[i] == id;
        }
      }
    }
    if accepted != [] {
      assert accepted[0] in Selection(files, selected);
    }
  }

  lemma {:induction false} AcceptedTokens(cfg: Config, files: seq<FileDto>, env: Env, accepted: seq<string>)
    requires forall id :: id in Selection(files, env.selected) <==> id in accepted
    ensures TokensFor(cfg, files, env, PrepareTokens(cfg, files, accepted, env.fileToken))
  {
    PreparedExactly(cfg, files, accepted, env.fileToken);
    forall id ensures Usable(cfg, files, id) <==> FindFile(files, id).Some? && cfg.safeName(FindFile(files, id).value) {
      UsableIsFound(cfg, files, id);
    }
  }

  // ------------------------------------------------------------------- whole runs

  /** What the user has selected in the current session, after one more event: an event that takes
      the receiver from waiting for a list to waiting for files was an accepted offer; a new
      session starts with nothing. */
  function PicksAfter(cfg: Config, picks: set<string>, r: Recv, e: Event, env: Env): set<string>
    requires ValidEvent(e)
  {
    var r1 := Step(cfg, r, e, env).0;
    if e.NewOffer? && (!r.linked || r.phase == Done) then {}
    else if e.Arrive? && r.phase == WaitFileList && r1.phase == WaitFiles then Selection(r1.files, env.selected)
    else picks
  }

  function Picks(cfg: Config, picks: set<string>, r: Recv, t: Trace): set<string>
    requires ValidTrace(t)
    decreases |t|
  {
    if t == [] then picks
    else Picks(cfg, PicksAfter(cfg, picks, r, t[0].0, t[0].1), Step(cfg, r, t[0].0, t[0].1).0, t[1..])
  }

  /** Tokens are held for the selected files that are offered and usable, and for no others. */
  ghost predicate HoldsPicks(cfg: Config, picks: set<string>, r: Recv) {
    && (forall id :: id in r.tokens <==> id in picks && Usable(cfg, r.files, id))
    && (Handshaking(r.phase) ==> picks == {})
  }

  lemma {:induction false} OfferKeepsPicks(cfg: Config, picks: set<string>, r: Recv, files: seq<FileDto>, env: Env)
    requires r.tokens == map[] && picks == {} && r.phase == WaitFileList
    ensures var r1 := AnswerOffer(cfg, r, files, env).0;
            HoldsPicks(cfg, if r1.phase == WaitFiles then Selection(r1.files, env.selected) else picks, r1)
  {
    var accepted := if env.selected.Some? then env.selected.value else Ids(files);
    SelectionIsAccepted(files, env.selected, accepted);
    AcceptedTokens(cfg, files, env, accepted);
    var tokens := PrepareTokens(cfg, files, accepted, env.fileToken);
    assert map[] + tokens == tokens;
  }

  lemma {:induction false} FileListKeepsPicks(cfg: Config, picks: set<string>, r: Recv, kind: Kind, doc: Doc, env: Env)
    requires SessionOk(r) && HoldsPicks(cfg, picks, r) && r.phase == WaitFileList
    ensures var r1 := HandleFileList(cfg, r, kind, doc, env).0;
            HoldsPicks(cfg, if r1.phase == WaitFiles then Selection(r1.files, env.selected) else picks, r1)
  {
    var files := OfferedFiles(doc);
    if files.Some? {
      OfferKeepsPicks(cfg, picks, r, files.value, env);
    }
  }

  lemma {:induction false} TextKeepsPicks(cfg: Config, picks: set<string>, r: Recv, data: bytes, env: Env)
    requires SessionOk(r) && HoldsPicks(cfg, picks, r) && |data| > 0
    ensures var r1 := HandleText(cfg, r, data, env).0;
            HoldsPicks(cfg, if r.phase == WaitFileList && r1.phase == WaitFiles
                            then Selection(r1.files, env.selected) else picks, r1)
  {
    var doc := cfg.codec.unmarshal(data);
    var kind := if doc.Some? then ParseRTCMessage(doc.value) else KNone;
    if !kind.KNone? && r.phase == WaitFileList {
      FileListKeepsPicks(cfg, picks, r, kind, doc.value, env);
    }
  }

  /** While a file is being received no frame touches the tokens; what it ends it may save. */
  lemma {:induction false} FileFrameKeepsTokens(cfg: Config, r: Recv, f: Frame, env: Env)
    requires SessionOk(r) && r.cur.Some? && Deliverable(f)
    ensures var r1 := RecvFrame(cfg, r, f, env).0;
            && r1.tokens == r.tokens && r1.files == r.files && !Handshaking(r1.phase)
            && r.saved <= r1.saved && (forall s | s in r1.saved[|r.saved|..] :: s.file.id == r.cur.value.id)
  {
    if f.text {
      BoundaryKeepsTokens(cfg, r, f.data, env);
    }
  }

  lemma {:induction false} BoundaryKeepsTokens(cfg: Config, r: Recv, data: bytes, env: Env)
    requires SessionOk(r) && r.cur.Some?
    ensures var r1 := HandleBoundary(cfg, r, data, env).0;
            && r1.tokens == r.tokens && r1.files == r.files && !Handshaking(r1.phase)
            && r.saved <= r1.saved && (forall s | s in r1.saved[|r.saved|..] :: s.file.id == r.cur.value.id)
  {
    var r1 := FinishCurrent(cfg, r, env).0;
    assert r1.tokens == r.tokens && r1.files == r.files && r1.phase == r.phase;
    assert AfterBoundary(cfg, r1, data, env).saved == r1.saved;
  }

  /** A frame that arrives while no file is open saves none. */
  lemma {:induction false} OtherFrameSavesNone(cfg: Config, r: Recv, f: Frame, env: Env)
    requires SessionOk(r) && r.cur.None? && Deliverable(f)
    ensures RecvFrame(cfg, r, f, env).0.saved == r.saved
  {
    var (control, message) := Reassemble(r.control, f);
    if message.Some? {
      TextKeepsSession(cfg, r.(control := control), message.value, env);
    }
  }

  lemma {:induction false} OtherFrameKeepsPicks(cfg: Config, picks: set<string>, r: Recv, f: Frame, env: Env)
    requires SessionOk(r) && HoldsPicks(cfg, picks, r) && r.cur.None? && Deliverable(f)
    ensures var r1 := RecvFrame(cfg, r, f, env).0;
            HoldsPicks(cfg, if r.phase == WaitFileList && r1.phase == WaitFiles
                            then Selection(r1.files, env.selected) else picks, r1)
  {
    var (control, message) := Reassemble(r.control, f);
    if message.Some? {
      TextKeepsPicks(cfg, picks, r.(control := control), message.value, env);
    }
  }

  lemma {:induction false} StepKeepsPicks(cfg: Config, picks: set<string>, r: Recv, e: Event, env: Env)
    requires SessionOk(r) && HoldsPicks(cfg, picks, r) && ValidEvent(e)
    ensures HoldsPicks(cfg, PicksAfter(cfg, picks, r, e, env), Step(cfg, r, e, env).0)
  {
    match e
    case Arrive(f) =>
      if r.cur.None? {
        OtherFrameKeepsPicks(cfg, picks, r, f, env);
      } else {
        FileFrameKeepsTokens(cfg, r, f, env);
      }
    case _ =>
  }

  lemma {:induction false} RunKeepsPicks(cfg: Config, disk: map<Path, bytes>, picks: set<string>, r: Recv, t: Trace)
    requires Invariant(cfg, disk, r) && HoldsPicks(cfg, picks, r) && ValidTrace(t)
    ensures Invariant(cfg, disk, Run(cfg, r, t).0) && HoldsPicks(cfg, Picks(cfg, picks, r, t), Run(cfg, r, t).0)
    decreases |t|
  {
    if t != [] {
      StepKeepsInvariant(cfg, disk, r, t[0].0, t[0].1);
      StepKeepsPicks(cfg, picks, r, t[0].0, t[0].1);
      RunKeepsPicks(cfg, disk, PicksAfter(cfg, picks, r, t[0].0, t[0].1), Step(cfg, r, t[0].0, t[0].1).0, t[1..]);
    }
  }

  /** The message an arriving frame completes: itself while a file is being received. */
  function MessageOf(r: Recv, f: Frame): Option<bytes> {
    if r.cur.Some? then Some(f.data) else Reassemble(r.control, f).1
  }

  /** The frame opens a file: none was open, or it ended the one before. */
  predicate Opens(r: Recv, f: Frame, r1: Recv) {
    r1.cur.Some? && (r.cur.None? || f.text)
  }

  /** A header with the file's id and the token issued for it. */
  ghost predicate HeaderOf(cfg: Config, r: Recv, data: bytes, id: string) {
    && id in r.tokens
    && var doc := cfg.codec.unmarshal(data);
       doc.Some? && doc.value.id == Some(id) && StrOf(doc.value.token) == r.tokens[id]
  }

  ghost predicate RightHeader(cfg: Config, r: Recv, f: Frame, id: string) {
    MessageOf(r, f).Some? && HeaderOf(cfg, r, MessageOf(r, f).value, id)
  }

  lemma {:induction false} FrameOpens(cfg: Config, r: Recv, f: Frame, env: Env)
    requires SessionOk(r) && Deliverable(f)
    ensures var r1 := RecvFrame(cfg, r, f, env).0; Opens(r, f, r1) ==> RightHeader(cfg, r, f, r1.cur.value.id)
  {
    if r.cur.Some? {
      if f.text {
        BoundaryOpens(cfg, r, f.data, env);
      }
    } else {
      var (control, message) := Reassemble(r.control, f);
      if message.Some? {
        TextOpens(cfg, r.(control := control), message.value, env);
      }
    }
  }

  lemma {:induction false} BoundaryOpens(cfg: Config, r: Recv, data: bytes, env: Env)
    requires r.cur.Some?
    ensures var r1 := HandleBoundary(cfg, r, data, env).0;
            r1.cur.Some? ==> HeaderOf(cfg, r, data, r1.cur.value.id)
  {
    var r1 := FinishCurrent(cfg, r, env).0;
    assert r1.cur == None && r1.tokens == r.tokens;
  }

  lemma {:induction false} TextOpens(cfg: Config, r: Recv, data: bytes, env: Env)
    requires r.cur.None? && |data| > 0
    ensures var r1 := HandleText(cfg, r, data, env).0; r1.cur.Some? ==> HeaderOf(cfg, r, data, r1.cur.value.id)
  {
    var doc := cfg.codec.unmarshal(data);
    var kind := if doc.Some? then ParseRTCMessage(doc.value) else KNone;
    if !kind.KNone? && r.phase != WaitFiles {
      HandshakeOpensNone(cfg, r, kind, doc.value, env);
    }
  }

  lemma {:induction false} HandshakeOpensNone(cfg: Config, r: Recv, kind: Kind, doc: Doc, env: Env)
    requires r.cur.None?
    ensures HandleNonce(cfg, r, kind, env).0.cur.None? && HandleToken(cfg, r, kind).0.cur.None?
    ensures HandlePin(cfg, r, kind).0.cur.None? && HandleFileList(cfg, r, kind, doc, env).0.cur.None?
  {}

  /** Over every run of a new receiver, whatever arrives: tokens are held for exactly the files
      the user has selected in this session, as far as they were offered and are usable; a file
      is opened only by a header with its token; and a file that is saved had been selected. */
  lemma OnlyChosenFilesAreSaved(cfg: Config, disk: map<Path, bytes>, t: Trace, e: Event, env: Env)
    requires ValidTrace(t) && ValidEvent(e)
    ensures var r, picks := Run(cfg, NewReceiver(disk), t).0, Picks(cfg, {}, NewReceiver(disk), t);
            var r1 := Step(cfg, r, e, env).0;
            && (forall id :: id in r.tokens <==> id in picks && Usable(cfg, r.files, id))
            && (e.Arrive? && Opens(r, e.frame, r1) ==> RightHeader(cfg, r, e.frame, r1.cur.value.id))
            && r.saved <= r1.saved && (forall s | s in r1.saved[|r.saved|..] :: s.file.id in picks)
  {
    RunKeepsPicks(cfg, disk, {}, NewReceiver(disk), t);
    var r := Run(cfg, NewReceiver(disk), t).0;
    RunKeepsInvariant(cfg, disk, NewReceiver(disk), t);
    SavedIsPicked(cfg, Picks(cfg, {}, NewReceiver(disk), t), r, e, env);
  }

  lemma {:induction false} SavedIsPicked(cfg: Config, picks: set<string>, r: Recv, e: Event, env: Env)
    requires SessionOk(r) && HoldsPicks(cfg, picks, r) && ValidEvent(e)
    ensures var r1 := Step(cfg, r, e, env).0;
            && (e.Arrive? && Opens(r, e.frame, r1) ==> RightHeader(cfg, r, e.frame, r1.cur.value.id))
            && r.saved <= r1.saved && (forall s | s in r1.saved[|r.saved|..] :: s.file.id in picks)
  {
    match e
    case Arrive(f) =>
      FrameOpens(cfg, r, f, env);
      if r.cur.None? {
        OtherFrameSavesNone(cfg, r, f, env);
      } else {
        FileFrameKeepsTokens(cfg, r, f, env);
        assert InFlightOk(r, r.cur.value);
      }
    case _ =>
  }

  /** What the sender is told of a file that has ended: nothing if the connection is gone; success
      if and only if the file has its announced checksum and size and was written and closed;
      else the first of these that failed. */
  lemma {:induction false} EndOfFileIsReported(cfg: Config, r: Recv, data: bytes, env: Env)
    requires SessionOk(r) && r.cur.Some?
    ensures var (r1, outs) := HandleBoundary(cfg, r, data, env);
            var c, meta := r.cur.value, FindFile(r.files, r.cur.value.id).value;
            var error := if meta.sha256 != "" && cfg.sha(c.bytes) != meta.sha256 then Some("checksum mismatch")
                         else if c.broken || !env.flushOk || !env.closeOk then Some("failed to save file")
                         else if |c.bytes| != meta.size as int then Some("file size does not match declaration")
                         else None;
            && outs == (if r.linked then [Say(ToDoc(FileResponse(c.id, error == None, error)))] else [])
            && r1.saved == r.saved + (if error == None then [Saved(meta, c.path, c.bytes)] else [])
  {
    assert InFlightOk(r, r.cur.value);
    var r1 := FinishCurrent(cfg, r, env).0;
    assert AfterBoundary(cfg, r1, data, env).saved == r1.saved;
    assert r.saved + [] == r.saved;
  }
}
