/** The WebRTC receiver as an abstract state machine: what each incoming frame does to the
    handshake, to the file being received and to the disk. The class in Receiver.dfy, with
    its maps of writers, buffers, paths and hashers, is proved to refine this machine. */
module ReceiverModel {
  import opened Base
  import opened RtcProtocol
  import opened Framing

  datatype Phase = WaitNonce | WaitToken | WaitPin | WaitFileList | WaitFiles | ReceivingFiles | Done

  /** The file being received: `bytes` are the bytes accepted and hashed so far, `broken`
      says that a disk write failed (a buffered writer's error is sticky). */
  datatype InFlight = InFlight(id: string, path: Path, bytes: bytes, broken: bool)

  /** One call of the onFileReceived callback: a file that was finished successfully. */
  datatype Saved = Saved(file: FileDto, path: Path, bytes: bytes)

  /** What the handshake negotiated and counted so far. */
  datatype Handshake = Handshake(
    remoteNonce: bytes,
    localNonce: bytes,
    finalNonce: bytes,
    senderToken: string,
    pinAttempts: nat,
    providedPins: nat)

  const NO_HANDSHAKE := Handshake([], [], [], "", 0, 0)

  datatype Recv = Recv(
    phase: Phase,
    hs: Handshake,
    files: seq<FileDto>,
    tokens: map<string, string>,
    cur: Option<InFlight>,
    control: bytes,
    linked: bool,                // the peer connection is still set
    disk: map<Path, bytes>,      // without the partial file
    saved: seq<Saved>)

  /** Fixed parameters: the receiver's PIN, the JSON codec, the nonce encoding, the token
      and checksum functions, and whether a file name can be turned into a safe path. */
  datatype Config = Config(
    pin: string,
    codec: Codec,
    encodeNonce: bytes -> string,
    decodeNonce: string -> Option<bytes>,
    signToken: bytes -> string,
    sha: bytes -> string,
    safeName: FileDto -> bool)

  /** What the world decides while one message is handled: fresh randomness, the answers of
      the user callbacks, and which file system calls succeed. */
  datatype Env = Env(
    nonce: bytes,
    pinAnswer: string,
    selected: Option<seq<string>>,   // None when no selection callback is installed
    fileToken: nat -> string,
    dirOk: bool,
    createOk: bool,
    path: Path,                      // the name the allocator settles on
    writeOk: bool,
    spill: nat,                      // how many buffered bytes this write pushes to disk
    flushOk: bool,
    closeOk: bool)

  const NOT_DECLARED := "file size does not match declaration"
  const NOT_SAVED := "failed to save file"
  const BAD_CHECKSUM := "checksum mismatch"

  /** A frame the channel can deliver: handleDataMessage indexes the first byte of text. */
  predicate Deliverable(f: Frame) {
    f.text ==> |f.data| > 0
  }

  // ---------------------------------------------------------------- helpers

  /** The first file with this id, as rebuildFileIndex keeps it. */
  function FindFile(files: seq<FileDto>, id: string): (r: Option<FileDto>)
    ensures r.Some? ==> r.value.id == id
  {
    if files == [] then None
    else if files[0].id == id then Some(files[0])
    else FindFile(files[1..], id)
  }

  /** The token map prepareFilesForReceive builds: one fresh token per accepted id that names
      an offered file with a usable name; a repeated id keeps its last token. */
  function PrepareTokens(cfg: Config, files: seq<FileDto>, ids: seq<string>, gen: nat -> string): map<string, string> {
    if ids == [] then map[] else
    var n := |ids| - 1;
    var before := PrepareTokens(cfg, files, ids[..n], gen);
    var meta := FindFile(files, ids[n]);
    if meta.Some? && cfg.safeName(meta.value) then before[ids[n] := gen(n)] else before
  }

  /** A file gets a token exactly when it is accepted, offered and has a usable name, and
      every token was freshly generated for that id. */
  lemma {:induction false} PreparedExactly(cfg: Config, files: seq<FileDto>, ids: seq<string>, gen: nat -> string)
    ensures var t := PrepareTokens(cfg, files, ids, gen);
            && (forall id ::
                  id in t <==> id in ids && FindFile(files, id).Some? && cfg.safeName(FindFile(files, id).value))
            && (forall id | id in t :: exists i: nat {:trigger gen(i)} :: i < |ids| && ids[i] == id && t[id] == gen(i))
  {
    if ids == [] {
    } else {
      var n := |ids| - 1;
      PreparedExactly(cfg, files, ids[..n], gen);
      assert ids == ids[..n] + [ids[n]];
      var t, before := PrepareTokens(cfg, files, ids, gen), PrepareTokens(cfg, files, ids[..n], gen);
      forall id | id in t
        ensures exists i: nat {:trigger gen(i)} :: i < |ids| && ids[i] == id && t[id] == gen(i)
      {
        if id == ids[n] && FindFile(files, id).Some? && cfg.safeName(FindFile(files, id).value) {
          assert t[id] == gen(n);
        } else {
          var i: nat :| i < n && ids[..n][i] == id && before[id] == gen(i);
          assert ids[i] == id;
        }
      }
    }
  }

  function Dropped(r: Recv): Recv {
    r.(linked := false, phase := WaitFiles, cur := None)
  }

  function Terminated(r: Recv): Recv {
    r.(linked := false, phase := Done, cur := None)
  }

  /** A message leaves only while the peer connection is set. */
  function Sent(r: Recv, m: Out): seq<Out> {
    if r.linked then [m] else []
  }

  // ---------------------------------------------------------------- handshake

  function HandleNonce(cfg: Config, r: Recv, kind: Kind, env: Env): (Recv, seq<Out>) {
    if !kind.KNonce? then (r, []) else
    match cfg.decodeNonce(kind.nonce)
    case None => (r, Sent(r, Say(ToDoc(ErrorResponse("invalid nonce format")))))
    case Some(remote) =>
      var r1 := r.(hs := r.hs.(remoteNonce := remote, localNonce := env.nonce, finalNonce := remote + env.nonce));
      if r.linked then
        (r1.(phase := WaitToken), [Say(ToDoc(Nonce(cfg.encodeNonce(env.nonce))))])
      else (r1, [])
  }

  function HandleToken(cfg: Config, r: Recv, kind: Kind): (Recv, seq<Out>) {
    if !kind.KTokenRequest? then (r, []) else
    var token := cfg.signToken(r.hs.finalNonce);
    var r1 := r.(hs := r.hs.(senderToken := kind.token));
    if cfg.pin != "" then
      (r1.(phase := WaitPin), Sent(r, Say(ToDoc(TokenResponse("PIN_REQUIRED", token)))))
    else
      (r1.(phase := WaitFileList), Sent(r, Say(ToDoc(TokenResponse("OK", token)))))
  }

  function HandlePin(cfg: Config, r: Recv, kind: Kind): (Recv, seq<Out>) {
    if !kind.KPin? then (r, []) else
    if kind.pin == cfg.pin then
      (r.(phase := WaitFileList), Sent(r, Say(ToDoc(PinStatus("OK")))))
    else
      var r1 := r.(hs := r.hs.(pinAttempts := r.hs.pinAttempts + 1));
      if r1.hs.pinAttempts >= MAX_PIN_ATTEMPTS then
        (Terminated(r1), Sent(r, Say(ToDoc(PinStatus("TOO_MANY_ATTEMPTS")))))
      else
        (r1, Sent(r, Say(ToDoc(PinStatus("PIN_REQUIRED")))))
  }

  function Ids(files: seq<FileDto>): (s: seq<string>)
    ensures |s| == |files| && forall i | 0 <= i < |s| :: s[i] == files[i].id
  {
    seq(|files|, i requires 0 <= i < |files| => files[i].id)
  }

  /** The files of a list message; None when "files" is not an array. */
  function OfferedFiles(doc: Doc): Option<seq<FileDto>> {
    match doc.files
    case NoFiles => Some([])
    case FileArray(list) => Some(list)
    case TokenObject(_) => None
  }

  function HandleFileList(cfg: Config, r: Recv, kind: Kind, doc: Doc, env: Env): (Recv, seq<Out>) {
    if kind == KStatus("PIN_REQUIRED") then
      var r1 := r.(hs := r.hs.(providedPins := r.hs.providedPins + 1));
      if r.linked then (r1, [Say(ToDoc(Pin(env.pinAnswer)))]) else (Terminated(r1), [])
    else if kind == KStatus("TOO_MANY_ATTEMPTS") then (Terminated(r), [])
    else if !kind.KFileList? && kind != KStatus("OK") then (r, [])
    else match OfferedFiles(doc)
      case None => (r, [])
      case Some(files) =>
        if |files| > MAX_FILES_PER_SESSION then
          (r, Sent(r, SayChunked(ToDoc(FileListResponse("DECLINED", map[])))))
        else AnswerOffer(cfg, r, files, env)
  }

  /** Selecting files and answering with their tokens, or declining when none is selected. */
  function AnswerOffer(cfg: Config, r: Recv, files: seq<FileDto>, env: Env): (Recv, seq<Out>) {
    var r1 := r.(files := files);
    var accepted := if env.selected.Some? then env.selected.value else Ids(files);
    if !r.linked then (r1, [])
    else if accepted == [] then
      (r1, [SayChunked(ToDoc(FileListResponse("DECLINED", map[])))])
    else
      var tokens := PrepareTokens(cfg, files, accepted, env.fileToken);
      (r1.(tokens := r.tokens + tokens, phase := WaitFiles),
       [SayChunked(ToDoc(FileListResponse("OK", tokens)))])
  }

  // ---------------------------------------------------------------- files

  function StartReceiving(cfg: Config, r: Recv, id: string, token: string, env: Env): Recv {
    if id !in r.tokens || r.tokens[id] != token then Dropped(r) else
    match FindFile(r.files, id)
    case None => Dropped(r)
    case Some(meta) =>
      if !cfg.safeName(meta) || !env.dirOk || !env.createOk || env.path in r.disk then Dropped(r)
      else r.(phase := ReceivingFiles, cur := Some(InFlight(id, env.path, [], false)))
  }

  function CurrentId(r: Recv): string {
    if r.cur.Some? then r.cur.value.id else ""
  }

  function CurrentBytes(r: Recv): bytes {
    if r.cur.Some? then r.cur.value.bytes else []
  }

  function HandleBinary(r: Recv, data: bytes, env: Env): Recv {
    var meta := FindFile(r.files, CurrentId(r));
    if meta.None? || |data| > meta.value.size as int - |CurrentBytes(r)| then Dropped(r)
    else match r.cur
      case None => r
      case Some(c) =>
        if c.broken || !env.writeOk then r.(cur := Some(c.(broken := true)))
        else r.(cur := Some(c.(bytes := c.bytes + data)))
  }

  /** The verdict on the current file: None is success, otherwise the error that is sent.
      A later check overwrites the error of an earlier one. */
  function Verdict(cfg: Config, c: InFlight, meta: Option<FileDto>, env: Env): Option<string> {
    if meta.Some? && meta.value.sha256 != "" && cfg.sha(c.bytes) != meta.value.sha256 then Some(BAD_CHECKSUM)
    else if c.broken || !env.flushOk || !env.closeOk then Some(NOT_SAVED)
    else if meta.None? || |c.bytes| != meta.value.size as int then Some(NOT_DECLARED)
    else None
  }

  function FinishCurrent(cfg: Config, r: Recv, env: Env): (Recv, seq<Out>)
    requires r.cur.Some?
  {
    var c := r.cur.value;
    var meta := FindFile(r.files, c.id);
    var error := Verdict(cfg, c, meta, env);
    var r1 := r.(cur := None);
    (if error.None? then r1.(disk := r.disk[c.path := c.bytes], saved := r.saved + [Saved(meta.value, c.path, c.bytes)])
     else r1,
     Sent(r, Say(ToDoc(FileResponse(c.id, error.None?, error)))))
  }

  // ---------------------------------------------------------------- dispatch

  function HandleText(cfg: Config, r: Recv, data: bytes, env: Env): (Recv, seq<Out>)
    requires |data| > 0
  {
    var doc := cfg.codec.unmarshal(data);
    var kind := if doc.Some? then ParseRTCMessage(doc.value) else KNone;
    if kind.KNone? then
      if r.phase == WaitFiles && data[0] != 123 then (HandleBinary(r, data, env), []) else (r, [])
    else match r.phase
      case WaitNonce => HandleNonce(cfg, r, kind, env)
      case WaitToken => HandleToken(cfg, r, kind)
      case WaitPin => HandlePin(cfg, r, kind)
      case WaitFileList => HandleFileList(cfg, r, kind, doc.value, env)
      case WaitFiles =>
        if kind.KFileHeader? then (StartReceiving(cfg, r, kind.id, kind.token, env), []) else (r, [])
      case _ => (r, [])
  }

  /** What the text frame that ended a file starts: nothing more, or the next file. */
  function AfterBoundary(cfg: Config, r: Recv, data: bytes, env: Env): Recv {
    if data == ZERO then r.(phase := Done, linked := false)
    else
      var doc := cfg.codec.unmarshal(data);
      if doc.None? || StrOf(doc.value.id) == "" then Terminated(r)
      else StartReceiving(cfg, r, StrOf(doc.value.id), StrOf(doc.value.token), env)
  }

  /** A text frame that arrives while a file is being received ends that file. */
  function HandleBoundary(cfg: Config, r: Recv, data: bytes, env: Env): (Recv, seq<Out>)
    requires r.cur.Some?
  {
    var (r1, outs) := FinishCurrent(cfg, r, env);
    (AfterBoundary(cfg, r1, data, env), outs)
  }

  function RecvFrame(cfg: Config, r: Recv, f: Frame, env: Env): (Recv, seq<Out>)
    requires Deliverable(f)
  {
    if r.phase == ReceivingFiles && r.cur.Some? then
      if f.text then HandleBoundary(cfg, r, f.data, env) else (HandleBinary(r, f.data, env), [])
    else
      var (control, message) := Reassemble(r.control, f);
      var r1 := r.(control := control);
      if message.Some? then HandleText(cfg, r1, message.value, env) else (r1, [])
  }

  // ------------------------------------------------- invariants of every run

  datatype Event =
    | Arrive(frame: Frame)
    | PeerClosed
    | Close
    | NewOffer

  ghost predicate ValidEvent(e: Event) {
    e.Arrive? ==> Deliverable(e.frame)
  }

  /** AcceptOffer's reset, taken only when no session is in progress. */
  function NewSession(r: Recv): Recv {
    if r.linked && r.phase != Done then r else
    Recv(WaitNonce, NO_HANDSHAKE, [], map[], None, [], true, r.disk, r.saved)
  }

  function Step(cfg: Config, r: Recv, e: Event, env: Env): (Recv, seq<Out>)
    requires ValidEvent(e)
  {
    match e
    case Arrive(f) => RecvFrame(cfg, r, f, env)
    case PeerClosed => (if r.linked then Terminated(r) else r, [])
    case Close => (Terminated(r), [])
    case NewOffer => (NewSession(r), [])
  }

  ghost predicate GoodSaved(cfg: Config, s: Saved) {
    |s.bytes| == s.file.size as int && (s.file.sha256 != "" ==> cfg.sha(s.bytes) == s.file.sha256)
  }

  function SavedDisk(disk: map<Path, bytes>, saved: seq<Saved>): map<Path, bytes> {
    if saved == [] then disk
    else SavedDisk(disk, saved[..|saved| - 1])[saved[|saved| - 1].path := saved[|saved| - 1].bytes]
  }

  /** The disk holds what it held before plus exactly the files finished successfully, each
      at a fresh path, at its declared length and with its announced checksum. */
  ghost predicate DiskOk(cfg: Config, before: map<Path, bytes>, disk: map<Path, bytes>, saved: seq<Saved>) {
    && disk == SavedDisk(before, saved)
    && (forall s | s in saved :: GoodSaved(cfg, s) && s.path !in before)
    && (forall i, j | 0 <= i < j < |saved| :: saved[i].path != saved[j].path)
  }

  ghost predicate InFlightOk(r: Recv, c: InFlight) {
    && c.id != "" && c.id in r.tokens && c.path !in r.disk
    && FindFile(r.files, c.id).Some?
    && (c.bytes == [] || |c.bytes| <= FindFile(r.files, c.id).value.size as int)
  }

  predicate Handshaking(p: Phase) {
    p == WaitNonce || p == WaitToken || p == WaitPin || p == WaitFileList
  }

  ghost predicate SessionOk(r: Recv) {
    && (r.phase == ReceivingFiles <==> r.cur.Some?)
    && |r.control| <= MAX_CONTROL_BYTES
    && (forall id | id in r.tokens :: FindFile(r.files, id).Some?)
    && (Handshaking(r.phase) ==> r.tokens == map[])
    && (r.cur.Some? ==> InFlightOk(r, r.cur.value))
  }

  /** What holds between any two messages, however malformed the traffic. `before` is the
      disk when the receiver was created. */
  ghost predicate Invariant(cfg: Config, before: map<Path, bytes>, r: Recv) {
    SessionOk(r) && DiskOk(cfg, before, r.disk, r.saved)
  }

  lemma {:induction false} SavedDiskKeys(disk: map<Path, bytes>, saved: seq<Saved>)
    ensures SavedDisk(disk, saved).Keys == disk.Keys + (set s | s in saved :: s.path)
    ensures forall p | p in disk && (forall s | s in saved :: s.path != p) :: SavedDisk(disk, saved)[p] == disk[p]
  {
    if saved == [] {
    } else {
      var n := |saved| - 1;
      SavedDiskKeys(disk, saved[..n]);
      assert saved == saved[..n] + [saved[n]];
    }
  }

  lemma {:induction false} SavedDiskHolds(disk: map<Path, bytes>, saved: seq<Saved>, k: nat)
    requires k < |saved| && forall i, j | 0 <= i < j < |saved| :: saved[i].path != saved[j].path
    ensures saved[k].path in SavedDisk(disk, saved) && SavedDisk(disk, saved)[saved[k].path] == saved[k].bytes
  {
    var n := |saved| - 1;
    if k < n {
      SavedDiskHolds(disk, saved[..n], k);
    }
  }

  lemma SavedDiskSnoc(disk: map<Path, bytes>, saved: seq<Saved>, s: Saved)
    ensures SavedDisk(disk, saved + [s]) == SavedDisk(disk, saved)[s.path := s.bytes]
  {
    assert (saved + [s])[..|saved|] == saved;
  }

  lemma FreshPathsSnoc(saved: seq<Saved>, s: Saved)
    requires forall i, j | 0 <= i < j < |saved| :: saved[i].path != saved[j].path
    requires forall x | x in saved :: x.path != s.path
    ensures forall i, j | 0 <= i < j < |saved + [s]| :: (saved + [s])[i].path != (saved + [s])[j].path
  {
    var all := saved + [s];
    forall i, j | 0 <= i < j < |all| ensures all[i].path != all[j].path {
      assert all[i] == saved[i] && saved[i] in saved;
    }
  }

  lemma SaveKeepsDiskOk(cfg: Config, before: map<Path, bytes>, disk: map<Path, bytes>, saved: seq<Saved>, s: Saved)
    requires DiskOk(cfg, before, disk, saved) && GoodSaved(cfg, s) && s.path !in disk
    ensures DiskOk(cfg, before, disk[s.path := s.bytes], saved + [s])
  {
    SavedDiskKeys(before, saved);
    SavedDiskSnoc(before, saved, s);
    FreshPathsSnoc(saved, s);
  }

  lemma FinishKeepsInvariant(cfg: Config, before: map<Path, bytes>, r: Recv, env: Env)
    requires Invariant(cfg, before, r) && r.cur.Some?
    ensures var r1 := FinishCurrent(cfg, r, env).0;
            && DiskOk(cfg, before, r1.disk, r1.saved)
            && r1 == r.(cur := None, disk := r1.disk, saved := r1.saved)
  {
    var c := r.cur.value;
    var meta := FindFile(r.files, c.id);
    if Verdict(cfg, c, meta, env).None? {
      SaveKeepsDiskOk(cfg, before, r.disk, r.saved, Saved(meta.value, c.path, c.bytes));
    }
  }

  lemma StartKeepsSession(cfg: Config, r: Recv, id: string, token: string, env: Env)
    requires r.cur.None? && id != "" && |r.control| <= MAX_CONTROL_BYTES
    requires forall id | id in r.tokens :: FindFile(r.files, id).Some?
    ensures var r1 := StartReceiving(cfg, r, id, token, env);
            SessionOk(r1) && r1.disk == r.disk && r1.saved == r.saved
  {}

  lemma BoundaryKeepsInvariant(cfg: Config, before: map<Path, bytes>, r: Recv, data: bytes, env: Env)
    requires Invariant(cfg, before, r) && r.cur.Some?
    ensures Invariant(cfg, before, HandleBoundary(cfg, r, data, env).0)
  {
    FinishKeepsInvariant(cfg, before, r, env);
    if data != ZERO {
      var r1 := FinishCurrent(cfg, r, env).0;
      var doc := cfg.codec.unmarshal(data);
      if doc.Some? && StrOf(doc.value.id) != "" {
        StartKeepsSession(cfg, r1, StrOf(doc.value.id), StrOf(doc.value.token), env);
      }
    }
  }

  lemma FileListKeepsSession(cfg: Config, r: Recv, kind: Kind, doc: Doc, env: Env)
    requires SessionOk(r) && r.phase == WaitFileList
    ensures var r1 := HandleFileList(cfg, r, kind, doc, env).0;
            SessionOk(r1) && r1.disk == r.disk && r1.saved == r.saved
  {
    var files := OfferedFiles(doc);
    if files.Some? {
      PreparedExactly(cfg, files.value,
                      if env.selected.Some? then env.selected.value else Ids(files.value), env.fileToken);
    }
  }

  lemma HandshakeKeepsSession(cfg: Config, r: Recv, kind: Kind, env: Env)
    requires SessionOk(r)
    ensures r.phase == WaitNonce ==> var r1 := HandleNonce(cfg, r, kind, env).0;
            SessionOk(r1) && r1.disk == r.disk && r1.saved == r.saved
    ensures r.phase == WaitToken ==> var r1 := HandleToken(cfg, r, kind).0;
            SessionOk(r1) && r1.disk == r.disk && r1.saved == r.saved
    ensures r.phase == WaitPin ==> var r1 := HandlePin(cfg, r, kind).0;
            SessionOk(r1) && r1.disk == r.disk && r1.saved == r.saved
  {}

  lemma TextKeepsSession(cfg: Config, r: Recv, data: bytes, env: Env)
    requires SessionOk(r) && |data| > 0
    ensures var r1 := HandleText(cfg, r, data, env).0;
            SessionOk(r1) && r1.disk == r.disk && r1.saved == r.saved
  {
    var doc := cfg.codec.unmarshal(data);
    var kind := if doc.Some? then ParseRTCMessage(doc.value) else KNone;
    if !kind.KNone? {
      HandshakeKeepsSession(cfg, r, kind, env);
      if r.phase == WaitFileList {
        FileListKeepsSession(cfg, r, kind, doc.value, env);
      } else if r.phase == WaitFiles && kind.KFileHeader? {
        StartKeepsSession(cfg, r, kind.id, kind.token, env);
      }
    }
  }

  lemma FrameKeepsInvariant(cfg: Config, before: map<Path, bytes>, r: Recv, f: Frame, env: Env)
    requires Invariant(cfg, before, r) && Deliverable(f)
    ensures Invariant(cfg, before, RecvFrame(cfg, r, f, env).0)
  {
    if r.cur.Some? {
      if f.text {
        BoundaryKeepsInvariant(cfg, before, r, f.data, env);
      }
    } else {
      var (control, message) := Reassemble(r.control, f);
      if message.Some? {
        TextKeepsSession(cfg, r.(control := control), message.value, env);
      }
    }
  }

  /** Every event of every run keeps the invariant, whatever arrives and whatever the world does. */
  lemma StepKeepsInvariant(cfg: Config, before: map<Path, bytes>, r: Recv, e: Event, env: Env)
    requires Invariant(cfg, before, r) && ValidEvent(e)
    ensures Invariant(cfg, before, Step(cfg, r, e, env).0)
  {
    if e.Arrive? {
      FrameKeepsInvariant(cfg, before, r, e.frame, env);
    }
  }
}
