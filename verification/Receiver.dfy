/** RTCReceiver with the fields the program keeps: maps of open writers, write buffers,
    paths and hashers, a byte counter and a control buffer. `Valid` is what holds between
    two messages; every method is proved against the machine in ReceiverModel. */
module Receiver {
  import opened Base
  import opened RtcProtocol
  import opened Framing
  import opened ReceiverModel

  /** A buffered writer: bytes not yet on disk, and its sticky error. */
  datatype Buffer = Buffer(pending: bytes, failed: bool)

  /** The index of a file list by id; the first of several files with one id wins. */
  function IndexOf(files: seq<FileDto>): map<string, FileDto> {
    if files == [] then map[] else IndexOf(files[1..])[files[0].id := files[0]]
  }

  lemma {:induction false} IndexFinds(files: seq<FileDto>, id: string)
    ensures FindFile(files, id) == if id in IndexOf(files) then Some(IndexOf(files)[id]) else None
  {
    if files == [] {
    } else {
      IndexFinds(files[1..], id);
    }
  }

  lemma {:induction false} IndexSnoc(files: seq<FileDto>, f: FileDto)
    ensures IndexOf(files + [f]) == if f.id in IndexOf(files) then IndexOf(files) else IndexOf(files)[f.id := f]
  {
    if files == [] {
      assert files + [f] == [f];
      assert [f][1..] == [];
    } else {
      IndexSnoc(files[1..], f);
      assert (files + [f])[1..] == files[1..] + [f];
      assert (files + [f])[0] == files[0];
    }
  }

  /** The files on offer: the sender's list, its index by id and the tokens handed out. */
  datatype Offer = Offer(files: seq<FileDto>, byID: map<string, FileDto>, tokens: map<string, string>)

  /** The file writers: what is open, under which id, and how many bytes it got. */
  datatype Writers = Writers(
    currentFileID: string,
    files: map<string, Path>,
    buffers: map<string, Buffer>,
    paths: map<string, Path>,
    hashers: map<string, bytes>,
    currentBytes: int64,
    transferActive: bool)

  const NO_OFFER := Offer([], map[], map[])
  const NOTHING_OPEN := Writers("", map[], map[], map[], map[], 0, false)

  /** The writer, buffer and path maps hold exactly the current file, and transfer activity is
      reported; the byte counter and the hasher agree with the accepted bytes, which stay
      within the declared size. */
  ghost predicate Tracks(w: Writers, c: InFlight, byID: map<string, FileDto>) {
    && w.currentFileID == c.id && c.id != "" && w.transferActive
    && w.files == map[c.id := c.path] && w.paths == map[c.id := c.path]
    && c.id in w.buffers && w.buffers == map[c.id := w.buffers[c.id]] && w.buffers[c.id].failed == c.broken
    && c.id in byID && w.hashers == (if byID[c.id].sha256 != "" then map[c.id := c.bytes] else map[])
    && w.currentBytes as int == |c.bytes| && (w.currentBytes == 0 || w.currentBytes <= byID[c.id].size)
  }

  /** `disk` is `base` plus the partial file, whose bytes are on disk or still buffered. */
  ghost predicate Stores(disk: map<Path, bytes>, base: map<Path, bytes>, c: InFlight, buffers: map<string, Buffer>) {
    && c.path !in base && c.path in disk && disk == base[c.path := disk[c.path]]
    && (c.id in buffers && !c.broken ==> disk[c.path] + buffers[c.id].pending == c.bytes)
  }

  class RTCReceiver {
    const cfg: Config
    var state: Phase
    var handshake: Handshake     // nonces, sender token and PIN counters
    var offer: Offer
    var open: Writers
    var controlBuffer: bytes
    var peer: bool               // whether the peer connection is set
    var disk: map<Path, bytes>
    var received: seq<Saved>     // calls of onFileReceived
    var outbox: seq<Out>         // messages handed to the data channel
    ghost var cur: Option<InFlight>
    ghost var base: map<Path, bytes>

    ghost predicate Consistent()
      reads this
    {
      && offer.byID == IndexOf(offer.files)
      && |controlBuffer| <= MAX_CONTROL_BYTES
      && (match cur
          case None => open == NOTHING_OPEN && disk == base
          case Some(c) => Tracks(open, c, offer.byID) && Stores(disk, base, c, open.buffers))
    }

    ghost predicate Valid()
      reads this
    {
      Consistent() && (state == ReceivingFiles <==> cur.Some?)
    }

    ghost function Abs(): Recv
      reads this
    {
      Recv(state, handshake, offer.files, offer.tokens, cur, controlBuffer, peer, base, received)
    }

    constructor (cfg: Config, disk: map<Path, bytes>)
      ensures Valid() && this.cfg == cfg && outbox == []
      ensures Abs() == Recv(WaitNonce, NO_HANDSHAKE, [], map[], None, [], false, disk, [])
    {
      this.cfg := cfg;
      state, handshake, offer, open, peer := WaitNonce, NO_HANDSHAKE, NO_OFFER, NOTHING_OPEN, false;
      controlBuffer, received, outbox, cur := [], [], [], None;
      this.disk, base := disk, disk;
    }

    method Send(m: Out) returns (ok: bool)
      modifies this`outbox
      ensures ok == peer
      ensures outbox == old(outbox) + if peer then [m] else []
    {
      ok := peer;
      if peer {
        outbox := outbox + [m];
      }
    }

    /** Removes every listed path. */
    method RemoveFiles(paths: map<string, Path>)
      modifies this`disk
      ensures disk == old(disk) - paths.Values
    {
      var left := paths.Keys;
      while left != {}
        invariant left <= paths.Keys
        invariant disk == old(disk) - (set id | id in paths.Keys - left :: paths[id])
        decreases left
      {
        var id :| id in left;
        disk := disk - {paths[id]};
        left := left - {id};
      }
      assert paths.Values == set id | id in paths.Keys :: paths[id];
    }

    /** cleanupPartialFilesLocked: close every writer, remove every partial file. */
    method CleanupPartialFiles()
      requires Consistent()
      modifies this`open, this`disk, this`cur
      ensures Consistent() && cur == None
    {
      assert open.paths.Values == if cur.Some? then {cur.value.path} else {} by {
        if cur.Some? {
          assert open.paths[cur.value.id] == cur.value.path;
        }
      }
      RemoveFiles(open.paths);
      open, cur := NOTHING_OPEN, None;
    }

    method Terminate()
      requires Consistent()
      modifies this`open, this`disk, this`cur, this`state, this`peer
      ensures Valid() && Abs() == Terminated(old(Abs()))
    {
      CleanupPartialFiles();
      state := Done;
      peer := false;
    }

    /** handlePeerClosed for the connection this receiver holds. */
    method HandlePeerClosed()
      requires Valid()
      modifies this
      ensures Valid() && outbox == old(outbox)
      ensures Abs() == old(if peer then Terminated(Abs()) else Abs())
    {
      if peer {
        Terminate();
      }
    }

    method Close()
      requires Valid()
      modifies this
      ensures Valid() && outbox == old(outbox)
      ensures Abs() == Terminated(old(Abs()))
    {
      Terminate();
    }

    /** The part of AcceptOffer that claims the receiver for a new session. */
    method AcceptOffer() returns (busy: bool)
      requires Valid()
      modifies this
      ensures Valid() && outbox == old(outbox)
      ensures busy == old(peer && state != Done)
      ensures Abs() == NewSession(old(Abs()))
    {
      busy := peer && state != Done;
      if busy {
        return;
      }
      CleanupPartialFiles();
      offer, handshake, controlBuffer := NO_OFFER, NO_HANDSHAKE, [];
      state := WaitNonce;
      peer := true;
    }

    /** rebuildFileIndex: the first of several files with one id wins. */
    static method RebuildFileIndex(files: seq<FileDto>) returns (byID: map<string, FileDto>)
      ensures byID == IndexOf(files)
    {
      byID := map[];
      for i := 0 to |files|
        invariant byID == IndexOf(files[..i])
      {
        IndexSnoc(files[..i], files[i]);
        assert files[..i + 1] == files[..i] + [files[i]];
        if files[i].id !in byID {
          byID := byID[files[i].id := files[i]];
        }
      }
      assert files[..|files|] == files;
    }

    method PrepareFilesForReceive(acceptedIDs: seq<string>, env: Env) returns (tokens: map<string, string>)
      requires offer.byID == IndexOf(offer.files)
      modifies this`offer
      ensures tokens == PrepareTokens(cfg, offer.files, acceptedIDs, env.fileToken)
      ensures offer == old(offer).(tokens := old(offer.tokens) + tokens)
    {
      tokens := map[];
      for i := 0 to |acceptedIDs|
        invariant tokens == PrepareTokens(cfg, offer.files, acceptedIDs[..i], env.fileToken)
        invariant offer == old(offer).(tokens := old(offer.tokens) + tokens)
      {
        var id := acceptedIDs[i];
        PrepareTokensSnoc(cfg, offer.files, acceptedIDs, env.fileToken, i);
        IndexFinds(offer.files, id);
        if id in offer.byID && cfg.safeName(offer.byID[id]) {
          var token := env.fileToken(i);
          tokens := tokens[id := token];
          offer := offer.(tokens := offer.tokens[id := token]);
        }
      }
      assert acceptedIDs[..|acceptedIDs|] == acceptedIDs;
    }

    // -------------------------------------------------------------- handshake

    method HandleNonce(kind: Kind, env: Env)
      requires Valid() && state == WaitNonce
      modifies this`handshake, this`state, this`outbox
      ensures Valid()
      ensures var (r, outs) := ReceiverModel.HandleNonce(cfg, old(Abs()), kind, env);
              Abs() == r && outbox == old(outbox) + outs
    {
      if !kind.KNonce? {
        return;
      }
      var remote := cfg.decodeNonce(kind.nonce);
      if remote.None? {
        var _ := Send(Say(ToDoc(ErrorResponse("invalid nonce format"))));
        return;
      }
      handshake := handshake.(remoteNonce := remote.value, localNonce := env.nonce);
      handshake := handshake.(finalNonce := handshake.remoteNonce + handshake.localNonce);
      var ok := Send(Say(ToDoc(Nonce(cfg.encodeNonce(handshake.localNonce)))));
      if ok {
        state := WaitToken;
      }
    }

    method HandleToken(kind: Kind)
      requires Valid() && state == WaitToken
      modifies this`handshake, this`state, this`outbox
      ensures Valid()
      ensures var (r, outs) := ReceiverModel.HandleToken(cfg, old(Abs()), kind);
              Abs() == r && outbox == old(outbox) + outs
    {
      if !kind.KTokenRequest? {
        return;
      }
      handshake := handshake.(senderToken := kind.token);
      var token := cfg.signToken(handshake.finalNonce);
      var status := if cfg.pin != "" then "PIN_REQUIRED" else "OK";
      var _ := Send(Say(ToDoc(TokenResponse(status, token))));
      state := if cfg.pin != "" then WaitPin else WaitFileList;
    }

    method HandlePin(kind: Kind)
      requires Valid() && state == WaitPin
      modifies this
      ensures Valid()
      ensures var (r, outs) := ReceiverModel.HandlePin(cfg, old(Abs()), kind);
              Abs() == r && outbox == old(outbox) + outs
    {
      if !kind.KPin? {
        return;
      }
      if kind.pin == cfg.pin {
        var _ := Send(Say(ToDoc(PinStatus("OK"))));
        state := WaitFileList;
        return;
      }
      handshake := handshake.(pinAttempts := handshake.pinAttempts + 1);
      if handshake.pinAttempts >= MAX_PIN_ATTEMPTS {
        var _ := Send(Say(ToDoc(PinStatus("TOO_MANY_ATTEMPTS"))));
        Terminate();
        return;
      }
      var _ := Send(Say(ToDoc(PinStatus("PIN_REQUIRED"))));
    }

    method HandleSenderPin(env: Env)
      requires Valid() && state == WaitFileList
      modifies this
      ensures Valid()
      ensures var (r, outs) := ReceiverModel.HandleFileList(cfg, old(Abs()), KStatus("PIN_REQUIRED"), EMPTY_DOC, env);
              Abs() == r && outbox == old(outbox) + outs
    {
      handshake := handshake.(providedPins := handshake.providedPins + 1);
      var ok := Send(Say(ToDoc(Pin(env.pinAnswer))));
      if !ok {
        Terminate();
      }
    }

    method HandleFileList(kind: Kind, doc: Doc, env: Env)
      requires Valid() && state == WaitFileList
      modifies this
      ensures Valid()
      ensures var (r, outs) := ReceiverModel.HandleFileList(cfg, old(Abs()), kind, doc, env);
              Abs() == r && outbox == old(outbox) + outs
    {
      if kind == KStatus("PIN_REQUIRED") {
        HandleSenderPin(env);
        return;
      }
      if kind == KStatus("TOO_MANY_ATTEMPTS") {
        Terminate();
        return;
      }
      if (!kind.KFileList? && kind != KStatus("OK")) || doc.files.TokenObject? {
        return;
      }
      var offered := if doc.files.FileArray? then doc.files.list else [];
      if |offered| > MAX_FILES_PER_SESSION {
        var _ := Send(SayChunked(ToDoc(FileListResponse("DECLINED", map[]))));
        return;
      }
      HandleOffer(offered, env);
    }

    method HandleOffer(offered: seq<FileDto>, env: Env)
      requires Valid() && state == WaitFileList
      modifies this`offer, this`state, this`outbox
      ensures Valid()
      ensures var (r, outs) := AnswerOffer(cfg, old(Abs()), offered, env);
              Abs() == r && outbox == old(outbox) + outs
    {
      var byID := RebuildFileIndex(offered);
      offer := offer.(files := offered, byID := byID);
      var acceptedIDs := if env.selected.Some? then env.selected.value else Ids(offered);
      if !peer {
        return;
      }
      if acceptedIDs == [] {
        var _ := Send(SayChunked(ToDoc(FileListResponse("DECLINED", map[]))));
        return;
      }
      var tokens := PrepareFilesForReceive(acceptedIDs, env);
      var _ := Send(SayChunked(ToDoc(FileListResponse("OK", tokens))));
      state := WaitFiles;
    }

    // ------------------------------------------------------------------ files

    method RejectFileTransfer()
      requires Consistent() && cur == None
      modifies this`state, this`peer, this`open
      ensures Valid() && Abs() == Dropped(old(Abs()))
    {
      peer := false;
      open := open.(currentFileID := "");
      state := WaitFiles;
    }

    method StartReceivingFile(id: string, token: string, env: Env)
      requires Consistent() && cur == None && id != ""
      modifies this`open, this`disk, this`cur, this`state, this`peer
      ensures Valid() && Abs() == StartReceiving(cfg, old(Abs()), id, token, env)
    {
      IndexFinds(offer.files, id);
      if id !in offer.tokens || offer.tokens[id] != token || id !in offer.byID {
        RejectFileTransfer();
        return;
      }
      var meta := offer.byID[id];
      if !cfg.safeName(meta) || !env.dirOk || !env.createOk || env.path in disk {
        RejectFileTransfer();
        return;
      }
      OpenFile(id, env.path);
    }

    /** Creates the destination and records it in every map. */
    method OpenFile(id: string, path: Path)
      requires Consistent() && cur == None && id != "" && id in offer.byID && path !in disk
      modifies this`open, this`disk, this`cur, this`state
      ensures Valid() && Abs() == old(Abs()).(phase := ReceivingFiles, cur := Some(InFlight(id, path, [], false)))
    {
      disk := disk[path := []];
      open := open.(files := open.files[id := path], buffers := open.buffers[id := Buffer([], false)],
                    paths := open.paths[id := path]);
      if offer.byID[id].sha256 != "" {
        open := open.(hashers := open.hashers[id := []]);
      }
      open := open.(transferActive := true, currentFileID := id, currentBytes := 0);
      state := ReceivingFiles;
      cur := Some(InFlight(id, path, [], false));
    }

    /** The buffered write: some prefix of what is pending reaches the disk at once. */
    method Write(id: string, data: bytes, env: Env) returns (ok: bool)
      requires id in open.buffers && id in open.files && open.files[id] in disk
      modifies this`open, this`disk
      ensures ok == (env.writeOk && !old(open.buffers[id].failed))
      ensures id in open.buffers && open.buffers[id].failed == !ok
      ensures open == old(open).(buffers := old(open.buffers)[id := open.buffers[id]])
      ensures open.files[id] in disk && disk == old(disk)[open.files[id] := disk[open.files[id]]]
      ensures ok ==> disk[open.files[id]] + open.buffers[id].pending
                     == old(disk[open.files[id]] + open.buffers[id].pending) + data
    {
      var b := open.buffers[id];
      ok := env.writeOk && !b.failed;
      if !ok {
        open := open.(buffers := open.buffers[id := b.(failed := true)]);
        return;
      }
      var all := b.pending + data;
      var k := Min(env.spill, |all|);
      var path := open.files[id];
      assert disk[path] + all == (disk[path] + all[..k]) + all[k..];
      disk := disk[path := disk[path] + all[..k]];
      open := open.(buffers := open.buffers[id := Buffer(all[k..], false)]);
    }

    method CleanupCurrentFile()
      requires Consistent()
      modifies this`open, this`disk, this`cur
      ensures Consistent() && cur == None
    {
      var id := open.currentFileID;
      if id in open.paths {
        disk := disk - {open.paths[id]};
      }
      open := Writers("", open.files - {id}, open.buffers - {id}, open.paths - {id}, open.hashers - {id}, 0, false);
      cur := None;
    }

    /** The size check is done in 64-bit arithmetic; it cannot overflow. */
    method HandleBinaryData(data: bytes, env: Env)
      requires Valid() && (state == ReceivingFiles || state == WaitFiles)
      modifies this`open, this`disk, this`cur, this`state, this`peer
      ensures Valid() && Abs() == HandleBinary(old(Abs()), data, env)
    {
      var id := open.currentFileID;
      IndexFinds(offer.files, id);
      if id !in offer.byID || |data| > (offer.byID[id].size - open.currentBytes) as int {
        CleanupCurrentFile();
        RejectFileTransfer();
        return;
      }
      if id !in open.buffers {
        return;
      }
      AppendData(data, env);
    }

    /** Buffers data that fits, and counts and hashes what was accepted. */
    method AppendData(data: bytes, env: Env)
      requires Valid() && cur.Some?
      requires |data| <= offer.byID[cur.value.id].size as int - |cur.value.bytes|
      modifies this`open, this`disk, this`cur
      ensures Valid()
      ensures cur == Some(var c := old(cur.value);
                          if c.broken || !env.writeOk then c.(broken := true) else c.(bytes := c.bytes + data))
    {
      var id := open.currentFileID;
      var ok := Write(id, data, env);
      if !ok {
        cur := Some(cur.value.(broken := true));
        return;
      }
      open := open.(currentBytes := open.currentBytes + |data| as int64);
      if id in open.hashers {
        open := open.(hashers := open.hashers[id := open.hashers[id] + data]);
      }
      cur := Some(cur.value.(bytes := cur.value.bytes + data));
    }

    /** Flushes and closes the current file and checks its size and checksum. */
    method CloseCurrent(env: Env) returns (success: bool, errorMsg: Option<string>)
      requires Valid() && state == ReceivingFiles
      modifies this`open, this`disk
      ensures errorMsg == Verdict(cfg, cur.value, FindFile(offer.files, cur.value.id), env) && success == errorMsg.None?
      ensures open == old(open).(files := map[], buffers := map[], hashers := map[])
      ensures cur.value.path in disk && disk == base[cur.value.path := disk[cur.value.path]]
      ensures success ==> disk[cur.value.path] == cur.value.bytes
    {
      var id := open.currentFileID;
      IndexFinds(offer.files, id);
      var meta := offer.byID[id];
      success := open.currentBytes == meta.size;
      errorMsg := if success then None else Some(NOT_DECLARED);
      var path := open.files[id];
      if open.buffers[id].failed || !env.flushOk {
        success, errorMsg := false, Some(NOT_SAVED);
      } else {
        disk := disk[path := disk[path] + open.buffers[id].pending];
      }
      if !env.closeOk {
        success, errorMsg := false, Some(NOT_SAVED);
      }
      if id in open.hashers && meta.sha256 != "" && cfg.sha(open.hashers[id]) != meta.sha256 {
        success, errorMsg := false, Some(BAD_CHECKSUM);
      }
      open := open.(files := open.files - {id}, buffers := open.buffers - {id}, hashers := open.hashers - {id});
    }

    /** Keeps a good file and reports it to the callback; removes a bad one. */
    method Settle(success: bool, meta: FileDto, path: Path)
      requires path in disk && path !in base && disk == base[path := disk[path]]
      modifies this`disk, this`base, this`received
      ensures disk == base == if success then old(base)[path := old(disk[path])] else old(base)
      ensures received == old(received) + if success then [Saved(meta, path, old(disk[path]))] else []
    {
      if !success {
        disk := disk - {path};
      } else {
        received := received + [Saved(meta, path, disk[path])];
        base := disk;
      }
    }

    /** Everything finishCurrentFile does before it answers. */
    method EndCurrent(env: Env) returns (errorMsg: Option<string>)
      requires Valid() && state == ReceivingFiles
      modifies this`open, this`disk, this`cur, this`base, this`received
      ensures Consistent() && cur == None
      ensures var c, meta := old(cur.value), FindFile(offer.files, old(cur.value.id));
              && errorMsg == Verdict(cfg, c, meta, env)
              && base == (if errorMsg.None? then old(base)[c.path := c.bytes] else old(base))
              && received == old(received) + if errorMsg.None? then [Saved(meta.value, c.path, c.bytes)] else []
    {
      var id, path := open.currentFileID, open.paths[open.currentFileID];
      var meta := offer.byID[id];
      IndexFinds(offer.files, id);
      var success: bool;
      success, errorMsg := CloseCurrent(env);
      Settle(success, meta, path);
      Forget(id);
      cur := None;
    }

    method FinishCurrentFile(env: Env)
      requires Valid() && state == ReceivingFiles
      modifies this`open, this`disk, this`cur, this`base, this`received, this`outbox
      ensures Consistent() && cur == None
      ensures var (r, outs) := FinishCurrent(cfg, old(Abs()), env);
              Abs() == r && outbox == old(outbox) + outs
    {
      var id := open.currentFileID;
      var errorMsg := EndCurrent(env);
      var _ := Send(Say(ToDoc(FileResponse(id, errorMsg.None?, errorMsg))));
    }

    /** The last bookkeeping of finishCurrentFile. */
    method Forget(id: string)
      requires open.files == map[] && open.buffers == map[] && open.hashers == map[] && open.paths.Keys == {id}
      modifies this`open
      ensures open == NOTHING_OPEN
    {
      open := open.(paths := open.paths - {id}, transferActive := false, currentFileID := "", currentBytes := 0);
    }

    // --------------------------------------------------------------- dispatch

    method HandleParsed(data: bytes, env: Env)
      requires Valid() && state != ReceivingFiles && |data| > 0
      modifies this
      ensures Valid()
      ensures var (r, outs) := HandleText(cfg, old(Abs()), data, env);
              Abs() == r && outbox == old(outbox) + outs
    {
      var doc := cfg.codec.unmarshal(data);
      var kind := if doc.Some? then ParseRTCMessage(doc.value) else KNone;
      if kind.KNone? {
        if state == WaitFiles && data[0] != 123 {
          HandleBinaryData(data, env);
        }
        return;
      }
      match state
      case WaitNonce => HandleNonce(kind, env);
      case WaitToken => HandleToken(kind);
      case WaitPin => HandlePin(kind);
      case WaitFileList => HandleFileList(kind, doc.value, env);
      case WaitFiles =>
        if kind.KFileHeader? {
          StartReceivingFile(kind.id, kind.token, env);
        }
      case _ =>
    }

    method HandleFileBoundary(data: bytes, env: Env)
      requires Valid() && state == ReceivingFiles
      modifies this
      ensures Valid()
      ensures var (r, outs) := HandleBoundary(cfg, old(Abs()), data, env);
              Abs() == r && outbox == old(outbox) + outs
    {
      FinishCurrentFile(env);
      StartNext(data, env);
    }

    /** The rest of a boundary frame: the end of the transfer, or the next file's header. */
    method StartNext(data: bytes, env: Env)
      requires Consistent() && cur == None
      modifies this`open, this`disk, this`cur, this`state, this`peer
      ensures Valid() && Abs() == AfterBoundary(cfg, old(Abs()), data, env)
    {
      if data == ZERO {
        state := Done;
        peer := false;
        return;
      }
      var doc := cfg.codec.unmarshal(data);
      if doc.None? || StrOf(doc.value.id) == "" {
        Terminate();
        return;
      }
      StartReceivingFile(StrOf(doc.value.id), StrOf(doc.value.token), env);
    }

    method HandleDataMessage(data: bytes, isString: bool, env: Env)
      requires Valid() && Deliverable(Frame(data, isString))
      modifies this
      ensures Valid()
      ensures var (r, outs) := RecvFrame(cfg, old(Abs()), Frame(data, isString), env);
              Abs() == r && outbox == old(outbox) + outs
    {
      if state == ReceivingFiles && open.currentFileID != "" {
        if isString {
          HandleFileBoundary(data, env);
        } else {
          HandleBinaryData(data, env);
        }
        return;
      }
      if isString && data == ZERO {
        if |controlBuffer| > 0 {
          var whole := controlBuffer;
          controlBuffer := [];
          HandleParsed(whole, env);
        }
        return;
      }
      if !isString {
        if |controlBuffer| + |data| > MAX_CONTROL_BYTES {
          controlBuffer := [];
          return;
        }
        controlBuffer := controlBuffer + data;
        return;
      }
      HandleParsed(data, env);
    }
  }

  lemma PrepareTokensSnoc(cfg: Config, files: seq<FileDto>, ids: seq<string>, gen: nat -> string, i: nat)
    requires i < |ids|
    ensures PrepareTokens(cfg, files, ids[..i + 1], gen) ==
              var before := PrepareTokens(cfg, files, ids[..i], gen);
              var meta := FindFile(files, ids[i]);
              if meta.Some? && cfg.safeName(meta.value) then before[ids[i] := gen(i)] else before
  {
    assert ids[..i + 1][..i] == ids[..i];
  }
}
