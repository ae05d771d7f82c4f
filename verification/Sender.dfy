/** RTCSender: the handlers of the handshake, the send queue and the pipelined SendFiles
    loop, each proved against SenderModel. */
module Sender {
  import opened Base
  import opened RtcProtocol
  import opened Framing
  import opened SenderModel

  const FILE_IO_BUFFER_SIZE: nat := 512 * 1024

  /** A local file: its offered metadata and its bytes, which do not change while sending. */
  datatype FileMeta = FileMeta(dto: FileDto, content: bytes)

  function FindMeta(files: seq<FileMeta>, id: string): Option<FileMeta> {
    if files == [] then None
    else if files[0].dto.id == id then Some(files[0])
    else FindMeta(files[1..], id)
  }

  /** The accepted ids that have both a token and a local file, in the accepted order. */
  function SendQueue(ids: seq<string>, tokens: map<string, string>, files: seq<FileMeta>): seq<Item> {
    if ids == [] then []
    else
      var n := |ids| - 1;
      var before := SendQueue(ids[..n], tokens, files);
      var meta := FindMeta(files, ids[n]);
      if ids[n] in tokens && meta.Some? then before + [Item(ids[n], tokens[ids[n]], meta.value.content)] else before
  }

  predicate Sendable(ids: seq<string>, tokens: map<string, string>, files: seq<FileMeta>, id: string) {
    id in ids && id in tokens && FindMeta(files, id).Some?
  }

  /** Every queued item can be sent as announced: it carries the receiver's token and the
      content of the first local file with that id; no sendable accepted id is missing. */
  lemma {:induction false} QueueIsSendable(ids: seq<string>, tokens: map<string, string>, files: seq<FileMeta>)
    ensures forall it | it in SendQueue(ids, tokens, files) ::
              && Sendable(ids, tokens, files, it.id) && it.token == tokens[it.id]
              && it.content == FindMeta(files, it.id).value.content
    ensures forall id | Sendable(ids, tokens, files, id) :: exists it ::
              it in SendQueue(ids, tokens, files) && it.id == id
  {
    if ids == [] {
    } else {
      var n := |ids| - 1;
      QueueIsSendable(ids[..n], tokens, files);
      assert ids == ids[..n] + [ids[n]];
      var q, before := SendQueue(ids, tokens, files), SendQueue(ids[..n], tokens, files);
      forall id | Sendable(ids, tokens, files, id)
        ensures exists it :: it in q && it.id == id
      {
        if id == ids[n] {
          assert q == before + [Item(id, tokens[id], FindMeta(files, id).value.content)];
          assert q[|before|] in q;
        } else {
          assert Sendable(ids[..n], tokens, files, id);
          var it :| it in before && it.id == id;
          assert it in q;
        }
      }
    }
  }

  /** rebuild of the id index inside prepareSendQueue: the first file with an id wins. */
  function MetaIndex(files: seq<FileMeta>): map<string, FileMeta> {
    if files == [] then map[]
    else
      var n := |files| - 1;
      var before := MetaIndex(files[..n]);
      if files[n].dto.id in before then before else before[files[n].dto.id := files[n]]
  }

  lemma {:induction false} FindMetaSnoc(files: seq<FileMeta>, f: FileMeta, id: string)
    ensures FindMeta(files + [f], id) ==
              if FindMeta(files, id).Some? then FindMeta(files, id) else if f.dto.id == id then Some(f) else None
  {
    if files == [] {
      assert files + [f] == [f] && [f][1..] == [];
    } else {
      FindMetaSnoc(files[1..], f, id);
      assert (files + [f])[1..] == files[1..] + [f] && (files + [f])[0] == files[0];
    }
  }

  lemma {:induction false} MetaIndexFinds(files: seq<FileMeta>, id: string)
    ensures FindMeta(files, id) == if id in MetaIndex(files) then Some(MetaIndex(files)[id]) else None
  {
    if files == [] {
    } else {
      var n := |files| - 1;
      MetaIndexFinds(files[..n], id);
      MetaIndexFinds(files[..n], files[n].dto.id);
      FindMetaSnoc(files[..n], files[n], id);
      assert files == files[..n] + [files[n]];
    }
  }

  method PrepareSendQueue(acceptedIDs: seq<string>, tokens: map<string, string>, files: seq<FileMeta>)
    returns (queue: seq<Item>)
    ensures queue == SendQueue(acceptedIDs, tokens, files)
  {
    var byID: map<string, FileMeta> := map[];
    for i := 0 to |files|
      invariant byID == MetaIndex(files[..i])
    {
      assert files[..i + 1][..i] == files[..i];
      if files[i].dto.id !in byID {
        byID := byID[files[i].dto.id := files[i]];
      }
    }
    assert files[..|files|] == files;
    queue := [];
    for i := 0 to |acceptedIDs|
      invariant queue == SendQueue(acceptedIDs[..i], tokens, files)
    {
      var id := acceptedIDs[i];
      assert acceptedIDs[..i + 1][..i] == acceptedIDs[..i];
      MetaIndexFinds(files, id);
      if id in tokens && id in byID {
        queue := queue + [Item(id, tokens[id], byID[id].content)];
      }
    }
    assert acceptedIDs[..|acceptedIDs|] == acceptedIDs;
  }

  // ---------------------------------------------------------------- SendFiles

  /** What the world does to one SendFiles call: which files open, how many sends the channel
      takes, what arrives in fileResults for each file (None: closed or timed out), and
      whether the peer closes while the last bytes are flushed. */
  datatype World = World(opens: nat -> bool, budget: nat, acks: nat -> Option<Ack>, closesAtEnd: bool)

  /** Where `ops` has taken the loop. */
  ghost predicate Reaches(codec: Codec, q: seq<Item>, ops: seq<Op>, p: Pos) {
    RunOps(codec, q, AtStart, ops) == Some(p)
  }

  lemma DataReaches(codec: Codec, q: seq<Item>, k: nat, ops: seq<Op>, rest: bytes, n: nat)
    requires k < |q| && Reaches(codec, q, ops, Sending(k, rest)) && 0 < n <= |rest| && n <= CHUNK_SIZE
    ensures Reaches(codec, q, ops + [Emit(Frame(rest[..n], false))], Sending(k, rest[n..]))
  {
    RunOpsSnoc(codec, q, AtStart, ops, Emit(Frame(rest[..n], false)));
  }

  /** Reads one file in blocks through the reused buffer and sends it in frames. */
  method SendContent(codec: Codec, q: seq<Item>, k: nat, buf: array<byte>, sofar: seq<Op>, w: World)
    returns (ok: bool, ops: seq<Op>)
    requires k < |q| && buf.Length == FILE_IO_BUFFER_SIZE
    requires Reaches(codec, q, sofar, Sending(k, q[k].content))
    modifies buf
    ensures ok ==> Reaches(codec, q, ops, Sending(k, []))
    ensures !ok ==> exists rest :: Reaches(codec, q, ops, Sending(k, rest))
  {
    ops := sofar;
    var content := q[k].content;
    var read := 0;
    assert content[0..] == content;
    while read < |content|
      invariant 0 <= read <= |content|
      invariant Reaches(codec, q, ops, Sending(k, content[read..]))
    {
      var n :| 1 <= n <= |content| - read && n <= FILE_IO_BUFFER_SIZE;   // a short read is legal
      forall i | 0 <= i < n {
        buf[i] := content[read + i];
      }
      var start := 0;
      while start < n
        invariant 0 <= start <= n
        invariant forall i | 0 <= i < n :: buf[i] == content[read + i]
        invariant Reaches(codec, q, ops, Sending(k, content[read + start..]))
      {
        var end := start + CHUNK_SIZE;
        if end > n {
          end := n;
        }
        if |ops| >= w.budget {
          return false, ops;
        }
        var frame := Frame(buf[start..end], false);
        var rest := content[read + start..];
        assert frame.data == rest[..end - start] && rest[end - start..] == content[read + end..];
        DataReaches(codec, q, k, ops, rest, end - start);
        ops := ops + [Emit(frame)];
        start := end;
      }
      read := read + n;
    }
    assert content[read..] == [];
    ok := true;
  }

  /** SendFiles. It performs exactly the actions the machine prescribes; it reports success
      only after the last one, and an error only when the machine stopped early or the peer
      closed at the very end. */
  method SendFiles(codec: Codec, q: seq<Item>, w: World) returns (err: bool, ops: seq<Op>)
    ensures RunOps(codec, q, AtStart, ops).Some?
    ensures !err ==> Reaches(codec, q, ops, Finished)
    ensures err ==> !Reaches(codec, q, ops, Finished) || w.closesAtEnd
  {
    ops := [];
    if |q| == 0 {
      if w.budget == 0 {
        return true, ops;
      }
      RunOpsSnoc(codec, q, AtStart, [], Emit(Frame(ZERO, true)));
      ops := [] + [Emit(Frame(ZERO, true))];
      return w.closesAtEnd, ops;
    }
    var buf := new byte[FILE_IO_BUFFER_SIZE];
    var headerAlreadySent := false;
    var index := 0;
    while index < |q|
      invariant 0 <= index <= |q|
      invariant headerAlreadySent <==> 0 < index < |q|
      invariant Reaches(codec, q, ops,
                        if index == 0 then AtStart
                        else if index < |q| then Sending(index, q[index].content) else Finished)
    {
      if !w.opens(index) {
        return true, ops;
      }
      if !headerAlreadySent {
        if |ops| >= w.budget {
          return true, ops;
        }
        RunOpsSnoc(codec, q, AtStart, ops, Emit(Header(codec, q[index])));
        ops := ops + [Emit(Header(codec, q[index]))];
      }
      headerAlreadySent := false;
      var ok: bool;
      ok, ops := SendContent(codec, q, index, buf, ops, w);
      if !ok || |ops| >= w.budget {
        return true, ops;
      }
      if index + 1 < |q| {
        RunOpsSnoc(codec, q, AtStart, ops, Emit(Header(codec, q[index + 1])));
        ops := ops + [Emit(Header(codec, q[index + 1]))];
        headerAlreadySent := true;
      } else {
        RunOpsSnoc(codec, q, AtStart, ops, Emit(Frame(ZERO, true)));
        ops := ops + [Emit(Frame(ZERO, true))];
      }
      var result := w.acks(index);
      if result.None? || result.value.id != q[index].id || !result.value.success {
        return true, ops;
      }
      RunOpsSnoc(codec, q, AtStart, ops, Got(result.value));
      ops := ops + [Got(result.value)];
      index := index + 1;
    }
    err := w.closesAtEnd;
  }

  // ------------------------------------------------------------- the handlers

  class RTCSender {
    const cfg: Config
    var state: Phase
    var handshake: Handshake
    var controlBuffer: bytes
    var accepted: Option<map<string, string>>   // channels of capacity one
    var declined: bool
    var errors: bool
    var fileResults: Option<Ack>
    var closed: bool
    var outbox: seq<Out>
    ghost var dropped: nat

    ghost function Abs(): Send
      reads this
    {
      Send(state, handshake, controlBuffer, accepted, declined, errors, fileResults, dropped, closed)
    }

    constructor (cfg: Config)
      ensures this.cfg == cfg && outbox == []
      ensures Abs() == Send(Init, Handshake([], [], [], "", 0, 0), [], None, false, false, None, 0, false)
    {
      this.cfg := cfg;
      state, handshake, controlBuffer := Init, Handshake([], [], [], "", 0, 0), [];
      accepted, declined, errors, fileResults, closed, outbox := None, false, false, None, false, [];
      dropped := 0;
    }

    method Transmit(m: Out, env: Env) returns (ok: bool)
      modifies this`outbox
      ensures ok == env.sendOk
      ensures outbox == old(outbox) + if ok then [m] else []
    {
      ok := env.sendOk;
      if ok {
        outbox := outbox + [m];
      }
    }

    method Fail()
      modifies this`state, this`errors
      ensures Abs() == Failed(old(Abs()))
    {
      state := Done;
      if !closed {
        errors := true;
      }
    }

    /** startNonceExchange, run when the data channel opens. */
    method StartNonceExchange(nonce: bytes, env: Env)
      modifies this`state, this`handshake, this`errors, this`outbox
      ensures outbox == old(outbox) + if env.sendOk then [Say(ToDoc(Nonce(cfg.encodeNonce(nonce))))] else []
      ensures env.sendOk ==> Abs() == old(Abs()).(phase := WaitNonce, hs := old(handshake).(localNonce := nonce))
      ensures !env.sendOk ==>
                Abs() == old(Abs()).(failed := old(errors || !closed), hs := old(handshake).(localNonce := nonce))
    {
      handshake := handshake.(localNonce := nonce);
      var ok := Transmit(Say(ToDoc(Nonce(cfg.encodeNonce(nonce)))), env);
      if !ok {
        errors := errors || !closed;
        return;
      }
      state := WaitNonce;
    }

    method HandleNonceResponse(kind: Kind, env: Env)
      modifies this`state, this`handshake, this`outbox
      ensures var (s, outs) := SenderModel.HandleNonceResponse(cfg, old(Abs()), kind, env);
              Abs() == s && outbox == old(outbox) + outs
    {
      if !kind.KNonce? {
        return;
      }
      var remote := cfg.decodeNonce(kind.nonce);
      if remote.None? {
        return;
      }
      handshake := handshake.(remoteNonce := remote.value, finalNonce := handshake.localNonce + remote.value);
      var ok := Transmit(Say(ToDoc(TokenRequest(cfg.signToken(handshake.finalNonce)))), env);
      if ok {
        state := WaitToken;
      }
    }

    method SendFileList(env: Env)
      modifies this`state, this`outbox
      ensures var (s, outs) := SenderModel.SendFileList(cfg, old(Abs()), env);
              Abs() == s && outbox == old(outbox) + outs
    {
      var ok := Transmit(SayChunked(ToDoc(FileList("OK", cfg.files))), env);
      if ok {
        state := WaitFileAccept;
      }
    }

    method BeginFileListPhase(env: Env)
      modifies this`state, this`errors, this`outbox
      ensures var (s, outs) := SenderModel.BeginFileListPhase(cfg, old(Abs()), env);
              Abs() == s && outbox == old(outbox) + outs
    {
      if !cfg.requirePin {
        SendFileList(env);
        return;
      }
      var ok := Transmit(SayChunked(ToDoc(FileList("PIN_REQUIRED", []))), env);
      if !ok {
        Fail();
        return;
      }
      state := WaitRequiredPin;
    }

    method HandleTokenResponse(kind: Kind, doc: Doc, env: Env)
      modifies this`state, this`handshake, this`errors, this`outbox
      ensures var (s, outs) := SenderModel.HandleTokenResponse(cfg, old(Abs()), kind, doc, env);
              Abs() == s && outbox == old(outbox) + outs
    {
      if kind == KStatus("TOO_MANY_ATTEMPTS") || kind == KStatus("INVALID_SIGNATURE") {
        Fail();
        return;
      }
      if kind != KStatus("OK") && kind != KStatus("PIN_REQUIRED") {
        return;
      }
      handshake := handshake.(receiverToken := StrOf(doc.token));
      if kind.status == "PIN_REQUIRED" {
        handshake := handshake.(pinAttempts := handshake.pinAttempts + 1);
        var ok := Transmit(Say(ToDoc(Pin(env.pinAnswer))), env);
        if !ok {
          Fail();
          return;
        }
        state := WaitPin;
        return;
      }
      BeginFileListPhase(env);
    }

    method HandleRequiredPIN(kind: Kind, env: Env)
      modifies this`state, this`handshake, this`errors, this`outbox
      ensures var (s, outs) := HandleRequiredPin(cfg, old(Abs()), kind, env);
              Abs() == s && outbox == old(outbox) + outs
    {
      if !kind.KPin? {
        return;
      }
      if kind.pin == cfg.requiredPin {
        SendFileList(env);
        return;
      }
      handshake := handshake.(requiredAttempts := handshake.requiredAttempts + 1);
      var status := "PIN_REQUIRED";
      if handshake.requiredAttempts >= MAX_PIN_ATTEMPTS {
        status := "TOO_MANY_ATTEMPTS";
      }
      var ok := Transmit(SayChunked(ToDoc(FileList(status, []))), env);
      if !ok || handshake.requiredAttempts >= MAX_PIN_ATTEMPTS {
        Fail();
      }
    }

    method HandleFileAcceptance(kind: Kind, doc: Doc)
      modifies this`state, this`accepted, this`declined
      ensures Abs() == SenderModel.HandleFileAcceptance(old(Abs()), kind, doc)
    {
      if kind == KStatus("DECLINED") {
        if !closed {
          declined := true;
        }
      } else if kind == KStatus("OK") {
        if !closed && accepted.None? {
          accepted := Some(TokensOf(doc));
        }
        state := SendingFiles;
      }
    }

    method HandleFileResponse(a: Ack)
      modifies this`fileResults, this`errors, this`dropped
      ensures Abs() == SenderModel.HandleFileResponse(old(Abs()), a)
    {
      if closed {
        return;
      }
      if fileResults.None? {
        fileResults := Some(a);
      } else {
        dropped := dropped + 1;
      }
      if !a.success {
        errors := true;
      }
    }

    method HandleParsed(data: bytes, env: Env)
      modifies this
      ensures var (s, outs) := HandleMessage(cfg, old(Abs()), data, env);
              Abs() == s && outbox == old(outbox) + outs
    {
      var doc := cfg.codec.unmarshal(data);
      var kind := if doc.Some? then ParseRTCMessage(doc.value) else KNone;
      if kind.KNone? {
        return;
      }
      if kind.KFileResponse? {
        HandleFileResponse(Ack(kind.id, kind.success, kind.error));
        return;
      }
      match state
      case WaitNonce => HandleNonceResponse(kind, env);
      case WaitToken => HandleTokenResponse(kind, doc.value, env);
      case WaitPin => HandleTokenResponse(kind, doc.value, env);
      case WaitRequiredPin => HandleRequiredPIN(kind, env);
      case WaitFileAccept => HandleFileAcceptance(kind, doc.value);
      case _ =>
    }

    method HandleDataMessage(data: bytes, isString: bool, env: Env)
      modifies this
      ensures var (s, outs) := SendFrame(cfg, old(Abs()), Frame(data, isString), env);
              Abs() == s && outbox == old(outbox) + outs
    {
      var message := data;
      if isString && data == ZERO {
        if |controlBuffer| == 0 {
          return;
        }
        message := controlBuffer;
        controlBuffer := [];
      } else if !isString {
        if |controlBuffer| + |data| > MAX_CONTROL_BYTES {
          controlBuffer := [];
          return;
        }
        controlBuffer := controlBuffer + data;
        return;
      }
      HandleParsed(message, env);
    }
  }
}
