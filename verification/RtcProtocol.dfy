/** The control messages of the WebRTC transfer and their classification.

    A JSON object is modelled by the fields the protocol looks at; an omitted field is
    None. Marshalling to bytes and back is a parameter (`Codec`). */
module RtcProtocol {
  import opened Base

  const CHUNK_SIZE: nat := 16 * 1024
  const MAX_CONTROL_BYTES: nat := 2 * 1024 * 1024
  const MAX_FILES_PER_SESSION: nat := 10000
  const MAX_PIN_ATTEMPTS: nat := 3
  const INT64_MIN: int := -0x8000_0000_0000_0000
  const INT64_MAX: int := 0x7FFF_FFFF_FFFF_FFFF

  newtype int64 = x: int | INT64_MIN <= x <= INT64_MAX

  /** One offered file; `sha256` is "" when the sender announced no checksum. */
  datatype FileDto = FileDto(id: string, fileName: string, size: int64, sha256: string)

  /** The "files" field: absent, the sender's array, or the receiver's id-to-token object. */
  datatype FilesField =
    | NoFiles
    | FileArray(list: seq<FileDto>)
    | TokenObject(tokens: map<string, string>)

  datatype Doc = Doc(
    nonce: Option<string>,
    id: Option<string>,
    token: Option<string>,
    status: Option<string>,
    files: FilesField,
    publicKey: Option<string>,
    pin: Option<string>,
    success: Option<bool>,
    error: Option<string>)

  const EMPTY_DOC := Doc(None, None, None, None, NoFiles, None, None, None, None)

  datatype Codec = Codec(marshal: Doc -> bytes, unmarshal: bytes -> Option<Doc>)

  /** JSON objects survive the round trip, start with '{' and so are never the text "0". */
  ghost predicate Lossless(codec: Codec) {
    forall d :: codec.unmarshal(codec.marshal(d)) == Some(d)
                && |codec.marshal(d)| > 0 && codec.marshal(d)[0] == 123
  }

  /** A data channel frame: its bytes and whether it was sent as text. */
  datatype Frame = Frame(data: bytes, text: bool)

  /** A message handed to the channel: one text frame, or binary chunks and a delimiter. */
  datatype Out = Say(doc: Doc) | SayChunked(doc: Doc)

  // ---------------------------------------------------------------- messages

  datatype Message =
    | Nonce(nonce: string)
    | TokenRequest(token: string)
    | TokenResponse(status: string, token: string)
    | Pin(pin: string)
    | PinStatus(status: string)
    | FileList(status: string, files: seq<FileDto>)
    | FileListResponse(status: string, tokens: map<string, string>)
    | FileHeader(id: string, token: string)
    | FileResponse(id: string, success: bool, error: Option<string>)
    | ErrorResponse(message: string)

  function OmitEmpty(s: string): Option<string> {
    if s == "" then None else Some(s)
  }

  /** The field's string value; an absent field reads as the empty string. */
  function StrOf(s: Option<string>): string {
    match s case Some(v) => v case None => ""
  }

  /** The JSON object each message struct marshals to, `omitempty` tags included. */
  function ToDoc(m: Message): Doc {
    match m
    case Nonce(n) => EMPTY_DOC.(nonce := Some(n))
    case TokenRequest(t) => EMPTY_DOC.(token := Some(t))
    case TokenResponse(s, t) => EMPTY_DOC.(status := Some(s), token := OmitEmpty(t))
    case Pin(p) => EMPTY_DOC.(pin := Some(p))
    case PinStatus(s) => EMPTY_DOC.(status := Some(s))
    case FileList(s, fs) => EMPTY_DOC.(status := Some(s), files := if fs == [] then NoFiles else FileArray(fs))
    case FileListResponse(s, ts) =>
      EMPTY_DOC.(status := Some(s), files := if ts == map[] then NoFiles else TokenObject(ts))
    case FileHeader(id, t) => EMPTY_DOC.(id := Some(id), token := Some(t))
    case FileResponse(id, ok, e) => EMPTY_DOC.(id := Some(id), success := Some(ok), error := e)
    case ErrorResponse(e) => EMPTY_DOC.(error := Some(e))
  }

  /** What ParseRTCMessage reports; `KNone` is its nil message. */
  datatype Kind =
    | KNonce(nonce: string)
    | KFileHeader(id: string, token: string)
    | KFileList(files: seq<FileDto>)
    | KPairResponse
    | KStatus(status: string)
    | KTokenRequest(token: string)
    | KPin(pin: string)
    | KFileResponse(id: string, success: bool, error: Option<string>)
    | KNone

  function ParseRTCMessage(d: Doc): Kind {
    if StrOf(d.nonce) != "" then KNonce(StrOf(d.nonce))
    else if StrOf(d.id) != "" && StrOf(d.token) != "" then KFileHeader(StrOf(d.id), StrOf(d.token))
    else if d.status.Some? then
      if d.files.FileArray? then KFileList(d.files.list)
      else if d.publicKey.Some? && d.status.value != "PAIR" && d.files.NoFiles? then KPairResponse
      else KStatus(d.status.value)
    else if StrOf(d.token) != "" then KTokenRequest(StrOf(d.token))
    else if d.pin.Some? then KPin(d.pin.value)
    else if StrOf(d.id) != "" then KFileResponse(StrOf(d.id), d.success == Some(true), d.error)
    else KNone
  }

  /** The classification each message is meant to get. */
  function IntendedKind(m: Message): Kind {
    match m
    case Nonce(n) => KNonce(n)
    case TokenRequest(t) => KTokenRequest(t)
    case TokenResponse(s, _) => KStatus(s)
    case Pin(p) => KPin(p)
    case PinStatus(s) => KStatus(s)
    case FileList(s, fs) => if fs == [] then KStatus(s) else KFileList(fs)
    case FileListResponse(s, _) => KStatus(s)
    case FileHeader(id, t) => KFileHeader(id, t)
    case FileResponse(id, ok, e) => KFileResponse(id, ok, e)
    case ErrorResponse(_) => KNone
  }

  /** The strings the classification itself relies on must not be empty. */
  predicate Recognisable(m: Message) {
    match m
    case Nonce(n) => n != ""
    case TokenRequest(t) => t != ""
    case FileHeader(id, t) => id != "" && t != ""
    case FileResponse(id, _, _) => id != ""
    case _ => true
  }

  /** The ordered tests recognise a message exactly when its key fields are non-empty.
      In particular a token map never passes for a file list, and an empty PIN is a PIN. */
  lemma ParseRecognises(m: Message)
    ensures ParseRTCMessage(ToDoc(m)) == IntendedKind(m) <==> Recognisable(m)
  {
    match m
    case FileHeader(id, t) =>
      if id != "" && t == "" {
        assert ParseRTCMessage(ToDoc(m)) == KFileResponse(id, false, None);
      }
    case _ =>
  }
}
