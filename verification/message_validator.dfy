/**
  Message validation (src/Utils/MessageValidator.php).

  `validate` runs two phases on the raw frame text: a JSON-Schema check and a
  type-specific content policy. The second phase builds a sanitized copy of
  the message, but `validate` then returns the raw input it was given, so the
  sanitized copy never reaches the caller. Both behaviours are modelled.

  JSON decoding, the schema validator, strict base64 decoding and content
  sniffing are library code; they are the function-valued fields of
  `Externals`, so every property below holds whatever those libraries do.
*/
module Validation {
  import opened Wrappers

  newtype byte = x: int | 0 <= x < 256

  /**
    The fields of a decoded frame that the server reads. `None` stands for a
    key that is absent or whose value is JSON `null` (PHP's `isset` fails on
    both); `roomId` is `metadata.roomId`.
  */
  datatype Message = Message(
    msgType: Option<string>,
    content: Option<string>,
    roomId: Option<string>,
    token: Option<string>)

  datatype Externals = Externals(
    /** `json_decode($data, true)`, failing with `json_last_error_msg()`. */
    parse: string -> Result<Message, string>,
    /** The messages of the JSON-Schema validator's errors; empty when the frame is valid. */
    schemaErrors: string -> seq<string>,
    /** `base64_decode($s, true)`: `None` for `false`. */
    base64Strict: string -> Option<seq<byte>>,
    /** `finfo(FILEINFO_MIME_TYPE)->buffer($bytes)`. */
    sniff: seq<byte> -> string)

  const JoinRoom := "join_room"
  const LeaveRoom := "leave_room"
  const TextMessage := "message"
  const Image := "image"
  const Document := "document"
  const Notification := "notification"

  /** Byte limits enforced with `strlen` on the text types. */
  const RoomNameMax: nat := 25
  const NotificationMax: nat := 512
  const MessageMax: nat := 65535
  /** Largest decoded image or document, in bytes (1 MiB). */
  const PayloadMax: nat := 1048576

  const DocumentMimeTypes: seq<string> := ["application/pdf"]
  const ImageMimeTypes: seq<string> := ["image/jpeg", "image/png", "image/gif"]

  predicate IsTextType(t: string) {
    t == JoinRoom || t == LeaveRoom || t == TextMessage || t == Notification
  }

  predicate IsKnownType(t: string) {
    IsTextType(t) || t == Image || t == Document
  }

  /** The byte limit of a text type. */
  function TextLimit(t: string): (n: nat)
    requires IsTextType(t)
    ensures t == JoinRoom || t == LeaveRoom ==> n == RoomNameMax == 25
    ensures t == Notification ==> n == NotificationMax == 512
    ensures t == TextMessage ==> n == MessageMax == 65535
  {
    if t == JoinRoom || t == LeaveRoom then RoomNameMax
    else if t == Notification then NotificationMax
    else MessageMax
  }

  datatype ValidationError =
    | SchemaViolation(errors: seq<string>)
    | InvalidJson(detail: string)
    | MissingType
    | MissingContent
    /** Thrown for `join_room`, `leave_room` and `notification` alike. */
    | NotificationTooLong
    | MessageTooLong
    | InvalidBase64
    | DocumentTooLarge
    | InvalidDocumentType(mime: string)
    | ImageTooLarge
    | InvalidImageType
    | InvalidType
  {
    /** The exception message, which the server sends back to the client. */
    function Text(): string {
      match this
      case SchemaViolation(errors) => SchemaErrorText(errors)
      case InvalidJson(detail) => "Invalid JSON: " + detail
      case MissingType => "Message type field not found"
      case MissingContent => "Message content field not found"
      case NotificationTooLong => "Notification content is too long. Max length is 512 characters."
      case MessageTooLong => "Message content is too long"
      case InvalidBase64 => "Invalid base64 encoding"
      case DocumentTooLarge => "Document size is greater than 1MB"
      case InvalidDocumentType(mime) => "Invalid document type: " + mime + ". Only PDF files are allowed."
      case ImageTooLarge => "Image size is too large"
      case InvalidImageType => "Invalid image type"
      case InvalidType => "Invalid message type"
    }
  }

  const SchemaPrefix := "[JSON-SCHEMA] "

  /** Each schema error appended as `" | " + message`, in order. */
  function JoinedErrors(errors: seq<string>): string {
    if errors == [] then ""
    else JoinedErrors(errors[..|errors| - 1]) + " | " + errors[|errors| - 1]
  }

  function SchemaErrorText(errors: seq<string>): string {
    SchemaPrefix + JoinedErrors(errors)
  }

  /** Joining two runs of errors is joining each run in turn. */
  lemma {:induction false} JoinedErrorsConcat(a: seq<string>, b: seq<string>)
    ensures JoinedErrors(a + b) == JoinedErrors(a) + JoinedErrors(b)
  {
    if b == [] {
      assert a + b == a;
    } else {
      var init, last := b[..|b| - 1], b[|b| - 1];
      assert (a + b)[..|a + b| - 1] == a + init;
      assert (a + b)[|a + b| - 1] == last;
      JoinedErrorsConcat(a, init);
    }
  }

  /** Every schema error appears in the message, after a bar separator, preceded by the errors before it in order. */
  lemma ErrorsInOrder(errors: seq<string>, k: nat)
    requires k < |errors|
    ensures SchemaErrorText(errors)
         == SchemaPrefix + JoinedErrors(errors[..k]) + " | " + errors[k] + JoinedErrors(errors[k + 1..])
  {
    assert errors == errors[..k] + [errors[k]] + errors[k + 1..];
    JoinedErrorsConcat(errors[..k] + [errors[k]], errors[k + 1..]);
    JoinedErrorsConcat(errors[..k], [errors[k]]);
    assert [errors[k]][..0] == [];
  }

  /** The error message `validateAgainstSchema` accumulates in its loop. */
  method SchemaErrorMessage(errors: seq<string>) returns (msg: string)
    ensures msg == SchemaErrorText(errors)
    ensures msg[..|SchemaPrefix|] == SchemaPrefix
  {
    msg := SchemaPrefix;
    for i := 0 to |errors|
      invariant msg == SchemaPrefix + JoinedErrors(errors[..i])
    {
      assert errors[..i + 1][..i] == errors[..i];
      msg := msg + " | " + errors[i];
    }
    assert errors[..|errors|] == errors;
  }

  // ----- byte length -----

  /** Number of bytes `c` takes in UTF-8. */
  function Utf8Width(c: char): (n: nat)
    ensures 1 <= n <= 4
    ensures n == 1 <==> (c as int) < 0x80
  {
    if (c as int) < 0x80 then 1
    else if (c as int) < 0x800 then 2
    else if (c as int) < 0x10000 then 3
    else 4
  }

  /** `strlen` of the UTF-8 encoding of `s` (decoded JSON strings are always valid UTF-8). */
  function ByteLength(s: string): nat {
    if s == [] then 0 else Utf8Width(s[0]) + ByteLength(s[1..])
  }

  /** Every character takes one to four bytes; ASCII text takes exactly one per character. */
  lemma {:induction false} ByteLengthBounds(s: string)
    ensures |s| <= ByteLength(s) <= 4 * |s|
    ensures ByteLength(s) == |s| <==> forall i :: 0 <= i < |s| ==> (s[i] as int) < 0x80
  {
    if s != [] {
      ByteLengthBounds(s[1..]);
      assert forall i :: 1 <= i < |s| ==> s[i] == s[1..][i - 1];
    }
  }

  // ----- htmlspecialchars(..., ENT_QUOTES, 'UTF-8') -----

  predicate Special(c: char) {
    c == '&' || c == '<' || c == '>' || c == '"' || c == '\''
  }

  function EscapeChar(c: char): (r: string)
    ensures Special(c) ==> |r| > 1 && r[0] == '&'
    ensures !Special(c) ==> r == [c]
  {
    match c
    case '&' => "&amp;"
    case '<' => "&lt;"
    case '>' => "&gt;"
    case '"' => "&quot;"
    case '\'' => "&#039;"
    case _ => [c]
  }

  function HtmlEscape(s: string): string {
    if s == [] then [] else EscapeChar(s[0]) + HtmlEscape(s[1..])
  }

  /** `htmlspecialchars_decode(..., ENT_QUOTES)` restricted to the five entities above. */
  function HtmlUnescape(s: string): string
    decreases |s|
  {
    if s == [] then []
    else if |s| >= 5 && s[..5] == "&amp;" then "&" + HtmlUnescape(s[5..])
    else if |s| >= 4 && s[..4] == "&lt;" then "<" + HtmlUnescape(s[4..])
    else if |s| >= 4 && s[..4] == "&gt;" then ">" + HtmlUnescape(s[4..])
    else if |s| >= 6 && s[..6] == "&quot;" then "\"" + HtmlUnescape(s[6..])
    else if |s| >= 6 && s[..6] == "&#039;" then "'" + HtmlUnescape(s[6..])
    else [s[0]] + HtmlUnescape(s[1..])
  }

  lemma UnescapeAfterEscapeChar(c: char, t: string)
    ensures HtmlUnescape(EscapeChar(c) + t) == [c] + HtmlUnescape(t)
  {
    var e := EscapeChar(c);
    var s := e + t;
    assert s[..|e|] == e;
    assert s[|e|..] == t;
    if !Special(c) {
      assert s[0] == c;
      assert |s| >= 4 ==> s[..4][0] == c;
      assert |s| >= 5 ==> s[..5][0] == c;
      assert |s| >= 6 ==> s[..6][0] == c;
      assert s[1..] == t;
    }
  }

  /** Escaping loses nothing: decoding the entities gives back the original text. */
  lemma {:induction false} EscapeRoundTrip(s: string)
    ensures HtmlUnescape(HtmlEscape(s)) == s
  {
    if s != [] {
      UnescapeAfterEscapeChar(s[0], HtmlEscape(s[1..]));
      EscapeRoundTrip(s[1..]);
    }
  }

  /** Escaped text holds none of `< > " '`. */
  lemma {:induction false} EscapeRemovesMarkup(s: string)
    ensures forall i :: 0 <= i < |HtmlEscape(s)| ==> !Special(HtmlEscape(s)[i]) || HtmlEscape(s)[i] == '&'
  {
    if s != [] {
      EscapeRemovesMarkup(s[1..]);
      var e, t := EscapeChar(s[0]), HtmlEscape(s[1..]);
      forall i | 0 <= i < |e + t| ensures !Special((e + t)[i]) || (e + t)[i] == '&' {
        if i >= |e| {
          assert (e + t)[i] == t[i - |e|];
        }
      }
    }
  }

  /** Text without any of `& < > " '` is left exactly as it was. */
  lemma {:induction false} EscapePlainText(s: string)
    requires forall i :: 0 <= i < |s| ==> !Special(s[i])
    ensures HtmlEscape(s) == s
  {
    if s != [] {
      assert forall i :: 0 <= i < |s[1..]| ==> s[1..][i] == s[i + 1];
      EscapePlainText(s[1..]);
    }
  }

  /** Text with one of them is changed. */
  lemma {:induction false} EscapeChangesSpecialText(s: string)
    requires exists i :: 0 <= i < |s| && Special(s[i])
    ensures |HtmlEscape(s)| > |s|
  {
    EscapeNeverShrinks(s[1..]);
    if !Special(s[0]) {
      var i :| 0 <= i < |s| && Special(s[i]);
      assert s[1..][i - 1] == s[i];
      EscapeChangesSpecialText(s[1..]);
    }
  }

  lemma {:induction false} EscapeNeverShrinks(s: string)
    ensures |HtmlEscape(s)| >= |s|
  {
    if s != [] {
      EscapeNeverShrinks(s[1..]);
    }
  }

  // ----- the type-specific phase -----

  /** PHP's `!$x` on a decoded string: the empty string and "0" are false. */
  predicate Falsy(bytes: seq<byte>) {
    bytes == [] || bytes == [48]
  }

  /** The base64 gate: a strict decode that fails or yields a falsy string is "invalid base64". */
  function DecodePayload(content: string, ext: Externals): (r: Result<seq<byte>, ValidationError>)
    ensures r.Failure? <==> ext.base64Strict(content).None? || Falsy(ext.base64Strict(content).value)
    ensures r.Failure? ==> r.error == InvalidBase64
    ensures r.Success? ==> r.value == ext.base64Strict(content).value && |r.value| > 0
  {
    match ext.base64Strict(content)
    case None => Failure(InvalidBase64)
    case Some(bytes) => if Falsy(bytes) then Failure(InvalidBase64) else Success(bytes)
  }

  /** Length check, then escaping of the content. */
  function CheckText(msg: Message, content: string, limit: nat, tooLong: ValidationError): (r: Result<Message, ValidationError>)
    ensures r.Success? <==> ByteLength(content) <= limit
    ensures r.Failure? ==> r.error == tooLong
    ensures r.Success? ==> r.value == msg.(content := Some(HtmlEscape(content)))
  {
    if ByteLength(content) > limit then Failure(tooLong)
    else Success(msg.(content := Some(HtmlEscape(content))))
  }

  /** The base64, size and MIME gates for a document, in that order. */
  function CheckDocument(msg: Message, content: string, ext: Externals): (r: Result<Message, ValidationError>)
    ensures DecodePayload(content, ext).Failure? ==> r == Failure(InvalidBase64)
    ensures r.Success? <==> DecodePayload(content, ext).Success? && |DecodePayload(content, ext).value| <= PayloadMax
                            && ext.sniff(DecodePayload(content, ext).value) == "application/pdf"
    ensures r.Success? ==> r.value == msg
  {
    match DecodePayload(content, ext)
    case Failure(e) => Failure(e)
    case Success(bytes) =>
      if |bytes| > PayloadMax then Failure(DocumentTooLarge)
      else if ext.sniff(bytes) !in DocumentMimeTypes then Failure(InvalidDocumentType(ext.sniff(bytes)))
      else Success(msg)
  }

  /** The base64, size and MIME gates for an image, in that order. */
  function CheckImage(msg: Message, content: string, ext: Externals): (r: Result<Message, ValidationError>)
    ensures DecodePayload(content, ext).Failure? ==> r == Failure(InvalidBase64)
    ensures r.Success? <==> DecodePayload(content, ext).Success? && |DecodePayload(content, ext).value| <= PayloadMax
                            && ext.sniff(DecodePayload(content, ext).value) in {"image/jpeg", "image/png", "image/gif"}
    ensures r.Success? ==> r.value == msg
  {
    match DecodePayload(content, ext)
    case Failure(e) => Failure(e)
    case Success(bytes) =>
      if |bytes| > PayloadMax then Failure(ImageTooLarge)
      else if ext.sniff(bytes) !in ImageMimeTypes then Failure(InvalidImageType)
      else Success(msg)
  }

  /** The sanitized message the source re-encodes with `json_encode`. */
  function ValidateBasedOnType(raw: string, ext: Externals): (r: Result<Message, ValidationError>)
    ensures ext.parse(raw).Failure? ==> r == Failure(InvalidJson(ext.parse(raw).error))
    ensures r.Success? ==>
      && ext.parse(raw).Success?
      && ext.parse(raw).value.msgType.Some?
      && IsKnownType(ext.parse(raw).value.msgType.value)
      && ext.parse(raw).value.content.Some?
    ensures r.Success? ==>
      && r.value.msgType == ext.parse(raw).value.msgType
      && r.value.roomId == ext.parse(raw).value.roomId
      && r.value.token == ext.parse(raw).value.token
  {
    match ext.parse(raw)
    case Failure(detail) => Failure(InvalidJson(detail))
    case Success(msg) =>
      if msg.msgType.None? then Failure(MissingType)
      else if msg.content.None? then Failure(MissingContent)
      else
        var t, content := msg.msgType.value, msg.content.value;
        if t == JoinRoom then CheckText(msg, content, RoomNameMax, NotificationTooLong)
        else if t == LeaveRoom then CheckText(msg, content, RoomNameMax, NotificationTooLong)
        else if t == TextMessage then CheckText(msg, content, MessageMax, MessageTooLong)
        else if t == Document then CheckDocument(msg, content, ext)
        else if t == Image then CheckImage(msg, content, ext)
        else if t == Notification then CheckText(msg, content, NotificationMax, NotificationTooLong)
        else Failure(InvalidType)
  }

  /** `validate`: both phases must pass, and the caller gets its own input back, not the sanitized copy. */
  function Validate(raw: string, ext: Externals): (r: Result<string, ValidationError>)
    ensures r.Success? ==> r.value == raw
    ensures r.Success? <==> ext.schemaErrors(raw) == [] && ValidateBasedOnType(raw, ext).Success?
    ensures ext.schemaErrors(raw) != [] ==> r == Failure(SchemaViolation(ext.schemaErrors(raw)))
    ensures ext.schemaErrors(raw) == [] && ValidateBasedOnType(raw, ext).Failure? ==>
      r == Failure(ValidateBasedOnType(raw, ext).error)
  {
    var errors := ext.schemaErrors(raw);
    if errors != [] then Failure(SchemaViolation(errors))
    else
      match ValidateBasedOnType(raw, ext)
      case Failure(e) => Failure(e)
      case Success(_) => Success(raw)
  }

  // ----- properties of the type-specific phase -----

  /** Messages without a type, or with a type but no content, fail before any type-specific check. */
  lemma RequiredFields(raw: string, ext: Externals)
    requires ext.parse(raw).Success?
    ensures ext.parse(raw).value.msgType.None? ==> ValidateBasedOnType(raw, ext) == Failure(MissingType)
    ensures ext.parse(raw).value.msgType.Some? && ext.parse(raw).value.content.None? ==>
      ValidateBasedOnType(raw, ext) == Failure(MissingContent)
  {
  }

  /**
    A text type is accepted exactly when its content fits the type's byte
    limit, and its content is then the escaped text. Rejections of
    `join_room`, `leave_room` and `notification` all carry the text that
    names a 512-character limit.
  */
  lemma TextTypePolicy(raw: string, ext: Externals, msg: Message)
    requires ext.parse(raw) == Success(msg)
    requires msg.msgType.Some? && IsTextType(msg.msgType.value) && msg.content.Some?
    ensures ValidateBasedOnType(raw, ext).Success? <==> ByteLength(msg.content.value) <= TextLimit(msg.msgType.value)
    ensures ValidateBasedOnType(raw, ext).Success? ==>
      ValidateBasedOnType(raw, ext).value == msg.(content := Some(HtmlEscape(msg.content.value)))
    ensures ValidateBasedOnType(raw, ext).Failure? ==>
      ValidateBasedOnType(raw, ext).error == if msg.msgType.value == TextMessage then MessageTooLong else NotificationTooLong
  {
  }

  /**
    Exactly 25 bytes pass for `join_room` and `leave_room`, 26 do not, and
    the error text then speaks of 512 characters.
  */
  lemma RoomNameBoundary(raw: string, ext: Externals, msg: Message)
    requires ext.parse(raw) == Success(msg)
    requires (msg.msgType == Some(JoinRoom) || msg.msgType == Some(LeaveRoom)) && msg.content.Some?
    ensures ByteLength(msg.content.value) == 25 ==> ValidateBasedOnType(raw, ext).Success?
    ensures ByteLength(msg.content.value) == 26 ==> ValidateBasedOnType(raw, ext) == Failure(NotificationTooLong)
    ensures NotificationTooLong.Text() == "Notification content is too long. Max length is 512 characters."
  {
    TextTypePolicy(raw, ext, msg);
  }

  /** Exactly 512 bytes pass for `notification`, 513 do not. */
  lemma NotificationBoundary(raw: string, ext: Externals, msg: Message)
    requires ext.parse(raw) == Success(msg)
    requires msg.msgType == Some(Notification) && msg.content.Some?
    ensures ByteLength(msg.content.value) == 512 ==> ValidateBasedOnType(raw, ext).Success?
    ensures ByteLength(msg.content.value) == 513 ==> ValidateBasedOnType(raw, ext) == Failure(NotificationTooLong)
  {
    TextTypePolicy(raw, ext, msg);
  }

  /**
    For images and documents the gates run in order: base64, then the 1 MiB
    bound on the decoded size, then the sniffed MIME type; the content itself
    is passed through unchanged.
  */
  lemma BinaryTypePolicy(raw: string, ext: Externals, msg: Message)
    requires ext.parse(raw) == Success(msg)
    requires msg.msgType == Some(Image) || msg.msgType == Some(Document)
    requires msg.content.Some?
    ensures var decoded := ext.base64Strict(msg.content.value);
      && (decoded.None? || Falsy(decoded.value) ==> ValidateBasedOnType(raw, ext) == Failure(InvalidBase64))
      && (decoded.Some? && !Falsy(decoded.value) && |decoded.value| > PayloadMax ==>
            ValidateBasedOnType(raw, ext) == Failure(if msg.msgType == Some(Image) then ImageTooLarge else DocumentTooLarge))
      && (decoded.Some? && !Falsy(decoded.value) && |decoded.value| <= PayloadMax ==>
            var mime := ext.sniff(decoded.value);
            ValidateBasedOnType(raw, ext) ==
              if msg.msgType == Some(Image) then
                (if mime in ImageMimeTypes then Success(msg) else Failure(InvalidImageType))
              else
                (if mime in DocumentMimeTypes then Success(msg) else Failure(InvalidDocumentType(mime))))
  {
  }

  /** A document that sniffs as a PNG image is refused as a document. */
  lemma PngIsNotADocument(raw: string, ext: Externals, msg: Message)
    requires ext.parse(raw) == Success(msg)
    requires msg.msgType == Some(Document) && msg.content.Some?
    requires var d := ext.base64Strict(msg.content.value); d.Some? && !Falsy(d.value) && |d.value| <= PayloadMax
    requires ext.sniff(ext.base64Strict(msg.content.value).value) == "image/png"
    ensures ValidateBasedOnType(raw, ext) == Failure(InvalidDocumentType("image/png"))
  {
  }

  /** Any other `type` is refused. */
  lemma UnknownTypeRejected(raw: string, ext: Externals)
    requires ext.parse(raw).Success?
    requires ext.parse(raw).value.msgType.Some? && !IsKnownType(ext.parse(raw).value.msgType.value)
    requires ext.parse(raw).value.content.Some?
    ensures ValidateBasedOnType(raw, ext) == Failure(InvalidType)
  {
  }
}
