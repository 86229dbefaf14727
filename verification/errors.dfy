/** The recoverable error taxonomy of src/errors.rs and its messages. */
module Errors {
  import opened Wrappers

  /** The recoverable failures. src/app/blob_pager.rs still spells the first
      two `BinaryFile` and `BlobReference`; this model uses the names the
      enum itself declares. */
  datatype ErrorKind =
    | BinaryFileError
    | BlobReferenceError
    | SubprocessError
    | TemporaryFileError
    | TerminalInitError

  /** The one-variant error wrapper the pages return. */
  datatype GitBrowserError = Error(kind: ErrorKind)

  /** `ErrorKind::as_str`: the fixed message of each kind. */
  function Message(k: ErrorKind): (m: string)
    ensures |m| > 0
  {
    match k
    case BinaryFileError => "Unable to load and display binary files"
    case BlobReferenceError => "Unable to load blob from repository"
    case SubprocessError => "Failed to execute subprocess"
    case TemporaryFileError => "Failed to write temporary file"
    case TerminalInitError => "Failed to reinitialize terminal"
  }

  /** Different kinds never share a message, so the message identifies the kind. */
  lemma MessagesDistinct(a: ErrorKind, b: ErrorKind)
    ensures Message(a) == Message(b) ==> a == b
  {
    // The five messages have five different lengths.
    assert |Message(a)| == |Message(b)| ==> a == b;
  }

  /** `GitBrowserError::as_str`: the wrapped kind's message. */
  function AsStr(e: GitBrowserError): (m: string)
    ensures m == Message(e.kind)
  {
    match e
    case Error(k) => Message(k)
  }

  /** `Error::description`: the wrapped kind's message. */
  function Description(e: GitBrowserError): (m: string)
    ensures m == AsStr(e)
  {
    match e
    case Error(k) => Message(k)
  }

  /** Characters `{:?}` writes as a backslash escape. */
  predicate Special(c: char)
  {
    c == '\"' || c == '\\' || c == '\n' || c == '\r' || c == '\t' || c == '\0'
  }

  /** One character as `{:?}` writes it inside a string literal. */
  function EscapeChar(c: char): (r: string)
    ensures Special(c) ==> |r| == 2 && r[0] == '\\'
    ensures !Special(c) ==> r == [c]
  {
    match c
    case '\"' => "\\\""
    case '\\' => "\\\\"
    case '\n' => "\\n"
    case '\r' => "\\r"
    case '\t' => "\\t"
    case '\0' => "\\0"
    case _ => [c]
  }

  /** The character a two-character escape `\x` stands for. */
  function UnescapeChar(x: char): Option<char>
  {
    match x
    case '\"' => Some('\"')
    case '\\' => Some('\\')
    case 'n' => Some('\n')
    case 'r' => Some('\r')
    case 't' => Some('\t')
    case '0' => Some('\0')
    case _ => None
  }

  function Escape(s: string): string
  {
    if |s| == 0 then "" else EscapeChar(s[0]) + Escape(s[1..])
  }

  /** Reads the body of a string literal back, failing on a bare quote or an
      unknown escape. */
  function Unescape(t: string): Option<string>
    decreases |t|
  {
    if |t| == 0 then Some("")
    else if t[0] == '\\' then
      if |t| < 2 then None
      else match (UnescapeChar(t[1]), Unescape(t[2..]))
        case (Some(c), Some(rest)) => Some([c] + rest)
        case _ => None
    else if t[0] == '\"' then None
    else match Unescape(t[1..])
      case Some(rest) => Some([t[0]] + rest)
      case None => None
  }

  /** `{:?}` on a string: quoted, with special characters escaped. Escapes of
      other non-printable characters are not modelled. */
  function DebugStr(s: string): (r: string)
    ensures |r| >= 2 && r[0] == '\"' && r[|r| - 1] == '\"'
  {
    "\"" + Escape(s) + "\""
  }

  /** Escaping loses nothing: the literal's body reads back as the string. */
  lemma {:induction false} EscapeRoundTrip(s: string)
    ensures Unescape(Escape(s)) == Some(s)
  {
    if |s| > 0 {
      var c, rest := s[0], s[1..];
      EscapeRoundTrip(rest);
      var t := Escape(s);
      assert t == EscapeChar(c) + Escape(rest);
      if Special(c) {
        assert t[2..] == Escape(rest);
      } else {
        assert t[1..] == Escape(rest);
      }
      assert [c] + rest == s;
    }
  }

  /** A string with nothing to escape is written unchanged. */
  lemma {:induction false} EscapePlain(s: string)
    requires forall i :: 0 <= i < |s| ==> !Special(s[i])
    ensures Escape(s) == s
  {
    if |s| > 0 {
      EscapePlain(s[1..]);
    }
  }

  /** `fmt::Display`: the message in `{:?}` form. */
  function Display(e: GitBrowserError): (r: string)
    ensures |r| >= 2 && r[0] == '\"' && r[|r| - 1] == '\"'
    ensures Unescape(r[1..|r| - 1]) == Some(AsStr(e))
  {
    var r := DebugStr(AsStr(e));
    assert r[1..|r| - 1] == Escape(AsStr(e));
    EscapeRoundTrip(AsStr(e));
    r
  }

  /** No message contains a character `{:?}` would escape. */
  lemma PlainMessage(k: ErrorKind)
    ensures forall i :: 0 <= i < |Message(k)| ==> !Special(Message(k)[i])
  {
    match k
    case BinaryFileError => PlainLiteral("Unable to load and display binary files");
    case BlobReferenceError => PlainLiteral("Unable to load blob from repository");
    case SubprocessError => PlainLiteral("Failed to execute subprocess");
    case TemporaryFileError => PlainLiteral("Failed to write temporary file");
    case TerminalInitError => PlainLiteral("Failed to reinitialize terminal");
  }

  /** A string of letters and spaces has nothing to escape. */
  lemma PlainLiteral(m: string)
    requires forall i :: 0 <= i < |m| ==> m[i] == ' ' || 'a' <= m[i] <= 'z' || 'A' <= m[i] <= 'Z'
    ensures forall i :: 0 <= i < |m| ==> !Special(m[i])
  {
  }

  /** No message needs escaping, so each is displayed as itself in double quotes. */
  lemma DisplayIsQuotedMessage(e: GitBrowserError)
    ensures Display(e) == "\"" + Message(e.kind) + "\""
  {
    var m := Message(e.kind);
    PlainMessage(e.kind);
    EscapePlain(m);
  }
}
