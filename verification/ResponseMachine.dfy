/** The reference meaning of the response parser: a machine that is handed one byte at a time,
    remembers where it is inside a token, and never pushes anything back.

    `Run` has no notion of a fragment. response_parser/responseParser.c does: it must give bytes
    back whenever its buffer runs empty. `ResponseParser` proves that the two agree. */
module ResponseMachine {
  import opened Bytes
  import opened Numbers
  import opened ParserUtils

  datatype ResponseParserState =
    | SpaceTransition | Version | Status | Headers | LengthCheck | EncodingCheck | ChunkedCheck
    | ConnectionCheck | TypeCheck | BodyNormal | BodyTransformation | Finished

  datatype ContentEncoding = Identity | Gzip

  datatype ResponseState =
    | ResOk | GeneralError | StartLineFormatError | VersionError | StatusError | HeadersEndError
    | ChunksError | AllocationError

  /** The fields of `ResponseData` other than the control state. */
  datatype Rec = Rec(
    state: ResponseState,
    version: HttpVersion,
    status: int,
    bodyLength: int,
    cEncoding: ContentEncoding,
    isClose: bool,
    isChunked: bool,
    withTransf: bool)

  /** The texts that the parser looks for. `Text` is what is left to match once `Before` was
      seen. */
  datatype Token =
    | VersionText | On | Tent | Nection | Ength | Ncoding | Ype | Ransfer | Lf
    | GzipText | ChunkedText

  function Text(t: Token): (s: string)
    ensures 0 < |s| <= 17 && NUL !in s
    ensures forall k :: 0 <= k < |s| ==> Upper(s[k]) == s[k]
  {
    match t
    case VersionText => "HTTP/1."
    case On => "ON"
    case Tent => "TENT-"
    case Nection => "NECTION:"
    case Ength => "ENGTH:"
    case Ncoding => "NCODING:"
    case Ype => "YPE:"
    case Ransfer => "RANSFER-ENCODING:"
    case Lf => "\n"
    case GzipText => "GZIP"
    case ChunkedText => "CHUNKED"
  }

  function Before(t: Token): string {
    match t
    case On => "C"
    case Tent => "CON"
    case Nection => "CON"
    case Ength => "CONTENT-L"
    case Ncoding => "CONTENT-E"
    case Ype => "CONTENT-T"
    case Ransfer => "T"
    case Lf => "\r"
    case _ => ""
  }

  /** The numbers that the parser reads: the status, the Content-Length and a chunk size. */
  datatype Numeral = StatusNumber | LengthNumber | ChunkSize

  function BaseOf(n: Numeral): Base { if n == ChunkSize then 16 else 10 }

  /** Where the machine is between two bytes. */
  datatype Place =
    | Spaces(next: ResponseParserState)
    | Word(t: Token, i: nat)              // i bytes of Text(t) were seen
    | VersionDigit                        // after HTTP/1.
    | Digits(n: Numeral, v: Option<nat>)  // in a number
    | Scanning                            // in the headers, outside any known word
    | ContentDash                         // after CONTENT-
    | Crlf                                // after CR LF
    | CrlfCr                              // after CR LF CR
    | SkippingConnection                  // inside the value of Connection
    | Counted                             // in a body of bodyLength more bytes
    | UntilClose                          // in a body that the peer ends by closing
    | SizeCr                              // after a chunk size and CR
    | Payload                             // bodyLength more bytes of chunk data
    | DataEnd(last: bool, i: nat)         // i bytes of the CR LF after chunk data
    | Done
    | NoBody                              // finished because nothing announces a body
    | Rejected(at: ResponseParserState)
    | NoSize                              // a chunk size without a digit
    | Outside                             // NUL in framing, or a number past the C int

  datatype Conf = Conf(rec: Rec, p: Place, out: string, transf: string)

  predicate Terminal(p: Place) {
    p.Done? || p.NoBody? || p.Rejected? || p.NoSize? || p.Outside?
  }

  /** What one byte does: the new record and place, what it adds to the two outputs, and
      whether the byte was consumed. A byte that is not consumed ends the run. */
  datatype Move = Move(rec: Rec, p: Place, out: string, transf: string, took: bool)

  function Take(rec: Rec, p: Place, out: string): Move { Move(rec, p, out, "", true) }

  function Refuse(rec: Rec, p: Place): Move { Move(rec, p, "", "", false) }

  function BodyState(rec: Rec): ResponseParserState {
    if rec.withTransf then BodyTransformation else BodyNormal
  }

  /** How a body begins. Chunked coding overrides a length (section 3.3.3 of RFC 7230). */
  function BodyStart(rec: Rec): Place {
    if rec.isChunked then Digits(ChunkSize, None)
    else if rec.bodyLength > 0 then Counted
    else if rec.bodyLength == 0 then Done
    else if rec.withTransf || rec.status == 200 then UntilClose
    else NoBody
  }

  /** What is written in place of the empty line that ends the headers. */
  function Trailer(rec: Rec): string {
    (if !rec.isChunked && rec.withTransf then "Transfer-Encoding: chunked\r\n" else "")
    + (if !rec.isClose then "Connection: close\r\n" else "")
    + "\r\n"
  }

  /** A header byte outside any known word. */
  function Scan(rec: Rec, b: char, loud: string): Move {
    var c := Upper(b);
    Take(rec,
         if c == 'C' then Word(On, 0)
         else if c == 'T' then Word(Ransfer, 0)
         else if c == '\r' then Word(Lf, 0)
         else Scanning, loud)
  }

  function Matched(rec: Rec, t: Token): (Rec, Place) {
    match t
    case VersionText => (rec, VersionDigit)
    case On => (rec, Word(Tent, 0))
    case Tent => (rec, ContentDash)
    case Nection => (rec, Spaces(ConnectionCheck))
    case Ength => (rec, Spaces(LengthCheck))
    case Ncoding => (rec, Spaces(EncodingCheck))
    case Ype => (rec, Spaces(TypeCheck))
    case Ransfer => (rec, Spaces(ChunkedCheck))
    case Lf => (rec, Crlf)
    case GzipText => (rec.(cEncoding := Gzip), Scanning)
    case ChunkedText => (rec.(isChunked := true), Scanning)
  }

  function WordStep(rec: Rec, t: Token, i: nat, b: char, loud: string): Move {
    if i < |Text(t)| && Upper(b) == Text(t)[i] then
      var (rec', p) := if i + 1 < |Text(t)| then (rec, Word(t, i + 1)) else Matched(rec, t);
      Take(rec', p, loud)
    else if t == VersionText then Refuse(rec.(state := VersionError), Rejected(Version))
    else if t == Tent && Upper(b) == 'N' then Take(rec, Word(Nection, 1), loud)
    else Scan(rec, b, loud)
  }

  function Digit(base: Base, v: Option<nat>, b: char): nat
    requires IsDigit(base, b)
  {
    Times(base, v.GetOr(0)) + DigitValue(base, b)
  }

  /** Framing bytes of a chunked body are forwarded unless the body is being transformed. */
  function Frame(rec: Rec, loud: string): string { if rec.withTransf then "" else loud }

  function NumeralOut(rec: Rec, n: Numeral, loud: string): string {
    if n == ChunkSize then Frame(rec, loud) else loud
  }

  function BadChunk(rec: Rec): Move {
    Refuse(rec.(state := ChunksError), Rejected(BodyState(rec)))
  }

  /** The byte that ends a number, or that stands where its first digit should. */
  function NumberEnd(rec: Rec, n: Numeral, v: Option<nat>, b: char, loud: string): Move {
    match (n, v)
    case (StatusNumber, None) => Refuse(rec.(state := StatusError), Rejected(Status))
    case (StatusNumber, Some(x)) => Scan(rec.(status := x), b, loud)
    case (LengthNumber, None) => Scan(rec, b, loud)
    case (LengthNumber, Some(x)) => Scan(rec.(bodyLength := x), b, loud)
    case (ChunkSize, None) => Refuse(rec.(state := ChunksError), NoSize)
    case (ChunkSize, Some(x)) =>
      if b == '\r' then Take(rec.(bodyLength := x), SizeCr, Frame(rec, loud))
      else BadChunk(rec.(bodyLength := x))
  }

  function NumberStep(rec: Rec, n: Numeral, v: Option<nat>, b: char, loud: string): Move {
    if IsDigit(BaseOf(n), b) then
      var x := Digit(BaseOf(n), v, b);
      if x < INT_LIMIT then Take(rec, Digits(n, Some(x)), NumeralOut(rec, n, loud))
      else Refuse(rec, Outside)
    else NumberEnd(rec, n, v, b, loud)
  }

  function ConnectionStep(rec: Rec, b: char, loud: string): Move {
    if b == '\r' then
      var mv := Scan(rec.(isClose := true), b, loud);
      mv.(out := "close" + mv.out)
    else Take(rec, SkippingConnection, "")
  }

  /** The first byte after the spaces that follow a status line word or a header name. */
  function EnterStep(rec: Rec, next: ResponseParserState, b: char, loud: string): Move {
    match next
    case Status => NumberStep(rec, StatusNumber, None, b, loud)
    case LengthCheck => NumberStep(rec, LengthNumber, None, b, loud)
    case EncodingCheck => WordStep(rec, GzipText, 0, b, loud)
    case ChunkedCheck => WordStep(rec, ChunkedText, 0, b, loud)
    case ConnectionCheck => ConnectionStep(rec, b, loud)
    case TypeCheck => Scan(rec, b, loud)
    case _ => Refuse(rec, Outside)
  }

  function BodyByte(rec: Rec, p: Place, loud: string): Move {
    Move(rec, p, Frame(rec, loud), if rec.withTransf then loud else "", true)
  }

  function AfterData(last: bool): Place {
    if last then Done else Digits(ChunkSize, None)
  }

  function DataEndStep(rec: Rec, last: bool, i: nat, b: char, loud: string): Move {
    if i == 0 && b == '\r' then Take(rec, DataEnd(last, 1), Frame(rec, loud))
    else if i == 1 && b == '\n' then Take(rec, AfterData(last), Frame(rec, loud))
    else BadChunk(rec)
  }

  function DataStart(rec: Rec): Place {
    if rec.bodyLength > 0 then Payload else DataEnd(true, 0)
  }

  predicate TakesNul(p: Place) {
    p.Counted? || p.UntilClose? || p.Payload?
  }

  /** One byte. `loud` is that byte when it is to be forwarded, and empty when it was forwarded
      before. */
  function Step(rec: Rec, p: Place, b: char, loud: string): Move {
    if b == NUL && !TakesNul(p) then Refuse(rec, Outside)
    else match p
      case Spaces(next) =>
        if IsSpace(b) then Take(rec, p, "")
        else var mv := EnterStep(rec, next, b, loud); mv.(out := " " + mv.out)
      case Word(t, i) => WordStep(rec, t, i, b, loud)
      case VersionDigit =>
        if b == '0' then Take(rec.(version := V10), Spaces(Status), loud)
        else if b == '1' then Take(rec.(version := V11), Spaces(Status), loud)
        else Take(rec.(state := VersionError), Rejected(Version), loud)
      case Digits(n, v) => NumberStep(rec, n, v, b, loud)
      case Scanning => Scan(rec, b, loud)
      case ContentDash =>
        var c := Upper(b);
        Take(rec, if c == 'L' then Word(Ength, 0) else if c == 'E' then Word(Ncoding, 0)
                  else if c == 'T' then Word(Ype, 0) else Scanning, loud)
      case Crlf => if b == '\r' then Take(rec, CrlfCr, "") else Scan(rec, b, loud)
      case CrlfCr =>
        if b == '\n' then Take(rec, BodyStart(rec), Trailer(rec)) else Scan(rec, b, loud)
      case SkippingConnection => ConnectionStep(rec, b, loud)
      case Counted =>
        BodyByte(rec.(bodyLength := rec.bodyLength - 1),
                 if rec.bodyLength > 1 then Counted else Done, loud)
      case UntilClose => BodyByte(rec, UntilClose, loud)
      case SizeCr =>
        if b == '\n' then Take(rec, DataStart(rec), Frame(rec, loud)) else BadChunk(rec)
      case Payload =>
        BodyByte(rec.(bodyLength := rec.bodyLength - 1),
                 if rec.bodyLength > 1 then Payload else DataEnd(false, 0), loud)
      case DataEnd(last, i) => DataEndStep(rec, last, i, b, loud)
      case _ => Refuse(rec, p)
  }

  function Apply(c: Conf, mv: Move): Conf {
    Conf(mv.rec, mv.p, c.out + mv.out, c.transf + mv.transf)
  }

  lemma RefuseIsFinal(rec: Rec, p: Place, b: char, loud: string)
    ensures var mv := Step(rec, p, b, loud); !mv.took ==> Terminal(mv.p)
  {
    hide Text;
  }

  datatype Outcome = Outcome(c: Conf, rest: Queue)

  function Run(c: Conf, q: Queue): (r: Outcome)
    ensures Terminal(r.c.p) || r.rest.Empty()
    decreases q.Size()
  {
    if Terminal(c.p) || q.Empty() then Outcome(c, q)
    else
      hide Step;
      RefuseIsFinal(c.rec, c.p, q.Head(), q.Loud());
      var mv := Step(c.rec, c.p, q.Head(), q.Loud());
      if mv.took then Run(Apply(c, mv), q.Tail()) else Outcome(Apply(c, mv), q)
  }

  /** The parser state that a place belongs to. */
  function StateOf(rec: Rec, p: Place): ResponseParserState {
    match p
    case Spaces(_) => SpaceTransition
    case Word(VersionText, _) => Version
    case Word(GzipText, _) => EncodingCheck
    case Word(ChunkedText, _) => ChunkedCheck
    case Word(_, _) => Headers
    case VersionDigit => Version
    case Digits(StatusNumber, _) => Status
    case Digits(LengthNumber, _) => LengthCheck
    case Scanning => Headers
    case ContentDash => Headers
    case Crlf => Headers
    case CrlfCr => Headers
    case SkippingConnection => ConnectionCheck
    case Done => Finished
    case NoBody => Finished
    case Rejected(s) => s
    case _ => BodyState(rec)
  }

  /** What a suspended parser pushes back at a place. */
  function PushedBack(rec: Rec, p: Place): string {
    match p
    case Word(t, i) => if i <= |Text(t)| then Before(t) + Text(t)[..i] else ""
    case VersionDigit => "HTTP/1."
    case Digits(n, v) => Print(BaseOf(n), v.GetOr(0))
    case ContentDash => "CONTENT-"
    case Crlf => "\r\n"
    case CrlfCr => "\r\n\r"
    case SizeCr => (if rec.bodyLength >= 0 then Print(16, rec.bodyLength) else "") + "\r"
    case Payload => (if rec.bodyLength >= 0 then Print(16, rec.bodyLength) else "") + "\r\n"
    case DataEnd(last, i) => (if last then "0\r\n" else "1\r\n1") + (if i == 1 then "\r" else "")
    case _ => ""
  }

  /** Where a call resumes: all that the parser keeps is its state and its record. */
  function Resumed(state: ResponseParserState, next: ResponseParserState, rec: Rec): Place {
    match state
    case SpaceTransition => Spaces(next)
    case Version => Word(VersionText, 0)
    case Status => Digits(StatusNumber, None)
    case Headers => Scanning
    case LengthCheck => Digits(LengthNumber, None)
    case EncodingCheck => Word(GzipText, 0)
    case ChunkedCheck => Word(ChunkedText, 0)
    case ConnectionCheck => SkippingConnection
    case TypeCheck => Scanning
    case BodyNormal => BodyStart(rec)
    case BodyTransformation => BodyStart(rec)
    case Finished => Done
  }
}
