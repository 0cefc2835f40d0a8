/** The reference meaning of the request parser: one byte at a time, nothing ever given back.
    See `ResponseMachine`, whose conventions this module follows. */
module RequestMachine {
  import opened Bytes
  import opened Numbers
  import opened ParserUtils

  datatype RequestParserState =
    | SpaceTransition | Method | Uri | RelativeUri | UriHost | Version | StartLineEnd
    | LocalhostHeaderCheck | Headers | Host | Finished

  datatype HttpMethod = NoMethod | Get | HeadMethod | Post | Put | Delete | Connect | Options | Trace

  datatype RequestState =
    | Ok | GeneralError | VersionError | StartLineEndError | GeneralMethodError
    | UnsupportedMethodError | HostError | AllocationError

  /** One call of `hostCallback`. */
  datatype Call = Call(host: string, port: int)

  datatype Rec = Rec(
    state: RequestState,
    version: HttpVersion,
    verb: HttpMethod,
    port: int,
    isLocalHost: bool,
    calls: seq<Call>)

  const HOST_MAX_SIZE: nat := 255

  /** The reserved zone that `client_new` sets up. */
  const RESERVE: nat := 255

  datatype Token =
    | ConnectText | DeleteText | GetText | HeadText | OptionsText | PostText | PutText | TraceText
    | HttpText | SchemeText | VersionText | LineEnd | XLocal | Ost | Lf | HeadersEnd

  function Text(t: Token): (s: string)
    ensures 0 < |s| <= 12 && NUL !in s
    ensures forall k :: 0 <= k < |s| ==> Upper(s[k]) == s[k]
  {
    match t
    case ConnectText => "ONNECT"
    case DeleteText => "ELETE"
    case GetText => "ET"
    case HeadText => "EAD"
    case OptionsText => "PTIONS"
    case PostText => "OST"
    case PutText => "UT"
    case TraceText => "RACE"
    case HttpText => "HTTP"
    case SchemeText => "://"
    case VersionText => "HTTP/1."
    case LineEnd => "\r\n"
    case XLocal => "X-LOCALHOST:"
    case Ost => "OST:"
    case Lf => "\n"
    case HeadersEnd => "\r\n"
  }

  function Before(t: Token): string {
    match t
    case ConnectText => "C"
    case DeleteText => "D"
    case GetText => "G"
    case HeadText => "H"
    case OptionsText => "O"
    case PostText => "P"
    case PutText => "P"
    case TraceText => "T"
    case SchemeText => "HTTP"
    case Ost => "H"
    case Lf => "\r"
    case HeadersEnd => "\r\n"
    case _ => ""
  }

  predicate IsMethod(t: Token) {
    t in {ConnectText, DeleteText, GetText, HeadText, OptionsText, PostText, PutText, TraceText}
  }

  function MethodOf(t: Token): HttpMethod {
    match t
    case ConnectText => Connect
    case DeleteText => Delete
    case GetText => Get
    case HeadText => HeadMethod
    case OptionsText => Options
    case PostText => Post
    case PutText => Put
    case TraceText => Trace
    case _ => NoMethod
  }

  /** Places; `absolute` tells a host in the request target from one in a Host field. */
  datatype Place =
    | Spaces(next: RequestParserState)
    | Start                                           // before the method
    | Word(t: Token, i: nat)                          // i bytes of Text(t) were seen
    | VersionDigit                                    // after HTTP/1.
    | Relative                                        // in a target without a host
    | LocalCheck                                      // before the first header
    | Scanning                                        // in the headers
    | HostName(absolute: bool, h: string)             // after the lower-cased host h
    | Port(absolute: bool, h: string, v: Option<nat>) // after h and a colon
    | Done
    | Rejected(at: RequestParserState)
    | NoPort                                          // a port without a digit
    | NoHost                                          // a Host field without a host
    | Outside                                         // see `ResponseMachine`; also targets with
                                                      // userinfo or a bad host, and host:port past
                                                      // the reserved zone

  datatype Conf = Conf(rec: Rec, p: Place, out: string)

  predicate Terminal(p: Place) {
    p.Done? || p.Rejected? || p.NoPort? || p.NoHost? || p.Outside?
  }

  datatype Move = Move(rec: Rec, p: Place, out: string, took: bool)

  function Take(rec: Rec, p: Place, out: string): Move { Move(rec, p, out, true) }

  function Refuse(rec: Rec, p: Place): Move { Move(rec, p, "", false) }

  function Scan(rec: Rec, b: char, loud: string): Move {
    Take(rec, if Upper(b) == 'H' then Word(Ost, 0) else if b == '\r' then Word(Lf, 0) else Scanning, loud)
  }

  function RelativeStep(rec: Rec, b: char, loud: string): Move {
    if IsSpace(b) then Take(rec, Spaces(Version), "") else Take(rec, Relative, loud)
  }

  function Matched(rec: Rec, t: Token): (Rec, Place) {
    match t
    case HttpText => (rec, Word(SchemeText, 0))
    case SchemeText => (rec, HostName(true, ""))
    case VersionText => (rec, VersionDigit)
    case LineEnd => (rec, LocalCheck)
    case XLocal =>
      (rec.(isLocalHost := true, calls := rec.calls + [Call("", rec.port)]), Done)
    case Ost => (rec, Spaces(Host))
    case Lf => (rec, Word(HeadersEnd, 0))
    case HeadersEnd => (rec.(state := HostError), Rejected(Headers))
    case _ =>
      if t in {GetText, HeadText, PostText} then (rec.(verb := MethodOf(t)), Spaces(Uri))
      else (rec.(verb := MethodOf(t), state := UnsupportedMethodError), Rejected(Method))
  }

  /** A byte that does not continue the word. */
  function MissStep(rec: Rec, t: Token, b: char, loud: string): Move {
    match t
    case HttpText => RelativeStep(rec, b, loud)
    case SchemeText => RelativeStep(rec, b, loud)
    case VersionText => Refuse(rec.(state := VersionError), Rejected(Version))
    case LineEnd => Refuse(rec.(state := StartLineEndError), Rejected(StartLineEnd))
    case PostText =>
      if Upper(b) == 'U' then Take(rec, Word(PutText, 1), loud)
      else Refuse(rec.(state := GeneralMethodError), Rejected(Method))
    case XLocal => Scan(rec, b, loud)
    case Ost => Scan(rec, b, loud)
    case Lf => Scan(rec, b, loud)
    case HeadersEnd => Scan(rec, b, loud)
    case _ => Refuse(rec.(state := GeneralMethodError), Rejected(Method))
  }

  function WordStep(rec: Rec, t: Token, i: nat, b: char, loud: string): Move {
    if i < |Text(t)| && Upper(b) == Text(t)[i] then
      var (rec', p) := if i + 1 < |Text(t)| then (rec, Word(t, i + 1)) else Matched(rec, t);
      Take(rec', p, loud)
    else MissStep(rec, t, b, loud)
  }

  function MethodStart(c: char): Option<Token> {
    if c == 'C' then Some(ConnectText)
    else if c == 'D' then Some(DeleteText)
    else if c == 'G' then Some(GetText)
    else if c == 'H' then Some(HeadText)
    else if c == 'O' then Some(OptionsText)
    else if c == 'P' then Some(PostText)
    else if c == 'T' then Some(TraceText)
    else None
  }

  predicate IsHostChar(c: char) {
    'a' <= c <= 'z' || '0' <= c <= '9' || c == '-' || c == '.'
  }

  predicate EndsHost(b: char) { IsSpace(b) || b == '\r' }

  /** Where a host was expected, a byte that `extractHost` neither consumes nor accepts. */
  predicate Stuck(b: char) { b != NUL && !IsHostChar(Lower(b)) && b != ':' && !EndsHost(b) }

  /** Where the run of colons and digits that continues at `i` ends. */
  function PortsEnd(s: string, i: nat): (e: nat)
    requires i <= |s|
    ensures i <= e <= |s|
    ensures forall k :: i <= k < e ==> s[k] == ':' || IsDigit(10, s[k])
    ensures e < |s| ==> s[e] != ':' && !IsDigit(10, s[e])
    decreases |s| - i
  {
    if i < |s| && (s[i] == ':' || IsDigit(10, s[i])) then PortsEnd(s, i + 1) else i
  }

  /** The Host values, from their first byte on, for which `checkRequestInner` does not return:
      ports without a host, if any, and then a byte at which it is stuck. */
  predicate SpinsOn(s: string) {
    s != "" && !IsDigit(10, s[0]) && PortsEnd(s, 0) < |s| && Stuck(s[PortsEnd(s, 0)])
  }

  /** The byte after a host, or after its port. An absolute target ends at any byte. */
  function HostOver(rec: Rec, absolute: bool, h: string, b: char): Move {
    if h == "" then Refuse(rec, Outside)
    else if absolute || EndsHost(b) then Refuse(rec.(calls := rec.calls + [Call(h, rec.port)]), Done)
    else Refuse(rec.(state := HostError), Rejected(Host))
  }

  function HostStep(rec: Rec, absolute: bool, h: string, b: char, loud: string): Move {
    var c := Lower(b);
    if IsHostChar(c) then
      if |h| + 1 < HOST_MAX_SIZE then Take(rec, HostName(absolute, h + [c]), loud)
      else if absolute then Refuse(rec, Outside)
      else Take(rec.(state := HostError), Rejected(Host), loud)
    else if absolute && (h == "" || c == '@') then Refuse(rec, Outside)
    else if h == "" then Refuse(rec, NoHost)
    else if c == ':' then
      if |h| + 2 <= RESERVE then Take(rec, Port(absolute, h, None), loud) else Refuse(rec, Outside)
    else HostOver(rec, absolute, h, b)
  }

  function PortStep(rec: Rec, absolute: bool, h: string, v: Option<nat>, b: char, loud: string): Move {
    if IsDigit(10, b) then
      var x := Times(10, v.GetOr(0)) + DigitValue(10, b);
      if x < INT_LIMIT && |h| + 1 + |Print(10, x)| <= RESERVE
      then Take(rec, Port(absolute, h, Some(x)), loud) else Refuse(rec, Outside)
    else match v
      case None => Refuse(rec.(state := HostError), if absolute then Outside else NoPort)
      case Some(x) => HostOver(rec.(port := x), absolute, h, b)
  }

  function EnterStep(rec: Rec, next: RequestParserState, b: char, loud: string): Move {
    match next
    case Uri => WordStep(rec, HttpText, 0, b, loud)
    case Version => WordStep(rec, VersionText, 0, b, loud)
    case Host => HostStep(rec, false, "", b, loud)
    case _ => Refuse(rec, Outside)
  }

  const LOCAL_HEADER: string := "X-LOCALHOST: TRUE\r\n"

  function Step(rec: Rec, p: Place, b: char, loud: string): Move {
    if b == NUL then Refuse(rec, Outside)
    else match p
      case Spaces(next) =>
        if IsSpace(b) then Take(rec, p, "")
        else var mv := EnterStep(rec, next, b, loud); mv.(out := " " + mv.out)
      case Start =>
        (match MethodStart(Upper(b))
         case Some(t) => Take(rec, Word(t, 0), loud)
         case None => Take(rec.(state := GeneralMethodError), Rejected(Method), loud))
      case Word(t, i) => WordStep(rec, t, i, b, loud)
      case VersionDigit =>
        if b == '0' then Take(rec.(version := V10), Word(LineEnd, 0), loud)
        else if b == '1' then Take(rec.(version := V11), Word(LineEnd, 0), loud)
        else Take(rec.(state := VersionError), Rejected(Version), loud)
      case Relative => RelativeStep(rec, b, loud)
      case LocalCheck =>
        if Upper(b) == 'X' then Take(rec, Word(XLocal, 1), loud)
        else var mv := Scan(rec, b, loud); mv.(out := LOCAL_HEADER + mv.out)
      case Scanning => Scan(rec, b, loud)
      case HostName(a, h) => HostStep(rec, a, h, b, loud)
      case Port(a, h, v) => PortStep(rec, a, h, v, b, loud)
      case _ => Refuse(rec, p)
  }

  function Apply(c: Conf, mv: Move): Conf { Conf(mv.rec, mv.p, c.out + mv.out) }

  lemma RefuseIsFinal(rec: Rec, p: Place, b: char, loud: string)
    ensures var mv := Step(rec, p, b, loud); !mv.took ==> Terminal(mv.p)
  {
    hide Text, Print;
  }

  datatype Outcome = Outcome(c: Conf, rest: Queue)

  function Run(c: Conf, q: Queue): (r: Outcome)
    ensures Terminal(r.c.p) || r.rest.Empty()
    decreases q.Size()
  {
    if Terminal(c.p) || q.Empty() then Outcome(c, q)
    else
      hide Step;
      RefuseIsFinal(c.rec, c.p, q.Head(), q.Loud());
      var mv := Step(c.rec, c.p, q.Head(), q.Loud());
      if mv.took then Run(Apply(c, mv), q.Tail()) else Outcome(Apply(c, mv), q)
  }

  function StateOf(p: Place): RequestParserState {
    match p
    case Spaces(_) => SpaceTransition
    case Start => Method
    case Word(t, _) =>
      if IsMethod(t) then Method
      else if t == HttpText || t == SchemeText then Uri
      else if t == VersionText then Version
      else if t == LineEnd then StartLineEnd
      else if t == XLocal then LocalhostHeaderCheck
      else Headers
    case VersionDigit => Version
    case Relative => RelativeUri
    case LocalCheck => LocalhostHeaderCheck
    case Scanning => Headers
    case HostName(a, _) => if a then UriHost else Host
    case Port(a, _, _) => if a then UriHost else Host
    case Rejected(s) => s
    case NoPort => Host
    case _ => Finished
  }

  function PushedBack(p: Place): string {
    match p
    case Word(t, i) => if i <= |Text(t)| then Before(t) + Text(t)[..i] else ""
    case VersionDigit => "HTTP/1."
    case HostName(_, h) => h
    case Port(_, h, v) => h + (":" + Print(10, v.GetOr(0)))
    case _ => ""
  }

  function Resumed(state: RequestParserState, next: RequestParserState): Place {
    match state
    case SpaceTransition => Spaces(next)
    case Method => Start
    case Uri => Word(HttpText, 0)
    case RelativeUri => Relative
    case UriHost => HostName(true, "")
    case Version => Word(VersionText, 0)
    case StartLineEnd => Word(LineEnd, 0)
    case LocalhostHeaderCheck => LocalCheck
    case Headers => Scanning
    case Host => HostName(false, "")
    case Finished => Done
  }

  /** The host text that a place has collected. */
  function HostText(c: Conf): string {
    match c.p
    case HostName(_, h) => h
    case Port(_, h, _) => h
    case Done => if c.rec.calls == [] then "" else c.rec.calls[|c.rec.calls| - 1].host
    case _ => ""
  }
}
