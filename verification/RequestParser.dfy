/** request_parser/requestParser.c, method by method, against `RequestMachine`. The contracts are
    those of `ResponseHeaders`: each method does a piece of the run it was called in. */
module RequestParser {
  import opened Bytes
  import opened Buffers
  import opened Numbers
  import opened ParserUtils
  import opened RequestMachine
  import opened RequestLemmas

  /** The text of a C string in a fixed array. */
  function CString(a: seq<char>): string {
    if a == [] || a[0] == NUL then "" else [a[0]] + CString(a[1..])
  }

  /** The host array when it holds `h` and nothing else. */
  ghost predicate Holds(a: seq<char>, h: string) {
    && |a| == HOST_MAX_SIZE && |h| <= |a| && a[..|h|] == h
    && forall k :: |h| <= k < |a| ==> a[k] == NUL
  }

  class RequestData {
    var parserState: RequestParserState
    var next: RequestParserState
    var isBufferEmpty: bool
    var state: RequestState
    var version: HttpVersion
    var verb: HttpMethod
    const host: array<char>
    var port: int
    var isLocalHost: bool
    /** The calls of `hostCallback` so far. */
    var calls: seq<Call>

    /** `defaultRequestStruct`; the source leaves `next` undefined. */
    constructor ()
      ensures Valid() && parserState == Method && Fields() == FRESH && fresh(host)
      ensures Holds(host[..], "")
    {
      parserState, next, isBufferEmpty, state := Method, Method, false, Ok;
      version, verb, port, isLocalHost, calls := Undefined, NoMethod, 80, false, [];
      host := new char[HOST_MAX_SIZE](_ => NUL);
    }

    function Fields(): Rec
      reads this
    {
      Rec(state, version, verb, port, isLocalHost, calls)
    }

    ghost predicate Valid()
      reads this
    {
      host.Length == HOST_MAX_SIZE && (parserState == SpaceTransition ==> next in {Uri, Version, Host})
    }

    /** `hostCallback(rData->host, rData->port, ...)`. */
    method Callback()
      modifies this`calls
      ensures calls == old(calls) + [Call(CString(host[..]), port)]
    {
      calls := calls + [Call(CString(host[..]), port)];
    }
  }

  const FRESH: Rec := Rec(Ok, Undefined, NoMethod, 80, false, [])

  ghost predicate InScope(r: Outcome, b: Buffer) {
    r.c.p != Outside && RESERVE <= b.infLimit
  }

  ghost predicate Suspended(r: Outcome, s: RequestParserState, rec: Rec, out: string, pending: Queue) {
    && r.c == Conf(rec, r.c.p, out)
    && !Terminal(r.c.p) && StateOf(r.c.p) == s
    && pending == Queue(PushedBack(r.c.p), "")
  }

  ghost predicate Separate(rd: RequestData, bIn: Buffer, bOut: Buffer) {
    Apart(bIn, bOut) && rd.host != bIn.data && rd.host != bOut.data
  }

  lemma WordPushedBack(t: Token, n: nat)
    requires n < |Text(t)|
    ensures PushedBack(Word(t, n)) == Before(t) + Text(t)[..n]
    ensures |Before(t)| + n <= RESERVE
    ensures StateOf(Word(t, n)) == StateOf(Word(t, 0))
  {
  }

  /** `matchFormat` as the request parser calls it: the prefix is what leads to the word. */
  method MatchWord(t: Token, rd: RequestData, bIn: Buffer, bOut: Buffer) returns (ok: bool)
    requires bIn.Valid() && bOut.Valid() && Apart(bIn, bOut)
    modifies rd`isBufferEmpty, bIn, bIn.data, bOut, bOut.data
    ensures bIn.Valid() && bOut.Valid() && bOut.read == old(bOut.read)
    ensures old(rd.isBufferEmpty) ==> rd.isBufferEmpty
    ensures ok ==> rd.isBufferEmpty == old(rd.isBufferEmpty)
    ensures ok || !rd.isBufferEmpty ==> bIn.pending.Size() <= old(bIn.pending).Size()
    ensures var r := Run(Conf(old(rd.Fields()), Word(t, 0), old(bOut.offered)), old(bIn.pending));
            InScope(r, bIn) && !old(rd.isBufferEmpty) ==>
              if ok then
                var (rec, p) := Matched(old(rd.Fields()), t);
                Run(Conf(rec, p, bOut.offered), bIn.pending) == r
              else if rd.isBufferEmpty then
                Suspended(r, StateOf(Word(t, 0)), rd.Fields(), bOut.offered, bIn.pending)
              else
                var d := MissedConf(Conf(rd.Fields(), Word(t, 0), bOut.offered), Missed(t));
                if Terminal(d.p) then r == Outcome(d, bIn.pending) else Run(d, bIn.pending) == r
  {
    hide Buffer.Shape, Queue.Drop, Queue.LoudTake, Run, Step, Text, Matched, Missed, StateOf, PushedBack;
    ghost var c, q := Conf(rd.Fields(), Word(t, 0), bOut.offered), bIn.pending;
    ghost var n := MatchEnd(Text(t), q.Text(), 0);
    WordOutcome(c, t, q);
    if n < |Text(t)| { WordPushedBack(t, n); }
    var starved;
    ok, starved := MatchFormat(Text(t), bIn, bOut, Before(t));
    if starved {
      rd.isBufferEmpty := true;
    }
  }

  /** `checkSpaces`. */
  method CheckSpaces(rd: RequestData, bIn: Buffer, bOut: Buffer) returns (ok: bool)
    requires bIn.Valid() && bOut.Valid() && Apart(bIn, bOut)
    requires rd.next in {Uri, Version, Host}
    modifies rd`isBufferEmpty, bIn, bIn.data, bOut, bOut.data
    ensures bIn.Valid() && bOut.Valid() && bOut.read == old(bOut.read)
    ensures rd.isBufferEmpty == (old(rd.isBufferEmpty) || !ok)
    ensures var r := Run(Conf(old(rd.Fields()), Spaces(rd.next), old(bOut.offered)), old(bIn.pending));
            InScope(r, bIn) && !old(rd.isBufferEmpty) && Live(old(rd.Fields()), Spaces(rd.next)) ==>
              if ok then Run(Conf(rd.Fields(), Resumed(rd.next, rd.next), bOut.offered), bIn.pending) == r
              else r.c.p == Spaces(rd.next) && Suspended(r, SpaceTransition, rd.Fields(), bOut.offered, bIn.pending)
  {
    hide Buffer.Shape, Queue.Drop, Queue.LoudTake, Run, Step;
    ghost var c, q := Conf(rd.Fields(), Spaces(rd.next), bOut.offered), bIn.pending;
    ghost var n := SpacesEnd(q.Text(), 0);
    SpacesRun(c, q, n);
    if n < q.Size() {
      q.DropStep(n);
      if q.Text()[n] == NUL {
        NulIsOutside(c, q.Drop(n));
      } else if Live(rd.Fields(), Spaces(rd.next)) {
        SpacesOver(c, q.Drop(n));
      }
    } else {
      RunEmpty(c, q.Drop(n));
    }
    var b := MoveThroughSpaces(bIn);
    if b == NUL {
      rd.isBufferEmpty := true;
      return false;
    }
    bOut.Write(' ');
    return true;
  }

  /** The table of `extractHttpMethod`. */
  const METHODS: seq<Token> :=
    [ConnectText, DeleteText, GetText, HeadText, OptionsText, PostText, PutText, TraceText]

  function Letter(t: Token): char { if Before(t) == "" then NUL else Before(t)[0] }

  /** The first method from the `i`-th on that begins with `c`. */
  function NextMethod(c: char, i: nat): Option<Token>
    decreases 8 - i
  {
    if i >= 8 then None
    else if Letter(METHODS[i]) == c then Some(METHODS[i])
    else NextMethod(c, i + 1)
  }

  lemma MethodTable(c: char, i: nat)
    ensures NextMethod(c, 0) == MethodStart(c) && NextMethod(c, 8) == None
    ensures i < 8 && Letter(METHODS[i]) != c ==> NextMethod(c, i + 1) == NextMethod(c, i)
    ensures i < 8 && Letter(METHODS[i]) == c ==>
              && NextMethod(c, i) == Some(METHODS[i])
              && IsMethod(METHODS[i]) && StateOf(Word(METHODS[i], 0)) == Method
              && (match NextMethod(c, i + 1)
                  case Some(t) => Missed(METHODS[i]) == GoOn(Word(t, 0))
                  case None => Missed(METHODS[i]) == Error(GeneralMethodError, Method))
  {
    assert NextMethod(c, 8) == None;
    assert NextMethod(c, 7) == if c == 'T' then Some(TraceText) else None;
    assert NextMethod(c, 6) == if c == 'P' then Some(PutText) else NextMethod(c, 7);
    assert NextMethod(c, 5) == if c == 'P' then Some(PostText) else NextMethod(c, 6);
    assert NextMethod(c, 4) == if c == 'O' then Some(OptionsText) else NextMethod(c, 5);
    assert NextMethod(c, 3) == if c == 'H' then Some(HeadText) else NextMethod(c, 4);
    assert NextMethod(c, 2) == if c == 'G' then Some(GetText) else NextMethod(c, 3);
    assert NextMethod(c, 1) == if c == 'D' then Some(DeleteText) else NextMethod(c, 2);
    assert NextMethod(c, 0) == if c == 'C' then Some(ConnectText) else NextMethod(c, 1);
  }

  ghost predicate MethodLeft(r: Outcome, o: Option<Token>, rec: Rec, out: string, pending: Queue) {
    match o
    case Some(t) => Run(Conf(rec, Word(t, 0), out), pending) == r
    case None => r == Outcome(Conf(rec.(state := GeneralMethodError), Rejected(Method), out), pending)
  }

  /** What `extractHttpMethod` leaves. */
  ghost predicate MethodRead(r: Outcome, ok: bool, rd: RequestData, out: string, pending: Queue)
    reads rd
  {
    if ok then Run(Conf(rd.Fields(), Spaces(Uri), out), pending) == r
    else if rd.isBufferEmpty then Suspended(r, Method, rd.Fields(), out, pending)
    else
      r == Outcome(Conf(rd.Fields().(state := if rd.verb == NoMethod then GeneralMethodError
                                              else UnsupportedMethodError), Rejected(Method), out), pending)
  }

  lemma MethodMatched(rec: Rec, t: Token, c: Conf, q: Queue)
    requires IsMethod(t) && c == Conf(Matched(rec, t).0, Matched(rec, t).1, c.out)
    ensures MethodOf(t) != NoMethod
    ensures MethodOf(t) in {Get, HeadMethod, Post} ==> c == Conf(rec.(verb := MethodOf(t)), Spaces(Uri), c.out)
    ensures MethodOf(t) !in {Get, HeadMethod, Post} ==>
              Run(c, q) == Outcome(Conf(rec.(verb := MethodOf(t), state := UnsupportedMethodError), Rejected(Method), c.out), q)
  {
  }

  lemma StartFacts()
    ensures StateOf(Start) == Method && PushedBack(Start) == "" && !Terminal(Start)
  {
  }

  /** `extractHttpMethod`: PUT is tried after POST, from the byte where POST failed. */
  method ExtractHttpMethod(rd: RequestData, bIn: Buffer, bOut: Buffer) returns (ok: bool)
    requires bIn.Valid() && bOut.Valid() && Apart(bIn, bOut)
    modifies rd`isBufferEmpty, rd`verb, bIn, bIn.data, bOut, bOut.data
    ensures bIn.Valid() && bOut.Valid() && bOut.read == old(bOut.read)
    ensures ok && !old(rd.isBufferEmpty) && old(rd.verb) == NoMethod ==> !rd.isBufferEmpty
    ensures var r := Run(Conf(old(rd.Fields()), Start, old(bOut.offered)), old(bIn.pending));
            InScope(r, bIn) && !old(rd.isBufferEmpty) && old(rd.verb) == NoMethod ==>
              MethodRead(r, ok, rd, bOut.offered, bIn.pending)
  {
    hide Buffer.Shape, Run, Step, Text, Matched, StateOf, PushedBack, NextMethod, Letter, Missed, Queue.Size, MethodStart;
    ghost var wasEmpty := rd.isBufferEmpty;
    ghost var r := Run(Conf(rd.Fields(), Start, bOut.offered), bIn.pending);
    ghost var scoped := InScope(r, bIn) && !wasEmpty && rd.verb == NoMethod;
    StartOutcome(Conf(rd.Fields(), Start, bOut.offered), bIn.pending);
    StartFacts();
    var c := ReadAndWrite(bIn, bOut);
    c := Upper(c);
    if c == NUL {
      rd.isBufferEmpty := true;
      assert scoped ==> bIn.pending == Queue("", "");
      return false;
    }
    MethodTable(c, 0);
    var i := 0;
    while i < 8
      invariant 0 <= i <= 8 && bIn.Valid() && bOut.Valid() && bOut.read == old(bOut.read)
      invariant rd.verb == old(rd.verb) && (!wasEmpty ==> !rd.isBufferEmpty)
      invariant scoped ==> MethodLeft(r, NextMethod(c, i), rd.Fields(), bOut.offered, bIn.pending)
    {
      MethodTable(c, i);
      if Letter(METHODS[i]) == c {
        ghost var rec := rd.Fields();
        var found := MatchWord(METHODS[i], rd, bIn, bOut);
        if found {
          MethodMatched(rec, METHODS[i], Conf(Matched(rec, METHODS[i]).0, Matched(rec, METHODS[i]).1, bOut.offered), bIn.pending);
          rd.verb := MethodOf(METHODS[i]);
          break;
        } else if rd.isBufferEmpty {
          break;
        }
      }
      i := i + 1;
    }
    ok := rd.verb in {Get, HeadMethod, Post};
  }

  /** `cleanRelativeUri`. */
  method CleanRelativeUri(rd: RequestData, bIn: Buffer, bOut: Buffer) returns (ok: bool)
    requires bIn.Valid() && bOut.Valid() && Apart(bIn, bOut)
    modifies rd`isBufferEmpty, bIn, bIn.data, bOut, bOut.data
    ensures bIn.Valid() && bOut.Valid() && bOut.read == old(bOut.read)
    ensures rd.isBufferEmpty == (old(rd.isBufferEmpty) || !ok)
    ensures var r := Run(Conf(old(rd.Fields()), Relative, old(bOut.offered)), old(bIn.pending));
            InScope(r, bIn) && !old(rd.isBufferEmpty) ==>
              if ok then Run(Conf(rd.Fields(), Spaces(Version), bOut.offered), bIn.pending) == r
              else Suspended(r, RelativeUri, rd.Fields(), bOut.offered, bIn.pending)
  {
    hide Buffer.Shape, Run, Step, Queue.Size;
    ghost var r := Run(Conf(rd.Fields(), Relative, bOut.offered), bIn.pending);
    RelativeOutcome(Conf(rd.Fields(), Relative, bOut.offered), bIn.pending);
    var c := bIn.Peek();
    while c != NUL && !IsSpace(c)
      invariant bIn.Valid() && bOut.Valid() && bOut.read == old(bOut.read) && c == bIn.Peek()
      invariant rd.isBufferEmpty == old(rd.isBufferEmpty)
      invariant Run(Conf(rd.Fields(), Relative, bOut.offered), bIn.pending) == r
      decreases bIn.pending.Size()
    {
      RelativeOutcome(Conf(rd.Fields(), Relative, bOut.offered), bIn.pending);
      TailSize(bIn.pending);
      var _ := ReadAndWrite(bIn, bOut);
      c := bIn.Peek();
    }
    RelativeOutcome(Conf(rd.Fields(), Relative, bOut.offered), bIn.pending);
    if c == NUL {
      rd.isBufferEmpty := true;
      return false;
    }
    return true;
  }

  /** `extractHttpVersion`. */
  method ExtractHttpVersion(rd: RequestData, bIn: Buffer, bOut: Buffer) returns (ok: bool)
    requires bIn.Valid() && bOut.Valid() && Apart(bIn, bOut)
    modifies rd`isBufferEmpty, rd`version, bIn, bIn.data, bOut, bOut.data
    ensures bIn.Valid() && bOut.Valid() && bOut.read == old(bOut.read)
    ensures var r := Run(Conf(old(rd.Fields()), Word(VersionText, 0), old(bOut.offered)), old(bIn.pending));
            InScope(r, bIn) && !old(rd.isBufferEmpty) && old(rd.version) == Undefined ==>
              if ok then
                !rd.isBufferEmpty && Run(Conf(rd.Fields(), Word(LineEnd, 0), bOut.offered), bIn.pending) == r
              else if rd.isBufferEmpty then
                Suspended(r, Version, rd.Fields(), bOut.offered, bIn.pending)
              else
                r == Outcome(Conf(rd.Fields().(state := VersionError), Rejected(Version), bOut.offered), bIn.pending)
  {
    hide Buffer.Shape, Run, Step, Text, StateOf, Queue.Size;
    VersionFacts(rd.Fields());
    ghost var r := Run(Conf(rd.Fields(), Word(VersionText, 0), bOut.offered), bIn.pending);
    var found := MatchWord(VersionText, rd, bIn, bOut);
    if found {
      ghost var c, q := Conf(rd.Fields(), VersionDigit, bOut.offered), bIn.pending;
      VersionOutcome(c, q);
      var b := ReadAndWrite(bIn, bOut);
      if b == NUL {
        rd.isBufferEmpty := true;
        if q.Empty() {
          bIn.EmptyAtLimit();
          assert "HTTP/1."[..7] + q.held == "HTTP/1.";
        }
        assert c.out + "" == c.out;
        WriteToBufReverse("HTTP/1.", bIn, 7);
        return false;
      }
      if b == '0' {
        rd.version := V10;
      } else if b == '1' {
        rd.version := V11;
      }
    } else if rd.isBufferEmpty {
      return false;
    }
    return rd.version != Undefined;
  }

  lemma VersionFacts(rec: Rec)
    ensures Matched(rec, VersionText) == (rec, VersionDigit)
    ensures StateOf(Word(VersionText, 0)) == StateOf(VersionDigit) == Version
  {
  }

  /** `checkStartLineEnd`. */
  method CheckStartLineEnd(rd: RequestData, bIn: Buffer, bOut: Buffer) returns (ok: bool)
    requires bIn.Valid() && bOut.Valid() && Apart(bIn, bOut)
    modifies rd`isBufferEmpty, bIn, bIn.data, bOut, bOut.data
    ensures bIn.Valid() && bOut.Valid() && bOut.read == old(bOut.read)
    ensures var r := Run(Conf(old(rd.Fields()), Word(LineEnd, 0), old(bOut.offered)), old(bIn.pending));
            InScope(r, bIn) && !old(rd.isBufferEmpty) ==>
              if ok then !rd.isBufferEmpty && Run(Conf(rd.Fields(), LocalCheck, bOut.offered), bIn.pending) == r
              else if rd.isBufferEmpty then Suspended(r, StartLineEnd, rd.Fields(), bOut.offered, bIn.pending)
              else
                r == Outcome(Conf(rd.Fields().(state := StartLineEndError), Rejected(StartLineEnd), bOut.offered), bIn.pending)
  {
    hide Buffer.Shape, Run, Step, Text, Queue.Size;
    ok := MatchWord(LineEnd, rd, bIn, bOut);
  }

  /** `checkLocalHost`: marks the request, or finds the mark and reports a loop. */
  method CheckLocalHost(rd: RequestData, bIn: Buffer, bOut: Buffer) returns (ok: bool)
    requires bIn.Valid() && bOut.Valid() && Apart(bIn, bOut)
    modifies rd`isBufferEmpty, rd`isLocalHost, bIn, bIn.data, bOut, bOut.data
    ensures bIn.Valid() && bOut.Valid() && bOut.read == old(bOut.read)
    ensures !ok ==> rd.isLocalHost == old(rd.isLocalHost)
    ensures var r := Run(Conf(old(rd.Fields()), LocalCheck, old(bOut.offered)), old(bIn.pending));
            InScope(r, bIn) && !old(rd.isBufferEmpty) && !old(rd.isLocalHost) ==>
              if ok then
                && !rd.isBufferEmpty && rd.isLocalHost
                && r == Outcome(Conf(rd.Fields().(calls := rd.calls + [Call("", rd.port)]), Done, bOut.offered), bIn.pending)
              else if rd.isBufferEmpty then Suspended(r, LocalhostHeaderCheck, rd.Fields(), bOut.offered, bIn.pending)
              else Run(Conf(rd.Fields(), Scanning, bOut.offered), bIn.pending) == r
  {
    hide Buffer.Shape, Run, Step, Text, Queue.Size;
    ghost var c0 := Conf(rd.Fields(), LocalCheck, bOut.offered);
    LocalOutcome(c0, bIn.pending);
    var c := Upper(bIn.Peek());
    if c == NUL {
      rd.isBufferEmpty := true;
      return false;
    }
    if c != 'X' {
      WriteToBuf(LOCAL_HEADER, bOut);
    } else {
      ghost var rec := rd.Fields();
      var found := MatchWord(XLocal, rd, bIn, bOut);
      if found {
        RunTerminal(Conf(Matched(rec, XLocal).0, Done, bOut.offered), bIn.pending);
        rd.isLocalHost := true;
      } else if rd.isBufferEmpty {
        return false;
      }
    }
    return rd.isLocalHost;
  }

  /** The branch of `checkHostHeader` for a CR: CR LF CR LF ends the search. */
  method CheckEmptyLine(rd: RequestData, bIn: Buffer, bOut: Buffer) returns (ok: bool)
    requires bIn.Valid() && bOut.Valid() && Apart(bIn, bOut)
    modifies rd`isBufferEmpty, bIn, bIn.data, bOut, bOut.data
    ensures bIn.Valid() && bOut.Valid() && bOut.read == old(bOut.read)
    ensures old(rd.isBufferEmpty) ==> rd.isBufferEmpty
    ensures ok || !rd.isBufferEmpty ==> bIn.pending.Size() <= old(bIn.pending).Size()
    ensures var r := Run(Conf(old(rd.Fields()), Word(Lf, 0), old(bOut.offered)), old(bIn.pending));
            InScope(r, bIn) && !old(rd.isBufferEmpty) ==>
              if ok then
                !rd.isBufferEmpty &&
                r == Outcome(Conf(rd.Fields().(state := HostError), Rejected(Headers), bOut.offered), bIn.pending)
              else if rd.isBufferEmpty then Suspended(r, Headers, rd.Fields(), bOut.offered, bIn.pending)
              else Run(Conf(rd.Fields(), Scanning, bOut.offered), bIn.pending) == r
  {
    hide Buffer.Shape, Run, Step, Text, Queue.Size, Matched, StateOf, PushedBack;
    HeaderTokens(rd.Fields());
    ok := MatchWord(Lf, rd, bIn, bOut);
    if ok {
      ghost var rec := rd.Fields();
      ok := MatchWord(HeadersEnd, rd, bIn, bOut);
      RunTerminal(Conf(rec.(state := HostError), Rejected(Headers), bOut.offered), bIn.pending);
    }
  }

  /** `READ_UP_CHAR` in the headers. */
  method ReadScanned(ghost rec: Rec, bIn: Buffer, bOut: Buffer) returns (c: char)
    requires bIn.Valid() && bOut.Valid() && Apart(bIn, bOut)
    modifies bIn, bIn.data, bOut, bOut.data
    ensures bIn.Valid() && bOut.Valid() && bOut.read == old(bOut.read)
    ensures c != NUL ==> bIn.pending.Size() < old(bIn.pending).Size()
    ensures c == NUL ==> bIn.pending.Size() <= old(bIn.pending).Size()
    ensures var r := Run(Conf(rec, Scanning, old(bOut.offered)), old(bIn.pending));
            r.c.p != Outside ==>
              if c != NUL then Run(Conf(rec, ScanPlace(c), bOut.offered), bIn.pending) == r
              else r == Outcome(Conf(rec, Scanning, bOut.offered), Queue("", "")) && bIn.pending == Queue("", "")
  {
    hide Buffer.Shape, Run, Step, Queue.Size, ScanPlace;
    ScanOutcome(Conf(rec, Scanning, bOut.offered), bIn.pending);
    TailSize(bIn.pending);
    c := ReadAndWrite(bIn, bOut);
    c := Upper(c);
  }

  /** `checkHostHeader`: stops behind the first `host:`, or fails at the first empty line. */
  method CheckHostHeader(rd: RequestData, bIn: Buffer, bOut: Buffer) returns (ok: bool)
    requires bIn.Valid() && bOut.Valid() && Apart(bIn, bOut)
    modifies rd`isBufferEmpty, bIn, bIn.data, bOut, bOut.data
    ensures bIn.Valid() && bOut.Valid() && bOut.read == old(bOut.read)
    ensures var r := Run(Conf(old(rd.Fields()), Scanning, old(bOut.offered)), old(bIn.pending));
            InScope(r, bIn) && !old(rd.isBufferEmpty) ==>
              if ok then !rd.isBufferEmpty && Run(Conf(rd.Fields(), Spaces(Host), bOut.offered), bIn.pending) == r
              else if rd.isBufferEmpty then Suspended(r, Headers, rd.Fields(), bOut.offered, bIn.pending)
              else r == Outcome(Conf(rd.Fields().(state := HostError), Rejected(Headers), bOut.offered), bIn.pending)
  {
    hide Buffer.Shape, Run, Step, Text, Queue.Size, Matched, StateOf, PushedBack;
    ghost var wasEmpty := rd.isBufferEmpty;
    ghost var r := Run(Conf(rd.Fields(), Scanning, bOut.offered), bIn.pending);
    ghost var scoped := InScope(r, bIn) && !wasEmpty;
    HeaderTokens(rd.Fields());
    var hostHeader, headersEnd := false, false;
    var c := ReadScanned(rd.Fields(), bIn, bOut);
    while c != NUL
      invariant bIn.Valid() && bOut.Valid() && bOut.read == old(bOut.read)
      invariant !hostHeader && !headersEnd && (!wasEmpty ==> !rd.isBufferEmpty)
      invariant scoped ==>
                  if c != NUL then Run(Conf(rd.Fields(), ScanPlace(c), bOut.offered), bIn.pending) == r
                  else r == Outcome(Conf(rd.Fields(), Scanning, bOut.offered), Queue("", ""))
                       && bIn.pending == Queue("", "")
      decreases bIn.pending.Size(), c != NUL
    {
      if c == 'H' {
        hostHeader := MatchWord(Ost, rd, bIn, bOut);
      } else if c == '\r' {
        headersEnd := CheckEmptyLine(rd, bIn, bOut);
      }
      if hostHeader || headersEnd || (rd.isBufferEmpty && (c == 'H' || c == '\r')) {
        break;
      }
      c := ReadScanned(rd.Fields(), bIn, bOut);
    }
    if hostHeader {
      return true;
    }
    if headersEnd {
      return false;
    }
    rd.isBufferEmpty := true;
    return false;
  }

  lemma HeaderTokens(rec: Rec)
    ensures Matched(rec, Ost) == (rec, Spaces(Host)) && Matched(rec, Lf) == (rec, Word(HeadersEnd, 0))
    ensures Matched(rec, HeadersEnd) == (rec.(state := HostError), Rejected(Headers))
    ensures StateOf(Word(Ost, 0)) == StateOf(Word(Lf, 0)) == StateOf(Word(HeadersEnd, 0)) == Headers
    ensures StateOf(Scanning) == Headers && PushedBack(Scanning) == ""
  {
  }

  /** The loop over the characters of a host, with `i` of them stored. */
  ghost predicate HostLoop(r: Outcome, absolute: bool, i: nat, c: char, rec: Rec, host0: seq<char>, host: seq<char>,
                           out: string, pending: Queue)
  {
    i <= HOST_MAX_SIZE == |host| == |host0| &&
    if i < HOST_MAX_SIZE then
      && HostLike(host[..i]) && host == host[..i] + host0[i..]
      && Run(Conf(rec, HostName(absolute, host[..i]), out), pending) == r
    else
      && !absolute && IsHostChar(c) && host[0] != NUL
      && r == Outcome(Conf(rec.(state := HostError), Rejected(Host), out), pending)
  }

  lemma LowerFacts(c: char)
    ensures Lower(NUL) == NUL && (Lower(c) == NUL ==> c == NUL) && !IsHostChar(NUL) && !IsHostChar('@')
  {
  }

  /** One more character of a host. */
  method ReadHostChar(absolute: bool, ghost rec: Rec, ghost r: Outcome, ghost host0: seq<char>,
                      host: array<char>, i: nat, c: char, bIn: Buffer, bOut: Buffer)
    returns (j: nat, d: char)
    requires bIn.Valid() && bOut.Valid() && Apart(bIn, bOut)
    requires host != bIn.data && host != bOut.data && host.Length == HOST_MAX_SIZE && i < HOST_MAX_SIZE
    requires c == Lower(bIn.Peek()) && (IsHostChar(c) || (absolute && c == '@'))
    modifies host, bIn, bIn.data, bOut, bOut.data
    ensures bIn.Valid() && bOut.Valid() && bOut.read == old(bOut.read) && j <= HOST_MAX_SIZE
    ensures bIn.pending.Size() < old(bIn.pending).Size()
    ensures if j < HOST_MAX_SIZE then d == Lower(bIn.Peek()) else IsHostChar(d)
    ensures !absolute ==> j == i + 1 && host[i] == c && host[..i] == old(host[..i])
    ensures r.c.p != Outside && HostLoop(r, absolute, i, c, rec, host0, old(host[..]), old(bOut.offered), old(bIn.pending)) ==>
              HostLoop(r, absolute, j, d, rec, host0, host[..], bOut.offered, bIn.pending)
  {
    hide Buffer.Shape, Run, Step, Queue.Size;
    ghost var h, was := host[..i], host[..];
    HostOutcome(Conf(rec, HostName(absolute, h), bOut.offered), bIn.pending);
    LowerFacts(bIn.Peek());
    TailSize(bIn.pending);
    if IsHostChar(c) {
      host[i] := c;
      j := i + 1;
      assert host[..j] == h + [c] && host[j..] == was[j..];
    } else {
      host[0] := NUL;
      j := 0;
    }
    var _ := ReadAndWrite(bIn, bOut);
    d := if j < HOST_MAX_SIZE then Lower(bIn.Peek()) else c;
  }

  /** The loop of `extractHost` and of `checkUriForHost`; only the latter starts over at an `@`. */
  method ReadHostChars(absolute: bool, ghost rec: Rec, host: array<char>, bIn: Buffer, bOut: Buffer)
    returns (i: nat, c: char)
    requires bIn.Valid() && bOut.Valid() && Apart(bIn, bOut)
    requires host != bIn.data && host != bOut.data && host.Length == HOST_MAX_SIZE
    modifies host, bIn, bIn.data, bOut, bOut.data
    ensures bIn.Valid() && bOut.Valid() && bOut.read == old(bOut.read) && i <= HOST_MAX_SIZE
    ensures bIn.pending.Size() <= old(bIn.pending).Size()
    ensures if i < HOST_MAX_SIZE then c == Lower(bIn.Peek()) && !IsHostChar(c) && (absolute ==> c != '@')
            else IsHostChar(c)
    ensures !absolute ==> (i == 0) == !IsHostChar(Lower(old(bIn.Peek())))
    ensures !absolute ==> if i == 0 then bIn.pending == old(bIn.pending) && host[..] == old(host[..]) else host[0] != NUL
    ensures var r := Run(Conf(rec, HostName(absolute, ""), old(bOut.offered)), old(bIn.pending));
            r.c.p != Outside ==>
              HostLoop(r, absolute, i, c, rec, old(host[..]), host[..], bOut.offered, bIn.pending)
  {
    hide Buffer.Shape, Run, Step, Queue.Size;
    ghost var r := Run(Conf(rec, HostName(absolute, ""), bOut.offered), bIn.pending);
    ghost var host0 := host[..];
    i, c := 0, Lower(bIn.Peek());
    assert host[..0] == "" && "" + host0[0..] == host0;
    LowerFacts(c);
    while i < HOST_MAX_SIZE && (IsHostChar(c) || (absolute && c == '@'))
      invariant i <= HOST_MAX_SIZE && bIn.Valid() && bOut.Valid() && bOut.read == old(bOut.read)
      invariant bIn.pending.Size() <= old(bIn.pending).Size()
      invariant if i < HOST_MAX_SIZE then c == Lower(bIn.Peek()) else IsHostChar(c)
      invariant !absolute ==> (i == 0 || IsHostChar(Lower(old(bIn.Peek()))))
      invariant !absolute ==> if i == 0 then bIn.pending == old(bIn.pending) && host[..] == host0 else host[0] != NUL
      invariant r.c.p != Outside ==>
                  HostLoop(r, absolute, i, c, rec, host0, host[..], bOut.offered, bIn.pending)
      decreases bIn.pending.Size()
    {
      i, c := ReadHostChar(absolute, rec, r, host0, host, i, c, bIn, bOut);
    }
  }

  /** How a host with a port, or without one, can come out. */
  ghost predicate HostDecided(r: Outcome, absolute: bool, h: string, valid: bool, rd: RequestData,
                              out: string, pending: Queue)
    reads rd
  {
    if rd.isBufferEmpty then
      && !valid && r.c.p.Port? && r.c.p.absolute == absolute && r.c.p.h == h
      && r.c == Conf(rd.Fields(), r.c.p, out)
      && pending == Queue(":" + Print(10, r.c.p.v.GetOr(0)), "")
      && |h| + 1 + |Print(10, r.c.p.v.GetOr(0))| <= RESERVE
    else if valid then
      && !pending.Empty() && pending.Head() != NUL
      && r == Outcome(HostEnd(Conf(rd.Fields(), Start, out), absolute, h, pending.Head()), pending)
    else
      !absolute && r == Outcome(Conf(rd.Fields().(state := HostError), NoPort, out), pending)
  }

  /** What a port at the start of `s` leaves, as text. */
  ghost predicate PortTurn(s: string, valid: bool, wasEmpty: bool, isEmpty: bool, after: string) {
    var n := DigitsEnd(10, s, 0);
    var starved := n == |s| || NulAt(s, n);
    && isEmpty == (wasEmpty || starved) && valid == (!starved && n > 0)
    && (!starved ==> after == s[n..])
  }

  lemma PortTurnFacts(q: Queue, after: Queue, reserve: nat, ok: bool, was: bool, starved: bool, number: nat)
    requires NumberRead(10, q, after, reserve, ":", ok, starved, number)
    ensures PortTurn(q.Text(), ok, was, was || starved, after.Text())
  {
    hide Print, Value;
    var n := DigitsEnd(10, q.Text(), 0);
    assert q.Drop(n).Text() == q.Text()[n..];
  }

  /** What `getNumber` leaves, in the terms of the machine. */
  lemma PortDecided(c: Conf, q: Queue, rd: RequestData, ok: bool, starved: bool, number: nat, out: string,
                    pending: Queue, reserve: nat)
    requires c.p.Port? && c.p.v == None && c.p.h != "" && |c.p.h| + 2 <= RESERVE <= reserve
    requires NumberRead(10, q, pending, reserve, ":", ok, starved, number)
    requires out == c.out + q.LoudTake(DigitsEnd(10, q.Text(), 0))
    requires rd.isBufferEmpty == starved && rd.Fields() == if ok then c.rec.(port := number) else c.rec
    requires Run(c, q).c.p != Outside
    ensures HostDecided(Run(c, q), c.p.absolute, c.p.h, ok, rd, out, pending)
  {
    hide Run, Print, Value, Queue.LoudTake, Queue.Drop, Terminal;
    var e := DigitsEnd(10, q.Text(), 0);
    q.DropNone();
    ValueNone(10, q.Text());
    ZeroPrints();
    if e < q.Size() { q.DropStep(e); }
    PortOutcome(c, q);
    assert c.out + "" == c.out;
  }

  /** `getNumber` on the port of a host. */
  method ReadPortNumber(absolute: bool, ghost h: string, rd: RequestData, bIn: Buffer, bOut: Buffer)
    returns (valid: bool)
    requires bIn.Valid() && bOut.Valid() && Apart(bIn, bOut)
    modifies rd`isBufferEmpty, rd`port, bIn, bIn.data, bOut, bOut.data
    ensures bIn.Valid() && bOut.Valid() && bOut.read == old(bOut.read)
    ensures old(rd.isBufferEmpty) ==> rd.isBufferEmpty
    ensures !rd.isBufferEmpty ==> bIn.pending.Size() <= old(bIn.pending).Size()
    ensures PortTurn(old(bIn.pending).Text(), valid, old(rd.isBufferEmpty), rd.isBufferEmpty, bIn.pending.Text())
    ensures var r := Run(Conf(old(rd.Fields()), Port(absolute, h, None), old(bOut.offered)), old(bIn.pending));
            InScope(r, bIn) && !old(rd.isBufferEmpty) && h != "" && |h| + 2 <= RESERVE ==>
              HostDecided(r, absolute, h, valid, rd, bOut.offered, bIn.pending)
  {
    hide Buffer.Shape, Run, Step, Print, Value, Queue.LoudTake, DigitsEnd, Buffer.Valid, HostDecided, PortTurn, NumberRead;
    ghost var c, q := Conf(rd.Fields(), Port(absolute, h, None), bOut.offered), bIn.pending;
    ghost var scoped := InScope(Run(c, q), bIn) && !rd.isBufferEmpty && h != "" && |h| + 2 <= RESERVE;
    var number, starved;
    valid, number, starved := GetNumber(10, bIn, bOut, ":");
    PortTurnFacts(q, bIn.pending, bIn.infLimit, valid, rd.isBufferEmpty, starved, number);
    NumberShrinks(q, bIn.pending, bIn.infLimit, valid, starved, number);
    if starved {
      rd.isBufferEmpty := true;
    }
    if valid {
      rd.port := number;
    }
    if scoped {
      PortDecided(c, q, rd, valid, starved, number, bOut.offered, bIn.pending, bIn.infLimit);
    }
  }

  lemma NumberShrinks(q: Queue, after: Queue, reserve: nat, ok: bool, starved: bool, number: nat)
    requires NumberRead(10, q, after, reserve, ":", ok, starved, number)
    ensures !(ok && starved) && (!starved ==> after.Size() <= q.Size())
  {
    hide Print, Value;
  }

  /** The `:` and the port after a host. */
  method ReadPort(absolute: bool, ghost h: string, rd: RequestData, bIn: Buffer, bOut: Buffer) returns (valid: bool)
    requires bIn.Valid() && bOut.Valid() && Apart(bIn, bOut)
    requires !bIn.pending.Empty() && Lower(bIn.pending.Head()) == ':'
    modifies rd`isBufferEmpty, rd`port, bIn, bIn.data, bOut, bOut.data
    ensures bIn.Valid() && bOut.Valid() && bOut.read == old(bOut.read)
    ensures old(rd.isBufferEmpty) ==> rd.isBufferEmpty
    ensures !rd.isBufferEmpty ==> bIn.pending.Size() < old(bIn.pending).Size()
    ensures PortTurn(old(bIn.pending).Text()[1..], valid, old(rd.isBufferEmpty), rd.isBufferEmpty, bIn.pending.Text())
    ensures var r := Run(Conf(old(rd.Fields()), HostName(absolute, h), old(bOut.offered)), old(bIn.pending));
            InScope(r, bIn) && r.c.p != NoHost && !old(rd.isBufferEmpty) && |h| < HOST_MAX_SIZE ==>
              h != "" && HostDecided(r, absolute, h, valid, rd, bOut.offered, bIn.pending)
  {
    hide Buffer.Shape, Run, Step, HostDecided, PortTurn;
    if |h| < HOST_MAX_SIZE {
      HostOutcome(Conf(rd.Fields(), HostName(absolute, h), bOut.offered), bIn.pending);
    }
    TailSize(bIn.pending);
    assert bIn.pending.Tail().Text() == bIn.pending.Text()[1..];
    var _ := ReadAndWrite(bIn, bOut);
    valid := ReadPortNumber(absolute, h, rd, bIn, bOut);
  }

  /** What `extractHost` and `checkUriForHost` leave. */
  ghost predicate HostRead(r: Outcome, absolute: bool, ok: bool, rd: RequestData, host0: seq<char>,
                           out: string, pending: Queue)
    reads rd, rd.host
  {
    var h := HostText(r.c);
    |h| <= |host0| && rd.host.Length > 0 &&
    if ok then
      && !rd.isBufferEmpty && h != ""
      && r == Outcome(Conf(rd.Fields().(calls := rd.calls + [Call(h, rd.port)]), Done, out), pending)
      && HostLike(h) && rd.host[..] == h + host0[|h|..]
    else if rd.isBufferEmpty then
      && Suspended(r, if absolute then UriHost else Host, rd.Fields(), out, pending)
      && HostLike(h) && rd.host[..] == h + host0[|h|..]
    else
      && !absolute && (r.c.p == NoPort || r.c.p == Rejected(Host))
      && r.c == Conf(rd.Fields().(state := HostError), r.c.p, out)
      && rd.host[0] != NUL
  }

  /** Puts a host in front of what was pushed back already. If the reserved zone cannot take both, the
      first bytes of the host are lost, as many as do not fit. */
  method PushBackHost(host: array<char>, i: nat, b: Buffer)
    requires b.Valid() && i <= host.Length && host != b.data
    modifies b, b.data
    ensures b.Valid()
    ensures var q := old(b.pending); var h := old(host[..i]);
            q.held != "" || q.Empty() ==>
              && |q.held| <= b.infLimit && b.pending == Queue(LastOf(h, b.infLimit - |q.held|) + q.held, q.wire)
              && (i + |q.held| <= b.infLimit ==> b.pending == Queue(h + q.held, q.wire))
  {
    hide Buffer.Shape;
    if b.pending.held != "" || b.pending.Empty() { b.HeldPosition(); }
    assert host[..][..i] == host[..i];
    WriteToBufReverse(host[..], b, i);
  }

  lemma HostPlace(a: bool, h: string, v: Option<nat>)
    ensures PushedBack(HostName(a, h)) == h && PushedBack(Port(a, h, v)) == h + (":" + Print(10, v.GetOr(0)))
    ensures StateOf(HostName(a, h)) == StateOf(Port(a, h, v)) == if a then UriHost else Host
  {
  }

  /** What `extractHost` does with a text that does not begin with a host: there may be a port. */
  ghost predicate EmptyTurn(s: string, ok: bool, starved: bool, after: string) {
    if s == "" || s[0] == NUL then !ok && starved
    else if s[0] != ':' then !starved && ok == EndsHost(s[0]) && after == s
    else exists valid :: PortTurn(s[1..], valid, false, starved, after)
           && (starved ==> !ok) && (!starved ==> after != "" && ok == (valid && EndsHost(after[0])))
  }

  /** Trying again goes on as if the port had not been there. */
  lemma EmptyTurnSpins(s: string, ok: bool, starved: bool, after: string)
    requires EmptyTurn(s, ok, starved, after) && (s == "" || !IsHostChar(Lower(s[0])))
    ensures ok || starved ==> !SpinsOn(s) && (s == "" || !Stuck(s[0]))
    ensures !ok && !starved ==>
              && s != "" && SpinsOn(after) == SpinsOn(s)
              && if s[0] != ':' then after == s && Stuck(s[0]) && SpinsOn(s) else |after| < |s| && !Stuck(s[0])
  {
    if s != "" && s[0] == ':' {
      var n := DigitsEnd(10, s[1..], 0);
      PortsEndSkips(s, n);
      DigitIsHostChar();
    }
  }

  lemma DigitIsHostChar()
    ensures forall b :: IsDigit(10, b) ==> IsHostChar(Lower(b)) && b != NUL && !EndsHost(b)
  {
  }

  lemma PortsEndSkips(s: string, n: nat)
    requires s != "" && s[0] == ':' && n <= |s[1..]| && forall k :: 0 <= k < n ==> IsDigit(10, s[1..][k])
    ensures PortsEnd(s, 0) == 1 + n + PortsEnd(s[1..][n..], 0)
  {
    forall k | 1 <= k < 1 + n ensures IsDigit(10, s[k]) {
      assert s[k] == s[1..][k - 1];
    }
    PortsEndFrom(s, 0, 1 + n);
    PortsEndSuffix(s, 1 + n, 0);
    assert s[1..][n..] == s[1 + n..];
  }

  lemma {:induction false} PortsEndFrom(s: string, i: nat, j: nat)
    requires i <= j <= |s| && forall k :: i <= k < j ==> s[k] == ':' || IsDigit(10, s[k])
    ensures PortsEnd(s, i) == PortsEnd(s, j)
    decreases j - i
  {
    if i < j {
      PortsEndFrom(s, i + 1, j);
    }
  }

  lemma {:induction false} PortsEndSuffix(s: string, m: nat, i: nat)
    requires m + i <= |s|
    ensures PortsEnd(s, m + i) == m + PortsEnd(s[m..], i)
    decreases |s| - i
  {
    if m + i < |s| {
      assert s[m..][i] == s[m + i];
      PortsEndSuffix(s, m, i + 1);
    }
  }

  /** A host that a colon follows. */
  method ReadHostPort(absolute: bool, i: nat, rd: RequestData, bIn: Buffer, bOut: Buffer,
                      ghost r: Outcome, ghost host0: seq<char>)
    returns (ok: bool)
    requires rd.Valid() && bIn.Valid() && bOut.Valid() && Separate(rd, bIn, bOut) && i < HOST_MAX_SIZE
    requires Lower(bIn.Peek()) == ':'
    modifies rd`isBufferEmpty, rd`port, bIn, bIn.data, bOut, bOut.data
    ensures bIn.Valid() && bOut.Valid() && bOut.read == old(bOut.read)
    ensures !ok && !rd.isBufferEmpty ==> bIn.pending.Size() <= old(bIn.pending).Size()
    ensures old(rd.isBufferEmpty) ==> rd.isBufferEmpty
    ensures i == 0 && !absolute && !old(rd.isBufferEmpty) ==>
              EmptyTurn(old(bIn.pending).Text(), ok, rd.isBufferEmpty, bIn.pending.Text())
    ensures InScope(r, bIn) && r.c.p != NoHost && !old(rd.isBufferEmpty)
            && HostLoop(r, absolute, i, ':', old(rd.Fields()), host0, rd.host[..], old(bOut.offered), old(bIn.pending)) ==>
              HostRead(r, absolute, ok, rd, host0, bOut.offered, bIn.pending)
  {
    hide Buffer.Shape, Run, Step, Print, StateOf, PushedBack, Buffer.Valid, Queue.Size, Queue.Tail, DigitsEnd;
    ghost var h, s := rd.host[..i], bIn.pending.Text();
    ok := ReadPort(absolute, h, rd, bIn, bOut);
    ghost var valid, after := ok, bIn.pending.Text();
    if !ok && rd.isBufferEmpty {
      HostPlace(absolute, h, if r.c.p.Port? then r.c.p.v else None);
      PushBackHost(rd.host, i, bIn);
      assert PortTurn(s[1..], valid, old(rd.isBufferEmpty), true, after);
      assert !old(rd.isBufferEmpty) ==> PortTurn(s[1..], valid, false, true, bIn.pending.Text());
      return false;
    }
    ok := ok && (absolute || EndsHost(bIn.Peek()));
    assert PortTurn(s[1..], valid, old(rd.isBufferEmpty), rd.isBufferEmpty, after);
  }

  lemma FirstByte(q: Queue)
    ensures q.Empty() == (q.Text() == "") && |q.Text()| == q.Size()
    ensures !q.Empty() ==> q.Head() == q.Text()[0]
  {
  }

  lemma NoColonTurn(s: string)
    requires s == "" || s[0] != ':'
    ensures s == "" || s[0] == NUL ==> forall after :: EmptyTurn(s, false, true, after)
    ensures s != "" && s[0] != NUL ==> EmptyTurn(s, EndsHost(s[0]), false, s)
  {
  }

  /** A host that no colon follows. */
  method ReadHostEnd(absolute: bool, i: nat, c: char, rd: RequestData, bIn: Buffer, bOut: Buffer,
                     ghost r: Outcome, ghost host0: seq<char>)
    returns (ok: bool)
    requires rd.Valid() && bIn.Valid() && bOut.Valid() && Separate(rd, bIn, bOut) && i <= HOST_MAX_SIZE && c != ':'
    requires if i < HOST_MAX_SIZE then c == Lower(bIn.Peek()) && !IsHostChar(c) && (absolute ==> c != '@')
             else IsHostChar(c)
    modifies rd`isBufferEmpty, bIn, bIn.data
    ensures bIn.Valid()
    ensures !ok && !rd.isBufferEmpty ==> bIn.pending == old(bIn.pending)
    ensures old(rd.isBufferEmpty) ==> rd.isBufferEmpty
    ensures i == 0 && !old(rd.isBufferEmpty) && !absolute ==>
              EmptyTurn(old(bIn.pending).Text(), ok, rd.isBufferEmpty, bIn.pending.Text())
    ensures InScope(r, bIn) && r.c.p != NoHost && !old(rd.isBufferEmpty)
            && HostLoop(r, absolute, i, c, old(rd.Fields()), host0, rd.host[..], bOut.offered, old(bIn.pending)) ==>
              HostRead(r, absolute, ok, rd, host0, bOut.offered, bIn.pending)
  {
    hide Buffer.Shape, Run, Step, Print, StateOf, PushedBack, Queue.Size, Queue.Tail, EmptyTurn;
    ghost var h := rd.host[..i];
    LowerFacts(bIn.Peek());
    FirstByte(bIn.pending);
    if i == 0 && !absolute { NoColonTurn(bIn.pending.Text()); }
    if i < HOST_MAX_SIZE {
      HostOutcome(Conf(rd.Fields(), HostName(absolute, h), bOut.offered), bIn.pending);
    }
    if c == NUL {
      HostPlace(absolute, h, None);
      PushBackHost(rd.host, i, bIn);
      rd.isBufferEmpty := true;
      return false;
    }
    return i < HOST_MAX_SIZE && (absolute || EndsHost(bIn.Peek()));
  }

  /** `extractHost` (for a Host field) and `checkUriForHost` (for an absolute target). */
  method ReadHost(absolute: bool, rd: RequestData, bIn: Buffer, bOut: Buffer) returns (ok: bool)
    requires rd.Valid() && bIn.Valid() && bOut.Valid() && Separate(rd, bIn, bOut)
    modifies rd`isBufferEmpty, rd`port, rd.host, bIn, bIn.data, bOut, bOut.data
    ensures bIn.Valid() && bOut.Valid() && bOut.read == old(bOut.read)
    ensures !ok && !rd.isBufferEmpty ==> bIn.pending.Size() <= old(bIn.pending).Size()
    ensures old(rd.isBufferEmpty) ==> rd.isBufferEmpty
    ensures !absolute && IsHostChar(Lower(old(bIn.Peek()))) ==> rd.host[0] != NUL
    ensures !absolute && !IsHostChar(Lower(old(bIn.Peek()))) ==> rd.host[..] == old(rd.host[..])
    ensures !absolute && !IsHostChar(Lower(old(bIn.Peek()))) && !old(rd.isBufferEmpty) ==>
              EmptyTurn(old(bIn.pending).Text(), ok, rd.isBufferEmpty, bIn.pending.Text())
    ensures var r := Run(Conf(old(rd.Fields()), HostName(absolute, ""), old(bOut.offered)), old(bIn.pending));
            InScope(r, bIn) && (absolute || r.c.p != NoHost) && !old(rd.isBufferEmpty) ==>
              HostRead(r, absolute, ok, rd, old(rd.host[..]), bOut.offered, bIn.pending)
  {
    hide Buffer.Shape, Run, Step, HostLoop, HostRead, HostEnd, PortTurn, HostDecided, EmptyTurn, Queue.Size;
    ghost var r := Run(Conf(rd.Fields(), HostName(absolute, ""), bOut.offered), bIn.pending);
    if absolute { HostStays(Conf(rd.Fields(), HostName(absolute, ""), bOut.offered), bIn.pending); }
    ghost var host0, s := rd.host[..], bIn.pending.Text();
    LowerFacts(bIn.Peek());
    var i, c := ReadHostChars(absolute, rd.Fields(), rd.host, bIn, bOut);
    if c == ':' {
      ok := ReadHostPort(absolute, i, rd, bIn, bOut, r, host0);
    } else {
      ok := ReadHostEnd(absolute, i, c, rd, bIn, bOut, r, host0);
    }
  }

  /** `checkUri`: an absolute target gives the host; any other target is passed over. */
  method CheckUri(rd: RequestData, bIn: Buffer, bOut: Buffer) returns (ok: bool)
    requires rd.Valid() && bIn.Valid() && bOut.Valid() && Separate(rd, bIn, bOut) && rd.parserState == Uri
    modifies rd`isBufferEmpty, rd`port, rd`parserState, rd.host, bIn, bIn.data, bOut, bOut.data
    ensures bIn.Valid() && bOut.Valid() && bOut.read == old(bOut.read)
    ensures rd.parserState in {Uri, UriHost, RelativeUri}
    ensures var r := Run(Conf(old(rd.Fields()), Word(HttpText, 0), old(bOut.offered)), old(bIn.pending));
            InScope(r, bIn) && !old(rd.isBufferEmpty) ==>
              if rd.parserState == UriHost then
                (ok || rd.isBufferEmpty) && HostRead(r, true, ok, rd, old(rd.host[..]), bOut.offered, bIn.pending)
              else
                && !ok && rd.host[..] == old(rd.host[..])
                && if rd.isBufferEmpty then Suspended(r, rd.parserState, rd.Fields(), bOut.offered, bIn.pending)
                   else Run(Conf(rd.Fields(), Spaces(Version), bOut.offered), bIn.pending) == r
  {
    hide Buffer.Shape, Run, Step, Text, HostText, PushedBack, Queue.Size, Buffer.Valid, Suspended, HostLike;
    var found := MatchWord(HttpText, rd, bIn, bOut);
    if found {
      found := MatchWord(SchemeText, rd, bIn, bOut);
      if found {
        rd.parserState := UriHost;
        ok := ReadHost(true, rd, bIn, bOut);
        if ok {
          return true;
        } else if rd.isBufferEmpty {
          return false;
        }
      } else if rd.isBufferEmpty {
        return false;
      }
    } else if rd.isBufferEmpty {
      return false;
    }
    rd.parserState := RelativeUri;
    var _ := CleanRelativeUri(rd, bIn, bOut);
    return false;
  }

  lemma {:induction false} CStringOf(a: seq<char>, h: string)
    requires |h| < |a| && a[..|h|] == h && a[|h|] == NUL && NUL !in h
    ensures CString(a) == h
    decreases |h|
  {
    if h != "" {
      assert a[0] == h[0] && h[0] in h;
      assert a[1..][..|h| - 1] == h[1..] && a[1..][|h[1..]|] == NUL;
      CStringOf(a[1..], h[1..]);
    }
  }

  lemma HoldsHost(a: seq<char>, a0: seq<char>, g: string, h: string)
    requires Holds(a0, g) && g <= h && HostLike(h) && a == h + a0[|h|..]
    ensures Holds(a, h) && CString(a) == h
  {
    CStringOf(a, h);
  }

  function Order(s: RequestParserState, next: RequestParserState): nat {
    match s
    case Method => 20
    case SpaceTransition => if next == Uri then 19 else if next == Version then 16 else 11
    case Uri => 18
    case RelativeUri => 17
    case UriHost => 17
    case Version => 15
    case StartLineEnd => 14
    case LocalhostHeaderCheck => 13
    case Headers => 12
    case Host => 10
    case Finished => 0
  }

  ghost predicate AtHost(s: RequestParserState) { s == Host || s == UriHost }

  /** The parser is on its way through the run `r`; its host array holds `g`. */
  ghost predicate Going(r: Outcome, g: string, rd: RequestData, bIn: Buffer, bOut: Buffer)
    reads rd, rd.host, bIn, bOut
  {
    && !rd.isBufferEmpty && rd.parserState != Finished
    && Run(Conf(rd.Fields(), Resumed(rd.parserState, rd.next), bOut.offered), bIn.pending) == r
    && Live(rd.Fields(), Resumed(rd.parserState, rd.next))
    && Holds(rd.host[..], g)
    && (if AtHost(rd.parserState) then r.c.p.Rejected? || r.c.p.NoPort? || g <= HostText(r.c) else g == "")
  }

  /** The parser is where the run ended. */
  ghost predicate AtPlace(r: Outcome, rec: Rec, rd: RequestData, bIn: Buffer, bOut: Buffer)
    reads rd, rd.host, bIn, bOut
  {
    && r.c == Conf(rec, r.c.p, bOut.offered)
    && rd.parserState == StateOf(r.c.p)
    && (r.c.p.Spaces? ==> rd.next == r.c.p.next)
    && rd.isBufferEmpty == !Terminal(r.c.p)
    && (!Terminal(r.c.p) ==> bIn.pending == Queue(PushedBack(r.c.p), ""))
    && (r.c.p == Done ==> bIn.pending == r.rest)
    && (r.c.p.Rejected? || r.c.p.NoPort? || Holds(rd.host[..], HostText(r.c)))
  }

  /** The error that `checkRequestInner` reports for the state in which it failed. */
  function ErrorOf(s: RequestParserState, rec: Rec): RequestState {
    match s
    case Method => if rec.verb == NoMethod then GeneralMethodError else UnsupportedMethodError
    case Uri => HostError
    case UriHost => HostError
    case Version => VersionError
    case StartLineEnd => StartLineEndError
    case Headers => HostError
    case Host => HostError
    case _ => rec.state
  }

  /** What one turn of the switch over `parserState` leaves. */
  ghost predicate Turn(r: Outcome, g: string, success: bool, rd: RequestData, bIn: Buffer, bOut: Buffer)
    reads rd, rd.host, bIn, bOut
  {
    if success && rd.parserState != Finished then Going(r, g, rd, bIn, bOut)
    else if success then r.c.p == Done && AtPlace(r, rd.Fields(), rd, bIn, bOut)
    else
      r.c.p != Done && r.c.p != NoHost &&
      AtPlace(r, if rd.isBufferEmpty then rd.Fields() else rd.Fields().(state := ErrorOf(rd.parserState, rd.Fields())),
              rd, bIn, bOut)
  }

  // One method for each case of the switch in `checkRequestInner`.

  method SpaceTurn(rd: RequestData, bIn: Buffer, bOut: Buffer, ghost r: Outcome, ghost g: string)
    returns (success: bool)
    requires rd.Valid() && bIn.Valid() && bOut.Valid() && Separate(rd, bIn, bOut)
    requires rd.parserState == SpaceTransition
    modifies rd, rd.host, bIn, bIn.data, bOut, bOut.data
    ensures rd.Valid() && bIn.Valid() && bOut.Valid() && bOut.read == old(bOut.read)
    ensures success ==> Order(rd.parserState, rd.next) < Order(old(rd.parserState), old(rd.next))
    ensures InScope(r, bIn) && old(Going(r, g, rd, bIn, bOut)) ==> Turn(r, g, success, rd, bIn, bOut)
  {
    hide Buffer.Shape, Run, Step, Text, PushedBack, Queue.Size, Print, Holds, Buffer.Valid, StateOf, ErrorOf, Apart;
    success := CheckSpaces(rd, bIn, bOut);
    if success {
      rd.parserState := rd.next;
    }
  }

  method MethodTurn(rd: RequestData, bIn: Buffer, bOut: Buffer, ghost r: Outcome, ghost g: string)
    returns (success: bool)
    requires rd.Valid() && bIn.Valid() && bOut.Valid() && Separate(rd, bIn, bOut)
    requires rd.parserState == Method
    modifies rd, rd.host, bIn, bIn.data, bOut, bOut.data
    ensures rd.Valid() && bIn.Valid() && bOut.Valid() && bOut.read == old(bOut.read)
    ensures success ==> Order(rd.parserState, rd.next) < Order(old(rd.parserState), old(rd.next))
    ensures InScope(r, bIn) && old(Going(r, g, rd, bIn, bOut)) ==> Turn(r, g, success, rd, bIn, bOut)
  {
    hide Buffer.Shape, Run, Step, Text, PushedBack, Queue.Size;
    success := ExtractHttpMethod(rd, bIn, bOut);
    if success {
      rd.parserState, rd.next := SpaceTransition, Uri;
    }
  }

  method RelativeTurn(rd: RequestData, bIn: Buffer, bOut: Buffer, ghost r: Outcome, ghost g: string)
    returns (success: bool)
    requires rd.Valid() && bIn.Valid() && bOut.Valid() && Separate(rd, bIn, bOut)
    requires rd.parserState == RelativeUri
    modifies rd, rd.host, bIn, bIn.data, bOut, bOut.data
    ensures rd.Valid() && bIn.Valid() && bOut.Valid() && bOut.read == old(bOut.read)
    ensures success ==> Order(rd.parserState, rd.next) < Order(old(rd.parserState), old(rd.next))
    ensures InScope(r, bIn) && old(Going(r, g, rd, bIn, bOut)) ==> Turn(r, g, success, rd, bIn, bOut)
  {
    hide Buffer.Shape, Run, Step, Text, PushedBack, Queue.Size;
    success := CleanRelativeUri(rd, bIn, bOut);
    if success {
      rd.parserState, rd.next := SpaceTransition, Version;
    }
  }

  method VersionTurn(rd: RequestData, bIn: Buffer, bOut: Buffer, ghost r: Outcome, ghost g: string)
    returns (success: bool)
    requires rd.Valid() && bIn.Valid() && bOut.Valid() && Separate(rd, bIn, bOut)
    requires rd.parserState == Version
    modifies rd, rd.host, bIn, bIn.data, bOut, bOut.data
    ensures rd.Valid() && bIn.Valid() && bOut.Valid() && bOut.read == old(bOut.read)
    ensures success ==> Order(rd.parserState, rd.next) < Order(old(rd.parserState), old(rd.next))
    ensures InScope(r, bIn) && old(Going(r, g, rd, bIn, bOut)) ==> Turn(r, g, success, rd, bIn, bOut)
  {
    hide Buffer.Shape, Run, Step, Text, PushedBack, Queue.Size;
    success := ExtractHttpVersion(rd, bIn, bOut);
    if success {
      rd.parserState := StartLineEnd;
    }
  }

  method LineEndTurn(rd: RequestData, bIn: Buffer, bOut: Buffer, ghost r: Outcome, ghost g: string)
    returns (success: bool)
    requires rd.Valid() && bIn.Valid() && bOut.Valid() && Separate(rd, bIn, bOut)
    requires rd.parserState == StartLineEnd
    modifies rd, rd.host, bIn, bIn.data, bOut, bOut.data
    ensures rd.Valid() && bIn.Valid() && bOut.Valid() && bOut.read == old(bOut.read)
    ensures success ==> Order(rd.parserState, rd.next) < Order(old(rd.parserState), old(rd.next))
    ensures InScope(r, bIn) && old(Going(r, g, rd, bIn, bOut)) ==> Turn(r, g, success, rd, bIn, bOut)
  {
    hide Buffer.Shape, Run, Step, Text, PushedBack, Queue.Size;
    success := CheckStartLineEnd(rd, bIn, bOut);
    if success {
      rd.parserState := LocalhostHeaderCheck;
    }
  }

  method LocalTurn(rd: RequestData, bIn: Buffer, bOut: Buffer, ghost r: Outcome, ghost g: string)
    returns (success: bool)
    requires rd.Valid() && bIn.Valid() && bOut.Valid() && Separate(rd, bIn, bOut)
    requires rd.parserState == LocalhostHeaderCheck
    modifies rd, rd.host, bIn, bIn.data, bOut, bOut.data
    ensures rd.Valid() && bIn.Valid() && bOut.Valid() && bOut.read == old(bOut.read)
    ensures success ==> Order(rd.parserState, rd.next) < Order(old(rd.parserState), old(rd.next))
    ensures InScope(r, bIn) && old(Going(r, g, rd, bIn, bOut)) ==> Turn(r, g, success, rd, bIn, bOut)
  {
    hide Buffer.Shape, Run, Step, Text, PushedBack, Queue.Size, Buffer.Valid, HostLike, ErrorOf;
    var found := CheckLocalHost(rd, bIn, bOut);
    success := found || !rd.isBufferEmpty;
    if found {
      rd.Callback();
      rd.parserState := Finished;
    } else if success {
      rd.parserState := Headers;
    }
  }

  method HeadersTurn(rd: RequestData, bIn: Buffer, bOut: Buffer, ghost r: Outcome, ghost g: string)
    returns (success: bool)
    requires rd.Valid() && bIn.Valid() && bOut.Valid() && Separate(rd, bIn, bOut)
    requires rd.parserState == Headers
    modifies rd, rd.host, bIn, bIn.data, bOut, bOut.data
    ensures rd.Valid() && bIn.Valid() && bOut.Valid() && bOut.read == old(bOut.read)
    ensures success ==> Order(rd.parserState, rd.next) < Order(old(rd.parserState), old(rd.next))
    ensures InScope(r, bIn) && old(Going(r, g, rd, bIn, bOut)) ==> Turn(r, g, success, rd, bIn, bOut)
  {
    hide Buffer.Shape, Run, Step, Text, PushedBack, Queue.Size;
    success := CheckHostHeader(rd, bIn, bOut);
    if success {
      rd.parserState, rd.next := SpaceTransition, Host;
    }
  }


  /** A host that was read to its end: the callback is made and the parser is done. */
  method HostFound(rd: RequestData, ghost host0: seq<char>, ghost g: string, ghost h: string)
    requires |rd.host[..]| == HOST_MAX_SIZE
    modifies rd`calls, rd`parserState
    ensures rd.parserState == Finished
    ensures Holds(host0, g) && g <= h && HostLike(h) && |h| <= |host0| && rd.host[..] == h + host0[|h|..] ==>
              rd.calls == old(rd.calls) + [Call(h, rd.port)] && Holds(rd.host[..], h)
  {
    if Holds(host0, g) && g <= h && HostLike(h) && rd.host[..] == h + host0[|h|..] {
      HoldsHost(rd.host[..], host0, g, h);
    }
    rd.Callback();
    rd.parserState := Finished;
  }

  method UriTurn(rd: RequestData, bIn: Buffer, bOut: Buffer, ghost r: Outcome, ghost g: string)
    returns (success: bool)
    requires rd.Valid() && bIn.Valid() && bOut.Valid() && Separate(rd, bIn, bOut)
    requires rd.parserState == Uri
    modifies rd, rd.host, bIn, bIn.data, bOut, bOut.data
    ensures rd.Valid() && bIn.Valid() && bOut.Valid() && bOut.read == old(bOut.read)
    ensures success ==> Order(rd.parserState, rd.next) < Order(old(rd.parserState), old(rd.next))
    ensures InScope(r, bIn) && old(Going(r, g, rd, bIn, bOut)) ==> Turn(r, g, success, rd, bIn, bOut)
  {
    hide Buffer.Shape, Run, Step, Text, PushedBack, Queue.Size, Buffer.Valid, Print, HostLike, ErrorOf;
    ghost var host0 := rd.host[..];
    var aux := CheckUri(rd, bIn, bOut);
    if !aux && (rd.host[0] != NUL || rd.isBufferEmpty) {
      success := false;
    } else if aux {
      HostFound(rd, host0, g, HostText(r.c));
      success := true;
    } else {
      rd.parserState, rd.next := SpaceTransition, Version;
      success := true;
    }
  }

  method UriHostTurn(rd: RequestData, bIn: Buffer, bOut: Buffer, ghost r: Outcome, ghost g: string)
    returns (success: bool)
    requires rd.Valid() && bIn.Valid() && bOut.Valid() && Separate(rd, bIn, bOut)
    requires rd.parserState == UriHost
    modifies rd, rd.host, bIn, bIn.data, bOut, bOut.data
    ensures rd.Valid() && bIn.Valid() && bOut.Valid() && bOut.read == old(bOut.read)
    ensures success ==> Order(rd.parserState, rd.next) < Order(old(rd.parserState), old(rd.next))
    ensures InScope(r, bIn) && old(Going(r, g, rd, bIn, bOut)) ==> Turn(r, g, success, rd, bIn, bOut)
  {
    hide Buffer.Shape, Run, Step, Text, PushedBack, Queue.Size, Live;
    ghost var host0 := rd.host[..];
    var aux := ReadHost(true, rd, bIn, bOut);
    if !aux && (rd.host[0] != NUL || rd.isBufferEmpty) {
      success := false;
    } else if aux {
      HostFound(rd, host0, g, HostText(r.c));
      success := true;
    } else {
      rd.parserState, rd.next := SpaceTransition, Version;
      success := true;
    }
  }

  /** What one try means for the next: `again` when there is neither a host nor an error. */
  ghost predicate TryLeaves(s: string, again: bool, still: bool, after: string) {
    if again then
      && SpinsOn(after) == SpinsOn(s) && still == (s != "" && Stuck(s[0]))
      && (still ==> after == s && SpinsOn(s))
    else !SpinsOn(s) && (s == "" || !Stuck(s[0]))
  }

  lemma TryLeft(s: string, ok: bool, starved: bool, after: string)
    requires EmptyTurn(s, ok, starved, after) && (s == "" || !IsHostChar(Lower(s[0])))
    ensures TryLeaves(s, !ok && !starved, |after| == |s|, after)
  {
    EmptyTurnSpins(s, ok, starved, after);
  }

  lemma HostLeft(s: string, after: string)
    requires s != "" && IsHostChar(Lower(s[0]))
    ensures forall still :: TryLeaves(s, false, still, after)
  {
  }

  /** A try, and whether it consumed nothing. */
  method TryHost(rd: RequestData, bIn: Buffer, bOut: Buffer) returns (ok: bool, still: bool)
    requires rd.Valid() && bIn.Valid() && bOut.Valid() && Separate(rd, bIn, bOut)
    modifies rd`isBufferEmpty, rd`port, rd.host, bIn, bIn.data, bOut, bOut.data
    ensures bIn.Valid() && bOut.Valid() && bOut.read == old(bOut.read)
    ensures !ok && !rd.isBufferEmpty ==>
              bIn.pending.Size() <= old(bIn.pending).Size() && still == (bIn.pending.Size() == old(bIn.pending).Size())
    ensures old(rd.isBufferEmpty) ==> rd.isBufferEmpty
    ensures old(rd.host[0]) != NUL ==> rd.host[0] != NUL
    ensures old(rd.host[0]) == NUL && !old(rd.isBufferEmpty) ==>
              TryLeaves(old(bIn.pending).Text(), !ok && rd.host[0] == NUL && !rd.isBufferEmpty, still, bIn.pending.Text())
    ensures old(rd.host[0]) == NUL && !ok && rd.host[0] == NUL && !rd.isBufferEmpty && still ==> Stuck(bIn.Peek())
    ensures var r := Run(Conf(old(rd.Fields()), HostName(false, ""), old(bOut.offered)), old(bIn.pending));
            InScope(r, bIn) && r.c.p != NoHost && !old(rd.isBufferEmpty) ==>
              HostRead(r, false, ok, rd, old(rd.host[..]), bOut.offered, bIn.pending)
  {
    hide Buffer.Shape, Buffer.Valid, Run, Step, SpinsOn, Stuck, EmptyTurn, HostRead, TryLeaves, Queue.Size, Queue.Text, Queue.Empty;
    ghost var s, first := bIn.pending.Text(), bIn.Peek();
    var unread := bIn.write - bIn.read;
    bIn.SizeOfContents();
    FirstByte(bIn.pending);
    ok := ReadHost(false, rd, bIn, bOut);
    bIn.SizeOfContents();
    FirstByte(bIn.pending);
    still := bIn.write - bIn.read == unread;
    ghost var after := bIn.pending.Text();
    if IsHostChar(Lower(first)) {
      LowerFacts(first);
      HostLeft(s, after);
    } else if !old(rd.isBufferEmpty) {
      TryLeft(s, ok, rd.isBufferEmpty, after);
      if still { StillStuck(s, !ok && !rd.isBufferEmpty, after); }
    }
  }

  lemma TryOver(s: string, still: bool, after: string)
    ensures TryLeaves(s, false, still, after) ==> TryLeaves(s, false, false, after)
  {
  }

  lemma StillStuck(s: string, again: bool, after: string)
    requires TryLeaves(s, again, true, after)
    ensures again ==> after == s && s != "" && Stuck(s[0])
  {
  }

  /** What one turn in the state `Host` leaves when no host was found before it. */
  ghost predicate Tried(s: string, success: bool, spins: bool, rd: RequestData, after: string)
    reads rd, rd.host
  {
    && TryLeaves(s, success && rd.parserState == Host, spins, after)
    && (success && rd.parserState == Host ==> rd.host.Length > 0 && rd.host[0] == NUL && !rd.isBufferEmpty)
  }

  /** The end of the case `Host`: done, an error, or another try. */
  method HostDecide(aux: bool, rd: RequestData, bIn: Buffer, bOut: Buffer, ghost r: Outcome, ghost g: string,
                    ghost host0: seq<char>)
    returns (success: bool)
    requires rd.Valid() && rd.parserState == Host && |host0| == HOST_MAX_SIZE
    modifies rd`calls, rd`parserState
    ensures rd.Valid() && success == (aux || (rd.host[0] == NUL && !rd.isBufferEmpty))
    ensures rd.parserState == if aux then Finished else Host
    ensures old(HostRead(r, false, aux, rd, host0, bOut.offered, bIn.pending)) && r.c.p != NoHost
            && Holds(host0, g) && (r.c.p.Rejected? || r.c.p.NoPort? || g <= HostText(r.c)) ==>
              (success ==> rd.parserState == Finished) && Turn(r, g, success, rd, bIn, bOut)
  {
    hide Buffer.Shape, Run, Step, Text, PushedBack, Queue.Size, Print;
    success := true;
    if !aux && (rd.host[0] != NUL || rd.isBufferEmpty) {
      success := false;
    } else if aux {
      HostFound(rd, host0, g, HostText(r.c));
    }
  }

  /** The source keeps trying while there is no host and no error. At a byte that it does not consume
      it tries for ever, which the result `spins` reports. */
  method HostTurn(rd: RequestData, bIn: Buffer, bOut: Buffer, ghost r: Outcome, ghost g: string)
    returns (success: bool, spins: bool)
    requires rd.Valid() && bIn.Valid() && bOut.Valid() && Separate(rd, bIn, bOut)
    requires rd.parserState == Host
    modifies rd, rd.host, bIn, bIn.data, bOut, bOut.data
    ensures rd.Valid() && bIn.Valid() && bOut.Valid() && bOut.read == old(bOut.read)
    ensures success && !spins ==>
              rd.parserState == Finished || (rd.parserState == Host && bIn.pending.Size() < old(bIn.pending).Size())
    ensures spins ==> success && rd.parserState == Host && rd.host[0] == NUL && Stuck(bIn.Peek())
    ensures old(rd.host[0]) != NUL ==> !spins && (success ==> rd.parserState == Finished)
    ensures old(rd.host[0]) == NUL && !old(rd.isBufferEmpty) ==>
              Tried(old(bIn.pending).Text(), success, spins, rd, bIn.pending.Text())
    ensures InScope(r, bIn) && r.c.p != NoHost && old(Going(r, g, rd, bIn, bOut)) ==>
              (success ==> rd.parserState == Finished) && Turn(r, g, success, rd, bIn, bOut)
  {
    hide Buffer.Shape, Buffer.Valid, Run, Step, Queue.Size, SpinsOn, Stuck, TryLeaves, HostRead, Turn, Live, HostText;
    ghost var host0, s := rd.host[..], bIn.pending.Text();
    var aux, still := TryHost(rd, bIn, bOut);
    ghost var after := bIn.pending.Text();
    TryOver(s, still, after);
    success := HostDecide(aux, rd, bIn, bOut, r, g, host0);
    spins := success && !aux && still;
  }

  /** One turn of the switch over `parserState`. */
  method OneTurn(rd: RequestData, bIn: Buffer, bOut: Buffer, ghost r: Outcome, ghost g: string)
    returns (success: bool, spins: bool)
    requires rd.Valid() && bIn.Valid() && bOut.Valid() && Separate(rd, bIn, bOut)
    requires rd.parserState != Finished
    modifies rd, rd.host, bIn, bIn.data, bOut, bOut.data
    ensures rd.Valid() && bIn.Valid() && bOut.Valid() && bOut.read == old(bOut.read)
    ensures success && !spins ==>
              || Order(rd.parserState, rd.next) < Order(old(rd.parserState), old(rd.next))
              || (Order(rd.parserState, rd.next) == Order(old(rd.parserState), old(rd.next))
                  && bIn.pending.Size() < old(bIn.pending).Size())
    ensures spins ==> success && rd.parserState == Host && rd.host[0] == NUL && Stuck(bIn.Peek())
    ensures old(rd.parserState) == Host && success ==> rd.parserState in {Host, Finished}
    ensures old(rd.parserState) == Host && old(rd.host[0]) != NUL ==> !spins && (success ==> rd.parserState == Finished)
    ensures old(rd.parserState) == Host && old(rd.host[0]) == NUL && !old(rd.isBufferEmpty) ==>
              Tried(old(bIn.pending).Text(), success, spins, rd, bIn.pending.Text())
    ensures old(rd.parserState) != Host ==> !spins
    ensures InScope(r, bIn) && old(Going(r, g, rd, bIn, bOut)) && (old(rd.parserState) == Host ==> r.c.p != NoHost) ==>
              !spins && Turn(r, g, success, rd, bIn, bOut)
  {
    hide Buffer.Shape, Run, Step, Going, AtPlace, Resumed, ErrorOf, Queue.Size;
    spins := false;
    match rd.parserState {
      case SpaceTransition => success := SpaceTurn(rd, bIn, bOut, r, g);
      case Method => success := MethodTurn(rd, bIn, bOut, r, g);
      case Uri => success := UriTurn(rd, bIn, bOut, r, g);
      case RelativeUri => success := RelativeTurn(rd, bIn, bOut, r, g);
      case UriHost => success := UriHostTurn(rd, bIn, bOut, r, g);
      case Version => success := VersionTurn(rd, bIn, bOut, r, g);
      case StartLineEnd => success := LineEndTurn(rd, bIn, bOut, r, g);
      case LocalhostHeaderCheck => success := LocalTurn(rd, bIn, bOut, r, g);
      case Headers => success := HeadersTurn(rd, bIn, bOut, r, g);
      case Host => success, spins := HostTurn(rd, bIn, bOut, r, g);
    }
  }

  /** Where the run of a NoHost request stands: before the host, or trying. */
  ghost predicate Trying(r: Outcome, g: string, rd: RequestData, bIn: Buffer, bOut: Buffer)
    reads rd, rd.host, bIn, bOut
  {
    if rd.parserState == Host then
      && !rd.isBufferEmpty && rd.host.Length > 0 && rd.host[0] == NUL
      && SpinsOn(bIn.pending.Text()) == SpinsOn(r.rest.Text())
    else Going(r, g, rd, bIn, bOut)
  }

  lemma TryingHost(r: Outcome, g: string, rd: RequestData, bIn: Buffer, bOut: Buffer)
    requires Going(r, g, rd, bIn, bOut) && r.c.p == NoHost
    ensures Trying(r, g, rd, bIn, bOut)
  {
    hide Run, SpinsOn;
    if rd.parserState == Host {
      var c := Conf(rd.Fields(), HostName(false, ""), bOut.offered);
      HostOutcome(c, bIn.pending);
      if !bIn.pending.Empty() && IsHostChar(Lower(bIn.pending.Head())) {
        var h := "" + [Lower(bIn.pending.Head())];
        HostStays(Went(c, HostName(false, h), bIn.pending.Loud()), bIn.pending.Tail());
      }
    }
  }

  /** One turn of a request whose Host field has no host. */
  method TryTurn(rd: RequestData, bIn: Buffer, bOut: Buffer, ghost r: Outcome, ghost g: string)
    returns (success: bool, spins: bool)
    requires rd.Valid() && bIn.Valid() && bOut.Valid() && Separate(rd, bIn, bOut)
    requires rd.parserState != Finished
    modifies rd, rd.host, bIn, bIn.data, bOut, bOut.data
    ensures rd.Valid() && bIn.Valid() && bOut.Valid() && bOut.read == old(bOut.read)
    ensures success && !spins ==>
              || Order(rd.parserState, rd.next) < Order(old(rd.parserState), old(rd.next))
              || (Order(rd.parserState, rd.next) == Order(old(rd.parserState), old(rd.next))
                  && bIn.pending.Size() < old(bIn.pending).Size())
    ensures spins ==> success && rd.parserState == Host && rd.host[0] == NUL && Stuck(bIn.Peek())
    ensures old(rd.parserState) == Host && success ==> rd.parserState in {Host, Finished}
    ensures old(rd.parserState) == Host && old(rd.host[0]) != NUL ==> !spins && (success ==> rd.parserState == Finished)
    ensures old(rd.parserState) == Host && old(rd.host[0]) == NUL && !old(rd.isBufferEmpty) ==>
              Tried(old(bIn.pending).Text(), success, spins, rd, bIn.pending.Text())
    ensures InScope(r, bIn) && old(Going(r, g, rd, bIn, bOut)) && r.c.p != NoHost ==>
              !spins && Turn(r, g, success, rd, bIn, bOut)
    ensures InScope(r, bIn) && r.c.p == NoHost && old(Trying(r, g, rd, bIn, bOut)) ==>
              if success && !spins && rd.parserState != Finished then Trying(r, g, rd, bIn, bOut)
              else spins == SpinsOn(r.rest.Text())
  {
    hide Buffer.Shape, Run, Step, Going, AtPlace, Resumed, ErrorOf, Queue.Size, SpinsOn, Stuck;
    success, spins := OneTurn(rd, bIn, bOut, r, g);
    if InScope(r, bIn) && r.c.p == NoHost && success && Going(r, g, rd, bIn, bOut) {
      TryingHost(r, g, rd, bIn, bOut);
    }
  }

  /** `checkRequestInner`. One call does with the pending bytes what the machine does with them,
      and suspends where the machine stops. `g` is the host text collected by earlier calls.
      `spins` tells that the source would not return: there is no host and no byte is consumed. */
  method CheckRequestInner(rd: RequestData, bIn: Buffer, bOut: Buffer, ghost g: string)
    returns (success: bool, spins: bool)
    requires rd.Valid() && bIn.Valid() && bOut.Valid() && Separate(rd, bIn, bOut)
    modifies rd, rd.host, bIn, bIn.data, bOut, bOut.data
    ensures rd.Valid() && bIn.Valid() && bOut.Valid() && bOut.read == old(bOut.read)
    ensures old(rd.parserState) == Finished ==>
              success && !spins && rd.Fields() == old(rd.Fields()) && rd.parserState == Finished
              && bIn.pending == old(bIn.pending) && bOut.offered == old(bOut.offered)
    ensures spins ==> rd.parserState == Host && rd.host[0] == NUL && Stuck(bIn.Peek())
    ensures old(rd.parserState) == Host ==> spins == (old(rd.host[0]) == NUL && SpinsOn(old(bIn.pending).Text()))
    ensures var r := Run(Conf(old(rd.Fields()), Resumed(old(rd.parserState), old(rd.next)), old(bOut.offered)), old(bIn.pending));
            InScope(r, bIn) && old(Ready(r, g, rd)) ==>
              if r.c.p == NoHost then spins == SpinsOn(r.rest.Text())
              else !spins && success == (r.c.p == Done) && AtPlace(r, rd.Fields(), rd, bIn, bOut)
  {
    hide Buffer.Shape, Run, Step, PushedBack, StateOf, Queue.Size, Resumed, ErrorOf, Order, HostText, Holds, Live, SpinsOn, Stuck;
    ghost var r := Run(Conf(rd.Fields(), Resumed(rd.parserState, rd.next), bOut.offered), bIn.pending);
    ghost var scoped := InScope(r, bIn) && Ready(r, g, rd);
    ghost var atHost, spinning := rd.parserState == Host, rd.host[0] == NUL && SpinsOn(bIn.pending.Text());
    success, spins := true, false;
    rd.isBufferEmpty := false;
    if scoped && r.c.p == NoHost { TryingHost(r, g, rd, bIn, bOut); }
    while success && !spins && rd.parserState != Finished
      invariant rd.Valid() && bIn.Valid() && bOut.Valid() && bOut.read == old(bOut.read)
      invariant old(rd.parserState) == Finished ==>
                  success && !spins && rd.Fields() == old(rd.Fields()) && rd.parserState == Finished
                  && bIn.pending == old(bIn.pending) && bOut.offered == old(bOut.offered)
      invariant spins ==> success && rd.parserState == Host && rd.host[0] == NUL && Stuck(bIn.Peek())
      invariant atHost ==> Spinning(spinning, success, spins, rd, bIn.pending.Text())
      invariant scoped && r.c.p != NoHost ==> !spins
      invariant scoped && r.c.p != NoHost ==>
                  if success && rd.parserState != Finished then Going(r, g, rd, bIn, bOut)
                  else Turn(r, g, success, rd, bIn, bOut)
      invariant scoped && r.c.p == NoHost ==>
                  if success && !spins && rd.parserState != Finished then Trying(r, g, rd, bIn, bOut)
                  else spins == SpinsOn(r.rest.Text())
      decreases success, !spins, Order(rd.parserState, rd.next), bIn.pending.Size()
    {
      success, spins := TryTurn(rd, bIn, bOut, r, g);
    }
    if !success && !rd.isBufferEmpty {
      rd.state := ErrorOf(rd.parserState, rd.Fields());
    }
  }

  /** A call that begins in the state `Host`, between two tries. */
  ghost predicate Spinning(spinning: bool, success: bool, spins: bool, rd: RequestData, text: string)
    reads rd, rd.host
  {
    if success && !spins && rd.parserState != Finished then
      && rd.parserState == Host && !rd.isBufferEmpty && rd.host.Length > 0
      && spinning == (rd.host[0] == NUL && SpinsOn(text))
    else spins == spinning
  }

  /** What a call may rely on: the record is that of the state, and the host array holds what
      earlier calls collected. */
  ghost predicate Ready(r: Outcome, g: string, rd: RequestData)
    reads rd, rd.host
  {
    && rd.parserState != Finished && Live(rd.Fields(), Resumed(rd.parserState, rd.next))
    && Holds(rd.host[..], g)
    && (if AtHost(rd.parserState) then r.c.p.Rejected? || r.c.p.NoPort? || g <= HostText(r.c) else g == "")
  }
}
