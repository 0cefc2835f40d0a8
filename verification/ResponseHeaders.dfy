/** response_parser/responseParser.c: the record, the status line and the headers.

    Each method takes over from the source the buffers it reads and writes. Its contract says
    that the work done is a piece of a run of `ResponseMachine`: what is left to run, from the
    new record, outputs and pending bytes, ends where the old run would have ended. The ghost
    parameter `tr` stands for the output buffer that a method does not touch. */
module ResponseHeaders {
  import opened Bytes
  import opened Buffers
  import opened Numbers
  import opened ParserUtils
  import opened ResponseMachine
  import opened ResponseLemmas

  /** Enough reserved space for every push-back of the response parser. */
  const RESERVE: nat := 17

  class ResponseData {
    var parserState: ResponseParserState
    var next: ResponseParserState
    var isBufferEmpty: bool
    var state: ResponseState
    var version: HttpVersion
    var status: int
    var isClose: bool
    var bodyLength: int
    var cEncoding: ContentEncoding
    var isChunked: bool
    var withTransf: bool

    /** `defaultResponseStruct`; the source leaves `next` undefined. */
    constructor (transform: bool)
      ensures Valid() && parserState == Version && Fields() == Fresh(transform)
    {
      parserState, next, isBufferEmpty, state := Version, Headers, false, ResOk;
      version, status, bodyLength := Undefined, 0, -1;
      cEncoding, isClose, isChunked, withTransf := Identity, false, false, transform;
    }

    function Fields(): Rec
      reads this
    {
      Rec(state, version, status, bodyLength, cEncoding, isClose, isChunked, withTransf)
    }

    ghost predicate Valid()
      reads this
    {
      && (parserState == SpaceTransition ==> Live(Fields(), Spaces(next)))
      && (parserState == Version ==> version == Undefined)
      && (parserState == BodyNormal ==> !withTransf)
      && (parserState == BodyTransformation ==> withTransf)
    }
  }

  function Fresh(transform: bool): Rec {
    Rec(ResOk, Undefined, 0, -1, Identity, false, false, transform)
  }

  /** The contracts speak of runs that stay within the model, with a large enough reserve. */
  ghost predicate InScope(r: Outcome, b: Buffer) {
    r.c.p != Outside && RESERVE <= b.infLimit
  }

  /** The run stopped at a place of state `s`, and that place was pushed back. */
  ghost predicate Suspended(r: Outcome, s: ResponseParserState, rec: Rec, out: string, tr: string,
                            pending: Queue)
  {
    && r.c == Conf(rec, r.c.p, out, tr)
    && !Terminal(r.c.p) && StateOf(rec, r.c.p) == s
    && pending == Queue(PushedBack(rec, r.c.p), "")
  }

  /** `matchFormat` as the header code calls it: the prefix is what leads to the word. */
  method MatchWord(t: Token, rd: ResponseData, bIn: Buffer, bOut: Buffer, ghost tr: string)
    returns (ok: bool)
    requires bIn.Valid() && bOut.Valid() && Apart(bIn, bOut)
    modifies rd`isBufferEmpty, bIn, bIn.data, bOut, bOut.data
    ensures bIn.Valid() && bOut.Valid() && bOut.read == old(bOut.read)
    ensures ok ==> rd.isBufferEmpty == old(rd.isBufferEmpty)
    ensures ok ==> bIn.pending.Size() == old(bIn.pending).Size() - |Text(t)|
    ensures bIn.pending.Size() <= old(bIn.pending).Size() + |Before(t)|
    ensures !rd.isBufferEmpty ==> bIn.pending.Size() <= old(bIn.pending).Size()
    ensures var q := old(bIn.pending);
            !q.Empty() && q.Head() != NUL && Upper(q.Head()) != Text(t)[0] ==>
              !ok && bIn.pending == q && bOut.offered == old(bOut.offered)
    ensures old(rd.isBufferEmpty) ==> rd.isBufferEmpty
    ensures var r := Run(Conf(old(rd.Fields()), Word(t, 0), old(bOut.offered), tr), old(bIn.pending));
            InScope(r, bIn) && !old(rd.isBufferEmpty) ==>
              if ok then
                var (rec, p) := Matched(old(rd.Fields()), t);
                Run(Conf(rec, p, bOut.offered, tr), bIn.pending) == r
              else if rd.isBufferEmpty then
                && r.c.p.Word? && r.c.p.t == t && r.c.p.i < |Text(t)|
                && Suspended(r, StateOf(rd.Fields(), Word(t, 0)), rd.Fields(), bOut.offered, tr, bIn.pending)
              else if t == VersionText then
                r == Outcome(Conf(rd.Fields().(state := VersionError), Rejected(Version), bOut.offered, tr), bIn.pending)
              else
                Run(Conf(rd.Fields(), Missed(t), bOut.offered, tr), bIn.pending) == r
  {
    hide Buffer.Shape, Queue.Drop, Queue.LoudTake, Run, Step, Text, Matched, Buffer.Valid, Before, StateOf, Print, Missed, PushedBack;
    ghost var c, q := Conf(rd.Fields(), Word(t, 0), bOut.offered, tr), bIn.pending;
    var starved;
    ok, starved := MatchFormat(Text(t), bIn, bOut, Before(t));
    if starved {
      rd.isBufferEmpty := true;
    }
    ghost var n := MatchEnd(Text(t), q.Text(), 0);
    WordOutcome(c, t, q);
    q.DropNone();
    if !q.Empty() { q.DropStep(0); }
    assert bOut.offered == c.out + q.LoudTake(n);
    assert c.out + "" == c.out;
    if starved && n == q.Size() && RESERVE <= bIn.infLimit {
      WordPushedBack(rd.Fields(), t, n);
    }
  }

  lemma WordPushedBack(rec: Rec, t: Token, n: nat)
    requires n < |Text(t)|
    ensures PushedBack(rec, Word(t, n)) == Before(t) + Text(t)[..n]
    ensures |Before(t)| + n <= RESERVE
    ensures StateOf(rec, Word(t, n)) == StateOf(rec, Word(t, 0))
  {
  }

  /** `checkSpaces`. */
  method CheckSpaces(rd: ResponseData, bIn: Buffer, bOut: Buffer, ghost tr: string) returns (ok: bool)
    requires bIn.Valid() && bOut.Valid() && Apart(bIn, bOut)
    requires Live(rd.Fields(), Spaces(rd.next))
    modifies rd`isBufferEmpty, bIn, bIn.data, bOut, bOut.data
    ensures bIn.Valid() && bOut.Valid() && bOut.read == old(bOut.read)
    ensures rd.isBufferEmpty == (old(rd.isBufferEmpty) || !ok)
    ensures bIn.pending.Size() <= old(bIn.pending).Size()
    ensures var r := Run(Conf(old(rd.Fields()), Spaces(rd.next), old(bOut.offered), tr), old(bIn.pending));
            InScope(r, bIn) && !old(rd.isBufferEmpty) ==>
              if ok then
                Run(Conf(rd.Fields(), Resumed(rd.next, rd.next, rd.Fields()), bOut.offered, tr), bIn.pending) == r
              else
                r.c.p == Spaces(rd.next) && Suspended(r, SpaceTransition, rd.Fields(), bOut.offered, tr, bIn.pending)
  {
    hide Buffer.Shape, Queue.Drop, Queue.LoudTake, Run, Step;
    ghost var c, q := Conf(rd.Fields(), Spaces(rd.next), bOut.offered, tr), bIn.pending;
    ghost var n := SpacesEnd(q.Text(), 0);
    SpacesRun(c, q, n);
    if n < q.Size() {
      q.DropStep(n);
      if q.Text()[n] == NUL {
        NulIsOutside(c, q.Drop(n));
      } else {
        SpacesOver(c, q.Drop(n));
      }
    } else {
      RunEmpty(c, q.Drop(n));
    }
    var b := MoveThroughSpaces(bIn);
    if b == NUL {
      rd.isBufferEmpty := true;
      return false;
    }
    bOut.Write(' ');
    return true;
  }

  /** `extractHttpVersion`, once HTTP/1. was matched. */
  method ReadVersionDigit(rd: ResponseData, bIn: Buffer, bOut: Buffer, ghost tr: string)
    returns (ok: bool)
    requires bIn.Valid() && bOut.Valid() && Apart(bIn, bOut)
    requires rd.version == Undefined
    modifies rd`isBufferEmpty, rd`version, bIn, bIn.data, bOut, bOut.data
    ensures bIn.Valid() && bOut.Valid() && bOut.read == old(bOut.read)
    ensures ok ==> rd.isBufferEmpty == old(rd.isBufferEmpty)
    ensures old(rd.isBufferEmpty) ==> rd.isBufferEmpty
    ensures ok == (rd.version != Undefined)
    ensures ok || !rd.isBufferEmpty ==> bIn.pending.Size() <= old(bIn.pending).Size()
    ensures var r := Run(Conf(old(rd.Fields()), VersionDigit, old(bOut.offered), tr), old(bIn.pending));
            InScope(r, bIn) && !old(rd.isBufferEmpty) ==>
              if ok then
                Run(Conf(rd.Fields(), Spaces(Status), bOut.offered, tr), bIn.pending) == r
              else if rd.isBufferEmpty then
                Suspended(r, Version, rd.Fields(), bOut.offered, tr, bIn.pending)
              else
                r == Outcome(Conf(rd.Fields().(state := VersionError), Rejected(Version), bOut.offered, tr), bIn.pending)
  {
    hide Buffer.Shape, Run, Step, Print, Buffer.Valid;
    ghost var c, q := Conf(rd.Fields(), VersionDigit, bOut.offered, tr), bIn.pending;
    if q.Empty() {
      RunEmpty(c, q);
    } else if q.Head() == NUL {
      NulIsOutside(c, q);
    } else {
      VersionByte(c, q);
    }
    var b := ReadAndWrite(bIn, bOut);
    if b == NUL {
      rd.isBufferEmpty := true;
      assert c.out + "" == c.out;
      if q.Empty() {
        bIn.EmptyAtLimit();
        assert "HTTP/1."[..7] + q.held == "HTTP/1.";
      }
      WriteToBufReverse("HTTP/1.", bIn, 7);
      return false;
    }
    if b == '0' {
      rd.version := V10;
    } else if b == '1' {
      rd.version := V11;
    }
    return rd.version != Undefined;
  }

  lemma VersionMatched(rec: Rec)
    ensures Matched(rec, VersionText) == (rec, VersionDigit)
    ensures StateOf(rec, Word(VersionText, 0)) == Version
    ensures Missed(VersionText) == Scanning
  {
  }

  /** `extractHttpVersion`. */
  method ExtractHttpVersion(rd: ResponseData, bIn: Buffer, bOut: Buffer, ghost tr: string)
    returns (ok: bool)
    requires bIn.Valid() && bOut.Valid() && Apart(bIn, bOut)
    requires rd.version == Undefined
    modifies rd`isBufferEmpty, rd`version, bIn, bIn.data, bOut, bOut.data
    ensures bIn.Valid() && bOut.Valid() && bOut.read == old(bOut.read)
    ensures ok ==> rd.isBufferEmpty == old(rd.isBufferEmpty)
    ensures ok ==> bIn.pending.Size() < old(bIn.pending).Size()
    ensures old(rd.isBufferEmpty) ==> rd.isBufferEmpty
    ensures !ok ==> rd.version == Undefined
    ensures var r := Run(Conf(old(rd.Fields()), Word(VersionText, 0), old(bOut.offered), tr), old(bIn.pending));
            InScope(r, bIn) && !old(rd.isBufferEmpty) ==>
              if ok then
                Run(Conf(rd.Fields(), Spaces(Status), bOut.offered, tr), bIn.pending) == r
              else if rd.isBufferEmpty then
                Suspended(r, Version, rd.Fields(), bOut.offered, tr, bIn.pending)
              else
                r == Outcome(Conf(rd.Fields().(state := VersionError), Rejected(Version), bOut.offered, tr), bIn.pending)
  {
    hide *;
    ok := MatchWord(VersionText, rd, bIn, bOut, tr);
    VersionMatched(rd.Fields());
    if ok {
      ok := ReadVersionDigit(rd, bIn, bOut, tr);
    }
  }

  /** `getNumber` as `extractStatus` and `checkLength` call it. */
  method ReadNumber(n: Numeral, rd: ResponseData, bIn: Buffer, bOut: Buffer, ghost tr: string)
    returns (ok: bool)
    requires bIn.Valid() && bOut.Valid() && Apart(bIn, bOut) && n != ChunkSize
    modifies rd`isBufferEmpty, rd`status, rd`bodyLength, bIn, bIn.data, bOut, bOut.data
    ensures bIn.Valid() && bOut.Valid() && bOut.read == old(bOut.read)
    ensures ok ==> rd.isBufferEmpty == old(rd.isBufferEmpty)
    ensures old(rd.isBufferEmpty) ==> rd.isBufferEmpty
    ensures ok || !rd.isBufferEmpty ==> bIn.pending.Size() <= old(bIn.pending).Size()
    ensures var r := Run(Conf(old(rd.Fields()), Digits(n, None), old(bOut.offered), tr), old(bIn.pending));
            InScope(r, bIn) && !old(rd.isBufferEmpty) ==>
              if ok then
                Run(Conf(rd.Fields(), Scanning, bOut.offered, tr), bIn.pending) == r
              else if rd.isBufferEmpty then
                Suspended(r, StateOf(rd.Fields(), Digits(n, None)), rd.Fields(), bOut.offered, tr, bIn.pending)
              else if n == LengthNumber then
                Run(Conf(rd.Fields(), Scanning, bOut.offered, tr), bIn.pending) == r
              else
                r == Outcome(Conf(rd.Fields().(state := StatusError), Rejected(Status), bOut.offered, tr), bIn.pending)
  {
    hide Buffer.Shape, Queue.Drop, Queue.LoudTake, Run, Step, Print, Value, StateOf, PushedBack, Buffer.Valid, DigitsEnd;
    ghost var c, q := Conf(rd.Fields(), Digits(n, None), bOut.offered, tr), bIn.pending;
    ghost var e := DigitsEnd(10, q.Text(), 0);
    NumberOutcome(c, n, q);
    q.DropNone();
    var number, starved;
    ok, number, starved := GetNumber(10, bIn, bOut, "");
    if starved {
      rd.isBufferEmpty := true;
      ValueNone(10, q.Text());
      if e == q.Size() && Value(10, q.Text(), e) < INT_LIMIT {
        NumberPushedBack(rd.Fields(), n, Value(10, q.Text(), e), e > 0);
      }
      return;
    }
    if !ok {
      assert c.out + "" == c.out;
      return;
    }
    if n == StatusNumber {
      rd.status := number;
    } else {
      rd.bodyLength := number;
    }
  }

  lemma NumberPushedBack(rec: Rec, n: Numeral, v: nat, some: bool)
    requires n != ChunkSize && v < INT_LIMIT && (!some ==> v == 0)
    ensures var p := Digits(n, if some then Some(v) else None);
            && PushedBack(rec, p) == "" + Print(10, v)
            && |"" + Print(10, v)| <= RESERVE
            && StateOf(rec, p) == StateOf(rec, Digits(n, None))
  {
    PrintFits(10, v);
    assert "" + Print(10, v) == Print(10, v);
  }

  /** `checkEncoding`. */
  method CheckEncoding(rd: ResponseData, bIn: Buffer, bOut: Buffer, ghost tr: string)
    returns (ok: bool)
    requires bIn.Valid() && bOut.Valid() && Apart(bIn, bOut)
    modifies rd`isBufferEmpty, rd`cEncoding, bIn, bIn.data, bOut, bOut.data
    ensures bIn.Valid() && bOut.Valid() && bOut.read == old(bOut.read)
    ensures ok || !rd.isBufferEmpty ==> bIn.pending.Size() <= old(bIn.pending).Size()
    ensures ValueChecked(Run(Conf(old(rd.Fields()), Word(GzipText, 0), old(bOut.offered), tr), old(bIn.pending)),
                         EncodingCheck, old(rd.isBufferEmpty), ok, rd, bIn, bOut, tr)
  {
    hide Buffer.Shape, Run, Step, Matched, StateOf, PushedBack, Text, Queue.Head, Queue.Size;
    TokenFacts(rd.Fields());
    ok := MatchWord(GzipText, rd, bIn, bOut, tr);
    if ok {
      rd.cEncoding := Gzip;
    }
  }

  /** `checkChunked`. */
  method CheckChunked(rd: ResponseData, bIn: Buffer, bOut: Buffer, ghost tr: string)
    returns (ok: bool)
    requires bIn.Valid() && bOut.Valid() && Apart(bIn, bOut)
    modifies rd`isBufferEmpty, rd`isChunked, bIn, bIn.data, bOut, bOut.data
    ensures bIn.Valid() && bOut.Valid() && bOut.read == old(bOut.read)
    ensures ok || !rd.isBufferEmpty ==> bIn.pending.Size() <= old(bIn.pending).Size()
    ensures ValueChecked(Run(Conf(old(rd.Fields()), Word(ChunkedText, 0), old(bOut.offered), tr), old(bIn.pending)),
                         ChunkedCheck, old(rd.isBufferEmpty), ok, rd, bIn, bOut, tr)
  {
    hide Buffer.Shape, Run, Step, Matched, StateOf, PushedBack, Text, Queue.Head, Queue.Size;
    TokenFacts(rd.Fields());
    ok := MatchWord(ChunkedText, rd, bIn, bOut, tr);
    if ok {
      rd.isChunked := true;
    }
  }

  lemma TokenFacts(rec: Rec)
    ensures Matched(rec, GzipText) == (rec.(cEncoding := Gzip), Scanning)
    ensures Matched(rec, ChunkedText) == (rec.(isChunked := true), Scanning)
    ensures StateOf(rec, Word(GzipText, 0)) == EncodingCheck
    ensures StateOf(rec, Word(ChunkedText, 0)) == ChunkedCheck
    ensures Missed(GzipText) == Missed(ChunkedText) == Scanning
  {
  }

  /** `checkConnection`: the value is swallowed and replaced by `close`. */
  method CheckConnection(rd: ResponseData, bIn: Buffer, bOut: Buffer, ghost tr: string)
    returns (ok: bool)
    requires bIn.Valid() && bOut.Valid() && Apart(bIn, bOut)
    modifies rd`isBufferEmpty, rd`isClose, bIn, bIn.data, bOut, bOut.data
    ensures bIn.Valid() && bOut.Valid() && bOut.read == old(bOut.read)
    ensures bIn.pending.Size() <= old(bIn.pending).Size()
    ensures ValueChecked(Run(Conf(old(rd.Fields()), SkippingConnection, old(bOut.offered), tr), old(bIn.pending)),
                         ConnectionCheck, old(rd.isBufferEmpty), ok, rd, bIn, bOut, tr)
  {
    hide Buffer.Shape, Run, Step;
    ghost var c := Conf(rd.Fields(), SkippingConnection, bOut.offered, tr);
    ghost var r := Run(c, bIn.pending);
    var b := bIn.Peek();
    while b != NUL && b != '\r'
      modifies bIn, bIn.data
      invariant bIn.Valid() && b == bIn.Peek()
      invariant bIn.pending.Size() <= old(bIn.pending).Size()
      invariant Run(c, bIn.pending) == r
      decreases bIn.pending.Size()
    {
      SkippedByte(c, bIn.pending);
      var _ := bIn.Read();
      b := bIn.Peek();
    }
    if b == NUL {
      if bIn.pending.Empty() {
        RunEmpty(c, bIn.pending);
      } else {
        NulIsOutside(c, bIn.pending);
      }
      rd.isBufferEmpty := true;
      return false;
    }
    SkippedValue(c, bIn.pending);
    WriteToBuf("close", bOut);
    rd.isClose := true;
    return true;
  }

  /** What reading a header value leaves: the run goes on with the rest of the headers. */
  ghost predicate ValueChecked(r: Outcome, s: ResponseParserState, wasEmpty: bool, ok: bool,
                               rd: ResponseData, bIn: Buffer, bOut: Buffer, tr: string)
    reads rd, bIn, bOut
  {
    && (wasEmpty ==> rd.isBufferEmpty)
    && (ok ==> rd.isBufferEmpty == wasEmpty)
    && (InScope(r, bIn) && !wasEmpty ==>
          if rd.isBufferEmpty then
            Suspended(r, s, rd.Fields(), bOut.offered, tr, bIn.pending)
          else
            Run(Conf(rd.Fields(), Scanning, bOut.offered, tr), bIn.pending) == r)
  }

  /** Where the headers lead: to the spaces before a value, or to the body. */
  function HeaderNext(rec: Rec, next: ResponseParserState): Place {
    if next == Finished then BodyStart(rec) else Spaces(next)
  }

  predicate HeaderTarget(next: ResponseParserState) {
    next in {LengthCheck, EncodingCheck, ChunkedCheck, ConnectionCheck, TypeCheck, Finished}
  }

  /** What a branch of `checkHeaders` leaves. */
  ghost predicate HeaderBranch(r: Outcome, wasEmpty: bool, stop: bool,
                               rd: ResponseData, bIn: Buffer, bOut: Buffer, tr: string)
    reads rd, bIn, bOut
  {
    && (wasEmpty ==> rd.isBufferEmpty)
    && (rd.next == Headers || HeaderTarget(rd.next))
    && stop == (rd.next != Headers || rd.isBufferEmpty)
    && (InScope(r, bIn) && !wasEmpty ==>
          if rd.isBufferEmpty then
            rd.next == Headers && Suspended(r, Headers, rd.Fields(), bOut.offered, tr, bIn.pending)
          else
            Run(Conf(rd.Fields(), if stop then HeaderNext(rd.Fields(), rd.next) else Scanning,
                     bOut.offered, tr), bIn.pending) == r)
  }

  lemma HeaderTokens(rec: Rec)
    ensures |Text(On)| == 2 && |Before(Tent)| == 3 && |Text(Nection)| == 8
    ensures Matched(rec, On) == (rec, Word(Tent, 0))
    ensures Matched(rec, Tent) == (rec, ContentDash)
    ensures Matched(rec, Nection) == (rec, Spaces(ConnectionCheck))
    ensures Matched(rec, Ength) == (rec, Spaces(LengthCheck))
    ensures Matched(rec, Ncoding) == (rec, Spaces(EncodingCheck))
    ensures Matched(rec, Ype) == (rec, Spaces(TypeCheck))
    ensures Matched(rec, Ransfer) == (rec, Spaces(ChunkedCheck))
    ensures Matched(rec, Lf) == (rec, Crlf)
    ensures forall t | t !in {VersionText, GzipText, ChunkedText} :: StateOf(rec, Word(t, 0)) == Headers
    ensures StateOf(rec, ContentDash) == StateOf(rec, Crlf) == StateOf(rec, CrlfCr) == Headers
    ensures StateOf(rec, Scanning) == Headers && PushedBack(rec, Scanning) == ""
    ensures PushedBack(rec, ContentDash) == "CONTENT-"
    ensures PushedBack(rec, Crlf) == "\r\n" && PushedBack(rec, CrlfCr) == "\r\n\r"
  {
  }

  lemma TentPushedBack(rec: Rec, i: nat)
    ensures i < |Text(Tent)| ==> PushedBack(rec, Word(Tent, i)) != ""
    ensures i < |Text(Tent)| ==> PushedBack(rec, Word(Tent, i))[0] == 'C'
    ensures Upper('C') != Text(Nection)[0]
  {
  }

  /** `writePrefix`: an empty buffer holds the prefix again. */
  method GiveBackPrefix(prefix: string, b: Buffer)
    requires b.Valid()
    modifies b, b.data
    ensures b.Valid()
    ensures old(b.pending).Empty() && |prefix| <= b.infLimit ==> b.pending == Queue(prefix, "")
  {
    hide Buffer.Shape;
    if b.pending.Empty() { b.EmptyAtLimit(); }
    assert prefix[..|prefix|] + "" == prefix;
    WriteToBufReverse(prefix, b, |prefix|);
  }

  /** `checkHeaders` after CONTENT-. */
  method HeaderContent(rd: ResponseData, bIn: Buffer, bOut: Buffer, ghost tr: string)
    returns (stop: bool)
    requires bIn.Valid() && bOut.Valid() && Apart(bIn, bOut) && rd.next == Headers
    modifies rd`isBufferEmpty, rd`next, bIn, bIn.data, bOut, bOut.data
    ensures bIn.Valid() && bOut.Valid() && bOut.read == old(bOut.read)
    ensures rd.next != Headers || !rd.isBufferEmpty ==> bIn.pending.Size() <= old(bIn.pending).Size()
    ensures HeaderBranch(Run(Conf(old(rd.Fields()), ContentDash, old(bOut.offered), tr), old(bIn.pending)),
                         old(rd.isBufferEmpty), stop, rd, bIn, bOut, tr)
  {
    hide Buffer.Shape, Run, Step, Matched, StateOf, PushedBack, Text, Queue.Size, Before;
    HeaderTokens(rd.Fields());
    ghost var c, q := Conf(rd.Fields(), ContentDash, bOut.offered, tr), bIn.pending;
    TailSize(q);
    if q.Empty() {
      RunEmpty(c, q);
    } else if q.Head() == NUL {
      NulIsOutside(c, q);
    } else {
      ContentByte(c, q);
    }
    var aux := ReadAndWrite(bIn, bOut);
    aux := Upper(aux);
    if aux == NUL {
      rd.isBufferEmpty := true;
      assert c.out + "" == c.out;
      GiveBackPrefix("CONTENT-", bIn);
    } else if aux == 'L' || aux == 'E' || aux == 'T' {
      var t := if aux == 'L' then Ength else if aux == 'E' then Ncoding else Ype;
      var ok := MatchWord(t, rd, bIn, bOut, tr);
      if ok {
        rd.next := if aux == 'L' then LengthCheck else if aux == 'E' then EncodingCheck else TypeCheck;
      }
    }
    stop := rd.next != Headers || rd.isBufferEmpty;
  }

  /** The branch of `checkHeaders` for a C. */
  method HeaderC(rd: ResponseData, bIn: Buffer, bOut: Buffer, ghost tr: string) returns (stop: bool)
    requires bIn.Valid() && bOut.Valid() && Apart(bIn, bOut) && rd.next == Headers
    modifies rd`isBufferEmpty, rd`next, bIn, bIn.data, bOut, bOut.data
    ensures bIn.Valid() && bOut.Valid() && bOut.read == old(bOut.read)
    ensures rd.next != Headers || !rd.isBufferEmpty ==> bIn.pending.Size() <= old(bIn.pending).Size()
    ensures HeaderBranch(Run(Conf(old(rd.Fields()), Word(On, 0), old(bOut.offered), tr), old(bIn.pending)),
                         old(rd.isBufferEmpty), stop, rd, bIn, bOut, tr)
  {
    hide Buffer.Shape, Run, Step, Matched, StateOf, PushedBack, Text, Queue.Size, Buffer.Valid, Terminal;
    ghost var r := Run(Conf(rd.Fields(), Word(On, 0), bOut.offered, tr), bIn.pending);
    HeaderTokens(rd.Fields());
    var ok := MatchWord(On, rd, bIn, bOut, tr);
    if ok {
      ok := MatchWord(Tent, rd, bIn, bOut, tr);
      if ok {
        stop := HeaderContent(rd, bIn, bOut, tr);
        return;
      } else {
        // When TENT- starved, its C is back in front and the next match stops at once.
        if rd.isBufferEmpty && r.c.p.Word? {
          assert r.c.p.t == Tent ==> r.c.p == Word(Tent, r.c.p.i);
          TentPushedBack(rd.Fields(), r.c.p.i);
        }
        ok := MatchWord(Nection, rd, bIn, bOut, tr);
        if ok {
          rd.next := ConnectionCheck;
        }
      }
    }
    stop := rd.next != Headers || rd.isBufferEmpty;
  }

  /** What `checkHeaders` writes instead of the empty line. */
  method WriteTrailer(rd: ResponseData, bOut: Buffer)
    requires bOut.Valid()
    modifies bOut, bOut.data
    ensures bOut.Took(Trailer(rd.Fields()))
  {
    hide Buffer.Shape;
    ghost var o := bOut.offered;
    if !rd.isChunked && rd.withTransf {
      WriteToBuf("Transfer-Encoding: chunked\r\n", bOut);
    }
    if !rd.isClose {
      WriteToBuf("Connection: close\r\n", bOut);
    }
    WriteToBuf("\r\n", bOut);
    assert bOut.offered == o + Trailer(rd.Fields());
  }

  /** Suspends on CR LF or CR LF CR. */
  method PushBackEnd(text: string, rd: ResponseData, bIn: Buffer)
    requires bIn.Valid()
    modifies rd`isBufferEmpty, bIn, bIn.data
    ensures bIn.Valid() && rd.isBufferEmpty
    ensures old(bIn.pending).Empty() && |text| <= bIn.infLimit ==> bIn.pending == Queue(text, "")
  {
    hide Buffer.Shape;
    rd.isBufferEmpty := true;
    if bIn.pending.Empty() { bIn.EmptyAtLimit(); }
    assert text[..|text|] + "" == text;
    WriteToBufReverse(text, bIn, |text|);
  }

  /** The branch of `checkHeaders` for a CR, once CR LF was seen. */
  method HeaderEnd(rd: ResponseData, bIn: Buffer, bOut: Buffer, ghost tr: string) returns (stop: bool)
    requires bIn.Valid() && bOut.Valid() && Apart(bIn, bOut) && rd.next == Headers
    modifies rd`isBufferEmpty, rd`next, bIn, bIn.data, bOut, bOut.data
    ensures bIn.Valid() && bOut.Valid() && bOut.read == old(bOut.read)
    ensures rd.next != Headers || !rd.isBufferEmpty ==> bIn.pending.Size() <= old(bIn.pending).Size()
    ensures HeaderBranch(Run(Conf(old(rd.Fields()), Crlf, old(bOut.offered), tr), old(bIn.pending)),
                         old(rd.isBufferEmpty), stop, rd, bIn, bOut, tr)
  {
    hide Buffer.Shape, Run, Step, StateOf, PushedBack, Queue.Size, Trailer, BodyStart, Buffer.Valid;
    HeaderTokens(rd.Fields());
    ghost var c := Conf(rd.Fields(), Crlf, bOut.offered, tr);
    EndByte(c, bIn.pending);
    TailSize(bIn.pending);
    var aux := bIn.Peek();
    if aux == '\r' {
      var _ := bIn.Read();
      EndByte(At(c, CrlfCr), bIn.pending);
      TailSize(bIn.pending);
      aux := bIn.Peek();
      if aux == '\n' {
        var _ := bIn.Read();
        rd.next := Finished;
        WriteTrailer(rd, bOut);
      } else if aux == NUL {
        PushBackEnd("\r\n\r", rd, bIn);
      }
    } else if aux == NUL {
      PushBackEnd("\r\n", rd, bIn);
    }
    stop := rd.next != Headers || rd.isBufferEmpty;
  }

  lemma EndByte(c: Conf, q: Queue)
    requires c.p == Crlf || c.p == CrlfCr
    ensures q.Empty() ==> Run(c, q) == Outcome(c, q)
    ensures !q.Empty() && q.Head() == NUL ==> Run(c, q).c.p == Outside
    ensures !q.Empty() && c.p == Crlf && q.Head() == '\r' ==> Run(c, q) == Run(At(c, CrlfCr), q.Tail())
    ensures !q.Empty() && c.p == CrlfCr && q.Head() == '\n' ==>
              Run(c, q) == Run(Conf(c.rec, BodyStart(c.rec), c.out + Trailer(c.rec), c.transf), q.Tail())
    ensures !q.Empty() && q.Head() != NUL && q.Head() != (if c.p == Crlf then '\r' else '\n') ==>
              Run(c, q) == Run(At(c, Scanning), q)
  {
    hide Run, Step, Trailer, BodyStart;
    if q.Empty() {
      RunEmpty(c, q);
    } else if q.Head() == NUL {
      NulIsOutside(c, q);
    } else {
      CrlfByte(c, q);
    }
  }

  /** The branch of `checkHeaders` for a CR. */
  method HeaderCr(rd: ResponseData, bIn: Buffer, bOut: Buffer, ghost tr: string) returns (stop: bool)
    requires bIn.Valid() && bOut.Valid() && Apart(bIn, bOut) && rd.next == Headers
    modifies rd`isBufferEmpty, rd`next, bIn, bIn.data, bOut, bOut.data
    ensures bIn.Valid() && bOut.Valid() && bOut.read == old(bOut.read)
    ensures rd.next != Headers || !rd.isBufferEmpty ==> bIn.pending.Size() <= old(bIn.pending).Size()
    ensures HeaderBranch(Run(Conf(old(rd.Fields()), Word(Lf, 0), old(bOut.offered), tr), old(bIn.pending)),
                         old(rd.isBufferEmpty), stop, rd, bIn, bOut, tr)
  {
    hide Buffer.Shape, Run, Step, Matched, StateOf, PushedBack, Text, Queue.Head, Queue.Size;
    HeaderTokens(rd.Fields());
    var ok := MatchWord(Lf, rd, bIn, bOut, tr);
    if ok {
      stop := HeaderEnd(rd, bIn, bOut, tr);
    } else {
      stop := rd.isBufferEmpty;
    }
  }

  /** The branch of `checkHeaders` for a T. */
  method HeaderT(rd: ResponseData, bIn: Buffer, bOut: Buffer, ghost tr: string) returns (stop: bool)
    requires bIn.Valid() && bOut.Valid() && Apart(bIn, bOut) && rd.next == Headers
    modifies rd`isBufferEmpty, rd`next, bIn, bIn.data, bOut, bOut.data
    ensures bIn.Valid() && bOut.Valid() && bOut.read == old(bOut.read)
    ensures rd.next != Headers || !rd.isBufferEmpty ==> bIn.pending.Size() <= old(bIn.pending).Size()
    ensures HeaderBranch(Run(Conf(old(rd.Fields()), Word(Ransfer, 0), old(bOut.offered), tr), old(bIn.pending)),
                         old(rd.isBufferEmpty), stop, rd, bIn, bOut, tr)
  {
    hide Buffer.Shape, Run, Step, Matched, StateOf, PushedBack, Text, Queue.Head, Queue.Size;
    HeaderTokens(rd.Fields());
    var ok := MatchWord(Ransfer, rd, bIn, bOut, tr);
    if ok {
      rd.next := ChunkedCheck;
    }
    stop := rd.next != Headers || rd.isBufferEmpty;
  }

  /** The loop body of `checkHeaders`, for the byte `b` that was just copied. */
  method HeaderByte(b: char, rd: ResponseData, bIn: Buffer, bOut: Buffer, ghost tr: string)
    returns (stop: bool)
    requires bIn.Valid() && bOut.Valid() && Apart(bIn, bOut) && rd.next == Headers
    modifies rd`isBufferEmpty, rd`next, bIn, bIn.data, bOut, bOut.data
    ensures bIn.Valid() && bOut.Valid() && bOut.read == old(bOut.read)
    ensures rd.next != Headers || !rd.isBufferEmpty ==> bIn.pending.Size() <= old(bIn.pending).Size()
    ensures old(rd.isBufferEmpty) || HeaderBranch(
              Run(Conf(old(rd.Fields()), ScanPlace(b), old(bOut.offered), tr), old(bIn.pending)),
              old(rd.isBufferEmpty), stop, rd, bIn, bOut, tr)
    ensures rd.next == Headers || HeaderTarget(rd.next)
    ensures !stop ==> bIn.pending.Size() <= old(bIn.pending).Size()
    ensures !stop ==> rd.next == Headers && (rd.isBufferEmpty ==> old(rd.isBufferEmpty))
  {
    hide Buffer.Shape, Run, Step, Matched, StateOf, PushedBack, Text, Queue.Size;
    if b == 'C' {
      stop := HeaderC(rd, bIn, bOut, tr);
    } else if b == 'T' {
      stop := HeaderT(rd, bIn, bOut, tr);
    } else if b == '\r' {
      stop := HeaderCr(rd, bIn, bOut, tr);
    } else {
      stop := false;
    }
  }

  /** `checkHeaders`: copies header text until a value of interest or the end of the headers.
      Every successful call consumes at least one byte. */
  method CheckHeaders(rd: ResponseData, bIn: Buffer, bOut: Buffer, ghost tr: string)
    returns (ok: bool)
    requires bIn.Valid() && bOut.Valid() && Apart(bIn, bOut)
    modifies rd`isBufferEmpty, rd`next, bIn, bIn.data, bOut, bOut.data
    ensures bIn.Valid() && bOut.Valid() && bOut.read == old(bOut.read)
    ensures ok ==> bIn.pending.Size() < old(bIn.pending).Size()
    ensures ok == (rd.next != Headers) && (ok ==> HeaderTarget(rd.next))
    ensures var r := Run(Conf(old(rd.Fields()), Scanning, old(bOut.offered), tr), old(bIn.pending));
            InScope(r, bIn) && !old(rd.isBufferEmpty) ==>
              if ok then
                && !rd.isBufferEmpty
                && Run(Conf(rd.Fields(), HeaderNext(rd.Fields(), rd.next), bOut.offered, tr), bIn.pending) == r
              else
                rd.isBufferEmpty && Suspended(r, Headers, rd.Fields(), bOut.offered, tr, bIn.pending)
  {
    hide Buffer.Shape, Run, Step, Matched, StateOf, PushedBack, Text, Queue.Size, HeaderNext;
    ghost var c, wasEmpty := Conf(rd.Fields(), Scanning, bOut.offered, tr), rd.isBufferEmpty;
    ghost var r := Run(c, bIn.pending);
    HeaderTokens(rd.Fields());
    rd.next := Headers;
    ScanOutcome(c, bIn.pending);
    TailSize(bIn.pending);
    var b := ReadAndWrite(bIn, bOut);
    b := Upper(b);
    while b != NUL
      invariant bIn.Valid() && bOut.Valid() && bOut.read == old(bOut.read) && rd.next == Headers
      invariant rd.isBufferEmpty ==> wasEmpty
      invariant b != NUL ==> bIn.pending.Size() < old(bIn.pending).Size()
      invariant InScope(r, bIn) && !wasEmpty ==>
                  if b != NUL then Run(Conf(rd.Fields(), ScanPlace(b), bOut.offered, tr), bIn.pending) == r
                  else r == Outcome(Conf(rd.Fields(), Scanning, bOut.offered, tr), Queue("", ""))
                       && bIn.pending == Queue("", "")
      decreases bIn.pending.Size(), b != NUL
    {
      var stop := HeaderByte(b, rd, bIn, bOut, tr);
      if stop {
        break;
      }
      ScanOutcome(Conf(rd.Fields(), Scanning, bOut.offered, tr), bIn.pending);
      TailSize(bIn.pending);
      b := ReadAndWrite(bIn, bOut);
      b := Upper(b);
    }
    ok := rd.next != Headers;
    if !ok {
      rd.isBufferEmpty := true;
    }
  }

  function ScanPlace(b: char): Place {
    if b == 'C' then Word(On, 0) else if b == 'T' then Word(Ransfer, 0)
    else if b == '\r' then Word(Lf, 0) else Scanning
  }

  lemma ScanOutcome(c: Conf, q: Queue)
    requires c.p == Scanning
    ensures q.Empty() ==> q == Queue("", "") && Run(c, q) == Outcome(c, q) && c.out + "" == c.out
    ensures !q.Empty() && q.Head() == NUL ==> Run(c, q).c.p == Outside
    ensures !q.Empty() && q.Head() != NUL ==>
              && Upper(q.Head()) != NUL
              && Run(c, q) == Run(Conf(c.rec, ScanPlace(Upper(q.Head())), c.out + q.Loud(), c.transf), q.Tail())
  {
    hide Run, Step;
    if q.Empty() {
      RunEmpty(c, q);
    } else if q.Head() == NUL {
      NulIsOutside(c, q);
    } else {
      ScanRun(c, q);
    }
  }
}
