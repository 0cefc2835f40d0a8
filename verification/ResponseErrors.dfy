/** Responses that the parser rejects: which error it reports, where it stops, and what came out by then. */
module ResponseErrors {
  import opened Bytes
  import opened Numbers
  import opened ParserUtils
  import opened ResponseMachine
  import opened ResponseLemmas
  import opened ResponseHeaders
  import opened ResponseFragments
  import opened ChunkMeaning
  import opened HeaderText
  import opened HeaderMeaning
  import opened ResponseMeaning

  /** Rejected at `at` with `e`, in front of `left`. */
  function Rejection(c: Conf, e: ResponseState, at: ResponseParserState, left: string): Outcome {
    Outcome(Conf(c.rec.(state := e), Rejected(at), c.out, c.transf), Queue("", left))
  }

  /** The version does not begin with HTTP/1. */
  lemma BadProtocol(transform: bool, s: string, b: char, u: string)
    requires |s| < 7 && Same(s, "HTTP/1."[..|s|]) && b != NUL && Upper(b) != "HTTP/1."[|s|]
    ensures Whole(transform, s + ([b] + u)) ==
            Rejection(Conf(Fresh(transform), Word(VersionText, 0), s, ""), VersionError, Version, [b] + u)
  {
    hide Run, Same, Ends, Queue.Drop, Queue.LoudTake;
    var c, q := Conf(Fresh(transform), Word(VersionText, 0), "", ""), Queue("", s + ([b] + u));
    SameIs(s, "HTTP/1."[..|s|]);
    DropFresh(s, [b] + u);
    assert Text(VersionText) == "HTTP/1.";
    assert "" + s == s;
    forall k | 0 <= k < |s| ensures Upper(q.Text()[k]) == Text(VersionText)[k] {
      assert q.Text()[k] == s[k] && "HTTP/1."[..|s|][k] == "HTTP/1."[k];
    }
    WordRun(c, VersionText, q, |s|);
    MissedByte(Went(c, Word(VersionText, |s|), s), VersionText, |s|, Queue("", [b] + u));
  }

  /** HTTP/1.2 and the like; the digit is consumed. */
  lemma BadVersion(transform: bool, proto: string, b: char, u: string)
    requires Same(proto, "HTTP/1.") && b !in {NUL, '0', '1'}
    ensures Whole(transform, proto + ([b] + u)) ==
            Rejection(Conf(Fresh(transform), VersionDigit, proto + [b], ""), VersionError, Version, u)
  {
    hide Run, Same, Queue.Drop, Queue.LoudTake;
    var c, q := Conf(Fresh(transform), Word(VersionText, 0), "", ""), Queue("", [b] + u);
    DropFresh(proto, [b] + u);
    assert Text(VersionText) == "HTTP/1.";
    assert "" + proto == proto;
    SameIs(proto, "HTTP/1.");
    WordRun(c, VersionText, Queue("", proto + ([b] + u)), 7);
    assert q.Tail() == Queue("", u) && q.Loud() == [b];
    VersionByte(Went(c, VersionDigit, proto), q);
  }

  /** No status code behind the version; one space is written for whatever spaces there are. */
  lemma NoStatus(transform: bool, proto: string, minor: char, gap: string, b: char, u: string)
    requires Same(proto, "HTTP/1.") && (minor == '0' || minor == '1')
    requires forall k :: 0 <= k < |gap| ==> gap[k] == ' ' || gap[k] == '\t'
    requires b !in {NUL, ' ', '\t'} && !('0' <= b <= '9')
    ensures Whole(transform, proto + ([minor] + (gap + ([b] + u)))) ==
            Rejection(Conf(Fresh(transform).(version := if minor == '0' then V10 else V11), Spaces(Status),
                           proto + [minor] + " ", ""), StatusError, Status, [b] + u)
  {
    hide Run, Same;
    var c := Conf(Fresh(transform), Word(VersionText, 0), "", "");
    VersionRun(c, proto, minor, gap + ([b] + u));
    assert "" + proto == proto;
    var d := Conf(c.rec.(version := if minor == '0' then V10 else V11), Spaces(Status), proto + [minor], "");
    GapRun(d, gap, [b] + u);
    NoNumber(Went(d, Digits(StatusNumber, None), " "), StatusNumber, Queue("", [b] + u));
  }

  /** The bytes where a CR LF should be: `s` of it is there, and then another byte. */
  predicate BadCrlf(s: string, b: char) {
    b != NUL && ((s == "" && b != '\r') || (s == "\r" && b != '\n'))
  }

  lemma BadCrlfText(s: string, b: char, u: string)
    requires BadCrlf(s, b)
    ensures var q := Queue("", s + ([b] + u));
            && MatchEnd("\r\n", q.Text(), 0) == |s| < 2 && |s| < q.Size() && !NulAt(q.Text(), |s|)
            && q.Drop(|s|) == Queue("", [b] + u) && q.LoudTake(|s|) == s
            && !q.Empty() && (q.Head() == if s == "" then b else '\r')
  {
    var t := s + ([b] + u);
    DropFresh(s, [b] + u);
    assert t[|s|] == b;
    assert MatchEnd("\r\n", t, |s|) == |s|;
  }

  /** A chunk size that is not followed by CR LF. */
  lemma SizeNotEnded(c: Conf, size: string, n: nat, s: string, b: char, u: string)
    requires c.p == Digits(ChunkSize, None) && SizeText(size, n) && BadCrlf(s, b) && (s == "" ==> !IsDigit(16, b))
    ensures Run(c, Queue("", size + (s + ([b] + u)))) ==
            Rejection(Framed(c, c.rec.(bodyLength := n), c.p, size + s), ChunksError, BodyState(c.rec), [b] + u)
  {
    hide Run, Queue.Drop, Queue.LoudTake, Value, Step, AllDigits, MatchEnd;
    var q, t := Queue("", size + (s + ([b] + u))), s + ([b] + u);
    DropFresh(size, t);
    assert q.Text()[..|size|] == size == size[..|size|];
    ValueOfPrefix(16, size, q.Text(), |size|);
    NumberRun(c, ChunkSize, q, |size|);
    BadCrlfText(s, b, u);
    SizeCrlf(AfterDigits(c, ChunkSize, n, size), n, Queue("", t));
    AppendAppend(c.out, Frame(c.rec, size), Frame(c.rec, s));
    FrameAppend(c.rec, size, s);
  }

  lemma FrameAppend(rec: Rec, s: string, t: string)
    ensures Frame(rec, s + t) == Frame(rec, s) + Frame(rec, t)
  {
  }

  /** Chunk data, or the last chunk, that is not followed by CR LF. The last chunk has no trailer. */
  lemma DataNotEnded(c: Conf, last: bool, s: string, b: char, u: string)
    requires c.p == DataEnd(last, 0) && BadCrlf(s, b)
    ensures Run(c, Queue("", s + ([b] + u))) ==
            Rejection(Framed(c, c.rec, c.p, s), ChunksError, BodyState(c.rec), [b] + u)
  {
    hide Run, Queue.Drop, Queue.LoudTake, Step, MatchEnd;
    BadCrlfText(s, b, u);
    DataCrlf(c, last, Queue("", s + ([b] + u)));
  }

  /** The text of a chunked body, up to where it breaks off. */
  datatype Break =
    | NoSizeAt                             // where a size should be
    | SizeAt(size: string, n: nat)         // behind a size
    | DataAt(chunk: Chunk)                 // behind the data of a chunk
    | LastAt(zeros: string)                // behind the size line of the last chunk

  ghost predicate GoodBreak(k: Break, s: string, b: char) {
    match k
    case NoSizeAt => s == "" && b != NUL && !IsDigit(16, b)
    case SizeAt(size, n) => SizeText(size, n) && BadCrlf(s, b) && (s == "" ==> !IsDigit(16, b))
    case DataAt(ch) => GoodChunk(ch) && BadCrlf(s, b)
    case LastAt(zeros) => SizeText(zeros, 0) && BadCrlf(s, b)
  }

  function BreakText(k: Break): string {
    match k
    case NoSizeAt => ""
    case SizeAt(size, _) => size
    case DataAt(ch) => ch.size + ("\r\n" + ch.data)
    case LastAt(zeros) => zeros + "\r\n"
  }

  /** What `bodyLength` holds when the body breaks off. */
  function BreakLength(k: Break, before: int): int {
    match k
    case NoSizeAt => before
    case SizeAt(_, n) => n
    case _ => 0
  }

  function BreakData(k: Break): string { if k.DataAt? then k.chunk.data else "" }

  /** Where the machine is when a chunked body breaks off. */
  lemma BrokenChunk(c: Conf, k: Break, s: string, b: char, u: string)
    requires c.p == Digits(ChunkSize, None) && GoodBreak(k, s, b)
    ensures Run(c, Queue("", BreakText(k) + (s + ([b] + u)))) ==
            Outcome(Conf(c.rec.(state := ChunksError, bodyLength := BreakLength(k, c.rec.bodyLength)),
                         if k.NoSizeAt? then NoSize else Rejected(BodyState(c.rec)),
                         c.out + Frame(c.rec, BreakText(k) + s),
                         c.transf + if c.rec.withTransf then BreakData(k) else ""), Queue("", [b] + u))
  {
    hide Run, SizeText, BadCrlf;
    var t := s + ([b] + u);
    assert c.out + "" == c.out && c.transf + "" == c.transf;
    match k {
      case NoSizeAt =>
        assert "" + t == [b] + u;
        NoNumber(c, ChunkSize, Queue("", [b] + u));
      case SizeAt(size, n) => SizeNotEnded(c, size, n, s, b, u);
      case DataAt(ch) => BrokenData(c, ch, s, b, u);
      case LastAt(zeros) =>
        SizeLine(c, zeros, 0, t);
        assert BreakText(k) + t == zeros + ("\r\n" + t);
        var d := Framed(c, c.rec.(bodyLength := 0), DataEnd(true, 0), zeros + "\r\n");
        DataNotEnded(d, true, s, b, u);
        AppendAppend(c.out, Frame(c.rec, zeros + "\r\n"), Frame(c.rec, s));
        FrameAppend(c.rec, zeros + "\r\n", s);
    }
  }

  lemma BrokenData(c: Conf, ch: Chunk, s: string, b: char, u: string)
    requires c.p == Digits(ChunkSize, None) && GoodChunk(ch) && BadCrlf(s, b)
    ensures Run(c, Queue("", (ch.size + ("\r\n" + ch.data)) + (s + ([b] + u)))) ==
            Outcome(Conf(c.rec.(state := ChunksError, bodyLength := 0), Rejected(BodyState(c.rec)),
                         c.out + Frame(c.rec, (ch.size + ("\r\n" + ch.data)) + s),
                         c.transf + if c.rec.withTransf then ch.data else ""), Queue("", [b] + u))
  {
    hide Run, SizeText, BadCrlf, Queue.Drop, Queue.LoudTake, AfterBytes;
    var t := s + ([b] + u);
    assert (ch.size + ("\r\n" + ch.data)) + t == ch.size + ("\r\n" + (ch.data + t));
    SizeLine(c, ch.size, |ch.data|, ch.data + t);
    var head := Framed(c, c.rec.(bodyLength := |ch.data|), Payload, ch.size + "\r\n");
    DropFresh(ch.data, t);
    BodyRun(head, Queue("", ch.data + t), |ch.data|);
    var d := AfterBytes(head, |ch.data|, ch.data);
    BrokenConf(c, ch, s);
    DataNotEnded(d, false, s, b, u);
  }

  lemma BrokenConf(c: Conf, ch: Chunk, s: string)
    requires ch.data != ""
    ensures var d := AfterBytes(Framed(c, c.rec.(bodyLength := |ch.data|), Payload, ch.size + "\r\n"), |ch.data|, ch.data);
            && d.p == DataEnd(false, 0) && d.rec == c.rec.(bodyLength := 0)
            && Framed(d, d.rec, d.p, s) ==
               Conf(d.rec, d.p, c.out + Frame(c.rec, (ch.size + ("\r\n" + ch.data)) + s),
                    c.transf + if c.rec.withTransf then ch.data else "")
  {
    if c.rec.withTransf {
      assert c.out + "" + "" + "" == c.out + "";
    } else {
      assert c.out + (ch.size + "\r\n") + ch.data + s == c.out + ((ch.size + ("\r\n" + ch.data)) + s);
      assert c.transf + "" == c.transf;
    }
  }

  /** A chunked response that breaks off: what was read before it is delivered, and the parser stops in
      front of the byte that does not fit. */
  lemma BrokenBody(transform: bool, st: StatusLine, lines: seq<string>, chunks: seq<Chunk>, k: Break, s: string, b: char, u: string)
    requires GoodStatus(st) && GoodLines(lines) && HeadEnds(st, lines) && HeadRec(transform, st, lines).isChunked
    requires GoodChunks(chunks) && GoodBreak(k, s, b)
    ensures var rec := HeadRec(transform, st, lines);
            var before := if chunks == [] then rec.bodyLength else 0;
            Whole(transform, Head(st, lines) + (Render(chunks) + (BreakText(k) + (s + ([b] + u))))) ==
            Outcome(Conf(rec.(state := ChunksError, bodyLength := BreakLength(k, before)),
                         if k.NoSizeAt? then NoSize
                         else Rejected(if transform then BodyTransformation else BodyNormal),
                         HeadOut(transform, st, lines) + (if transform then "" else Render(chunks) + (BreakText(k) + s)),
                         if transform then Data(chunks) + BreakData(k) else ""), Queue("", [b] + u))
  {
    hide Run, Head, HeadRec, HeadOut, HeadEnds, GoodBreak, BreakText, BreakLength, GoodChunks, GoodStatus, GoodLines, Render, Data;
    var rec, o := HeadRec(transform, st, lines), HeadOut(transform, st, lines);
    var t := BreakText(k) + (s + ([b] + u));
    WholeHead(transform, st, lines, Render(chunks) + t);
    var c := Conf(rec, Digits(ChunkSize, None), o, "");
    ManyChunks(c, chunks, t);
    NoChunks(chunks);
    var d := if chunks == [] then c else ChunkMeaning.Between(c, Render(chunks), Data(chunks));
    BrokenChunk(d, k, s, b, u);
    assert o + "" == o && "" + (BreakText(k) + s) == BreakText(k) + s;
    AppendAppend(o, Render(chunks), BreakText(k) + s);
    assert "" + Data(chunks) == Data(chunks) && "" + BreakData(k) == BreakData(k) && "" + "" == "";
  }
}
