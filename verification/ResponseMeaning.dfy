/** Whole responses: what the client and the transformation get for a well-formed response, in
    whatever fragments it arrives. */
module ResponseMeaning {
  import opened Bytes
  import opened Numbers
  import opened ParserUtils
  import opened ResponseMachine
  import opened ResponseLemmas
  import opened ResponseHeaders
  import opened ResponseFragments
  import opened ChunkMeaning
  import opened ChunkEncoder
  import opened HeaderText
  import opened HeaderMeaning

  datatype StatusLine = StatusLine(proto: string, minor: char, gap: string, digits: string, reason: string)

  ghost predicate GoodStatus(st: StatusLine) {
    && Same(st.proto, "HTTP/1.") && (st.minor == '0' || st.minor == '1')
    && (forall k :: 0 <= k < |st.gap| ==> IsSpace(st.gap[k]))
    && st.digits != "" && AllDigits(10, st.digits, |st.digits|)
    && Value(10, st.digits, |st.digits|) < INT_LIMIT
    && OneLine(st.reason) && InRange(st.reason) && (st.reason != "" ==> !IsDigit(10, st.reason[0]))
  }

  function RenderStatus(st: StatusLine): string {
    st.proto + ([st.minor] + (st.gap + (st.digits + (st.reason + "\r\n"))))
  }

  /** The reason is searched like a header line. */
  function RewriteStatus(st: StatusLine): string {
    st.proto + ([st.minor] + (" " + (st.digits + (Rewrite(st.reason) + "\r\n"))))
  }

  ghost function StatusEffect(rec: Rec, st: StatusLine): Rec
    requires GoodStatus(st)
  {
    var v := Value(10, st.digits, |st.digits|);
    LineEffect(rec.(version := if st.minor == '0' then V10 else V11, status := v), st.reason)
  }

  /** The status code and the reason, up to the end of the line. */
  lemma CodeRun(c: Conf, st: StatusLine, u: string)
    requires c.p == Digits(StatusNumber, None) && GoodStatus(st)
    ensures Run(c, Queue("", st.digits + (st.reason + ("\r\n" + u)))) ==
            Run(Conf(LineEffect(c.rec.(status := Value(10, st.digits, |st.digits|)), st.reason), LineEnd(EndsWell(st.reason)),
                     c.out + (st.digits + (Rewrite(st.reason) + "\r\n")), c.transf), Queue("", u))
  {
    hide Run, Value, Queue.Drop, Queue.LoudTake, Step, AllDigits, Rewrite, LineEffect, InRange, EndsWell, OneLine;
    var rest := st.reason + ("\r\n" + u);
    var v := Value(10, st.digits, |st.digits|);
    DigitsRun(c, st.digits, rest);
    AfterCode(st, u);
    NumberOver(AfterDigits(c, StatusNumber, v, st.digits), StatusNumber, v, Queue("", rest));
    LineRun(Conf(c.rec.(status := v), Scanning, c.out + st.digits, c.transf), st.reason, u);
    AppendAppend(c.out, st.digits, Rewrite(st.reason) + "\r\n");
  }

  lemma DigitsRun(c: Conf, digits: string, rest: string)
    requires c.p == Digits(StatusNumber, None) && digits != "" && AllDigits(10, digits, |digits|)
    requires Value(10, digits, |digits|) < INT_LIMIT
    ensures Run(c, Queue("", digits + rest)) ==
            Run(AfterDigits(c, StatusNumber, Value(10, digits, |digits|), digits), Queue("", rest))
  {
    hide Run, Value, Queue.Drop, Queue.LoudTake, Step;
    var q, n := Queue("", digits + rest), |digits|;
    DropFresh(digits, rest);
    assert q.Text()[..n] == digits == digits[..n];
    ValueOfPrefix(10, digits, q.Text(), n);
    NumberRun(c, StatusNumber, q, n);
  }

  lemma AfterCode(st: StatusLine, u: string)
    requires GoodStatus(st)
    ensures var rest := st.reason + ("\r\n" + u); rest != "" && !IsDigit(10, rest[0]) && rest[0] != NUL
  {
    var rest := st.reason + ("\r\n" + u);
    if st.reason != "" {
      assert rest[0] == st.reason[0] && st.reason[0] in st.reason;
    } else {
      assert rest[0] == '\r';
    }
  }

  lemma VersionRun(c: Conf, proto: string, minor: char, u: string)
    requires c.p == Word(VersionText, 0) && Same(proto, "HTTP/1.") && (minor == '0' || minor == '1')
    ensures Run(c, Queue("", proto + ([minor] + u))) ==
            Run(Conf(c.rec.(version := if minor == '0' then V10 else V11), Spaces(Status),
                     c.out + proto + [minor], c.transf), Queue("", u))
  {
    hide Run, Queue.Drop, Queue.LoudTake, Step;
    var q := Queue("", proto + ([minor] + u));
    DropFresh(proto, [minor] + u);
    assert Text(VersionText) == "HTTP/1.";
    WordRun(c, VersionText, q, 7);
    var d := Went(c, VersionDigit, proto);
    var r := Queue("", [minor] + u);
    assert r.Tail() == Queue("", u);
    VersionByte(d, r);
  }

  /** A status line: one space between its words, the reason treated as header text. */
  lemma StatusRun(c: Conf, st: StatusLine, u: string)
    requires c.p == Word(VersionText, 0) && GoodStatus(st)
    ensures Run(c, Queue("", RenderStatus(st) + u)) ==
            Run(Conf(StatusEffect(c.rec, st), LineEnd(EndsWell(st.reason)), c.out + RewriteStatus(st), c.transf), Queue("", u))
  {
    hide Run, Value, Same, Rewrite, LineEffect, InRange, EndsWell;
    var rest := st.digits + (st.reason + ("\r\n" + u));
    assert RenderStatus(st) + u == st.proto + ([st.minor] + (st.gap + rest));
    VersionRun(c, st.proto, st.minor, st.gap + rest);
    var rec := c.rec.(version := if st.minor == '0' then V10 else V11);
    var d := Conf(rec, Spaces(Status), c.out + st.proto + [st.minor], c.transf);
    assert rest[0] == st.digits[0] && IsDigit(10, st.digits[0]);
    GapRun(d, st.gap, rest);
    CodeRun(Went(d, Digits(StatusNumber, None), " "), st, u);
    assert d.out + " " + (st.digits + (Rewrite(st.reason) + "\r\n")) == c.out + RewriteStatus(st);
  }

  /** A response head: status line, header lines and the empty line. */
  function Head(st: StatusLine, lines: seq<string>): string {
    RenderStatus(st) + (RenderLines(lines) + "\r\n")
  }

  ghost function HeadRec(transform: bool, st: StatusLine, lines: seq<string>): Rec
    requires GoodStatus(st)
  {
    Effects(StatusEffect(Fresh(transform), st), lines)
  }

  ghost function HeadOut(transform: bool, st: StatusLine, lines: seq<string>): string
    requires GoodStatus(st)
  {
    RewriteStatus(st) + (RewriteLines(lines) + Trailer(HeadRec(transform, st, lines)))
  }

  /** The end of the head is seen: its last line does not hide its CR. */
  predicate HeadEnds(st: StatusLine, lines: seq<string>) { EndsBlock(EndsWell(st.reason), lines) }

  /** The head of a response. Its end is seen, and the body begins, exactly if its last line does not
      hide its CR; otherwise the headers go on behind it. */
  lemma WholeHead(transform: bool, st: StatusLine, lines: seq<string>, u: string)
    requires GoodStatus(st) && GoodLines(lines)
    ensures var rec := HeadRec(transform, st, lines);
            && Whole(transform, Head(st, lines) + u) ==
               (if HeadEnds(st, lines) then Run(Conf(rec, BodyStart(rec), HeadOut(transform, st, lines), ""), Queue("", u))
                else Run(Conf(rec, Crlf, RewriteStatus(st) + (RewriteLines(lines) + "\r\n"), ""), Queue("", u)))
            && rec.withTransf == transform && rec.state == ResOk
  {
    hide Run, RenderStatus, RewriteStatus, RenderLines, RewriteLines, Trailer, BodyStart, GoodLines, GoodStatus, EndsBlock, EndsWell;
    var c := Conf(Fresh(transform), Word(VersionText, 0), "", "");
    assert Head(st, lines) + u == RenderStatus(st) + (RenderLines(lines) + ("\r\n" + u));
    StatusRun(c, st, RenderLines(lines) + ("\r\n" + u));
    StatusFlags(transform, st);
    var d := Conf(StatusEffect(c.rec, st), LineEnd(EndsWell(st.reason)), c.out + RewriteStatus(st), "");
    HeaderBlock(d, EndsWell(st.reason), lines, u);
    FlagsOfBlock(StatusEffect(c.rec, st), lines);
    assert "" + RewriteStatus(st) == RewriteStatus(st);
  }

  lemma StatusFlags(transform: bool, st: StatusLine)
    requires GoodStatus(st)
    ensures StatusEffect(Fresh(transform), st).withTransf == transform && StatusEffect(Fresh(transform), st).state == ResOk
  {
    hide LineEffect, Value;
    var v := Value(10, st.digits, |st.digits|);
    FlagsOfLine(Fresh(transform).(version := if st.minor == '0' then V10 else V11, status := v), st.reason);
  }

  /** A chunked response, forwarded or transformed; it wins over any Content-Length. */
  lemma ChunkedResponse(transform: bool, st: StatusLine, lines: seq<string>, chunks: seq<Chunk>, zeros: string, u: string)
    requires GoodStatus(st) && GoodLines(lines) && HeadEnds(st, lines) && GoodChunks(chunks) && SizeText(zeros, 0)
    requires HeadRec(transform, st, lines).isChunked
    ensures Whole(transform, Head(st, lines) + (Body(chunks, zeros) + u)) ==
            Outcome(Conf(HeadRec(transform, st, lines).(bodyLength := 0), Done,
                         HeadOut(transform, st, lines) + (if transform then "" else Body(chunks, zeros)),
                         if transform then Data(chunks) else ""), Queue("", u))
  {
    hide Run, Body, Data, Head, HeadRec, HeadOut, HeadEnds;
    WholeHead(transform, st, lines, Body(chunks, zeros) + u);
    var rec := HeadRec(transform, st, lines);
    ChunkedBody(Conf(rec, Digits(ChunkSize, None), HeadOut(transform, st, lines), ""), chunks, zeros, u);
    assert "" + Data(chunks) == Data(chunks);
  }

  /** A response with a Content-Length: exactly that many bytes are forwarded, `bodyLength` counts
      down to the bytes still missing, and later bytes stay in the buffer. */
  lemma CountedResponse(transform: bool, st: StatusLine, lines: seq<string>, u: string)
    requires GoodStatus(st) && GoodLines(lines) && HeadEnds(st, lines)
    requires var rec := HeadRec(transform, st, lines); !rec.isChunked && rec.bodyLength >= 0
    ensures var rec := HeadRec(transform, st, lines);
            var n := if rec.bodyLength < |u| then rec.bodyLength else |u|;
            Whole(transform, Head(st, lines) + u) ==
            Outcome(Conf(rec.(bodyLength := rec.bodyLength - n), if n < rec.bodyLength then Counted else Done,
                         HeadOut(transform, st, lines) + (if transform then "" else u[..n]),
                         if transform then u[..n] else ""), Queue("", u[n..]))
  {
    hide Run, Head, HeadRec, HeadOut, HeadEnds, Step, Queue.Drop, Queue.LoudTake;
    WholeHead(transform, st, lines, u);
    var rec, o := HeadRec(transform, st, lines), HeadOut(transform, st, lines);
    var n := if rec.bodyLength < |u| then rec.bodyLength else |u|;
    var c := Conf(rec, BodyStart(rec), o, "");
    assert u == u[..n] + u[n..] && o + "" == o && "" + u[..n] == u[..n];
    DropFresh(u[..n], u[n..]);
    if rec.bodyLength > 0 {
      BodyRun(c, Queue("", u), n);
    }
    var d := if rec.bodyLength > 0 then AfterBytes(c, n, u[..n]) else c;
    RunTerminal(d, Queue("", u[n..]));
    if u[n..] == "" {
      RunEmpty(d, Queue("", u[n..]));
    }
  }

  /** The theorem for chunked responses over any fragments; what follows the response is not read. */
  method FeedChunked(fragments: seq<string>, transform: bool, ghost st: StatusLine, ghost lines: seq<string>,
                     ghost chunks: seq<Chunk>, ghost zeros: string, ghost u: string)
    returns (rec: Rec, state: ResponseParserState, out: string, transf: string, left: string)
    requires GoodStatus(st) && GoodLines(lines) && HeadEnds(st, lines) && GoodChunks(chunks) && SizeText(zeros, 0)
    requires HeadRec(transform, st, lines).isChunked
    requires Flatten(fragments) == Head(st, lines) + (Body(chunks, zeros) + u)
    ensures state == Finished && rec == HeadRec(transform, st, lines).(bodyLength := 0) && rec.state == ResOk && left == u
    ensures transf == if transform then Data(chunks) else ""
    ensures out == HeadOut(transform, st, lines) + if transform then "" else Body(chunks, zeros)
  {
    hide Run, Body, Data, Head, HeadRec, HeadOut, HeadEnds, Step;
    ChunkedResponse(transform, st, lines, chunks, zeros, u);
    WholeFacts(transform, Flatten(fragments), "");
    rec, state, out, transf, left := Feed(fragments, transform);
    assert "" + u == u;
  }

  /** The theorem for responses with a Content-Length over any fragments: exactly the first N bytes after
      the head are forwarded, `bodyLength` is what is still missing, and later bytes are not read. */
  method FeedCounted(fragments: seq<string>, transform: bool, ghost st: StatusLine, ghost lines: seq<string>, ghost u: string)
    returns (rec: Rec, state: ResponseParserState, out: string, transf: string, left: string)
    requires GoodStatus(st) && GoodLines(lines) && HeadEnds(st, lines)
    requires var rec := HeadRec(transform, st, lines); !rec.isChunked && rec.bodyLength >= 0
    requires Flatten(fragments) == Head(st, lines) + u
    ensures var length := HeadRec(transform, st, lines).bodyLength;
            var n := if length < |u| then length else |u|;
            && rec == HeadRec(transform, st, lines).(bodyLength := length - n) && rec.state == ResOk
            && (state == Finished) == (length <= |u|)
            && out == HeadOut(transform, st, lines) + (if transform then "" else u[..n])
            && transf == (if transform then u[..n] else "")
            && (length <= |u| ==> left == u[n..])
  {
    hide Run, Head, HeadRec, HeadOut, HeadEnds, Step;
    CountedResponse(transform, st, lines, u);
    WholeHead(transform, st, lines, u);
    WholeFacts(transform, Flatten(fragments), "");
    rec, state, out, transf, left := Feed(fragments, transform);
    ghost var r := Whole(transform, Flatten(fragments));
    assert "" + r.rest.wire == r.rest.wire;
  }

  /** Encoder and decoder undo each other over any fragments: a response that is made of a head and
      what `EncodeStream` writes gives back the blocks. */
  method FeedEncoded(fragments: seq<string>, ghost st: StatusLine, ghost lines: seq<string>, ghost blocks: seq<string>,
                     ghost u: string)
    returns (rec: Rec, state: ResponseParserState, out: string, transf: string, left: string)
    requires GoodStatus(st) && GoodLines(lines) && HeadEnds(st, lines) && HeadRec(true, st, lines).isChunked
    requires forall d :: d in blocks ==> d != "" && |d| < MAX_CHUNK_SIZE
    requires Flatten(fragments) == Head(st, lines) + ((Render(EncodedAll(blocks)) + "0\r\n\r\n") + u)
    ensures state == Finished && rec.state == ResOk && left == u
    ensures transf == Flatten(blocks) && out == HeadOut(true, st, lines)
  {
    hide Run, Data, Head, HeadRec, HeadOut, HeadEnds, Step, Render, EncodedAll, GoodChunks, GoodLines, GoodStatus;
    EncodedWell(blocks);
    PrintValue(16, 0);
    assert Print(16, 0) == "0";
    assert SizeText("0", 0);
    assert "0" + "\r\n\r\n" == "0\r\n\r\n";
    rec, state, out, transf, left := FeedChunked(fragments, true, st, lines, EncodedAll(blocks), "0", u);
    assert HeadOut(true, st, lines) + "" == HeadOut(true, st, lines);
  }

  /** The lines that are added, letter by letter. */
  lemma TrailerTable(rec: Rec)
    ensures rec.isClose && (rec.isChunked || !rec.withTransf) ==> Trailer(rec) == "\r\n"
    ensures !rec.isClose && (rec.isChunked || !rec.withTransf) ==> Trailer(rec) == "Connection: close\r\n\r\n"
    ensures rec.isClose && !rec.isChunked && rec.withTransf ==> Trailer(rec) == "Transfer-Encoding: chunked\r\n\r\n"
    ensures !rec.isClose && !rec.isChunked && rec.withTransf ==>
              Trailer(rec) == "Transfer-Encoding: chunked\r\nConnection: close\r\n\r\n"
  {
  }

  /** What a record holds before the first byte. */
  lemma FreshTable(transform: bool)
    ensures Fresh(transform) == Rec(ResOk, Undefined, 0, -1, Identity, false, false, transform)
  {
  }

  lemma {:induction false} EffectsSplit(rec: Rec, front: seq<string>, back: seq<string>)
    ensures Effects(rec, front + back) == Effects(Effects(rec, front), back)
    decreases |front|
  {
    hide LineEffect;
    if front == [] {
      assert front + back == back;
    } else {
      assert (front + back)[1..] == front[1..] + back;
      EffectsSplit(LineEffect(rec, front[0]), front[1..], back);
    }
  }

  /** Lines in which no Content-Length is found leave the length as it is. */
  lemma {:induction false} NoLengthLines(rec: Rec, lines: seq<string>)
    requires forall l :: l in lines ==> !Finds(l, Ength)
    ensures Effects(rec, lines).bodyLength == rec.bodyLength
    decreases |lines|
  {
    hide LineEffect, Finds;
    if lines != [] {
      LengthOfLine(rec, lines[0]);
      NoLengthLines(LineEffect(rec, lines[0]), lines[1..]);
    }
  }

  /** A head in which neither a Content-Length nor a chunked coding is found. */
  ghost predicate NoLength(st: StatusLine, lines: seq<string>) {
    && !Finds(st.reason, Ength) && !FindsChunked(st.reason)
    && forall l :: l in lines ==> !Finds(l, Ength) && !FindsChunked(l)
  }

  lemma NoLengthHead(transform: bool, st: StatusLine, lines: seq<string>)
    requires GoodStatus(st) && NoLength(st, lines)
    ensures var rec := HeadRec(transform, st, lines);
            && rec.bodyLength == -1 && !rec.isChunked && rec.withTransf == transform && rec.state == ResOk
            && rec.status == Value(10, st.digits, |st.digits|)
  {
    hide LineEffect, Finds, FindsChunked, Effects, Value;
    var v := Value(10, st.digits, |st.digits|);
    var rec := Fresh(transform).(version := if st.minor == '0' then V10 else V11, status := v);
    FlagsOfLine(rec, st.reason);
    LengthOfLine(rec, st.reason);
    FlagsOfBlock(LineEffect(rec, st.reason), lines);
    NoLengthLines(LineEffect(rec, st.reason), lines);
  }

  lemma {:induction false} UntilCloseRun(c: Conf, u: string)
    requires c.p == UntilClose
    ensures Run(c, Queue("", u)) ==
            Outcome(Conf(c.rec, UntilClose, c.out + (if c.rec.withTransf then "" else u),
                         c.transf + if c.rec.withTransf then u else ""), Queue("", ""))
    decreases |u|
  {
    hide Run;
    var q := Queue("", u);
    if u == "" {
      RunEmpty(c, q);
      assert c.out + "" == c.out && c.transf + "" == c.transf;
    } else {
      UntilCloseByte(c, q);
      assert q.Tail() == Queue("", u[1..]) && q.Loud() == [u[0]] && [u[0]] + u[1..] == u;
      var o, t := Frame(c.rec, [u[0]]), if c.rec.withTransf then [u[0]] else "";
      UntilCloseRun(Conf(c.rec, UntilClose, c.out + o, c.transf + t), u[1..]);
      AppendAppend(c.out, o, if c.rec.withTransf then "" else u[1..]);
      AppendAppend(c.transf, t, if c.rec.withTransf then u[1..] else "");
    }
  }

  /** A response without a length: with status 200, or when it is transformed, everything up to the end of
      the connection is its body; any other has none, and the bytes behind its head are not read. */
  method FeedOpen(fragments: seq<string>, transform: bool, ghost st: StatusLine, ghost lines: seq<string>, ghost u: string)
    returns (rec: Rec, state: ResponseParserState, out: string, transf: string, left: string)
    requires GoodStatus(st) && GoodLines(lines) && HeadEnds(st, lines) && NoLength(st, lines)
    requires Flatten(fragments) == Head(st, lines) + u
    ensures var open := transform || Value(10, st.digits, |st.digits|) == 200;
            && rec == HeadRec(transform, st, lines) && rec.state == ResOk && rec.bodyLength == -1
            && state == (if !open then Finished else if transform then BodyTransformation else BodyNormal)
            && out == HeadOut(transform, st, lines) + (if open && !transform then u else "")
            && transf == (if transform then u else "")
            && (!open ==> left == u)
  {
    hide Run, Head, HeadRec, HeadOut, HeadEnds, NoLength, Step, Value;
    NoLengthHead(transform, st, lines);
    WholeHead(transform, st, lines, u);
    ghost var c := Conf(HeadRec(transform, st, lines), BodyStart(HeadRec(transform, st, lines)), HeadOut(transform, st, lines), "");
    assert c.out + "" == c.out && "" + u == u;
    if c.p == UntilClose {
      UntilCloseRun(c, u);
    } else {
      RunTerminal(c, Queue("", u));
    }
    rec, state, out, transf, left := Feed(fragments, transform);
  }

  /** A response whose only length is a Content-Length line that says N. */
  method FeedLength(fragments: seq<string>, transform: bool, ghost st: StatusLine, ghost front: seq<string>,
                    ghost name: string, ghost gap: string, ghost digits: string, ghost back: seq<string>, ghost u: string)
    returns (rec: Rec, state: ResponseParserState, out: string, transf: string, left: string)
    requires Same(name, "CONTENT-LENGTH:") && (forall k :: 0 <= k < |gap| ==> gap[k] == ' ' || gap[k] == '\t')
    requires digits != "" && AllDigits(10, digits, |digits|) && Value(10, digits, |digits|) < INT_LIMIT
    requires GoodStatus(st) && GoodLines(front) && GoodLines(back) && NoLength(st, front + back)
    requires back == [] || EndsWell(back[|back| - 1])
    requires Flatten(fragments) == Head(st, front + [name + (gap + digits)] + back) + u
    ensures var length := Value(10, digits, |digits|);
            var n := if length < |u| then length else |u|;
            && rec.bodyLength == length - n && rec.state == ResOk && (state == Finished) == (length <= |u|)
            && out == HeadOut(transform, st, front + [name + (gap + digits)] + back) + (if transform then "" else u[..n])
            && transf == (if transform then u[..n] else "")
            && (length <= |u| ==> left == u[n..])
  {
    hide Run, Head, HeadRec, HeadOut, HeadEnds, Step, Value, Same, Ends, GoodStatus, GoodLines, EndsWell;
    LengthHead(transform, st, front, name, gap, digits, back);
    rec, state, out, transf, left := FeedCounted(fragments, transform, st, front + [name + (gap + digits)] + back, u);
  }

  lemma LengthLineBytes(name: string, gap: string, digits: string)
    requires Same(name, "CONTENT-LENGTH:") && (forall k :: 0 <= k < |gap| ==> gap[k] == ' ' || gap[k] == '\t')
    requires AllDigits(10, digits, |digits|)
    ensures name != "" && OneLine(name) && OneLine(gap) && OneLine(digits)
  {
    hide Same;
    SameIs(name, "CONTENT-LENGTH:");
    forall b | b in name ensures b != '\r' && b != NUL {
      var k :| 0 <= k < |name| && name[k] == b;
      assert Upper(b) == "CONTENT-LENGTH:"[k];
    }
    assert forall k :: 0 <= k < |digits| ==> IsDigit(10, digits[k]);
  }

  lemma OneLineAppend(a: string, b: string)
    requires OneLine(a) && OneLine(b)
    ensures OneLine(a + b)
  {
  }

  lemma LengthLineGood(name: string, gap: string, digits: string)
    requires Same(name, "CONTENT-LENGTH:") && (forall k :: 0 <= k < |gap| ==> gap[k] == ' ' || gap[k] == '\t')
    requires digits != "" && AllDigits(10, digits, |digits|) && Value(10, digits, |digits|) < INT_LIMIT
    ensures GoodLine(name + (gap + digits)) && EndsWell(name + (gap + digits))
  {
    hide Value, Same, EndsWell, InRange, OneLine, AllDigits, LineEffect, Rewrite;
    ContentLengthLine(Fresh(false), name, gap, digits);
    LengthLineBytes(name, gap, digits);
    OneLineAppend(gap, digits);
    OneLineAppend(name, gap + digits);
  }

  /** A head with one Content-Length line more than those in which none is found. */
  lemma LengthHead(transform: bool, st: StatusLine, front: seq<string>, name: string, gap: string, digits: string,
                   back: seq<string>)
    requires Same(name, "CONTENT-LENGTH:") && (forall k :: 0 <= k < |gap| ==> gap[k] == ' ' || gap[k] == '\t')
    requires digits != "" && AllDigits(10, digits, |digits|) && Value(10, digits, |digits|) < INT_LIMIT
    requires GoodStatus(st) && GoodLines(front) && GoodLines(back) && NoLength(st, front + back)
    requires back == [] || EndsWell(back[|back| - 1])
    ensures var lines := front + [name + (gap + digits)] + back;
            && GoodLines(lines) && HeadEnds(st, lines)
            && HeadRec(transform, st, lines).bodyLength == Value(10, digits, |digits|) && !HeadRec(transform, st, lines).isChunked
  {
    hide Value, Same, EndsWell, LineEffect, Finds, FindsChunked, GoodLine, Effects, AllDigits, GoodStatus, HeadRec, StatusEffect;
    var line := name + (gap + digits);
    LengthLineGood(name, gap, digits);
    LengthOfHead(transform, st, front, name, gap, digits, back);
    LengthFlags(transform, st, front, line, back);
    LengthUnchunked(name, gap, digits);
    assert back == [] ==> front + [line] + back == front + [line];
  }

  lemma LengthOfHead(transform: bool, st: StatusLine, front: seq<string>, name: string, gap: string, digits: string,
                     back: seq<string>)
    requires Same(name, "CONTENT-LENGTH:") && (forall k :: 0 <= k < |gap| ==> gap[k] == ' ' || gap[k] == '\t')
    requires digits != "" && AllDigits(10, digits, |digits|) && Value(10, digits, |digits|) < INT_LIMIT
    requires GoodStatus(st) && forall l :: l in back ==> !Finds(l, Ength)
    ensures HeadRec(transform, st, front + [name + (gap + digits)] + back).bodyLength == Value(10, digits, |digits|)
  {
    hide Value, Same, EndsWell, InRange, LineEffect, Finds, Effects, AllDigits, Rewrite, GoodStatus, StatusEffect;
    var line := name + (gap + digits);
    var first := StatusEffect(Fresh(transform), st);
    var middle := Effects(first, front);
    EffectsSplit(first, front, [line] + back);
    assert front + ([line] + back) == front + [line] + back;
    ContentLengthLine(middle, name, gap, digits);
    LengthRest(middle, line, back);
    NoLengthLines(LineEffect(middle, line), back);
  }

  lemma LengthUnchunked(name: string, gap: string, digits: string)
    requires Same(name, "CONTENT-LENGTH:") && (forall k :: 0 <= k < |gap| ==> gap[k] == ' ' || gap[k] == '\t')
    requires digits != "" && AllDigits(10, digits, |digits|) && Value(10, digits, |digits|) < INT_LIMIT
    ensures !FindsChunked(name + (gap + digits))
  {
    hide Value, Same, EndsWell, InRange, LineEffect, Finds, FindsChunked, AllDigits, Rewrite;
    ContentLengthLine(Fresh(false), name, gap, digits);
    FlagsOfLine(Fresh(false), name + (gap + digits));
  }

  lemma LengthRest(rec: Rec, line: string, back: seq<string>)
    ensures Effects(rec, [line] + back) == Effects(LineEffect(rec, line), back)
  {
    hide LineEffect;
    assert ([line] + back)[1..] == back;
  }

  /** A head is chunked only if a line says so. */
  lemma LengthFlags(transform: bool, st: StatusLine, front: seq<string>, line: string, back: seq<string>)
    requires GoodStatus(st) && NoLength(st, front + back)
    ensures HeadRec(transform, st, front + [line] + back).isChunked == FindsChunked(line)
  {
    hide LineEffect, Finds, FindsChunked, Value, Effects;
    var v := Value(10, st.digits, |st.digits|);
    var rec := Fresh(transform).(version := if st.minor == '0' then V10 else V11, status := v);
    FlagsOfLine(rec, st.reason);
    FlagsOfBlock(LineEffect(rec, st.reason), front + [line] + back);
    assert line in front + [line] + back;
    forall l | l in front + [line] + back && l != line ensures !FindsChunked(l) {
      assert l in front + back;
    }
  }
}
