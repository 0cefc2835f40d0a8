/** What the response parser makes of the header lines, in whatever order and shape they come:
    `HeaderText` says it as text, and here the machine is proved to do it. */
module HeaderMeaning {
  import opened Bytes
  import opened Numbers
  import opened ParserUtils
  import opened ResponseMachine
  import opened ResponseLemmas
  import opened HeaderText

  /** A CR LF in the middle of a line. */
  lemma EndOfLine(c: Conf, t: string)
    requires c.p == Scanning
    ensures Run(c, Queue("", "\r\n" + t)) == Run(Went(c, Crlf, "\r\n"), Queue("", t))
  {
    hide Run, Step, Queue.Drop, Queue.LoudTake;
    var q := Queue("", "\r\n" + t);
    assert q.Head() == '\r' && q.Loud() == "\r";
    CrStep(c.rec);
    DropFresh("\r", "\n" + t);
    assert "\r\n" + t == "\r" + ("\n" + t);
    HeaderByteRun(c, q, Word(Lf, 0));
    DropFresh("\r\n", t);
    assert Text(Lf) == "\n" && q.Text()[1] == '\n' by { assert q.Text() == "\r\n" + t; }
    WordThrough(c, "\r", Lf, q, 1, 1);
    assert Matched(c.rec, Lf) == (c.rec, Crlf);
  }

  lemma CrStep(rec: Rec)
    ensures Step(rec, Scanning, '\r', "\r") == Take(rec, Word(Lf, 0), "\r")
  {
  }

  function ValueState(t: Token): ResponseParserState {
    match t
    case Nection => ConnectionCheck
    case Ength => LengthCheck
    case Ncoding => EncodingCheck
    case Ype => TypeCheck
    case _ => ChunkedCheck
  }

  lemma {:induction false} MatchEndPrefix(format: string, s: string, u: string, i: nat)
    requires '\r' !in format && i <= |format| && i <= |s|
    ensures MatchEnd(format, s + ("\r\n" + u), i) == MatchEnd(format, s, i)
    decreases |s| - i
  {
    var w := s + ("\r\n" + u);
    if i < |format| {
      assert format[i] in format;
      if i < |s| {
        assert w[i] == s[i];
        if Upper(s[i]) == Upper(format[i]) {
          MatchEndPrefix(format, s, u, i + 1);
        }
      } else {
        assert w[i] == '\r';
        assert Upper(format[i]) != '\r';
      }
    }
  }

  lemma {:induction false} DigitsEndPrefix(s: string, u: string, i: nat)
    requires i <= |s|
    ensures DigitsEnd(10, s + ("\r\n" + u), i) == DigitsEnd(10, s, i)
    decreases |s| - i
  {
    var w := s + ("\r\n" + u);
    if i < |s| {
      assert w[i] == s[i];
      if IsDigit(10, s[i]) {
        DigitsEndPrefix(s, u, i + 1);
      }
    } else {
      assert w[i] == '\r';
    }
  }

  lemma LineQueue(s: string, n: nat, u: string)
    requires OneLine(s) && n <= |s|
    ensures var q := Queue("", s + ("\r\n" + u));
            && q.Drop(n) == Queue("", s[n..] + ("\r\n" + u)) && q.LoudTake(n) == s[..n]
            && n < q.Size() && !NulAt(q.Text(), n) && q.Text() == s + ("\r\n" + u)
  {
    assert s + ("\r\n" + u) == s[..n] + (s[n..] + ("\r\n" + u));
    DropFresh(s[..n], s[n..] + ("\r\n" + u));
    if n < |s| {
      assert (s + ("\r\n" + u))[n] == s[n] && s[n] in s;
    }
  }

  function AfterMatch(rec: Rec, t: Token, found: bool): (Rec, Place) {
    if found then Matched(rec, t) else (rec, Missed(t))
  }

  lemma WordQueue(c: Conf, t: Token, q: Queue, n: nat)
    requires c.p == Word(t, 0) && t != VersionText && n == MatchEnd(Text(t), q.Text(), 0) < q.Size() && !NulAt(q.Text(), n)
    ensures var (rec, p) := AfterMatch(c.rec, t, n == |Text(t)|);
            Run(c, q) == Run(Conf(rec, p, c.out + q.LoudTake(n), c.transf), q.Drop(n))
  {
    hide Run, Queue.Drop, Queue.LoudTake, Text, Matched, Missed, NulAt, MatchEnd;
    WordOutcome(c, t, q);
  }

  /** A word at the start of what is left of a line, found or not. */
  lemma WordTextRun(c: Conf, t: Token, s: string, u: string)
    requires c.p == Word(t, 0) && t != VersionText && t != Lf && OneLine(s)
    ensures var n := MatchEnd(Text(t), s, 0);
            var (rec, p) := AfterMatch(c.rec, t, n == |Text(t)|);
            Run(c, Queue("", s + ("\r\n" + u))) ==
            Run(Conf(rec, p, c.out + s[..n], c.transf), Queue("", s[n..] + ("\r\n" + u)))
  {
    assert '\r' !in Text(t);
    hide Run, Queue.Drop, Queue.LoudTake, Text, AfterMatch, NulAt, MatchEnd, OneLine;
    var q, n := Queue("", s + ("\r\n" + u)), MatchEnd(Text(t), s, 0);
    MatchEndPrefix(Text(t), s, u, 0);
    LineQueue(s, n, u);
    hide Queue.Text, Queue.Size;
    WordQueue(c, t, q, n);
  }

  lemma KeyFacts(rec: Rec, t: Token)
    requires IsKey(t)
    ensures Matched(rec, t) == (rec, Spaces(ValueState(t))) && Missed(t) == Scanning && t != VersionText && t != Lf
  {
  }

  /** What a look gives, as a run. */
  ghost predicate Looked(g: Glance, c: Conf, r: Outcome, s: string, u: string) {
    match g
    case Passed(n) => n <= |s| && r == Run(Went(c, Scanning, s[..n]), Queue("", s[n..] + ("\r\n" + u)))
    case Named(t, n) =>
      n <= |s| && r == Run(Went(c, Spaces(ValueState(t)), s[..n]), Queue("", s[n..] + ("\r\n" + u)))
    case HidesEnd => r == Run(Went(c, Scanning, s + "\r\n"), Queue("", u))
  }

  lemma RestRun(c: Conf, t: Token, s: string, i: nat, u: string)
    requires i <= |s| && OneLine(s) && c.p == Scanning && IsKey(t)
    ensures Looked(Rest(t, s, i), c, Run(Went(c, Word(t, 0), s[..i]), Queue("", s[i..] + ("\r\n" + u))), s, u)
  {
    hide Run, Text;
    KeyFacts(c.rec, t);
    WordTextRun(Went(c, Word(t, 0), s[..i]), t, s[i..], u);
    var n := MatchEnd(Text(t), s[i..], 0);
    assert s[..i] + s[i..][..n] == s[..i + n] && s[i..][n..] == s[i + n..];
    AppendAppend(c.out, s[..i], s[i..][..n]);
  }

  lemma FirstByteRun(c: Conf, s: string, u: string)
    requires s != "" && OneLine(s) && c.p == Scanning
    ensures Run(c, Queue("", s + ("\r\n" + u))) ==
            Run(Went(c, Scan(c.rec, s[0], "").p, s[..1]), Queue("", s[1..] + ("\r\n" + u)))
    ensures s[0] != '\r'
  {
    hide Run;
    var q := Queue("", s + ("\r\n" + u));
    assert s[0] in s && q.Head() == s[0] && q.Loud() == s[..1] && q.Tail() == Queue("", s[1..] + ("\r\n" + u));
    ScanRun(c, q);
  }

  lemma LookRun(c: Conf, s: string, u: string)
    requires s != "" && OneLine(s) && c.p == Scanning
    ensures Looked(Look(s), c, Run(c, Queue("", s + ("\r\n" + u))), s, u)
  {
    hide Run, Text;
    FirstByteRun(c, s, u);
    if Upper(s[0]) == 'T' {
      RestRun(c, Ransfer, s, 1, u);
    } else if Upper(s[0]) == 'C' {
      LookRunC(c, s, u);
    }
  }

  lemma WordFacts(rec: Rec)
    ensures Text(On) == "ON" && Text(Tent) == "TENT-"
    ensures Matched(rec, On) == (rec, Word(Tent, 0)) && Missed(On) == Scanning
    ensures Matched(rec, Tent) == (rec, ContentDash) && Missed(Tent) == Word(Nection, 0)
  {
  }

  lemma LookRunC(c: Conf, s: string, u: string)
    requires s != "" && OneLine(s) && c.p == Scanning && Upper(s[0]) == 'C'
    ensures Looked(Look(s), c, Run(Went(c, Word(On, 0), s[..1]), Queue("", s[1..] + ("\r\n" + u))), s, u)
  {
    hide Run, Text, Matched, Missed, LookAfterDash;
    WordFacts(c.rec);
    WordTextRun(Went(c, Word(On, 0), s[..1]), On, s[1..], u);
    var o := MatchEnd("ON", s[1..], 0);
    assert s[..1] + s[1..][..o] == s[..1 + o] && s[1..][o..] == s[1 + o..];
    AppendAppend(c.out, s[..1], s[1..][..o]);
    if o == 2 {
      LookRunCon(c, s, u);
    }
  }

  lemma LookRunCon(c: Conf, s: string, u: string)
    requires 3 <= |s| && OneLine(s) && c.p == Scanning && Upper(s[0]) == 'C' && MatchEnd("ON", s[1..], 0) == 2
    ensures Looked(Look(s), c, Run(Went(c, Word(Tent, 0), s[..3]), Queue("", s[3..] + ("\r\n" + u))), s, u)
  {
    hide Run, Text, Matched, Missed, LookAfterDash, Rest;
    WordFacts(c.rec);
    WordTextRun(Went(c, Word(Tent, 0), s[..3]), Tent, s[3..], u);
    var e := MatchEnd("TENT-", s[3..], 0);
    assert s[..3] + s[3..][..e] == s[..3 + e] && s[3..][e..] == s[3 + e..];
    AppendAppend(c.out, s[..3], s[3..][..e]);
    hide MatchEnd;
    if e < 5 {
      RestRun(c, Nection, s, 3 + e, u);
    } else if |s| == 8 {
      assert s[..8] == s && s[8..] == "";
      HiddenCr(c, s, u);
    } else {
      DashRunText(c, s, u);
    }
  }

  /** After CONTENT- the CR is taken for the letter that should follow, so the LF means nothing. */
  lemma HiddenCr(c: Conf, s: string, u: string)
    ensures Run(Went(c, ContentDash, s), Queue("", "" + ("\r\n" + u))) == Run(Went(c, Scanning, s + "\r\n"), Queue("", u))
  {
    hide Run;
    var d, q := Went(c, ContentDash, s), Queue("", "\r\n" + u);
    assert "" + ("\r\n" + u) == "\r\n" + u && q.Tail() == Queue("", "\n" + u) && q.Tail().Tail() == Queue("", u);
    ContentByte(d, q);
    ScanRun(Went(d, Scanning, "\r"), q.Tail());
    assert c.out + s + "\r" + "\n" == c.out + (s + "\r\n");
  }

  lemma DashRunText(c: Conf, s: string, u: string)
    requires 8 < |s| && OneLine(s) && c.p == Scanning
    ensures Looked(LookAfterDash(s), c, Run(Went(c, ContentDash, s[..8]), Queue("", s[8..] + ("\r\n" + u))), s, u)
  {
    hide Run, Text, Rest;
    var d, q := Went(c, ContentDash, s[..8]), Queue("", s[8..] + ("\r\n" + u));
    assert s[8] in s && q.Head() == s[8] && q.Loud() == [s[8]] && q.Tail() == Queue("", s[9..] + ("\r\n" + u));
    ContentByte(d, q);
    assert s[..8] + [s[8]] == s[..9];
    AppendAppend(c.out, s[..8], [s[8]]);
    RestRun(c, Ength, s, 9, u);
    RestRun(c, Ncoding, s, 9, u);
    RestRun(c, Ype, s, 9, u);
  }

  /** The spaces after a header name: one space is written for all of them. */
  lemma GapRun(c: Conf, gap: string, u: string)
    requires c.p.Spaces? && Live(c.rec, c.p) && (forall k :: 0 <= k < |gap| ==> IsSpace(gap[k]))
    requires u != "" && !IsSpace(u[0]) && u[0] != NUL
    ensures Run(c, Queue("", gap + u)) ==
            Run(Went(c, Resumed(c.p.next, c.p.next, c.rec), " "), Queue("", u))
  {
    hide Run, Step, Queue.Drop, Queue.LoudTake, Resumed, Live;
    DropFresh(gap, u);
    SpacesRun(c, Queue("", gap + u), |gap|);
    SpacesOver(c, Queue("", u));
  }

  /** The digits of a Content-Length, if any, and where they leave the machine. */
  lemma LengthDigits(c: Conf, q: Queue)
    requires c.p == Digits(LengthNumber, None)
    requires var n := DigitsEnd(10, q.Text(), 0);
             n < q.Size() && !NulAt(q.Text(), n) && Value(10, q.Text(), n) < INT_LIMIT
    ensures var n := DigitsEnd(10, q.Text(), 0);
            var rec := if n > 0 then c.rec.(bodyLength := Value(10, q.Text(), n)) else c.rec;
            Run(c, q) == Run(Conf(rec, Scanning, c.out + q.LoudTake(n), c.transf), q.Drop(n))
  {
    hide Run, Step, Queue.Drop, Queue.LoudTake, Value, NulAt;
    q.DropNone();
    assert c.out + "" == c.out;
    NumberOutcome(c, LengthNumber, q);
  }

  lemma {:induction false} SkipRun(c: Conf, value: string, u: string)
    requires c.p == SkippingConnection && '\r' !in value && NUL !in value
    ensures Run(c, Queue("", value + u)) == Run(c, Queue("", u))
    decreases |value|
  {
    hide Run, Step;
    if value == "" {
      assert value + u == u;
    } else {
      var q := Queue("", value + u);
      assert value[0] in value && q.Head() == value[0];
      assert q.Tail() == Queue("", value[1..] + u);
      SkippedByte(c, q);
      SkipRun(c, value[1..], u);
    }
  }

  /** The value of Connection is replaced. */
  lemma ConnectionRun(c: Conf, value: string, u: string)
    requires c.p == SkippingConnection && OneLine(value)
    ensures Run(c, Queue("", value + ("\r\n" + u))) ==
            Run(Conf(c.rec.(isClose := true), Scanning, c.out + "close", c.transf), Queue("", "" + ("\r\n" + u)))
  {
    hide Run, Step;
    SkipRun(c, value, "\r\n" + u);
    SkippedValue(c, Queue("", "\r\n" + u));
    assert "" + ("\r\n" + u) == "\r\n" + u;
  }

  /** The value of Content-Length: its leading digits. */
  lemma LengthRun(c: Conf, value: string, u: string)
    requires c.p == Digits(LengthNumber, None) && OneLine(value)
    requires Value(10, value, DigitsEnd(10, value, 0)) < INT_LIMIT
    ensures var n := DigitsEnd(10, value, 0);
            Run(c, Queue("", value + ("\r\n" + u))) ==
            Run(Conf(Effect(c.rec, Ength, value), Scanning, c.out + value[..n], c.transf), Queue("", value[n..] + ("\r\n" + u)))
  {
    hide Run, Step, Queue.Drop, Queue.LoudTake, Text, Value, NulAt, Queue.Text, Queue.Size;
    var q := Queue("", value + ("\r\n" + u));
    var n := DigitsEnd(10, value, 0);
    DigitsEndPrefix(value, u, 0);
    LineQueue(value, n, u);
    assert q.Text()[..n] == value[..n];
    ValueOfPrefix(10, value, q.Text(), n);
    LengthDigits(c, q);
  }

  lemma ValueFacts(rec: Rec, t: Token)
    requires IsKey(t)
    ensures var p := Resumed(ValueState(t), ValueState(t), rec);
            p == if t == Nection then SkippingConnection else if t == Ength then Digits(LengthNumber, None)
                 else if t == Ncoding then Word(GzipText, 0) else if t == Ransfer then Word(ChunkedText, 0) else Scanning
    ensures Matched(rec, GzipText) == (rec.(cEncoding := Gzip), Scanning)
    ensures Matched(rec, ChunkedText) == (rec.(isChunked := true), Scanning)
    ensures Missed(GzipText) == Missed(ChunkedText) == Scanning
  {
  }

  /** The value of a field: what is read of it, what that means, and where the search goes on. */
  lemma ValueRun(c: Conf, t: Token, v: string, u: string)
    requires IsKey(t) && OneLine(v) && c.p == Resumed(ValueState(t), ValueState(t), c.rec)
    requires t == Ength ==> Value(10, v, DigitsEnd(10, v, 0)) < INT_LIMIT
    ensures var k := ValueLength(t, v);
            Run(c, Queue("", v + ("\r\n" + u))) ==
            Run(Conf(Effect(c.rec, t, v), Scanning, c.out + ValueText(t, v[..k]), c.transf),
                Queue("", v[k..] + ("\r\n" + u)))
  {
    hide Run, Text, Value, Resumed, Matched, Missed, DigitsEnd, MatchEnd;
    ValueFacts(c.rec, t);
    assert v[..0] == "" && v[0..] == v && c.out + "" == c.out;
    match t {
      case Nection =>
        ConnectionRun(c, v, u);
        assert v[|v|..] == "";
      case Ength => LengthRun(c, v, u);
      case Ncoding => WordTextRun(c, GzipText, v, u);
      case Ransfer => WordTextRun(c, ChunkedText, v, u);
      case _ =>
    }
  }

  /** A name, its spaces and its value. */
  lemma NamedRun(c: Conf, s: string, u: string)
    requires s != "" && OneLine(s) && c.p == Scanning && Look(s).Named? && BitFits(First(s))
    ensures var b := First(s);
            Run(c, Queue("", s + ("\r\n" + u))) ==
            Run(Conf(BitEffect(c.rec, b), Scanning, c.out + b.out, c.transf), Queue("", s[b.used..] + ("\r\n" + u)))
  {
    hide Run, Look, Value, Effect, ValueText, ValueLength, Resumed, DigitsEnd, IsKey;
    LookRun(c, s, u);
    var Named(t, n) := Look(s);
    var e := SpacesEnd(s, n);
    var v := s[e..];
    var d := Went(c, Spaces(ValueState(t)), s[..n]);
    assert s[n..] + ("\r\n" + u) == s[n..e] + (v + ("\r\n" + u));
    AfterGap(s, e, u);
    GapRun(d, s[n..e], v + ("\r\n" + u));
    var k := ValueLength(t, v);
    ValueRun(Went(d, Resumed(ValueState(t), ValueState(t), c.rec), " "), t, v, u);
    assert v[k..] == s[e + k..];
    assert c.out + s[..n] + " " + ValueText(t, v[..k]) == c.out + (s[..n] + (" " + ValueText(t, v[..k])));
  }

  lemma AfterGap(s: string, e: nat, u: string)
    requires OneLine(s) && e <= |s| && (e < |s| ==> !IsSpace(s[e]))
    ensures var rest := s[e..] + ("\r\n" + u); rest != "" && !IsSpace(rest[0]) && rest[0] != NUL && OneLine(s[e..])
  {
    var rest := s[e..] + ("\r\n" + u);
    assert rest[0] == if e < |s| then s[e] else '\r';
    assert e < |s| ==> s[e] in s;
  }

  /** A header line, whatever it holds: what comes out, what it means, and whether its end is seen. */
  lemma {:induction false} LineRun(c: Conf, s: string, u: string)
    requires c.p == Scanning && OneLine(s) && InRange(s)
    ensures Run(c, Queue("", s + ("\r\n" + u))) ==
            Run(Conf(LineEffect(c.rec, s), if EndsWell(s) then Crlf else Scanning, c.out + (Rewrite(s) + "\r\n"), c.transf),
                Queue("", u))
    decreases |s|
  {
    hide Run, Look, First, BitFits, BitEffect;
    if s == "" {
      assert "" + ("\r\n" + u) == "\r\n" + u && "" + "\r\n" == "\r\n";
      EndOfLine(c, u);
    } else {
      BitRun(c, s, u);
      var b := First(s);
      if !Look(s).HidesEnd? {
        var o := Rewrite(s[b.used..]);
        LineRun(Conf(BitEffect(c.rec, b), Scanning, c.out + b.out, c.transf), s[b.used..], u);
        AppendAppend(c.out, b.out, o + "\r\n");
        AppendAppend(b.out, o, "\r\n");
      } else {
        HidingLine(c.rec, s);
      }
    }
  }

  lemma BitRun(c: Conf, s: string, u: string)
    requires s != "" && OneLine(s) && c.p == Scanning && BitFits(First(s))
    ensures var b := First(s);
            Run(c, Queue("", s + ("\r\n" + u))) ==
            if Look(s).HidesEnd? then Run(Went(c, Scanning, s + "\r\n"), Queue("", u))
            else Run(Conf(BitEffect(c.rec, b), Scanning, c.out + b.out, c.transf), Queue("", s[b.used..] + ("\r\n" + u)))
  {
    hide Run, Look;
    if Look(s).Named? {
      NamedRun(c, s, u);
    } else {
      LookRun(c, s, u);
    }
  }

  /** The lines of a header block, each closed by CR LF. */
  function RenderLines(lines: seq<string>): string {
    if lines == [] then "" else lines[0] + ("\r\n" + RenderLines(lines[1..]))
  }

  function RewriteLines(lines: seq<string>): string {
    if lines == [] then "" else Rewrite(lines[0]) + ("\r\n" + RewriteLines(lines[1..]))
  }

  function Effects(rec: Rec, lines: seq<string>): Rec
    decreases |lines|
  {
    if lines == [] then rec else Effects(LineEffect(rec, lines[0]), lines[1..])
  }

  ghost predicate GoodLine(s: string) { s != "" && OneLine(s) && InRange(s) }

  ghost predicate GoodLines(lines: seq<string>) { forall l :: l in lines ==> GoodLine(l) }

  /** The empty line after the block is seen; `ended` says whether the end of the line before was. */
  predicate EndsBlock(ended: bool, lines: seq<string>) {
    if lines == [] then ended else EndsWell(lines[|lines| - 1])
  }

  function LineEnd(ended: bool): Place { if ended then Crlf else Scanning }

  lemma EmptyLine(c: Conf, u: string)
    requires c.p == Crlf
    ensures Run(c, Queue("", "\r\n" + u)) ==
            Run(Conf(c.rec, BodyStart(c.rec), c.out + Trailer(c.rec), c.transf), Queue("", u))
  {
    hide Run, BodyStart, Trailer;
    var q := Queue("", "\r\n" + u);
    CrlfByte(c, q);
    assert q.Tail() == Queue("", "\n" + u);
    CrlfByte(At(c, CrlfCr), q.Tail());
    assert q.Tail().Tail() == Queue("", u);
  }

  /** A CR that no LF follows. Inside a line it is forwarded like any other byte. */
  lemma LoneCr(c: Conf, b: char, u: string)
    requires c.p == Scanning && b != '\n' && b != NUL
    ensures Run(c, Queue("", "\r" + ([b] + u))) == Run(Went(c, Scanning, "\r"), Queue("", [b] + u))
  {
    hide Run, Step, Queue.Drop, Queue.LoudTake;
    var q := Queue("", "\r" + ([b] + u));
    assert q.Head() == '\r' && q.Loud() == "\r";
    CrStep(c.rec);
    DropFresh("\r", [b] + u);
    HeaderByteRun(c, q, Word(Lf, 0));
    assert Text(Lf) == "\n" && Upper(b) != '\n';
    MissedByte(Went(c, Word(Lf, 0), "\r"), Lf, 0, Queue("", [b] + u));
  }

  /** At the start of a line it is lost, and the byte after it is looked at afresh. */
  lemma LostCr(c: Conf, b: char, u: string)
    requires c.p == Crlf && b != '\n' && b != NUL
    ensures Run(c, Queue("", "\r" + ([b] + u))) == Run(At(c, Scanning), Queue("", [b] + u))
  {
    hide Run;
    var q := Queue("", "\r" + ([b] + u));
    CrlfByte(c, q);
    assert q.Tail() == Queue("", [b] + u);
    CrlfByte(At(c, CrlfCr), q.Tail());
  }

  /** A line goes on in the same way whether or not the end of the last one was seen. */
  lemma LineStart(c: Conf, s: string, u: string)
    requires (c.p == Crlf || c.p == Scanning) && s != "" && OneLine(s)
    ensures Run(c, Queue("", s + u)) == Run(At(c, Scanning), Queue("", s + u))
  {
    hide Run;
    assert s[0] in s && (s + u)[0] == s[0];
    if c.p == Crlf {
      CrlfByte(c, Queue("", s + u));
    }
  }

  lemma {:induction false} LinesRun(c: Conf, lines: seq<string>, u: string)
    requires (c.p == Crlf || c.p == Scanning) && GoodLines(lines) && lines != []
    ensures Run(c, Queue("", RenderLines(lines) + u)) ==
            Run(Conf(Effects(c.rec, lines), LineEnd(EndsBlock(true, lines)),
                     c.out + RewriteLines(lines), c.transf), Queue("", u))
    decreases |lines|
  {
    hide Run, GoodLine, EndsWell, InRange, Rewrite, LineEffect;
    var rest := RenderLines(lines[1..]) + u;
    assert RenderLines(lines) + u == lines[0] + ("\r\n" + rest);
    assert GoodLine(lines[0]);
    LineOfBlock(c, lines[0], rest);
    var o := Rewrite(lines[0]) + "\r\n";
    assert RewriteLines(lines) == o + RewriteLines(lines[1..]);
    if lines[1..] == [] {
      assert rest == u && o + "" == o;
    } else {
      var d := Conf(LineEffect(c.rec, lines[0]), LineEnd(EndsWell(lines[0])), c.out + o, c.transf);
      LinesRun(d, lines[1..], u);
      AppendAppend(c.out, o, RewriteLines(lines[1..]));
    }
  }

  lemma LineOfBlock(c: Conf, s: string, u: string)
    requires (c.p == Crlf || c.p == Scanning) && GoodLine(s)
    ensures Run(c, Queue("", s + ("\r\n" + u))) ==
            Run(Conf(LineEffect(c.rec, s), if EndsWell(s) then Crlf else Scanning, c.out + (Rewrite(s) + "\r\n"), c.transf),
                Queue("", u))
  {
    hide Run, EndsWell, InRange, Rewrite, LineEffect;
    LineStart(c, s, "\r\n" + u);
    LineRun(At(c, Scanning), s, u);
  }

  /** Header rewriting, for any lines. If the CR of the last one is seen, the trailer takes the place of
      the empty line, once; and if not, the empty line is taken for the end of that line, and the
      headers go on. */
  lemma HeaderBlock(c: Conf, ended: bool, lines: seq<string>, u: string)
    requires c.p == LineEnd(ended) && GoodLines(lines)
    ensures var rec := Effects(c.rec, lines);
            Run(c, Queue("", RenderLines(lines) + ("\r\n" + u))) ==
            if EndsBlock(ended, lines)
            then Run(Conf(rec, BodyStart(rec), c.out + (RewriteLines(lines) + Trailer(rec)), c.transf), Queue("", u))
            else Run(Conf(rec, Crlf, c.out + (RewriteLines(lines) + "\r\n"), c.transf), Queue("", u))
  {
    hide Run, GoodLines, BodyStart, Trailer, EndsBlock, RewriteLines, RenderLines, Effects;
    BlockStart(c.rec, ended, lines);
    var rec, o := Effects(c.rec, lines), RewriteLines(lines);
    var d := Conf(rec, LineEnd(EndsBlock(ended, lines)), c.out + o, c.transf);
    if lines == [] {
      assert "" + ("\r\n" + u) == "\r\n" + u && c.out + "" == c.out;
    } else {
      LinesRun(c, lines, "\r\n" + u);
    }
    if EndsBlock(ended, lines) { EmptyLine(d, u); } else { EndOfLine(d, u); }
    AppendAppend(c.out, o, Trailer(rec));
    AppendAppend(c.out, o, "\r\n");
  }

  lemma BlockStart(rec: Rec, ended: bool, lines: seq<string>)
    ensures lines == [] ==> RenderLines(lines) == "" && RewriteLines(lines) == "" && Effects(rec, lines) == rec
                            && EndsBlock(ended, lines) == ended
    ensures lines != [] ==> EndsBlock(ended, lines) == EndsBlock(true, lines)
  {
  }

  /** The flags that decide what the trailer adds: `isClose` records that a Connection field was found,
      and `isChunked` that a Transfer-Encoding beginning with `chunked` was. */
  lemma {:induction false} FlagsOfBlock(rec: Rec, lines: seq<string>)
    ensures var r := Effects(rec, lines);
            && r.isClose == (rec.isClose || exists l :: l in lines && Finds(l, Nection))
            && r.isChunked == (rec.isChunked || exists l :: l in lines && FindsChunked(l))
            && r.withTransf == rec.withTransf && r.state == rec.state && r.status == rec.status && r.version == rec.version
    decreases |lines|
  {
    hide LineEffect, Finds, FindsChunked;
    if lines != [] {
      FlagsOfLine(rec, lines[0]);
      FlagsOfBlock(LineEffect(rec, lines[0]), lines[1..]);
      assert lines == [lines[0]] + lines[1..];
    }
  }

  /** The shortest block whose end is missed. */
  lemma MissedEnd(c: Conf, u: string)
    requires c.p == Crlf
    ensures Run(c, Queue("", "CONTENT-\r\n\r\n" + u)) == Run(Went(c, Crlf, "CONTENT-\r\n\r\n"), Queue("", u))
  {
    hide Run, Look, RenderLines, RewriteLines, Effects, Rewrite, LineEffect, EndsWell, InRange, Trailer, BodyStart;
    var s := "CONTENT-";
    DashHides();
    HidingLine(c.rec, s);
    OneLineBlock(c.rec, s);
    assert EndsBlock(true, [s]) == EndsWell(s);
    HeaderBlock(c, true, [s], u);
    assert "CONTENT-\r\n\r\n" + u == s + "\r\n" + ("\r\n" + u);
    assert "CONTENT-\r\n\r\n" == s + "\r\n" + "\r\n";
  }

  lemma OneLineBlock(rec: Rec, s: string)
    ensures RenderLines([s]) == s + "\r\n" && RewriteLines([s]) == Rewrite(s) + "\r\n"
    ensures Effects(rec, [s]) == LineEffect(rec, s)
  {
    hide Rewrite, LineEffect;
    assert RenderLines([s][1..]) == "" && RewriteLines([s][1..]) == "" && "\r\n" + "" == "\r\n";
  }

  lemma DashHides()
    ensures Look("CONTENT-") == HidesEnd
  {
    var s := "CONTENT-";
    OnReads(s);
    TentReads(s);
  }
}
