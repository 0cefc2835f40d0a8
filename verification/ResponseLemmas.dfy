/** How the response machine runs: over a word, over a number, over what was pushed back, and
    over input that arrives later. */
module ResponseLemmas {
  import opened Bytes
  import opened Numbers
  import opened ParserUtils
  import opened ResponseMachine

  /** Later input continues the run where it stopped. */
  lemma {:induction false} RunPush(c: Conf, q: Queue, f: string)
    ensures Run(c, q.Push(f)) == Run(Run(c, q).c, Run(c, q).rest.Push(f))
    decreases q.Size()
  {
    if Terminal(c.p) {
    } else if q.Empty() {
    } else {
      hide Step;
      var mv := Step(c.rec, c.p, q.Head(), q.Loud());
      assert q.Push(f).Head() == q.Head() && q.Push(f).Loud() == q.Loud();
      assert q.Push(f).Tail() == q.Tail().Push(f);
      if mv.took {
        RunPush(Apply(c, mv), q.Tail(), f);
      } else {
        RefuseIsFinal(c.rec, c.p, q.Head(), q.Loud());
      }
    }
  }

  /** The run over one consumed byte. */
  lemma RunTook(c: Conf, q: Queue, mv: Move)
    requires !Terminal(c.p) && !q.Empty() && mv == Step(c.rec, c.p, q.Head(), q.Loud()) && mv.took
    ensures Run(c, q) == Run(Apply(c, mv), q.Tail())
  {
    hide Step;
  }

  /** The run up to a byte that is not consumed. */
  lemma RunRefused(c: Conf, q: Queue, mv: Move)
    requires !Terminal(c.p) && !q.Empty() && mv == Step(c.rec, c.p, q.Head(), q.Loud()) && !mv.took
    ensures Run(c, q) == Outcome(Apply(c, mv), q)
  {
    hide Step;
  }

  function AfterWord(c: Conf, t: Token, i: nat, o: string): Conf
    requires i <= |Text(t)|
  {
    if i < |Text(t)| then Conf(c.rec, Word(t, i), c.out + o, c.transf)
    else var (rec, p) := Matched(c.rec, t); Conf(rec, p, c.out + o, c.transf)
  }

  lemma WordByte(c: Conf, t: Token, i: nat, o: string, b: char, loud: string)
    requires i < |Text(t)| && Upper(b) == Text(t)[i]
    ensures var d := AfterWord(c, t, i, o); var mv := Step(d.rec, d.p, b, loud);
            mv.took && Apply(d, mv) == AfterWord(c, t, i + 1, o + loud)
  {
    hide Text;
    assert Text(t)[i] in Text(t);
    AppendAppend(c.out, o, loud);
    assert c.transf + "" == c.transf;
  }

  /** Reading the first `i` bytes of a word, in any case. */
  lemma {:induction false} WordRun(c: Conf, t: Token, q: Queue, i: nat)
    requires c.p == Word(t, 0) && i <= |Text(t)| && i <= q.Size()
    requires forall k :: 0 <= k < i ==> Upper(q.Text()[k]) == Text(t)[k]
    ensures Run(c, q) == Run(AfterWord(c, t, i, q.LoudTake(i)), q.Drop(i))
  {
    hide Step, Run, Text, Queue.LoudTake, Queue.Drop, Matched;
    q.DropNone();
    if i == 0 {
      assert c.out + "" == c.out;
    } else {
      WordRun(c, t, q, i - 1);
      q.DropStep(i - 1);
      var o, d := q.LoudTake(i - 1), q.Drop(i - 1);
      WordByte(c, t, i - 1, o, d.Head(), d.Loud());
      var here := AfterWord(c, t, i - 1, o);
      RunTook(here, d, Step(here.rec, here.p, d.Head(), d.Loud()));
    }
  }

  function AfterDigits(c: Conf, n: Numeral, v: nat, o: string): Conf {
    Conf(c.rec, Digits(n, Some(v)), c.out + NumeralOut(c.rec, n, o), c.transf)
  }

  lemma DigitByte(c: Conf, n: Numeral, v: Option<nat>, o: string, b: char, loud: string)
    requires IsDigit(BaseOf(n), b)
    ensures var d := Conf(c.rec, Digits(n, v), c.out + NumeralOut(c.rec, n, o), c.transf);
            var mv := Step(d.rec, d.p, b, loud);
            var x := Digit(BaseOf(n), v, b);
            if x < INT_LIMIT then mv.took && Apply(d, mv) == AfterDigits(c, n, x, o + loud)
            else !mv.took && mv.p == Outside
  {
    AppendAppend(c.out, NumeralOut(c.rec, n, o), NumeralOut(c.rec, n, loud));
    assert c.transf + "" == c.transf;
  }

  /** Reading the first `i` digits of a number that fits a C `int`, or past the `int`. */
  lemma {:induction false} NumberRun(c: Conf, n: Numeral, q: Queue, i: nat)
    requires c.p == Digits(n, None) && 0 < i <= q.Size()
    requires AllDigits(BaseOf(n), q.Text(), i)
    ensures var v := Value(BaseOf(n), q.Text(), i);
            if v < INT_LIMIT then Run(c, q) == Run(AfterDigits(c, n, v, q.LoudTake(i)), q.Drop(i))
            else Run(c, q).c.p == Outside
  {
    hide Step, Run, Queue.LoudTake, Queue.Drop;
    q.DropNone();
    q.DropStep(i - 1);
    ValueMonotone(BaseOf(n), q.Text(), i - 1, i);
    var o, d := q.LoudTake(i - 1), q.Drop(i - 1);
    var v := if i > 1 then Some(Value(BaseOf(n), q.Text(), i - 1)) else None;
    var here := Conf(c.rec, Digits(n, v), c.out + NumeralOut(c.rec, n, o), c.transf);
    DigitByte(c, n, v, o, d.Head(), d.Loud());
    var mv := Step(here.rec, here.p, d.Head(), d.Loud());
    if i > 1 {
      NumberRun(c, n, q, i - 1);
      if v.value >= INT_LIMIT {
        return;
      }
    } else {
      assert c.out + "" == c.out;
      assert Value(BaseOf(n), q.Text(), 0) == 0;
    }
    if mv.took {
      RunTook(here, d, mv);
    } else {
      RunRefused(here, d, mv);
    }
  }

  /** The places where a call can stop for want of input. */
  predicate Live(rec: Rec, p: Place) {
    match p
    case Spaces(next) =>
      next in {Status, LengthCheck, EncodingCheck, ChunkedCheck, ConnectionCheck, TypeCheck}
    case Word(t, i) =>
      i < |Text(t)| && (t == Nection ==> i > 0) && (t == VersionText ==> rec.version == Undefined)
    case VersionDigit => rec.version == Undefined
    case Digits(n, v) =>
      && (n == ChunkSize ==> rec.isChunked)
      && (if v == None then n == ChunkSize else v.value < INT_LIMIT)
    case SizeCr => rec.isChunked && 0 <= rec.bodyLength < INT_LIMIT
    case Payload => rec.isChunked && 0 < rec.bodyLength < INT_LIMIT
    case DataEnd(_, i) => rec.isChunked && rec.bodyLength == 0 && i < 2
    case Counted => !rec.isChunked && rec.bodyLength > 0
    case UntilClose => !rec.isChunked && rec.bodyLength < 0 && (rec.withTransf || rec.status == 200)
    case _ => true
  }

  lemma StepLive(rec: Rec, p: Place, b: char, loud: string)
    requires Live(rec, p)
    ensures var mv := Step(rec, p, b, loud); Live(mv.rec, mv.p)
  {
    hide Text, WordStep, NumberStep, Scan;
    ScanLive(rec, b, loud);
    ScanLive(rec.(isClose := true), b, loud);
    match p {
      case Word(t, i) => WordStepLive(rec, t, i, b, loud);
      case Digits(n, v) => NumberStepLive(rec, n, v, b, loud);
      case Spaces(next) =>
        WordStepLive(rec, GzipText, 0, b, loud);
        WordStepLive(rec, ChunkedText, 0, b, loud);
        NumberStepLive(rec, StatusNumber, None, b, loud);
        NumberStepLive(rec, LengthNumber, None, b, loud);
      case _ =>
    }
  }

  lemma ScanLive(rec: Rec, b: char, loud: string)
    ensures var mv := Scan(rec, b, loud); Live(mv.rec, mv.p)
  {
    hide Text;
  }

  lemma NectionIsLong()
    ensures |Text(Nection)| > 1
  {
  }

  lemma WordStepLive(rec: Rec, t: Token, i: nat, b: char, loud: string)
    requires t == VersionText ==> rec.version == Undefined
    ensures var mv := WordStep(rec, t, i, b, loud); Live(mv.rec, mv.p)
  {
    hide Text;
    NectionIsLong();
    ScanLive(rec, b, loud);
  }

  lemma NumberStepLive(rec: Rec, n: Numeral, v: Option<nat>, b: char, loud: string)
    requires n == ChunkSize ==> rec.isChunked
    requires v == None || v.value < INT_LIMIT
    ensures var mv := NumberStep(rec, n, v, b, loud); Live(mv.rec, mv.p)
  {
    hide Scan;
    ScanLive(rec, b, loud);
    if v.Some? {
      ScanLive(rec.(status := v.value), b, loud);
      ScanLive(rec.(bodyLength := v.value), b, loud);
    }
  }

  lemma {:induction false} RunLive(c: Conf, q: Queue)
    requires Live(c.rec, c.p)
    ensures Live(Run(c, q).c.rec, Run(c, q).c.p)
    decreases q.Size()
  {
    hide Step, Live;
    if !Terminal(c.p) && !q.Empty() {
      StepLive(c.rec, c.p, q.Head(), q.Loud());
      var mv := Step(c.rec, c.p, q.Head(), q.Loud());
      if mv.took {
        RunLive(Apply(c, mv), q.Tail());
      }
    }
  }

  function At(c: Conf, p: Place): Conf { c.(p := p) }

  /** A pushed-back byte that adds nothing to the outputs. */
  lemma HeldByte(c: Conf, b: char, rest: string, f: string)
    requires !Terminal(c.p)
    requires var mv := Step(c.rec, c.p, b, ""); mv.took && mv.out == "" && mv.transf == ""
    ensures var mv := Step(c.rec, c.p, b, "");
            Run(c, Queue([b] + rest, f)) == Run(Conf(mv.rec, mv.p, c.out, c.transf), Queue(rest, f))
  {
    hide Step;
    var q := Queue([b] + rest, f);
    assert q.Tail() == Queue(rest, f);
    assert c.out + "" == c.out && c.transf + "" == c.transf;
    RunTook(c, q, Step(c.rec, c.p, b, ""));
  }

  lemma HeldWord(c: Conf, t: Token, i: nat, rest: string, f: string)
    requires c.p == Word(t, 0) && i <= |Text(t)|
    ensures Run(c, Queue(Text(t)[..i] + rest, f)) == Run(AfterWord(c, t, i, ""), Queue(rest, f))
  {
    hide Step, Run, Text;
    var q := Queue(Text(t)[..i] + rest, f);
    assert q.Drop(i) == Queue(rest, f);
    WordRun(c, t, q, i);
  }

  lemma HeldNumber(c: Conf, n: Numeral, v: nat, rest: string, f: string)
    requires c.p == Digits(n, None) && v < INT_LIMIT
    ensures Run(c, Queue(Print(BaseOf(n), v) + rest, f)) ==
            Run(At(c, Digits(n, Some(v))), Queue(rest, f))
  {
    hide Step, Run;
    var s := Print(BaseOf(n), v);
    var q := Queue(s + rest, f);
    PrintValue(BaseOf(n), v);
    assert q.Text()[..|s|] == s == s[..|s|];
    ValueOfPrefix(BaseOf(n), s, q.Text(), |s|);
    assert q.Drop(|s|) == Queue(rest, f);
    assert c.out + "" == c.out;
    NumberRun(c, n, q, |s|);
  }

  ghost predicate Reads(q: Queue, word: string) {
    |word| <= q.Size() && forall k :: 0 <= k < |word| ==> Upper(q.Text()[k]) == word[k]
  }

  function Went(c: Conf, p: Place, o: string): Conf { Conf(c.rec, p, c.out + o, c.transf) }

  /** One byte of header text that leads to a place without changing the record. */
  lemma HeaderByteRun(c: Conf, q: Queue, p: Place)
    requires !Terminal(c.p) && !q.Empty()
    requires Step(c.rec, c.p, q.Head(), q.Loud()) == Take(c.rec, p, q.Loud())
    ensures Run(c, q) == Run(Went(c, p, q.LoudTake(1)), q.Drop(1))
  {
    hide Run, Step;
    q.DropNone();
    q.DropStep(0);
    assert "" + q.Loud() == q.Loud() && c.transf + "" == c.transf;
    RunTook(c, q, Step(c.rec, c.p, q.Head(), q.Loud()));
  }

  lemma WordThrough(c: Conf, o: string, t: Token, q: Queue, m: nat, n: nat)
    requires n <= |Text(t)| && m + n <= q.Size() && o == q.LoudTake(m)
    requires forall k :: 0 <= k < n ==> Upper(q.Text()[m + k]) == Text(t)[k]
    ensures Run(Went(c, Word(t, 0), o), q.Drop(m)) == Run(AfterWord(c, t, n, q.LoudTake(m + n)), q.Drop(m + n))
  {
    hide Run, Step, Text, Matched, Queue.Drop, Queue.LoudTake;
    q.DropDrop(m, n);
    AppendAppend(c.out, o, q.Drop(m).LoudTake(n));
    WordRun(Went(c, Word(t, 0), o), t, q.Drop(m), n);
  }

  lemma ConRun(c: Conf, q: Queue)
    requires c.p == Scanning && Reads(q, "CON")
    ensures Run(c, q) == Run(Went(c, Word(Tent, 0), q.LoudTake(3)), q.Drop(3))
  {
    hide Run, Queue.Drop, Queue.LoudTake;
    q.DropNone();
    q.DropStep(0);
    HeaderByteRun(c, q, Word(On, 0));
    WordThrough(c, q.LoudTake(1), On, q, 1, 2);
  }

  lemma DashRun(c: Conf, q: Queue)
    requires c.p == Scanning && Reads(q, "CONTENT-")
    ensures Run(c, q) == Run(Went(c, ContentDash, q.LoudTake(8)), q.Drop(8))
  {
    hide Run, Queue.Drop, Queue.LoudTake;
    ConRun(c, q);
    WordThrough(c, q.LoudTake(3), Tent, q, 3, 5);
  }

  lemma ContentRun(c: Conf, t: Token, q: Queue)
    requires c.p == Scanning && t in {Ength, Ncoding, Ype} && Reads(q, Before(t))
    ensures Run(c, q) == Run(Went(c, Word(t, 0), q.LoudTake(9)), q.Drop(9))
  {
    hide Run, Queue.Drop, Queue.LoudTake;
    DashRun(c, q);
    q.DropStep(8);
    q.DropDrop(8, 1);
    var d := Went(c, ContentDash, q.LoudTake(8));
    AppendAppend(c.out, q.LoudTake(8), q.Drop(8).LoudTake(1));
    HeaderByteRun(d, q.Drop(8), Word(t, 0));
  }

  /** Scanning what precedes a header word, in any case, leads to that word. */
  lemma BeforeRun(c: Conf, t: Token, q: Queue)
    requires c.p == Scanning && t !in {VersionText, GzipText, ChunkedText, Nection}
    requires Reads(q, Before(t))
    ensures var n := |Before(t)|;
            Run(c, q) == Run(Went(c, Word(t, 0), q.LoudTake(n)), q.Drop(n))
  {
    hide Run, Queue.Drop, Queue.LoudTake;
    q.DropNone();
    q.DropStep(0);
    if t in {On, Ransfer, Lf} {
      HeaderByteRun(c, q, Word(t, 0));
    } else if t == Tent {
      ConRun(c, q);
    } else {
      ContentRun(c, t, q);
    }
  }

  lemma HeldBefore(c: Conf, t: Token, rest: string, f: string)
    requires c.p == Scanning && t !in {VersionText, GzipText, ChunkedText, Nection}
    ensures Run(c, Queue(Before(t) + rest, f)) == Run(At(c, Word(t, 0)), Queue(rest, f))
  {
    hide Run, Queue.Drop, Queue.LoudTake;
    HeldDrop(Before(t), rest, f);
    assert c.out + "" == c.out;
    BeforeRun(c, t, Queue(Before(t) + rest, f));
  }

  lemma HeldContentDash(c: Conf, rest: string, f: string)
    requires c.p == Scanning
    ensures Run(c, Queue("CONTENT-" + rest, f)) == Run(At(c, ContentDash), Queue(rest, f))
  {
    hide Run, Queue.Drop, Queue.LoudTake;
    HeldDrop("CONTENT-", rest, f);
    assert c.out + "" == c.out;
    DashRun(c, Queue("CONTENT-" + rest, f));
  }

  /** `i` bytes of NECTION: after CON, although TENT- is tried first. */
  lemma HeldNection(c: Conf, i: nat, f: string)
    requires c.p == Scanning && 0 < i < |Text(Nection)|
    ensures Run(c, Queue(Before(Nection) + Text(Nection)[..i], f)) ==
            Run(At(c, Word(Nection, i)), Queue("", f))
  {
    hide Run, Queue.Drop, Queue.LoudTake;
    var s := Text(Nection)[..i];
    assert s == ['N'] + s[1..];
    HeldBefore(c, Tent, s, f);
    HeldByte(At(c, Word(Tent, 0)), 'N', s[1..], f);
    HeldByte(At(c, Word(Nection, 0)), 'N', s[1..], f);
    assert s == s + "";
    HeldWord(At(c, Word(Nection, 0)), Nection, i, "", f);
    assert c.out + "" == c.out;
  }

  lemma HeldCrlf(c: Conf, rest: string, f: string)
    requires c.p == Scanning
    ensures Run(c, Queue("\r\n" + rest, f)) == Run(At(c, Crlf), Queue(rest, f))
  {
    hide Run, Queue.Drop, Queue.LoudTake;
    HeldBefore(c, Lf, "\n" + rest, f);
    assert "\r\n" + rest == "\r" + ("\n" + rest);
    assert Text(Lf)[..1] == "\n";
    HeldWord(At(c, Word(Lf, 0)), Lf, 1, rest, f);
    assert c.out + "" == c.out;
  }

  /** A chunk size and its CR LF, pushed back because the data was cut. */
  lemma HeldSize(c: Conf, size: nat, rest: string, f: string)
    requires c.p == Digits(ChunkSize, None) && size < INT_LIMIT
    ensures var rec := c.rec.(bodyLength := size);
            && Run(c, Queue(Print(16, size) + ("\r" + rest), f)) ==
               Run(Conf(rec, SizeCr, c.out, c.transf), Queue(rest, f))
            && Run(c, Queue(Print(16, size) + ("\r\n" + rest), f)) ==
               Run(Conf(rec, DataStart(rec), c.out, c.transf), Queue(rest, f))
  {
    hide Run, Queue.Drop, Queue.LoudTake, Print;
    var sized := At(c, Digits(ChunkSize, Some(size)));
    var rec := c.rec.(bodyLength := size);
    HeldNumber(c, ChunkSize, size, "\r" + rest, f);
    HeldByte(sized, '\r', rest, f);
    HeldNumber(c, ChunkSize, size, "\r\n" + rest, f);
    assert "\r\n" + rest == "\r" + ("\n" + rest);
    HeldByte(sized, '\r', "\n" + rest, f);
    HeldByte(Conf(rec, SizeCr, c.out, c.transf), '\n', rest, f);
  }

  function CrOf(i: nat): string { if i == 1 then "\r" else "" }

  lemma FakeChunk(rec: Rec, last: bool, i: nat)
    ensures PushedBack(rec, DataEnd(last, i)) ==
            Print(16, if last then 0 else 1) + ("\r\n" + ((if last then "" else "1") + CrOf(i)))
  {
    var size := if last then 0 else 1;
    assert Print(16, size) == [DigitChar(16, size)];
  }

  lemma HeldCr(c: Conf, last: bool, i: nat, f: string)
    requires c.p == DataEnd(last, 0) && i < 2
    ensures Run(c, Queue(CrOf(i), f)) == Run(At(c, DataEnd(last, i)), Queue("", f))
  {
    hide Run;
    if i == 1 {
      assert CrOf(i) == ['\r'] + "";
      HeldByte(c, '\r', "", f);
    }
  }

  /** The fake chunk that stands for data already delivered. */
  lemma HeldDataEnd(c: Conf, last: bool, i: nat, f: string)
    requires c.p == Digits(ChunkSize, None) && c.rec.bodyLength == 0 && i < 2
    ensures Run(c, Queue(PushedBack(c.rec, DataEnd(last, i)), f)) ==
            Run(At(c, DataEnd(last, i)), Queue("", f))
  {
    hide Run, PushedBack, Print, CrOf;
    FakeChunk(c.rec, last, i);
    if last {
      HeldSize(c, 0, "" + CrOf(i), f);
      assert "" + CrOf(i) == CrOf(i);
    } else {
      HeldSize(c, 1, "1" + CrOf(i), f);
      HeldByte(Conf(c.rec.(bodyLength := 1), Payload, c.out, c.transf), '1', CrOf(i), f);
    }
    HeldCr(At(c, DataEnd(last, 0)), last, i, f);
  }

  /** A number reader that finds nothing leaves a 0 behind. */
  function Settled(p: Place): Place {
    if p == Digits(ChunkSize, None) then Digits(ChunkSize, Some(0)) else p
  }

  /** Re-reading what was pushed back restores the place and forwards nothing. */
  lemma Rehearse(c: Conf, next: ResponseParserState, f: string)
    requires Live(c.rec, c.p) && !Terminal(c.p) && (c.p.Spaces? ==> c.p.next == next)
    ensures Run(At(c, Resumed(StateOf(c.rec, c.p), next, c.rec)), Queue(PushedBack(c.rec, c.p), f))
            == Run(At(c, Settled(c.p)), Queue("", f))
  {
    hide Run, Queue.Drop, Queue.LoudTake, Print, Text, Step;
    var start := At(c, Resumed(StateOf(c.rec, c.p), next, c.rec));
    var held := PushedBack(c.rec, c.p);
    assert held + "" == held && c.out + "" == c.out;
    match c.p {
      case Word(t, i) => RehearseWord(c, t, i, f);
      case VersionDigit => RehearseVersion(c, f);
      case Digits(n, v) => HeldNumber(start, n, v.GetOr(0), "", f);
      case ContentDash =>
        assert "CONTENT-" + "" == "CONTENT-";
        HeldContentDash(start, "", f);
      case Crlf =>
        assert "\r\n" + "" == "\r\n";
        HeldCrlf(start, "", f);
      case CrlfCr =>
        assert "\r\n" + ("\r" + "") == "\r\n\r";
        HeldCrlf(start, "\r" + "", f);
        RehearseCrlfCr(start, f);
      case SizeCr =>
        assert held == Print(16, c.rec.bodyLength) + ("\r" + "");
        HeldSize(start, c.rec.bodyLength, "", f);
      case Payload =>
        assert held == Print(16, c.rec.bodyLength) + ("\r\n" + "");
        HeldSize(start, c.rec.bodyLength, "", f);
      case DataEnd(last, i) => HeldDataEnd(start, last, i, f);
      case _ =>
    }
  }

  lemma RehearseWord(c: Conf, t: Token, i: nat, f: string)
    requires c.p == Word(t, i) && Live(c.rec, c.p)
    ensures Run(At(c, Resumed(StateOf(c.rec, c.p), Status, c.rec)), Queue(PushedBack(c.rec, c.p), f))
            == Run(c, Queue("", f))
  {
    hide Run, Queue.Drop, Queue.LoudTake, Text, Step;
    var start := At(c, Resumed(StateOf(c.rec, c.p), Status, c.rec));
    var s := Text(t)[..i];
    if t == Nection {
      HeldNection(start, i, f);
    } else {
      if t in {VersionText, GzipText, ChunkedText} {
        assert Before(t) + s == s;
      } else {
        HeldBefore(start, t, s, f);
      }
      assert s + "" == s && c.out + "" == c.out;
      HeldWord(At(c, Word(t, 0)), t, i, "", f);
    }
  }

  lemma RehearseVersion(c: Conf, f: string)
    requires c.p == VersionDigit
    ensures Run(At(c, Word(VersionText, 0)), Queue("HTTP/1.", f)) == Run(c, Queue("", f))
  {
    hide Run, Queue.Drop, Queue.LoudTake, Step;
    assert Text(VersionText)[..7] + "" == "HTTP/1.";
    assert c.out + "" == c.out;
    HeldWord(At(c, Word(VersionText, 0)), VersionText, 7, "", f);
  }

  lemma RehearseCrlfCr(c: Conf, f: string)
    ensures Run(At(c, Crlf), Queue("\r" + "", f)) == Run(At(c, CrlfCr), Queue("", f))
  {
    hide Run;
    HeldByte(At(c, Crlf), '\r', "", f);
  }

  /** What is pushed back fits a reserve of 17 bytes; the longest is TRANSFER-ENCODING. */
  lemma PushedBackFits(rec: Rec, p: Place)
    requires Live(rec, p)
    ensures |PushedBack(rec, p)| <= 17
    ensures PushedBack(rec, Word(Ransfer, 16)) == "TRANSFER-ENCODING"
  {
    hide Print;
    match p {
      case Digits(n, v) =>
        hide Text, Before;
        PrintFits(BaseOf(n), v.GetOr(0));
      case Word(t, i) =>
      case SizeCr =>
        hide Text, Before;
        PrintFits(16, rec.bodyLength);
      case Payload =>
        hide Text, Before;
        PrintFits(16, rec.bodyLength);
      case _ =>
    }
    assert Before(Ransfer) + Text(Ransfer)[..16] == "TRANSFER-ENCODING";
  }

  /** Where the machine goes on when a word does not continue as expected. */
  function Missed(t: Token): Place {
    if t == Tent then Word(Nection, 0) else Scanning
  }

  lemma StepAlike(c: Conf, d: Conf, q: Queue)
    requires !Terminal(c.p) && !Terminal(d.p) && !q.Empty()
    requires var m := Step(c.rec, c.p, q.Head(), q.Loud());
             var n := Step(d.rec, d.p, q.Head(), q.Loud());
             m.took == n.took && Apply(c, m) == Apply(d, n)
    ensures Run(c, q) == Run(d, q)
  {
    hide Step;
  }

  /** A framing byte that is NUL. */
  lemma NulIsOutside(c: Conf, q: Queue)
    requires !Terminal(c.p) && !TakesNul(c.p) && !q.Empty() && q.Head() == NUL
    ensures Run(c, q).c.p == Outside
  {
    RunRefused(c, q, Step(c.rec, c.p, q.Head(), q.Loud()));
  }

  lemma MissedByte(c: Conf, t: Token, i: nat, q: Queue)
    requires c.p == Word(t, i) && i < |Text(t)| && !q.Empty()
    requires Upper(q.Head()) != Text(t)[i] && q.Head() != NUL
    ensures if t == VersionText
            then Run(c, q) == Outcome(Conf(c.rec.(state := VersionError), Rejected(Version), c.out, c.transf), q)
            else Run(c, q) == Run(At(c, Missed(t)), q)
  {
    hide Run, Scan;
    assert c.out + "" == c.out && c.transf + "" == c.transf;
    assert Text(Nection)[0] == 'N';
    hide Text;
    var d := At(c, Missed(t));
    if t == VersionText {
      RunRefused(c, q, Step(c.rec, c.p, q.Head(), q.Loud()));
    } else {
      StepAlike(c, d, q);
    }
  }

  /** A whole call of `matchFormat` on a word, in the terms of the machine. */
  lemma WordOutcome(c: Conf, t: Token, q: Queue)
    requires c.p == Word(t, 0)
    ensures var n := MatchEnd(Text(t), q.Text(), 0);
            var d := AfterWord(c, t, n, q.LoudTake(n));
            && (n == |Text(t)| ==> Run(c, q) == Run(d, q.Drop(n)))
            && (n < |Text(t)| && n == q.Size() ==> Run(c, q) == Outcome(d, q.Drop(n)))
            && (n < |Text(t)| && NulAt(q.Text(), n) ==> Run(c, q).c.p == Outside)
            && (n < |Text(t)| && n < q.Size() && !NulAt(q.Text(), n) ==>
                  if t == VersionText
                  then Run(c, q) == Outcome(Conf(c.rec.(state := VersionError), Rejected(Version),
                                                 d.out, c.transf), q.Drop(n))
                  else Run(c, q) == Run(At(d, Missed(t)), q.Drop(n)))
  {
    hide Step, Queue.LoudTake, Queue.Drop, Matched;
    var n := MatchEnd(Text(t), q.Text(), 0);
    WordRun(c, t, q, n);
    hide Run, Text;
    if n < |Text(t)| {
      var d := AfterWord(c, t, n, q.LoudTake(n));
      if n < q.Size() {
        q.DropStep(n);
        if NulAt(q.Text(), n) {
          NulIsOutside(d, q.Drop(n));
        } else {
          MissedByte(d, t, n, q.Drop(n));
        }
      } else {
        RunEmpty(d, q.Drop(n));
      }
    }
  }

  lemma RunTerminal(c: Conf, q: Queue)
    ensures Terminal(c.p) ==> Run(c, q) == Outcome(c, q)
  {
  }

  lemma RunEmpty(c: Conf, q: Queue)
    requires q.Empty()
    ensures Run(c, q) == Outcome(c, q)
  {
  }

  /** What a number means to the record once it is over. */
  function Stored(rec: Rec, n: Numeral, v: nat): Rec {
    match n
    case StatusNumber => rec.(status := v)
    case LengthNumber => rec.(bodyLength := v)
    case ChunkSize => rec.(bodyLength := v)
  }

  /** The byte after a status or a length is scanned as header text. */
  lemma NumberOver(c: Conf, n: Numeral, v: nat, q: Queue)
    requires c.p == Digits(n, Some(v)) && n != ChunkSize && !q.Empty()
    requires !IsDigit(10, q.Head()) && q.Head() != NUL
    ensures Run(c, q) == Run(Conf(Stored(c.rec, n, v), Scanning, c.out, c.transf), q)
  {
    hide Run, Scan;
    StepAlike(c, Conf(Stored(c.rec, n, v), Scanning, c.out, c.transf), q);
  }

  /** A byte that is no digit, where a number should begin. */
  lemma NoNumber(c: Conf, n: Numeral, q: Queue)
    requires c.p == Digits(n, None) && !q.Empty()
    requires !IsDigit(BaseOf(n), q.Head()) && q.Head() != NUL
    ensures n == LengthNumber ==> Run(c, q) == Run(At(c, Scanning), q)
    ensures n == StatusNumber ==>
              Run(c, q) == Outcome(Conf(c.rec.(state := StatusError), Rejected(Status), c.out, c.transf), q)
    ensures n == ChunkSize ==>
              Run(c, q) == Outcome(Conf(c.rec.(state := ChunksError), NoSize, c.out, c.transf), q)
  {
    hide Run, Scan;
    assert c.out + "" == c.out && c.transf + "" == c.transf;
    if n == LengthNumber {
      StepAlike(c, At(c, Scanning), q);
    } else {
      RunRefused(c, q, Step(c.rec, c.p, q.Head(), q.Loud()));
    }
  }

  /** A whole call of a number reader, in the terms of the machine. */
  lemma NumberOutcome(c: Conf, n: Numeral, q: Queue)
    requires c.p == Digits(n, None)
    ensures var e := DigitsEnd(BaseOf(n), q.Text(), 0);
            var v := Value(BaseOf(n), q.Text(), e);
            var d := AfterDigits(c, n, v, q.LoudTake(e));
            && (e == q.Size() && v < INT_LIMIT ==>
                  Run(c, q) == Outcome(if e > 0 then d else c, q.Drop(e)))
            && (NulAt(q.Text(), e) || v >= INT_LIMIT ==> Run(c, q).c.p == Outside)
            && (0 < e < q.Size() && !NulAt(q.Text(), e) && v < INT_LIMIT ==>
                  Run(c, q) == Run(if n == ChunkSize then d else Conf(Stored(c.rec, n, v), Scanning, d.out, c.transf),
                                   q.Drop(e)))
            && (0 == e < q.Size() && !NulAt(q.Text(), e) ==>
                  && (n == LengthNumber ==> Run(c, q) == Run(At(c, Scanning), q))
                  && (n == StatusNumber ==>
                        Run(c, q) == Outcome(Conf(c.rec.(state := StatusError), Rejected(Status), c.out, c.transf), q))
                  && (n == ChunkSize ==>
                        Run(c, q) == Outcome(Conf(c.rec.(state := ChunksError), NoSize, c.out, c.transf), q)))
  {
    hide Step, Queue.LoudTake, Queue.Drop, Run;
    q.DropNone();
    var e := DigitsEnd(BaseOf(n), q.Text(), 0);
    var v := Value(BaseOf(n), q.Text(), e);
    var d := AfterDigits(c, n, v, q.LoudTake(e));
    if e > 0 {
      NumberRun(c, n, q, e);
    }
    var here := if e > 0 then d else c;
    if e < q.Size() {
      q.DropStep(e);
      if v < INT_LIMIT {
        if NulAt(q.Text(), e) {
          NulIsOutside(here, q.Drop(e));
        } else if e == 0 {
          NoNumber(c, n, q);
        } else if n != ChunkSize {
          NumberOver(d, n, v, q.Drop(e));
        }
      }
    } else {
      RunEmpty(here, q.Drop(e));
    }
  }

  /** A whole call of `moveThroughSpaces`, in the terms of the machine. */
  lemma {:induction false} SpacesRun(c: Conf, q: Queue, i: nat)
    requires c.p.Spaces? && i <= q.Size() && forall k :: 0 <= k < i ==> IsSpace(q.Text()[k])
    ensures Run(c, q) == Run(c, q.Drop(i))
  {
    hide Run, Queue.LoudTake, Queue.Drop;
    q.DropNone();
    if i > 0 {
      SpacesRun(c, q, i - 1);
      q.DropStep(i - 1);
      var d := q.Drop(i - 1);
      assert c.out + "" == c.out && c.transf + "" == c.transf;
      RunTook(c, d, Step(c.rec, c.p, d.Head(), d.Loud()));
    }
  }

  /** The first byte after the spaces is read in the state that was waiting for it. */
  lemma SpacesOver(c: Conf, q: Queue)
    requires c.p.Spaces? && Live(c.rec, c.p) && !q.Empty() && !IsSpace(q.Head()) && q.Head() != NUL
    ensures Run(c, q) ==
            Run(Conf(c.rec, Resumed(c.p.next, c.p.next, c.rec), c.out + " ", c.transf), q)
  {
    hide Run, Scan, WordStep, NumberStep, Text;
    var mv := EnterStep(c.rec, c.p.next, q.Head(), q.Loud());
    AppendAppend(c.out, " ", mv.out);
    StepAlike(c, Conf(c.rec, Resumed(c.p.next, c.p.next, c.rec), c.out + " ", c.transf), q);
  }

  /** One byte of header text. */
  lemma ScanRun(c: Conf, q: Queue)
    requires c.p == Scanning && !q.Empty() && q.Head() != NUL
    ensures Run(c, q) == Run(Conf(c.rec, Scan(c.rec, q.Head(), "").p, c.out + q.Loud(), c.transf), q.Tail())
  {
    hide Run;
    assert c.transf + "" == c.transf;
    RunTook(c, q, Step(c.rec, c.p, q.Head(), q.Loud()));
  }

  /** The CR LF after a chunk size. */
  lemma SizeCrlf(c: Conf, v: nat, q: Queue)
    requires c.p == Digits(ChunkSize, Some(v)) && !q.Empty() && !IsDigit(16, q.Head())
    ensures var n := MatchEnd("\r\n", q.Text(), 0);
            var d := Conf(c.rec.(bodyLength := v), SizeCr, c.out + Frame(c.rec, q.LoudTake(n)), c.transf);
            && (n == 2 ==> Run(c, q) == Run(At(d, DataStart(d.rec)), q.Drop(2)))
            && (n == q.Size() == 1 ==> Run(c, q) == Outcome(d, q.Drop(1)))
            && (n < 2 && NulAt(q.Text(), n) ==> Run(c, q).c.p == Outside)
            && (n < 2 && n < q.Size() && !NulAt(q.Text(), n) ==>
                  Run(c, q) == Outcome(Conf(d.rec.(state := ChunksError), Rejected(BodyState(d.rec)), d.out, d.transf), q.Drop(n)))
  {
    hide Run, Queue.Drop, Queue.LoudTake, BodyState;
    q.DropNone();
    q.DropStep(0);
    assert c.out + "" == c.out && c.transf + "" == c.transf;
    var n := MatchEnd("\r\n", q.Text(), 0);
    var mv := Step(c.rec, c.p, q.Head(), q.Loud());
    if n == 0 {
      RunRefused(c, q, mv);
    } else {
      RunTook(c, q, mv);
      CrThenLf(Apply(c, mv), c.out, q, n);
    }
  }

  /** The second byte of a CR LF in chunk framing. */
  lemma CrThenLf(c: Conf, o: string, q: Queue, n: nat)
    requires c.p == SizeCr || (c.p.DataEnd? && c.p.i == 1)
    requires n == MatchEnd("\r\n", q.Text(), 0) > 0 && c.out == o + Frame(c.rec, q.LoudTake(1))
    ensures var d := Conf(c.rec, c.p, o + Frame(c.rec, q.LoudTake(n)), c.transf);
            var after := if c.p == SizeCr then DataStart(c.rec) else AfterData(c.p.last);
            && (n == 2 ==> Run(c, q.Drop(1)) == Run(At(d, after), q.Drop(2)))
            && (n == q.Size() == 1 ==> Run(c, q.Drop(1)) == Outcome(d, q.Drop(1)))
            && (n < 2 && NulAt(q.Text(), n) ==> Run(c, q.Drop(1)).c.p == Outside)
            && (n < 2 && n < q.Size() && !NulAt(q.Text(), n) ==>
                  Run(c, q.Drop(1)) == Outcome(Conf(c.rec.(state := ChunksError), Rejected(BodyState(c.rec)), d.out, d.transf), q.Drop(n)))
  {
    hide Run, Queue.Drop, Queue.LoudTake, BodyState;
    var r := q.Drop(1);
    assert c.out + "" == c.out && c.transf + "" == c.transf;
    if r.Empty() {
      RunEmpty(c, r);
    } else {
      q.DropStep(1);
      var mv := Step(c.rec, c.p, r.Head(), r.Loud());
      if n == 2 {
        AppendAppend(o, Frame(c.rec, q.LoudTake(1)), Frame(c.rec, r.Loud()));
        RunTook(c, r, mv);
      } else {
        RunRefused(c, r, mv);
      }
    }
  }

  /** The CR LF after chunk data. */
  lemma DataCrlf(c: Conf, last: bool, q: Queue)
    requires c.p == DataEnd(last, 0)
    ensures var n := MatchEnd("\r\n", q.Text(), 0);
            var d := Conf(c.rec, DataEnd(last, n), c.out + Frame(c.rec, q.LoudTake(n)), c.transf);
            && (n == 2 ==> Run(c, q) == Run(At(d, AfterData(last)), q.Drop(2)))
            && (n < 2 && n == q.Size() ==> Run(c, q) == Outcome(d, q.Drop(n)))
            && (n < 2 && NulAt(q.Text(), n) ==> Run(c, q).c.p == Outside)
            && (n < 2 && n < q.Size() && !NulAt(q.Text(), n) ==>
                  Run(c, q) == Outcome(Conf(d.rec.(state := ChunksError), Rejected(BodyState(d.rec)), d.out, d.transf), q.Drop(n)))
  {
    hide Run, Queue.Drop, Queue.LoudTake, BodyState;
    q.DropNone();
    assert c.out + "" == c.out && c.transf + "" == c.transf;
    var n := MatchEnd("\r\n", q.Text(), 0);
    if q.Empty() {
      RunEmpty(c, q);
    } else {
      q.DropStep(0);
      var mv := Step(c.rec, c.p, q.Head(), q.Loud());
      if n == 0 {
        RunRefused(c, q, mv);
      } else {
        RunTook(c, q, mv);
        CrThenLf(Apply(c, mv), c.out, q, n);
      }
    }
  }

  /** `n` bytes of a counted body or of chunk data. */
  function AfterBytes(c: Conf, n: nat, o: string): Conf {
    var rec := c.rec.(bodyLength := c.rec.bodyLength - n);
    Conf(rec, if rec.bodyLength > 0 then c.p else if c.p == Counted then Done else DataEnd(false, 0),
         c.out + Frame(c.rec, o), c.transf + (if c.rec.withTransf then o else ""))
  }

  lemma BodyStep(c: Conf, n: nat, o: string, b: char, loud: string)
    requires (c.p == Counted || c.p == Payload) && n < c.rec.bodyLength
    ensures var d := AfterBytes(c, n, o); var mv := Step(d.rec, d.p, b, loud);
            !Terminal(d.p) && mv.took && Apply(d, mv) == AfterBytes(c, n + 1, o + loud)
  {
    AppendAppend(c.out, o, loud);
    AppendAppend(c.transf, o, loud);
    var d := AfterBytes(c, n, o);
    assert d.out + "" == d.out && d.transf + "" == d.transf;
  }

  lemma {:induction false} BodyRun(c: Conf, q: Queue, n: nat)
    requires (c.p == Counted || c.p == Payload) && 0 < c.rec.bodyLength && n <= c.rec.bodyLength
    requires n <= q.Size()
    ensures Run(c, q) == Run(AfterBytes(c, n, q.LoudTake(n)), q.Drop(n))
  {
    hide Run, Step, Queue.Drop, Queue.LoudTake;
    q.DropNone();
    if n == 0 {
      assert c.out + "" == c.out && c.transf + "" == c.transf;
      assert c.rec.(bodyLength := c.rec.bodyLength - 0) == c.rec;
    } else {
      BodyRun(c, q, n - 1);
      q.DropStep(n - 1);
      var d := q.Drop(n - 1);
      var here := AfterBytes(c, n - 1, q.LoudTake(n - 1));
      BodyStep(c, n - 1, q.LoudTake(n - 1), d.Head(), d.Loud());
      RunTook(here, d, Step(here.rec, here.p, d.Head(), d.Loud()));
    }
  }

  /** One byte of a body that ends with the connection. */
  lemma UntilCloseByte(c: Conf, q: Queue)
    requires c.p == UntilClose && !q.Empty()
    ensures Run(c, q) == Run(Conf(c.rec, UntilClose, c.out + Frame(c.rec, q.Loud()),
                                  c.transf + if c.rec.withTransf then q.Loud() else ""), q.Tail())
  {
    hide Run;
    RunTook(c, q, Step(c.rec, c.p, q.Head(), q.Loud()));
  }

  lemma SkippedByte(c: Conf, q: Queue)
    requires c.p == SkippingConnection && !q.Empty() && q.Head() != NUL && q.Head() != '\r'
    ensures Run(c, q) == Run(c, q.Tail())
  {
    hide Run;
    assert c.out + "" == c.out && c.transf + "" == c.transf;
    RunTook(c, q, Step(c.rec, c.p, q.Head(), q.Loud()));
  }

  lemma SkippedValue(c: Conf, q: Queue)
    requires c.p == SkippingConnection && !q.Empty() && q.Head() == '\r'
    ensures Run(c, q) ==
            Run(Conf(c.rec.(isClose := true), Scanning, c.out + "close", c.transf), q)
  {
    hide Run;
    AppendAppend(c.out, "close", q.Loud());
    StepAlike(c, Conf(c.rec.(isClose := true), Scanning, c.out + "close", c.transf), q);
  }

  lemma CrlfByte(c: Conf, q: Queue)
    requires !q.Empty() && q.Head() != NUL && (c.p == Crlf || c.p == CrlfCr)
    ensures c.p == Crlf && q.Head() == '\r' ==> Run(c, q) == Run(At(c, CrlfCr), q.Tail())
    ensures c.p == CrlfCr && q.Head() == '\n' ==>
              Run(c, q) == Run(Conf(c.rec, BodyStart(c.rec), c.out + Trailer(c.rec), c.transf), q.Tail())
    ensures q.Head() != (if c.p == Crlf then '\r' else '\n') ==> Run(c, q) == Run(At(c, Scanning), q)
  {
    hide Run, Scan;
    assert c.transf + "" == c.transf && c.out + "" == c.out;
    if q.Head() == (if c.p == Crlf then '\r' else '\n') {
      RunTook(c, q, Step(c.rec, c.p, q.Head(), q.Loud()));
    } else {
      StepAlike(c, At(c, Scanning), q);
    }
  }

  lemma ContentByte(c: Conf, q: Queue)
    requires c.p == ContentDash && !q.Empty() && q.Head() != NUL
    ensures var b := Upper(q.Head());
            var p := if b == 'L' then Word(Ength, 0) else if b == 'E' then Word(Ncoding, 0)
                     else if b == 'T' then Word(Ype, 0) else Scanning;
            Run(c, q) == Run(Conf(c.rec, p, c.out + q.Loud(), c.transf), q.Tail())
  {
    hide Run;
    assert c.transf + "" == c.transf;
    RunTook(c, q, Step(c.rec, c.p, q.Head(), q.Loud()));
  }

  lemma VersionByte(c: Conf, q: Queue)
    requires c.p == VersionDigit && !q.Empty() && q.Head() != NUL
    ensures var o := c.out + q.Loud();
            if q.Head() == '0' || q.Head() == '1' then
              Run(c, q) == Run(Conf(c.rec.(version := if q.Head() == '0' then V10 else V11), Spaces(Status), o, c.transf), q.Tail())
            else
              Run(c, q) == Outcome(Conf(c.rec.(state := VersionError), Rejected(Version), o, c.transf), q.Tail())
  {
    hide Run;
    assert c.transf + "" == c.transf;
    var mv := Step(c.rec, c.p, q.Head(), q.Loud());
    RunTook(c, q, mv);
    RunTerminal(Apply(c, mv), q.Tail());
  }
}
