/** How the request machine runs; the counterpart of `ResponseLemmas`. */
module RequestLemmas {
  import opened Bytes
  import opened Numbers
  import opened ParserUtils
  import opened RequestMachine

  /** Later input continues the run where it stopped. */
  lemma {:induction false} RunPush(c: Conf, q: Queue, f: string)
    ensures Run(c, q.Push(f)) == Run(Run(c, q).c, Run(c, q).rest.Push(f))
    decreases q.Size()
  {
    hide Step;
    if !Terminal(c.p) && !q.Empty() {
      var mv := Step(c.rec, c.p, q.Head(), q.Loud());
      assert q.Push(f).Head() == q.Head() && q.Push(f).Loud() == q.Loud();
      assert q.Push(f).Tail() == q.Tail().Push(f);
      if mv.took {
        RunPush(Apply(c, mv), q.Tail(), f);
      } else {
        RefuseIsFinal(c.rec, c.p, q.Head(), q.Loud());
      }
    }
  }

  lemma RunTook(c: Conf, q: Queue, mv: Move)
    requires !Terminal(c.p) && !q.Empty() && mv == Step(c.rec, c.p, q.Head(), q.Loud()) && mv.took
    ensures Run(c, q) == Run(Apply(c, mv), q.Tail())
  {
    hide Step;
  }

  lemma RunRefused(c: Conf, q: Queue, mv: Move)
    requires !Terminal(c.p) && !q.Empty() && mv == Step(c.rec, c.p, q.Head(), q.Loud()) && !mv.took
    ensures Run(c, q) == Outcome(Apply(c, mv), q)
  {
    hide Step;
  }

  lemma RunEmpty(c: Conf, q: Queue)
    requires q.Empty()
    ensures Run(c, q) == Outcome(c, q)
  {
  }

  lemma RunTerminal(c: Conf, q: Queue)
    ensures Terminal(c.p) ==> Run(c, q) == Outcome(c, q)
  {
  }

  lemma StepAlike(c: Conf, d: Conf, q: Queue)
    requires !Terminal(c.p) && !Terminal(d.p) && !q.Empty()
    requires var m := Step(c.rec, c.p, q.Head(), q.Loud());
             var n := Step(d.rec, d.p, q.Head(), q.Loud());
             m.took == n.took && Apply(c, m) == Apply(d, n)
    ensures Run(c, q) == Run(d, q)
  {
    hide Step;
  }

  lemma NulIsOutside(c: Conf, q: Queue)
    requires !Terminal(c.p) && !q.Empty() && q.Head() == NUL
    ensures Run(c, q).c.p == Outside
  {
    RunRefused(c, q, Step(c.rec, c.p, q.Head(), q.Loud()));
  }

  function At(c: Conf, p: Place): Conf { c.(p := p) }

  function Went(c: Conf, p: Place, o: string): Conf { Conf(c.rec, p, c.out + o) }

  function AfterWord(c: Conf, t: Token, i: nat, o: string): Conf
    requires i <= |Text(t)|
  {
    if i < |Text(t)| then Went(c, Word(t, i), o)
    else var (rec, p) := Matched(c.rec, t); Conf(rec, p, c.out + o)
  }

  lemma WordByte(c: Conf, t: Token, i: nat, o: string, b: char, loud: string)
    requires i < |Text(t)| && Upper(b) == Text(t)[i]
    ensures var d := AfterWord(c, t, i, o); var mv := Step(d.rec, d.p, b, loud);
            mv.took && Apply(d, mv) == AfterWord(c, t, i + 1, o + loud)
  {
    hide Text;
    assert Text(t)[i] in Text(t);
    AppendAppend(c.out, o, loud);
  }

  /** Reading the first `i` bytes of a word, in any case. */
  lemma {:induction false} WordRun(c: Conf, t: Token, q: Queue, i: nat)
    requires c.p == Word(t, 0) && i <= |Text(t)| && i <= q.Size()
    requires forall k :: 0 <= k < i ==> Upper(q.Text()[k]) == Text(t)[k]
    ensures Run(c, q) == Run(AfterWord(c, t, i, q.LoudTake(i)), q.Drop(i))
  {
    hide Step, Run, Text, Queue.LoudTake, Queue.Drop, Matched;
    q.DropNone();
    if i == 0 {
      assert c.out + "" == c.out;
    } else {
      WordRun(c, t, q, i - 1);
      q.DropStep(i - 1);
      var o, d := q.LoudTake(i - 1), q.Drop(i - 1);
      WordByte(c, t, i - 1, o, d.Head(), d.Loud());
      var here := AfterWord(c, t, i - 1, o);
      RunTook(here, d, Step(here.rec, here.p, d.Head(), d.Loud()));
    }
  }

  /** What a word that is not there leaves: an error, or a place to go on from. */
  datatype Miss = Error(state: RequestState, at: RequestParserState) | GoOn(p: Place)

  function Missed(t: Token): Miss {
    match t
    case HttpText => GoOn(Relative)
    case SchemeText => GoOn(Relative)
    case VersionText => Error(VersionError, Version)
    case LineEnd => Error(StartLineEndError, StartLineEnd)
    case PostText => GoOn(Word(PutText, 0))
    case XLocal => GoOn(Scanning)
    case Ost => GoOn(Scanning)
    case Lf => GoOn(Scanning)
    case HeadersEnd => GoOn(Scanning)
    case _ => Error(GeneralMethodError, Method)
  }

  function MissedConf(c: Conf, e: Miss): Conf {
    match e
    case Error(s, at) => Conf(c.rec.(state := s), Rejected(at), c.out)
    case GoOn(p) => At(c, p)
  }

  lemma PutStep(rec: Rec, b: char, loud: string)
    ensures WordStep(rec, PutText, 0, b, loud) ==
            if Upper(b) == 'U' then Take(rec, Word(PutText, 1), loud) else MissStep(rec, PutText, b, loud)
  {
  }

  lemma MissedByte(c: Conf, t: Token, i: nat, q: Queue)
    requires c.p == Word(t, i) && i < |Text(t)| && !q.Empty()
    requires Upper(q.Head()) != Text(t)[i] && q.Head() != NUL
    ensures var d := MissedConf(c, Missed(t));
            if Terminal(d.p) then Run(c, q) == Outcome(d, q) else Run(c, q) == Run(d, q)
  {
    hide Run, Scan, RelativeStep, Text;
    assert c.out + "" == c.out;
    PutStep(c.rec, q.Head(), q.Loud());
    var d := MissedConf(c, Missed(t));
    if Terminal(d.p) {
      RunRefused(c, q, Step(c.rec, c.p, q.Head(), q.Loud()));
    } else {
      StepAlike(c, d, q);
    }
  }

  /** A whole call of `matchFormat` on a word, in the terms of the machine. */
  lemma WordOutcome(c: Conf, t: Token, q: Queue)
    requires c.p == Word(t, 0)
    ensures var n := MatchEnd(Text(t), q.Text(), 0);
            var d := AfterWord(c, t, n, q.LoudTake(n));
            && (n == |Text(t)| ==> Run(c, q) == Run(d, q.Drop(n)))
            && (n < |Text(t)| && n == q.Size() ==> Run(c, q) == Outcome(d, q.Drop(n)))
            && (n < |Text(t)| && NulAt(q.Text(), n) ==> Run(c, q).c.p == Outside)
            && (n < |Text(t)| && n < q.Size() && !NulAt(q.Text(), n) ==>
                  var e := MissedConf(d, Missed(t));
                  if Terminal(e.p) then Run(c, q) == Outcome(e, q.Drop(n)) else Run(c, q) == Run(e, q.Drop(n)))
  {
    hide Step, Queue.LoudTake, Queue.Drop, Matched, Missed;
    var n := MatchEnd(Text(t), q.Text(), 0);
    WordRun(c, t, q, n);
    hide Run, Text;
    if n < |Text(t)| {
      var d := AfterWord(c, t, n, q.LoudTake(n));
      if n < q.Size() {
        q.DropStep(n);
        if NulAt(q.Text(), n) {
          NulIsOutside(d, q.Drop(n));
        } else {
          MissedByte(d, t, n, q.Drop(n));
        }
      } else {
        RunEmpty(d, q.Drop(n));
      }
    }
  }

  /** A lower-cased host, short enough to be read again. */
  ghost predicate HostLike(h: string) {
    |h| < HOST_MAX_SIZE && forall k :: 0 <= k < |h| ==> IsHostChar(h[k])
  }

  /** Places at which the version of the request is still unknown. */
  predicate BeforeVersion(p: Place) {
    || p == Start || p == Relative || p == VersionDigit || p == Spaces(Uri) || p == Spaces(Version)
    || (p.Word? && (IsMethod(p.t) || p.t in {HttpText, SchemeText, VersionText}))
    || (p.HostName? && p.absolute) || (p.Port? && p.absolute)
  }

  /** The places where a call can stop for want of input, and what the record says there. */
  ghost predicate Live(rec: Rec, p: Place) {
    && (BeforeVersion(p) ==> rec.version == Undefined)
    && (!Terminal(p) ==> !rec.isLocalHost)
    && match p
       case Spaces(next) => next in {Uri, Version, Host}
       case Start => rec.verb == NoMethod
       case Word(t, i) =>
         && i < |Text(t)| && (t == PutText || t == XLocal ==> i > 0)
         && (IsMethod(t) ==> rec.verb == NoMethod)
       case HostName(_, h) => HostLike(h)
       case Port(_, h, v) =>
         HostLike(h) && h != "" && v.GetOr(0) < INT_LIMIT && |h| + 1 + |Print(10, v.GetOr(0))| <= RESERVE
       case _ => true
  }

  lemma ZeroPrints()
    ensures |Print(10, 0)| == 1
  {
  }

  lemma LongWords()
    ensures |Text(PutText)| > 1 && |Text(XLocal)| > 1
  {
  }

  lemma HostStepLive(rec: Rec, a: bool, h: string, b: char, loud: string)
    requires Live(rec, HostName(a, h))
    ensures var mv := HostStep(rec, a, h, b, loud); Live(mv.rec, mv.p)
  {
    hide Print;
    ZeroPrints();
  }

  lemma MissStepLive(rec: Rec, t: Token, b: char, loud: string)
    requires Live(rec, Word(t, 1)) || Live(rec, Word(t, 0))
    ensures var mv := MissStep(rec, t, b, loud); Live(mv.rec, mv.p)
  {
    hide Text;
    LongWords();
  }

  lemma WordStepLive(rec: Rec, t: Token, i: nat, b: char, loud: string)
    requires Live(rec, Word(t, i))
    ensures var mv := WordStep(rec, t, i, b, loud); Live(mv.rec, mv.p)
  {
    hide Text, MissStep;
    LongWords();
    MissStepLive(rec, t, b, loud);
  }

  lemma StepLive(rec: Rec, p: Place, b: char, loud: string)
    requires Live(rec, p)
    ensures var mv := Step(rec, p, b, loud); Live(mv.rec, mv.p)
  {
    hide Text, WordStep, HostStep, Print;
    LongWords();
    match p {
      case Word(t, i) => WordStepLive(rec, t, i, b, loud);
      case HostName(a, h) => HostStepLive(rec, a, h, b, loud);
      case Spaces(next) =>
        if next == Uri { WordStepLive(rec, HttpText, 0, b, loud); }
        if next == Version { WordStepLive(rec, VersionText, 0, b, loud); }
        if next == Host { HostStepLive(rec, false, "", b, loud); }
      case _ =>
    }
  }

  lemma {:induction false} RunLive(c: Conf, q: Queue)
    requires Live(c.rec, c.p)
    ensures Live(Run(c, q).c.rec, Run(c, q).c.p)
    decreases q.Size()
  {
    hide Step, Live;
    if !Terminal(c.p) && !q.Empty() {
      StepLive(c.rec, c.p, q.Head(), q.Loud());
      var mv := Step(c.rec, c.p, q.Head(), q.Loud());
      if mv.took {
        RunLive(Apply(c, mv), q.Tail());
      }
    }
  }

  /** A pushed-back byte that changes nothing but the place. */
  lemma HeldByte(c: Conf, b: char, p: Place, rest: string, f: string)
    requires !Terminal(c.p) && Step(c.rec, c.p, b, "") == Take(c.rec, p, "")
    ensures Run(c, Queue([b] + rest, f)) == Run(At(c, p), Queue(rest, f))
  {
    hide Step;
    var q := Queue([b] + rest, f);
    assert q.Tail() == Queue(rest, f);
    assert c.out + "" == c.out;
    RunTook(c, q, Step(c.rec, c.p, b, ""));
  }

  lemma HeldWord(c: Conf, t: Token, i: nat, rest: string, f: string)
    requires c.p == Word(t, 0) && i <= |Text(t)|
    ensures Run(c, Queue(Text(t)[..i] + rest, f)) == Run(AfterWord(c, t, i, ""), Queue(rest, f))
  {
    hide Step, Run, Text;
    HeldDrop(Text(t)[..i], rest, f);
    WordRun(c, t, Queue(Text(t)[..i] + rest, f), i);
  }

  /** The prefix of a word's push-back leads to the word. */
  lemma HeldBefore(c: Conf, t: Token, rest: string, f: string)
    requires t != PutText && t != XLocal && c.p == Resumed(StateOf(Word(t, 0)), Uri)
    ensures Run(c, Queue(Before(t) + rest, f)) == Run(At(c, Word(t, 0)), Queue(rest, f))
  {
    hide Run, MissStep;
    assert c.out + "" == c.out;
    if Before(t) == "" {
      assert Before(t) + rest == rest;
    } else if t == SchemeText {
      assert Text(HttpText)[..4] == "HTTP";
      HeldWord(c, HttpText, 4, rest, f);
    } else if t == HeadersEnd {
      assert Before(t) + rest == ['\r'] + ("\n" + rest) && Text(Lf)[..1] == "\n";
      HeldByte(c, '\r', Word(Lf, 0), "\n" + rest, f);
      HeldWord(At(c, Word(Lf, 0)), Lf, 1, rest, f);
    } else {
      HeldByte(c, Before(t)[0], Word(t, 0), rest, f);
    }
  }

  /** PUT, tried after POST. */
  lemma HeldPut(c: Conf, i: nat, f: string)
    requires c.p == Start && 0 < i < |Text(PutText)|
    ensures Run(c, Queue(Before(PutText) + Text(PutText)[..i], f)) == Run(At(c, Word(PutText, i)), Queue("", f))
  {
    hide Run;
    assert Text(PutText)[..i] == "U" && Before(PutText) + "U" == ['P'] + "U" && "U" == ['U'] + "";
    HeldByte(c, 'P', Word(PostText, 0), "U", f);
    HeldByte(At(c, Word(PostText, 0)), 'U', Word(PutText, 1), "", f);
  }

  /** X-LOCALHOST, whose first byte was looked at before. */
  lemma HeldLocal(c: Conf, i: nat, f: string)
    requires c.p == LocalCheck && 0 < i < |Text(XLocal)|
    ensures Run(c, Queue(Before(XLocal) + Text(XLocal)[..i], f)) == Run(At(c, Word(XLocal, i)), Queue("", f))
  {
    hide Run;
    var s := Text(XLocal)[..i];
    assert s == ['X'] + s[1..] && s == s + "" && Before(XLocal) + s == s && c.out + "" == c.out;
    HeldByte(c, 'X', Word(XLocal, 1), s[1..], f);
    HeldByte(At(c, Word(XLocal, 0)), 'X', Word(XLocal, 1), s[1..], f);
    HeldWord(At(c, Word(XLocal, 0)), XLocal, i, "", f);
  }

  lemma {:induction false} HeldHost(c: Conf, h0: string, h: string, rest: string, f: string)
    requires c.p.HostName? && c.p.h == h0 && HostLike(h0 + h)
    ensures Run(c, Queue(h + rest, f)) == Run(At(c, HostName(c.p.absolute, h0 + h)), Queue(rest, f))
    decreases |h|
  {
    hide Run;
    if h == "" {
      assert h + rest == rest && h0 + h == h0;
    } else {
      var b := h[0];
      assert (h0 + h)[|h0|] == b && Lower(b) == b;
      assert h + rest == [b] + (h[1..] + rest);
      var p := HostName(c.p.absolute, h0 + [b]);
      HeldByte(c, b, p, h[1..] + rest, f);
      assert h0 + h == (h0 + [b]) + h[1..];
      HeldHost(At(c, p), h0 + [b], h[1..], rest, f);
    }
  }

  function AfterPort(c: Conf, a: bool, h: string, v: nat, o: string): Conf {
    Went(c, Port(a, h, Some(v)), o)
  }

  lemma PortByte(c: Conf, a: bool, h: string, v: Option<nat>, o: string, b: char, loud: string)
    requires IsDigit(10, b)
    ensures var d := Went(c, Port(a, h, v), o);
            var mv := Step(d.rec, d.p, b, loud);
            var x := Times(10, v.GetOr(0)) + DigitValue(10, b);
            if x < INT_LIMIT && |h| + 1 + |Print(10, x)| <= RESERVE
            then mv.took && Apply(d, mv) == AfterPort(c, a, h, x, o + loud)
            else !mv.took && mv.p == Outside
  {
    hide Print;
    AppendAppend(c.out, o, loud);
  }

  lemma {:induction false} PrintMonotone(m: nat, n: nat)
    requires m <= n
    ensures |Print(10, m)| <= |Print(10, n)|
    decreases n
  {
    if m >= 10 {
      PrintMonotone(Quotient(10, m), Quotient(10, n));
    }
  }

  /** Reading the first `i` digits of a port. */
  lemma {:induction false} PortRun(c: Conf, a: bool, h: string, q: Queue, i: nat)
    requires c.p == Port(a, h, None) && 0 < i <= q.Size() && AllDigits(10, q.Text(), i)
    ensures var v := Value(10, q.Text(), i);
            if v < INT_LIMIT && |h| + 1 + |Print(10, v)| <= RESERVE
            then Run(c, q) == Run(AfterPort(c, a, h, v, q.LoudTake(i)), q.Drop(i))
            else Run(c, q).c.p == Outside
  {
    hide Step, Run, Queue.LoudTake, Queue.Drop, Print;
    q.DropNone();
    q.DropStep(i - 1);
    ValueMonotone(10, q.Text(), i - 1, i);
    PrintMonotone(Value(10, q.Text(), i - 1), Value(10, q.Text(), i));
    var o, d := q.LoudTake(i - 1), q.Drop(i - 1);
    var v := if i > 1 then Some(Value(10, q.Text(), i - 1)) else None;
    var here := Went(c, Port(a, h, v), o);
    PortByte(c, a, h, v, o, d.Head(), d.Loud());
    var mv := Step(here.rec, here.p, d.Head(), d.Loud());
    if i > 1 {
      PortRun(c, a, h, q, i - 1);
      if v.value >= INT_LIMIT || |h| + 1 + |Print(10, v.value)| > RESERVE {
        return;
      }
    } else {
      assert c.out + "" == c.out;
      assert Value(10, q.Text(), 0) == 0;
    }
    if mv.took {
      RunTook(here, d, mv);
    } else {
      RunRefused(here, d, mv);
    }
  }

  lemma HeldPort(c: Conf, a: bool, h: string, v: nat, f: string)
    requires c.p == Port(a, h, None) && v < INT_LIMIT && |h| + 1 + |Print(10, v)| <= RESERVE
    ensures Run(c, Queue(Print(10, v), f)) == Run(At(c, Port(a, h, Some(v))), Queue("", f))
  {
    hide Step, Run, Print;
    var s := Print(10, v);
    var q := Queue(s, f);
    PrintValue(10, v);
    assert s + "" == s;
    HeldDrop(s, "", f);
    assert q.Text()[..|s|] == s == s[..|s|];
    ValueOfPrefix(10, s, q.Text(), |s|);
    assert c.out + "" == c.out;
    PortRun(c, a, h, q, |s|);
  }

  /** A port that nothing follows leaves a 0 behind. */
  function Settled(p: Place): Place {
    if p.Port? && p.v == None then p.(v := Some(0)) else p
  }

  lemma ColonStep(rec: Rec, a: bool, h: string)
    requires h != "" && |h| + 2 <= RESERVE
    ensures Step(rec, HostName(a, h), ':', "") == Take(rec, Port(a, h, None), "")
  {
  }

  /** Re-reading what was pushed back restores the place and forwards nothing. */
  lemma Rehearse(c: Conf, next: RequestParserState, f: string)
    requires Live(c.rec, c.p) && !Terminal(c.p) && (c.p.Spaces? ==> c.p.next == next)
    ensures Run(At(c, Resumed(StateOf(c.p), next)), Queue(PushedBack(c.p), f)) ==
            Run(At(c, Settled(c.p)), Queue("", f))
  {
    hide Run, Print, Text, Step, Queue.Drop, Queue.LoudTake;
    var start := At(c, Resumed(StateOf(c.p), next));
    var held := PushedBack(c.p);
    assert held + "" == held && c.out + "" == c.out;
    match c.p {
      case Word(t, i) =>
        var s := Text(t)[..i];
        if t == PutText {
          HeldPut(start, i, f);
        } else if t == XLocal {
          HeldLocal(start, i, f);
        } else {
          HeldBefore(start, t, s, f);
          assert s + "" == s;
          HeldWord(At(c, Word(t, 0)), t, i, "", f);
        }
      case VersionDigit => RehearseVersion(c, f);
      case HostName(a, h) =>
        assert "" + h == h;
        HeldHost(start, "", h, "", f);
      case Port(a, h, v) =>
        var rest := ":" + Print(10, v.GetOr(0));
        assert "" + h == h;
        HeldHost(start, "", h, rest, f);
        ColonStep(c.rec, a, h);
        HeldByte(At(c, HostName(a, h)), ':', Port(a, h, None), Print(10, v.GetOr(0)), f);
        HeldPort(At(c, Port(a, h, None)), a, h, v.GetOr(0), f);
      case _ =>
    }
  }

  lemma RehearseVersion(c: Conf, f: string)
    requires c.p == VersionDigit
    ensures Run(At(c, Word(VersionText, 0)), Queue("HTTP/1.", f)) == Run(c, Queue("", f))
  {
    hide Run, Queue.Drop, Queue.LoudTake, Step;
    assert Text(VersionText)[..7] + "" == "HTTP/1.";
    assert c.out + "" == c.out;
    HeldWord(At(c, Word(VersionText, 0)), VersionText, 7, "", f);
  }

  /** What is pushed back fits the reserved zone. */
  lemma PushedBackFits(rec: Rec, p: Place)
    requires Live(rec, p)
    ensures |PushedBack(p)| <= RESERVE
  {
    hide Print;
  }

  lemma {:induction false} SpacesRun(c: Conf, q: Queue, i: nat)
    requires c.p.Spaces? && i <= q.Size() && forall k :: 0 <= k < i ==> IsSpace(q.Text()[k])
    ensures Run(c, q) == Run(c, q.Drop(i))
  {
    hide Run, Queue.LoudTake, Queue.Drop;
    q.DropNone();
    if i > 0 {
      SpacesRun(c, q, i - 1);
      q.DropStep(i - 1);
      var d := q.Drop(i - 1);
      assert c.out + "" == c.out;
      RunTook(c, d, Step(c.rec, c.p, d.Head(), d.Loud()));
    }
  }

  lemma SpacesOver(c: Conf, q: Queue)
    requires c.p.Spaces? && c.p.next in {Uri, Version, Host}
    requires !q.Empty() && !IsSpace(q.Head()) && q.Head() != NUL
    ensures Run(c, q) == Run(Went(c, Resumed(c.p.next, c.p.next), " "), q)
  {
    hide Run, WordStep, HostStep, Text;
    var mv := EnterStep(c.rec, c.p.next, q.Head(), q.Loud());
    AppendAppend(c.out, " ", mv.out);
    StepAlike(c, Went(c, Resumed(c.p.next, c.p.next), " "), q);
  }

  /** One byte of header text. */
  lemma ScanOutcome(c: Conf, q: Queue)
    requires c.p == Scanning
    ensures q.Empty() ==> q == Queue("", "") && Run(c, q) == Outcome(c, q) && c.out + "" == c.out
    ensures !q.Empty() && q.Head() == NUL ==> Run(c, q).c.p == Outside
    ensures !q.Empty() && q.Head() != NUL ==>
              && Upper(q.Head()) != NUL
              && Run(c, q) == Run(Went(c, ScanPlace(Upper(q.Head())), q.Loud()), q.Tail())
  {
    hide Run;
    if q.Empty() {
      RunEmpty(c, q);
    } else if q.Head() == NUL {
      NulIsOutside(c, q);
    } else {
      RunTook(c, q, Step(c.rec, c.p, q.Head(), q.Loud()));
    }
  }

  function ScanPlace(b: char): Place {
    if b == 'H' then Word(Ost, 0) else if b == '\r' then Word(Lf, 0) else Scanning
  }

  /** The letter that selects the method. */
  lemma StartOutcome(c: Conf, q: Queue)
    requires c.p == Start
    ensures q.Empty() ==> Run(c, q) == Outcome(c, q)
    ensures !q.Empty() && q.Head() == NUL ==> Run(c, q).c.p == Outside
    ensures !q.Empty() && q.Head() != NUL ==>
              && Upper(q.Head()) != NUL
              && (match MethodStart(Upper(q.Head()))
                  case Some(t) => Run(c, q) == Run(Went(c, Word(t, 0), q.Loud()), q.Tail())
                  case None => Run(c, q) == Outcome(Conf(c.rec.(state := GeneralMethodError), Rejected(Method),
                                                         c.out + q.Loud()), q.Tail()))
  {
    hide Run;
    if q.Empty() {
      RunEmpty(c, q);
    } else if q.Head() == NUL {
      NulIsOutside(c, q);
    } else {
      var mv := Step(c.rec, c.p, q.Head(), q.Loud());
      RunTook(c, q, mv);
      RunTerminal(Apply(c, mv), q.Tail());
    }
  }

  lemma VersionOutcome(c: Conf, q: Queue)
    requires c.p == VersionDigit
    ensures q.Empty() ==> Run(c, q) == Outcome(c, q)
    ensures !q.Empty() && q.Head() == NUL ==> Run(c, q).c.p == Outside
    ensures !q.Empty() && q.Head() != NUL ==>
              var o := c.out + q.Loud();
              if q.Head() == '0' || q.Head() == '1' then
                Run(c, q) == Run(Conf(c.rec.(version := if q.Head() == '0' then V10 else V11), Word(LineEnd, 0), o), q.Tail())
              else
                Run(c, q) == Outcome(Conf(c.rec.(state := VersionError), Rejected(Version), o), q.Tail())
  {
    hide Run;
    if q.Empty() {
      RunEmpty(c, q);
    } else if q.Head() == NUL {
      NulIsOutside(c, q);
    } else {
      var mv := Step(c.rec, c.p, q.Head(), q.Loud());
      RunTook(c, q, mv);
      RunTerminal(Apply(c, mv), q.Tail());
    }
  }

  /** One byte of a target without a host. */
  lemma RelativeOutcome(c: Conf, q: Queue)
    requires c.p == Relative
    ensures q.Empty() ==> Run(c, q) == Outcome(c, q)
    ensures !q.Empty() && q.Head() == NUL ==> Run(c, q).c.p == Outside
    ensures !q.Empty() && q.Head() != NUL ==>
              if IsSpace(q.Head()) then Run(c, q) == Run(At(c, Spaces(Version)), q)
              else Run(c, q) == Run(Went(c, Relative, q.Loud()), q.Tail())
  {
    hide Run;
    if q.Empty() {
      RunEmpty(c, q);
    } else if q.Head() == NUL {
      NulIsOutside(c, q);
    } else if IsSpace(q.Head()) {
      StepAlike(c, At(c, Spaces(Version)), q);
    } else {
      RunTook(c, q, Step(c.rec, c.p, q.Head(), q.Loud()));
    }
  }

  /** What `checkLocalHost` looks at. */
  lemma LocalOutcome(c: Conf, q: Queue)
    requires c.p == LocalCheck
    ensures q.Empty() ==> Run(c, q) == Outcome(c, q)
    ensures !q.Empty() && q.Head() == NUL ==> Run(c, q).c.p == Outside
    ensures !q.Empty() && q.Head() != NUL ==>
              && Upper(q.Head()) != NUL
              && Run(c, q) == Run(if Upper(q.Head()) == 'X' then At(c, Word(XLocal, 0))
                                  else Went(c, Scanning, LOCAL_HEADER), q)
  {
    hide Run, Scan;
    if q.Empty() {
      RunEmpty(c, q);
    } else if q.Head() == NUL {
      NulIsOutside(c, q);
    } else if Upper(q.Head()) == 'X' {
      assert Text(XLocal)[0] == 'X';
      hide Text;
      StepAlike(c, At(c, Word(XLocal, 0)), q);
    } else {
      AppendAppend(c.out, LOCAL_HEADER, Scan(c.rec, q.Head(), q.Loud()).out);
      StepAlike(c, Went(c, Scanning, LOCAL_HEADER), q);
    }
  }

  /** One byte at a host. */
  lemma HostOutcome(c: Conf, q: Queue)
    requires c.p.HostName? && |c.p.h| < HOST_MAX_SIZE
    ensures q.Empty() ==> Run(c, q) == Outcome(c, q)
    ensures !q.Empty() && q.Head() == NUL ==> Run(c, q).c.p == Outside
    ensures !q.Empty() && q.Head() != NUL ==>
              var HostName(a, h) := c.p;
              var b := Lower(q.Head());
              if IsHostChar(b) then
                if |h| + 1 < HOST_MAX_SIZE then Run(c, q) == Run(Went(c, HostName(a, h + [b]), q.Loud()), q.Tail())
                else if a then Run(c, q).c.p == Outside
                else Run(c, q) == Outcome(Conf(c.rec.(state := HostError), Rejected(Host), c.out + q.Loud()), q.Tail())
              else if a && (h == "" || b == '@') then Run(c, q).c.p == Outside
              else if h == "" then Run(c, q) == Outcome(At(c, NoHost), q)
              else if b == ':' then
                if |h| + 2 <= RESERVE then Run(c, q) == Run(Went(c, Port(a, h, None), q.Loud()), q.Tail())
                else Run(c, q).c.p == Outside
              else
                Run(c, q) == Outcome(HostEnd(c, a, h, q.Head()), q)
  {
    hide Run;
    assert c.out + "" == c.out;
    if q.Empty() {
      RunEmpty(c, q);
    } else if q.Head() == NUL {
      NulIsOutside(c, q);
    } else {
      var mv := Step(c.rec, c.p, q.Head(), q.Loud());
      if mv.took {
        RunTook(c, q, mv);
        RunTerminal(Apply(c, mv), q.Tail());
      } else {
        RunRefused(c, q, mv);
      }
    }
  }

  /** Only a Host field in which no host has begun can turn out to have none. */
  predicate HasHost(p: Place) {
    if p.HostName? then p.absolute || p.h != "" else if p.Port? then p.absolute || p.h != ""
    else Terminal(p) && p != NoHost
  }

  lemma {:induction false} HostStays(c: Conf, q: Queue)
    requires HasHost(c.p)
    ensures Run(c, q).c.p != NoHost
    decreases q.Size()
  {
    hide Print;
    if !Terminal(c.p) && !q.Empty() {
      var mv := Step(c.rec, c.p, q.Head(), q.Loud());
      assert HasHost(mv.p);
      if mv.took {
        HostStays(Apply(c, mv), q.Tail());
      }
    }
  }

  /** The end of a non-empty host, decided by the byte after it. */
  function HostEnd(c: Conf, a: bool, h: string, b: char): Conf {
    if a || EndsHost(b) then Conf(c.rec.(calls := c.rec.calls + [Call(h, c.rec.port)]), Done, c.out)
    else Conf(c.rec.(state := HostError), Rejected(Host), c.out)
  }

  /** A whole call of `getNumber` on a port, in the terms of the machine. */
  lemma PortOutcome(c: Conf, q: Queue)
    requires c.p.Port? && c.p.v == None && c.p.h != ""
    ensures var Port(a, h, _) := c.p;
            var e := DigitsEnd(10, q.Text(), 0);
            var v := Value(10, q.Text(), e);
            var fits := v < INT_LIMIT && |h| + 1 + |Print(10, v)| <= RESERVE;
            var d := AfterPort(c, a, h, v, q.LoudTake(e));
            && (e == q.Size() && fits ==> Run(c, q) == Outcome(if e > 0 then d else c, q.Drop(e)))
            && ((e > 0 && !fits) || NulAt(q.Text(), e) ==> Run(c, q).c.p == Outside)
            && (0 < e < q.Size() && !NulAt(q.Text(), e) && fits ==>
                  Run(c, q) == Outcome(HostEnd(d.(rec := c.rec.(port := v)), a, h, q.Text()[e]), q.Drop(e)))
            && (0 == e < q.Size() && !NulAt(q.Text(), e) ==>
                  Run(c, q) == Outcome(Conf(c.rec.(state := HostError), if a then Outside else NoPort, c.out), q))
  {
    hide Queue.LoudTake, Queue.Drop, Run, Print, Value;
    q.DropNone();
    var Port(a, h, _) := c.p;
    var e := DigitsEnd(10, q.Text(), 0);
    var v := Value(10, q.Text(), e);
    var d := AfterPort(c, a, h, v, q.LoudTake(e));
    var fits := v < INT_LIMIT && |h| + 1 + |Print(10, v)| <= RESERVE;
    if e > 0 {
      PortRun(c, a, h, q, e);
    }
    var here := if e > 0 then d else c;
    if e < q.Size() {
      q.DropStep(e);
      assert here.out + "" == here.out;
      if fits || e == 0 {
        if NulAt(q.Text(), e) {
          NulIsOutside(here, q.Drop(e));
        } else {
          RunRefused(here, q.Drop(e), Step(here.rec, here.p, q.Drop(e).Head(), q.Drop(e).Loud()));
        }
      }
    } else {
      RunEmpty(here, q.Drop(e));
    }
  }
}
