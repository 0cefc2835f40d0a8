/** Requests that the parser rejects: which error it reports, where it stops, and what came out by then. */
module RequestErrors {
  import opened Bytes
  import opened Numbers
  import opened ParserUtils
  import opened RequestMachine
  import opened RequestLemmas
  import opened RequestParser
  import opened RequestFragments
  import opened RequestMeaning
  import opened OriginForm

  /** Rejected at `at` with `e`, in front of `left`. */
  function Rejection(rec: Rec, e: RequestState, at: RequestParserState, out: string, left: string): Outcome {
    Outcome(Conf(rec.(state := e), Rejected(at), out), Queue("", left))
  }

  /** A word of which a part is there, and then another byte. */
  lemma PartRun(c: Conf, t: Token, s: string, b: char, u: string)
    requires c.p == Word(t, 0) && Missed(t).Error? && |s| < |Text(t)| && Same(s, Text(t)[..|s|])
    requires b != NUL && Upper(b) != Text(t)[|s|]
    ensures Run(c, Queue("", s + ([b] + u))) == Rejection(c.rec, Missed(t).state, Missed(t).at, c.out + s, [b] + u)
  {
    hide Run, Text, Queue.Drop, Queue.LoudTake, Missed, Same, Ends;
    var q := Queue("", s + ([b] + u));
    SameIs(s, Text(t)[..|s|]);
    DropFresh(s, [b] + u);
    forall k | 0 <= k < |s| ensures Upper(q.Text()[k]) == Text(t)[k] {
      assert q.Text()[k] == s[k] && Text(t)[..|s|][k] == Text(t)[k];
    }
    WordRun(c, t, q, |s|);
    MissedByte(Went(c, Word(t, |s|), s), t, |s|, Queue("", [b] + u));
  }

  /** The version does not begin with HTTP/1. */
  lemma BadProtocol(r: Request, s: string, b: char, u: string)
    requires GoodStart(r) && |s| < 7 && Same(s, "HTTP/1."[..|s|])
    requires b != NUL && Upper(b) != "HTTP/1."[|s|] && (s == "" ==> !IsSpace(b))
    ensures Whole(StartOf(r) + (s + ([b] + u))) ==
            Rejection(FRESH.(verb := r.m), VersionError, Version, r.verb + " " + r.target + " " + s, [b] + u)
  {
    hide Run, Same, GoodStart, Whole, StartOf;
    FirstOfPart(s, b, u);
    StartRun(r, s + ([b] + u));
    assert Text(VersionText) == "HTTP/1." && Missed(VersionText) == Error(VersionError, Version);
    hide Text, Missed;
    PartRun(Conf(FRESH.(verb := r.m), Word(VersionText, 0), r.verb + " " + r.target + " "), VersionText, s, b, u);
  }

  lemma FirstOfPart(s: string, b: char, u: string)
    requires |s| < 7 && Same(s, "HTTP/1."[..|s|]) && b != NUL && (s == "" ==> !IsSpace(b))
    ensures var v := s + ([b] + u); v != "" && !IsSpace(v[0]) && v[0] != NUL
  {
    SameIs(s, "HTTP/1."[..|s|]);
    var v := s + ([b] + u);
    if s != "" {
      assert v[0] == s[0] && Upper(s[0]) == "HTTP/1."[..|s|][0];
    } else {
      assert v[0] == b;
    }
  }

  /** HTTP/1.2 and the like; the digit is consumed. */
  lemma BadVersion(r: Request, proto: string, b: char, u: string)
    requires GoodStart(r) && Same(proto, "HTTP/1.") && b !in {NUL, '0', '1'}
    ensures Whole(StartOf(r) + (proto + ([b] + u))) ==
            Rejection(FRESH.(verb := r.m), VersionError, Version, r.verb + " " + r.target + " " + proto + [b], u)
  {
    hide Run, Same, GoodStart, Whole, StartOf;
    FirstOfVersion(proto, [b] + u);
    StartRun(r, proto + ([b] + u));
    var c := Conf(FRESH.(verb := r.m), Word(VersionText, 0), r.verb + " " + r.target + " ");
    assert Text(VersionText) == "HTTP/1.";
    WholeWord(c, VersionText, proto, [b] + u);
    var q := Queue("", [b] + u);
    assert q.Tail() == Queue("", u) && q.Loud() == [b];
    VersionOutcome(Went(c, VersionDigit, proto), q);
  }

  /** The request line goes on behind the version; `s` is empty or a CR. */
  lemma BadLineEnd(r: Request, proto: string, minor: char, s: string, b: char, u: string)
    requires GoodStart(r) && Same(proto, "HTTP/1.") && (minor == '0' || minor == '1')
    requires (s == "" && b != '\r') || (s == "\r" && b != '\n')
    requires b != NUL
    ensures Whole(StartOf(r) + (proto + ([minor] + (s + ([b] + u))))) ==
            Rejection(FRESH.(verb := r.m, version := if minor == '0' then V10 else V11), StartLineEndError, StartLineEnd,
                      r.verb + " " + r.target + " " + proto + [minor] + s, [b] + u)
  {
    hide Run, Same, GoodStart, Whole, StartOf;
    var v := s + ([b] + u);
    FirstOfVersion(proto, [minor] + v);
    StartRun(r, proto + ([minor] + v));
    var c := Conf(FRESH.(verb := r.m), Word(VersionText, 0), r.verb + " " + r.target + " ");
    assert Text(VersionText) == "HTTP/1.";
    WholeWord(c, VersionText, proto, [minor] + v);
    var q := Queue("", [minor] + v);
    assert q.Tail() == Queue("", v) && q.Loud() == [minor];
    VersionOutcome(Went(c, VersionDigit, proto), q);
    var rec := c.rec.(version := if minor == '0' then V10 else V11);
    LineEndFacts(s, b);
    hide Text, Missed, Upper;
    PartRun(Conf(rec, Word(LineEnd, 0), c.out + proto + [minor]), LineEnd, s, b, u);
  }

  lemma LineEndFacts(s: string, b: char)
    requires (s == "" && b != '\r') || (s == "\r" && b != '\n')
    ensures |s| < |Text(LineEnd)| && Same(s, Text(LineEnd)[..|s|]) && Upper(b) != Text(LineEnd)[|s|]
    ensures Missed(LineEnd) == Error(StartLineEndError, StartLineEnd)
  {
    SameIs(s, Text(LineEnd)[..|s|]);
  }

  /** Headers that end before any `host:`. */
  ghost predicate UpToEnd(s: string) { s != "" && Searched(s[..|s| - 1]) && FoundEnd(s) && !FoundHost(s) }

  lemma LastIsLf(s: string)
    requires UpToEnd(s)
    ensures s[|s| - 1] == '\n' && 4 <= |s| && s[0] != NUL && forall k :: 0 <= k < |s| ==> s[k] != NUL
  {
    assert Upper(s[|s| - 4 + 3]) == "\r\n\r\n"[3];
    forall k | 0 <= k < |s| ensures s[k] != NUL {
      if k < |s| - 1 { assert s[k] in s[..|s| - 1]; }
    }
  }

  lemma LocalMissed(s: string, u: string)
    requires UpToEnd(s)
    ensures var n := MatchEnd(Text(XLocal), s + u, 0); n < |Text(XLocal)| && n < |s|
  {
    hide Searched, FoundEnd, FoundHost;
    var t, n := "X-LOCALHOST:", MatchEnd(Text(XLocal), s + u, 0);
    assert Text(XLocal) == t;
    LastIsLf(s);
    assert (s + u)[|s| - 1] == '\n';
    assert n < |s|;
    if n == 12 {
      var front := s[..|s| - 1];
      forall k | 0 <= k < 12 ensures Upper(front[k]) == t[k] {
        assert front[k] == (s + u)[k];
      }
      FoundAt(front);
    }
  }

  lemma FoundAt(s: string)
    requires 12 <= |s| && forall k :: 0 <= k < 12 ==> Upper(s[k]) == "X-LOCALHOST:"[k]
    ensures !Searched(s)
  {
    var v := s[..12];
    forall k | 0 <= k < 5 ensures Upper(v[|v| - 5 + k]) == "HOST:"[k] {
      assert v[7 + k] == s[7 + k] && "X-LOCALHOST:"[7 + k] == "HOST:"[k];
    }
    assert FoundHost(s[..12]);
  }

  /** A request without a Host field. */
  lemma NoHostHeader(r: Request, headers: string, u: string)
    requires GoodLine(r) && UpToEnd(headers)
    ensures Whole(LineOf(r) + (headers + u)) ==
            Rejection(LineRec(r), HostError, Headers, TidyLine(r) + (Added(headers) + headers), u)
  {
    hide Run, Whole, LineOf, TidyLine, GoodLine, Searched, FoundHost, FoundEnd;
    var s := headers;
    LineRun(r, s + u);
    var c, q := Conf(LineRec(r), LocalCheck, TidyLine(r)), Queue("", s + u);
    var front, b := s[..|s| - 1], s[|s| - 1];
    assert s == front + [b] && s + u == front + ([b] + u);
    LastIsLf(s);
    LocalOutcome(c, q);
    if Upper(s[0]) == 'X' {
      LocalMissed(s, u);
      var n := MatchEnd(Text(XLocal), s + u, 0);
      SearchedPrefix(front, n);
      assert front[..n] == s[..n];
      NotLocal(At(c, Word(XLocal, 0)), s, n, u);
      HostSearch(At(c, Scanning), front, b, u);
      assert "" + s == s;
    } else {
      HostSearch(Went(c, Scanning, LOCAL_HEADER), front, b, u);
      assert c.out + LOCAL_HEADER + s == c.out + (LOCAL_HEADER + s);
    }
  }

  /** A host that is followed by a byte that may not follow it. */
  lemma BadHost(r: Request, h: string, b: char, u: string)
    requires UpToValue(r) && HostChars(h) && h != "" && !Follows(false, b) && !HostByte(b) && b != ':' && b != NUL
    ensures Whole(BeforeValue(r) + (h + ([b] + u))) ==
            Rejection(LineRec(r), HostError, Host, BeforeValueOut(r) + h, [b] + u)
  {
    hide Run, Whole, BeforeValue, BeforeValueOut, UpToValue, LowerAll;
    HostBytes();
    FirstOfHostText(h, [b] + u);
    ValueStart(r, h + ([b] + u));
    var c := Conf(LineRec(r), HostName(false, ""), BeforeValueOut(r));
    WholeHostRun(c, false, h, [b] + u);
    HostOutcome(Went(c, HostName(false, LowerAll(h)), h), Queue("", [b] + u));
  }

  lemma FirstOfHostText(h: string, u: string)
    requires h != "" && HostByte(h[0])
    ensures var v := h + u; v != "" && !IsSpace(v[0]) && v[0] != NUL
  {
    assert (h + u)[0] == h[0];
  }

  /** A host of 255 bytes, which the source has no room for; the last one is consumed. */
  lemma LongHost(r: Request, h: string, b: char, u: string)
    requires UpToValue(r) && HostChars(h) && |h| == 254 && HostByte(b)
    ensures Whole(BeforeValue(r) + (h + ([b] + u))) ==
            Rejection(LineRec(r), HostError, Host, BeforeValueOut(r) + h + [b], u)
  {
    hide Run, Whole, BeforeValue, BeforeValueOut, UpToValue, LowerAll;
    HostBytes();
    FirstOfHostText(h, [b] + u);
    ValueStart(r, h + ([b] + u));
    var c := Conf(LineRec(r), HostName(false, ""), BeforeValueOut(r));
    WholeHostRun(c, false, h, [b] + u);
    var q := Queue("", [b] + u);
    assert q.Tail() == Queue("", u) && q.Loud() == [b];
    HostOutcome(Went(c, HostName(false, LowerAll(h)), h), q);
  }

  /** A colon that no digit follows. The call itself is specified; see `EmptyPort` for cuts. */
  lemma MissingPort(r: Request, h: string, b: char, u: string)
    requires UpToValue(r) && HostChars(h) && h != "" && |h| + 2 <= 255 && b != NUL && !IsDigit(10, b)
    ensures Whole(BeforeValue(r) + (h + (":" + ([b] + u)))) ==
            Outcome(Conf(LineRec(r).(state := HostError), NoPort, BeforeValueOut(r) + (h + ":")), Queue("", [b] + u))
  {
    hide Run, Whole, BeforeValue, BeforeValueOut, UpToValue, LowerAll, Print;
    var q := Queue("", [b] + u);
    FirstOfHostText(h, ":" + ([b] + u));
    ValueStart(r, h + (":" + ([b] + u)));
    var c := Conf(LineRec(r), HostName(false, ""), BeforeValueOut(r));
    WholeHostRun(c, false, h, ":" + ([b] + u));
    var d := Went(c, HostName(false, LowerAll(h)), h);
    ColonRun(d, [b] + u);
    var e := Went(d, Port(false, LowerAll(h), None), ":");
    assert e.out + "" == e.out && c.out + h + ":" == c.out + (h + ":");
    RunRefused(e, q, Step(e.rec, e.p, b, [b]));
  }

  /** A port that is followed by a byte that may not follow it; the port is stored. */
  lemma BadPortEnd(r: Request, h: string, d: string, b: char, u: string)
    requires UpToValue(r) && HostChars(h) && h != "" && d != "" && AllDigits(10, d, |d|) && Value(10, d, |d|) < INT_LIMIT
    requires |h| + 1 + |Print(10, Value(10, d, |d|))| <= 255 && b != NUL && !IsDigit(10, b) && !Follows(false, b)
    ensures Whole(BeforeValue(r) + (h + (":" + (d + ([b] + u))))) ==
            Rejection(LineRec(r).(port := Value(10, d, |d|)), HostError, Host, BeforeValueOut(r) + (h + (":" + d)), [b] + u)
  {
    hide Run, Whole, BeforeValue, BeforeValueOut, UpToValue, LowerAll, Print, Value, HostChars, AllDigits;
    var v := d + ([b] + u);
    assert HostByte(h[0]) by { FirstHostByte(h); }
    FirstOfHostText(h, ":" + v);
    ValueStart(r, h + (":" + v));
    var c := Conf(LineRec(r), HostName(false, ""), BeforeValueOut(r));
    WholeHostRun(c, false, h, ":" + v);
    var e := Went(c, HostName(false, LowerAll(h)), h);
    ColonRun(e, v);
    BadPortRun(Went(e, Port(false, LowerAll(h), None), ":"), LowerAll(h), d, b, u);
    assert c.out + h + ":" + d == c.out + (h + (":" + d));
  }

  lemma FirstHostByte(h: string)
    requires HostChars(h) && h != ""
    ensures HostByte(h[0])
  {
  }

  lemma BadPortRun(c: Conf, h: string, d: string, b: char, u: string)
    requires c.p == Port(false, h, None) && h != "" && d != "" && AllDigits(10, d, |d|) && Value(10, d, |d|) < INT_LIMIT
    requires |h| + 1 + |Print(10, Value(10, d, |d|))| <= 255 && b != NUL && !IsDigit(10, b) && !Follows(false, b)
    ensures Run(c, Queue("", d + ([b] + u))) ==
            Rejection(c.rec.(port := Value(10, d, |d|)), HostError, Host, c.out + d, [b] + u)
  {
    hide Run, Value, Print, Queue.Drop, Queue.LoudTake;
    var q, n := Queue("", d + ([b] + u)), |d|;
    DropFresh(d, [b] + u);
    assert q.Text()[..n] == d == d[..n] && q.Text()[n] == b;
    ValueOfPrefix(10, d, q.Text(), n);
    DigitsEndIs(q.Text(), 0, n);
    PortOutcome(c, q);
  }
}
