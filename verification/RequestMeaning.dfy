/** What the request parser finds: where the search for the Host field stops, and what comes out of
    a well-formed request in origin form. */
module RequestMeaning {
  import opened Bytes
  import opened Numbers
  import opened ParserUtils
  import opened RequestMachine
  import opened RequestLemmas
  import opened RequestParser
  import opened RequestFragments

  /** A complete `host:` or empty line at the end of the text. */
  ghost predicate FoundHost(s: string) { Ends(s, "HOST:") }

  ghost predicate FoundEnd(s: string) { Ends(s, "\r\n\r\n") }

  /** Text in which the search has not stopped. */
  ghost predicate Searched(s: string) {
    NUL !in s && forall k | 0 <= k <= |s| :: !FoundHost(s[..k]) && !FoundEnd(s[..k])
  }

  /** Where a search that misses nothing must be: at the longest beginning of `host:` or of an empty
      line that the text ends with. */
  ghost function PlaceOf(s: string): Place {
    if Ends(s, "HOST") then Word(Ost, 3)
    else if Ends(s, "HOS") then Word(Ost, 2)
    else if Ends(s, "HO") then Word(Ost, 1)
    else if Ends(s, "H") then Word(Ost, 0)
    else if Ends(s, "\r\n\r") then Word(HeadersEnd, 1)
    else if Ends(s, "\r\n") then Word(HeadersEnd, 0)
    else if Ends(s, "\r") then Word(Lf, 0)
    else Scanning
  }

  lemma EndsOneMore(s: string, b: char)
    ensures var t := s + [b];
            && Ends(t, "H") == (Upper(b) == 'H')
            && Ends(t, "HO") == (Upper(b) == 'O' && Ends(s, "H"))
            && Ends(t, "HOS") == (Upper(b) == 'S' && Ends(s, "HO"))
            && Ends(t, "HOST") == (Upper(b) == 'T' && Ends(s, "HOS"))
            && Ends(t, "HOST:") == (Upper(b) == ':' && Ends(s, "HOST"))
            && Ends(t, "\r") == (Upper(b) == '\r')
            && Ends(t, "\r\n") == (Upper(b) == '\n' && Ends(s, "\r"))
            && Ends(t, "\r\n\r") == (Upper(b) == '\r' && Ends(s, "\r\n"))
            && Ends(t, "\r\n\r\n") == (Upper(b) == '\n' && Ends(s, "\r\n\r"))
  {
    hide Ends;
    assert Ends(s, "") by { EndsNothing(s); }
    EndsSnoc(s, b, "", 'H');
    EndsSnoc(s, b, "H", 'O');
    EndsSnoc(s, b, "HO", 'S');
    EndsSnoc(s, b, "HOS", 'T');
    EndsSnoc(s, b, "HOST", ':');
    EndsSnoc(s, b, "", '\r');
    EndsSnoc(s, b, "\r", '\n');
    EndsSnoc(s, b, "\r\n", '\r');
    EndsSnoc(s, b, "\r\n\r", '\n');
    assert "" + ['H'] == "H" && "H" + ['O'] == "HO" && "HO" + ['S'] == "HOS" && "HOS" + ['T'] == "HOST";
    assert "HOST" + [':'] == "HOST:" && "" + ['\r'] == "\r" && "\r" + ['\n'] == "\r\n";
    assert "\r\n" + ['\r'] == "\r\n\r" && "\r\n\r" + ['\n'] == "\r\n\r\n";
  }

  lemma EndsNothing(s: string)
    ensures Ends(s, "")
  {
  }

  /** Suffixes with different last bytes exclude each other. */
  lemma EndsOnce(s: string)
    ensures Ends(s, "\r\n") ==> !Ends(s, "H") && !Ends(s, "HO") && !Ends(s, "HOS") && !Ends(s, "HOST")
                                && !Ends(s, "\r") && !Ends(s, "\r\n\r")
    ensures Ends(s, "\r") ==> !Ends(s, "H") && !Ends(s, "HO") && !Ends(s, "HOS") && !Ends(s, "HOST")
    ensures Ends(s, "\r\n\r") ==> Ends(s, "\r")
    ensures Ends(s, "HOST") ==> !Ends(s, "HOS") && !Ends(s, "HO") && !Ends(s, "H")
    ensures Ends(s, "HOS") ==> !Ends(s, "HO") && !Ends(s, "H")
    ensures Ends(s, "HO") ==> !Ends(s, "H")
  {
    if s != "" {
      var u, b := s[..|s| - 1], s[|s| - 1];
      assert s == u + [b];
      EndsOneMore(u, b);
    }
  }

  /** One byte of the search: it goes on exactly where it must, or it stops. */
  lemma SearchStep(rec: Rec, s: string, b: char, loud: string)
    requires b != NUL && !FoundEnd(s) && !FoundHost(s)
    ensures var mv := Step(rec, PlaceOf(s), b, loud);
            if FoundHost(s + [b]) then mv == Take(rec, Spaces(Host), loud)
            else if FoundEnd(s + [b]) then mv == Take(rec.(state := HostError), Rejected(Headers), loud)
            else mv == Take(rec, PlaceOf(s + [b]), loud)
  {
    hide Ends;
    EndsOneMore(s, b);
    EndsOnce(s);
    EndsOnce(s + [b]);
    SearchTexts();
    hide Text;
  }

  lemma SearchTexts()
    ensures |Text(Ost)| == 4 && Text(Ost)[0] == 'O' && Text(Ost)[1] == 'S' && Text(Ost)[2] == 'T' && Text(Ost)[3] == ':'
    ensures |Text(Lf)| == 1 && Text(Lf)[0] == '\n'
    ensures |Text(HeadersEnd)| == 2 && Text(HeadersEnd)[0] == '\r' && Text(HeadersEnd)[1] == '\n'
  {
  }

  lemma {:induction false} SearchRun(c: Conf, s: string, n: nat, t: string)
    requires c.p == Scanning && n <= |s| && Searched(s[..n]) && !FoundEnd("") && !FoundHost("")
    ensures Run(c, Queue("", s + t)) == Run(Went(c, PlaceOf(s[..n]), s[..n]), Queue("", s[n..] + t))
  {
    hide Run, Step, PlaceOf, FoundHost, FoundEnd;
    if n == 0 {
      assert c.out + "" == c.out && s[..0] == "" && s[0..] == s;
      PlaceOfNothing();
    } else {
      var u, b := s[..n - 1], s[n - 1];
      assert s[..n] == u + [b] && b in s[..n];
      forall k | 0 <= k <= |u| ensures u[..k] == s[..n][..k] { }
      SearchRun(c, s, n - 1, t);
      assert s[..n][..n - 1] == u && s[..n][..n] == s[..n];
      SearchStep(c.rec, u, b, [b]);
      var here, q := Went(c, PlaceOf(u), u), Queue("", s[n - 1..] + t);
      assert q.Tail() == Queue("", s[n..] + t);
      AppendAppend(c.out, u, [b]);
      SearchGoesOn(u);
      RunTook(here, q, Step(c.rec, PlaceOf(u), b, [b]));
    }
  }

  lemma PlaceOfNothing()
    ensures PlaceOf("") == Scanning && !FoundEnd("") && !FoundHost("")
  {
  }

  lemma SearchGoesOn(s: string)
    ensures !Terminal(PlaceOf(s)) && StateOf(PlaceOf(s)) == Headers
  {
    hide Ends;
  }

  /** The search for the Host field over any NUL-free text: it stops at the first `host:`, in any
      case, or at the first empty line, whichever is completed first, and it misses neither. */
  lemma HostSearch(c: Conf, s: string, b: char, t: string)
    requires c.p == Scanning && Searched(s) && b != NUL
    ensures var r := Run(c, Queue("", s + ([b] + t)));
            if FoundHost(s + [b]) then r == Run(Went(c, Spaces(Host), s + [b]), Queue("", t))
            else if FoundEnd(s + [b]) then
              r == Outcome(Conf(c.rec.(state := HostError), Rejected(Headers), c.out + (s + [b])), Queue("", t))
            else
              !Terminal(Run(c, Queue("", s + [b])).c.p) && Searched(s + [b])
  {
    hide Run, Step, PlaceOf, FoundHost, FoundEnd;
    PlaceOfNothing();
    assert s[..|s|] == s && s[|s|..] + ([b] + t) == [b] + t;
    SearchRun(c, s, |s|, [b] + t);
    SearchStep(c.rec, s, b, [b]);
    SearchGoesOn(s);
    var here, q := Went(c, PlaceOf(s), s), Queue("", [b] + t);
    assert q.Tail() == Queue("", t);
    AppendAppend(c.out, s, [b]);
    var mv := Step(c.rec, PlaceOf(s), b, [b]);
    RunTook(here, q, mv);
    RunTerminal(Apply(here, mv), Queue("", t));
    if !FoundHost(s + [b]) && !FoundEnd(s + [b]) {
      SearchedSnoc(s, b);
      assert (s + [b])[..|s| + 1] == s + [b] && (s + [b])[|s| + 1..] + "" == "" && s + [b] + "" == s + [b];
      SearchRun(c, s + [b], |s| + 1, "");
      SearchGoesOn(s + [b]);
      RunEmpty(Went(c, PlaceOf(s + [b]), s + [b]), Queue("", ""));
    }
  }

  lemma SearchedSnoc(s: string, b: char)
    requires Searched(s) && b != NUL && !FoundHost(s + [b]) && !FoundEnd(s + [b])
    ensures Searched(s + [b])
  {
    hide FoundHost, FoundEnd;
    var u := s + [b];
    forall k | 0 <= k <= |u| ensures !FoundHost(u[..k]) && !FoundEnd(u[..k]) {
      if k <= |s| {
        assert u[..k] == s[..k];
      } else {
        assert u[..k] == u;
      }
    }
  }

  function LowerAll(s: string): string {
    if s == "" then "" else [Lower(s[0])] + LowerAll(s[1..])
  }

  lemma {:induction false} LowerAllSnoc(s: string, b: char)
    ensures LowerAll(s + [b]) == LowerAll(s) + [Lower(b)] && |LowerAll(s)| == |s|
  {
    if s == "" {
      assert s + [b] == [b] && LowerAll("") == "";
    } else {
      assert (s + [b])[1..] == s[1..] + [b];
      LowerAllSnoc(s[1..], b);
    }
  }

  /** Letters, digits, dashes and dots. */
  predicate HostByte(b: char) {
    'a' <= b <= 'z' || 'A' <= b <= 'Z' || '0' <= b <= '9' || b == '-' || b == '.'
  }

  lemma HostBytes()
    ensures forall b :: HostByte(b) <==> IsHostChar(Lower(b))
  {
  }

  ghost predicate HostChars(h: string) { |h| < 255 && forall k :: 0 <= k < |h| ==> HostByte(h[k]) }

  lemma {:induction false} HostCharsRun(c: Conf, a: bool, h: string, n: nat, t: string)
    requires c.p == HostName(a, "") && HostChars(h) && n <= |h|
    ensures Run(c, Queue("", h + t)) == Run(Went(c, HostName(a, LowerAll(h[..n])), h[..n]), Queue("", h[n..] + t))
    ensures |LowerAll(h[..n])| == n
  {
    hide Run, Step;
    HostBytes();
    if n == 0 {
      assert c.out + "" == c.out && h[..0] == "" && h[0..] == h;
    } else {
      HostCharsRun(c, a, h, n - 1, t);
      var u, b := h[..n - 1], h[n - 1];
      assert h[..n] == u + [b];
      LowerAllSnoc(u, b);
      var here, q := Went(c, HostName(a, LowerAll(u)), u), Queue("", h[n - 1..] + t);
      assert q.Tail() == Queue("", h[n..] + t);
      HostOutcome(here, q);
      AppendAppend(c.out, u, [b]);
    }
  }

  /** The bytes that may follow a host, or its port: in a target any byte that does not belong to it, in
      a Host field a space, a tab or a CR. */
  predicate Follows(absolute: bool, b: char) {
    if absolute then b != NUL && !HostByte(b) && b != ':' && b != '@' else b == ' ' || b == '\t' || b == '\r'
  }

  /** `host` or `host:port`, as text. */
  datatype Authority = Authority(host: string, port: Option<string>)

  ghost predicate GoodAuthority(a: Authority) {
    && HostChars(a.host) && a.host != ""
    && (a.port.Some? ==>
          var d := a.port.value;
          && d != "" && AllDigits(10, d, |d|) && Value(10, d, |d|) < INT_LIMIT
          && |a.host| + 1 + |Print(10, Value(10, d, |d|))| <= 255)
  }

  function AuthorityText(a: Authority): string {
    a.host + if a.port.Some? then ":" + a.port.value else ""
  }

  /** What the callback is told: the host in lower case, and the port or what the record has. */
  ghost function PortNumber(a: Authority, default: int): int
    requires GoodAuthority(a)
  {
    if a.port.Some? then Value(10, a.port.value, |a.port.value|) else default
  }

  lemma PortTextRun(c: Conf, a: bool, h: string, d: string, b: char, t: string)
    requires c.p == Port(a, h, None) && h != "" && d != "" && AllDigits(10, d, |d|) && Follows(a, b)
    requires var v := Value(10, d, |d|); v < INT_LIMIT && |h| + 1 + |Print(10, v)| <= RESERVE
    ensures var v := Value(10, d, |d|);
            Run(c, Queue("", d + ([b] + t))) ==
            Outcome(Conf(c.rec.(port := v, calls := c.rec.calls + [Call(h, v)]), Done, c.out + d), Queue("", [b] + t))
  {
    hide Run, Value, Print, Queue.Drop, Queue.LoudTake;
    var q, n := Queue("", d + ([b] + t)), |d|;
    DropFresh(d, [b] + t);
    assert q.Text()[..n] == d == d[..n] && q.Text()[n] == b;
    ValueOfPrefix(10, d, q.Text(), n);
    DigitsEndIs(q.Text(), 0, n);
    PortOutcome(c, q);
  }

  lemma {:induction false} DigitsEndIs(s: string, i: nat, n: nat)
    requires i <= n < |s| && AllDigits(10, s, n) && !IsDigit(10, s[n])
    ensures DigitsEnd(10, s, i) == n
    decreases n - i
  {
    if i < n {
      DigitsEndIs(s, i + 1, n);
    }
  }

  lemma HostEndRun(c: Conf, b: char, t: string)
    requires c.p.HostName? && c.p.h != "" && |c.p.h| < HOST_MAX_SIZE && Follows(c.p.absolute, b)
    ensures Run(c, Queue("", [b] + t)) ==
            Outcome(Conf(c.rec.(calls := c.rec.calls + [Call(c.p.h, c.rec.port)]), Done, c.out), Queue("", [b] + t))
  {
    hide Run;
    HostBytes();
    HostOutcome(c, Queue("", [b] + t));
  }

  lemma ColonRun(c: Conf, u: string)
    requires c.p.HostName? && c.p.h != "" && |c.p.h| + 2 <= RESERVE
    ensures Run(c, Queue("", ":" + u)) == Run(Went(c, Port(c.p.absolute, c.p.h, None), ":"), Queue("", u))
  {
    hide Run;
    var q := Queue("", ":" + u);
    HostOutcome(c, q);
    assert q.Tail() == Queue("", u) && q.Loud() == ":";
  }

  lemma WholeHostRun(c: Conf, a: bool, h: string, rest: string)
    requires c.p == HostName(a, "") && HostChars(h)
    ensures Run(c, Queue("", h + rest)) == Run(Went(c, HostName(a, LowerAll(h)), h), Queue("", rest))
    ensures |LowerAll(h)| == |h|
  {
    hide Run, LowerAll;
    HostCharsRun(c, a, h, |h|, rest);
    assert h[..|h|] == h && h[|h|..] + rest == rest;
  }

  function Called(c: Conf, host: string, port: int, o: string): Conf {
    Conf(c.rec.(port := port, calls := c.rec.calls + [Call(host, port)]), Done, c.out + o)
  }

  lemma BareHostRun(c: Conf, a: bool, h: string, b: char, t: string)
    requires c.p == HostName(a, "") && HostChars(h) && h != "" && Follows(a, b)
    ensures Run(c, Queue("", h + ([b] + t))) == Outcome(Called(c, LowerAll(h), c.rec.port, h), Queue("", [b] + t))
  {
    hide Run, LowerAll;
    WholeHostRun(c, a, h, [b] + t);
    HostEndRun(Went(c, HostName(a, LowerAll(h)), h), b, t);
  }

  lemma HostAndPortRun(c: Conf, a: bool, h: string, d: string, b: char, t: string)
    requires c.p == HostName(a, "") && HostChars(h) && h != "" && Follows(a, b)
    requires d != "" && AllDigits(10, d, |d|) && Value(10, d, |d|) < INT_LIMIT
    requires |h| + 1 + |Print(10, Value(10, d, |d|))| <= RESERVE
    ensures Run(c, Queue("", h + (":" + (d + ([b] + t))))) ==
            Outcome(Called(c, LowerAll(h), Value(10, d, |d|), h + (":" + d)), Queue("", [b] + t))
  {
    hide Run, LowerAll, Value, Print, HostChars;
    WholeHostRun(c, a, h, ":" + (d + ([b] + t)));
    var e := Went(c, HostName(a, LowerAll(h)), h);
    ColonRun(e, d + ([b] + t));
    PortTextRun(Went(e, Port(a, LowerAll(h), None), ":"), a, LowerAll(h), d, b, t);
    assert c.out + h + ":" + d == c.out + (h + (":" + d));
  }

  /** A host with or without a port, in a target or in a Host field. The byte after it is not consumed. */
  lemma AuthorityRun(c: Conf, absolute: bool, a: Authority, b: char, t: string)
    requires c.p == HostName(absolute, "") && GoodAuthority(a) && Follows(absolute, b)
    ensures Run(c, Queue("", AuthorityText(a) + ([b] + t))) ==
            Outcome(Called(c, LowerAll(a.host), PortNumber(a, c.rec.port), AuthorityText(a)), Queue("", [b] + t))
  {
    hide Run, Value, Print, LowerAll, Called, HostChars;
    if a.port.Some? {
      assert AuthorityText(a) + ([b] + t) == a.host + (":" + (a.port.value + ([b] + t)));
      HostAndPortRun(c, absolute, a.host, a.port.value, b, t);
    } else {
      assert AuthorityText(a) == a.host;
      BareHostRun(c, absolute, a.host, b, t);
    }
  }
}
