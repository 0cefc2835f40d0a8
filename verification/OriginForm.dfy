/** A whole request in origin form (section 5.3.1 of RFC 7230): what the callback is told and what
    goes out, in whatever fragments the request arrives. */
module OriginForm {
  import opened Bytes
  import opened Buffers
  import opened Numbers
  import opened ParserUtils
  import opened RequestMachine
  import opened RequestLemmas
  import opened RequestParser
  import opened RequestFragments
  import opened RequestMeaning

  ghost predicate AllSpaces(s: string) { forall k :: 0 <= k < |s| ==> s[k] == ' ' || s[k] == '\t' }

  /** A target without spaces that does not begin with `http://`, in any case. */
  ghost predicate GoodTarget(s: string) {
    && s != "" && NUL !in s && (forall k :: 0 <= k < |s| ==> !IsSpace(s[k]))
    && !(7 <= |s| && Same(s[..7], "HTTP://"))
  }

  lemma WholeWord(c: Conf, t: Token, s: string, u: string)
    requires c.p == Word(t, 0) && Same(s, Text(t))
    ensures Run(c, Queue("", s + u)) ==
            Run(var (rec, p) := Matched(c.rec, t); Conf(rec, p, c.out + s), Queue("", u))
  {
    hide Run, Text, Queue.Drop, Queue.LoudTake, Matched;
    var q := Queue("", s + u);
    DropFresh(s, u);
    assert forall k :: 0 <= k < |s| ==> q.Text()[k] == s[k];
    WordRun(c, t, q, |s|);
  }

  /** GET, HEAD or POST, in any case. */
  ghost predicate IsVerb(verb: string, m: HttpMethod) {
    (m == Get && Same(verb, "GET")) || (m == HeadMethod && Same(verb, "HEAD")) || (m == Post && Same(verb, "POST"))
  }

  /** The other methods of the table. */
  ghost predicate IsOtherVerb(verb: string, m: HttpMethod) {
    || (m == Put && Same(verb, "PUT")) || (m == Delete && Same(verb, "DELETE")) || (m == Connect && Same(verb, "CONNECT"))
    || (m == Options && Same(verb, "OPTIONS")) || (m == Trace && Same(verb, "TRACE"))
  }

  function TokenOf(m: HttpMethod): Token {
    match m
    case Get => GetText
    case HeadMethod => HeadText
    case Post => PostText
    case Put => PutText
    case Delete => DeleteText
    case Connect => ConnectText
    case Options => OptionsText
    case _ => TraceText
  }

  lemma VerbTexts()
    ensures Before(GetText) + Text(GetText) == "GET" && Before(HeadText) + Text(HeadText) == "HEAD"
    ensures Before(PostText) + Text(PostText) == "POST" && Before(PutText) + Text(PutText) == "PUT"
    ensures Before(DeleteText) + Text(DeleteText) == "DELETE" && Before(ConnectText) + Text(ConnectText) == "CONNECT"
    ensures Before(OptionsText) + Text(OptionsText) == "OPTIONS" && Before(TraceText) + Text(TraceText) == "TRACE"
  {
  }

  lemma VerbParts(verb: string, m: HttpMethod)
    requires IsVerb(verb, m) || (IsOtherVerb(verb, m) && m != Put)
    ensures var t := TokenOf(m);
            verb != "" && MethodStart(Upper(verb[0])) == Some(t) && Same(verb[1..], Text(t))
  {
    VerbTexts();
    var t := TokenOf(m);
    var w := Before(t) + Text(t);
    assert Same(verb, w);
    assert forall k :: 0 <= k < |w| ==> Upper(verb[|verb| - |w| + k]) == w[k];
    assert Upper(verb[0]) == w[0] && |Before(t)| == 1;
    hide Text;
    forall k | 0 <= k < |Text(t)| ensures Upper(verb[1..][k]) == Text(t)[k] {
      assert verb[1..][k] == verb[k + 1] && w[k + 1] == Text(t)[k];
    }
  }

  lemma VerbMatched(rec: Rec, m: HttpMethod)
    ensures m in {Get, HeadMethod, Post} ==> Matched(rec, TokenOf(m)) == (rec.(verb := m), Spaces(Uri))
    ensures m in {Put, Delete, Connect, Options, Trace} ==>
              Matched(rec, TokenOf(m)) == (rec.(verb := m, state := UnsupportedMethodError), Rejected(Method))
  {
  }

  lemma MethodRun(c: Conf, verb: string, m: HttpMethod, u: string)
    requires c.p == Start && (IsVerb(verb, m) || (IsOtherVerb(verb, m) && m != Put))
    ensures Run(c, Queue("", verb + u)) ==
            Run(var (rec, p) := Matched(c.rec, TokenOf(m)); Conf(rec, p, c.out + verb), Queue("", u))
  {
    hide Run, Text, Same, Matched;
    var q := Queue("", verb + u);
    VerbParts(verb, m);
    var s, t := verb[1..], TokenOf(m);
    assert q.Tail() == Queue("", s + u) && q.Head() == verb[0] && q.Loud() == [verb[0]];
    StartOutcome(c, q);
    WholeWord(Went(c, Word(t, 0), [verb[0]]), t, s, u);
    assert c.out + [verb[0]] + s == c.out + verb;
  }

  lemma VerbRun(c: Conf, verb: string, m: HttpMethod, u: string)
    requires c.p == Start && IsVerb(verb, m)
    ensures Run(c, Queue("", verb + u)) == Run(Conf(c.rec.(verb := m), Spaces(Uri), c.out + verb), Queue("", u))
  {
    hide Run, Same;
    MethodRun(c, verb, m, u);
    VerbMatched(c.rec, m);
  }

  lemma PutFirst(c: Conf, i: nat, x: char, u: string)
    requires c.p == Word(PostText, i) && i <= 2 && Upper(x) == 'U'
    ensures Run(c, Queue("", [x] + u)) == Run(Went(c, Word(PutText, 1), [x]), Queue("", u))
  {
    hide Run;
    assert Text(PostText) == "OST";
    var q := Queue("", [x] + u);
    assert q.Tail() == Queue("", u);
    RunTook(c, q, Step(c.rec, c.p, x, [x]));
  }

  lemma PutSecond(c: Conf, y: char, u: string)
    requires c.p == Word(PutText, 1) && Upper(y) == 'T'
    ensures Run(c, Queue("", [y] + u)) ==
            Run(var (rec, p) := Matched(c.rec, PutText); Conf(rec, p, c.out + [y]), Queue("", u))
  {
    hide Run;
    assert Text(PutText) == "UT";
    var q := Queue("", [y] + u);
    assert q.Tail() == Queue("", u);
    RunTook(c, q, Step(c.rec, c.p, y, [y]));
  }

  /** After P and what POST begins with. */
  lemma PostBegins(c: Conf, s: string, u: string)
    requires c.p == Start && (Same(s, "P") || Same(s, "PO") || Same(s, "POS"))
    ensures Run(c, Queue("", s + u)) == Run(Went(c, Word(PostText, |s| - 1), s), Queue("", u))
  {
    hide Run;
    var w := if |s| == 1 then "P" else if |s| == 2 then "PO" else "POS";
    SameIs(s, w);
    assert Text(PostText) == "OST" && Upper(s[0]) == w[0];
    forall j | 0 <= j < |s| - 1 ensures Upper(s[1..][j]) == Text(PostText)[j] {
      assert s[1..][j] == s[j + 1] && Upper(s[j + 1]) == w[j + 1];
    }
    MethodBegins(c, PostText, s, u);
  }

  /** PUT is tried where POST failed, so that POUT and POSUT are taken for it as well. */
  lemma PutRun(c: Conf, s: string, x: char, y: char, u: string)
    requires c.p == Start && (Same(s, "P") || Same(s, "PO") || Same(s, "POS")) && Upper(x) == 'U' && Upper(y) == 'T'
    ensures Run(c, Queue("", s + [x, y] + u)) ==
            Run(var (rec, p) := Matched(c.rec, PutText); Conf(rec, p, c.out + (s + [x, y])), Queue("", u))
  {
    hide Run, Same, Matched;
    assert s + [x, y] + u == s + ([x] + ([y] + u));
    PostBegins(c, s, [x] + ([y] + u));
    var n := if |s| == 0 then 0 else |s| - 1;
    SameLength(s);
    PutFirst(Went(c, Word(PostText, n), s), n, x, [y] + u);
    PutSecond(Went(Went(c, Word(PostText, n), s), Word(PutText, 1), [x]), y, u);
    assert c.out + s + [x] + [y] == c.out + (s + [x, y]);
  }

  lemma SameLength(s: string)
    requires Same(s, "P") || Same(s, "PO") || Same(s, "POS")
    ensures 1 <= |s| <= 3
  {
  }

  lemma PutParts(verb: string)
    requires Same(verb, "PUT")
    ensures |verb| == 3 && Same(verb[..1], "P") && Upper(verb[1]) == 'U' && Upper(verb[2]) == 'T'
  {
    SameIs(verb, "PUT");
    assert Upper(verb[0]) == "PUT"[0] && Upper(verb[1]) == "PUT"[1] && Upper(verb[2]) == "PUT"[2];
    SameIs(verb[..1], "P");
  }

  /** The methods that the proxy knows and does not serve. */
  lemma UnsupportedVerb(verb: string, m: HttpMethod, u: string)
    requires IsOtherVerb(verb, m)
    ensures Whole(verb + u) ==
            Outcome(Conf(FRESH.(verb := m, state := UnsupportedMethodError), Rejected(Method), verb), Queue("", u))
  {
    hide Run, Same, Matched;
    var c := Conf(FRESH, Start, "");
    assert "" + verb == verb;
    if m == Put {
      PutParts(verb);
      assert verb[..1] + [verb[1], verb[2]] == verb && "" + verb == verb;
      PutRun(c, verb[..1], verb[1], verb[2], u);
    } else {
      MethodRun(c, verb, m, u);
    }
    VerbMatched(FRESH, m);
    RunTerminal(Conf(FRESH.(verb := m, state := UnsupportedMethodError), Rejected(Method), verb), Queue("", u));
  }


  /** The eight methods, each by the letters that the parser compares. */
  const NAMES: seq<string> := ["CONNECT", "DELETE", "GET", "HEAD", "OPTIONS", "POST", "TRACE"]

  function NameToken(k: nat): Token
    requires k < 7
  {
    [ConnectText, DeleteText, GetText, HeadText, OptionsText, PostText, TraceText][k]
  }

  lemma NameTexts(k: nat)
    requires k < 7
    ensures var t := NameToken(k); Before(t) + Text(t) == NAMES[k] && |Before(t)| == 1
    ensures MethodStart(NAMES[k][0]) == Some(NameToken(k))
    ensures Missed(NameToken(k)) == if k == 5 then GoOn(Word(PutText, 0)) else Error(GeneralMethodError, Method)
  {
  }

  /** A word that stops being a method after at least one byte. After P, PO and POS the next byte
      must not continue PUT. */
  lemma NoMethod(k: nat, s: string, b: char, u: string)
    requires k < 7 && 0 < |s| < |NAMES[k]| && Same(s, NAMES[k][..|s|])
    requires b != NUL && Upper(b) != NAMES[k][|s|] && (k == 5 ==> Upper(b) != 'U')
    ensures Whole(s + ([b] + u)) ==
            Outcome(Conf(FRESH.(state := GeneralMethodError), Rejected(Method), s), Queue("", [b] + u))
  {
    hide Run, Text, Queue.Drop, Queue.LoudTake, Before, MethodStart, Missed, Same, Ends;
    NameTexts(k);
    var t, n := NameToken(k), |s| - 1;
    var c := Conf(FRESH, Start, "");
    NameReads(k, s);
    MethodBegins(c, t, s, [b] + u);
    assert "" + s == s;
    NoMethodByte(Went(c, Word(t, n), s), t, n, b, u);
  }

  lemma NameReads(k: nat, s: string)
    requires k < 7 && 0 < |s| < |NAMES[k]| && Same(s, NAMES[k][..|s|])
    ensures var t := NameToken(k); var n := |s| - 1;
            && Upper(s[0]) == NAMES[k][0] && n < |Text(t)| && Text(t)[n] == NAMES[k][|s|]
            && forall j :: 0 <= j < n ==> Upper(s[1..][j]) == Text(t)[j]
  {
    hide Text, Before, Same, Ends;
    NameTexts(k);
    SameIs(s, NAMES[k][..|s|]);
    var t, n := NameToken(k), |s| - 1;
    forall j | 0 <= j < n ensures Upper(s[1..][j]) == Text(t)[j] {
      assert s[1..][j] == s[j + 1] && Upper(s[j + 1]) == NAMES[k][..|s|][j + 1];
    }
  }

  lemma MethodBegins(c: Conf, t: Token, s: string, u: string)
    requires c.p == Start && 0 < |s| <= |Text(t)| && MethodStart(Upper(s[0])) == Some(t)
    requires forall j :: 0 <= j < |s| - 1 ==> Upper(s[1..][j]) == Text(t)[j]
    ensures Run(c, Queue("", s + u)) == Run(Went(c, Word(t, |s| - 1), s), Queue("", u))
  {
    hide Run, Text, Queue.Drop, Queue.LoudTake, MethodStart, Queue.Text;
    var rest := s[1..];
    FirstLetter(c, t, s, u);
    DropFresh(rest, u);
    assert forall j :: 0 <= j < |rest| ==> (rest + u)[j] == rest[j];
    WordRun(Went(c, Word(t, 0), [s[0]]), t, Queue("", rest + u), |rest|);
    assert c.out + [s[0]] + rest == c.out + s;
  }

  lemma FirstLetter(c: Conf, t: Token, s: string, u: string)
    requires c.p == Start && s != "" && MethodStart(Upper(s[0])) == Some(t)
    ensures Run(c, Queue("", s + u)) == Run(Went(c, Word(t, 0), [s[0]]), Queue("", s[1..] + u))
  {
    hide Run;
    var q := Queue("", s + u);
    assert s[0] != NUL && q.Tail() == Queue("", s[1..] + u) && q.Loud() == [s[0]];
    StartOutcome(c, q);
  }

  lemma NoMethodByte(c: Conf, t: Token, n: nat, b: char, u: string)
    requires c.p == Word(t, n) && n < |Text(t)| && b != NUL && Upper(b) != Text(t)[n]
    requires Missed(t) == Error(GeneralMethodError, Method) || (Missed(t) == GoOn(Word(PutText, 0)) && Upper(b) != 'U')
    ensures Run(c, Queue("", [b] + u)) ==
            Outcome(Conf(c.rec.(state := GeneralMethodError), Rejected(Method), c.out), Queue("", [b] + u))
  {
    hide Run;
    var q := Queue("", [b] + u);
    MissedByte(c, t, n, q);
    if Missed(t).GoOn? {
      assert Text(PutText)[0] == 'U';
      MissedByte(At(c, Word(PutText, 0)), PutText, 0, q);
    }
  }

  /** A first byte with which no method begins is consumed. */
  lemma NoMethodAtAll(b: char, u: string)
    requires b != NUL && Upper(b) !in {'C', 'D', 'G', 'H', 'O', 'P', 'T'}
    ensures Whole([b] + u) == Outcome(Conf(FRESH.(state := GeneralMethodError), Rejected(Method), [b]), Queue("", u))
  {
    hide Run;
    var q := Queue("", [b] + u);
    assert q.Tail() == Queue("", u) && "" + [b] == [b];
    StartOutcome(Conf(FRESH, Start, ""), q);
  }

  /** Spaces, of which one is written. */
  lemma GapRun(c: Conf, gap: string, u: string)
    requires c.p.Spaces? && c.p.next in {Uri, Version, Host} && AllSpaces(gap)
    requires u != "" && !IsSpace(u[0]) && u[0] != NUL
    ensures Run(c, Queue("", gap + u)) == Run(Went(c, Resumed(c.p.next, c.p.next), " "), Queue("", u))
  {
    hide Run, Queue.Drop, Queue.LoudTake, Resumed;
    DropFresh(gap, u);
    SpacesRun(c, Queue("", gap + u), |gap|);
    SpacesOver(c, Queue("", u));
  }

  lemma {:induction false} RelativeRun(c: Conf, s: string, sp: char, u: string)
    requires c.p == Relative && IsSpace(sp) && NUL !in s && forall k :: 0 <= k < |s| ==> !IsSpace(s[k])
    ensures Run(c, Queue("", s + ([sp] + u))) == Run(Went(c, Spaces(Version), s), Queue("", [sp] + u))
    decreases |s|
  {
    hide Run;
    var q := Queue("", s + ([sp] + u));
    RelativeOutcome(c, q);
    if s == "" {
      assert s + ([sp] + u) == [sp] + u && c.out + s == c.out;
    } else {
      assert q.Tail() == Queue("", s[1..] + ([sp] + u)) && q.Loud() == [s[0]];
      RelativeRun(Went(c, Relative, [s[0]]), s[1..], sp, u);
      assert c.out + [s[0]] + s[1..] == c.out + s;
    }
  }

  lemma NoSpaceMatched(format: string, s: string, sp: char, u: string)
    requires format in {"HTTP", "://"} && IsSpace(sp)
    ensures MatchEnd(format, s + ([sp] + u), 0) <= |s|
  {
    assert (s + ([sp] + u))[|s|] == sp;
  }

  lemma MissedTarget(c: Conf, t: Token, s: string, n: nat, w: string)
    requires t in {HttpText, SchemeText} && c.p == Word(t, 0) && n <= |s| && s[n..] + w != ""
    requires n == MatchEnd(Text(t), s + w, 0) < |Text(t)| && (s[n..] + w)[0] != NUL
    ensures Run(c, Queue("", s + w)) == Run(Went(c, Relative, s[..n]), Queue("", s[n..] + w))
  {
    hide Run, Queue.Drop, Queue.LoudTake, Text, Matched, MatchEnd;
    assert s + w == s[..n] + (s[n..] + w);
    DropFresh(s[..n], s[n..] + w);
    WordOutcome(c, t, Queue("", s + w));
  }

  /** A target that only begins like an absolute one. */
  lemma NotAbsolute(c: Conf, t: Token, s: string, sp: char, u: string)
    requires t in {HttpText, SchemeText} && c.p == Word(t, 0) && IsSpace(sp)
    requires NUL !in s && forall k :: 0 <= k < |s| ==> !IsSpace(s[k])
    requires MatchEnd(Text(t), s + ([sp] + u), 0) < |Text(t)|
    ensures Run(c, Queue("", s + ([sp] + u))) == Run(Went(c, Spaces(Version), s), Queue("", [sp] + u))
  {
    hide Run, MatchEnd;
    var n := MatchEnd(Text(t), s + ([sp] + u), 0);
    NoSpaceMatched(Text(t), s, sp, u);
    assert n < |s| ==> s[n] in s;
    MissedTarget(c, t, s, n, [sp] + u);
    RelativeRun(Went(c, Relative, s[..n]), s[n..], sp, u);
    assert c.out + s[..n] + s[n..] == c.out + s;
  }

  lemma TargetRun(c: Conf, s: string, sp: char, u: string)
    requires c.p == Word(HttpText, 0) && GoodTarget(s) && IsSpace(sp)
    ensures Run(c, Queue("", s + ([sp] + u))) == Run(Went(c, Spaces(Version), s), Queue("", [sp] + u))
  {
    hide Run;
    var v := s + ([sp] + u);
    if MatchEnd("HTTP", v, 0) < 4 {
      NotAbsolute(c, HttpText, s, sp, u);
    } else {
      NoSpaceMatched("HTTP", s, sp, u);
      var s' := s[4..];
      assert Same(s[..4], "HTTP") by {
        assert forall k :: 0 <= k < 4 ==> s[k] == v[k];
      }
      assert v == s[..4] + (s' + ([sp] + u));
      WholeWord(c, HttpText, s[..4], s' + ([sp] + u));
      SchemeMissing(s, sp, u);
      NotAbsolute(Went(c, Word(SchemeText, 0), s[..4]), SchemeText, s', sp, u);
      assert c.out + s[..4] + s' == c.out + s;
    }
  }

  lemma SchemeMissing(s: string, sp: char, u: string)
    requires GoodTarget(s) && IsSpace(sp) && 4 <= |s| && Same(s[..4], "HTTP")
    ensures MatchEnd("://", s[4..] + ([sp] + u), 0) < 3
  {
    var w := s[4..] + ([sp] + u);
    NoSpaceMatched("://", s[4..], sp, u);
    if MatchEnd("://", w, 0) == 3 {
      forall k | 0 <= k < 7 ensures Upper(s[..7][k]) == "HTTP://"[k] {
        if k < 4 {
          assert s[..7][k] == s[..4][k];
        } else {
          assert s[..7][k] == w[k - 4] && Upper(w[k - 4]) == Upper("://"[k - 4]);
        }
      }
      assert Same(s[..7], "HTTP://");
    }
  }

  /** HTTP/1.0 or HTTP/1.1 and the end of the line. */
  lemma VersionRun(c: Conf, proto: string, minor: char, u: string)
    requires c.p == Word(VersionText, 0) && Same(proto, "HTTP/1.") && (minor == '0' || minor == '1')
    ensures Run(c, Queue("", proto + ([minor] + ("\r\n" + u)))) ==
            Run(Conf(c.rec.(version := if minor == '0' then V10 else V11), LocalCheck,
                     c.out + (proto + ([minor] + "\r\n"))), Queue("", u))
  {
    hide Run, Same;
    WholeWord(c, VersionText, proto, [minor] + ("\r\n" + u));
    var d, q := Went(c, VersionDigit, proto), Queue("", [minor] + ("\r\n" + u));
    assert q.Tail() == Queue("", "\r\n" + u) && q.Loud() == [minor];
    VersionOutcome(d, q);
    var e := Conf(c.rec.(version := if minor == '0' then V10 else V11), Word(LineEnd, 0), c.out + proto + [minor]);
    assert Same("\r\n", Text(LineEnd)) by { SameLineEnd(); }
    WholeWord(e, LineEnd, "\r\n", u);
    assert e.out + "\r\n" == c.out + (proto + ([minor] + "\r\n"));
  }

  lemma SameLineEnd()
    ensures Same("\r\n", Text(LineEnd))
  {
  }

  /** Header text up to the first `host:`, with no empty line before it. */
  ghost predicate UpToHost(s: string) { s != "" && Searched(s[..|s| - 1]) && FoundHost(s) }

  /** The header that this proxy adds itself: the request came back. */
  ghost predicate LoopHeader(s: string) { 12 <= |s| && Same(s[..12], "X-LOCALHOST:") }

  /** What `checkLocalHost` adds to a request that did not come back. A first header that begins
      with X is passed on without it. */
  function Added(headers: string): string {
    if headers != "" && (headers[0] == 'X' || headers[0] == 'x') then "" else "X-LOCALHOST: TRUE\r\n"
  }

  /** Where the search for `host:` is inside a beginning of X-LOCALHOST. */
  lemma {:induction false} LocalPlaces(s: string)
    requires |s| < 12 && forall k :: 0 <= k < |s| ==> Upper(s[k]) == "X-LOCALHOST:"[k]
    ensures PlaceOf(s) == if |s| < 8 then Scanning else Word(Ost, |s| - 8)
    ensures Ends(s, "H") == (|s| == 8) && Ends(s, "HO") == (|s| == 9) && Ends(s, "HOS") == (|s| == 10)
    ensures Ends(s, "HOST") == (|s| == 11) && !Ends(s, "\r") && !Ends(s, "\r\n") && !Ends(s, "\r\n\r")
  {
    if s != "" {
      var u, b := s[..|s| - 1], s[|s| - 1];
      assert s == u + [b];
      LocalPlaces(u);
      hide Ends;
      EndsOneMore(u, b);
    }
  }

  /** Giving up on X-LOCALHOST and searching from the byte that differs misses nothing. */
  lemma GiveUp(c: Conf, n: nat, q: Queue)
    requires n < 12 && !q.Empty() && q.Head() != NUL && Upper(q.Head()) != "X-LOCALHOST:"[n]
    ensures Run(At(c, if n < 8 then Scanning else Word(Ost, n - 8)), q) == Run(At(c, Scanning), q)
  {
    hide Run, Scan;
    if n >= 8 {
      assert Text(Ost)[n - 8] == "X-LOCALHOST:"[n];
      StepAlike(At(c, Word(Ost, n - 8)), At(c, Scanning), q);
    }
  }

  lemma MissedLocal(c: Conf, s: string, n: nat, u: string)
    requires c.p == Word(XLocal, 0) && n < |s| && s[n] != NUL
    requires n == MatchEnd(Text(XLocal), s + u, 0) < |Text(XLocal)|
    ensures Run(c, Queue("", s + u)) == Run(Went(c, Scanning, s[..n]), Queue("", s[n..] + u))
  {
    hide Run, Queue.Drop, Queue.LoudTake, Text, MatchEnd;
    assert s + u == s[..n] + (s[n..] + u);
    DropFresh(s[..n], s[n..] + u);
    WordOutcome(c, XLocal, Queue("", s + u));
  }

  lemma NotLocal(c: Conf, s: string, n: nat, u: string)
    requires c.p == Word(XLocal, 0) && n < |s| && Searched(s[..n]) && s[n] != NUL
    requires n == MatchEnd(Text(XLocal), s + u, 0) < |Text(XLocal)|
    ensures Run(c, Queue("", s + u)) == Run(At(c, Scanning), Queue("", s + u))
  {
    hide Run, Searched, PlaceOf, MatchEnd;
    assert Text(XLocal) == "X-LOCALHOST:";
    MissedLocal(c, s, n, u);
    assert forall k :: 0 <= k < n ==> s[..n][k] == (s + u)[k];
    LocalPlaces(s[..n]);
    PlaceOfNothing();
    SearchRun(At(c, Scanning), s, n, u);
    GiveUp(Went(c, Scanning, s[..n]), n, Queue("", s[n..] + u));
  }

  lemma HeadersRun(c: Conf, s: string, u: string)
    requires c.p == LocalCheck && UpToHost(s) && !LoopHeader(s)
    ensures Run(c, Queue("", s + u)) == Run(Went(c, Spaces(Host), Added(s) + s), Queue("", u))
  {
    hide Run, Searched, FoundHost, FoundEnd;
    var q := Queue("", s + u);
    var front, b := s[..|s| - 1], s[|s| - 1];
    assert s == front + [b] && s + u == front + ([b] + u);
    LastIsColon(s);
    FirstOfSearched(s);
    LocalOutcome(c, q);
    if Upper(s[0]) == 'X' {
      LocalMiss(s, u);
      var n := MatchEnd(Text(XLocal), s + u, 0);
      SearchedPrefix(front, n);
      assert front[..n] == s[..n];
      NotLocal(At(c, Word(XLocal, 0)), s, n, u);
      HostSearch(At(c, Scanning), front, b, u);
      assert "" + s == s;
    } else {
      HostSearch(Went(c, Scanning, LOCAL_HEADER), front, b, u);
      assert c.out + LOCAL_HEADER + s == c.out + (LOCAL_HEADER + s);
    }
  }

  lemma LastIsColon(s: string)
    requires FoundHost(s)
    ensures s != "" && s[|s| - 1] == ':'
  {
    assert Upper(s[|s| - 5 + 4]) == "HOST:"[4];
  }

  lemma FirstOfSearched(s: string)
    requires UpToHost(s)
    ensures s[0] != NUL && forall k :: 0 <= k < |s| ==> s[k] != NUL
  {
    LastIsColon(s);
    forall k | 0 <= k < |s| ensures s[k] != NUL {
      if k < |s| - 1 { assert s[k] in s[..|s| - 1]; }
    }
  }

  lemma SearchedPrefix(s: string, n: nat)
    requires Searched(s) && n <= |s|
    ensures Searched(s[..n])
  {
    hide FoundHost, FoundEnd;
    forall k | 0 <= k <= n ensures !FoundHost(s[..n][..k]) && !FoundEnd(s[..n][..k]) {
      assert s[..n][..k] == s[..k];
    }
  }

  lemma LocalMiss(s: string, u: string)
    requires UpToHost(s) && !LoopHeader(s)
    ensures var n := MatchEnd(Text(XLocal), s + u, 0); n < |Text(XLocal)| && n < |s|
  {
    var t, n := "X-LOCALHOST:", MatchEnd(Text(XLocal), s + u, 0);
    assert Text(XLocal) == t;
    LastIsColon(s);
    forall k | 0 <= k < 12 && 12 <= |s| && n == 12 ensures Upper(s[..12][k]) == t[k] {
      assert s[..12][k] == (s + u)[k];
    }
    assert (s + u)[|s| - 1] == ':';
  }

  datatype Request = Request(
    m: HttpMethod, verb: string, gap1: string, target: string, gap2: string, proto: string, minor: char,
    headers: string, gap3: string, host: Authority)

  ghost predicate GoodRequest(r: Request) {
    && GoodLine(r) && UpToHost(r.headers) && !LoopHeader(r.headers)
    && AllSpaces(r.gap3) && GoodAuthority(r.host)
  }

  ghost predicate GoodLine(r: Request) {
    && GoodStart(r) && Same(r.proto, "HTTP/1.") && (r.minor == '0' || r.minor == '1')
  }

  function LineOf(r: Request): string {
    r.verb + (r.gap1 + (r.target + (r.gap2 + (r.proto + ([r.minor] + "\r\n")))))
  }

  /** The request line with single spaces. */
  function TidyLine(r: Request): string {
    r.verb + " " + r.target + " " + (r.proto + ([r.minor] + "\r\n"))
  }

  ghost function LineRec(r: Request): Rec {
    Rec(Ok, if r.minor == '0' then V10 else V11, r.m, 80, false, [])
  }

  ghost predicate GoodStart(r: Request) {
    IsVerb(r.verb, r.m) && AllSpaces(r.gap1) && GoodTarget(r.target) && AllSpaces(r.gap2) && r.gap2 != ""
  }

  function StartOf(r: Request): string { r.verb + (r.gap1 + (r.target + r.gap2)) }

  /** The request line up to the version. */
  lemma StartRun(r: Request, v: string)
    requires GoodStart(r) && v != "" && !IsSpace(v[0]) && v[0] != NUL
    ensures Whole(StartOf(r) + v) ==
            Run(Conf(FRESH.(verb := r.m), Word(VersionText, 0), r.verb + " " + r.target + " "), Queue("", v))
  {
    hide Run;
    var sp, gap := r.gap2[0], r.gap2[1..];
    var c := Conf(FRESH, Start, "");
    assert r.gap2 == [sp] + gap && AllSpaces(r.gap2);
    assert StartOf(r) + v == r.verb + (r.gap1 + (r.target + ([sp] + (gap + v))));
    VerbRun(c, r.verb, r.m, r.gap1 + (r.target + ([sp] + (gap + v))));
    c := Conf(FRESH.(verb := r.m), Spaces(Uri), "" + r.verb);
    assert r.target[0] in r.target && "" + r.verb == r.verb;
    GapRun(c, r.gap1, r.target + ([sp] + (gap + v)));
    c := Went(c, Word(HttpText, 0), " ");
    TargetRun(c, r.target, sp, gap + v);
    c := Went(c, Spaces(Version), r.target);
    assert [sp] + (gap + v) == r.gap2 + v;
    GapRun(c, r.gap2, v);
  }

  /** The request line. */
  lemma LineRun(r: Request, u: string)
    requires GoodLine(r)
    ensures Whole(LineOf(r) + u) == Run(Conf(LineRec(r), LocalCheck, TidyLine(r)), Queue("", u))
  {
    hide Run, Same, StartOf, GoodTarget, AllSpaces, Whole;
    var version := r.proto + ([r.minor] + ("\r\n" + u));
    LineParts(r, u);
    FirstOfVersion(r.proto, [r.minor] + ("\r\n" + u));
    StartRun(r, version);
    var c := Conf(FRESH.(verb := r.m), Word(VersionText, 0), r.verb + " " + r.target + " ");
    VersionRun(c, r.proto, r.minor, u);
  }

  lemma LineParts(r: Request, u: string)
    ensures LineOf(r) + u == StartOf(r) + (r.proto + ([r.minor] + ("\r\n" + u)))
    ensures r.verb + " " + r.target + " " + (r.proto + ([r.minor] + "\r\n")) == TidyLine(r)
  {
  }

  lemma FirstOfVersion(proto: string, u: string)
    requires Same(proto, "HTTP/1.")
    ensures var v := proto + u; v != "" && !IsSpace(v[0]) && v[0] != NUL
  {
    assert Upper(proto[|proto| - 7 + 0]) == "HTTP/1."[0];
  }

  ghost function RequestRec(r: Request): Rec
    requires GoodRequest(r)
  {
    var port := PortNumber(r.host, 80);
    LineRec(r).(port := port, calls := [Call(LowerAll(r.host.host), port)])
  }

  function RequestOut(r: Request): string {
    TidyLine(r) + (Added(r.headers) + r.headers) + " " + AuthorityText(r.host)
  }

  function RequestText(r: Request): string {
    LineOf(r) + (r.headers + (r.gap3 + AuthorityText(r.host)))
  }

  /** A request up to the value of its Host field. */
  ghost predicate UpToValue(r: Request) {
    GoodLine(r) && UpToHost(r.headers) && !LoopHeader(r.headers) && AllSpaces(r.gap3)
  }

  function BeforeValue(r: Request): string { LineOf(r) + (r.headers + r.gap3) }

  function BeforeValueOut(r: Request): string { TidyLine(r) + (Added(r.headers) + r.headers) + " " }

  lemma ValueStart(r: Request, v: string)
    requires UpToValue(r) && v != "" && !IsSpace(v[0]) && v[0] != NUL
    ensures Whole(BeforeValue(r) + v) == Run(Conf(LineRec(r), HostName(false, ""), BeforeValueOut(r)), Queue("", v))
  {
    hide Run, Whole, LineOf, TidyLine, Added, GoodLine, UpToHost, LoopHeader, AllSpaces;
    assert BeforeValue(r) + v == LineOf(r) + (r.headers + (r.gap3 + v));
    LineRun(r, r.headers + (r.gap3 + v));
    var c := Conf(LineRec(r), LocalCheck, TidyLine(r));
    HeadersRun(c, r.headers, r.gap3 + v);
    c := Went(c, Spaces(Host), Added(r.headers) + r.headers);
    GapRun(c, r.gap3, v);
  }

  /** The callback gets the host in lower case and the port, once; the output is the request line
      with single spaces, the header of the proxy, and the headers through the host. The byte
      after the host, and what follows, is not consumed. */
  lemma WholeRequest(r: Request, b: char, u: string)
    requires GoodRequest(r) && Follows(false, b)
    ensures Whole(RequestText(r) + ([b] + u)) ==
            Outcome(Conf(RequestRec(r), Done, RequestOut(r)), Queue("", [b] + u))
  {
    hide Run, Value, Whole, LineOf, TidyLine, AuthorityText, LowerAll, Added, GoodLine, UpToHost, LoopHeader, AllSpaces;
    var v := AuthorityText(r.host) + ([b] + u);
    assert RequestText(r) + ([b] + u) == BeforeValue(r) + v;
    FirstOfHost(r.host, [b] + u);
    ValueStart(r, v);
    AuthorityRun(Conf(LineRec(r), HostName(false, ""), BeforeValueOut(r)), false, r.host, b, u);
    assert [] + [Call(LowerAll(r.host.host), PortNumber(r.host, 80))] == RequestRec(r).calls;
  }

  lemma FirstOfHost(a: Authority, u: string)
    requires GoodAuthority(a)
    ensures var v := AuthorityText(a) + u; v != "" && !IsSpace(v[0]) && v[0] != NUL
  {
    assert (AuthorityText(a) + u)[0] == a.host[0] && IsHostChar(Lower(a.host[0]));
  }

  /** A request that came back is recognised by the header that this proxy adds. */
  lemma WholeLoop(r: Request, own: string, u: string)
    requires GoodLine(r) && Same(own, "X-LOCALHOST:")
    ensures Whole(LineOf(r) + (own + u)) ==
            Outcome(Conf(LineRec(r).(isLocalHost := true, calls := [Call("", 80)]), Done,
                         TidyLine(r) + own), Queue("", u))
  {
    hide Run, Whole, LineOf, TidyLine, GoodLine;
    LineRun(r, own + u);
    var c, q := Conf(LineRec(r), LocalCheck, TidyLine(r)), Queue("", own + u);
    assert Upper(own[|own| - 12 + 0]) == "X-LOCALHOST:"[0];
    LocalOutcome(c, q);
    WholeWord(At(c, Word(XLocal, 0)), XLocal, own, u);
    assert [] + [Call("", 80)] == [Call("", 80)];
    RunTerminal(Conf(Matched(c.rec, XLocal).0, Done, c.out + own), Queue("", u));
  }

  /** A Host field without a host: the run stops in front of the byte that is no host character. */
  lemma WholeNoHost(r: Request, v: string)
    requires UpToValue(r) && v != "" && !IsSpace(v[0]) && v[0] != NUL && !HostByte(v[0])
    ensures Whole(BeforeValue(r) + v) == Outcome(Conf(LineRec(r), NoHost, BeforeValueOut(r)), Queue("", v))
  {
    hide Run, Whole, BeforeValue, BeforeValueOut, UpToValue;
    ValueStart(r, v);
    HostBytes();
    HostOutcome(Conf(LineRec(r), HostName(false, ""), BeforeValueOut(r)), Queue("", v));
  }

  /** One call on a whole request whose Host field has no host: the source does not return exactly for
      the values that `SpinsOn` describes. */
  method ParseNoHost(text: string, ghost r: Request, ghost v: string) returns (spins: bool)
    requires UpToValue(r) && v != "" && !IsSpace(v[0]) && v[0] != NUL && !HostByte(v[0])
    requires text == BeforeValue(r) + v
    ensures spins == SpinsOn(v)
  {
    hide Buffer.Shape, Run, BeforeValue, UpToValue, BeforeValueOut, SpinsOn;
    WholeNoHost(r, v);
    var rd := new RequestData();
    var bIn := Allocate(RESERVE, RESERVE + |text|);
    var bOut := Allocate(0, 0);
    bIn.NothingFresh();
    bIn.Fill(text);
    assert "" + text == text && "" + v == v;
    var _, spinning := CheckRequestInner(rd, bIn, bOut, "");
    spins := spinning;
  }

  /** The shortest such value: in front of a slash the source tries for ever. */
  method StuckAtSlash() returns (spins: bool)
    ensures spins
  {
    hide Buffer.Shape, Run;
    var rd := new RequestData();
    rd.parserState := Host;
    var bIn := Allocate(RESERVE, RESERVE + 1);
    var bOut := Allocate(0, 0);
    bIn.NothingFresh();
    bIn.Fill("/");
    assert "" + "/" == "/" && PortsEnd("/", 0) == 0;
    var _, spinning := CheckRequestInner(rd, bIn, bOut, "");
    spins := spinning;
  }

  /** An empty value, ports without a host, and any value that begins with a host do return. */
  lemma Returns(v: string)
    ensures v == "" || v[0] == '\r' || IsHostChar(Lower(v[0])) ==> !SpinsOn(v)
    ensures (forall k :: 0 <= k < |v| ==> v[k] == ':' || IsDigit(10, v[k])) ==> !SpinsOn(v)
  {
    if forall k :: 0 <= k < |v| ==> v[k] == ':' || IsDigit(10, v[k]) {
      PortsEndFrom(v, 0, |v|);
    }
  }

  /** The theorem over any fragments. */
  method FeedRequest(fragments: seq<string>, ghost r: Request, ghost b: char, ghost u: string)
    returns (rec: Rec, state: RequestParserState, out: string, left: string)
    requires GoodRequest(r) && Follows(false, b)
    requires Flatten(fragments) == RequestText(r) + ([b] + u)
    ensures state == Finished && rec == RequestRec(r) && out == RequestOut(r) && left == [b] + u
    ensures rec.calls == [Call(LowerAll(r.host.host), PortNumber(r.host, 80))]
  {
    hide Run, Whole, RequestText, RequestOut, GoodRequest;
    WholeRequest(r, b, u);
    rec, state, out, left := Feed(fragments);
    assert "" + ([b] + u) == [b] + u;
  }
}
