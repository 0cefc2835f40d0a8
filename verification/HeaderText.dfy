/** What `checkHeaders` makes of one header line, as text. The search for names reads on from where it
    stopped and never goes back, so it finds names anywhere in a line and can also pass over one. */
module HeaderText {
  import opened Bytes
  import opened Numbers
  import opened ParserUtils
  import opened ResponseMachine

  /** The last words of the header names that the parser acts on. */
  predicate IsKey(t: Token) { t in {Nection, Ength, Ncoding, Ype, Ransfer} }

  function Name(t: Token): string { Before(t) + Text(t) }

  /** Text without CR and NUL. */
  ghost predicate OneLine(s: string) { '\r' !in s && NUL !in s }

  /** What the search does from a byte at which it looks afresh: it passes over some bytes, or finds a
      name, or it passes over all bytes and will pass over the CR that ends the line, too. */
  datatype Glance = Passed(n: nat) | Named(t: Token, n: nat) | HidesEnd

  function Rest(t: Token, s: string, i: nat): (g: Glance)
    requires i <= |s|
    ensures !g.HidesEnd? && i <= g.n <= |s|
  {
    var n := MatchEnd(Text(t), s[i..], 0);
    if n == |Text(t)| then Named(t, i + n) else Passed(i + n)
  }

  function Look(s: string): (g: Glance)
    requires s != ""
    ensures !g.HidesEnd? ==> 0 < g.n <= |s|
    ensures g.Named? ==> IsKey(g.t)
  {
    if Upper(s[0]) == 'T' then Rest(Ransfer, s, 1)
    else if Upper(s[0]) != 'C' then Passed(1)
    else
      var o := MatchEnd("ON", s[1..], 0);
      if o < 2 then Passed(1 + o)
      else
        var e := MatchEnd("TENT-", s[3..], 0);
        if e < 5 then Rest(Nection, s, 3 + e)
        else if |s| == 8 then HidesEnd
        else LookAfterDash(s)
  }

  /** The byte after CONTENT- is only compared, never looked at afresh. */
  function LookAfterDash(s: string): (g: Glance)
    requires 8 < |s|
    ensures !g.HidesEnd? && 0 < g.n <= |s| && (g.Named? ==> IsKey(g.t))
  {
    var b := Upper(s[8]);
    if b == 'L' then Rest(Ength, s, 9)
    else if b == 'E' then Rest(Ncoding, s, 9)
    else if b == 'T' then Rest(Ype, s, 9)
    else Passed(9)
  }

  /** How many bytes of a value are read as such; the rest is searched again. */
  function ValueLength(t: Token, v: string): (k: nat)
    ensures k <= |v|
  {
    match t
    case Nection => |v|
    case Ength => DigitsEnd(10, v, 0)
    case Ncoding => MatchEnd(Text(GzipText), v, 0)
    case Ransfer => MatchEnd(Text(ChunkedText), v, 0)
    case _ => 0
  }

  function ValueText(t: Token, value: string): string {
    if t == Nection then "close" else value
  }

  /** How a header field changes the record. */
  function Effect(rec: Rec, t: Token, value: string): Rec {
    match t
    case Nection => rec.(isClose := true)
    case Ength =>
      var n := DigitsEnd(10, value, 0);
      if n > 0 then rec.(bodyLength := Value(10, value, n)) else rec
    case Ncoding => if MatchEnd(Text(GzipText), value, 0) == |Text(GzipText)| then rec.(cEncoding := Gzip) else rec
    case Ransfer =>
      if MatchEnd(Text(ChunkedText), value, 0) == |Text(ChunkedText)| then rec.(isChunked := true) else rec
    case _ => rec
  }

  /** One look, with the value if there is one: how many bytes it takes, what comes out. */
  datatype Bit = Bit(used: nat, out: string, key: Option<Token>, value: string)

  function First(s: string): (b: Bit)
    requires s != ""
    ensures 0 < b.used <= |s|
  {
    match Look(s)
    case HidesEnd => Bit(|s|, s, None, "")
    case Passed(n) => Bit(n, s[..n], None, "")
    case Named(t, n) =>
      var v := s[SpacesEnd(s, n)..];
      var k := ValueLength(t, v);
      Bit(SpacesEnd(s, n) + k, s[..n] + (" " + ValueText(t, v[..k])), Some(t), v)
  }

  /** What comes out for a line. */
  function Rewrite(s: string): string
    decreases |s|
  {
    if s == "" then "" else First(s).out + Rewrite(s[First(s).used..])
  }

  function BitEffect(rec: Rec, b: Bit): Rec {
    if b.key.Some? then Effect(rec, b.key.value, b.value) else rec
  }

  /** What a line means to the record. */
  function LineEffect(rec: Rec, s: string): Rec
    decreases |s|
  {
    if s == "" then rec else LineEffect(BitEffect(rec, First(s)), s[First(s).used..])
  }

  /** The CR after the line is seen. */
  predicate EndsWell(s: string)
    decreases |s|
  {
    s == "" || (Look(s) != HidesEnd && EndsWell(s[First(s).used..]))
  }

  predicate BitFits(b: Bit) {
    b.key == Some(Ength) ==> Value(10, b.value, DigitsEnd(10, b.value, 0)) < INT_LIMIT
  }

  /** Every Content-Length in the line is a C int. */
  predicate InRange(s: string)
    decreases |s|
  {
    s == "" || (BitFits(First(s)) && InRange(s[First(s).used..]))
  }

  /** The field `t` is found in the line. */
  predicate Finds(s: string, t: Token)
    decreases |s|
  {
    s != "" && (First(s).key == Some(t) || Finds(s[First(s).used..], t))
  }

  /** A Transfer-Encoding that begins with `chunked` is found in the line. */
  predicate FindsChunked(s: string)
    decreases |s|
  {
    s != "" && ((First(s).key == Some(Ransfer) && MatchEnd("CHUNKED", First(s).value, 0) == 7)
                || FindsChunked(s[First(s).used..]))
  }

  /** The flags after a line. */
  lemma {:induction false} FlagsOfLine(rec: Rec, s: string)
    ensures var r := LineEffect(rec, s);
            && r.isClose == (rec.isClose || Finds(s, Nection))
            && r.isChunked == (rec.isChunked || FindsChunked(s))
            && r.withTransf == rec.withTransf && r.state == rec.state && r.status == rec.status && r.version == rec.version
    decreases |s|
  {
    hide First, MatchEnd, Value;
    if s != "" {
      FlagsOfLine(BitEffect(rec, First(s)), s[First(s).used..]);
    }
  }

  /** From the start of `s` the search passes over `k` bytes and looks afresh at the next. */
  predicate Passes(s: string, k: nat)
    decreases |s|
  {
    k == 0 || (s != "" && Look(s).Passed? && Look(s).n <= k && Passes(s[Look(s).n..], k - Look(s).n))
  }

  lemma OneLook(rec: Rec, s: string)
    requires s != "" && Look(s).Passed?
    ensures var n := Look(s).n;
            && Rewrite(s) == s[..n] + Rewrite(s[n..]) && LineEffect(rec, s) == LineEffect(rec, s[n..])
            && EndsWell(s) == EndsWell(s[n..]) && InRange(s) == InRange(s[n..])
            && forall t :: Finds(s, t) == Finds(s[n..], t)
  {
    hide Look, ValueLength, SpacesEnd, ValueText;
  }

  /** What it passes over comes out as it is, and the rest is a line of its own. */
  lemma {:induction false} PassedOver(rec: Rec, s: string, k: nat)
    requires Passes(s, k) && k <= |s|
    ensures Rewrite(s) == s[..k] + Rewrite(s[k..]) && LineEffect(rec, s) == LineEffect(rec, s[k..])
    ensures EndsWell(s) == EndsWell(s[k..]) && InRange(s) == InRange(s[k..])
    ensures forall t :: Finds(s, t) == Finds(s[k..], t)
    decreases |s|
  {
    hide Look, Rewrite, LineEffect, EndsWell, InRange, Finds;
    if k == 0 {
      assert s[0..] == s && s[..0] + Rewrite(s) == Rewrite(s);
    } else {
      var n := Look(s).n;
      OneLook(rec, s);
      PassedOver(rec, s[n..], k - n);
      assert s[n..][k - n..] == s[k..] && s[..n] + s[n..][..k - n] == s[..k];
      AppendAppend(s[..n], s[n..][..k - n], Rewrite(s[k..]));
    }
  }

  /** The line ends in a CONTENT- whose C the search looks at. */
  predicate EndsInDash(s: string) { 8 <= |s| && Passes(s, |s| - 8) && Look(s[|s| - 8..]) == HidesEnd }

  lemma EndsInDashLater(s: string)
    requires s != "" && Look(s).Passed?
    ensures EndsInDash(s) == EndsInDash(s[Look(s).n..])
  {
    hide Look;
    var n := Look(s).n;
    if n + 8 <= |s| {
      assert s[n..][|s| - n - 8..] == s[|s| - 8..];
    } else {
      assert s[0..] == s;
    }
  }

  /** A line in which the search finds no name comes out as it is and means nothing, and its end is
      missed exactly if it ends in such a CONTENT-. */
  lemma {:induction false} NothingFound(rec: Rec, s: string)
    requires forall t :: !Finds(s, t)
    ensures Rewrite(s) == s && LineEffect(rec, s) == rec && InRange(s) && EndsWell(s) == !EndsInDash(s)
    decreases |s|
  {
    if s == "" {
      NothingLeft(rec);
      assert !EndsInDash(s);
    } else {
      hide Look, Rewrite, LineEffect, EndsWell, InRange, Finds, EndsInDash;
      NotNamed(s);
      if Look(s).HidesEnd? {
        DashLine(s);
        HidingLine(rec, s);
      } else {
        var n := Look(s).n;
        OneLook(rec, s);
        EndsInDashLater(s);
        NothingFound(rec, s[n..]);
        assert s[..n] + s[n..] == s;
      }
    }
  }

  lemma DashLine(s: string)
    requires s != "" && Look(s).HidesEnd? && |s| == 8
    ensures EndsInDash(s)
  {
    hide Look;
    assert s[0..] == s;
  }

  lemma NotNamed(s: string)
    requires s != "" && forall t :: !Finds(s, t)
    ensures !Look(s).Named? && (Look(s).HidesEnd? ==> |s| == 8)
  {
    hide Rest, LookAfterDash, ValueLength, ValueText, SpacesEnd;
    assert Look(s).Named? ==> Finds(s, Look(s).t);
  }

  /** The text whose appearance makes the parser act. For Connection this is less than the name. */
  function Signal(t: Token): string { if t == Nection then Text(t) else Name(t) }

  lemma RestFacts(t: Token, s: string, i: nat)
    requires i <= |s|
    ensures var g := Rest(t, s, i);
            && (g.Named? ==> g.n == i + |Text(t)| && Ends(s[..g.n], Text(t)))
            && (g.Passed? ==> g.n < i + |Text(t)|)
  {
    var n := MatchEnd(Text(t), s[i..], 0);
    var u := s[..i + n];
    forall k | 0 <= k < n && n == |Text(t)| ensures Upper(u[|u| - |Text(t)| + k]) == Text(t)[k] {
      assert u[i + k] == s[i..][k];
    }
  }

  /** A name is only acted upon where its signal stands. */
  lemma NamedEnds(s: string)
    requires s != "" && Look(s).Named?
    ensures Ends(s[..Look(s).n], Signal(Look(s).t))
  {
    hide Text, Ends;
    if Upper(s[0]) == 'T' {
      RestFacts(Ransfer, s, 1);
      hide Rest;
      assert Before(Ransfer) == "T";
      EndsMore(s[..Look(s).n], "T", Text(Ransfer));
    } else if Look(s).t == Nection {
      NectionEnds(s);
    } else {
      DashReads(s);
      RestFacts(Look(s).t, s, 9);
      hide Look;
      var g := Look(s);
      assert forall k :: 0 <= k < 9 ==> s[..g.n][k] == s[k];
      EndsMore(s[..g.n], Before(g.t), Text(g.t));
    }
  }

  lemma NectionEnds(s: string)
    requires s != "" && Look(s).Named? && Look(s).t == Nection
    ensures Ends(s[..Look(s).n], Text(Nection))
  {
    hide Text, Ends;
    RestFacts(Nection, s, 3 + MatchEnd("TENT-", s[3..], 0));
  }

  lemma EndsMore(s: string, front: string, w: string)
    requires |front| + |w| == |s| && Ends(s, w) && forall k :: 0 <= k < |front| ==> Upper(s[k]) == front[k]
    ensures Ends(s, front + w)
  {
    forall k | 0 <= k < |front + w| ensures Upper(s[|s| - |front + w| + k]) == (front + w)[k] {
      if k >= |front| {
        assert Upper(s[|s| - |w| + (k - |front|)]) == w[k - |front|];
      }
    }
  }

  lemma DashReads(s: string)
    requires s != "" && Upper(s[0]) == 'C' && Look(s).Named? && Look(s).t != Nection
    ensures Look(s) == Rest(Look(s).t, s, 9) && |Before(Look(s).t)| == 9
    ensures 8 < |s| && forall k :: 0 <= k < 9 ==> Upper(s[k]) == Before(Look(s).t)[k]
  {
    hide Text;
    assert MatchEnd("ON", s[1..], 0) == 2 && MatchEnd("TENT-", s[3..], 0) == 5;
    assert forall k :: 0 <= k < 2 ==> Upper(s[1..][k]) == Upper("ON"[k]) && s[1..][k] == s[1 + k];
    assert forall k :: 0 <= k < 5 ==> Upper(s[3..][k]) == Upper("TENT-"[k]) && s[3..][k] == s[3 + k];
  }

  /** Text in which no name of interest is followed by a colon. */
  ghost predicate Quiet(s: string) {
    forall k, t | 0 <= k <= |s| && IsKey(t) :: !Ends(s[..k], Signal(t))
  }

  lemma EndsOfSuffix(s: string, n: nat, w: string)
    requires n <= |s|
    ensures Ends(s[n..], w) ==> Ends(s, w)
  {
    if Ends(s[n..], w) {
      forall k | 0 <= k < |w| ensures Upper(s[|s| - |w| + k]) == w[k] {
        assert s[|s| - |w| + k] == s[n..][|s[n..]| - |w| + k];
      }
    }
  }

  lemma QuietSuffix(s: string, n: nat)
    requires Quiet(s) && n <= |s|
    ensures Quiet(s[n..])
  {
    hide Signal, Ends;
    var u := s[n..];
    forall k, t | 0 <= k <= |u| && IsKey(t) ensures !Ends(u[..k], Signal(t)) {
      EndsOfSuffix(s[..n + k], n, Signal(t));
      assert s[..n + k][n..] == u[..k];
    }
  }

  lemma HidingEnds(s: string)
    requires s != "" && Look(s) == HidesEnd
    ensures Ends(s, "CONTENT-")
  {
    assert MatchEnd("ON", s[1..], 0) == 2 && MatchEnd("TENT-", s[3..], 0) == 5;
    forall k | 0 <= k < 8 ensures Upper(s[|s| - 8 + k]) == "CONTENT-"[k] {
      if 1 <= k < 3 {
        assert s[k] == s[1..][k - 1] && Upper(s[1..][k - 1]) == Upper("ON"[k - 1]);
      } else if 3 <= k {
        assert s[k] == s[3..][k - 3] && Upper(s[3..][k - 3]) == Upper("TENT-"[k - 3]);
      }
    }
  }

  /** A line that ends in a CONTENT- at which the search looked afresh. */
  lemma HidingLine(rec: Rec, s: string)
    requires s != "" && Look(s) == HidesEnd
    ensures Rewrite(s) == s && LineEffect(rec, s) == rec && InRange(s) && !EndsWell(s) && forall t :: !Finds(s, t)
  {
    hide Look;
    assert s[|s|..] == "" && s + "" == s;
  }

  /** Quiet text comes out as it is and means nothing, and only CONTENT- at its end can hide the CR. */
  lemma {:induction false} QuietLine(rec: Rec, s: string)
    requires Quiet(s)
    ensures Rewrite(s) == s && LineEffect(rec, s) == rec && InRange(s) && forall t :: !Finds(s, t)
    ensures EndsWell(s) || Ends(s, "CONTENT-")
    decreases |s|
  {
    if s != "" {
      hide Quiet, Ends, Look, Rewrite, LineEffect, InRange, Finds, EndsWell, Signal;
      match Look(s) {
        case HidesEnd =>
          HidingEnds(s);
          HidingLine(rec, s);
        case Named(t, n) =>
          NamedEnds(s);
          QuietAt(s, n);
        case Passed(n) =>
          OneLook(rec, s);
          QuietSuffix(s, n);
          QuietLine(rec, s[n..]);
          EndsOfSuffix(s, n, "CONTENT-");
          assert s[..n] + s[n..] == s;
      }
    }
  }

  lemma QuietAt(s: string, n: nat)
    requires Quiet(s) && n <= |s|
    ensures forall t | IsKey(t) :: !Ends(s[..n], Signal(t))
  {
  }

  lemma {:induction false} MatchFull(format: string, s: string, i: nat)
    requires i <= |format| <= |s| && forall k :: i <= k < |format| ==> Upper(s[k]) == Upper(format[k])
    ensures MatchEnd(format, s, i) == |format|
    decreases |format| - i
  {
    if i < |format| {
      MatchFull(format, s, i + 1);
    }
  }

  /** The name of a field, in any case, is found where the search looks afresh. */
  lemma NameLook(t: Token, name: string, rest: string)
    requires IsKey(t) && Same(name, Name(t))
    ensures Look(name + rest) == Named(t, |name|) && name != ""
  {
    var s := name + rest;
    forall k | 0 <= k < |Name(t)| ensures Upper(s[k]) == Name(t)[k] {
      assert s[k] == name[k] && Upper(name[|name| - |Name(t)| + k]) == Name(t)[k];
    }
    hide Same, Ends, Look;
    if t == Ransfer {
      LookRansfer(s);
    } else if t == Nection {
      LookNection(s);
    } else {
      LookContent(s, t);
    }
  }

  ghost predicate Begins(s: string, w: string) { |w| <= |s| && forall k :: 0 <= k < |w| ==> Upper(s[k]) == w[k] }

  lemma LookRansfer(s: string)
    requires Begins(s, Name(Ransfer))
    ensures Look(s) == Named(Ransfer, |Name(Ransfer)|)
  {
    NameParts(Ransfer, s, 1);
    LastWord(Ransfer, s, 1);
  }

  lemma LookNection(s: string)
    requires Begins(s, Name(Nection))
    ensures Look(s) == Named(Nection, |Name(Nection)|)
  {
    NameParts(Nection, s, 3);
    LastWord(Nection, s, 3);
    assert Name(Nection) == "CONNECTION:";
    hide Rest;
    OnReads(s);
    assert MatchEnd("TENT-", s[3..], 0) == 0 by { assert s[3..][0] == s[3]; }
  }

  lemma LookContent(s: string, t: Token)
    requires t in {Ength, Ncoding, Ype} && Begins(s, Name(t))
    ensures Look(s) == Named(t, |Name(t)|)
  {
    ContentReads(s, t);
    NameParts(t, s, 9);
    hide Name, Text, Before, Begins;
    LastWord(t, s, 9);
    hide Rest;
    OnReads(s);
    TentReads(s);
  }

  lemma ContentReads(s: string, t: Token)
    requires t in {Ength, Ncoding, Ype} && Begins(s, Name(t))
    ensures 9 <= |s| && Upper(s[0]) == 'C' && Upper(s[1]) == 'O' && Upper(s[2]) == 'N'
    ensures Upper(s[3]) == 'T' && Upper(s[4]) == 'E' && Upper(s[5]) == 'N' && Upper(s[6]) == 'T' && s[7] == '-'
    ensures Upper(s[8]) == (if t == Ength then 'L' else if t == Ncoding then 'E' else 'T') && |Before(t)| == 9
  {
    var n := Name(t);
    assert n[..9] == Before(t);
    assert n[0] == 'C' && n[1] == 'O' && n[2] == 'N' && n[3] == 'T' && n[4] == 'E' && n[5] == 'N' && n[6] == 'T' && n[7] == '-';
  }

  lemma NameParts(t: Token, s: string, i: nat)
    requires Begins(s, Name(t)) && i == |Before(t)|
    ensures i + |Text(t)| == |Name(t)| <= |s| && forall k :: 0 <= k < |Text(t)| ==> Upper(s[i + k]) == Text(t)[k]
  {
    hide Text, Before;
    assert forall k :: 0 <= k < |Text(t)| ==> Name(t)[i + k] == Text(t)[k];
  }

  lemma OnReads(s: string)
    requires 3 <= |s| && Upper(s[1]) == 'O' && Upper(s[2]) == 'N'
    ensures MatchEnd("ON", s[1..], 0) == 2
  {
    assert s[1..][0] == s[1] && s[1..][1] == s[2];
    MatchFull("ON", s[1..], 0);
  }

  lemma TentReads(s: string)
    requires 8 <= |s| && Upper(s[3]) == 'T' && Upper(s[4]) == 'E' && Upper(s[5]) == 'N' && Upper(s[6]) == 'T' && s[7] == '-'
    ensures MatchEnd("TENT-", s[3..], 0) == 5
  {
    assert s[3..][0] == s[3] && s[3..][1] == s[4] && s[3..][2] == s[5] && s[3..][3] == s[6] && s[3..][4] == s[7];
    MatchFull("TENT-", s[3..], 0);
  }

  lemma LastWord(t: Token, s: string, i: nat)
    requires i + |Text(t)| <= |s| && forall k :: 0 <= k < |Text(t)| ==> Upper(s[i + k]) == Text(t)[k]
    ensures Rest(t, s, i) == Named(t, i + |Text(t)|)
  {
    hide Text;
    forall k | 0 <= k < |Text(t)| ensures Upper(s[i..][k]) == Upper(Text(t)[k]) {
      assert s[i..][k] == s[i + k] && Upper(Text(t)[k]) == Text(t)[k];
    }
    MatchFull(Text(t), s[i..], 0);
  }

  datatype Field = Field(key: Token, name: string, gap: string, value: string)

  ghost predicate GoodField(f: Field) {
    && IsKey(f.key) && Same(f.name, Name(f.key)) && (forall k :: 0 <= k < |f.gap| ==> IsSpace(f.gap[k]))
    && (f.value != "" ==> !IsSpace(f.value[0]))
    && (f.key != Nection ==> Quiet(f.value))
    && (f.key == Ength ==> Value(10, f.value, DigitsEnd(10, f.value, 0)) < INT_LIMIT)
  }

  function FieldText(f: Field): string { f.name + (f.gap + f.value) }

  function RewriteField(f: Field): string { f.name + (" " + ValueText(f.key, f.value)) }

  lemma {:induction false} SpacesEndIs(s: string, i: nat, n: nat)
    requires i <= n <= |s| && (forall k :: i <= k < n ==> IsSpace(s[k])) && (n < |s| ==> !IsSpace(s[n]))
    ensures SpacesEnd(s, i) == n
    decreases n - i
  {
    if i < n {
      SpacesEndIs(s, i + 1, n);
    }
  }

  lemma FieldFirst(f: Field)
    requires GoodField(f)
    ensures FieldText(f) != "" && Look(FieldText(f)) == Named(f.key, |f.name|)
    ensures var k := ValueLength(f.key, f.value);
            First(FieldText(f)) ==
            Bit(|f.name| + |f.gap| + k, f.name + (" " + ValueText(f.key, f.value[..k])), Some(f.key), f.value)
  {
    hide Look, Same, Quiet, Value, ValueLength, ValueText, Name, IsKey, SpacesEnd;
    NameLook(f.key, f.name, f.gap + f.value);
    GapEnds(f);
  }

  lemma GapEnds(f: Field)
    requires (forall k :: 0 <= k < |f.gap| ==> IsSpace(f.gap[k])) && (f.value != "" ==> !IsSpace(f.value[0]))
    ensures var s := FieldText(f); var m := |f.name| + |f.gap|;
            SpacesEnd(s, |f.name|) == m && s[m..] == f.value && s[..|f.name|] == f.name
  {
    var s, m := FieldText(f), |f.name| + |f.gap|;
    assert forall k :: |f.name| <= k < m ==> s[k] == f.gap[k - |f.name|];
    assert m < |s| ==> s[m] == f.value[0];
    SpacesEndIs(s, |f.name|, m);
  }

  /** A field whose value holds nothing else of interest: one space after the name, `close` for
      Connection, and the effect of its value. */
  lemma FieldLine(rec: Rec, f: Field)
    requires GoodField(f)
    ensures var s := FieldText(f);
            && Rewrite(s) == RewriteField(f) && LineEffect(rec, s) == Effect(rec, f.key, f.value) && InRange(s)
            && (EndsWell(s) || (f.key != Nection && Ends(f.value, "CONTENT-")))
            && forall t :: Finds(s, t) == (t == f.key)
  {
    hide Look, Effect, ValueLength, Quiet, Ends, Same, Value, Rewrite, LineEffect, InRange, EndsWell, Finds, First;
    var s, k := FieldText(f), ValueLength(f.key, f.value);
    FieldFirst(f);
    var rest := f.value[k..];
    assert s[First(s).used..] == rest;
    FirstThen(rec, s);
    if f.key == Nection {
      ConnectionText(f);
      NothingLeft(Effect(rec, f.key, f.value));
    } else {
      QuietSuffix(f.value, k);
      QuietLine(Effect(rec, f.key, f.value), rest);
      EndsOfSuffix(f.value, k, "CONTENT-");
      assert f.name + (" " + f.value[..k]) + rest == f.name + (" " + (f.value[..k] + rest));
      assert f.value[..k] + rest == f.value;
    }
  }

  lemma ConnectionText(f: Field)
    requires f.key == Nection
    ensures ValueLength(f.key, f.value) == |f.value| && f.name + (" " + "close") + "" == RewriteField(f)
    ensures f.value[|f.value|..] == "" && ValueText(Nection, f.value) == "close"
  {
  }

  lemma NothingLeft(rec: Rec)
    ensures Rewrite("") == "" && LineEffect(rec, "") == rec && InRange("") && EndsWell("") && forall t :: !Finds("", t)
  {
  }

  lemma FirstThen(rec: Rec, s: string)
    requires s != ""
    ensures var b := First(s); var u := s[b.used..];
            && Rewrite(s) == b.out + Rewrite(u) && LineEffect(rec, s) == LineEffect(BitEffect(rec, b), u)
            && InRange(s) == (BitFits(b) && InRange(u)) && (EndsWell(s) == (Look(s) != HidesEnd && EndsWell(u)))
            && forall t :: Finds(s, t) == (b.key == Some(t) || Finds(u, t))
  {
    hide First, Look;
  }

  /** The parser takes a name for a field wherever the search looks, not only at the start of a line. */
  lemma NameInsideLine(rec: Rec, before: string, f: Field)
    requires GoodField(f) && Passes(before + FieldText(f), |before|)
    ensures var s := before + FieldText(f);
            && Rewrite(s) == before + RewriteField(f) && LineEffect(rec, s) == Effect(rec, f.key, f.value)
            && Finds(s, f.key) && InRange(s) && EndsWell(s) == EndsWell(FieldText(f))
  {
    hide Rewrite, LineEffect, InRange, EndsWell, Finds, Effect, GoodField, FieldText;
    var s := before + FieldText(f);
    PassedOver(rec, s, |before|);
    FieldLine(rec, f);
    assert s[..|before|] == before && s[|before|..] == FieldText(f);
  }

  /** The bytes that occur in header names, in upper case. */
  predicate WordByte(b: char) { Upper(b) in "CONTE-LGH:DIYPRASF" }

  lemma WordBytes(t: Token)
    requires IsKey(t) || t == On || t == Tent
    ensures forall k :: 0 <= k < |Text(t)| ==> WordByte(Text(t)[k])
  {
  }

  lemma MatchedBytes(format: string, s: string, i: nat, n: nat)
    requires i <= |s| && n == MatchEnd(format, s[i..], 0) && forall k :: 0 <= k < |format| ==> WordByte(format[k])
    ensures forall j :: i <= j < i + n ==> WordByte(s[j])
  {
    forall j | i <= j < i + n ensures WordByte(s[j]) {
      assert s[j] == s[i..][j - i] && Upper(s[j]) == Upper(format[j - i]);
    }
  }

  /** A look takes only bytes of names, but for its last byte. */
  lemma LookBytes(s: string)
    requires s != ""
    ensures Look(s).HidesEnd? ==> forall j :: 0 <= j < |s| ==> WordByte(s[j])
    ensures Look(s).Named? ==> forall j :: 0 <= j < Look(s).n ==> WordByte(s[j])
    ensures Look(s).Passed? ==> forall j :: 0 <= j < Look(s).n - 1 ==> WordByte(s[j])
  {
    hide Text;
    if Upper(s[0]) == 'T' {
      RestBytes(Ransfer, s, 1);
    } else if Upper(s[0]) == 'C' {
      LookBytesC(s);
    }
  }

  lemma LookBytesC(s: string)
    requires s != "" && Upper(s[0]) == 'C'
    ensures Look(s).HidesEnd? ==> forall j :: 0 <= j < |s| ==> WordByte(s[j])
    ensures Look(s).Named? ==> forall j :: 0 <= j < Look(s).n ==> WordByte(s[j])
    ensures Look(s).Passed? ==> forall j :: 0 <= j < Look(s).n - 1 ==> WordByte(s[j])
  {
    hide Text, LookAfterDash, WordByte, Rest;
    var o := MatchEnd("ON", s[1..], 0);
    LetterByte(s[0]);
    ShortBytes();
    MatchedBytes("ON", s, 1, o);
    if o == 2 {
      var e := MatchEnd("TENT-", s[3..], 0);
      MatchedBytes("TENT-", s, 3, e);
      hide MatchEnd;
      if e < 5 {
        RestBytes(Nection, s, 3 + e);
      } else if 8 < |s| {
        DashBytes(s);
      }
    }
  }

  lemma DashBytes(s: string)
    requires 8 < |s|
    ensures var g := LookAfterDash(s);
            && (g.Named? ==> forall j :: 8 <= j < g.n ==> WordByte(s[j]))
            && (g.Passed? ==> forall j :: 8 <= j < g.n - 1 ==> WordByte(s[j]))
  {
    hide Text, WordByte, Rest;
    RestBytes(Ength, s, 9);
    RestBytes(Ncoding, s, 9);
    RestBytes(Ype, s, 9);
    LetterByte(s[8]);
  }

  lemma LetterByte(b: char)
    ensures Upper(b) == 'C' || Upper(b) == 'T' || Upper(b) == 'L' || Upper(b) == 'E' ==> WordByte(b)
  {
  }

  lemma ShortBytes()
    ensures forall k :: 0 <= k < 2 ==> WordByte("ON"[k])
    ensures forall k :: 0 <= k < 5 ==> WordByte("TENT-"[k])
  {
  }

  lemma RestBytes(t: Token, s: string, i: nat)
    requires IsKey(t) && i <= |s|
    ensures !Rest(t, s, i).HidesEnd? && forall j :: i <= j < Rest(t, s, i).n ==> WordByte(s[j])
  {
    WordBytes(t);
    hide Text;
    MatchedBytes(Text(t), s, i, MatchEnd(Text(t), s[i..], 0));
  }

  /** A look into quiet text whose last byte is in no name ends inside the text. */
  lemma LookWithin(before: string, rest: string)
    requires Quiet(before) && before != "" && !WordByte(before[|before| - 1])
    ensures var g := Look(before + rest); g.Passed? && g.n <= |before|
  {
    var s := before + rest;
    LookBytes(s);
    if Look(s).Named? { NamedEnds(s); }
    hide Look, Quiet, WordByte, Ends, Signal;
    assert s[|before| - 1] == before[|before| - 1];
    var g := Look(s);
    if !g.HidesEnd? && g.n <= |before| {
      assert s[..g.n] == before[..g.n];
      QuietAt(before, g.n);
    }
  }

  /** After quiet text whose last byte is in no name, such as a space, the search looks afresh. */
  lemma {:induction false} PassesQuiet(before: string, rest: string)
    requires Quiet(before) && before != "" && !WordByte(before[|before| - 1])
    ensures Passes(before + rest, |before|)
    decreases |before|
  {
    hide Look, Quiet, WordByte;
    var s := before + rest;
    LookWithin(before, rest);
    var n := Look(s).n;
    if n < |before| {
      QuietSuffix(before, n);
      assert s[n..] == before[n..] + rest;
      PassesQuiet(before[n..], rest);
    }
  }

  /** The first letter of a name that follows CONTENT- is not looked at: this name is passed over. */
  lemma SwallowedAfterDash(s: string)
    requires 8 < |s| && Begins(s, "CONTENT-") && Upper(s[8]) != 'L' && Upper(s[8]) != 'E' && Upper(s[8]) != 'T'
    ensures Look(s) == Passed(9)
  {
    assert Upper(s[7]) == '-';
    OnReads(s);
    TentReads(s);
  }

  /** Content-Transfer-Encoding is not taken for Transfer-Encoding: its T is compared with TYPE. */
  lemma SwallowedTransfer(rec: Rec, s: string)
    requires 9 < |s| && Begins(s, "CONTENT-TR") && Quiet(s[9..])
    ensures Look(s) == Passed(9) && Rewrite(s) == s && LineEffect(rec, s) == rec && !Finds(s, Ransfer)
  {
    assert Upper(s[7]) == '-' && Upper(s[8]) == 'T' && s[9..][0] == s[9];
    OnReads(s);
    TentReads(s);
    assert Text(Ype) == "YPE:";
    OneLook(rec, s);
    QuietLine(rec, s[9..]);
    hide Look, Quiet, Rewrite;
    assert s[..9] + s[9..] == s;
  }

  /** A T inside CONTENT- is compared with this word, and the name that begins with it is missed. */
  lemma SwallowedInside(rec: Rec, s: string)
    requires 5 <= |s| && Begins(s, "CONTR") && Quiet(s[4..])
    ensures Look(s) == Passed(4) && Rewrite(s) == s && LineEffect(rec, s) == rec && !Finds(s, Ransfer)
  {
    OnReads(s);
    assert s[3..][0] == s[3] && s[3..][1] == s[4] && s[4..][0] == s[4];
    assert MatchEnd("TENT-", s[3..], 0) == 1;
    assert Text(Nection) == "NECTION:";
    OneLook(rec, s);
    QuietLine(rec, s[4..]);
    hide Look, Quiet, Rewrite;
    assert s[..4] + s[4..] == s;
  }

  /** After CON and a T the parser still accepts the rest of Connection. */
  lemma MistakenForConnection(s: string)
    requires Begins(s, "CONTNECTION:")
    ensures Look(s) == Named(Nection, 12)
  {
    OnReads(s);
    assert s[3..][0] == s[3] && s[3..][1] == s[4];
    assert MatchEnd("TENT-", s[3..], 0) == 1;
    assert Text(Nection) == "NECTION:";
    LastWord(Nection, s, 4);
  }

  /** Bytes that begin no name are passed over one by one. */
  lemma {:induction false} PassesOthers(s: string, i: nat, k: nat)
    requires i <= k <= |s| && forall j :: i <= j < k ==> Upper(s[j]) != 'C' && Upper(s[j]) != 'T'
    ensures Passes(s[i..], k - i)
    decreases k - i
  {
    if i < k {
      PassesOthers(s, i + 1, k);
      assert s[i..][0] == s[i] && s[i..][1..] == s[i + 1..];
    }
  }

  /** Proxy-Connection is taken for Connection, and X-Content-Length for Content-Length. */
  lemma PrefixedField(rec: Rec, before: string, f: Field)
    requires GoodField(f) && (Same(before, "PROXY-") || Same(before, "X-"))
    ensures var s := before + FieldText(f);
            && Rewrite(s) == before + RewriteField(f) && LineEffect(rec, s) == Effect(rec, f.key, f.value)
            && Finds(s, f.key) && InRange(s) && EndsWell(s) == EndsWell(FieldText(f))
  {
    hide Finds, InRange, EndsWell, Rewrite, LineEffect, GoodField, FieldText, RewriteField, Effect;
    var s := before + FieldText(f);
    PrefixBytes(before);
    assert s[0..] == s && forall j :: 0 <= j < |before| ==> s[j] == before[j];
    hide Same;
    PassesOthers(s, 0, |before|);
    NameInsideLine(rec, before, f);
  }

  lemma PrefixBytes(before: string)
    requires Same(before, "PROXY-") || Same(before, "X-")
    ensures forall j :: 0 <= j < |before| ==> Upper(before[j]) != 'C' && Upper(before[j]) != 'T'
  {
    var w := if Same(before, "PROXY-") then "PROXY-" else "X-";
    assert forall j :: 0 <= j < |w| ==> Upper(before[|before| - |w| + j]) == w[j] != 'C' && w[j] != 'T';
  }

  /** The names, letter by letter. */
  lemma NameTable()
    ensures Name(Nection) == "CONNECTION:" && Name(Ength) == "CONTENT-LENGTH:" && Name(Ncoding) == "CONTENT-ENCODING:"
    ensures Name(Ype) == "CONTENT-TYPE:" && Name(Ransfer) == "TRANSFER-ENCODING:"
    ensures Text(GzipText) == "GZIP" && Text(ChunkedText) == "CHUNKED"
    ensures Signal(Nection) == "NECTION:" && forall t | IsKey(t) && t != Nection :: Signal(t) == Name(t)
    ensures forall t :: IsKey(t) <==> t in {Nection, Ength, Ncoding, Ype, Ransfer}
  {
  }

  lemma LastOfEnd(s: string, w: string)
    requires w != ""
    ensures Ends(s, w) ==> s != "" && Upper(s[|s| - 1]) == w[|w| - 1]
  {
    if Ends(s, w) {
      assert Upper(s[|s| - |w| + (|w| - 1)]) == w[|w| - 1];
    }
  }

  /** Without a colon there is no name. */
  lemma NoColonQuiet(s: string)
    requires ':' !in s
    ensures Quiet(s)
  {
    NameTable();
    hide Name, Text, Signal;
    forall k, t | 0 <= k <= |s| && IsKey(t) ensures !Ends(s[..k], Signal(t)) {
      LastOfEnd(s[..k], Signal(t));
      assert k > 0 ==> s[..k][k - 1] == s[k - 1] && s[k - 1] in s;
    }
  }

  lemma LineFacts(rec: Rec, t: Token, name: string, gap: string, value: string)
    requires IsKey(t) && Same(name, Name(t)) && (forall k :: 0 <= k < |gap| ==> gap[k] == ' ' || gap[k] == '\t')
    requires (value != "" ==> value[0] != ' ' && value[0] != '\t') && (t != Nection ==> Quiet(value))
    requires t == Ength ==> Value(10, value, DigitsEnd(10, value, 0)) < INT_LIMIT
    ensures var s := name + (gap + value);
            && Rewrite(s) == name + (" " + if t == Nection then "close" else value)
            && LineEffect(rec, s) == Effect(rec, t, value) && InRange(s)
            && (EndsWell(s) || (t != Nection && Ends(value, "CONTENT-")))
            && forall u :: Finds(s, u) == (u == t)
  {
    hide Same, Quiet, Value, Effect, Rewrite, LineEffect, InRange, EndsWell, Ends, Finds;
    FieldLine(rec, Field(t, name, gap, value));
  }

  /** A Content-Length line gives the length. */
  lemma ContentLengthLine(rec: Rec, name: string, gap: string, digits: string)
    requires Same(name, "CONTENT-LENGTH:") && (forall k :: 0 <= k < |gap| ==> gap[k] == ' ' || gap[k] == '\t')
    requires digits != "" && AllDigits(10, digits, |digits|) && Value(10, digits, |digits|) < INT_LIMIT
    ensures var s := name + (gap + digits);
            && LineEffect(rec, s) == rec.(bodyLength := Value(10, digits, |digits|))
            && Rewrite(s) == name + (" " + digits) && InRange(s) && EndsWell(s)
  {
    hide Value, Same, Ends, Quiet, Rewrite, LineEffect, InRange, EndsWell, Finds;
    NameTable();
    DigitsAlone(digits);
    NoColonQuiet(digits);
    LineFacts(rec, Ength, name, gap, digits);
  }

  lemma DigitsAlone(digits: string)
    requires digits != "" && AllDigits(10, digits, |digits|)
    ensures DigitsEnd(10, digits, 0) == |digits| && ':' !in digits && digits[0] != ' ' && digits[0] != '\t'
    ensures !Ends(digits, "CONTENT-")
  {
    assert forall k :: 0 <= k < |digits| ==> IsDigit(10, digits[k]);
    LastOfEnd(digits, "CONTENT-");
    assert IsDigit(10, digits[|digits| - 1]) && IsDigit(10, digits[0]);
  }

  /** A Content-Encoding line: the flag says whether the value begins with gzip, in any case. */
  lemma ContentEncodingLine(rec: Rec, name: string, gap: string, value: string)
    requires Same(name, "CONTENT-ENCODING:") && (forall k :: 0 <= k < |gap| ==> gap[k] == ' ' || gap[k] == '\t')
    requires (value != "" ==> value[0] != ' ' && value[0] != '\t') && Quiet(value)
    ensures var s := name + (gap + value);
            && LineEffect(rec, s) == (if Begins(value, "GZIP") then rec.(cEncoding := Gzip) else rec)
            && Rewrite(s) == name + (" " + value) && InRange(s)
  {
    hide Same, Ends, Quiet, Rewrite, LineEffect, InRange, EndsWell, Finds;
    NameTable();
    LineFacts(rec, Ncoding, name, gap, value);
    BeginsIs(value, "GZIP");
  }

  lemma BeginsIs(s: string, w: string)
    requires forall k :: 0 <= k < |w| ==> Upper(w[k]) == w[k]
    ensures Begins(s, w) <==> MatchEnd(w, s, 0) == |w|
  {
    if Begins(s, w) {
      MatchFull(w, s, 0);
    }
  }

  /** A Content-Type line means nothing to the record. */
  lemma ContentTypeLine(rec: Rec, name: string, gap: string, value: string)
    requires Same(name, "CONTENT-TYPE:") && (forall k :: 0 <= k < |gap| ==> gap[k] == ' ' || gap[k] == '\t')
    requires (value != "" ==> value[0] != ' ' && value[0] != '\t') && Quiet(value)
    ensures var s := name + (gap + value); LineEffect(rec, s) == rec && Rewrite(s) == name + (" " + value) && InRange(s)
  {
    hide Same, Ends, Quiet, Rewrite, LineEffect, InRange, EndsWell, Finds;
    NameTable();
    LineFacts(rec, Ype, name, gap, value);
  }

  /** Any Connection line becomes `close`. */
  lemma ConnectionLine(rec: Rec, name: string, gap: string, value: string)
    requires Same(name, "CONNECTION:") && (forall k :: 0 <= k < |gap| ==> gap[k] == ' ' || gap[k] == '\t')
    requires value != "" ==> value[0] != ' ' && value[0] != '\t'
    ensures var s := name + (gap + value);
            && LineEffect(rec, s) == rec.(isClose := true) && Rewrite(s) == name + " close" && InRange(s) && EndsWell(s)
  {
    hide Same, Ends, Quiet, Rewrite, LineEffect, InRange, EndsWell, Finds;
    NameTable();
    LineFacts(rec, Nection, name, gap, value);
    assert " " + "close" == " close";
  }

  /** A Transfer-Encoding line: the flag says whether the value begins with chunked, in any case. */
  lemma TransferEncodingLine(rec: Rec, name: string, gap: string, value: string)
    requires Same(name, "TRANSFER-ENCODING:") && (forall k :: 0 <= k < |gap| ==> gap[k] == ' ' || gap[k] == '\t')
    requires (value != "" ==> value[0] != ' ' && value[0] != '\t') && Quiet(value)
    ensures var s := name + (gap + value);
            && LineEffect(rec, s) == (if Begins(value, "CHUNKED") then rec.(isChunked := true) else rec)
            && Rewrite(s) == name + (" " + value) && InRange(s)
            && (FindsChunked(s) <==> Begins(value, "CHUNKED"))
  {
    hide Same, Ends, Quiet, Rewrite, LineEffect, InRange, EndsWell, Finds, FindsChunked;
    NameTable();
    LineFacts(rec, Ransfer, name, gap, value);
    BeginsIs(value, "CHUNKED");
    FlagsOfLine(rec.(isChunked := false), name + (gap + value));
    LineFacts(rec.(isChunked := false), Ransfer, name, gap, value);
  }

  /** Only a Content-Length that is found changes the length. */
  lemma {:induction false} LengthOfLine(rec: Rec, s: string)
    requires !Finds(s, Ength)
    ensures LineEffect(rec, s).bodyLength == rec.bodyLength
    decreases |s|
  {
    hide First, MatchEnd, Value;
    if s != "" {
      LengthOfLine(BitEffect(rec, First(s)), s[First(s).used..]);
    }
  }
}
