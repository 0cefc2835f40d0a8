/** Requests in absolute form (section 5.3.2 of RFC 7230), which is what a client sends to a proxy: the
    target itself names the host. */
module AbsoluteForm {
  import opened Bytes
  import opened Numbers
  import opened ParserUtils
  import opened RequestMachine
  import opened RequestLemmas
  import opened RequestParser
  import opened RequestFragments
  import opened RequestMeaning
  import opened OriginForm

  lemma SchemeParts(scheme: string)
    requires Same(scheme, "HTTP://")
    ensures |scheme| == 7 && Same(scheme[..4], Text(HttpText)) && Same(scheme[4..], Text(SchemeText))
    ensures scheme[0] != NUL && !IsSpace(scheme[0])
  {
    SameIs(scheme, "HTTP://");
    SameIs(scheme[..4], "HTTP");
    SameIs(scheme[4..], "://");
    assert Upper(scheme[0]) == "HTTP://"[0];
    forall k | 0 <= k < 3 ensures Upper(scheme[4..][k]) == "://"[k] {
      assert scheme[4..][k] == scheme[k + 4] && Upper(scheme[k + 4]) == "HTTP://"[k + 4];
    }
  }

  lemma SchemeMatched(rec: Rec)
    ensures Matched(rec, HttpText) == (rec, Word(SchemeText, 0)) && Matched(rec, SchemeText) == (rec, HostName(true, ""))
  {
  }

  /** An absolute target: the callback gets its host and port, and the byte after them is not consumed. */
  lemma AbsoluteRun(c: Conf, scheme: string, a: Authority, b: char, u: string)
    requires c.p == Word(HttpText, 0) && Same(scheme, "HTTP://") && GoodAuthority(a) && Follows(true, b)
    ensures Run(c, Queue("", scheme + (AuthorityText(a) + ([b] + u)))) ==
            Outcome(Called(c, LowerAll(a.host), PortNumber(a, c.rec.port), scheme + AuthorityText(a)), Queue("", [b] + u))
  {
    hide Run, Same, Text, Matched, LowerAll, AuthorityText, GoodAuthority, PortNumber, Follows;
    var rest := AuthorityText(a) + ([b] + u);
    SchemeParts(scheme);
    SchemeMatched(c.rec);
    assert scheme + rest == scheme[..4] + (scheme[4..] + rest);
    WholeWord(c, HttpText, scheme[..4], scheme[4..] + rest);
    WholeWord(Went(c, Word(SchemeText, 0), scheme[..4]), SchemeText, scheme[4..], rest);
    assert c.out + scheme[..4] + scheme[4..] == c.out + scheme;
    AuthorityRun(Went(c, HostName(true, ""), scheme), true, a, b, u);
    AppendAppend(c.out, scheme, AuthorityText(a));
  }

  datatype Target = Target(m: HttpMethod, verb: string, gap: string, scheme: string, host: Authority)

  ghost predicate GoodAbsolute(r: Target) {
    IsVerb(r.verb, r.m) && AllSpaces(r.gap) && Same(r.scheme, "HTTP://") && GoodAuthority(r.host)
  }

  function TargetText(r: Target): string { r.verb + (r.gap + (r.scheme + AuthorityText(r.host))) }

  function TargetOut(r: Target): string { r.verb + " " + (r.scheme + AuthorityText(r.host)) }

  ghost function TargetRec(r: Target): Rec
    requires GoodAbsolute(r)
  {
    var port := PortNumber(r.host, 80);
    Rec(Ok, Undefined, r.m, port, false, [Call(LowerAll(r.host.host), port)])
  }

  /** A request with an absolute target is settled by the target, whatever follows. */
  lemma WholeAbsolute(r: Target, b: char, u: string)
    requires GoodAbsolute(r) && Follows(true, b)
    ensures Whole(TargetText(r) + ([b] + u)) == Outcome(Conf(TargetRec(r), Done, TargetOut(r)), Queue("", [b] + u))
  {
    hide Run, Same, LowerAll, AuthorityText, GoodAuthority, PortNumber, Follows, AllSpaces;
    var v := r.scheme + (AuthorityText(r.host) + ([b] + u));
    var c := Conf(FRESH, Start, "");
    assert TargetText(r) + ([b] + u) == r.verb + (r.gap + v);
    SchemeParts(r.scheme);
    assert v[0] == r.scheme[0];
    VerbRun(c, r.verb, r.m, r.gap + v);
    c := Conf(FRESH.(verb := r.m), Spaces(Uri), r.verb);
    assert "" + r.verb == r.verb;
    GapRun(c, r.gap, v);
    AbsoluteRun(Went(c, Word(HttpText, 0), " "), r.scheme, r.host, b, u);
    assert [] + [Call(LowerAll(r.host.host), PortNumber(r.host, 80))] == TargetRec(r).calls;
  }

  /** The same over any fragments. */
  method FeedAbsolute(fragments: seq<string>, ghost r: Target, ghost b: char, ghost u: string)
    returns (rec: Rec, state: RequestParserState, out: string, left: string)
    requires GoodAbsolute(r) && Follows(true, b) && Flatten(fragments) == TargetText(r) + ([b] + u)
    ensures state == Finished && rec == TargetRec(r) && out == TargetOut(r) && left == [b] + u
    ensures rec.calls == [Call(LowerAll(r.host.host), PortNumber(r.host, 80))]
  {
    hide Run, Whole, TargetText, TargetOut, GoodAbsolute;
    WholeAbsolute(r, b, u);
    rec, state, out, left := Feed(fragments);
    assert "" + ([b] + u) == [b] + u;
  }
}
