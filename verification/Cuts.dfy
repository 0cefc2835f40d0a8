/** Where a response may not be cut: before a chunk size that is empty. A call that ends there
    pushes back a 0, and the next call takes it for the size. */
module EmptySize {
  import opened Bytes
  import opened Numbers
  import opened ParserUtils
  import opened ResponseMachine
  import opened ResponseLemmas
  import opened ResponseFragments

  /** The rest `f` in a call of its own. */
  function Cut(c: Conf, f: string): Outcome {
    Run(Conf(c.rec, Resumed(StateOf(c.rec, c.p), SpaceTransition, c.rec), c.out, c.transf),
        Queue(PushedBack(c.rec, c.p), f))
  }

  function Uncut(c: Conf, f: string): Outcome { Run(c, Queue("", f)) }

  /** The same record, parser state and outputs. */
  predicate Agree(a: Conf, b: Conf) {
    a.rec == b.rec && StateOf(a.rec, a.p) == StateOf(b.rec, b.p) && a.out == b.out && a.transf == b.transf
  }

  predicate CutAgrees(c: Conf, f: string) { Agree(Cut(c, f).c, Uncut(c, f).c) }

  predicate AtSize(c: Conf) {
    c.p == Digits(ChunkSize, None) && c.rec.isChunked && c.rec.state == ResOk
  }

  lemma CutIsSettled(c: Conf, f: string)
    requires AtSize(c)
    ensures Cut(c, f) == Run(At(c, Digits(ChunkSize, Some(0))), Queue("", f))
  {
    hide Run;
    Rehearse(c, SpaceTransition, f);
  }

  lemma SizeByte(c: Conf, b: char, t: string)
    requires AtSize(c) && b != NUL
    ensures var q := Queue("", [b] + t); var d := At(c, Digits(ChunkSize, Some(0)));
            if IsDigit(16, b) then Run(d, q) == Run(c, q)
            else
              && Run(c, q) == Outcome(c.(rec := c.rec.(state := ChunksError), p := NoSize), q)
              && (b == '\r' && t == "" ==>
                    Run(d, q).c.rec == c.rec.(bodyLength := 0))
              && (b != '\r' ==>
                    Run(d, q) == Outcome(c.(rec := c.rec.(state := ChunksError, bodyLength := 0),
                                            p := Rejected(BodyState(c.rec))), q))
  {
    var q, d := Queue("", [b] + t), At(c, Digits(ChunkSize, Some(0)));
    assert c.out + "" == c.out && c.transf + "" == c.transf && q.Tail() == Queue("", t);
    hide Run;
    if IsDigit(16, b) {
      StepAlike(d, c, q);
    } else {
      RunRefused(c, q, Step(c.rec, c.p, b, [b]));
      if b == '\r' {
        var mv := Step(d.rec, d.p, b, [b]);
        RunTook(d, q, mv);
        if t == "" { RunEmpty(Apply(d, mv), q.Tail()); }
      } else {
        RunRefused(d, q, Step(d.rec, d.p, b, [b]));
      }
    }
  }

  /** A cut before a chunk size is harmless, whatever follows, exactly when the next byte is a digit,
      or when it is not CR and the chunk is not the first of a body (or one announced as empty). */
  lemma HarmlessCut(c: Conf, b: char)
    requires AtSize(c) && b != NUL
    ensures (forall t :: CutAgrees(c, [b] + t)) <==> (IsDigit(16, b) || (b != '\r' && c.rec.bodyLength == 0))
  {
    hide Run, Cut;
    forall t ensures CutAgrees(c, [b] + t) ==> IsDigit(16, b) || t != "" || (b != '\r' && c.rec.bodyLength == 0)
    {
      CutIsSettled(c, [b] + t);
      SizeByte(c, b, t);
    }
    forall t ensures IsDigit(16, b) || (b != '\r' && c.rec.bodyLength == 0) ==> CutAgrees(c, [b] + t) {
      CutIsSettled(c, [b] + t);
      SizeByte(c, b, t);
    }
    assert CutAgrees(c, [b] + "") ==> IsDigit(16, b) || (b != '\r' && c.rec.bodyLength == 0);
  }

  /** The input that shows it: an empty size line is an error, or the end of the body. */
  lemma EmptyLineIsZero(c: Conf)
    requires AtSize(c)
    ensures Uncut(c, "\r\n\r\n").c.rec.state == ChunksError
    ensures Cut(c, "\r\n\r\n").c.p == Done && Cut(c, "\r\n\r\n").c.rec.state == ResOk
  {
    hide Run, Cut;
    var f := "\r\n\r\n";
    CutIsSettled(c, f);
    assert f == ['\r'] + "\n\r\n";
    SizeByte(c, '\r', "\n\r\n");
    var d, q := At(c, Digits(ChunkSize, Some(0))), Queue("", f);
    for i := 0 to 4
      invariant Cut(c, f) == Run(d, q) && q == Queue("", f[i..]) && d.rec.state == ResOk
      invariant i > 0 ==> d.rec.bodyLength == 0
      invariant d.p == if i == 0 then Digits(ChunkSize, Some(0)) else if i == 1 then SizeCr
                       else if i == 2 then DataEnd(true, 0) else if i == 3 then DataEnd(true, 1) else Done
    {
      var mv := Step(d.rec, d.p, q.Head(), q.Loud());
      RunTook(d, q, mv);
      assert q.Tail() == Queue("", f[i + 1..]);
      d, q := Apply(d, mv), q.Tail();
    }
    RunTerminal(d, q);
  }
}

/** Where a request may not be cut: between the colon and a port that is empty. */
module EmptyPort {
  import opened Bytes
  import opened Numbers
  import opened ParserUtils
  import opened RequestMachine
  import opened RequestLemmas

  function Cut(c: Conf, f: string): Outcome {
    Run(Conf(c.rec, Resumed(StateOf(c.p), SpaceTransition), c.out), Queue(PushedBack(c.p), f))
  }

  function Uncut(c: Conf, f: string): Outcome { Run(c, Queue("", f)) }

  predicate Agree(a: Conf, b: Conf) { a.rec == b.rec && StateOf(a.p) == StateOf(b.p) && a.out == b.out }

  predicate CutAgrees(c: Conf, f: string) { Agree(Cut(c, f).c, Uncut(c, f).c) }

  /** After `Host: name:`. */
  ghost predicate AtPort(c: Conf) {
    Live(c.rec, c.p) && c.p.Port? && !c.p.absolute && c.p.v == None && c.rec.state == Ok
  }

  lemma CutIsSettled(c: Conf, f: string)
    requires AtPort(c)
    ensures Cut(c, f) == Run(At(c, c.p.(v := Some(0))), Queue("", f))
  {
    hide Run, Print;
    Rehearse(c, SpaceTransition, f);
  }

  lemma PortFirst(c: Conf, b: char, t: string)
    requires AtPort(c) && b != NUL
    ensures var q := Queue("", [b] + t); var d := At(c, c.p.(v := Some(0)));
            if IsDigit(10, b) then Run(d, q) == Run(c, q)
            else
              && Run(c, q) == Outcome(c.(rec := c.rec.(state := HostError), p := NoPort), q)
              && Run(d, q) == Outcome(HostEnd(c.(rec := c.rec.(port := 0)), false, c.p.h, b), q)
  {
    hide Run, Print;
    var q, d := Queue("", [b] + t), At(c, c.p.(v := Some(0)));
    assert c.out + "" == c.out;
    if IsDigit(10, b) {
      StepAlike(d, c, q);
    } else {
      RunRefused(c, q, Step(c.rec, c.p, b, [b]));
      RunRefused(d, q, Step(d.rec, d.p, b, [b]));
    }
  }

  /** A cut before a port is harmless, whatever follows, exactly when a digit follows, or when the byte
      that follows makes the host wrong and the port was 0 before. */
  lemma HarmlessCut(c: Conf, b: char)
    requires AtPort(c) && b != NUL
    ensures (forall t :: CutAgrees(c, [b] + t)) <==> (IsDigit(10, b) || (!EndsHost(b) && c.rec.port == 0))
  {
    hide Run, Cut;
    forall t ensures CutAgrees(c, [b] + t) <==> (IsDigit(10, b) || (!EndsHost(b) && c.rec.port == 0)) {
      CutIsSettled(c, [b] + t);
      PortFirst(c, b, t);
    }
    assert CutAgrees(c, [b] + "") <==> (IsDigit(10, b) || (!EndsHost(b) && c.rec.port == 0));
  }

  /** The input that shows it: `name:` and CR is an error, or a host with port 0. */
  lemma EmptyPortIsZero(c: Conf, t: string)
    requires AtPort(c)
    ensures Uncut(c, "\r" + t).c.rec.state == HostError && Uncut(c, "\r" + t).c.rec.calls == c.rec.calls
    ensures Cut(c, "\r" + t).c.rec.state == Ok && Cut(c, "\r" + t).c.rec.calls == c.rec.calls + [Call(c.p.h, 0)]
  {
    hide Run, Cut;
    CutIsSettled(c, "\r" + t);
    PortFirst(c, '\r', t);
  }
}
