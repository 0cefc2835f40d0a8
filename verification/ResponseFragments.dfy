/** A response may arrive in any fragments: the result is the one of a single run over the whole
    text. */
module ResponseFragments {
  import opened Bytes
  import opened Buffers
  import opened ParserUtils
  import opened ResponseMachine
  import opened ResponseLemmas
  import opened ResponseHeaders
  import opened ResponseParser

  function Shift(c: Conf, o: string, t: string): Conf {
    c.(out := o + c.out, transf := t + c.transf)
  }

  /** What was written before does not change what is written next. */
  lemma {:induction false} RunShift(c: Conf, q: Queue, o: string, t: string)
    ensures Run(Shift(c, o, t), q) == Outcome(Shift(Run(c, q).c, o, t), Run(c, q).rest)
    decreases q.Size()
  {
    hide Step;
    if !Terminal(c.p) && !q.Empty() {
      var mv := Step(c.rec, c.p, q.Head(), q.Loud());
      AppendAppend(o, c.out, mv.out);
      AppendAppend(t, c.transf, mv.transf);
      assert Apply(Shift(c, o, t), mv) == Shift(Apply(c, mv), o, t);
      if mv.took {
        RunShift(Apply(c, mv), q.Tail(), o, t);
      }
    }
  }

  /** No byte makes the parser write more than 60 bytes. */
  const BURST: nat := 60

  lemma StepBound(rec: Rec, p: Place, b: char, loud: string)
    requires |loud| <= 1
    ensures var mv := Step(rec, p, b, loud); |mv.out| <= BURST && |mv.transf| <= 1
  {
    hide Text;
    assert |Trailer(rec)| <= 49;
  }

  lemma {:induction false} RunBound(c: Conf, q: Queue)
    ensures |Run(c, q).c.out| <= |c.out| + BURST * q.Size()
    ensures |Run(c, q).c.transf| <= |c.transf| + BURST * q.Size()
    decreases q.Size()
  {
    hide Step;
    if !Terminal(c.p) && !q.Empty() {
      StepBound(c.rec, c.p, q.Head(), q.Loud());
      var mv := Step(c.rec, c.p, q.Head(), q.Loud());
      if mv.took {
        RunBound(Apply(c, mv), q.Tail());
      }
    }
  }

  /** The same place, up to the 0 that a chunk size leaves behind before its first digit. */
  predicate Alike(a: Conf, b: Conf) {
    a.rec == b.rec && (a.p == b.p || a.p == Settled(b.p))
  }

  lemma AlikeFacts(a: Conf, b: Conf)
    requires Alike(a, b)
    ensures StateOf(a.rec, a.p) == StateOf(b.rec, b.p)
    ensures PushedBack(a.rec, a.p) == PushedBack(b.rec, b.p)
    ensures Terminal(a.p) == Terminal(b.p) && (a.p.Spaces? ==> a.p == b.p)
    ensures Terminal(a.p) ==> a.p == b.p
  {
  }

  /** A chunk size that a call began without a digit goes on as if it had one, unless the next
      byte is no digit. */
  lemma SettledRun(c: Conf, f: string)
    requires !Terminal(c.p)
    ensures var a := Run(At(c, Settled(c.p)), Queue("", f)); var b := Run(c, Queue("", f));
            b.c.p == NoSize || b.c.p == Outside ||
            (Alike(a.c, b.c) && a.c.out == b.c.out && a.c.transf == b.c.transf && a.rest == b.rest)
  {
    hide Run, Step;
    var q := Queue("", f);
    if c.p == Digits(ChunkSize, None) {
      if f == "" {
        RunEmpty(c, q);
        RunEmpty(At(c, Settled(c.p)), q);
      } else {
        SettledByte(c, q);
      }
    }
  }

  lemma SettledByte(c: Conf, q: Queue)
    requires c.p == Digits(ChunkSize, None) && !q.Empty()
    ensures Run(c, q).c.p in {NoSize, Outside} || Run(At(c, Settled(c.p)), q) == Run(c, q)
  {
    hide Run;
    var mv := Step(c.rec, c.p, q.Head(), q.Loud());
    if mv.took {
      StepAlike(c, At(c, Settled(c.p)), q);
    } else {
      RunRefused(c, q, mv);
    }
  }

  /** The central step. A call that finds what the last call pushed back, and a new fragment,
      ends where the machine ends that was never interrupted. */
  lemma NextFragment(c: Conf, next: ResponseParserState, f: string)
    requires Live(c.rec, c.p) && !Terminal(c.p) && (c.p.Spaces? ==> c.p.next == next)
    ensures var start := Conf(c.rec, Resumed(StateOf(c.rec, c.p), next, c.rec), "", "");
            var a := Run(start, Queue(PushedBack(c.rec, c.p), f));
            var b := Run(c, Queue("", f));
            b.c.p == NoSize || b.c.p == Outside ||
            (Alike(a.c, b.c) && b.c.out == c.out + a.c.out && b.c.transf == c.transf + a.c.transf && a.rest == b.rest)
  {
    hide Run, Step, StateOf, PushedBack;
    var blank := Conf(c.rec, c.p, "", "");
    assert c.out + "" == c.out && c.transf + "" == c.transf;
    Rehearse(blank, next, f);
    SettledRun(blank, f);
    RunShift(blank, Queue("", f), c.out, c.transf);
  }

  function Whole(transform: bool, text: string): Outcome {
    Run(Conf(Fresh(transform), Word(VersionText, 0), "", ""), Queue("", text))
  }

  /** Text that the parser treats alike however it is cut: no NUL in framing, no number past the
      C int, and every chunk size has a digit. */
  predicate Regular(r: Outcome) {
    r.c.p != Outside && r.c.p != NoSize
  }

  lemma {:induction false} WholePush(transform: bool, text: string, f: string)
    ensures var r := Whole(transform, text); var s := Whole(transform, text + f);
            && Live(r.c.rec, r.c.p)
            && (Terminal(r.c.p) ==> s == Outcome(r.c, r.rest.Push(f)))
            && (!Terminal(r.c.p) ==> s == Run(r.c, Queue("", f)))
  {
    hide Step, Text;
    var c := Conf(Fresh(transform), Word(VersionText, 0), "", "");
    RunPush(c, Queue("", text), f);
    RunLive(c, Queue("", text));
    assert Queue("", text).Push(f) == Queue("", text + f);
    var r := Whole(transform, text);
    if !Terminal(r.c.p) {
      assert r.rest.Push(f) == Queue("", f);
    }
  }

  /** The state of the parser between two fragments, and what it delivered so far. */
  ghost predicate Between(r: Outcome, rd: ResponseData, bIn: Buffer, out: string, transf: string)
    reads rd, bIn
  {
    && rd.Fields() == r.c.rec && out == r.c.out && transf == r.c.transf
    && rd.parserState == StateOf(r.c.rec, r.c.p)
    && (r.c.p.Spaces? ==> rd.next == r.c.p.next)
    && (!Terminal(r.c.p) ==> bIn.pending == Queue(PushedBack(r.c.rec, r.c.p), ""))
    && (r.c.p == Done || r.c.p == NoBody ==> bIn.pending == r.rest)
  }

  /** An error is reported where the machine rejects, and only there. */
  ghost predicate Reported(rec: Rec, p: Place) {
    p == Outside || (rec.state == ResOk) == !(p.Rejected? || p.NoSize?)
  }

  lemma WordReported(rec: Rec, b: char, loud: string, t: Token, i: nat)
    requires rec.state == ResOk
    ensures var mv := Scan(rec, b, loud); Reported(mv.rec, mv.p)
    ensures var mv := WordStep(rec, t, i, b, loud); Reported(mv.rec, mv.p)
  {
    hide Text;
  }

  lemma NumberReported(rec: Rec, b: char, loud: string, n: Numeral, v: Option<nat>)
    requires rec.state == ResOk
    ensures var mv := NumberStep(rec, n, v, b, loud); Reported(mv.rec, mv.p)
  {
  }

  lemma PartsReported(rec: Rec, b: char, loud: string, t: Token, i: nat, n: Numeral, v: Option<nat>)
    requires rec.state == ResOk
    ensures var mv := Scan(rec, b, loud); Reported(mv.rec, mv.p)
    ensures var mv := WordStep(rec, t, i, b, loud); Reported(mv.rec, mv.p)
    ensures var mv := NumberStep(rec, n, v, b, loud); Reported(mv.rec, mv.p)
  {
    hide Scan, WordStep, NumberStep;
    WordReported(rec, b, loud, t, i);
    NumberReported(rec, b, loud, n, v);
  }

  lemma StepReported(rec: Rec, p: Place, b: char, loud: string)
    requires rec.state == ResOk && !Terminal(p)
    ensures var mv := Step(rec, p, b, loud); Reported(mv.rec, mv.p)
  {
    hide Text, Scan, WordStep, NumberStep;
    PartsReported(rec, b, loud, if p.Word? then p.t else GzipText, if p.Word? then p.i else 0,
                  if p.Digits? then p.n else StatusNumber, if p.Digits? then p.v else None);
    PartsReported(rec, b, loud, ChunkedText, 0, LengthNumber, None);
    PartsReported(rec.(isClose := true), b, loud, ChunkedText, 0, LengthNumber, None);
  }

  lemma {:induction false} RunReported(c: Conf, q: Queue)
    requires Reported(c.rec, c.p)
    ensures Reported(Run(c, q).c.rec, Run(c, q).c.p)
    decreases q.Size()
  {
    hide Step;
    if !Terminal(c.p) && !q.Empty() {
      StepReported(c.rec, c.p, q.Head(), q.Loud());
      var mv := Step(c.rec, c.p, q.Head(), q.Loud());
      if mv.took {
        RunReported(Apply(c, mv), q.Tail());
      }
    }
  }

  /** One turn of the client: a fragment comes in, the parser runs, the outputs are sent on. */
  method Deliver(rd: ResponseData, bIn: Buffer, bOut: Buffer, bTransf: Buffer, fragment: string,
                 ghost r: Outcome, ghost out0: string, ghost transf0: string)
    returns (out: string, transf: string)
    requires rd.Valid() && bIn.Valid() && bOut.Valid() && bTransf.Valid() && AllApart(bIn, bOut, bTransf)
    requires bOut.offered == "" && bTransf.offered == "" && RESERVE <= bIn.infLimit
    requires bOut.read == bOut.infLimit < bOut.limit && bTransf.read == bTransf.infLimit < bTransf.limit
    requires |fragment| <= bIn.limit - bIn.write
    requires BURST * (17 + |fragment|) <= bOut.limit - bOut.infLimit
    requires BURST * (17 + |fragment|) <= bTransf.limit - bTransf.infLimit
    modifies rd, bIn, bIn.data, bOut, bOut.data, bTransf, bTransf.data
    ensures rd.Valid() && bIn.Valid() && bOut.Valid() && bTransf.Valid()
    ensures bOut.offered == "" && bTransf.offered == ""
    ensures bOut.read == bOut.infLimit && bTransf.read == bTransf.infLimit
    ensures old(Between(r, rd, bIn, out0, transf0)) && Live(r.c.rec, r.c.p) && !Terminal(r.c.p) ==>
              var s := Run(r.c, Queue("", fragment));
              Regular(s) ==> Between(s, rd, bIn, out0 + out, transf0 + transf)
  {
    hide Buffer.Shape, Run, Step, StateOf, PushedBack, Resumed, Queue.Size;
    ghost var going := Between(r, rd, bIn, out0, transf0) && Live(r.c.rec, r.c.p) && !Terminal(r.c.p);
    bIn.Fill(fragment);
    ghost var s := Run(r.c, Queue("", fragment));
    if going {
      NextFragment(r.c, rd.next, fragment);
      RunBound(Start(rd, bOut, bTransf), bIn.pending);
      PushedBackFits(r.c.rec, r.c.p);
      assert "" + fragment == fragment;
      SizeOf(bIn.pending);
      if Regular(s) { AlikeFacts(Run(Start(rd, bOut, bTransf), bIn.pending).c, s.c); }
    }
    var _ := CheckResponseInner(rd, bIn, bOut, bTransf);
    out := Drain(bOut);
    transf := Drain(bTransf);
  }

  /** What is known of a run over the text so far. */
  lemma WholeFacts(transform: bool, text: string, f: string)
    ensures var r := Whole(transform, text); var s := Whole(transform, text + f);
            && Live(r.c.rec, r.c.p) && Reported(r.c.rec, r.c.p)
            && (StateOf(r.c.rec, r.c.p) == Finished ==> Terminal(r.c.p))
            && (r.c.p == Done || r.c.p == NoBody ==> StateOf(r.c.rec, r.c.p) == Finished)
            && (Terminal(r.c.p) ==> s == Outcome(r.c, r.rest.Push(f)))
            && (!Terminal(r.c.p) ==> s == Run(r.c, Queue("", f)))
  {
    hide Run;
    WholePush(transform, text, f);
    RunReported(Conf(Fresh(transform), Word(VersionText, 0), "", ""), Queue("", text));
  }

  lemma WholeStart(transform: bool)
    ensures Whole(transform, "") ==
            Outcome(Conf(Fresh(transform), Word(VersionText, 0), "", ""), Queue("", ""))
    ensures StateOf(Fresh(transform), Word(VersionText, 0)) == Version
    ensures PushedBack(Fresh(transform), Word(VersionText, 0)) == ""
  {
  }

  /** The loop of the client of the source, `remote_read`: it stops at an error and at the end,
      and when there is no room. */
  method FeedLoop(fragments: seq<string>, transform: bool, rd: ResponseData, bIn: Buffer, bOut: Buffer, bTransf: Buffer)
    returns (out: string, transf: string, k: nat)
    requires rd.Valid() && AllApart(bIn, bOut, bTransf)
    requires bIn.Valid() && RESERVE <= bIn.infLimit && bIn.pending == Queue("", "")
    requires bOut.Valid() && bOut.offered == "" && bOut.read == bOut.infLimit < bOut.limit
    requires bTransf.Valid() && bTransf.offered == "" && bTransf.read == bTransf.infLimit < bTransf.limit
    requires rd.parserState == Version && rd.Fields() == Fresh(transform)
    requires forall f :: f in fragments ==> |f| <= bIn.limit - bIn.infLimit
    requires forall f :: f in fragments ==> BURST * (17 + |f|) <= bOut.limit - bOut.infLimit
    requires forall f :: f in fragments ==> BURST * (17 + |f|) <= bTransf.limit - bTransf.infLimit
    modifies rd, bIn, bIn.data, bOut, bOut.data, bTransf, bTransf.data
    ensures k <= |fragments| && bIn.Valid()
    ensures var r := Whole(transform, Flatten(fragments[..k]));
            && (Regular(r) ==> Between(r, rd, bIn, out, transf))
            && (k < |fragments| ==> Terminal(r.c.p))
  {
    hide Buffer.Shape, Run, Step, StateOf, PushedBack, Text, Whole, Live, Fresh;
    out, transf, k := "", "", 0;
    WholeStart(transform);
    assert fragments[..0] == [];
    while k < |fragments| && rd.state == ResOk && rd.parserState != Finished
      invariant k <= |fragments| && rd.Valid()
      invariant bIn.Valid() && bOut.Valid() && bTransf.Valid()
      invariant bOut.offered == "" && bOut.read == bOut.infLimit
      invariant bTransf.offered == "" && bTransf.read == bTransf.infLimit
      invariant var r := Whole(transform, Flatten(fragments[..k]));
                Regular(r) ==> Between(r, rd, bIn, out, transf)
      decreases |fragments| - k
    {
      ghost var r := Whole(transform, Flatten(fragments[..k]));
      WholeFacts(transform, Flatten(fragments[..k]), fragments[k]);
      FlattenSnoc(fragments[..k], fragments[k]);
      assert fragments[..k + 1] == fragments[..k] + [fragments[k]];
      if Regular(r) { bIn.NothingFresh(); }
      if bIn.limit - bIn.write < |fragments[k]| {
        break;
      }
      var o, t := Deliver(rd, bIn, bOut, bTransf, fragments[k], r, out, transf);
      out, transf := out + o, transf + t;
      k := k + 1;
    }
    WholeFacts(transform, Flatten(fragments[..k]), "");
  }

  /** However a response is cut, the record, the parser state, everything delivered and, once the
      parser is done, the bytes that nobody read are those of one run over the whole text. */
  method Feed(fragments: seq<string>, transform: bool)
    returns (rec: Rec, state: ResponseParserState, out: string, transf: string, left: string)
    ensures var r := Whole(transform, Flatten(fragments));
            Regular(r) ==>
              && rec == r.c.rec && state == StateOf(rec, r.c.p)
              && out == r.c.out && transf == r.c.transf
              && (r.c.p == Done || r.c.p == NoBody ==> left == r.rest.Text())
  {
    hide Buffer.Shape, Run, Step, StateOf, PushedBack, Text, Whole, Live;
    var size := LongestFragment(fragments);
    var room := BURST * (17 + size);
    var rd := new ResponseData(transform);
    var bIn := Allocate(RESERVE, RESERVE + size);
    var bOut := Allocate(0, room);
    var bTransf := Allocate(0, room);
    var k;
    out, transf, k := FeedLoop(fragments, transform, rd, bIn, bOut, bTransf);
    WholeFacts(transform, Flatten(fragments[..k]), Flatten(fragments[k..]));
    FlattenSplit(fragments, k);
    assert k == |fragments| ==> fragments[..k] == fragments && fragments[k..] == [];
    rec, state := rd.Fields(), rd.parserState;
    left := bIn.Contents() + Flatten(fragments[k..]);
    PushText(bIn.pending, Flatten(fragments[k..]));
  }
}
