/** A request may arrive in any fragments: the host callback, the record and the output are those
    of a single run over the whole text. */
module RequestFragments {
  import opened Bytes
  import opened Buffers
  import opened Numbers
  import opened ParserUtils
  import opened RequestMachine
  import opened RequestLemmas
  import opened RequestParser

  function Shift(c: Conf, o: string): Conf { c.(out := o + c.out) }

  /** What was written before does not change what is written next. */
  lemma {:induction false} RunShift(c: Conf, q: Queue, o: string)
    ensures Run(Shift(c, o), q) == Outcome(Shift(Run(c, q).c, o), Run(c, q).rest)
    decreases q.Size()
  {
    hide Step;
    if !Terminal(c.p) && !q.Empty() {
      var mv := Step(c.rec, c.p, q.Head(), q.Loud());
      AppendAppend(o, c.out, mv.out);
      assert Apply(Shift(c, o), mv) == Shift(Apply(c, mv), o);
      if mv.took {
        RunShift(Apply(c, mv), q.Tail(), o);
      }
    }
  }

  /** No byte makes the parser write more than 30 bytes. */
  const BURST: nat := 30

  lemma StepBound(rec: Rec, p: Place, b: char, loud: string)
    requires |loud| <= 1
    ensures |Step(rec, p, b, loud).out| <= BURST
  {
    hide Text, Print;
  }

  lemma {:induction false} RunBound(c: Conf, q: Queue)
    ensures |Run(c, q).c.out| <= |c.out| + BURST * q.Size()
    decreases q.Size()
  {
    hide Step;
    if !Terminal(c.p) && !q.Empty() {
      StepBound(c.rec, c.p, q.Head(), q.Loud());
      var mv := Step(c.rec, c.p, q.Head(), q.Loud());
      if mv.took {
        RunBound(Apply(c, mv), q.Tail());
      }
    }
  }

  /** The host only grows until it is complete. */
  lemma {:induction false} HostGrows(c: Conf, q: Queue)
    requires c.p.HostName? || c.p.Port?
    ensures var r := Run(c, q);
            r.c.p.Rejected? || r.c.p.NoPort? || r.c.p.Outside? || HostText(c) <= HostText(r.c)
    decreases q.Size()
  {
    if !q.Empty() {
      HostStepGrows(c, q.Head(), q.Loud());
      hide Step;
      var mv := Step(c.rec, c.p, q.Head(), q.Loud());
      if mv.took && !Terminal(mv.p) {
        HostGrows(Apply(c, mv), q.Tail());
      }
    }
  }

  lemma HostStepGrows(c: Conf, b: char, loud: string)
    requires c.p.HostName? || c.p.Port?
    ensures var mv := Step(c.rec, c.p, b, loud); var d := Apply(c, mv);
            || d.p.Rejected? || d.p.NoPort? || d.p.Outside?
            || (HostText(c) <= HostText(d) && (mv.took ==> d.p.HostName? || d.p.Port?))
  {
    hide Print;
  }

  /** The same place, up to the 0 that a port leaves behind before its first digit. */
  predicate Alike(a: Conf, b: Conf) {
    a.rec == b.rec && (a.p == b.p || a.p == Settled(b.p))
  }

  lemma AlikeFacts(a: Conf, b: Conf)
    requires Alike(a, b)
    ensures StateOf(a.p) == StateOf(b.p) && PushedBack(a.p) == PushedBack(b.p)
    ensures Terminal(a.p) == Terminal(b.p) && (a.p.Spaces? ==> a.p == b.p)
    ensures Terminal(a.p) ==> a.p == b.p
    ensures HostText(a) == HostText(b)
  {
  }

  lemma SettledRun(c: Conf, f: string)
    requires !Terminal(c.p) && Live(c.rec, c.p)
    ensures var a := Run(At(c, Settled(c.p)), Queue("", f)); var b := Run(c, Queue("", f));
            b.c.p == NoPort || b.c.p == Outside || (Alike(a.c, b.c) && a.c.out == b.c.out && a.rest == b.rest)
  {
    hide Run, Step;
    var q := Queue("", f);
    if c.p.Port? && c.p.v == None {
      if f == "" {
        RunEmpty(c, q);
        RunEmpty(At(c, Settled(c.p)), q);
      } else {
        SettledByte(c, q);
      }
    }
  }

  lemma SettledByte(c: Conf, q: Queue)
    requires c.p.Port? && c.p.v == None && !q.Empty()
    ensures Run(c, q).c.p in {NoPort, Outside} || Run(At(c, Settled(c.p)), q) == Run(c, q)
  {
    hide Run, Print;
    var mv := Step(c.rec, c.p, q.Head(), q.Loud());
    if mv.took {
      StepAlike(c, At(c, Settled(c.p)), q);
    } else {
      RunRefused(c, q, mv);
    }
  }

  /** A call that finds what the last call pushed back, and a new fragment, ends where the machine
      ends that was never interrupted. */
  lemma NextFragment(c: Conf, next: RequestParserState, f: string)
    requires Live(c.rec, c.p) && !Terminal(c.p) && (c.p.Spaces? ==> c.p.next == next)
    ensures var start := Conf(c.rec, Resumed(StateOf(c.p), next), "");
            var a := Run(start, Queue(PushedBack(c.p), f));
            var b := Run(c, Queue("", f));
            b.c.p == NoPort || b.c.p == Outside || (Alike(a.c, b.c) && b.c.out == c.out + a.c.out && a.rest == b.rest)
  {
    hide Run, Step, StateOf, PushedBack;
    var blank := Conf(c.rec, c.p, "");
    assert c.out + "" == c.out;
    Rehearse(blank, next, f);
    SettledRun(blank, f);
    RunShift(blank, Queue("", f), c.out);
  }

  function Whole(text: string): Outcome {
    Run(Conf(FRESH, Start, ""), Queue("", text))
  }

  /** Text that the parser treats alike however it is cut. */
  predicate Regular(r: Outcome) {
    r.c.p != Outside && r.c.p != NoPort && r.c.p != NoHost
  }

  /** An error is reported where the machine rejects, and only there. */
  ghost predicate Reported(rec: Rec, p: Place) {
    p == Outside || (rec.state == Ok) == !(p.Rejected? || p.NoPort?)
  }

  lemma WordReported(rec: Rec, t: Token, i: nat, b: char, loud: string)
    requires rec.state == Ok
    ensures var mv := WordStep(rec, t, i, b, loud); Reported(mv.rec, mv.p)
  {
    hide Text;
  }

  lemma HostReported(rec: Rec, a: bool, h: string, b: char, loud: string)
    requires rec.state == Ok
    ensures var mv := HostStep(rec, a, h, b, loud); Reported(mv.rec, mv.p)
  {
  }

  lemma StepReported(rec: Rec, p: Place, b: char, loud: string)
    requires rec.state == Ok && !Terminal(p)
    ensures var mv := Step(rec, p, b, loud); Reported(mv.rec, mv.p)
  {
    hide Text, Print, WordStep, HostStep;
    match p {
      case Spaces(_) =>
        WordReported(rec, HttpText, 0, b, loud);
        WordReported(rec, VersionText, 0, b, loud);
        HostReported(rec, false, "", b, loud);
      case Word(t, i) => WordReported(rec, t, i, b, loud);
      case HostName(a, h) => HostReported(rec, a, h, b, loud);
      case _ =>
    }
  }

  lemma {:induction false} RunReported(c: Conf, q: Queue)
    requires Reported(c.rec, c.p)
    ensures Reported(Run(c, q).c.rec, Run(c, q).c.p)
    decreases q.Size()
  {
    hide Step;
    if !Terminal(c.p) && !q.Empty() {
      StepReported(c.rec, c.p, q.Head(), q.Loud());
      var mv := Step(c.rec, c.p, q.Head(), q.Loud());
      if mv.took {
        RunReported(Apply(c, mv), q.Tail());
      }
    }
  }

  /** What is known of a run over the text so far. */
  lemma WholeFacts(text: string, f: string)
    ensures var r := Whole(text); var s := Whole(text + f);
            && Live(r.c.rec, r.c.p) && Reported(r.c.rec, r.c.p)
            && (StateOf(r.c.p) == Finished ==> Terminal(r.c.p))
            && (r.c.p == Done ==> StateOf(r.c.p) == Finished)
            && (Terminal(r.c.p) ==> s == Outcome(r.c, r.rest.Push(f)))
            && (!Terminal(r.c.p) ==> s == Run(r.c, Queue("", f)))
  {
    hide Step, Text;
    var c := Conf(FRESH, Start, "");
    RunPush(c, Queue("", text), f);
    RunLive(c, Queue("", text));
    RunReported(c, Queue("", text));
    assert Queue("", text).Push(f) == Queue("", text + f);
    var r := Whole(text);
    if !Terminal(r.c.p) {
      assert r.rest.Push(f) == Queue("", f);
    }
  }

  /** The state of the parser between two fragments, and what it delivered so far. */
  ghost predicate Between(r: Outcome, rd: RequestData, bIn: Buffer, out: string)
    reads rd, rd.host, bIn
  {
    && rd.Fields() == r.c.rec && out == r.c.out
    && rd.parserState == StateOf(r.c.p)
    && (r.c.p.Spaces? ==> rd.next == r.c.p.next)
    && (!Terminal(r.c.p) ==>
          bIn.pending == Queue(PushedBack(r.c.p), "") && Holds(rd.host[..], HostText(r.c)))
    && (r.c.p == Done ==> bIn.pending == r.rest)
  }

  lemma PlaceFacts(c: Conf)
    requires Live(c.rec, c.p) && !Terminal(c.p)
    ensures AtHost(StateOf(c.p)) ==> c.p.HostName? || c.p.Port?
    ensures !AtHost(StateOf(c.p)) ==> HostText(c) == ""
    ensures StateOf(c.p) != Finished
    ensures forall next | c.p.Spaces? ==> c.p.next == next :: Live(c.rec, Resumed(StateOf(c.p), next))
  {
    LongWords();
    hide Text, Print;
  }

  /** The next call may rely on what the last one left. */
  lemma ReadyAgain(r: Outcome, f: string, rd: RequestData, bIn: Buffer, out: string)
    requires Between(r, rd, bIn, out) && Live(r.c.rec, r.c.p) && !Terminal(r.c.p)
    requires Regular(Run(r.c, Queue("", f)))
    ensures var start := Conf(rd.Fields(), Resumed(rd.parserState, rd.next), "");
            var a := Run(start, Queue(PushedBack(r.c.p), f));
            Regular(a) && Ready(a, HostText(r.c), rd)
  {
    hide Run, PushedBack, Resumed;
    PlaceFacts(r.c);
    NextFragment(r.c, rd.next, f);
    var s := Run(r.c, Queue("", f));
    var a := Run(Conf(rd.Fields(), Resumed(rd.parserState, rd.next), ""), Queue(PushedBack(r.c.p), f));
    AlikeFacts(a.c, s.c);
    if AtHost(rd.parserState) {
      HostGrows(r.c, Queue("", f));
    }
  }

  /** One turn of the client: a fragment comes in, the parser runs, the output is sent on. */
  method Deliver(rd: RequestData, bIn: Buffer, bOut: Buffer, fragment: string, ghost r: Outcome, ghost out0: string)
    returns (out: string, spins: bool)
    requires rd.Valid() && bIn.Valid() && bOut.Valid() && Separate(rd, bIn, bOut)
    requires bOut.offered == "" && RESERVE <= bIn.infLimit && bOut.read == bOut.infLimit < bOut.limit
    requires |fragment| <= bIn.limit - bIn.write
    requires BURST * (RESERVE + |fragment|) <= bOut.limit - bOut.infLimit
    modifies rd, rd.host, bIn, bIn.data, bOut, bOut.data
    ensures rd.Valid() && bIn.Valid() && bOut.Valid() && bOut.offered == "" && bOut.read == bOut.infLimit
    ensures old(Between(r, rd, bIn, out0)) && Live(r.c.rec, r.c.p) && !Terminal(r.c.p) ==>
              var s := Run(r.c, Queue("", fragment));
              Regular(s) ==> !spins && Between(s, rd, bIn, out0 + out)
  {
    hide Buffer.Shape, Run, Step, StateOf, PushedBack, Resumed, Queue.Size, HostText, Holds, Live, Ready;
    ghost var s := Run(r.c, Queue("", fragment));
    ghost var going := Between(r, rd, bIn, out0) && Live(r.c.rec, r.c.p) && !Terminal(r.c.p) && Regular(s);
    if going {
      ReadyAgain(r, fragment, rd, bIn, out0);
      NextFragment(r.c, rd.next, fragment);
    }
    bIn.Fill(fragment);
    if going {
      assert "" + fragment == fragment;
      ghost var start := Conf(rd.Fields(), Resumed(rd.parserState, rd.next), "");
      RunBound(start, bIn.pending);
      PushedBackFits(r.c.rec, r.c.p);
      SizeOf(bIn.pending);
      AlikeFacts(Run(start, bIn.pending).c, s.c);
    }
    var _, spinning := CheckRequestInner(rd, bIn, bOut, HostText(r.c));
    spins := spinning;
    out := Drain(bOut);
  }

  /** The client of the source, `client_read`: it stops at an error, and when the parser is done. */
  method FeedLoop(fragments: seq<string>, rd: RequestData, bIn: Buffer, bOut: Buffer)
    returns (out: string, k: nat)
    requires rd.Valid() && Separate(rd, bIn, bOut) && rd.parserState == Method && rd.Fields() == FRESH
    requires Holds(rd.host[..], "")
    requires bIn.Valid() && RESERVE <= bIn.infLimit && bIn.pending == Queue("", "")
    requires bOut.Valid() && bOut.offered == "" && bOut.read == bOut.infLimit < bOut.limit
    requires forall f :: f in fragments ==> |f| <= bIn.limit - bIn.infLimit
    requires forall f :: f in fragments ==> BURST * (RESERVE + |f|) <= bOut.limit - bOut.infLimit
    modifies rd, rd.host, bIn, bIn.data, bOut, bOut.data
    ensures k <= |fragments| && bIn.Valid()
    ensures var r := Whole(Flatten(fragments[..k]));
            && (Regular(r) ==> Between(r, rd, bIn, out))
            && (k < |fragments| ==> Terminal(r.c.p))
  {
    hide Buffer.Shape, Run, Step, StateOf, PushedBack, Text, Whole, Live, HostText, Holds, Separate, Buffer.Valid, Apart;
    out, k := "", 0;
    WholeStart();
    assert fragments[..0] == [];
    var spins := false;
    while k < |fragments| && rd.state == Ok && rd.parserState != Finished && !spins
      invariant k <= |fragments| && rd.Valid()
      invariant bIn.Valid() && bOut.Valid() && bOut.offered == "" && bOut.read == bOut.infLimit
      invariant var r := Whole(Flatten(fragments[..k]));
                && (Regular(r) ==> Between(r, rd, bIn, out))
                && (Regular(r) && !Terminal(r.c.p) ==> !spins)
      decreases |fragments| - k
    {
      ghost var r := Whole(Flatten(fragments[..k]));
      WholeFacts(Flatten(fragments[..k]), fragments[k]);
      FlattenSnoc(fragments[..k], fragments[k]);
      assert fragments[..k + 1] == fragments[..k] + [fragments[k]];
      if Regular(r) && !Terminal(r.c.p) { bIn.NothingFresh(); }
      if bIn.limit - bIn.write < |fragments[k]| {
        break;
      }
      var o, spinning := Deliver(rd, bIn, bOut, fragments[k], r, out);
      out, spins := out + o, spinning;
      k := k + 1;
    }
    WholeFacts(Flatten(fragments[..k]), "");
  }

  lemma WholeStart()
    ensures Whole("") == Outcome(Conf(FRESH, Start, ""), Queue("", ""))
    ensures StateOf(Start) == Method && PushedBack(Start) == "" && HostText(Conf(FRESH, Start, "")) == ""
  {
  }

  /** However a request is cut, the record with its callbacks, the parser state, the output and, once
      the host is known, the bytes that nobody read are those of one run over the whole text. */
  method Feed(fragments: seq<string>) returns (rec: Rec, state: RequestParserState, out: string, left: string)
    ensures var r := Whole(Flatten(fragments));
            Regular(r) ==>
              && rec == r.c.rec && state == StateOf(r.c.p) && out == r.c.out
              && (r.c.p == Done ==> left == r.rest.Text())
  {
    hide Buffer.Shape, Run, Step, StateOf, PushedBack, Text, Whole, Live, HostText, Holds;
    var size := LongestFragment(fragments);
    var room := BURST * (RESERVE + size);
    var rd := new RequestData();
    var bIn := Allocate(RESERVE, RESERVE + size);
    var bOut := Allocate(0, room);
    var k;
    out, k := FeedLoop(fragments, rd, bIn, bOut);
    WholeFacts(Flatten(fragments[..k]), Flatten(fragments[k..]));
    FlattenSplit(fragments, k);
    assert k == |fragments| ==> fragments[..k] == fragments && fragments[k..] == [];
    rec, state := rd.Fields(), rd.parserState;
    left := bIn.Contents() + Flatten(fragments[k..]);
    PushText(bIn.pending, Flatten(fragments[k..]));
  }
}
