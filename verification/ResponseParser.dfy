/** response_parser/responseParser.c: `checkResponseInner`, and a client that feeds it the
    fragments in which a response arrives. */
module ResponseParser {
  import opened Bytes
  import opened Buffers
  import opened ParserUtils
  import opened ResponseMachine
  import opened ResponseLemmas
  import opened ResponseHeaders
  import opened ResponseBody

  ghost function Start(rd: ResponseData, bOut: Buffer, bTransf: Buffer): Conf
    reads rd, bOut, bTransf
  {
    Conf(rd.Fields(), Resumed(rd.parserState, rd.next, rd.Fields()), bOut.offered, bTransf.offered)
  }

  /** The error that `checkResponseInner` reports for the state in which it failed. */
  function ErrorOf(s: ResponseParserState, rec: Rec): ResponseState {
    match s
    case Version => VersionError
    case Status => StatusError
    case BodyNormal => if rec.isChunked then ChunksError else rec.state
    case BodyTransformation => if rec.isChunked then ChunksError else rec.state
    case _ => rec.state
  }

  /** The record and the buffers are those of the place where the run ended. */
  ghost predicate AtPlace(r: Outcome, rec: Rec, rd: ResponseData, bIn: Buffer, bOut: Buffer, bTransf: Buffer)
    reads rd, bIn, bOut, bTransf
  {
    && r.c == Conf(rec, r.c.p, bOut.offered, bTransf.offered)
    && rd.parserState == StateOf(rec, r.c.p)
    && (r.c.p.Spaces? ==> rd.next == r.c.p.next)
    && rd.isBufferEmpty == ((!Terminal(r.c.p) && r.c.p != UntilClose) || r.c.p == NoBody)
    && (if !Terminal(r.c.p) then bIn.pending == Queue(PushedBack(rec, r.c.p), "")
        else r.c.p != NoSize && (r.c.p.Rejected? ==> r.c.p.at in {Version, Status})
             ==> bIn.pending == r.rest)
  }

  ghost predicate AllApart(bIn: Buffer, bOut: Buffer, bTransf: Buffer) {
    Apart(bIn, bOut) && Apart(bIn, bTransf) && Apart(bOut, bTransf)
  }

  /** States are left for good: headers for a body, a body for the end. */
  function Stage(s: ResponseParserState): nat {
    if s == Finished then 0 else if s == BodyNormal || s == BodyTransformation then 1 else 2
  }

  /** The order of the states that may follow each other without consuming a byte. */
  function Rank(s: ResponseParserState): nat {
    match s
    case Version => 3
    case SpaceTransition => 2
    case Headers => 0
    case _ => 1
  }

  /** What one turn of the switch over `parserState` leaves. */
  ghost predicate Turn(r: Outcome, wasEmpty: bool, success: bool,
                       rd: ResponseData, bIn: Buffer, bOut: Buffer, bTransf: Buffer)
    reads rd, bIn, bOut, bTransf
  {
    InScope(r, bIn) && !wasEmpty ==>
      if success then !rd.isBufferEmpty && Run(Start(rd, bOut, bTransf), bIn.pending) == r
      else r.c.p != Done &&
           AtPlace(r, if rd.isBufferEmpty then rd.Fields()
                      else rd.Fields().(state := ErrorOf(rd.parserState, rd.Fields())),
                   rd, bIn, bOut, bTransf)
  }

  method SpaceState(rd: ResponseData, bIn: Buffer, bOut: Buffer, bTransf: Buffer)
    returns (success: bool)
    requires rd.Valid() && bIn.Valid() && bOut.Valid() && bTransf.Valid() && AllApart(bIn, bOut, bTransf)
    requires rd.parserState == SpaceTransition
    modifies rd, bIn, bIn.data, bOut, bOut.data
    ensures rd.Valid() && bIn.Valid() && bOut.Valid() && bOut.read == old(bOut.read)
    ensures success ==> Stage(rd.parserState) == 2 && Rank(rd.parserState) < Rank(old(rd.parserState))
    ensures success ==> bIn.pending.Size() <= old(bIn.pending).Size()
    ensures Turn(Run(old(Start(rd, bOut, bTransf)), old(bIn.pending)), old(rd.isBufferEmpty), success,
                 rd, bIn, bOut, bTransf)
  {
    hide Buffer.Shape, Run, Step, Queue.Size;
    success := CheckSpaces(rd, bIn, bOut, bTransf.offered);
    if success {
      rd.parserState := rd.next;
    }
  }

  method StartLineState(rd: ResponseData, bIn: Buffer, bOut: Buffer, bTransf: Buffer)
    returns (success: bool)
    requires rd.Valid() && bIn.Valid() && bOut.Valid() && bTransf.Valid() && AllApart(bIn, bOut, bTransf)
    requires rd.parserState == Version || rd.parserState == Status
    modifies rd, bIn, bIn.data, bOut, bOut.data
    ensures rd.Valid() && bIn.Valid() && bOut.Valid() && bOut.read == old(bOut.read)
    ensures success ==> Stage(rd.parserState) == 2 && Rank(rd.parserState) < Rank(old(rd.parserState))
    ensures success ==> bIn.pending.Size() <= old(bIn.pending).Size()
    ensures Turn(Run(old(Start(rd, bOut, bTransf)), old(bIn.pending)), old(rd.isBufferEmpty), success,
                 rd, bIn, bOut, bTransf)
  {
    hide Buffer.Shape, Run, Step, PushedBack, Queue.Size, Buffer.Valid, InScope, BodyStart;
    if rd.parserState == Version {
      success := ExtractHttpVersion(rd, bIn, bOut, bTransf.offered);
      if success {
        rd.parserState, rd.next := SpaceTransition, Status;
      }
    } else {
      success := ReadNumber(StatusNumber, rd, bIn, bOut, bTransf.offered);
      if success {
        rd.parserState := Headers;
      }
    }
  }

  /** The states that read a header value: unless the input ran out, the headers go on. */
  method ValueState(rd: ResponseData, bIn: Buffer, bOut: Buffer, bTransf: Buffer)
    returns (success: bool)
    requires rd.Valid() && bIn.Valid() && bOut.Valid() && bTransf.Valid() && AllApart(bIn, bOut, bTransf)
    requires rd.parserState in {LengthCheck, EncodingCheck, ChunkedCheck, ConnectionCheck, TypeCheck}
    modifies rd, bIn, bIn.data, bOut, bOut.data
    ensures rd.Valid() && bIn.Valid() && bOut.Valid() && bOut.read == old(bOut.read)
    ensures success ==> Stage(rd.parserState) == 2 && Rank(rd.parserState) < Rank(old(rd.parserState))
    ensures success ==> bIn.pending.Size() <= old(bIn.pending).Size()
    ensures Turn(Run(old(Start(rd, bOut, bTransf)), old(bIn.pending)), old(rd.isBufferEmpty), success,
                 rd, bIn, bOut, bTransf)
  {
    hide Buffer.Shape, Run, Step, PushedBack, Queue.Size, InScope, Live, Buffer.Valid, ErrorOf;
    ghost var tr := bTransf.offered;
    var ok;
    match rd.parserState {
      case LengthCheck => ok := ReadNumber(LengthNumber, rd, bIn, bOut, tr);
      case EncodingCheck => ok := CheckEncoding(rd, bIn, bOut, tr);
      case ChunkedCheck => ok := CheckChunked(rd, bIn, bOut, tr);
      case ConnectionCheck => ok := CheckConnection(rd, bIn, bOut, tr);
      case TypeCheck => ok := true;
    }
    success := ok || !rd.isBufferEmpty;
    if success {
      rd.parserState := Headers;
    }
  }

  /** The header state: on to a value, or to the body. */
  method HeadersState(rd: ResponseData, bIn: Buffer, bOut: Buffer, bTransf: Buffer)
    returns (success: bool)
    requires rd.Valid() && bIn.Valid() && bOut.Valid() && bTransf.Valid() && AllApart(bIn, bOut, bTransf)
    requires rd.parserState == Headers
    modifies rd, bIn, bIn.data, bOut, bOut.data
    ensures rd.Valid() && bIn.Valid() && bOut.Valid() && bOut.read == old(bOut.read)
    ensures success ==> rd.parserState in {SpaceTransition, BodyNormal, BodyTransformation}
    ensures success ==> bIn.pending.Size() < old(bIn.pending).Size()
    ensures Turn(Run(old(Start(rd, bOut, bTransf)), old(bIn.pending)), old(rd.isBufferEmpty), success,
                 rd, bIn, bOut, bTransf)
  {
    hide Buffer.Shape, Run, Step, PushedBack, Queue.Size;
    success := CheckHeaders(rd, bIn, bOut, bTransf.offered);
    if success {
      if rd.next == Finished {
        rd.parserState := if rd.withTransf then BodyTransformation else BodyNormal;
      } else {
        rd.parserState := SpaceTransition;
      }
    }
  }

  lemma BodyPlace(rec: Rec, p: Place)
    ensures p.NoSize? ==> StateOf(rec, p) == BodyState(rec)
    ensures p.Rejected? ==> StateOf(rec, p) == p.at
    ensures StateOf(rec, Done) == StateOf(rec, NoBody) == Finished
    ensures p.Spaces? ==> StateOf(rec, p) == SpaceTransition
  {
  }

  /** The state of a body that is forwarded. Its failures are final for this call. */
  method NormalBodyState(rd: ResponseData, bIn: Buffer, bOut: Buffer, bTransf: Buffer)
    returns (success: bool)
    requires rd.Valid() && bIn.Valid() && bOut.Valid() && bTransf.Valid() && AllApart(bIn, bOut, bTransf)
    requires rd.parserState == BodyNormal
    modifies rd, bIn, bIn.data, bOut, bOut.data
    ensures rd.Valid() && bIn.Valid() && bOut.Valid() && bOut.read == old(bOut.read)
    ensures success ==> rd.parserState == Finished
    ensures Turn(Run(old(Start(rd, bOut, bTransf)), old(bIn.pending)), old(rd.isBufferEmpty), success,
                 rd, bIn, bOut, bTransf)
  {
    hide Buffer.Shape, Run, Step, PushedBack, Queue.Size, StateOf, Rank, Live, Buffer.Valid;
    ghost var r := Run(Start(rd, bOut, bTransf), bIn.pending);
    RunTerminal(Start(rd, bOut, bTransf), bIn.pending);
    success := ExtractBody(rd, bIn, bOut, bTransf.offered);
    BodyPlace(rd.Fields(), r.c.p);
    BodyPlace(rd.Fields().(state := ChunksError), r.c.p);
    if success {
      rd.parserState := Finished;
      RunTerminal(Start(rd, bOut, bTransf), bIn.pending);
    }
  }

  /** The state of a body that is transformed. Its failures are final for this call. */
  method TransfBodyState(rd: ResponseData, bIn: Buffer, bOut: Buffer, bTransf: Buffer)
    returns (success: bool)
    requires rd.Valid() && bIn.Valid() && bOut.Valid() && bTransf.Valid() && AllApart(bIn, bOut, bTransf)
    requires rd.parserState == BodyTransformation
    modifies rd, bIn, bIn.data, bTransf, bTransf.data
    ensures rd.Valid() && bIn.Valid() && bTransf.Valid() && bTransf.read == old(bTransf.read)
    ensures success ==> rd.parserState == Finished
    ensures Turn(Run(old(Start(rd, bOut, bTransf)), old(bIn.pending)), old(rd.isBufferEmpty), success,
                 rd, bIn, bOut, bTransf)
  {
    hide Buffer.Shape, Run, Step, PushedBack, Queue.Size, StateOf, Rank, Buffer.Valid;
    ghost var r := Run(Start(rd, bOut, bTransf), bIn.pending);
    success := ExtractBodyTransf(rd, bIn, bTransf, bOut.offered);
    BodyPlace(rd.Fields(), r.c.p);
    BodyPlace(rd.Fields().(state := ChunksError), r.c.p);
    if success {
      rd.parserState := Finished;
      RunTerminal(Start(rd, bOut, bTransf), bIn.pending);
    }
  }


  ghost predicate Progress(s0: ResponseParserState, n0: nat, s1: ResponseParserState, n1: nat) {
    || Stage(s1) < Stage(s0)
    || (Stage(s1) == Stage(s0) && (n1 < n0 || (n1 == n0 && Rank(s1) < Rank(s0))))
  }

  /** One turn of the switch over `parserState`. */
  method OneTurn(rd: ResponseData, bIn: Buffer, bOut: Buffer, bTransf: Buffer)
    returns (success: bool, active: bool)
    requires rd.Valid() && bIn.Valid() && bOut.Valid() && bTransf.Valid() && AllApart(bIn, bOut, bTransf)
    modifies rd, bIn, bIn.data, bOut, bOut.data, bTransf, bTransf.data
    ensures rd.Valid() && bIn.Valid() && bOut.Valid() && bTransf.Valid()
    ensures bOut.read == old(bOut.read) && bTransf.read == old(bTransf.read)
    ensures success && active ==>
              Progress(old(rd.parserState), old(bIn.pending).Size(), rd.parserState, bIn.pending.Size())
    ensures !active ==>
              success && rd.parserState == old(rd.parserState) == Finished && bIn.pending == old(bIn.pending)
    ensures Turn(Run(old(Start(rd, bOut, bTransf)), old(bIn.pending)), old(rd.isBufferEmpty), success,
                 rd, bIn, bOut, bTransf)
  {
    hide Buffer.Shape, Run, Step, Queue.Size, AtPlace, Resumed, ErrorOf;
    success, active := true, true;
    match rd.parserState {
      case SpaceTransition => success := SpaceState(rd, bIn, bOut, bTransf);
      case Version => success := StartLineState(rd, bIn, bOut, bTransf);
      case Status => success := StartLineState(rd, bIn, bOut, bTransf);
      case Headers => success := HeadersState(rd, bIn, bOut, bTransf);
      case BodyNormal => success := NormalBodyState(rd, bIn, bOut, bTransf);
      case BodyTransformation => success := TransfBodyState(rd, bIn, bOut, bTransf);
      case Finished => active := false;
      case _ => success := ValueState(rd, bIn, bOut, bTransf);
    }
  }

  /** `checkResponseInner`. One call does with the pending bytes what the machine does with them,
      and suspends where the machine stops. It terminates on every input. */
  method CheckResponseInner(rd: ResponseData, bIn: Buffer, bOut: Buffer, bTransf: Buffer)
    returns (success: bool)
    requires rd.Valid() && bIn.Valid() && bOut.Valid() && bTransf.Valid() && AllApart(bIn, bOut, bTransf)
    modifies rd, bIn, bIn.data, bOut, bOut.data, bTransf, bTransf.data
    ensures rd.Valid() && bIn.Valid() && bOut.Valid() && bTransf.Valid()
    ensures bOut.read == old(bOut.read) && bTransf.read == old(bTransf.read)
    ensures var r := Run(old(Start(rd, bOut, bTransf)), old(bIn.pending));
            InScope(r, bIn) ==>
              success == (r.c.p == Done) && AtPlace(r, rd.Fields(), rd, bIn, bOut, bTransf)
  {
    hide Buffer.Shape, Run, Step, PushedBack, StateOf, Queue.Size, Resumed, ErrorOf, Stage, Rank;
    ghost var r := Run(Start(rd, bOut, bTransf), bIn.pending);
    ghost var scoped := InScope(r, bIn);
    success := true;
    var active := true;
    rd.isBufferEmpty := false;
    while success && active
      invariant rd.Valid() && bIn.Valid() && bOut.Valid() && bTransf.Valid()
      invariant bOut.read == old(bOut.read) && bTransf.read == old(bTransf.read)
      invariant scoped ==>
                  if success then
                    && !rd.isBufferEmpty && Run(Start(rd, bOut, bTransf), bIn.pending) == r
                    && (!active ==> rd.parserState == Finished)
                  else
                    Turn(r, false, false, rd, bIn, bOut, bTransf)
      decreases success, Stage(rd.parserState), bIn.pending.Size(), Rank(rd.parserState), active
    {
      success, active := OneTurn(rd, bIn, bOut, bTransf);
    }
    if success {
      FinishedRun(Start(rd, bOut, bTransf), rd.next, bIn.pending);
    } else if !rd.isBufferEmpty {
      rd.state := ErrorOf(rd.parserState, rd.Fields());
    }
  }

  lemma FinishedRun(c: Conf, next: ResponseParserState, q: Queue)
    ensures Resumed(Finished, next, c.rec) == Done && StateOf(c.rec, Done) == Finished
    ensures c.p == Done ==> Run(c, q) == Outcome(c, q)
  {
  }
}
