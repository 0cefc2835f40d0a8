/** response_parser/responseParser.c: counted and chunked bodies, with and without transformation. */
module ResponseBody {
  import opened Bytes
  import opened Buffers
  import opened Numbers
  import opened ParserUtils
  import opened ResponseMachine
  import opened ResponseLemmas
  import opened ResponseHeaders

  /** The body goes to `dst`: the output, or the transformation when there is one. */
  ghost function ConfTo(rec: Rec, p: Place, dst: string, tr: string): Conf {
    if rec.withTransf then Conf(rec, p, tr, dst) else Conf(rec, p, dst, tr)
  }

  ghost predicate SuspendedTo(r: Outcome, rec: Rec, dst: string, tr: string, pending: Queue) {
    if rec.withTransf then Suspended(r, BodyTransformation, rec, tr, dst, pending)
    else Suspended(r, BodyNormal, rec, dst, tr, pending)
  }

  /** A malformed chunk: nothing is said about what stays in the buffer. */
  ghost predicate BadChunkAt(r: Outcome, rec: Rec, dst: string, tr: string) {
    && (r.c.p == NoSize || r.c.p == Rejected(BodyState(rec)))
    && r.c == ConfTo(rec.(state := ChunksError), r.c.p, dst, tr)
  }

  /** What one part of the chunk loop leaves; `p` is where it goes on. */
  ghost predicate ChunkPart(r: Outcome, wasEmpty: bool, ok: bool, p: Place,
                            rd: ResponseData, bIn: Buffer, dst: string, tr: string)
    reads rd, bIn
  {
    && (wasEmpty ==> rd.isBufferEmpty)
    && (InScope(r, bIn) && !wasEmpty ==>
          if ok then
            !rd.isBufferEmpty && Run(ConfTo(rd.Fields(), p, dst, tr), bIn.pending) == r
          else if rd.isBufferEmpty then SuspendedTo(r, rd.Fields(), dst, tr, bIn.pending)
          else BadChunkAt(r, rd.Fields(), dst, tr))
  }

  /** Puts a number in front of what was just pushed back. */
  method PushBackSize(size: nat, b: Buffer)
    requires b.Valid()
    modifies b, b.data
    ensures b.Valid()
    ensures var q := old(b.pending);
            (q.held != "" || q.Empty()) && |q.held| + |Print(16, size)| <= b.infLimit ==>
              b.pending == Queue(Print(16, size) + q.held, q.wire)
  {
    hide Buffer.Shape, Print;
    if b.pending.held != "" || b.pending.Empty() { b.HeldPosition(); }
    WriteNumberReverse(16, size, b);
  }

  lemma SizePushedBack(rec: Rec, v: nat, some: bool)
    requires v < INT_LIMIT && (!some ==> v == 0)
    ensures var p := Digits(ChunkSize, if some then Some(v) else None);
            && PushedBack(rec, p) == "" + Print(16, v) && |"" + Print(16, v)| <= 8
            && StateOf(rec, p) == BodyState(rec)
  {
    PrintFits(16, v);
    assert "" + Print(16, v) == Print(16, v);
  }

  lemma CrPushedBack(rec: Rec)
    requires 0 <= rec.bodyLength < INT_LIMIT
    ensures PushedBack(rec, SizeCr) == Print(16, rec.bodyLength) + "\r"
    ensures PushedBack(rec, Payload) == Print(16, rec.bodyLength) + "\r\n"
    ensures |Print(16, rec.bodyLength)| <= 8
    ensures StateOf(rec, SizeCr) == StateOf(rec, Payload) == BodyState(rec)
  {
    PrintFits(16, rec.bodyLength);
  }

  /** The chunk size of `extractChunkedBody`. */
  method ReadSize(rd: ResponseData, bIn: Buffer, bOut: Buffer, ghost tr: string) returns (ok: bool)
    requires bIn.Valid() && bOut.Valid() && Apart(bIn, bOut) && !rd.withTransf
    modifies rd`isBufferEmpty, rd`bodyLength, bIn, bIn.data, bOut, bOut.data
    ensures bIn.Valid() && bOut.Valid() && bOut.read == old(bOut.read)
    ensures ok ==> rd.bodyLength >= 0 && bIn.pending.Size() < old(bIn.pending).Size()
    ensures ok ==> !bIn.pending.Empty() && !IsDigit(16, bIn.pending.Head())
    ensures var r := Run(ConfTo(old(rd.Fields()), Digits(ChunkSize, None), old(bOut.offered), tr), old(bIn.pending));
            && (old(rd.isBufferEmpty) ==> rd.isBufferEmpty)
            && (InScope(r, bIn) && !old(rd.isBufferEmpty) ==>
                  if ok then
                    && !rd.isBufferEmpty && rd.bodyLength < INT_LIMIT
                    && Run(ConfTo(old(rd.Fields()), Digits(ChunkSize, Some(rd.bodyLength)), bOut.offered, tr),
                           bIn.pending) == r
                  else if rd.isBufferEmpty then SuspendedTo(r, rd.Fields(), bOut.offered, tr, bIn.pending)
                  else BadChunkAt(r, rd.Fields(), bOut.offered, tr))
  {
    hide Buffer.Shape, Queue.Drop, Queue.LoudTake, Run, Step, Print, Value;
    ghost var c, q := Conf(rd.Fields(), Digits(ChunkSize, None), bOut.offered, tr), bIn.pending;
    ghost var e := DigitsEnd(16, q.Text(), 0);
    NumberOutcome(c, ChunkSize, q);
    ValueNone(16, q.Text());
    q.DropNone();
    if e < q.Size() { q.DropStep(e); }
    var number, starved;
    ok, number, starved := GetNumber(16, bIn, bOut, "");
    if starved {
      rd.isBufferEmpty := true;
      if e == q.Size() && Value(16, q.Text(), e) < INT_LIMIT {
        SizePushedBack(rd.Fields(), Value(16, q.Text(), e), e > 0);
      }
      return;
    }
    if !ok {
      assert c.out + "" == c.out;
      return;
    }
    rd.bodyLength := number;
  }

  /** The chunk size of `extractChunkedBodyTransf`. */
  method SimpleReadSize(rd: ResponseData, bIn: Buffer, ghost dst: string, ghost tr: string)
    returns (ok: bool)
    requires bIn.Valid() && rd.withTransf
    modifies rd`isBufferEmpty, rd`bodyLength, bIn, bIn.data
    ensures bIn.Valid()
    ensures ok ==> rd.bodyLength >= 0 && bIn.pending.Size() < old(bIn.pending).Size()
    ensures ok ==> !bIn.pending.Empty() && !IsDigit(16, bIn.pending.Head())
    ensures var r := Run(ConfTo(old(rd.Fields()), Digits(ChunkSize, None), dst, tr), old(bIn.pending));
            && (old(rd.isBufferEmpty) ==> rd.isBufferEmpty)
            && (InScope(r, bIn) && !old(rd.isBufferEmpty) ==>
                  if ok then
                    && !rd.isBufferEmpty && rd.bodyLength < INT_LIMIT
                    && Run(ConfTo(old(rd.Fields()), Digits(ChunkSize, Some(rd.bodyLength)), dst, tr), bIn.pending) == r
                  else if rd.isBufferEmpty then SuspendedTo(r, rd.Fields(), dst, tr, bIn.pending)
                  else BadChunkAt(r, rd.Fields(), dst, tr))
  {
    hide Buffer.Shape, Queue.Drop, Queue.LoudTake, Run, Step, Print, Value;
    ghost var c, q := Conf(rd.Fields(), Digits(ChunkSize, None), tr, dst), bIn.pending;
    ghost var e := DigitsEnd(16, q.Text(), 0);
    NumberOutcome(c, ChunkSize, q);
    ValueNone(16, q.Text());
    q.DropNone();
    assert c.out + "" == c.out;
    if e < q.Size() { q.DropStep(e); }
    var number, starved;
    ok, number, starved := SimpleGetHexNumber(bIn, "");
    if starved {
      rd.isBufferEmpty := true;
      if e == q.Size() && Value(16, q.Text(), e) < INT_LIMIT {
        SizePushedBack(rd.Fields(), Value(16, q.Text(), e), e > 0);
      }
      return;
    }
    if !ok {
      return;
    }
    rd.bodyLength := number;
  }

  /** The CR LF after the chunk size, in `extractChunkedBody`. */
  method ReadSizeEnd(rd: ResponseData, bIn: Buffer, bOut: Buffer, ghost rec0: Rec, ghost tr: string)
    returns (ok: bool)
    requires bIn.Valid() && bOut.Valid() && Apart(bIn, bOut) && !rd.withTransf
    requires !bIn.pending.Empty() && !IsDigit(16, bIn.pending.Head())
    requires 0 <= rd.bodyLength && rd.Fields() == rec0.(bodyLength := rd.bodyLength)
    modifies rd`isBufferEmpty, bIn, bIn.data, bOut, bOut.data
    ensures bIn.Valid() && bOut.Valid() && bOut.read == old(bOut.read)
    ensures ok ==> bIn.pending.Size() <= old(bIn.pending).Size()
    ensures rd.bodyLength < INT_LIMIT ==>
              ChunkPart(Run(ConfTo(rec0, Digits(ChunkSize, Some(rd.bodyLength)), old(bOut.offered), tr), old(bIn.pending)),
                        old(rd.isBufferEmpty), ok, DataStart(rd.Fields()), rd, bIn, bOut.offered, tr)
  {
    hide Buffer.Shape, Queue.Drop, Queue.LoudTake, Run, Step, Print, PushedBack, StateOf;
    ghost var c, q := Conf(rec0, Digits(ChunkSize, Some(rd.bodyLength)), bOut.offered, tr), bIn.pending;
    SizeCrlf(c, rd.bodyLength, q);
    var starved;
    ok, starved := MatchFormat("\r\n", bIn, bOut, "");
    if starved {
      rd.isBufferEmpty := true;
    }
    if !ok {
      if rd.isBufferEmpty {
        if rd.bodyLength < INT_LIMIT { CrPushedBack(rd.Fields()); }
        assert "" + "\r\n"[..1] == "\r";
        PushBackSize(rd.bodyLength, bIn);
      }
    }
  }

  /** The CR LF after the chunk size, in `extractChunkedBodyTransf`. */
  method SimpleReadSizeEnd(rd: ResponseData, bIn: Buffer, ghost dst: string, ghost rec0: Rec, ghost tr: string)
    returns (ok: bool)
    requires bIn.Valid() && rd.withTransf
    requires !bIn.pending.Empty() && !IsDigit(16, bIn.pending.Head())
    requires 0 <= rd.bodyLength && rd.Fields() == rec0.(bodyLength := rd.bodyLength)
    modifies rd`isBufferEmpty, bIn, bIn.data
    ensures bIn.Valid()
    ensures ok ==> bIn.pending.Size() <= old(bIn.pending).Size()
    ensures rd.bodyLength < INT_LIMIT ==>
              ChunkPart(Run(ConfTo(rec0, Digits(ChunkSize, Some(rd.bodyLength)), dst, tr), old(bIn.pending)),
                        old(rd.isBufferEmpty), ok, DataStart(rd.Fields()), rd, bIn, dst, tr)
  {
    hide Buffer.Shape, Queue.Drop, Queue.LoudTake, Run, Step, Print, PushedBack, StateOf;
    ghost var c, q := Conf(rec0, Digits(ChunkSize, Some(rd.bodyLength)), tr, dst), bIn.pending;
    SizeCrlf(c, rd.bodyLength, q);
    assert c.out + "" == c.out;
    var starved;
    ok, starved := SimpleMatchFormat("\r\n", bIn, "");
    if starved {
      rd.isBufferEmpty := true;
    }
    if !ok {
      if rd.isBufferEmpty {
        if rd.bodyLength < INT_LIMIT { CrPushedBack(rd.Fields()); }
        assert "" + "\r\n"[..1] == "\r";
        PushBackSize(rd.bodyLength, bIn);
      }
    }
  }

  /** The chunk data, in both modes: `bDst` is the output or the transformation. */
  method ReadData(rd: ResponseData, bIn: Buffer, bDst: Buffer, ghost tr: string) returns (ok: bool)
    requires bIn.Valid() && bDst.Valid() && Apart(bIn, bDst) && 0 <= rd.bodyLength
    modifies rd`isBufferEmpty, rd`bodyLength, bIn, bIn.data, bDst, bDst.data
    ensures bIn.Valid() && bDst.Valid() && bDst.read == old(bDst.read)
    ensures ok ==> rd.bodyLength == 0 && bIn.pending.Size() <= old(bIn.pending).Size()
    ensures old(rd.bodyLength) < INT_LIMIT ==>
              ChunkPart(Run(ConfTo(old(rd.Fields()), DataStart(old(rd.Fields())), old(bDst.offered), tr), old(bIn.pending)),
                        old(rd.isBufferEmpty), ok, DataEnd(old(rd.bodyLength) == 0, 0), rd, bIn, bDst.offered, tr)
  {
    hide Buffer.Shape, Queue.Drop, Queue.LoudTake, Run, Step, Print, PushedBack, StateOf;
    ghost var c := ConfTo(rd.Fields(), DataStart(rd.Fields()), bDst.offered, tr);
    ghost var q, size := bIn.pending, rd.bodyLength;
    ghost var n := if size <= q.Size() then size else q.Size();
    q.DropNone();
    if size > 0 {
      BodyRun(c, q, n);
    }
    var left, starved;
    ok, left, starved := WriteToTransfBufWithZero(bIn, bDst, rd.bodyLength);
    rd.bodyLength := left;
    assert c.out + "" == c.out && c.transf + "" == c.transf;
    if starved {
      rd.isBufferEmpty := true;
    }
    if !ok {
      bIn.EmptyAtLimit();
      RunEmpty(AfterBytes(c, n, q.LoudTake(n)), q.Drop(n));
      if size < INT_LIMIT { CrPushedBack(rd.Fields()); }
      if rd.bodyLength > 0 {
        assert "\r\n"[..2] + bIn.pending.held == "\r\n";
        WriteToBufReverse("\r\n", bIn, 2);
        PushBackSize(rd.bodyLength, bIn);
      }
    }
  }

  lemma EndPushedBack(rec: Rec, last: bool, n: nat)
    requires n < 2
    ensures PushedBack(rec, DataEnd(last, n)) ==
            (if last then "0\r\n" else "1\r\n1") + ("" + "\r\n"[..n])
    ensures StateOf(rec, DataEnd(last, n)) == BodyState(rec)
  {
  }

  /** The fake chunk that `extractChunkedBody` pushes back when the CR LF after the data is not
      there. The source does so for a malformed end too. */
  method PushBackFake(chunkLength: int, b: Buffer)
    requires b.Valid()
    modifies b, b.data
    ensures b.Valid()
    ensures var q := old(b.pending);
            (q.held != "" || q.Empty()) && |q.held| + 4 <= b.infLimit ==>
              b.pending == Queue((if chunkLength > 0 then "1\r\n1" else "0\r\n") + q.held, q.wire)
  {
    hide Buffer.Shape;
    if b.pending.held != "" || b.pending.Empty() { b.HeldPosition(); }
    var prefix := if chunkLength > 0 then "1\r\n1" else "0\r\n";
    assert prefix[..|prefix|] == prefix;
    WriteToBufReverse(prefix, b, |prefix|);
  }

  /** The CR LF after the chunk data, in `extractChunkedBody`. */
  method ReadDataEnd(rd: ResponseData, bIn: Buffer, bOut: Buffer, chunkLength: nat, ghost tr: string)
    returns (ok: bool)
    requires bIn.Valid() && bOut.Valid() && Apart(bIn, bOut) && !rd.withTransf
    modifies rd`isBufferEmpty, bIn, bIn.data, bOut, bOut.data
    ensures bIn.Valid() && bOut.Valid() && bOut.read == old(bOut.read)
    ensures ok ==> bIn.pending.Size() <= old(bIn.pending).Size()
    ensures ChunkPart(Run(ConfTo(rd.Fields(), DataEnd(chunkLength == 0, 0), old(bOut.offered), tr), old(bIn.pending)),
                      old(rd.isBufferEmpty), ok, AfterData(chunkLength == 0), rd, bIn, bOut.offered, tr)
  {
    hide Buffer.Shape, Queue.Drop, Queue.LoudTake, Run, Step, Print, PushedBack, StateOf;
    ghost var last := chunkLength == 0;
    ghost var c, q := Conf(rd.Fields(), DataEnd(last, 0), bOut.offered, tr), bIn.pending;
    ghost var n := MatchEnd("\r\n", q.Text(), 0);
    DataCrlf(c, last, q);
    var starved;
    ok, starved := MatchFormat("\r\n", bIn, bOut, "");
    if starved {
      rd.isBufferEmpty := true;
    }
    if !ok {
      EndPushedBack(rd.Fields(), last, n);
      PushBackFake(chunkLength, bIn);
    }
  }

  /** The CR LF after the chunk data, in `extractChunkedBodyTransf`. */
  method SimpleReadDataEnd(rd: ResponseData, bIn: Buffer, chunkLength: nat, ghost dst: string, ghost tr: string)
    returns (ok: bool)
    requires bIn.Valid() && rd.withTransf
    modifies rd`isBufferEmpty, bIn, bIn.data
    ensures bIn.Valid()
    ensures ok ==> bIn.pending.Size() <= old(bIn.pending).Size()
    ensures ChunkPart(Run(ConfTo(rd.Fields(), DataEnd(chunkLength == 0, 0), dst, tr), old(bIn.pending)),
                      old(rd.isBufferEmpty), ok, AfterData(chunkLength == 0), rd, bIn, dst, tr)
  {
    hide Buffer.Shape, Queue.Drop, Queue.LoudTake, Run, Step, Print, PushedBack, StateOf;
    ghost var last := chunkLength == 0;
    ghost var c, q := Conf(rd.Fields(), DataEnd(last, 0), tr, dst), bIn.pending;
    ghost var n := MatchEnd("\r\n", q.Text(), 0);
    DataCrlf(c, last, q);
    assert c.out + "" == c.out;
    var starved;
    ok, starved := SimpleMatchFormat("\r\n", bIn, "");
    if starved {
      rd.isBufferEmpty := true;
    }
    if !ok {
      EndPushedBack(rd.Fields(), last, n);
      PushBackFake(chunkLength, bIn);
    }
  }

  /** What reading a body leaves. `isBufferEmpty` stays down while a body that ends with the
      connection goes on, and goes up for a response without a body. */
  ghost predicate BodyRead(r: Outcome, ok: bool, rd: ResponseData, dst: string, tr: string, pending: Queue)
    reads rd
  {
    && ok == (r.c.p == Done)
    && if r.c.p.Rejected? || r.c.p.NoSize? then
         rd.isChunked && !rd.isBufferEmpty && BadChunkAt(r, rd.Fields(), dst, tr)
       else if Terminal(r.c.p) then
         && r == Outcome(ConfTo(rd.Fields(), r.c.p, dst, tr), pending)
         && rd.isBufferEmpty == (r.c.p == NoBody)
         && (r.c.p == NoBody ==> rd.parserState == Finished)
       else
         && rd.isBufferEmpty == (r.c.p != UntilClose)
         && (r.c.p == UntilClose ==> !rd.isChunked)
         && SuspendedTo(r, rd.Fields(), dst, tr, pending)
  }

  /** `extractChunkedBody`. Every turn of the loop consumes at least one byte. */
  method ExtractChunkedBody(rd: ResponseData, bIn: Buffer, bOut: Buffer, ghost tr: string) returns (ok: bool)
    requires bIn.Valid() && bOut.Valid() && Apart(bIn, bOut) && rd.isChunked && !rd.withTransf
    modifies rd`isBufferEmpty, rd`bodyLength, bIn, bIn.data, bOut, bOut.data
    ensures bIn.Valid() && bOut.Valid() && bOut.read == old(bOut.read)
    ensures var r := Run(ConfTo(old(rd.Fields()), Digits(ChunkSize, None), old(bOut.offered), tr), old(bIn.pending));
            InScope(r, bIn) && !old(rd.isBufferEmpty) ==>
              BodyRead(r, ok, rd, bOut.offered, tr, bIn.pending)
  {
    hide Buffer.Shape, Run, Step, Print, PushedBack, StateOf, Queue.Size;
    ghost var wasEmpty := rd.isBufferEmpty;
    ghost var r := Run(ConfTo(rd.Fields(), Digits(ChunkSize, None), bOut.offered, tr), bIn.pending);
    RunLive(ConfTo(rd.Fields(), Digits(ChunkSize, None), bOut.offered, tr), bIn.pending);
    ok := true;
    var chunkLength := 1;
    while chunkLength > 0
      invariant bIn.Valid() && bOut.Valid() && bOut.read == old(bOut.read)
      invariant rd.isChunked && !rd.withTransf && 0 <= chunkLength
      invariant InScope(r, bIn) && !wasEmpty ==>
                  && !rd.isBufferEmpty
                  && Run(ConfTo(rd.Fields(), AfterData(chunkLength == 0), bOut.offered, tr), bIn.pending) == r
      decreases bIn.pending.Size(), chunkLength > 0
    {
      ghost var rec0 := rd.Fields();
      ok := ReadSize(rd, bIn, bOut, tr);
      if !ok { return; }
      chunkLength := rd.bodyLength;
      ok := ReadSizeEnd(rd, bIn, bOut, rec0, tr);
      if !ok { return; }
      ok := ReadData(rd, bIn, bOut, tr);
      if !ok { return; }
      ok := ReadDataEnd(rd, bIn, bOut, chunkLength, tr);
      if !ok { return; }
    }
    RunTerminal(ConfTo(rd.Fields(), Done, bOut.offered, tr), bIn.pending);
  }

  /** `extractChunkedBodyTransf`. */
  method ExtractChunkedBodyTransf(rd: ResponseData, bIn: Buffer, bTransf: Buffer, ghost tr: string)
    returns (ok: bool)
    requires bIn.Valid() && bTransf.Valid() && Apart(bIn, bTransf) && rd.isChunked && rd.withTransf
    modifies rd`isBufferEmpty, rd`bodyLength, bIn, bIn.data, bTransf, bTransf.data
    ensures bIn.Valid() && bTransf.Valid() && bTransf.read == old(bTransf.read)
    ensures var r := Run(ConfTo(old(rd.Fields()), Digits(ChunkSize, None), old(bTransf.offered), tr), old(bIn.pending));
            InScope(r, bIn) && !old(rd.isBufferEmpty) ==>
              BodyRead(r, ok, rd, bTransf.offered, tr, bIn.pending)
  {
    hide Buffer.Shape, Run, Step, Print, PushedBack, StateOf, Queue.Size;
    ghost var wasEmpty := rd.isBufferEmpty;
    ghost var r := Run(ConfTo(rd.Fields(), Digits(ChunkSize, None), bTransf.offered, tr), bIn.pending);
    RunLive(ConfTo(rd.Fields(), Digits(ChunkSize, None), bTransf.offered, tr), bIn.pending);
    ok := true;
    var chunkLength := 1;
    while chunkLength > 0
      invariant bIn.Valid() && bTransf.Valid() && bTransf.read == old(bTransf.read)
      invariant rd.isChunked && rd.withTransf && 0 <= chunkLength
      invariant InScope(r, bIn) && !wasEmpty ==>
                  && !rd.isBufferEmpty
                  && Run(ConfTo(rd.Fields(), AfterData(chunkLength == 0), bTransf.offered, tr), bIn.pending) == r
      decreases bIn.pending.Size(), chunkLength > 0
    {
      ghost var rec0 := rd.Fields();
      ok := SimpleReadSize(rd, bIn, bTransf.offered, tr);
      if !ok { return; }
      chunkLength := rd.bodyLength;
      ok := SimpleReadSizeEnd(rd, bIn, bTransf.offered, rec0, tr);
      if !ok { return; }
      ok := ReadData(rd, bIn, bTransf, tr);
      if !ok { return; }
      ok := SimpleReadDataEnd(rd, bIn, chunkLength, bTransf.offered, tr);
      if !ok { return; }
    }
    RunTerminal(ConfTo(rd.Fields(), Done, bTransf.offered, tr), bIn.pending);
  }

  /** A counted body, in both modes. */
  method ExtractCountedBody(rd: ResponseData, bIn: Buffer, bDst: Buffer, ghost tr: string) returns (ok: bool)
    requires bIn.Valid() && bDst.Valid() && Apart(bIn, bDst) && !rd.isChunked && rd.bodyLength >= 0
    modifies rd`isBufferEmpty, rd`bodyLength, bIn, bIn.data, bDst, bDst.data
    ensures bIn.Valid() && bDst.Valid() && bDst.read == old(bDst.read)
    ensures var r := Run(ConfTo(old(rd.Fields()), BodyStart(old(rd.Fields())), old(bDst.offered), tr), old(bIn.pending));
            !old(rd.isBufferEmpty) ==> BodyRead(r, ok, rd, bDst.offered, tr, bIn.pending)
  {
    hide Buffer.Shape, Queue.Drop, Queue.LoudTake, Run, Step, Print;
    ghost var c := ConfTo(rd.Fields(), BodyStart(rd.Fields()), bDst.offered, tr);
    ghost var q, size := bIn.pending, rd.bodyLength;
    ghost var n := if size <= q.Size() then size else q.Size();
    q.DropNone();
    if size > 0 {
      BodyRun(c, q, n);
    }
    var left, starved;
    ok, left, starved := WriteToTransfBufWithZero(bIn, bDst, rd.bodyLength);
    rd.bodyLength := left;
    assert c.out + "" == c.out && c.transf + "" == c.transf;
    if starved {
      rd.isBufferEmpty := true;
      RunEmpty(AfterBytes(c, n, q.LoudTake(n)), q.Drop(n));
    } else {
      RunTerminal(ConfTo(rd.Fields(), Done, bDst.offered, tr), bIn.pending);
    }
  }

  /** A body that ends with the connection, in both modes. */
  method ExtractOpenBody(rd: ResponseData, bIn: Buffer, bDst: Buffer, ghost tr: string)
    requires bIn.Valid() && bDst.Valid() && Apart(bIn, bDst)
    requires BodyStart(rd.Fields()) == UntilClose
    modifies rd`isBufferEmpty, bIn, bIn.data, bDst, bDst.data
    ensures bIn.Valid() && bDst.Valid() && bDst.read == old(bDst.read)
    ensures var r := Run(ConfTo(old(rd.Fields()), UntilClose, old(bDst.offered), tr), old(bIn.pending));
            !old(rd.isBufferEmpty) ==> BodyRead(r, false, rd, bDst.offered, tr, bIn.pending)
  {
    hide Buffer.Shape, Run, Step, Print;
    ghost var r := Run(ConfTo(rd.Fields(), UntilClose, bDst.offered, tr), bIn.pending);
    while bIn.CanRead()
      invariant bIn.Valid() && bDst.Valid() && bDst.read == old(bDst.read)
      invariant rd.isBufferEmpty == old(rd.isBufferEmpty)
      invariant Run(ConfTo(rd.Fields(), UntilClose, bDst.offered, tr), bIn.pending) == r
      decreases bIn.pending.Size()
    {
      ghost var c := ConfTo(rd.Fields(), UntilClose, bDst.offered, tr);
      assert c.out + "" == c.out && c.transf + "" == c.transf;
      UntilCloseByte(c, bIn.pending);
      TailSize(bIn.pending);
      var _, starved := ReadAndWriteWithZero(bIn, bDst);
      rd.isBufferEmpty := rd.isBufferEmpty || starved;
    }
    RunEmpty(ConfTo(rd.Fields(), UntilClose, bDst.offered, tr), bIn.pending);
  }

  /** `extractBody`. */
  method ExtractBody(rd: ResponseData, bIn: Buffer, bOut: Buffer, ghost tr: string) returns (ok: bool)
    requires bIn.Valid() && bOut.Valid() && Apart(bIn, bOut) && !rd.withTransf
    modifies rd`isBufferEmpty, rd`bodyLength, rd`parserState, bIn, bIn.data, bOut, bOut.data
    ensures bIn.Valid() && bOut.Valid() && bOut.read == old(bOut.read)
    ensures rd.parserState == if BodyStart(old(rd.Fields())) == NoBody then Finished else old(rd.parserState)
    ensures BodyStart(old(rd.Fields())) == NoBody ==> !ok
    ensures var r := Run(ConfTo(old(rd.Fields()), BodyStart(old(rd.Fields())), old(bOut.offered), tr), old(bIn.pending));
            InScope(r, bIn) && !old(rd.isBufferEmpty) ==> BodyRead(r, ok, rd, bOut.offered, tr, bIn.pending)
  {
    hide Buffer.Shape, Run, Step, Print, PushedBack, StateOf;
    if !rd.isChunked && rd.bodyLength < 0 && rd.status != 200 {
      rd.isBufferEmpty := true;
      rd.parserState := Finished;
      RunTerminal(ConfTo(rd.Fields(), NoBody, bOut.offered, tr), bIn.pending);
      return false;
    }
    if rd.isChunked {
      ok := ExtractChunkedBody(rd, bIn, bOut, tr);
      return;
    }
    if rd.bodyLength >= 0 {
      ok := ExtractCountedBody(rd, bIn, bOut, tr);
      return;
    }
    ExtractOpenBody(rd, bIn, bOut, tr);
    return false;
  }

  /** `extractBodyTransf`. */
  method ExtractBodyTransf(rd: ResponseData, bIn: Buffer, bTransf: Buffer, ghost tr: string)
    returns (ok: bool)
    requires bIn.Valid() && bTransf.Valid() && Apart(bIn, bTransf) && rd.withTransf
    modifies rd`isBufferEmpty, rd`bodyLength, bIn, bIn.data, bTransf, bTransf.data
    ensures bIn.Valid() && bTransf.Valid() && bTransf.read == old(bTransf.read)
    ensures BodyStart(old(rd.Fields())) != NoBody
    ensures var r := Run(ConfTo(old(rd.Fields()), BodyStart(old(rd.Fields())), old(bTransf.offered), tr), old(bIn.pending));
            InScope(r, bIn) && !old(rd.isBufferEmpty) ==> BodyRead(r, ok, rd, bTransf.offered, tr, bIn.pending)
  {
    hide Buffer.Shape, Run, Step, Print, PushedBack, StateOf;
    if rd.isChunked {
      ok := ExtractChunkedBodyTransf(rd, bIn, bTransf, tr);
      return;
    }
    if rd.bodyLength >= 0 {
      ok := ExtractCountedBody(rd, bIn, bTransf, tr);
      return;
    }
    ExtractOpenBody(rd, bIn, bTransf, tr);
    return false;
  }
}
