/** Chunked bodies (section 4.1 of RFC 7230, without extensions and trailers) as the machine reads
    them, and client/chunks.c, which writes them. */
module ChunkMeaning {
  import opened Bytes
  import opened Numbers
  import opened ParserUtils
  import opened ResponseMachine
  import opened ResponseLemmas

  datatype Chunk = Chunk(size: string, data: string)

  /** `s` is a hexadecimal numeral for `n`, in either case and with any leading zeros. */
  ghost predicate SizeText(s: string, n: nat) {
    |s| > 0 && AllDigits(16, s, |s|) && Value(16, s, |s|) == n < INT_LIMIT
  }

  /** Sizes of one digit, in either case. */
  lemma SizeOfDigit(k: nat)
    requires k < 16
    ensures SizeText(["0123456789abcdef"[k]], k) && SizeText(["0123456789ABCDEF"[k]], k)
  {
    var l, u := "0123456789abcdef"[k], "0123456789ABCDEF"[k];
    DigitTable(k);
    ValueNone(16, [l]);
    ValueStep(16, [l], 0);
    ValueNone(16, [u]);
    ValueStep(16, [u], 0);
  }

  /** One more digit is one more hexadecimal position. */
  lemma SizeGrows(s: string, n: nat, k: nat)
    requires SizeText(s, n) && k < 16 && 16 * n + k < 0x8000_0000
    ensures SizeText(s + ["0123456789abcdef"[k]], 16 * n + k) && SizeText(s + ["0123456789ABCDEF"[k]], 16 * n + k)
  {
    DigitTable(k);
    SizeSnoc(s, n, "0123456789abcdef"[k], k);
    SizeSnoc(s, n, "0123456789ABCDEF"[k], k);
  }

  lemma SizeSnoc(s: string, n: nat, c: char, k: nat)
    requires SizeText(s, n) && IsDigit(16, c) && DigitValue(16, c) == k && 16 * n + k < INT_LIMIT
    ensures SizeText(s + [c], 16 * n + k)
  {
    var t := s + [c];
    assert t[..|s|] == s == s[..|s|];
    ValueOfPrefix(16, s, t, |s|);
    ValueStep(16, t, |s|);
  }

  ghost predicate GoodChunk(ch: Chunk) { ch.data != "" && SizeText(ch.size, |ch.data|) }

  ghost predicate GoodChunks(chunks: seq<Chunk>) { forall ch :: ch in chunks ==> GoodChunk(ch) }

  function RenderChunk(ch: Chunk): string { ch.size + ("\r\n" + (ch.data + "\r\n")) }

  function Render(chunks: seq<Chunk>): string {
    if chunks == [] then "" else RenderChunk(chunks[0]) + Render(chunks[1..])
  }

  function Data(chunks: seq<Chunk>): string {
    if chunks == [] then "" else chunks[0].data + Data(chunks[1..])
  }

  /** A whole body: the chunks, a size of zero and an empty line. */
  function Body(chunks: seq<Chunk>, zeros: string): string { Render(chunks) + (zeros + "\r\n\r\n") }

  function Framed(c: Conf, rec: Rec, p: Place, o: string): Conf {
    Conf(rec, p, c.out + Frame(c.rec, o), c.transf)
  }

  /** A chunk size and its CR LF. */
  lemma SizeLine(c: Conf, s: string, n: nat, t: string)
    requires c.p == Digits(ChunkSize, None) && SizeText(s, n)
    ensures var rec := c.rec.(bodyLength := n);
            Run(c, Queue("", s + ("\r\n" + t))) == Run(Framed(c, rec, DataStart(rec), s + "\r\n"), Queue("", t))
  {
    hide Run, Queue.Drop, Queue.LoudTake, Value, Step, DataStart, AllDigits;
    var q := Queue("", s + ("\r\n" + t));
    var rest := Queue("", "\r\n" + t);
    DropFresh(s, "\r\n" + t);
    DropFresh("\r\n", t);
    assert q.Text()[..|s|] == s == s[..|s|];
    ValueOfPrefix(16, s, q.Text(), |s|);
    NumberRun(c, ChunkSize, q, |s|);
    SizeCrlf(AfterDigits(c, ChunkSize, n, s), n, rest);
    assert MatchEnd("\r\n", rest.Text(), 0) == 2;
    AppendAppend(c.out, Frame(c.rec, s), Frame(c.rec, "\r\n"));
  }

  lemma EndLine(c: Conf, last: bool, t: string)
    requires c.p == DataEnd(last, 0)
    ensures Run(c, Queue("", "\r\n" + t)) == Run(Framed(c, c.rec, AfterData(last), "\r\n"), Queue("", t))
  {
    hide Run, Queue.Drop, Queue.LoudTake, Step;
    DropFresh("\r\n", t);
    DataCrlf(c, last, Queue("", "\r\n" + t));
    assert MatchEnd("\r\n", Queue("", "\r\n" + t).Text(), 0) == 2;
  }

  /** The place and outputs after `o` of framing and `data` of payload, between two chunks. */
  function Between(c: Conf, o: string, data: string): Conf {
    Conf(c.rec.(bodyLength := 0), Digits(ChunkSize, None), c.out + Frame(c.rec, o),
         c.transf + if c.rec.withTransf then data else "")
  }

  lemma OneChunkConf(c: Conf, ch: Chunk)
    requires ch.data != ""
    ensures var head := Framed(c, c.rec.(bodyLength := |ch.data|), Payload, ch.size + "\r\n");
            var after := AfterBytes(head, |ch.data|, ch.data);
            && after.p == DataEnd(false, 0)
            && Framed(after, after.rec, AfterData(false), "\r\n") == Between(c, RenderChunk(ch), ch.data)
  {
    if c.rec.withTransf {
      assert c.out + "" + "" + "" == c.out + "";
    } else {
      assert c.out + (ch.size + "\r\n") + ch.data + "\r\n" == c.out + RenderChunk(ch);
    }
  }

  lemma OneChunk(c: Conf, ch: Chunk, t: string)
    requires c.p == Digits(ChunkSize, None) && GoodChunk(ch)
    ensures Run(c, Queue("", RenderChunk(ch) + t)) == Run(Between(c, RenderChunk(ch), ch.data), Queue("", t))
  {
    hide Run, Queue.Drop, Queue.LoudTake, Value, Step, Between, Frame;
    var rest := ch.data + ("\r\n" + t);
    assert RenderChunk(ch) + t == ch.size + ("\r\n" + rest);
    SizeLine(c, ch.size, |ch.data|, rest);
    var head := Framed(c, c.rec.(bodyLength := |ch.data|), Payload, ch.size + "\r\n");
    DropFresh(ch.data, "\r\n" + t);
    BodyRun(head, Queue("", rest), |ch.data|);
    OneChunkConf(c, ch);
    EndLine(AfterBytes(head, |ch.data|, ch.data), false, t);
  }

  lemma BetweenTwice(c: Conf, o1: string, d1: string, o2: string, d2: string)
    ensures Between(Between(c, o1, d1), o2, d2) == Between(c, o1 + o2, d1 + d2)
  {
    AppendAppend(c.out, Frame(c.rec, o1), Frame(c.rec, o2));
    AppendAppend(c.transf, d1, d2);
    assert c.transf + "" + "" == c.transf + "" && c.out + "" + "" == c.out + "";
  }

  lemma {:induction false} ManyChunks(c: Conf, chunks: seq<Chunk>, t: string)
    requires c.p == Digits(ChunkSize, None) && GoodChunks(chunks)
    ensures Run(c, Queue("", Render(chunks) + t)) ==
            Run(if chunks == [] then c else Between(c, Render(chunks), Data(chunks)), Queue("", t))
    decreases |chunks|
  {
    hide Run, RenderChunk, GoodChunk;
    if chunks == [] {
      assert Render(chunks) + t == t;
    } else {
      var o, d := RenderChunk(chunks[0]), chunks[0].data;
      assert Render(chunks) + t == o + (Render(chunks[1..]) + t);
      OneChunk(c, chunks[0], Render(chunks[1..]) + t);
      ManyChunks(Between(c, o, d), chunks[1..], t);
      BetweenTwice(c, o, d, Render(chunks[1..]), Data(chunks[1..]));
      NoChunks(chunks[1..]);
      assert o + "" == o && d + "" == d;
    }
  }

  /** A whole chunked body is read to its last byte and no further. Without a transformation it
      is forwarded byte for byte; with one, exactly the data of the chunks comes out. */
  lemma ChunkedBody(c: Conf, chunks: seq<Chunk>, zeros: string, t: string)
    requires c.p == Digits(ChunkSize, None) && GoodChunks(chunks) && SizeText(zeros, 0)
    ensures Run(c, Queue("", Body(chunks, zeros) + t)) ==
            Outcome(Conf(c.rec.(bodyLength := 0), Done, c.out + Frame(c.rec, Body(chunks, zeros)),
                         c.transf + if c.rec.withTransf then Data(chunks) else ""), Queue("", t))
  {
    hide Run, Render, Data, Value;
    var o := Render(chunks);
    assert Body(chunks, zeros) + t == o + (zeros + ("\r\n" + ("\r\n" + t)));
    ManyChunks(c, chunks, zeros + ("\r\n" + ("\r\n" + t)));
    assert chunks == [] ==> o == "" && Data(chunks) == "" by { NoChunks(chunks); }
    var d := if chunks == [] then c else Between(c, o, Data(chunks));
    SizeLine(d, zeros, 0, "\r\n" + t);
    var e := Framed(d, d.rec.(bodyLength := 0), DataEnd(true, 0), zeros + "\r\n");
    EndLine(e, true, t);
    var z := Framed(e, e.rec, Done, "\r\n");
    RunTerminal(z, Queue("", t));
    if !c.rec.withTransf {
      assert o + (zeros + "\r\n") + "\r\n" == Body(chunks, zeros);
      assert c.out + "" == c.out;
      assert c.out + o + (zeros + "\r\n") + "\r\n" == c.out + Body(chunks, zeros);
    }
    assert c.out + "" + "" + "" == c.out && c.transf + "" == c.transf;
  }

  lemma NoChunks(chunks: seq<Chunk>)
    ensures chunks == [] ==> Render(chunks) == "" && Data(chunks) == ""
  {
  }

  /** Input that a run uses up to its last byte keeps the run going on every shorter prefix. */
  lemma FinishesLast(c: Conf, s: string, k: nat)
    requires Run(c, Queue("", s)).rest == Queue("", "") && k < |s|
    ensures !Terminal(Run(c, Queue("", s[..k])).c.p)
  {
    hide Step;
    RunPush(c, Queue("", s[..k]), s[k..]);
    assert s[..k] + s[k..] == s;
  }

  /** A chunked body suspends the parser on every proper prefix. */
  lemma SuspendsUntilLastByte(c: Conf, chunks: seq<Chunk>, zeros: string, k: nat)
    requires c.p == Digits(ChunkSize, None) && GoodChunks(chunks) && SizeText(zeros, 0)
    requires k < |Body(chunks, zeros)|
    ensures !Terminal(Run(c, Queue("", Body(chunks, zeros)[..k])).c.p)
  {
    hide Run, Body;
    assert Body(chunks, zeros) + "" == Body(chunks, zeros);
    ChunkedBody(c, chunks, zeros, "");
    FinishesLast(c, Body(chunks, zeros), k);
  }
}
