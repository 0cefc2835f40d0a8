/** client/chunks.c: the encoder that puts transformed output back into chunks. */
module ChunkEncoder {
  import opened Bytes
  import opened Buffers
  import opened Numbers
  import opened ParserUtils
  import opened ResponseMachine
  import opened ChunkMeaning

  /** `MAX_CHUNK_SIZE_DIGITS`, and the sizes that seven hexadecimal digits can hold. */
  const MAX_CHUNK_SIZE_DIGITS: nat := 7
  const MAX_CHUNK_SIZE: nat := 0x1000_0000

  /** What `read` answers. */
  datatype ReadResult = Failed | Got(bytes: string)

  function Encoded(data: string): Chunk { Chunk(Print(16, |data|), data) }

  function EncodedAll(blocks: seq<string>): seq<Chunk> {
    if blocks == [] then [] else [Encoded(blocks[0])] + EncodedAll(blocks[1..])
  }

  /** `write_empty_chunk`. */
  method WriteEmptyChunk(dst: Buffer) returns (n: nat)
    requires dst.Valid()
    modifies dst, dst.data
    ensures dst.Valid()
    ensures n == if old(dst.limit - dst.write) >= 5 then 5 else 0
    ensures dst.pending == if n == 5 then old(dst.pending).Push("0\r\n\r\n") else old(dst.pending)
  {
    var chunk := "0\r\n\r\n";
    if dst.limit - dst.write >= |chunk| {
      dst.Fill(chunk);
      return |chunk|;
    }
    return 0;
  }

  /** `dump_chunk_from_fd`, where `source` is what `read` answers when asked for as many bytes as
      are left after seven digits and two CR LF. The encoded chunk always fits. */
  method DumpChunk(source: ReadResult, dst: Buffer) returns (n: int)
    requires dst.Valid()
    requires source.Got? && dst.limit - dst.write > 11 ==> |source.bytes| <= dst.limit - dst.write - 11
    requires source.Got? ==> |source.bytes| < 0x1000_0000
    modifies dst, dst.data
    ensures dst.Valid()
    ensures var room := old(dst.limit - dst.write) > 11;
            if room && source.Got? && source.bytes != "" then
              && dst.pending == old(dst.pending).Push(RenderChunk(Encoded(source.bytes)))
              && n == |RenderChunk(Encoded(source.bytes))|
            else
              dst.pending == old(dst.pending) && n == if room && source.Failed? then -1 else 0
  {
    var space := dst.limit - dst.write;
    if space > MAX_CHUNK_SIZE_DIGITS + 4 {
      if source.Got? && source.bytes != "" {
        SevenDigits(|source.bytes|);
        var text := Print(16, |source.bytes|) + ("\r\n" + (source.bytes + "\r\n"));
        dst.Fill(text);
        return |text|;
      }
      return if source.Failed? then -1 else 0;
    }
    return 0;
  }

  lemma SevenDigits(n: nat)
    requires n < MAX_CHUNK_SIZE
    ensures |Print(16, n)| <= MAX_CHUNK_SIZE_DIGITS
  {
    assert Power(16, 4) == 0x1_0000;
    assert Power(16, 7) == MAX_CHUNK_SIZE;
    PrintLength(16, n, 7);
  }

  lemma {:induction false} EncodedWell(blocks: seq<string>)
    requires forall d :: d in blocks ==> d != "" && |d| < INT_LIMIT
    ensures GoodChunks(EncodedAll(blocks)) && Data(EncodedAll(blocks)) == Flatten(blocks)
  {
    if blocks != [] {
      EncodedWell(blocks[1..]);
      PrintValue(16, |blocks[0]|);
      assert GoodChunk(Encoded(blocks[0]));
      assert EncodedAll(blocks)[1..] == EncodedAll(blocks[1..]);
    }
  }

  /** The decoder undoes the encoder: from any sequence of non-empty blocks, closed by the empty
      chunk, exactly the bytes that were read come out, and later input is left alone. */
  lemma DecodesWhatWasEncoded(c: Conf, blocks: seq<string>, t: string)
    requires c.p == Digits(ChunkSize, None) && c.rec.withTransf
    requires forall d :: d in blocks ==> d != "" && |d| < INT_LIMIT
    ensures Run(c, Queue("", Render(EncodedAll(blocks)) + "0\r\n\r\n" + t)) ==
            Outcome(Conf(c.rec.(bodyLength := 0), Done, c.out, c.transf + Flatten(blocks)), Queue("", t))
  {
    hide Run, Step;
    EncodedWell(blocks);
    PrintValue(16, 0);
    assert Print(16, 0) == "0";
    ChunkedBody(c, EncodedAll(blocks), "0", t);
    assert Render(EncodedAll(blocks)) + "0\r\n\r\n" == Body(EncodedAll(blocks), "0");
    assert c.out + "" == c.out;
  }

  lemma {:induction false} EncodedSnoc(blocks: seq<string>, last: string)
    ensures Render(EncodedAll(blocks + [last])) == Render(EncodedAll(blocks)) + RenderChunk(Encoded(last))
  {
    if blocks == [] {
      assert blocks + [last] == [last] && EncodedAll([last]) == [Encoded(last)] && EncodedAll(blocks) == [];
      assert EncodedAll([last])[1..] == [];
    } else {
      assert (blocks + [last])[1..] == blocks[1..] + [last];
      EncodedSnoc(blocks[1..], last);
      assert EncodedAll(blocks)[1..] == EncodedAll(blocks[1..]);
      assert EncodedAll(blocks + [last])[1..] == EncodedAll(blocks[1..] + [last]);
    }
  }

  /** The transformation of the proxy: one chunk for each block that is read, sent on at once, and
      the empty chunk at the end. */
  method EncodeStream(blocks: seq<string>) returns (stream: string)
    requires forall d :: d in blocks ==> d != "" && |d| < MAX_CHUNK_SIZE
    ensures stream == Render(EncodedAll(blocks)) + "0\r\n\r\n"
  {
    hide Buffer.Shape, Buffer.Valid, Render, EncodedAll, RenderChunk;
    var dst := Allocate(0, LongestFragment(blocks) + MAX_CHUNK_SIZE_DIGITS + 5);
    stream := "";
    assert Render(EncodedAll(blocks[..0])) == "" by { NothingEncoded(blocks[..0]); }
    for i := 0 to |blocks|
      invariant fresh(dst) && fresh(dst.data) && dst.Valid() && dst.pending == Queue("", "")
      invariant stream == Render(EncodedAll(blocks[..i]))
    {
      dst.NothingFresh();
      var _ := DumpChunk(Got(blocks[i]), dst);
      var text := DrainText(dst);
      stream := stream + text;
      EncodedSnoc(blocks[..i], blocks[i]);
      assert blocks[..i + 1] == blocks[..i] + [blocks[i]];
      assert "" + RenderChunk(Encoded(blocks[i])) == RenderChunk(Encoded(blocks[i]));
    }
    assert blocks[..|blocks|] == blocks;
    dst.NothingFresh();
    var _ := WriteEmptyChunk(dst);
    var text := DrainText(dst);
    assert "" + "0\r\n\r\n" == "0\r\n\r\n";
    stream := stream + text;
  }

  lemma NothingEncoded(blocks: seq<string>)
    requires blocks == []
    ensures Render(EncodedAll(blocks)) == ""
  {
  }

  /** Sends on what a buffer holds. */
  method DrainText(b: Buffer) returns (s: string)
    requires b.Valid() && b.infLimit < b.limit
    modifies b, b.data
    ensures b.Valid() && b.pending == Queue("", "") && s == old(b.pending).Text()
  {
    hide Buffer.Shape;
    s := b.Contents();
    b.SizeOfContents();
    b.ReadAdv(|s|);
  }
}
