/** buffer/buffer.c: a byte buffer with a reserved zone in front of `infLimit`. */
module Buffers {
  import opened Bytes

  class Buffer {
    const data: array<char>
    const infLimit: nat
    const limit: nat
    var read: nat
    var write: nat

    /** The abstract contents. */
    ghost var pending: Queue
    /** Everything written forward since the buffer was last empty, kept or dropped, as
        overwritten since by reverse writes. */
    ghost var offered: string

    /** Everything but the position of an empty buffer, which `Compact` restores. */
    ghost predicate Shape()
      reads this, data
    {
      && infLimit <= limit <= data.Length
      && read <= write <= limit
      && infLimit <= write
      && pending.held == (if read < infLimit then data[read..infLimit] else "")
      && pending.wire == data[(if read < infLimit then infLimit else read)..write]
      && write - infLimit <= |offered|
      && data[infLimit..write] == offered[..write - infLimit]
      && (write < limit ==> |offered| == write - infLimit)
    }

    ghost predicate Valid()
      reads this, data
    {
      Shape() && (read == write ==> read == infLimit)
    }

    /** An empty buffer sits at `infLimit`, so that what is pushed back lands in the reserved
        zone. */
    lemma EmptyAtLimit()
      requires Valid() && pending.Empty()
      ensures read == write == infLimit
    {
    }

    lemma HeldPosition()
      requires Valid() && (pending.held != "" || pending.Empty())
      ensures read == infLimit - |pending.held|
    {
    }

    lemma SizeOfContents()
      requires Valid()
      ensures pending.Size() == write - read == |Contents()|
    {
    }

    /** Nothing written forward was lost while there was room for it. */
    lemma KeptAll()
      requires Valid() && read == infLimit && |offered| <= limit - infLimit
      ensures pending == Queue("", offered)
    {
    }

    lemma NothingFresh()
      requires Valid() && pending.wire == ""
      ensures write == infLimit
    {
    }

    /** `s` was written forward, kept or dropped, and nothing was read. */
    twostate predicate Took(s: string)
      reads this, data
    {
      Valid() && read == old(read) && offered == old(offered) + s
    }

    /** `buffer_init_r`; `buffer_init` is the case n0 == 0. */
    constructor (n0: nat, n: nat, data: array<char>)
      requires n0 <= n <= data.Length
      ensures Valid() && this.data == data && infLimit == n0 && limit == n
      ensures read == n0 && pending == Queue("", "") && offered == ""
    {
      this.data := data;
      infLimit, limit := n0, n;
      new;
      Reset();
    }

    /** `buffer_reset`. */
    method Reset()
      requires infLimit <= limit <= data.Length
      modifies this
      ensures Valid() && read == infLimit && pending == Queue("", "") && offered == ""
    {
      read, write := infLimit, infLimit;
      pending, offered := Queue("", ""), "";
    }

    predicate CanWrite()
      reads this
    {
      write < limit
    }

    predicate CanRead(): (r: bool)
      requires Valid()
      reads this, data
      ensures r == !pending.Empty()
    {
      read < write
    }

    predicate CanWriteReverse()
      reads this
    {
      read > 0
    }

    /** `is_reserved`: the next byte was pushed back. */
    predicate IsReserved(): (r: bool)
      requires Valid()
      reads this, data
      ensures r == (pending.held != "")
    {
      read < infLimit
    }

    /** `buffer_peek`: the next byte, or 0 both for an empty buffer and for a NUL. */
    function Peek(): (c: char)
      requires Valid()
      reads this, data
      ensures c == if pending.Empty() then NUL else pending.Head()
    {
      if read < write then data[read] else NUL
    }

    /** `buffer_compact`. With unread reserved bytes the memmove could run past `limit`;
        the callers never do that. */
    method Compact()
      requires Shape() && (infLimit <= read || read == write)
      modifies this, data
      ensures Valid() && read == infLimit && pending == old(pending) && write <= old(write)
      ensures pending.Empty() && limit > infLimit ==> offered == ""
    {
      if infLimit == read {
      } else if read == write {
        read, write := infLimit, infLimit;
        offered := "";
      } else {
        var n := write - read;
        ghost var moved := data[read..write];
        forall k | 0 <= k < n {
          data[infLimit + k] := data[read + k];
        }
        read, write := infLimit, infLimit + n;
        offered := moved;
        assert forall k | 0 <= k < n :: data[infLimit + k] == moved[k];
        assert data[infLimit..write] == moved;
      }
    }

    /** `buffer_read_adv`, with the compaction of an emptied buffer. */
    method ReadAdv(bytes: int)
      requires Valid() && bytes <= write - read
      modifies this, data
      ensures Valid() && write <= old(write)
      ensures old(pending).Size() == old(write) - old(read)
      ensures pending == if bytes > -1 then old(pending).Drop(bytes) else old(pending)
      ensures pending.Empty() && limit > infLimit && bytes > -1 ==> offered == ""
      ensures !pending.Empty() ==> offered == old(offered) && write == old(write)
    {
      if bytes > -1 {
        read := read + bytes;
        pending := pending.Drop(bytes);
        if read == write {
          assert pending.Empty();
          Compact();
        }
      }
    }

    /** `buffer_read`: 0 for an empty buffer, else the head. */
    method Read() returns (c: char)
      requires Valid()
      modifies this, data
      ensures Valid() && write <= old(write)
      ensures old(pending).Empty() ==> c == NUL && pending == old(pending) && read == old(read)
      ensures !old(pending).Empty() ==> c == old(pending).Head() && pending == old(pending).Tail()
    {
      if CanRead() {
        c := data[read];
        ReadAdv(1);
      } else {
        c := NUL;
      }
    }

    /** `buffer_write`: a byte that does not fit is dropped. */
    method Write(c: char)
      requires Valid()
      modifies this, data
      ensures Valid() && read == old(read) && offered == old(offered) + [c]
      ensures old(CanWrite()) ==> pending == old(pending).Push([c])
      ensures !old(CanWrite()) ==> pending == old(pending)
      ensures write == if old(CanWrite()) then old(write) + 1 else old(write)
    {
      offered := offered + [c];
      if CanWrite() {
        data[write] := c;
        write := write + 1;
        pending := pending.Push([c]);
      }
    }

    /** `buffer_write_reverse`: the byte goes in front of the unread ones. */
    method WriteReverse(c: char)
      requires Valid()
      modifies this, data
      ensures Valid() && write == old(write)
      ensures read == if old(read) > 0 then old(read) - 1 else 0
      ensures old(read) == 0 ==> pending == old(pending)
      ensures pending.Size() <= old(pending).Size() + 1
      ensures 0 < old(read) <= infLimit ==>
                pending == Queue([c] + old(pending.held), old(pending.wire))
      ensures infLimit < old(read) ==> pending == Queue("", [c] + old(pending.wire))
    {
      if CanWriteReverse() {
        read := read - 1;
        data[read] := c;
        if read < infLimit {
          pending := Queue([c] + pending.held, pending.wire);
        } else {
          pending := Queue("", [c] + pending.wire);
          offered := offered[read - infLimit := c];
        }
      }
    }

    /** The bytes on offer to a reader that goes through `buffer_read_ptr`. */
    function Contents(): (s: string)
      requires Valid()
      reads this, data
      ensures s == pending.Text()
    {
      data[read..write]
    }

    /** `buffer_write_ptr`, a `read` of `bytes` into it, and `buffer_write_adv`. */
    method Fill(bytes: string)
      requires Valid() && |bytes| <= limit - write
      modifies this, data
      ensures Valid() && read == old(read)
      ensures pending == old(pending).Push(bytes) && offered == old(offered) + bytes
      ensures write == old(write) + |bytes|
    {
      for k := 0 to |bytes|
        invariant Valid() && read == old(read) && write == old(write) + k
        invariant pending.held == old(pending).held
        invariant pending.wire == old(pending).wire + bytes[..k]
        invariant offered == old(offered) + bytes[..k]
      {
        Write(bytes[k]);
        assert bytes[..k + 1] == bytes[..k] + [bytes[k]];
      }
      assert bytes[..|bytes|] == bytes;
    }
  }

  /** `malloc` and `buffer_init_r`, as `client_new` does. */
  method Allocate(n0: nat, n: nat) returns (b: Buffer)
    requires n0 <= n
    ensures b.Valid() && fresh(b) && fresh(b.data) && b.infLimit == n0 && b.limit == n
    ensures b.read == n0 && b.pending == Queue("", "") && b.offered == ""
  {
    var data := new char[n];
    b := new Buffer(n0, n, data);
  }

  /** Sends on all that a buffer holds. */
  method Drain(b: Buffer) returns (s: string)
    requires b.Valid() && b.infLimit < b.limit
    modifies b, b.data
    ensures b.Valid() && b.pending.Empty() && b.offered == "" && b.read == b.infLimit
    ensures old(b.read) == b.infLimit && |old(b.offered)| <= b.limit - b.infLimit ==> s == old(b.offered)
  {
    hide Buffer.Shape;
    if b.read == b.infLimit && |b.offered| <= b.limit - b.infLimit { b.KeptAll(); }
    s := b.Contents();
    b.SizeOfContents();
    b.ReadAdv(|s|);
    b.EmptyAtLimit();
  }
}
