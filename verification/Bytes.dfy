/** Bytes, the ASCII part of `ctype.h`, and the two-zone queue that a parser reads from.

    A byte is represented by the `char` with its code. Nothing below depends on a code being
    smaller than 256, so what is proved for every string holds for every byte string. */
module Bytes {

  datatype Option<+T> = None | Some(value: T) {
    function GetOr(default: T): T {
      match this
      case None => default
      case Some(v) => v
    }
  }

  /** What a peek or a read returns when there is nothing to read. */
  const NUL: char := '\0'

  function Upper(c: char): char {
    if 'a' <= c <= 'z' then (c as int - 32) as char else c
  }

  function Lower(c: char): char {
    if 'A' <= c <= 'Z' then (c as int + 32) as char else c
  }

  /** `toupper` and `tolower` on ASCII: 26 letters, and nothing else changes. */
  lemma LetterTable(c: char, k: nat)
    ensures k < 26 ==> var l, u := "abcdefghijklmnopqrstuvwxyz"[k], "ABCDEFGHIJKLMNOPQRSTUVWXYZ"[k];
                       Upper(l) == u && Upper(u) == u && Lower(u) == l && Lower(l) == l
    ensures !('a' <= c <= 'z') ==> Upper(c) == c
    ensures !('A' <= c <= 'Z') ==> Lower(c) == c
  {
    if k < 26 {
      var l, u := "abcdefghijklmnopqrstuvwxyz"[k], "ABCDEFGHIJKLMNOPQRSTUVWXYZ"[k];
      assert l as int == 'a' as int + k by { hide Upper, Lower; }
      assert u as int == 'A' as int + k by { hide Upper, Lower; }
    }
  }

  function Flatten(parts: seq<string>): string {
    if parts == [] then "" else parts[0] + Flatten(parts[1..])
  }

  lemma {:induction false} FlattenSnoc(parts: seq<string>, last: string)
    ensures Flatten(parts + [last]) == Flatten(parts) + last
  {
    if parts == [] {
      assert parts + [last] == [last];
    } else {
      assert (parts + [last])[1..] == parts[1..] + [last];
      FlattenSnoc(parts[1..], last);
    }
  }

  lemma {:induction false} FlattenSplit(parts: seq<string>, k: nat)
    requires k <= |parts|
    ensures Flatten(parts) == Flatten(parts[..k]) + Flatten(parts[k..])
  {
    if k == 0 {
      assert parts[0..] == parts;
    } else {
      FlattenSplit(parts[1..], k - 1);
      assert parts[..k] == [parts[0]] + parts[1..][..k - 1];
      assert parts[1..][k - 1..] == parts[k..];
    }
  }

  /** The bytes waiting in a buffer: `held` was pushed back and must not be copied again,
      `wire` is what arrived and was not read yet. */
  datatype Queue = Queue(held: string, wire: string) {
    function Text(): string { held + wire }

    predicate Empty() { held == "" && wire == "" }

    function Size(): nat { |held| + |wire| }

    function Head(): char
      requires !Empty()
    {
      if held != "" then held[0] else wire[0]
    }

    /** What a copying read of the head forwards. */
    function Loud(): string
      requires !Empty()
    {
      if held != "" then "" else [wire[0]]
    }

    function Tail(): Queue
      requires !Empty()
    {
      if held != "" then Queue(held[1..], wire) else Queue("", wire[1..])
    }

    function Drop(n: nat): (q: Queue)
      requires n <= Size()
      ensures q.Size() == Size() - n
      ensures q.Empty() <==> n == Size()
    {
      if n <= |held| then Queue(held[n..], wire) else Queue("", wire[n - |held|..])
    }

    /** What copying reads of the first `n` bytes forward. */
    function LoudTake(n: nat): string
      requires n <= Size()
    {
      if n <= |held| then "" else wire[..n - |held|]
    }

    function Push(f: string): Queue { Queue(held, wire + f) }

    lemma DropStep(n: nat)
      requires n < Size()
      ensures !Drop(n).Empty()
      ensures Drop(n).Head() == Text()[n]
      ensures Drop(n).Tail() == Drop(n + 1)
      ensures LoudTake(n) + Drop(n).Loud() == LoudTake(n + 1)
    {
      if n >= |held| {
        assert Drop(n).held == "";
        assert Drop(n).wire == wire[n - |held|..];
      }
    }

    lemma DropDrop(m: nat, n: nat)
      requires m + n <= Size()
      ensures Drop(m).Drop(n) == Drop(m + n)
      ensures LoudTake(m) + Drop(m).LoudTake(n) == LoudTake(m + n)
      ensures forall k :: 0 <= k < Size() - m ==> Drop(m).Text()[k] == Text()[m + k]
    {
      if m > |held| {
        assert Drop(m).held == "" && Drop(m).wire == wire[m - |held|..];
      }
    }

    lemma DropNone()
      ensures Drop(0) == this && LoudTake(0) == ""
    {
    }
  }

  lemma TailSize(q: Queue)
    ensures !q.Empty() ==> q.Tail().Size() == q.Size() - 1
    ensures q.Empty() ==> q.Size() == 0
  {
  }

  lemma SizeOf(q: Queue)
    ensures q.Size() == |q.held| + |q.wire|
  {
  }

  lemma PushText(q: Queue, f: string)
    ensures q.Push(f).Text() == q.Text() + f && (f == "" ==> q.Push(f) == q)
  {
    assert f == "" ==> q.wire + f == q.wire;
  }

  function LongestFragment(fragments: seq<string>): (n: nat)
    ensures forall f :: f in fragments ==> |f| <= n
  {
    if fragments == [] then 0
    else
      var n := LongestFragment(fragments[1..]);
      if n < |fragments[0]| then |fragments[0]| else n
  }
}
