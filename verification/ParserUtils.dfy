/** myParserUtils/myParserUtils.c: copying reads, reverse writers and resumable token readers.

    `bEmpty` of the source is only ever set, never cleared; the methods return `starved` and
    the caller records it. */
module ParserUtils {
  import opened Bytes
  import opened Buffers
  import opened Numbers

  datatype HttpVersion = Undefined | V10 | V11

  ghost predicate Apart(a: Buffer, b: Buffer) {
    a != b && a.data != b.data
  }

  lemma AppendAppend(s: string, t: string, u: string)
    ensures (s + t) + u == s + (t + u)
  {
  }

  /** `readAndWrite`: a byte read from the reserved zone is not copied again. */
  method ReadAndWrite(b: Buffer, bOut: Buffer) returns (c: char)
    requires b.Valid() && bOut.Valid() && Apart(b, bOut)
    modifies b, b.data, bOut, bOut.data
    ensures b.Valid()
    ensures old(b.pending).Empty() ==> c == NUL && b.pending == old(b.pending) && bOut.Took("")
    ensures !old(b.pending).Empty() ==> c == old(b.pending).Head()
    ensures !old(b.pending).Empty() ==> b.pending == old(b.pending).Tail()
    ensures !old(b.pending).Empty() ==> bOut.Took(if c == NUL then "" else old(b.pending).Loud())
  {
    hide Buffer.Shape;
    var isReserved := b.IsReserved();
    c := b.Read();
    if !isReserved && c != NUL {
      bOut.Write(c);
    }
  }

  /** `readAndWriteWithZero`: a NUL is a byte like any other. */
  method ReadAndWriteWithZero(b: Buffer, bOut: Buffer) returns (c: char, starved: bool)
    requires b.Valid() && bOut.Valid() && Apart(b, bOut)
    modifies b, b.data, bOut, bOut.data
    ensures b.Valid() && b.write <= old(b.write) && starved == old(b.pending).Empty()
    ensures starved ==> b.pending == old(b.pending) && bOut.Took("")
    ensures !starved ==> b.pending == old(b.pending).Tail() && bOut.Took(old(b.pending).Loud())
  {
    hide Buffer.Shape;
    var isReserved := b.IsReserved();
    c, starved := NUL, false;
    if b.CanRead() {
      c := b.Read();
      if !isReserved {
        bOut.Write(c);
      }
    } else {
      starved := true;
    }
  }

  predicate IsSpace(c: char) {
    c == ' ' || c == '\t'
  }

  /** `isblank` in the sense of the parsers. */
  lemma SpaceTable(c: char)
    ensures IsSpace(c) <==> c in {' ', '\t'}
  {
  }

  function SpacesEnd(s: string, i: nat): (e: nat)
    requires i <= |s|
    ensures i <= e <= |s|
    ensures forall k :: i <= k < e ==> IsSpace(s[k])
    ensures e < |s| ==> !IsSpace(s[e])
    decreases |s| - i
  {
    if i < |s| && IsSpace(s[i]) then SpacesEnd(s, i + 1) else i
  }

  /** `moveThroughSpaces`. */
  method MoveThroughSpaces(b: Buffer) returns (c: char)
    requires b.Valid()
    modifies b, b.data
    ensures b.Valid()
    ensures var q := old(b.pending); var n := SpacesEnd(q.Text(), 0);
            b.pending == q.Drop(n) && c == if n < q.Size() then q.Text()[n] else NUL
  {
    hide Buffer.Shape;
    ghost var q, n := b.pending, 0;
    q.DropNone();
    c := b.Peek();
    while IsSpace(c)
      invariant b.Valid() && n <= q.Size() && b.pending == q.Drop(n)
      invariant c == if n < q.Size() then q.Text()[n] else NUL
      invariant SpacesEnd(q.Text(), 0) == SpacesEnd(q.Text(), n)
      decreases q.Size() - n
    {
      q.DropStep(n);
      var _ := b.Read();
      n := n + 1;
      c := b.Peek();
      if n < q.Size() { q.DropStep(n); }
    }
  }

  /** `writeToBuf`. */
  method WriteToBuf(text: string, b: Buffer)
    requires b.Valid()
    modifies b, b.data
    ensures b.Took(text)
  {
    hide Buffer.Shape;
    for i := 0 to |text|
      invariant b.Took(text[..i])
    {
      b.Write(text[i]);
      assert text[..i + 1] == text[..i] + [text[i]];
    }
    assert text[..|text|] == text;
  }

  /** The last `n` bytes of a text, or all of it. */
  function LastOf(s: string, n: nat): string { if n < |s| then s[|s| - n..] else s }

  /** `writeToBufReverse` and, with the length of the whole text, `writePrefix`. Where the array begins
      too early, the first bytes of the text are lost. */
  method WriteToBufReverse(text: string, b: Buffer, length: nat)
    requires b.Valid() && length <= |text|
    modifies b, b.data
    ensures b.Valid() && b.write == old(b.write) && b.pending.Size() <= old(b.pending).Size() + length
    ensures length <= old(b.read) <= b.infLimit ==>
              && b.pending == Queue(text[..length] + old(b.pending).held, old(b.pending).wire)
              && b.read == old(b.read) - length
    ensures old(b.read) <= b.infLimit ==>
              b.pending == Queue(LastOf(text[..length], old(b.read)) + old(b.pending).held, old(b.pending).wire)
  {
    hide Buffer.Shape;
    var left := length;
    ghost var room, stop := b.read, if length < b.read then 0 else length - b.read;
    while left > 0
      invariant 0 <= left <= length && b.Valid() && b.write == old(b.write)
      invariant b.pending.Size() <= old(b.pending).Size() + length - left
      invariant room <= b.infLimit ==>
                  && b.read == (if stop <= left then room - (length - left) else 0)
                  && b.pending.wire == old(b.pending).wire
                  && b.pending.held == text[if stop <= left then left else stop..length] + old(b.pending).held
    {
      left := left - 1;
      b.WriteReverse(text[left]);
      assert stop <= left ==> text[left..length] == [text[left]] + text[left + 1..length];
    }
    assert text[0..length] == text[..length] && text[stop..length] == LastOf(text[..length], room);
  }

  /** `writeDecToBufReverse` (base 10) and `writeHexToBufReverse` (base 16). */
  method WriteNumberReverse(base: Base, number: nat, b: Buffer)
    requires b.Valid()
    modifies b, b.data
    ensures b.Valid()
    ensures |Print(base, number)| <= old(b.read) <= b.infLimit ==>
              && b.pending == Queue(Print(base, number) + old(b.pending).held, old(b.pending).wire)
              && b.read == old(b.read) - |Print(base, number)|
  {
    hide Buffer.Shape, Print;
    if number == 0 {
      PrintStep(base, 0);
      b.WriteReverse('0');
      return;
    }
    var left := number;
    ghost var q, todo, done := b.pending, Print(base, number), "";
    while left > 0
      invariant b.Valid() && Print(base, number) == todo + done
      invariant todo == if left > 0 then Print(base, left) else ""
      invariant |Print(base, number)| <= old(b.read) <= b.infLimit ==>
                  && b.read == old(b.read) - |done|
                  && b.pending == Queue(done + q.held, q.wire)
    {
      var last := [DigitChar(base, Remainder(base, left))];
      PrintStep(base, left);
      b.WriteReverse(last[0]);
      left := Quotient(base, left);
      AppendAppend(last, done, q.held);
      todo := if left > 0 then Print(base, left) else "";
      AppendAppend(todo, last, done);
      done := last + done;
    }
  }

  /** How many bytes of `format`, from its `i`-th on, `s` continues with, ignoring case. */
  function MatchEnd(format: string, s: string, i: nat): (e: nat)
    requires i <= |format| && i <= |s|
    ensures i <= e <= |format| && e <= |s|
    ensures forall k :: i <= k < e ==> Upper(s[k]) == Upper(format[k])
    ensures e < |format| && e < |s| ==> Upper(s[e]) != Upper(format[e])
    decreases |s| - i
  {
    if i < |format| && i < |s| && Upper(s[i]) == Upper(format[i])
    then MatchEnd(format, s, i + 1) else i
  }

  /** `s` ends with `w`, ignoring the case of `s`. */
  ghost predicate Ends(s: string, w: string) {
    |w| <= |s| && forall k :: 0 <= k < |w| ==> Upper(s[|s| - |w| + k]) == w[k]
  }

  ghost predicate Same(s: string, w: string) { |s| == |w| && Ends(s, w) }

  /** The same text, ignoring the case of `s`, byte by byte. */
  lemma SameIs(s: string, w: string)
    ensures Same(s, w) <==> |s| == |w| && forall k :: 0 <= k < |s| ==> Upper(s[k]) == w[k]
  {
    if |s| == |w| {
      if Same(s, w) {
        forall k | 0 <= k < |s| ensures Upper(s[k]) == w[k] {
          assert Upper(s[|s| - |w| + k]) == w[k];
        }
      } else {
        var k :| 0 <= k < |w| && Upper(s[|s| - |w| + k]) != w[k];
        assert Upper(s[k]) != w[k];
      }
    }
  }

  lemma EndsSnoc(s: string, b: char, w: string, x: char)
    ensures Ends(s + [b], w + [x]) == (Upper(b) == x && Ends(s, w))
  {
    var t, v := s + [b], w + [x];
    if Ends(t, v) {
      assert Upper(t[|t| - |v| + |w|]) == v[|w|];
      forall k | 0 <= k < |w| ensures Upper(s[|s| - |w| + k]) == w[k] {
        assert Upper(t[|t| - |v| + k]) == v[k];
      }
    }
  }

  /** Fresh text in front of more fresh text. */
  lemma DropFresh(s: string, t: string)
    ensures var q := Queue("", s + t);
            q.Drop(|s|) == Queue("", t) && q.LoudTake(|s|) == s && q.Text() == s + t
  {
  }

  /** Text that was given back, in front of more of it. */
  lemma HeldDrop(s: string, rest: string, f: string)
    ensures var q := Queue(s + rest, f); q.Drop(|s|) == Queue(rest, f) && q.LoudTake(|s|) == ""
  {
  }

  predicate NulAt(s: string, i: nat) {
    i < |s| && s[i] == NUL
  }

  /** `matchFormat`: copies the bytes of `b` that match. When the input runs out inside the
      format it pushes back `prefix` and the matched part of the format. */
  method MatchFormat(format: string, b: Buffer, bOut: Buffer, prefix: string)
    returns (ok: bool, starved: bool)
    requires b.Valid() && bOut.Valid() && Apart(b, bOut) && NUL !in format
    modifies b, b.data, bOut, bOut.data
    ensures b.Valid() && b.pending.Size() <= old(b.pending).Size() + |prefix|
    ensures var q := old(b.pending); var n := MatchEnd(format, q.Text(), 0);
            && ok == (n == |format|)
            && starved == (!ok && (n == q.Size() || NulAt(q.Text(), n)))
            && bOut.Took(q.LoudTake(n))
            && (!starved ==> b.pending == q.Drop(n))
            && (starved && n == q.Size() && |prefix| + n <= b.infLimit ==>
                  b.pending == Queue(prefix + format[..n], ""))
  {
    hide Buffer.Shape, Queue.Drop, Queue.LoudTake, Queue.Loud;
    ghost var q := b.pending;
    var i := 0;
    var c := NUL;
    q.DropNone();
    while i < |format|
      invariant i <= |format| && i <= q.Size() && b.Valid()
      invariant b.pending == q.Drop(i) && bOut.Took(q.LoudTake(i))
      invariant MatchEnd(format, q.Text(), 0) == MatchEnd(format, q.Text(), i)
    {
      if i < q.Size() { q.DropStep(i); }
      c := Upper(b.Peek());
      if c != Upper(format[i]) {
        break;
      }
      AppendAppend(old(bOut.offered), q.LoudTake(i), q.Drop(i).Loud());
      var _ := ReadAndWrite(b, bOut);
      i := i + 1;
    }
    if i < |format| && c == NUL {
      if i == q.Size() { b.EmptyAtLimit(); }
      WriteToBufReverse(format, b, i);
      WriteToBufReverse(prefix, b, |prefix|);
      return false, true;
    }
    return i == |format|, false;
  }

  /** `simpleMatchFormat`: the same without copying. */
  method SimpleMatchFormat(format: string, b: Buffer, prefix: string)
    returns (ok: bool, starved: bool)
    requires b.Valid() && NUL !in format
    modifies b, b.data
    ensures b.Valid()
    ensures var q := old(b.pending); var n := MatchEnd(format, q.Text(), 0);
            && ok == (n == |format|)
            && starved == (!ok && (n == q.Size() || NulAt(q.Text(), n)))
            && (!starved ==> b.pending == q.Drop(n))
            && (starved && n == q.Size() && |prefix| + n <= b.infLimit ==>
                  b.pending == Queue(prefix + format[..n], ""))
  {
    hide Buffer.Shape, Queue.Drop, Queue.LoudTake, Queue.Loud;
    ghost var q := b.pending;
    var i := 0;
    var c := NUL;
    q.DropNone();
    while i < |format|
      invariant i <= |format| && i <= q.Size() && b.Valid() && b.pending == q.Drop(i)
      invariant MatchEnd(format, q.Text(), 0) == MatchEnd(format, q.Text(), i)
    {
      if i < q.Size() { q.DropStep(i); }
      c := Upper(b.Peek());
      if c != Upper(format[i]) {
        break;
      }
      var _ := b.Read();
      i := i + 1;
    }
    if i < |format| && c == NUL {
      if i == q.Size() { b.EmptyAtLimit(); }
      WriteToBufReverse(format, b, i);
      WriteToBufReverse(prefix, b, |prefix|);
      return false, true;
    }
    return i == |format|, false;
  }

  /** What a number reader leaves behind: it stops after the digits; when the input ends with
      them it pushes back `prefix` and the canonical numeral. A reader that finds the buffer
      empty pushes back `0`. */
  ghost predicate NumberRead(base: Base, q: Queue, after: Queue, reserve: nat, prefix: string,
                             ok: bool, starved: bool, number: nat)
  {
    var n := DigitsEnd(base, q.Text(), 0);
    var v := Value(base, q.Text(), n);
    && starved == (n == q.Size() || NulAt(q.Text(), n))
    && ok == (!starved && n > 0)
    && (ok ==> number == v)
    && (!starved ==> after == q.Drop(n))
    && (starved && n == q.Size() && |prefix| + |Print(base, v)| <= reserve ==>
          after == Queue(prefix + Print(base, v), ""))
  }

  /** Suspends a number reader. */
  method PushBackNumber(base: Base, number: nat, b: Buffer, prefix: string)
    requires b.Valid()
    modifies b, b.data
    ensures b.Valid()
    ensures old(b.pending).Empty() && |prefix| + |Print(base, number)| <= b.infLimit ==>
              b.pending == Queue(prefix + Print(base, number), "")
  {
    hide Buffer.Shape, Print;
    if b.pending.Empty() { b.EmptyAtLimit(); }
    WriteNumberReverse(base, number, b);
    WriteToBufReverse(prefix, b, |prefix|);
  }

  /** The digit loop of `getNumber` and `getHexNumber`. */
  method ReadDigits(base: Base, b: Buffer, bOut: Buffer) returns (number: nat)
    requires b.Valid() && bOut.Valid() && Apart(b, bOut)
    modifies b, b.data, bOut, bOut.data
    ensures b.Valid()
    ensures var q := old(b.pending); var n := DigitsEnd(base, q.Text(), 0);
            && number == Value(base, q.Text(), n)
            && b.pending == q.Drop(n)
            && bOut.Took(q.LoudTake(n))
  {
    hide Buffer.Shape, Queue.Drop, Queue.LoudTake, Queue.Loud, Value, AllDigits;
    ghost var q, i := b.pending, 0;
    ghost var text := q.Text();
    number := 0;
    q.DropNone();
    ValueNone(base, text);
    if !q.Empty() { q.DropStep(0); }
    while IsDigit(base, b.Peek())
      invariant i <= q.Size() && b.Valid()
      invariant b.pending == q.Drop(i) && bOut.Took(q.LoudTake(i))
      invariant DigitsEnd(base, text, 0) == DigitsEnd(base, text, i)
      invariant AllDigits(base, text, i) && number == Value(base, text, i)
      decreases q.Size() - i
    {
      q.DropStep(i);
      ValueStep(base, text, i);
      number := Times(base, number) + DigitValue(base, b.Peek());
      AppendAppend(old(bOut.offered), q.LoudTake(i), q.Drop(i).Loud());
      var _ := ReadAndWrite(b, bOut);
      i := i + 1;
    }
    if i < q.Size() { q.DropStep(i); }
  }

  /** `getNumber` (base 10) and `getHexNumber` (base 16). */
  method GetNumber(base: Base, b: Buffer, bOut: Buffer, prefix: string)
    returns (ok: bool, number: nat, starved: bool)
    requires b.Valid() && bOut.Valid() && Apart(b, bOut)
    modifies b, b.data, bOut, bOut.data
    ensures b.Valid()
    ensures NumberRead(base, old(b.pending), b.pending, b.infLimit, prefix, ok, starved, number)
    ensures bOut.Took(old(b.pending).LoudTake(DigitsEnd(base, old(b.pending).Text(), 0)))
  {
    hide Buffer.Shape, Queue.Drop, Value, AllDigits, Print;
    ghost var q, n := b.pending, DigitsEnd(base, b.pending.Text(), 0);
    q.DropNone();
    if !q.Empty() { q.DropStep(0); }
    if n < q.Size() { q.DropStep(n); }
    var c := b.Peek();
    if c != NUL && !IsDigit(base, c) {
      return false, 0, false;
    }
    number := ReadDigits(base, b, bOut);
    c := b.Peek();
    if c == NUL {
      PushBackNumber(base, number, b, prefix);
      return false, number, true;
    }
    return true, number, false;
  }

  /** `simpleGetHexNumber`: the same in base 16 without copying. */
  method SimpleGetHexNumber(b: Buffer, prefix: string)
    returns (ok: bool, number: nat, starved: bool)
    requires b.Valid()
    modifies b, b.data
    ensures b.Valid()
    ensures NumberRead(16, old(b.pending), b.pending, b.infLimit, prefix, ok, starved, number)
  {
    hide Buffer.Shape, Queue.Drop, Value, AllDigits, Print;
    ghost var q, i := b.pending, 0;
    ghost var text := q.Text();
    var c := b.Peek();
    number := 0;
    q.DropNone();
    ValueNone(16, text);
    if !q.Empty() { q.DropStep(0); }
    if c != NUL && !IsDigit(16, c) {
      return false, 0, false;
    }
    while IsDigit(16, c)
      invariant i <= q.Size() && b.Valid() && b.pending == q.Drop(i)
      invariant c == if i < q.Size() then text[i] else NUL
      invariant DigitsEnd(16, text, 0) == DigitsEnd(16, text, i)
      invariant AllDigits(16, text, i) && number == Value(16, text, i)
      decreases q.Size() - i
    {
      q.DropStep(i);
      ValueStep(16, text, i);
      number := Times(16, number) + DigitValue(16, c);
      var _ := b.Read();
      i := i + 1;
      if i < q.Size() { q.DropStep(i); }
      c := b.Peek();
    }
    if c == NUL {
      PushBackNumber(16, number, b, prefix);
      return false, number, true;
    }
    return true, number, false;
  }

  /** `writeToTransfBufWithZero`: moves up to `quantity` bytes, NULs included, and returns how
      many are still missing. */
  method WriteToTransfBufWithZero(b: Buffer, bOut: Buffer, quantity: int)
    returns (ok: bool, left: int, starved: bool)
    requires b.Valid() && bOut.Valid() && Apart(b, bOut)
    modifies b, b.data, bOut, bOut.data
    ensures b.Valid()
    ensures var q := old(b.pending);
            var n := if quantity <= 0 then 0 else if quantity <= q.Size() then quantity else q.Size();
            && left == quantity - n && ok == (left <= 0) && starved == !ok
            && b.pending == q.Drop(n) && bOut.Took(q.LoudTake(n))
  {
    hide Buffer.Shape, Queue.Drop, Queue.LoudTake, Queue.Loud;
    ghost var q, n := b.pending, 0;
    left, starved := quantity, false;
    q.DropNone();
    while left > 0
      invariant n <= q.Size() && b.Valid() && !starved
      invariant left == quantity - n && (n > 0 ==> left >= 0)
      invariant b.pending == q.Drop(n) && bOut.Took(q.LoudTake(n))
    {
      if n < q.Size() { q.DropStep(n); }
      if n < q.Size() { AppendAppend(old(bOut.offered), q.LoudTake(n), q.Drop(n).Loud()); }
      var _, empty := ReadAndWriteWithZero(b, bOut);
      if empty {
        starved := true;
        break;
      }
      left := left - 1;
      n := n + 1;
    }
    ok := left <= 0;
  }
}
