/** selector/selector.c: the item table, the sets and the maximum that are kept beside it, and the
    dispatch of handlers that may change all of them. */
module Selectors {
  import opened Bytes
  import opened SelectorTable

  datatype Status = Success | NoMemory | MaxFd | IllegalArgument | FdInUse

  /** `struct item`. */
  datatype Item = Item(fd: int, interest: Interest, handler: Handler, data: int)

  const FD_UNUSED: int := -1

  /** What `calloc` and `memset` leave. */
  const BLANK: Item := Item(0, OP_NOOP, Handler(false, false, false), 0)

  predicate Used(item: Item) { item.fd != FD_UNUSED }

  /** `fd` is in the sets exactly as the bits of its interest say, and the others are as before. */
  ghost predicate InSets(fd: int, i: Interest, r0: set<int>, w0: set<int>, r: set<int>, w: set<int>) {
    && (fd in r <==> (i as int) % 2 == 1) && (fd in w <==> (i as int) / 4 % 2 == 1)
    && r - {fd} == r0 - {fd} && w - {fd} == w0 - {fd}
  }

  function EntryOf(item: Item): Entry { Entry(item.handler, item.interest, item.data) }

  function Pow2(k: nat): nat { if k == 0 then 1 else 2 * Pow2(k - 1) }

  /** 2^k is the least power of two above `n`. */
  ghost predicate IsNextPower(n: nat, k: nat) { n < Pow2(k) && (k > 0 ==> Pow2(k - 1) <= n) }

  /** `n`, shifted right by `bits`, is `tmp`. */
  ghost predicate Shifted(n: nat, bits: nat, tmp: nat) {
    tmp * Pow2(bits) <= n < (tmp + 1) * Pow2(bits) && (tmp == 0 && bits > 0 ==> Pow2(bits - 1) <= n)
  }

  lemma Halve(tmp: nat, p: nat, q: nat, n: nat)
    requires tmp > 0 && q == 2 * p && tmp * p <= n < (tmp + 1) * p
    ensures (tmp / 2) * q <= n < (tmp / 2 + 1) * q
    ensures tmp / 2 == 0 ==> p <= n
  {
    var h := tmp / 2;
    if tmp == 2 * h {
      assert h * (2 * p) == tmp * p;
      assert (h + 1) * (2 * p) == (tmp + 1) * p + p;
    } else {
      assert tmp == 2 * h + 1;
      assert h * (2 * p) == tmp * p - p;
      assert (h + 1) * (2 * p) == (tmp + 1) * p;
    }
  }

  lemma ShiftOnce(n: nat, bits: nat, tmp: nat)
    requires tmp > 0 && Shifted(n, bits, tmp)
    ensures Shifted(n, bits + 1, tmp / 2)
  {
    assert Pow2(bits + 1) == 2 * Pow2(bits);
    Halve(tmp, Pow2(bits), Pow2(bits + 1), n);
  }

  lemma ShiftedOut(n: nat, bits: nat)
    requires Shifted(n, bits, 0)
    ensures IsNextPower(n, bits)
  {
  }

  /** `next_capacity`: one more than the least power of two above `n`, or than the limit. */
  method NextCapacity(n: nat) returns (c: nat)
    ensures exists k :: IsNextPower(n, k) && c == (if Pow2(k) > FD_SETSIZE then FD_SETSIZE else Pow2(k)) + 1
    ensures n <= FD_SETSIZE ==> n < c <= FD_SETSIZE + 1
  {
    var bits, tmp := 0, n;
    while tmp != 0
      invariant Shifted(n, bits, tmp)
      decreases tmp
    {
      ShiftOnce(n, bits, tmp);
      hide Shifted;
      tmp := tmp / 2;
      bits := bits + 1;
    }
    ShiftedOut(n, bits);
    c := (if Pow2(bits) > FD_SETSIZE then FD_SETSIZE else Pow2(bits)) + 1;
  }

  class Selector {
    var fds: array<Item>  // no element as long as it is NULL
    var maxFd: int
    var masterR: set<int>
    var masterW: set<int>
    /** All that happened since the selector was made. */
    ghost var log: seq<Event>

    ghost function Table(): Table
      reads this
    {
      Play(log)
    }

    /** The items are the table. */
    ghost predicate Stored(t: Table)
      reads this, fds
    {
      && (forall fd :: fd in t ==> 0 <= fd < fds.Length)
      && (forall i :: 0 <= i < fds.Length ==>
            Used(fds[i]) == (i in t) && (Used(fds[i]) ==> fds[i].fd == i && EntryOf(fds[i]) == t[i]))
    }

    ghost predicate Valid()
      reads this, fds
    {
      && Legal(log) && fds.Length > 0
      && Stored(Table())
      && masterR == Interested(Table(), OP_READ) && masterW == Interested(Table(), OP_WRITE)
      && IsMax(maxFd, Table().Keys)
    }

    /** Every descriptor has a slot, and an unused slot has no interest: what `selector_new(1024)`
        makes, as the proxy does. */
    ghost predicate Roomy()
      reads this, fds
    {
      && fds.Length > FD_SETSIZE
      && forall i :: 0 <= i < fds.Length && !Used(fds[i]) ==> fds[i].interest == OP_NOOP
    }

    /** The zeroed struct of `selector_new`. */
    constructor ()
      ensures fds.Length == 0 && maxFd == 0 && masterR == {} && masterW == {} && log == [] && fresh(fds)
    {
      fds := new Item[0];
      maxFd, masterR, masterW, log := 0, {}, {}, [];
    }

    /** `items_init`. */
    method ItemsInit(last: nat)
      requires last <= fds.Length
      modifies fds
      ensures forall i :: 0 <= i < last ==> fds[i] == old(fds[i])
      ensures forall i :: last <= i < fds.Length ==> fds[i] == old(fds[i]).(fd := FD_UNUSED)
    {
      for i := last to fds.Length
        invariant forall k :: 0 <= k < last || i <= k < fds.Length ==> fds[k] == old(fds[k])
        invariant forall k :: last <= k < i ==> fds[k] == old(fds[k]).(fd := FD_UNUSED)
      {
        fds[i] := fds[i].(fd := FD_UNUSED);
      }
    }

    /** `ensure_capacity`. Memory may run out; what `realloc` adds is not blank. */
    method EnsureCapacity(n: nat, allocates: bool) returns (ret: Status)
      modifies this`fds
      ensures ret == Success <==> n < old(fds.Length) || (n <= FD_SETSIZE && allocates)
      ensures ret == MaxFd <==> old(fds.Length) <= n && FD_SETSIZE < n
      ensures ret in {Success, MaxFd, NoMemory}
      ensures ret == Success ==> n < fds.Length
      ensures ret != Success || n < old(fds.Length) ==> fds == old(fds)
      ensures old(fds.Length) <= fds.Length && (fds == old(fds) || fresh(fds))
      ensures forall i :: 0 <= i < old(fds.Length) ==> fds[i] == old(fds[i])
      ensures forall i :: old(fds.Length) <= i < fds.Length ==> !Used(fds[i])
      ensures old(fds.Length) == 0 ==> forall i :: 0 <= i < fds.Length ==> fds[i].interest == OP_NOOP
      ensures old(fds.Length) == 0 && ret == Success && n == FD_SETSIZE ==> fds.Length == FD_SETSIZE + 1
    {
      if n < fds.Length {
        ret := Success;
      } else if n > FD_SETSIZE {
        ret := MaxFd;
      } else {
        var newSize := NextCapacity(n);
        if !allocates {
          ret := NoMemory;
        } else if fds.Length == 0 {
          fds := new Item[newSize](_ => BLANK);
          ItemsInit(0);
          ret := Success;
        } else {
          var oldSize := fds.Length;
          var tmp := new Item[newSize];
          forall i | 0 <= i < oldSize {
            tmp[i] := fds[i];
          }
          fds := tmp;
          ItemsInit(oldSize);
          ret := Success;
        }
      }
    }

    /** `items_max_fd`: it only looks as far as the old maximum. */
    method ItemsMaxFd(ghost t: Table) returns (max: int)
      requires Stored(t) && 0 <= maxFd < fds.Length && forall fd :: fd in t ==> fd <= maxFd
      ensures IsMax(max, t.Keys)
    {
      max := 0;
      for i := 0 to maxFd + 1
        invariant 0 <= max < fds.Length
        invariant forall fd :: fd in t && fd < i ==> fd <= max
        invariant max in t || (max == 0 && forall fd :: fd in t ==> i <= fd)
      {
        if Used(fds[i]) {
          if fds[i].fd > max || i == 0 {
            max := fds[i].fd;
          }
        }
      }
    }

    /** `items_update_fdset_for_fd`. */
    method ItemsUpdateFdsetForFd(item: Item)
      requires ValidFd(item.fd)
      modifies this`masterR, this`masterW
      ensures InSets(item.fd, item.interest, old(masterR), old(masterW), masterR, masterW)
      ensures masterR == if Wants(item.interest, OP_READ) then old(masterR) + {item.fd} else old(masterR) - {item.fd}
      ensures masterW == if Wants(item.interest, OP_WRITE) then old(masterW) + {item.fd} else old(masterW) - {item.fd}
    {
      InterestBits(item.interest);
      hide Wants;
      masterR, masterW := masterR - {item.fd}, masterW - {item.fd};
      if Used(item) {
        if Wants(item.interest, OP_READ) {
          masterR := masterR + {item.fd};
        }
        if Wants(item.interest, OP_WRITE) {
          masterW := masterW + {item.fd};
        }
      }
    }

    /** One more event. */
    ghost method Record(ev: Event)
      requires Legal(log) && May(Table(), ev)
      modifies this`log
      ensures log == old(log) + [ev] && Legal(log) && Table() == After(old(Table()), ev)
    {
      LegalSnoc(log, ev);
      PlaySnoc(log, ev);
      log := log + [ev];
    }

    /** The last part of `selector_register`. */
    method Insert(fd: int, handler: Handler, interest: Interest, data: int)
      requires Valid() && ValidFd(fd) && fd < fds.Length && fd !in Table()
      modifies this`log, this`maxFd, this`masterR, this`masterW, fds
      ensures Valid() && (old(Roomy()) ==> Roomy())
      ensures log == old(log) + [Registered(fd, Entry(handler, interest, data))]
      ensures Table() == old(Table())[fd := Entry(handler, interest, data)]
      ensures InSets(fd, interest, old(masterR), old(masterW), masterR, masterW)
      ensures maxFd == if fd > old(maxFd) then fd else old(maxFd)
      ensures fds[fd] == Item(fd, interest, handler, data) && forall k :: 0 <= k < fds.Length && k != fd ==> fds[k] == old(fds[k])
    {
      hide Play, Legal, InSets, Wants;
      ghost var e := Entry(handler, interest, data);
      RecordMax(maxFd, Table().Keys, fd);
      RecordInterest(Table(), fd, e);
      fds[fd] := Item(fd, interest, handler, data);
      if fd > maxFd {
        maxFd := fd;
      }
      ItemsUpdateFdsetForFd(fds[fd]);
      Record(Registered(fd, e));
    }

    /** The guard of `selector_register`. It makes a slot for the descriptor exactly if this is not
        the current size, which the comparison misses. */
    method MakeRoom(fd: int, allocates: bool) returns (ret: Status)
      requires Valid() && ValidFd(fd)
      modifies this`fds
      ensures Valid() && (fds == old(fds) || fresh(fds)) && (old(Roomy()) ==> Roomy() && fds == old(fds))
      ensures ret == if old(fds.Length) < fd && !allocates then NoMemory else Success
      ensures ret == Success ==> (fd < fds.Length <==> fd != old(fds.Length))
    {
      ret := Success;
      if fd > fds.Length {
        ret := EnsureCapacity(fd, allocates);
      }
    }

    /** `selector_register`, for a descriptor that its guard makes room for. */
    method Register(fd: int, handler: Option<Handler>, interest: Interest, data: int, allocates: bool)
      returns (ret: Status)
      requires Valid() && (ValidFd(fd) ==> fd != fds.Length)
      modifies this, fds
      ensures Valid() && (fds == old(fds) || fresh(fds))
      ensures old(Roomy()) ==> Roomy() && fds == old(fds)
      ensures ret == if fd < 0 || 1024 <= fd || handler.None? then IllegalArgument
                     else if old(fds.Length) < fd && !allocates then NoMemory
                     else if fd in old(Table()) then FdInUse else Success
      ensures log == if ret == Success then old(log) + [Registered(fd, Entry(handler.value, interest, data))] else old(log)
      ensures Table() == if ret == Success then old(Table())[fd := Entry(handler.value, interest, data)] else old(Table())
      ensures ret == Success ==>
                && InSets(fd, interest, old(masterR), old(masterW), masterR, masterW)
                && maxFd == (if fd > old(maxFd) then fd else old(maxFd))
                && fd < fds.Length && fds[fd] == Item(fd, interest, handler.value, data)
    {
      hide InSets, Wants;
      if !ValidFd(fd) || handler.None? {
        return IllegalArgument;
      }
      ret := MakeRoom(fd, allocates);
      if ret != Success {
        return;
      }
      if Used(fds[fd]) {
        ret := FdInUse;
      } else {
        Insert(fd, handler.value, interest, data);
        ret := Success;
      }
    }

    /** `selector_set_interest`. */
    method SetInterest(fd: int, i: Interest) returns (ret: Status)
      requires Valid() && (ValidFd(fd) ==> fd < fds.Length)
      modifies this, fds
      ensures Valid() && fds == old(fds) && (old(Roomy()) ==> Roomy())
      ensures ret == if fd in old(Table()) then Success else IllegalArgument
      ensures log == if ret == Success then old(log) + [Changed(fd, i)] else old(log)
      ensures Table() == if ret == Success then After(old(Table()), Changed(fd, i)) else old(Table())
      ensures ret == Success ==>
                && InSets(fd, i, old(masterR), old(masterW), masterR, masterW) && maxFd == old(maxFd)
                && fds[fd] == old(fds[fd]).(interest := i)
      ensures ret == Success && i == 5 ==> fd in masterR && fd in masterW
      ensures ret == Success && i == 1 ==> fd in masterR && fd !in masterW
      ensures ret == Success && i == 4 ==> fd !in masterR && fd in masterW
      ensures ret == Success && i == 0 ==> fd !in masterR && fd !in masterW
    {
      hide Play, Legal, Interested, May, Wants;
      LegalKeys(log);
      if !ValidFd(fd) {
        return IllegalArgument;
      }
      if !Used(fds[fd]) {
        return IllegalArgument;
      }
      RecordInterest(Table(), fd, Table()[fd].(interest := i));
      fds[fd] := fds[fd].(interest := i);
      ItemsUpdateFdsetForFd(fds[fd]);
      assert Table()[fd := Table()[fd].(interest := i)].Keys == Table().Keys;
      Record(Changed(fd, i));
      ret := Success;
    }

    /** The second half of `selector_unregister_fd`. */
    method Clear(fd: int)
      requires Valid() && fd in Table()
      modifies this, fds
      ensures Valid() && fds == old(fds) && (old(Roomy()) ==> Roomy())
      ensures log == old(log) + [Unregistered(fd)] && Table() == old(Table()) - {fd}
      ensures masterR == old(masterR) - {fd} && masterW == old(masterW) - {fd}
      ensures !Used(fds[fd]) && forall k :: 0 <= k < fds.Length && k != fd ==> fds[k] == old(fds[k])
    {
      ghost var t := Table();
      LegalKeys(log);
      ForgetInterest(t, fd);
      fds[fd] := fds[fd].(interest := OP_NOOP);
      ItemsUpdateFdsetForFd(fds[fd]);
      fds[fd] := BLANK;
      fds[fd] := fds[fd].(fd := FD_UNUSED);
      assert Stored(t - {fd});
      maxFd := ItemsMaxFd(t - {fd});
      assert (t - {fd}).Keys == t.Keys - {fd};
      Record(Unregistered(fd));
    }

    lemma NeverFull()
      requires Roomy()
      ensures fds.Length > FD_SETSIZE
    {
    }

    lemma Slots(fd: int)
      requires Valid() && Roomy()
      ensures fd in Table() ==> ValidFd(fd)
      ensures ValidFd(fd) ==> Used(fds[fd]) == (fd in Table())
      ensures fd in Table() ==> EntryOf(fds[fd]) == Table()[fd] && fds[fd].fd == fd
      ensures ValidFd(fd) && fd !in Table() ==> fds[fd].interest == OP_NOOP
    {
      LegalKeys(log);
    }

    /** A handler is about to run. */
    ghost method NoteRun(fd: int, kind: Kind, data: int)
      requires Valid() && May(Table(), Ran(fd, kind, data))
      modifies this`log
      ensures Valid() && (old(Roomy()) ==> Roomy())
      ensures log == old(log) + [Ran(fd, kind, data)] && Table() == old(Table())
    {
      Record(Ran(fd, kind, data));
    }

    /** What every operation does to the history and keeps, when a handler may run inside it and no
        descriptor of `closing` may be unregistered. */
    twostate predicate Went(closing: set<int>)
      reads this, fds
    {
      && Valid() && Roomy() && fds == old(fds)
      && old(log) <= log && NoDispatch(log, |old(log)|, |log|)
      && forall c :: c in closing && c in old(Table()) ==> c in Table()
    }

    /** Anything a handler may ask for. */
    method Act(op: Event, handler: Option<Handler>, allocates: bool, closing: set<int>)
      requires Valid() && Roomy()
      modifies this, fds
      ensures Went(closing)
      decreases AllFds() - closing, 1
    {
      hide Valid, Roomy, Play;
      NeverFull();
      match op {
        case Registered(fd, e) =>
          var _ := Register(fd, handler, e.interest, e.data, allocates);
        case Unregistered(fd) =>
          if fd !in closing {
            var _ := UnregisterFd(fd, closing);
          }
        case Changed(fd, i) =>
          var _ := SetInterest(fd, i);
        case Ran(_, _, _) =>
      }
    }

    /** A handler. It may register, unregister and change whatever it likes, any number of times;
        only a descriptor that is being closed already is not closed again. */
    method Callback(closing: set<int>)
      requires Valid() && Roomy()
      modifies this, fds
      ensures Went(closing)
      decreases AllFds() - closing, 2
    {
      hide Valid, Roomy, Play;
      var wish: int := *;
      var steps := if wish < 0 then 0 else wish;
      for k := 0 to steps
        invariant Went(closing)
      {
        var op: Event, handler: Option<Handler>, allocates: bool := *, *, *;
        Act(op, handler, allocates, closing);
      }
    }

    /** `selector_unregister_fd`. */
    method UnregisterFd(fd: int, closing: set<int>) returns (ret: Status)
      requires Valid() && Roomy() && fd !in closing
      modifies this, fds
      ensures Went(closing)
      ensures ret == if fd in old(Table()) then Success else IllegalArgument
      ensures ret != Success ==> log == old(log)
      ensures ret == Success ==> fd !in Table() && log[|log| - 1] == Unregistered(fd)
      ensures ret == Success && !old(Table())[fd].handler.onClose ==>
                && log == old(log) + [Unregistered(fd)]
                && masterR == old(masterR) - {fd} && masterW == old(masterW) - {fd}
                && forall k :: 0 <= k < fds.Length && k != fd ==> fds[k] == old(fds[k])
      ensures ret == Success && old(Table())[fd].handler.onClose ==>
                |old(log)| + 1 < |log| && log[|old(log)|] == Ran(fd, CloseKind, old(Table())[fd].data)
      decreases AllFds() - closing, 0
    {
      hide Valid, Roomy, Play, Used;
      NeverFull();
      Slots(fd);
      if !ValidFd(fd) {
        return IllegalArgument;
      }
      if !Used(fds[fd]) {
        return IllegalArgument;
      }
      if fds[fd].handler.onClose {
        NoteRun(fd, CloseKind, fds[fd].data);
        Callback(closing + {fd});
      }
      Clear(fd);
      ret := Success;
    }

    /** The call of a handler that `handle_iteration` makes. */
    method RunHandler(fd: int, kind: Kind, data: int)
      requires Valid() && Roomy() && kind != CloseKind && May(Table(), Ran(fd, kind, data))
      modifies this, fds
      ensures Valid() && Roomy() && fds == old(fds) && old(log) <= log
      ensures Dispatched(log, |old(log)|, |log|, true, Ran(fd, kind, data))
    {
      hide Valid, Roomy, Play;
      NoteRun(fd, kind, data);
      Callback({});
    }

    /** The read and the write handler of one descriptor. `bug` is the failed assertion of the source
        for an event without a handler. */
    method OneTurn(i: int, slaveR: set<int>, slaveW: set<int>) returns (bug: bool, ghost mid: nat)
      requires Valid() && Roomy() && ValidFd(i)
      modifies this, fds
      ensures Valid() && Roomy() && fds == old(fds) && old(log) <= log
      ensures !bug ==> |old(log)| <= mid <= |log| && Turn(log, |old(log)|, mid, |log|, i, slaveR, slaveW)
      ensures bug ==> Missing(Table(), i, slaveR, slaveW)
    {
      hide Valid, Roomy, Play, Wants;
      NeverFull();
      Slots(i);
      bug, mid := false, |log|;
      assert log[..|log|] == log;
      if Used(fds[i]) {
        var data := fds[i].data;
        if fds[i].fd in slaveR {
          if Wants(fds[i].interest, OP_READ) {
            if !fds[i].handler.onRead {
              return true, mid;
            }
            RunHandler(i, ReadKind, data);
          }
        }
        mid := |log|;
        ghost var between := log;
        assert log[..|log|] == log;
        Slots(i);
        NoInterest();
        if i in slaveW {
          if Wants(fds[i].interest, OP_WRITE) {
            if !fds[i].handler.onWrite {
              return true, mid;
            }
            RunHandler(i, WriteKind, data);
          }
        }
        assert log[..mid] == between && between[..|old(log)|] == old(log);
        assert log[..|old(log)|] == old(log);
      }
    }

    /** `handle_iteration`, over any outcome of the system call. */
    method HandleIteration(slaveR: set<int>, slaveW: set<int>)
      returns (bug: bool, ghost turns: seq<nat>, ghost mids: seq<nat>)
      requires Valid() && Roomy()
      modifies this, fds
      ensures Valid() && Roomy() && fds == old(fds) && old(log) <= log
      ensures !bug ==> Pass(log, turns, mids, old(maxFd), slaveR, slaveW)
      ensures bug ==> 0 <= |turns| - 1 <= old(maxFd) && Missing(Table(), |turns| - 1, slaveR, slaveW)
      ensures bug ==> Pass(log, turns, mids, |turns| - 2, slaveR, slaveW)
      ensures turns[0] == |old(log)| && (!bug ==> turns[old(maxFd) + 1] == |log|)
    {
      hide Valid, Roomy, Play, Turn;
      MaxIsValid();
      var n := maxFd;
      bug, turns, mids := false, [|log|], [];
      for i := 0 to n + 1
        invariant Valid() && Roomy() && fds == old(fds) && old(log) <= log
        invariant |turns| == i + 1 && turns[0] == |old(log)| && turns[i] == |log|
        invariant Pass(log, turns, mids, i - 1, slaveR, slaveW)
      {
        ghost var before := log;
        var failed, mid := OneTurn(i, slaveR, slaveW);
        if failed {
          PassLater(before, log, turns, mids, i - 1, slaveR, slaveW);
          bug := true;
          return;
        }
        PassGrows(before, log, turns, mids, i - 1, slaveR, slaveW, mid);
        turns, mids := turns + [|log|], mids + [mid];
      }
    }

    /** `selector_select` between two waits: the system call leaves in each set some of the
        descriptors that were asked for. */
    method Select(readable: set<int>, writable: set<int>) returns (bug: bool, ghost turns: seq<nat>, ghost mids: seq<nat>)
      requires Valid() && Roomy()
      modifies this, fds
      ensures Valid() && Roomy() && fds == old(fds) && old(log) <= log
      ensures !bug ==> Pass(log, turns, mids, old(maxFd), old(masterR) * readable, old(masterW) * writable)
      ensures bug ==> exists fd :: 0 <= fd <= old(maxFd) && Missing(Table(), fd, old(masterR) * readable, old(masterW) * writable)
      ensures !bug ==> turns[0] == |old(log)| && turns[old(maxFd) + 1] == |log|
    {
      bug, turns, mids := HandleIteration(masterR * readable, masterW * writable);
    }

    lemma MaxIsValid()
      requires Valid()
      ensures ValidFd(maxFd)
    {
      LegalKeys(log);
    }
  }

  lemma NoInterest()
    ensures forall op :: !Wants(OP_NOOP, op)
  {
  }

  lemma TurnGrows(log: seq<Event>, more: seq<Event>, from: nat, mid: nat, to: nat, fd: int, r: set<int>, w: set<int>)
    requires log <= more && from <= mid <= to <= |log| && Turn(log, from, mid, to, fd, r, w)
    ensures Turn(more, from, mid, to, fd, r, w)
  {
    assert log[..from] == more[..from] && log[..mid] == more[..mid];
  }

  lemma PassGrows(log: seq<Event>, more: seq<Event>, turns: seq<nat>, mids: seq<nat>, n: int, r: set<int>, w: set<int>,
                  mid: nat)
    requires log <= more && Pass(log, turns, mids, n, r, w) && turns[n + 1] == |log| <= mid <= |more|
    requires Turn(more, |log|, mid, |more|, n + 1, r, w)
    ensures Pass(more, turns + [|more|], mids + [mid], n + 1, r, w)
  {
    hide Turn;
    forall fd | 0 <= fd <= n + 1 ensures TurnAt(more, turns + [|more|], mids + [mid], fd, r, w) {
      if fd <= n {
        assert TurnAt(log, turns, mids, fd, r, w);
        TurnGrows(log, more, turns[fd], mids[fd], turns[fd + 1], fd, r, w);
      }
    }
  }

  lemma PassLater(log: seq<Event>, more: seq<Event>, turns: seq<nat>, mids: seq<nat>, n: int, r: set<int>, w: set<int>)
    requires log <= more && Pass(log, turns, mids, n, r, w)
    ensures Pass(more, turns, mids, n, r, w)
  {
    hide Turn;
    forall fd | 0 <= fd <= n ensures TurnAt(more, turns, mids, fd, r, w) {
      assert TurnAt(log, turns, mids, fd, r, w);
      TurnGrows(log, more, turns[fd], mids[fd], turns[fd + 1], fd, r, w);
    }
  }

  /** `selector_new`; without memory it makes nothing. */
  method SelectorNew(initialElements: nat, allocates: bool) returns (s: Selector, ok: bool)
    ensures fresh(s) && fresh(s.fds)
    ensures ok <==> initialElements <= FD_SETSIZE && allocates
    ensures ok ==> s.Valid() && s.Table() == map[] && s.log == [] && initialElements < s.fds.Length
    ensures ok && initialElements == 1024 ==> s.Roomy() && s.fds.Length == 1025
  {
    s := new Selector();
    var ret := s.EnsureCapacity(initialElements, allocates);
    ok := ret == Success;
  }

  /** Every descriptor that a selector can hold. */
  function AllFds(): set<int> { set fd | 0 <= fd < FD_SETSIZE && ValidFd(fd) }

  lemma RecordMax(m: int, keys: set<int>, fd: int)
    requires IsMax(m, keys) && 0 <= fd
    ensures IsMax(if fd > m then fd else m, keys + {fd})
  {
  }

  lemma RecordInterest(t: Table, fd: int, e: Entry)
    ensures forall op {:trigger Interested(t, op)} ::
              Interested(t[fd := e], op) ==
              if Wants(e.interest, op) then Interested(t, op) + {fd} else Interested(t, op) - {fd}
  {
  }

  lemma ForgetInterest(t: Table, fd: int)
    ensures forall op {:trigger Interested(t, op)} :: Interested(t - {fd}, op) == Interested(t, op) - {fd}
  {
  }
}
