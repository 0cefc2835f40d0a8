/** What selector/selector.c keeps about descriptors, as a history of events: the table is what the
    events leave, and a handler may only run for a descriptor that is in it. */
module SelectorTable {

  /** The bits of `fd_interest`. */
  type Interest = bv8

  const OP_NOOP: Interest := 0
  const OP_READ: Interest := 1
  const OP_WRITE: Interest := 4

  predicate Wants(interest: Interest, op: Interest) { interest & op != 0 }

  /** An interest is a set of bits: the lowest for reading, the third for writing. */
  lemma InterestBits(i: Interest)
    ensures Wants(i, OP_READ) <==> (i as int) % 2 == 1
    ensures Wants(i, OP_WRITE) <==> (i as int) / 4 % 2 == 1
  {
    assert (i & 1) as int == (i as int) % 2;
    assert (i & 4) as int == (i as int) / 4 % 2 * 4;
  }

  /** Interests are combined with a bitwise or. */
  lemma InterestUnion(i: Interest, j: Interest, op: Interest)
    ensures Wants(i | j, op) == (Wants(i, op) || Wants(j, op))
    ensures !Wants(OP_NOOP, op)
  {
  }

  /** Which of the callbacks of an `fd_handler` are not NULL. */
  datatype Handler = Handler(onRead: bool, onWrite: bool, onClose: bool)

  datatype Entry = Entry(handler: Handler, interest: Interest, data: int)

  type Table = map<int, Entry>

  datatype Kind = ReadKind | WriteKind | CloseKind

  datatype Event =
    | Registered(fd: int, e: Entry)
    | Unregistered(fd: int)
    | Changed(fd: int, i: Interest)
    | Ran(fd: int, kind: Kind, data: int)  // a handler was called with this data

  /** `FD_SETSIZE`. */
  const FD_SETSIZE: nat := 1024

  predicate ValidFd(fd: int) { 0 <= fd < FD_SETSIZE }

  function After(t: Table, ev: Event): Table {
    match ev
    case Registered(fd, e) => t[fd := e]
    case Unregistered(fd) => t - {fd}
    case Changed(fd, i) => if fd in t then t[fd := t[fd].(interest := i)] else t
    case Ran(_, _, _) => t
  }

  /** The table that a history leaves. */
  function Play(log: seq<Event>): Table {
    if log == [] then map[] else After(Play(log[..|log| - 1]), log[|log| - 1])
  }

  /** What may happen next. A handler runs only if there is one. */
  predicate May(t: Table, ev: Event) {
    match ev
    case Registered(fd, _) => ValidFd(fd) && fd !in t
    case Unregistered(fd) => fd in t
    case Changed(fd, _) => fd in t
    case Ran(fd, kind, _) =>
      && fd in t
      && (kind == ReadKind ==> Wants(t[fd].interest, OP_READ) && t[fd].handler.onRead)
      && (kind == WriteKind ==> Wants(t[fd].interest, OP_WRITE) && t[fd].handler.onWrite)
      && (kind == CloseKind ==> t[fd].handler.onClose)
  }

  ghost predicate Legal(log: seq<Event>) {
    forall k :: 0 <= k < |log| ==> May(Play(log[..k]), log[k])
  }

  lemma PlaySnoc(log: seq<Event>, ev: Event)
    ensures Play(log + [ev]) == After(Play(log), ev)
  {
    assert (log + [ev])[..|log|] == log;
  }

  lemma LegalSnoc(log: seq<Event>, ev: Event)
    requires Legal(log) && May(Play(log), ev)
    ensures Legal(log + [ev])
  {
    var l := log + [ev];
    forall k | 0 <= k < |l| ensures May(Play(l[..k]), l[k]) {
      if k < |log| {
        assert l[..k] == log[..k];
      } else {
        assert l[..k] == log;
      }
    }
  }

  lemma {:induction false} LegalKeys(log: seq<Event>)
    requires Legal(log)
    ensures forall fd :: fd in Play(log) ==> ValidFd(fd)
  {
    if log != [] {
      var front := log[..|log| - 1];
      forall k | 0 <= k < |front| ensures May(Play(front[..k]), front[k]) {
        assert front[..k] == log[..k];
      }
      LegalKeys(front);
    }
  }

  /** A descriptor that comes into the table between two moments was registered in between. */
  lemma {:induction false} Appeared(log: seq<Event>, i: nat, j: nat, fd: int) returns (k: nat)
    requires i <= j <= |log| && fd !in Play(log[..i]) && fd in Play(log[..j])
    ensures i <= k < j && log[k].Registered? && log[k].fd == fd
  {
    assert log[..j][..j - 1] == log[..j - 1];
    if fd in Play(log[..j - 1]) {
      k := Appeared(log, i, j - 1, fd);
    } else {
      k := j - 1;
    }
  }

  /** Once a descriptor is unregistered no handler runs for it, unless it is registered again. */
  lemma SilentAfterUnregister(log: seq<Event>, i: nat, j: nat, fd: int) returns (k: nat)
    requires Legal(log) && i < j < |log|
    requires log[i] == Unregistered(fd) && log[j].Ran? && log[j].fd == fd
    ensures i < k < j && log[k].Registered? && log[k].fd == fd
  {
    assert log[..i + 1] == log[..i] + [log[i]];
    PlaySnoc(log[..i], log[i]);
    assert May(Play(log[..j]), log[j]);
    k := Appeared(log, i + 1, j, fd);
  }

  /** A handler only runs for a registered descriptor, where there is one and the interest asks for it. */
  lemma RunsOnRequest(log: seq<Event>, k: nat)
    requires Legal(log) && k < |log| && log[k].Ran?
    ensures var t := Play(log[..k]); var fd := log[k].fd;
            && fd in t
            && (log[k].kind == ReadKind ==> (t[fd].interest as int) % 2 == 1 && t[fd].handler.onRead)
            && (log[k].kind == WriteKind ==> (t[fd].interest as int) / 4 % 2 == 1 && t[fd].handler.onWrite)
            && (log[k].kind == CloseKind ==> t[fd].handler.onClose)
  {
    var t := Play(log[..k]);
    assert May(t, log[k]);
    InterestBits(t[log[k].fd].interest);
    hide Wants;
  }

  /** A descriptor that no event touches keeps its entry. */
  lemma {:induction false} Untouched(log: seq<Event>, i: nat, j: nat, fd: int)
    requires i <= j <= |log|
    requires forall k :: i <= k < j ==> log[k].Ran? || log[k].fd != fd
    ensures (fd in Play(log[..i])) == (fd in Play(log[..j]))
    ensures fd in Play(log[..i]) ==> Play(log[..i])[fd] == Play(log[..j])[fd]
  {
    if i < j {
      Untouched(log, i, j - 1, fd);
      assert log[..j][..j - 1] == log[..j - 1];
    }
  }

  /** `max_fd`: the greatest descriptor in use, 0 if there is none. */
  ghost predicate IsMax(m: int, keys: set<int>) {
    if keys == {} then m == 0 else m in keys && forall k :: k in keys ==> k <= m
  }

  /** `master_r` and `master_w`. */
  function Interested(t: Table, op: Interest): set<int> {
    set fd | fd in t && Wants(t[fd].interest, op)
  }

  /** No read or write handler runs in a stretch of the history. */
  ghost predicate NoDispatch(log: seq<Event>, from: nat, to: nat)
    requires to <= |log|
  {
    forall k :: from <= k < to ==> log[k].Ran? ==> log[k].kind == CloseKind
  }

  predicate Due(t: Table, fd: int, op: Interest, ready: set<int>) {
    fd in t && fd in ready && Wants(t[fd].interest, op)
  }

  /** An event that is due has no handler. */
  predicate Missing(t: Table, fd: int, r: set<int>, w: set<int>) {
    (Due(t, fd, OP_READ, r) && !t[fd].handler.onRead) || (Due(t, fd, OP_WRITE, w) && !t[fd].handler.onWrite)
  }

  /** One call of a handler and all that it does to the table; or nothing if it is not due. */
  ghost predicate Dispatched(log: seq<Event>, from: nat, to: nat, due: bool, run: Event) {
    && from <= to <= |log|
    && if due then from < to && log[from] == run && NoDispatch(log, from + 1, to) else from == to
  }

  /** The turn of one descriptor, split at `mid`: the read handler if it is due, then the write
      handler if it is due after that. Both get the data of the moment the turn began. */
  ghost predicate Turn(log: seq<Event>, from: nat, mid: nat, to: nat, fd: int, r: set<int>, w: set<int>)
    requires from <= mid <= to <= |log|
  {
    var t := Play(log[..from]);
    if fd !in t then from == to
    else
      && Dispatched(log, from, mid, Due(t, fd, OP_READ, r), Ran(fd, ReadKind, t[fd].data))
      && Dispatched(log, mid, to, Due(Play(log[..mid]), fd, OP_WRITE, w), Ran(fd, WriteKind, t[fd].data))
  }

  ghost predicate TurnAt(log: seq<Event>, turns: seq<nat>, mids: seq<nat>, fd: int, r: set<int>, w: set<int>) {
    && 0 <= fd < |mids| && fd + 1 < |turns|
    && turns[fd] <= mids[fd] <= turns[fd + 1] <= |log|
    && Turn(log, turns[fd], mids[fd], turns[fd + 1], fd, r, w)
  }

  /** A pass of `handle_iteration` over the descriptors 0 to `n`. */
  ghost predicate Pass(log: seq<Event>, turns: seq<nat>, mids: seq<nat>, n: int, r: set<int>, w: set<int>) {
    && n >= -1 && |turns| == n + 2 && |mids| == n + 1
    && forall fd :: 0 <= fd <= n ==> TurnAt(log, turns, mids, fd, r, w)
  }

  lemma {:induction false} TurnsGrow(log: seq<Event>, turns: seq<nat>, mids: seq<nat>, n: int, r: set<int>, w: set<int>,
                                     a: int, b: int)
    requires Pass(log, turns, mids, n, r, w) && 0 <= a <= b <= n + 1
    ensures turns[a] <= turns[b]
    decreases b - a
  {
    hide Turn;
    if a < b {
      assert TurnAt(log, turns, mids, b - 1, r, w);
      TurnsGrow(log, turns, mids, n, r, w, a, b - 1);
    }
  }

  /** Where a read or write handler can have been called: at the start of a half of its turn. */
  lemma {:induction false} RunsAtTurns(log: seq<Event>, turns: seq<nat>, mids: seq<nat>, n: int, r: set<int>, w: set<int>,
                                       m: int, k: nat)
    requires Pass(log, turns, mids, n, r, w) && 0 <= m <= n + 1 && turns[0] <= k < turns[m] <= |log|
    requires log[k].Ran? && log[k].kind != CloseKind
    ensures 0 <= log[k].fd < m && k == if log[k].kind == ReadKind then turns[log[k].fd] else mids[log[k].fd]
    ensures if log[k].kind == ReadKind then Due(Play(log[..k]), log[k].fd, OP_READ, r)
            else Due(Play(log[..k]), log[k].fd, OP_WRITE, w)
    decreases m
  {
    var f := m - 1;
    assert TurnAt(log, turns, mids, f, r, w);
    if k < turns[f] {
      hide Turn;
      RunsAtTurns(log, turns, mids, n, r, w, m - 1, k);
    }
  }

  /** In a pass, a handler that is due and whose descriptor nobody touches runs exactly once, with its
      own data; one that is not due does not run. */
  lemma ExactlyOnce(log: seq<Event>, turns: seq<nat>, mids: seq<nat>, n: int, r: set<int>, w: set<int>, fd: int)
    requires Pass(log, turns, mids, n, r, w) && 0 <= fd <= n && turns[n + 1] == |log|
    requires forall k :: turns[0] <= k < |log| ==> log[k].Ran? || log[k].fd != fd
    requires turns[0] <= |log| && fd in Play(log[..turns[0]])
    ensures var e := Play(log[..turns[0]])[fd];
            && (forall k :: turns[0] <= k < |log| && log[k].Ran? && log[k].fd == fd && log[k].kind == ReadKind ==>
                  k == turns[fd] && fd in r && Wants(e.interest, OP_READ))
            && (forall k :: turns[0] <= k < |log| && log[k].Ran? && log[k].fd == fd && log[k].kind == WriteKind ==>
                  k == mids[fd] && fd in w && Wants(e.interest, OP_WRITE))
            && (fd in r && Wants(e.interest, OP_READ) ==>
                  turns[fd] < |log| && log[turns[fd]] == Ran(fd, ReadKind, e.data))
            && (fd in w && Wants(e.interest, OP_WRITE) ==>
                  mids[fd] < |log| && log[mids[fd]] == Ran(fd, WriteKind, e.data))
  {
    TurnsGrow(log, turns, mids, n, r, w, 0, fd);
    TurnsGrow(log, turns, mids, n, r, w, fd + 1, n + 1);
    assert TurnAt(log, turns, mids, fd, r, w);
    Untouched(log, turns[0], turns[fd], fd);
    Untouched(log, turns[0], mids[fd], fd);
    forall k | turns[0] <= k < |log| && log[k].Ran? && log[k].fd == fd && log[k].kind != CloseKind
      ensures k == (if log[k].kind == ReadKind then turns[fd] else mids[fd])
      ensures var e := Play(log[..turns[0]])[fd];
              if log[k].kind == ReadKind then fd in r && Wants(e.interest, OP_READ) else fd in w && Wants(e.interest, OP_WRITE)
    {
      RunsAtTurns(log, turns, mids, n, r, w, n + 1, k);
      Untouched(log, turns[0], k, fd);
    }
  }
}
