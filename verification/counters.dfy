/**
 Network byte counters: one open-addressed table per process, one per socket, fed by the same events
 and latched together once per interval.
 */
module Counters {
  import opened Common

  const NET_SIZE: nat := 4096
  const SOCK_SIZE: nat := 8192

  /** What an entry counts beside its process: everything, or one socket. */
  datatype Address = Whole | Socket(laddr: nat, lport: nat, raddr: nat, rport: nat, inode: nat)

  /** Bytes so far, bytes at the last latch, and what that latch reported. */
  datatype Tally = Tally(total: nat, prev: nat, delta: nat)

  datatype Entry = Entry(tgid: int, address: Address, send: Tally, recv: Tally)

  type Table = seq<Option<Entry>>

  const ZERO := Tally(0, 0, 0)

  function Side(e: Entry, sending: bool): Tally {
    if sending then e.send else e.recv
  }

  function Low32(x: int): bv32 {
    (x % 0x1_0000_0000) as bv32
  }

  /** The slot where probing starts. */
  function Home(size: nat, tgid: int, a: Address): (h: nat)
    requires size > 0
    ensures h < size
  {
    match a
    case Whole => tgid % size
    case Socket(_, lport, _, rport, inode) =>
      if inode != 0 then ((Low32(inode * 2654435761) ^ Low32(tgid)) as int) % size
      else ((Low32(tgid * 2654435761) ^ (Low32(lport * 65536) | Low32(rport))) as int) % size
  }

  /** Whether an entry is the one asked for: by inode when the caller has one, else by both ends. */
  predicate Matches(e: Entry, tgid: int, a: Address) {
    match a
    case Whole => e.tgid == tgid
    case Socket(laddr, lport, raddr, rport, inode) =>
      && e.tgid == tgid && e.address.Socket?
      && if inode != 0 then e.address.inode == inode
         else e.address.laddr == laddr && e.address.lport == lport && e.address.raddr == raddr && e.address.rport == rport
  }

  function Next(b: Table, s: nat): (n: nat)
    requires s < |b|
    ensures n < |b| && n == (s + 1) % |b|
  {
    if s + 1 == |b| then 0 else s + 1
  }

  /** The first of the next `left` slots that is empty or matches. */
  function Find(b: Table, s: nat, left: nat, tgid: int, a: Address): (r: Option<nat>)
    requires s < |b|
    ensures r.Some? ==> r.value < |b| && (b[r.value].Some? ==> Matches(b[r.value].value, tgid, a))
    decreases left
  {
    if left == 0 then None
    else if b[s].None? || Matches(b[s].value, tgid, a) then Some(s)
    else Find(b, Next(b, s), left - 1, tgid, a)
  }

  function Seek(b: Table, tgid: int, a: Address): (r: Option<nat>)
    requires b != []
    ensures r.Some? ==> r.value < |b| && (b[r.value].Some? ==> Matches(b[r.value].value, tgid, a))
  {
    Find(b, Home(|b|, tgid, a), |b|, tgid, a)
  }

  function Bump(e: Entry, bytes: nat, sending: bool): Entry {
    if sending then e.(send := e.send.(total := e.send.total + bytes))
    else e.(recv := e.recv.(total := e.recv.total + bytes))
  }

  /** Counts bytes against the entry found or created; nothing happens when the table is full. */
  function Submit(b: Table, tgid: int, a: Address, bytes: nat, sending: bool): (c: Table)
    requires b != []
    ensures |c| == |b|
  {
    var r := Seek(b, tgid, a);
    if r.None? then b
    else
      var e := if b[r.value].Some? then b[r.value].value else Entry(tgid, a, ZERO, ZERO);
      b[r.value := Some(Bump(e, bytes, sending))]
  }

  function LatchTally(t: Tally): Tally
    requires t.prev <= t.total
  {
    Tally(t.total, t.total, t.total - t.prev)
  }

  /** Totals never fall below what was latched. */
  ghost predicate Ordered(b: Table) {
    forall s :: 0 <= s < |b| && b[s].Some? ==> OrderedEntry(b[s].value)
  }

  predicate OrderedEntry(e: Entry) {
    e.send.prev <= e.send.total && e.recv.prev <= e.recv.total
  }

  function LatchEntry(e: Entry): Entry
    requires OrderedEntry(e)
  {
    e.(send := LatchTally(e.send), recv := LatchTally(e.recv))
  }

  function LatchSlot(o: Option<Entry>): Option<Entry>
    requires o.Some? ==> OrderedEntry(o.value)
  {
    if o.None? then None else Some(LatchEntry(o.value))
  }

  ghost function Latch(b: Table): (c: Table)
    requires Ordered(b)
    ensures |c| == |b| && forall s :: 0 <= s < |b| ==> c[s] == LatchSlot(b[s])
  {
    seq(|b|, s requires 0 <= s < |b| => LatchSlot(b[s]))
  }

  // ------------------------------------------------------------ sums over a process's entries

  datatype Part = Total | Unlatched | Delta

  function PartOf(t: Tally, p: Part): int {
    match p
    case Total => t.total
    case Unlatched => t.total - t.prev
    case Delta => t.delta
  }

  function Share(o: Option<Entry>, tgid: int, sending: bool, p: Part): int {
    if o.Some? && o.value.tgid == tgid then PartOf(Side(o.value, sending), p) else 0
  }

  function Sum(b: Table, tgid: int, sending: bool, p: Part): int {
    if b == [] then 0
    else Sum(b[..|b| - 1], tgid, sending, p) + Share(b[|b| - 1], tgid, sending, p)
  }

  lemma {:induction false} SumUpdate(b: Table, s: nat, o: Option<Entry>, tgid: int, sending: bool, p: Part)
    requires s < |b|
    ensures Sum(b[s := o], tgid, sending, p) ==
            Sum(b, tgid, sending, p) - Share(b[s], tgid, sending, p) + Share(o, tgid, sending, p)
  {
    hide Share;
    var m := |b| - 1;
    if s < m {
      SumUpdate(b[..m], s, o, tgid, sending, p);
      assert b[s := o][..m] == b[..m][s := o];
    } else {
      assert b[s := o][..m] == b[..m];
    }
  }

  /** Bytes go to the right process and direction, once, unless the table had no slot for them. */
  lemma SubmitSums(b: Table, tgid: int, a: Address, bytes: nat, sending: bool, t: int, d: bool, p: Part)
    requires b != [] && Seek(b, tgid, a).Some?
    ensures Sum(Submit(b, tgid, a, bytes, sending), t, d, p) ==
            Sum(b, t, d, p) + if t == tgid && d == sending && p != Delta then bytes else 0
  {
    hide Home, Find, Sum;
    var s := Seek(b, tgid, a).value;
    SumUpdate(b, s, Submit(b, tgid, a, bytes, sending)[s], t, d, p);
  }

  /** A latch reports exactly the bytes not reported before, and leaves none unreported. */
  lemma {:induction false} LatchSums(b: Table, t: int, d: bool)
    requires Ordered(b)
    ensures Sum(Latch(b), t, d, Total) == Sum(b, t, d, Total)
    ensures Sum(Latch(b), t, d, Delta) == Sum(b, t, d, Unlatched)
    ensures Sum(Latch(b), t, d, Unlatched) == 0
  {
    if b != [] {
      var m := |b| - 1;
      LatchSums(b[..m], t, d);
      assert Latch(b)[..m] == Latch(b[..m]);
    }
  }

  lemma SubmitOrdered(b: Table, tgid: int, a: Address, bytes: nat, sending: bool)
    requires b != [] && Ordered(b)
    ensures Ordered(Submit(b, tgid, a, bytes, sending))
  {
    hide Home, Find;
  }

  lemma LatchOrdered(b: Table)
    requires Ordered(b)
    ensures Ordered(Latch(b))
  {
  }

  // ------------------------------------------------------------ probing

  /** An entry's probe path leads to it. */
  ghost predicate Findable(b: Table) {
    forall s :: 0 <= s < |b| && b[s].Some? ==> FoundAt(b, b[s].value, s)
  }

  ghost predicate FoundAt(b: Table, e: Entry, s: nat)
    requires b != []
  {
    e.address == Whole && Seek(b, e.tgid, Whole) == Some(s)
  }

  predicate SameKey(o: Option<Entry>, p: Option<Entry>) {
    o.Some? == p.Some? && (o.Some? ==> o.value.tgid == p.value.tgid && o.value.address == p.value.address)
  }

  /** Probing looks at keys only, and a slot it did not stop at may be filled. */
  lemma {:induction false} FindKept(b: Table, c: Table, f: nat, s: nat, left: nat, tgid: int, a: Address)
    requires |b| == |c| && s < |b| && f < |b|
    requires forall t :: 0 <= t < |b| && t != f ==> SameKey(b[t], c[t])
    requires b[f].None? || SameKey(b[f], c[f])
    requires Find(b, s, left, tgid, a) != Some(f) || SameKey(b[f], c[f])
    ensures Find(c, s, left, tgid, a) == Find(b, s, left, tgid, a)
    decreases left
  {
    if left > 0 && b[s].Some? && !Matches(b[s].value, tgid, a) {
      FindKept(b, c, f, Next(b, s), left - 1, tgid, a);
    }
  }

  /** A probe that stopped at an empty slot stops there again once the slot holds its match. */
  lemma {:induction false} FindFilled(b: Table, f: nat, e: Entry, s: nat, left: nat, tgid: int, a: Address)
    requires s < |b| && f < |b| && b[f].None? && Matches(e, tgid, a)
    requires Find(b, s, left, tgid, a) == Some(f)
    ensures Find(b[f := Some(e)], s, left, tgid, a) == Some(f)
    decreases left
  {
    if s != f {
      FindFilled(b, f, e, Next(b, s), left - 1, tgid, a);
    }
  }

  lemma SubmitFindable(b: Table, tgid: int, bytes: nat, sending: bool)
    requires b != [] && Findable(b)
    ensures Findable(Submit(b, tgid, Whole, bytes, sending))
  {
    hide Home, Find;
    var c := Submit(b, tgid, Whole, bytes, sending);
    var r := Seek(b, tgid, Whole);
    if r.Some? {
      var f := r.value;
      forall s | 0 <= s < |c| && c[s].Some? ensures FoundAt(c, c[s].value, s) {
        if s == f {
          if b[f].None? {
            FindFilled(b, f, c[f].value, Home(|b|, tgid, Whole), |b|, tgid, Whole);
          } else {
            assert FoundAt(b, b[f].value, f);
            FindKept(b, c, f, Home(|b|, tgid, Whole), |b|, tgid, Whole);
          }
        } else {
          var t := b[s].value.tgid;
          assert FoundAt(b, b[s].value, s);
          FindKept(b, c, f, Home(|b|, t, Whole), |b|, t, Whole);
        }
      }
    }
  }

  lemma LatchFindable(b: Table)
    requires Ordered(b) && Findable(b)
    ensures Findable(Latch(b))
  {
    hide Home, Find;
    var c := Latch(b);
    forall s | 0 <= s < |c| && c[s].Some? ensures FoundAt(c, c[s].value, s) {
      var t := b[s].value.tgid;
      assert FoundAt(b, b[s].value, s);
      FindKept(b, c, 0, Home(|b|, t, Whole), |b|, t, Whole);
    }
  }

  /** What a reader of the process table finds for a process. */
  function Read(b: Table, tgid: int, sending: bool, p: Part): int
    requires b != []
  {
    var r := Seek(b, tgid, Whole);
    if r.Some? && b[r.value].Some? then PartOf(Side(b[r.value].value, sending), p) else 0
  }

  /** The process table has one entry per process, so reading it gives the process's sum. */
  lemma ReadIsSum(b: Table, tgid: int, sending: bool, p: Part)
    requires b != [] && Findable(b)
    ensures Read(b, tgid, sending, p) == Sum(b, tgid, sending, p)
  {
    hide Home, Find;
    var r := Seek(b, tgid, Whole);
    var home := if r.Some? then r.value else 0;
    forall s | 0 <= s < |b| && s != home ensures Share(b[s], tgid, sending, p) == 0 {
      if b[s].Some? {
        assert FoundAt(b, b[s].value, s);
      }
    }
    if b[home].Some? {
      assert FoundAt(b, b[home].value, home);
    }
    OneShare(b, home, tgid, sending, p);
  }

  lemma {:induction false} OneShare(b: Table, s: nat, tgid: int, sending: bool, p: Part)
    requires s < |b| && forall i :: 0 <= i < |b| && i != s ==> Share(b[i], tgid, sending, p) == 0
    ensures Sum(b, tgid, sending, p) == Share(b[s], tgid, sending, p)
  {
    hide Share;
    var m := |b| - 1;
    if s < m {
      OneShare(b[..m], s, tgid, sending, p);
    } else {
      NoShare(b[..m], tgid, sending, p);
    }
  }

  lemma {:induction false} NoShare(b: Table, tgid: int, sending: bool, p: Part)
    requires forall i :: 0 <= i < |b| ==> Share(b[i], tgid, sending, p) == 0
    ensures Sum(b, tgid, sending, p) == 0
  {
    hide Share;
    if b != [] {
      NoShare(b[..|b| - 1], tgid, sending, p);
    }
  }

  // ------------------------------------------------------------ which entry an event reaches

  /** The process and the socket of an entry are those of the event: the same inode if it has one, else the same two
      ends. */
  ghost predicate Belongs(e: Entry, tgid: int, a: Address) {
    && e.tgid == tgid
    && (a.Socket? ==>
          && e.address.Socket?
          && (a.inode != 0 ==> e.address.inode == a.inode)
          && (a.inode == 0 ==>
                && e.address.laddr == a.laddr && e.address.lport == a.lport
                && e.address.raddr == a.raddr && e.address.rport == a.rport))
  }

  /** An event is counted in an entry of its own process and socket. */
  lemma ReachesOwn(b: Table, tgid: int, a: Address, bytes: nat, sending: bool)
    requires b != [] && Seek(b, tgid, a).Some?
    ensures
      var i, c := Seek(b, tgid, a).value, Submit(b, tgid, a, bytes, sending);
      c[i].Some? && Belongs(c[i].value, tgid, a) && forall j :: 0 <= j < |b| && j != i ==> c[j] == b[j]
  {
    hide Home, Find;
  }

  /** Events of two processes, or of two sockets with inodes, never share an entry. */
  lemma NotShared(b: Table, i: nat, tgid: int, a: Address, tgid': int, a': Address)
    requires b != [] && Seek(b, tgid, a) == Seek(b, tgid', a') == Some(i) && b[i].Some? && a.Socket? && a'.Socket?
    ensures tgid == tgid' && (a.inode != 0 && a'.inode != 0 ==> a.inode == a'.inode)
  {
    hide Home, Find;
  }

  /** Once a socket has its entry, counting another event leaves it where it is. */
  lemma EntryStays(b: Table, tgid: int, a: Address, i: nat, tgid': int, a': Address, bytes: nat, sending: bool)
    requires b != [] && Seek(b, tgid, a) == Some(i) && b[i].Some?
    ensures Seek(Submit(b, tgid', a', bytes, sending), tgid, a) == Some(i)
  {
    hide Home, Find;
    var c, r := Submit(b, tgid', a', bytes, sending), Seek(b, tgid', a');
    if r.Some? {
      FindKept(b, c, r.value, Home(|b|, tgid, a), |b|, tgid, a);
    }
  }

  lemma EntryStaysLatched(b: Table, tgid: int, a: Address, i: nat)
    requires b != [] && Ordered(b) && Seek(b, tgid, a) == Some(i) && b[i].Some?
    ensures Seek(Latch(b), tgid, a) == Some(i)
  {
    hide Home, Find;
    FindKept(b, Latch(b), 0, Home(|b|, tgid, a), |b|, tgid, a);
  }

  // ------------------------------------------------------------ a table that is not full

  ghost predicate Free(b: Table) {
    exists s :: 0 <= s < |b| && b[s].None?
  }

  /** The slot k steps on from s. */
  function Slot(n: nat, s: nat, k: nat): (r: nat)
    requires s < n && k <= n
    ensures r < n
  {
    if s + k < n then s + k else s + k - n
  }

  lemma {:induction false} FindMisses(b: Table, s: nat, left: nat, tgid: int, a: Address, k: nat)
    requires s < |b| && k < left <= |b| && Find(b, s, left, tgid, a).None?
    ensures b[Slot(|b|, s, k)].Some?
    decreases left
  {
    if k > 0 {
      FindMisses(b, Next(b, s), left - 1, tgid, a, k - 1);
      assert Slot(|b|, Next(b, s), k - 1) == Slot(|b|, s, k);
    }
  }

  /** With a free slot left, no event is lost. */
  lemma FreeFinds(b: Table, tgid: int, a: Address)
    requires Free(b)
    ensures Seek(b, tgid, a).Some?
  {
    hide Find;
    var s :| 0 <= s < |b| && b[s].None?;
    var h := Home(|b|, tgid, a);
    if Seek(b, tgid, a).None? {
      hide Home;
      var k := if s >= h then s - h else s + |b| - h;
      FindMisses(b, h, |b|, tgid, a, k);
      assert false;
    }
  }
}

/** Every interleaving of the two halves of an event with the latch. */
module CounterRuns {
  import opened Common
  import opened Counters

  datatype Event = Event(tgid: int, socket: Address, bytes: nat, sending: bool)

  /** `half` is an event already counted for its process and not yet for its socket. */
  datatype Sys = Sys(net: Table, sock: Table, half: Option<Event>)

  datatype Step = Process(event: Event) | PerSocket | LatchAll

  ghost predicate Valid(s: Sys) {
    |s.net| == NET_SIZE && |s.sock| == SOCK_SIZE && Ordered(s.net) && Ordered(s.sock) && Findable(s.net)
  }

  function Empty(n: nat): (b: Table)
    ensures |b| == n && forall i :: 0 <= i < n ==> b[i] == None
  {
    seq(n, i => None)
  }

  function Initial(): (s: Sys)
    ensures Valid(s)
  {
    Sys(Empty(NET_SIZE), Empty(SOCK_SIZE), None)
  }

  ghost function Do(s: Sys, step: Step): Sys
    requires Valid(s)
  {
    match step
    case Process(e) =>
      if s.half.Some? then s
      else s.(net := Submit(s.net, e.tgid, Whole, e.bytes, e.sending), half := Some(e))
    case PerSocket =>
      if s.half.None? then s
      else
        var e := s.half.value;
        s.(sock := Submit(s.sock, e.tgid, e.socket, e.bytes, e.sending), half := None)
    case LatchAll => s.(net := Latch(s.net), sock := Latch(s.sock))
  }

  lemma DoValid(s: Sys, step: Step)
    requires Valid(s)
    ensures Valid(Do(s, step))
  {
    hide Submit, Latch, Ordered, Findable;
    match step {
      case Process(e) =>
        SubmitOrdered(s.net, e.tgid, Whole, e.bytes, e.sending);
        SubmitFindable(s.net, e.tgid, e.bytes, e.sending);
      case PerSocket =>
        if s.half.Some? {
          var e := s.half.value;
          SubmitOrdered(s.sock, e.tgid, e.socket, e.bytes, e.sending);
        }
      case LatchAll =>
        LatchOrdered(s.net);
        LatchOrdered(s.sock);
        LatchFindable(s.net);
    }
  }

  ghost function Run(steps: seq<Step>): (s: Sys)
    ensures Valid(s)
  {
    if steps == [] then Initial()
    else
      var s := Run(steps[..|steps| - 1]);
      DoValid(s, steps[|steps| - 1]);
      Do(s, steps[|steps| - 1])
  }

  /** Bytes of process t in direction d among the events a run began to count. */
  ghost function Begun(steps: seq<Step>, t: int, d: bool): nat {
    if steps == [] then 0
    else
      var n := |steps| - 1;
      Begun(steps[..n], t, d) +
      if steps[n].Process? && Run(steps[..n]).half.None? then Bytes(steps[n].event, t, d) else 0
  }

  function Bytes(e: Event, t: int, d: bool): nat {
    if e.tgid == t && e.sending == d then e.bytes else 0
  }

  function Half(s: Sys, t: int, d: bool): nat {
    if s.half.None? then 0 else Bytes(s.half.value, t, d)
  }

  /** All a run's latches reported for process t, per process or summed over its sockets. */
  ghost function Reported(steps: seq<Step>, t: int, d: bool, sockets: bool): int {
    if steps == [] then 0
    else
      var n := |steps| - 1;
      Reported(steps[..n], t, d, sockets) +
      if steps[n] == LatchAll then Sum(TableOf(Run(steps), sockets), t, d, Delta) else 0
  }

  function TableOf(s: Sys, sockets: bool): Table {
    if sockets then s.sock else s.net
  }

  /** A slot once used stays used, so a table with a free slot never lost an event. */
  lemma FreeBefore(s: Sys, step: Step)
    requires Valid(s) && Free(Do(s, step).net) && Free(Do(s, step).sock)
    ensures Free(s.net) && Free(s.sock)
  {
    hide Seek, Ordered, Findable;
    var t := Do(s, step);
    var i :| 0 <= i < |t.net| && t.net[i].None?;
    var j :| 0 <= j < |t.sock| && t.sock[j].None?;
    assert s.net[i].None? && s.sock[j].None?;
  }

  /** The state of the account for one table, process and direction. */
  ghost predicate Balanced(steps: seq<Step>, t: int, d: bool, sockets: bool) {
    var s := Run(steps);
    var b, counted := TableOf(s, sockets), Begun(steps, t, d) - if sockets then Half(s, t, d) else 0;
    && Sum(b, t, d, Total) == counted
    && Reported(steps, t, d, sockets) + Sum(b, t, d, Unlatched) == counted
  }

  lemma {:induction false} EmptySum(b: Table, t: int, d: bool, p: Part)
    requires forall i :: 0 <= i < |b| ==> b[i] == None
    ensures Sum(b, t, d, p) == 0
  {
    if b != [] {
      EmptySum(b[..|b| - 1], t, d, p);
    }
  }

  /** Bytes of process t in direction d that a step counts in one table. */
  function Gain(s: Sys, step: Step, t: int, d: bool, sockets: bool): nat {
    if sockets then (if step.PerSocket? then Half(s, t, d) else 0)
    else if step.Process? && s.half.None? then Bytes(step.event, t, d) else 0
  }

  lemma DoSums(s: Sys, step: Step, t: int, d: bool, sockets: bool)
    requires Valid(s) && Free(s.net) && Free(s.sock)
    ensures var b, c := TableOf(s, sockets), TableOf(Do(s, step), sockets);
            && Sum(c, t, d, Total) == Sum(b, t, d, Total) + Gain(s, step, t, d, sockets)
            && (step != LatchAll ==> Sum(c, t, d, Unlatched) == Sum(b, t, d, Unlatched) + Gain(s, step, t, d, sockets))
            && (step == LatchAll ==> Sum(c, t, d, Unlatched) == 0 && Sum(c, t, d, Delta) == Sum(b, t, d, Unlatched))
  {
    hide Submit, Latch, Ordered, Findable, Sum, Free, Seek;
    match step {
      case Process(e) =>
        FreeFinds(s.net, e.tgid, Whole);
        SubmitSums(s.net, e.tgid, Whole, e.bytes, e.sending, t, d, Total);
        SubmitSums(s.net, e.tgid, Whole, e.bytes, e.sending, t, d, Unlatched);
      case PerSocket =>
        if s.half.Some? {
          var e := s.half.value;
          FreeFinds(s.sock, e.tgid, e.socket);
          SubmitSums(s.sock, e.tgid, e.socket, e.bytes, e.sending, t, d, Total);
          SubmitSums(s.sock, e.tgid, e.socket, e.bytes, e.sending, t, d, Unlatched);
        }
      case LatchAll =>
        LatchSums(TableOf(s, sockets), t, d);
    }
  }

  lemma DoHalf(s: Sys, step: Step, t: int, d: bool)
    requires Valid(s)
    ensures Half(Do(s, step), t, d) == Half(s, t, d) + Gain(s, step, t, d, false) - Gain(s, step, t, d, true)
  {
    hide Submit, Latch, Valid;
  }

  lemma StepBalanced(steps: seq<Step>, t: int, d: bool, sockets: bool)
    requires steps != [] && Balanced(steps[..|steps| - 1], t, d, sockets)
    requires Free(Run(steps[..|steps| - 1]).net) && Free(Run(steps[..|steps| - 1]).sock)
    ensures Balanced(steps, t, d, sockets)
  {
    hide Do, Sum, Free, Valid, Half, TableOf;
    var s, step := Run(steps[..|steps| - 1]), steps[|steps| - 1];
    DoSums(s, step, t, d, sockets);
    DoHalf(s, step, t, d);
  }

  /** Over every run that leaves a free slot in both tables, each table accounts for every byte: its total is
      what was submitted, and what the latches reported plus what is not yet latched is that same total. */
  lemma {:induction false} Conservation(steps: seq<Step>, t: int, d: bool, sockets: bool)
    requires Free(Run(steps).net) && Free(Run(steps).sock)
    ensures Balanced(steps, t, d, sockets)
  {
    hide Do, Sum;
    if steps == [] {
      EmptySum(TableOf(Initial(), sockets), t, d, Total);
      EmptySum(TableOf(Initial(), sockets), t, d, Unlatched);
    } else {
      var n := |steps| - 1;
      FreeBefore(Run(steps[..n]), steps[n]);
      Conservation(steps[..n], t, d, sockets);
      StepBalanced(steps, t, d, sockets);
    }
  }

  /** Whenever no event is half submitted, a process's socket counts add up to its own count. */
  lemma SocketsSumToProcess(steps: seq<Step>, t: int, d: bool)
    requires Free(Run(steps).net) && Free(Run(steps).sock) && Run(steps).half.None?
    ensures Sum(Run(steps).sock, t, d, Total) == Read(Run(steps).net, t, d, Total)
  {
    hide Do, Sum, Read, Free, Findable;
    Conservation(steps, t, d, true);
    Conservation(steps, t, d, false);
    ReadIsSum(Run(steps).net, t, d, Total);
  }

  // ------------------------------------------------------------ entry by entry

  /** A part of what slot i of a table counts; nothing while it is unused. */
  function SlotPart(b: Table, i: nat, d: bool, p: Part): int
    requires i < |b|
  {
    if b[i].Some? then PartOf(Side(b[i].value, d), p) else 0
  }

  /** Bytes a step submits to slot i of one table: those of an event whose probe ends there. */
  function SlotGain(s: Sys, step: Step, i: nat, d: bool, sockets: bool): nat
    requires s.net != [] && s.sock != []
  {
    if sockets then
      if step.PerSocket? && s.half.Some? && s.half.value.sending == d &&
         Seek(s.sock, s.half.value.tgid, s.half.value.socket) == Some(i)
      then s.half.value.bytes else 0
    else
      if step.Process? && s.half.None? && step.event.sending == d && Seek(s.net, step.event.tgid, Whole) == Some(i)
      then step.event.bytes else 0
  }

  ghost function SlotSubmitted(steps: seq<Step>, i: nat, d: bool, sockets: bool): nat {
    if steps == [] then 0
    else
      var n := |steps| - 1;
      SlotSubmitted(steps[..n], i, d, sockets) + SlotGain(Run(steps[..n]), steps[n], i, d, sockets)
  }

  /** All a run's latches reported for slot i. */
  ghost function SlotReported(steps: seq<Step>, i: nat, d: bool, sockets: bool): int
    requires i < Size(sockets)
  {
    if steps == [] then 0
    else
      var n := |steps| - 1;
      SlotReported(steps[..n], i, d, sockets) +
      if steps[n] == LatchAll then SlotPart(TableOf(Run(steps), sockets), i, d, Delta) else 0
  }

  function Size(sockets: bool): nat {
    if sockets then SOCK_SIZE else NET_SIZE
  }

  lemma SlotSubmit(b: Table, tgid: int, a: Address, bytes: nat, sending: bool, i: nat, d: bool, p: Part)
    requires b != [] && i < |b|
    ensures SlotPart(Submit(b, tgid, a, bytes, sending), i, d, p) ==
            SlotPart(b, i, d, p) + if Seek(b, tgid, a) == Some(i) && d == sending && p != Delta then bytes else 0
  {
    hide Home, Find;
  }

  lemma SlotStep(s: Sys, step: Step, i: nat, d: bool, sockets: bool)
    requires Valid(s) && i < Size(sockets)
    ensures |TableOf(Do(s, step), sockets)| == |TableOf(s, sockets)| == Size(sockets)
    ensures
      var b, c, gain := TableOf(s, sockets), TableOf(Do(s, step), sockets), SlotGain(s, step, i, d, sockets);
      && SlotPart(c, i, d, Total) == SlotPart(b, i, d, Total) + gain
      && (step != LatchAll ==> SlotPart(c, i, d, Unlatched) == SlotPart(b, i, d, Unlatched) + gain)
      && (step == LatchAll ==> gain == 0 && SlotPart(c, i, d, Unlatched) == 0 && SlotPart(c, i, d, Delta) == SlotPart(b, i, d, Unlatched))
  {
    hide Submit, Seek, Findable;
    match step {
      case Process(e) =>
        if !sockets {
          SlotSubmit(s.net, e.tgid, Whole, e.bytes, e.sending, i, d, Total);
          SlotSubmit(s.net, e.tgid, Whole, e.bytes, e.sending, i, d, Unlatched);
        }
      case PerSocket =>
        if s.half.Some? && sockets {
          var e := s.half.value;
          SlotSubmit(s.sock, e.tgid, e.socket, e.bytes, e.sending, i, d, Total);
          SlotSubmit(s.sock, e.tgid, e.socket, e.bytes, e.sending, i, d, Unlatched);
        }
      case LatchAll =>
    }
  }

  /** Over every run, full tables included, every entry of either table accounts for its own bytes: its total is what
      was submitted to it, and so is what its latches reported plus what is not yet latched. */
  lemma {:induction false} EntryConservation(steps: seq<Step>, i: nat, d: bool, sockets: bool)
    requires i < Size(sockets)
    ensures |TableOf(Run(steps), sockets)| == Size(sockets)
    ensures
      var b, submitted := TableOf(Run(steps), sockets), SlotSubmitted(steps, i, d, sockets);
      && SlotPart(b, i, d, Total) == submitted
      && SlotReported(steps, i, d, sockets) + SlotPart(b, i, d, Unlatched) == submitted
  {
    hide Do, SlotPart, SlotGain, TableOf;
    if steps == [] {
      SlotStart(i, d, sockets);
    } else {
      var n := |steps| - 1;
      EntryConservation(steps[..n], i, d, sockets);
      SlotStep(Run(steps[..n]), steps[n], i, d, sockets);
    }
  }

  /** A socket keeps its entry for the rest of a run: all its events are counted there. */
  lemma {:induction false} OneEntryPerSocket(steps: seq<Step>, more: seq<Step>, tgid: int, a: Address, i: nat)
    requires i < SOCK_SIZE && Run(steps).sock[i].Some? && Seek(Run(steps).sock, tgid, a) == Some(i)
    ensures Run(steps + more).sock[i].Some? && Seek(Run(steps + more).sock, tgid, a) == Some(i)
    decreases |more|
  {
    hide Seek, Latch, Submit;
    if more == [] {
      assert steps + more == steps;
    } else {
      var n, all := |more| - 1, steps + more;
      assert all[..|all| - 1] == steps + more[..n];
      OneEntryPerSocket(steps, more[..n], tgid, a, i);
      SocketKept(Run(steps + more[..n]), more[n], tgid, a, i);
    }
  }

  lemma SocketKept(s: Sys, step: Step, tgid: int, a: Address, i: nat)
    requires Valid(s) && i < SOCK_SIZE && s.sock[i].Some? && Seek(s.sock, tgid, a) == Some(i)
    ensures |Do(s, step).sock| == SOCK_SIZE && Do(s, step).sock[i].Some? && Seek(Do(s, step).sock, tgid, a) == Some(i)
  {
    hide Seek, Findable;
    match step {
      case Process(_) =>
      case PerSocket =>
        if s.half.Some? {
          var e := s.half.value;
          EntryStays(s.sock, tgid, a, i, e.tgid, e.socket, e.bytes, e.sending);
        }
      case LatchAll => EntryStaysLatched(s.sock, tgid, a, i);
    }
  }

  lemma SlotStart(i: nat, d: bool, sockets: bool)
    requires i < Size(sockets)
    ensures |TableOf(Initial(), sockets)| == Size(sockets)
    ensures SlotPart(TableOf(Initial(), sockets), i, d, Total) == SlotPart(TableOf(Initial(), sockets), i, d, Unlatched) == 0
  {
  }

  /** A reader of the process table sees, right after a latch, what was submitted since the latch before. */
  lemma LatchReports(steps: seq<Step>, t: int, d: bool)
    ensures Read(Run(steps + [LatchAll]).net, t, d, Delta) == Sum(Run(steps).net, t, d, Unlatched)
  {
    hide Sum, Read, Findable, Latch;
    var all := steps + [LatchAll];
    assert all[..|all| - 1] == steps;
    ReadIsSum(Run(all).net, t, d, Delta);
    LatchSums(Run(steps).net, t, d);
  }
}

/** The tables as the monitor updates them in place. */
module CounterServer {
  import opened Common
  import opened Counters
  import opened CounterRuns

  /** A slot once an entry has been found or created in it. */
  function Claimed(o: Option<Entry>, tgid: int, a: Address): Option<Entry> {
    if o.Some? then o else Some(Entry(tgid, a, ZERO, ZERO))
  }

  /** Probes for an entry, taking the first empty slot when there is none. */
  method FindOrCreate(table: array<Option<Entry>>, tgid: int, a: Address) returns (r: Option<nat>)
    requires table.Length > 0
    modifies table
    ensures r == Seek(old(table[..]), tgid, a)
    ensures r.None? ==> table[..] == old(table[..])
    ensures r.Some? ==> r.value < table.Length && table[..] == old(table[..])[r.value := table[r.value]]
    ensures r.Some? ==> table[r.value] == Claimed(old(table[..])[r.value], tgid, a)
  {
    hide Home, Matches;
    ghost var b := table[..];
    var h: nat := Home(table.Length, tgid, a);
    for k := 0 to table.Length
      invariant h < table.Length && table[..] == b
      invariant Seek(b, tgid, a) == Find(b, h, table.Length - k, tgid, a)
    {
      assert b[h] == table[h];
      if table[h].None? {
        table[h] := Some(Entry(tgid, a, ZERO, ZERO));
        return Some(h);
      }
      if Matches(table[h].value, tgid, a) {
        return Some(h);
      }
      h := (h + 1) % table.Length;
    }
    return None;
  }

  /** Probes for a process's entry without creating one. */
  method Locate(table: array<Option<Entry>>, tgid: int) returns (r: Option<nat>)
    requires table.Length > 0
    ensures r.Some? ==> r.value < table.Length && table[r.value].Some? && r == Seek(table[..], tgid, Whole)
    ensures r.None? ==> var s := Seek(table[..], tgid, Whole); s.None? || table[s.value].None?
  {
    hide Home;
    ghost var b := table[..];
    var h: nat := Home(table.Length, tgid, Whole);
    for k := 0 to table.Length
      invariant h < table.Length
      invariant Seek(b, tgid, Whole) == Find(b, h, table.Length - k, tgid, Whole)
    {
      assert b[h] == table[h];
      if table[h].None? {
        return None;
      }
      if table[h].value.tgid == tgid {
        return Some(h);
      }
      h := (h + 1) % table.Length;
    }
    return None;
  }

  method SubmitTo(table: array<Option<Entry>>, tgid: int, a: Address, bytes: nat, sending: bool)
    requires table.Length > 0
    modifies table
    ensures table[..] == Submit(old(table[..]), tgid, a, bytes, sending)
  {
    hide Seek;
    ghost var b := table[..];
    var r := FindOrCreate(table, tgid, a);
    if r.Some? {
      table[r.value] := Some(Bump(table[r.value].value, bytes, sending));
      assert table[..] == b[r.value := table[r.value]];
    }
  }

  method LatchTable(table: array<Option<Entry>>)
    requires Ordered(table[..])
    modifies table
    ensures table[..] == Latch(old(table[..]))
  {
    ghost var b := table[..];
    for i := 0 to table.Length
      invariant forall j :: 0 <= j < i ==> table[j] == LatchSlot(b[j])
      invariant forall j :: i <= j < table.Length ==> table[j] == b[j]
    {
      if table[i].Some? {
        var e := table[i].value;
        assert OrderedEntry(b[i].value);
        table[i] := Some(e.(send := Tally(e.send.total, e.send.total, e.send.total - e.send.prev),
                            recv := Tally(e.recv.total, e.recv.total, e.recv.total - e.recv.prev)));
      }
    }
  }

  class NetCounters {
    const net: array<Option<Entry>>
    const sock: array<Option<Entry>>
    /** The event between its two halves, if any. */
    ghost var half: Option<Event>

    ghost function View(): Sys
      reads this, net, sock
    {
      Sys(net[..], sock[..], half)
    }

    ghost predicate Good()
      reads this, net, sock
    {
      net != sock && Valid(View())
    }

    constructor ()
      ensures Good() && View() == Initial() && fresh(net) && fresh(sock)
    {
      net := new Option<Entry>[NET_SIZE](i => None);
      sock := new Option<Entry>[SOCK_SIZE](i => None);
      half := None;
      new;
      assert View() == Initial();
    }

    /** First half of an event: the process's count. */
    method SubmitNet(e: Event)
      requires Good() && half.None?
      modifies this, net
      ensures Good() && View() == Do(old(View()), Process(e))
    {
      hide Submit, Latch, Valid;
      DoValid(View(), Process(e));
      ValidSizes(View());
      SubmitTo(net, e.tgid, Whole, e.bytes, e.sending);
      half := Some(e);
    }

    /** Second half: the socket's count. */
    method SubmitSock(e: Event)
      requires Good() && half == Some(e)
      modifies this, sock
      ensures Good() && View() == Do(old(View()), PerSocket)
    {
      hide Submit, Latch, Valid;
      DoValid(View(), PerSocket);
      ValidSizes(View());
      SubmitTo(sock, e.tgid, e.socket, e.bytes, e.sending);
      half := None;
    }

    /** Latches both tables; it may come between the halves of an event. */
    method Snapshot()
      requires Good()
      modifies net, sock
      ensures Good() && View() == Do(old(View()), LatchAll)
    {
      hide Latch, Findable;
      DoValid(View(), LatchAll);
      LatchTable(net);
      LatchTable(sock);
    }

    /** What the last latch reported for a process; absent when nothing was ever counted for it. */
    method Get(tgid: int) returns (found: bool, sent: int, received: int)
      requires Good()
      ensures sent == Sum(net[..], tgid, true, Delta) && received == Sum(net[..], tgid, false, Delta)
      ensures found <==> exists s :: 0 <= s < net.Length && net[s].Some? && net[s].value.tgid == tgid
    {
      hide Seek, Sum, Ordered, Findable;
      ghost var b := net[..];
      ReadIsSum(b, tgid, true, Delta);
      ReadIsSum(b, tgid, false, Delta);
      AbsentUnless(b, tgid);
      var r := Locate(net, tgid);
      assert r.Some? ==> b[r.value] == net[r.value];
      if r.None? {
        return false, 0, 0;
      }
      return true, net[r.value].value.send.delta, net[r.value].value.recv.delta;
    }
  }

  lemma ValidSizes(s: Sys)
    requires Valid(s)
    ensures |s.net| == NET_SIZE && |s.sock| == SOCK_SIZE
  {
  }

  lemma AbsentUnless(b: Table, tgid: int)
    requires b != [] && Findable(b)
    ensures var r := Seek(b, tgid, Whole);
            (r.Some? && b[r.value].Some?) <==> exists s :: 0 <= s < |b| && b[s].Some? && b[s].value.tgid == tgid
  {
    hide Home, Find;
    forall s | 0 <= s < |b| && b[s].Some? && b[s].value.tgid == tgid ensures Seek(b, tgid, Whole) == Some(s) {
      assert FoundAt(b, b[s].value, s);
    }
  }
}
