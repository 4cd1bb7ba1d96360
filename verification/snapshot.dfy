/** The string table of a snapshot: zero-terminated strings in one buffer, named by their offsets. */
module Strings {
  import opened Wire

  const OFFSET_MAX: nat := 0xffff_ffff

  /** The bytes from an offset up to the next zero. */
  function CString(tab: seq<byte>, off: nat): (x: seq<byte>)
    requires off <= |tab|
    ensures Text(x) && off + |x| <= |tab|
    decreases |tab| - off
  {
    if off == |tab| || tab[off] == 0 then [] else [tab[off]] + CString(tab, off + 1)
  }

  /** Offset zero is the empty string. */
  function Deref(tab: seq<byte>, off: nat): (x: seq<byte>)
    requires off <= |tab|
    ensures Text(x) && |x| <= |tab|
  {
    if off == 0 then [] else CString(tab, off)
  }

  /** The table after storing a string, and the string's offset: zero for the empty one and when there is no room. */
  function Push(tab: seq<byte>, x: seq<byte>): (r: (seq<byte>, nat))
    ensures tab <= r.0 && (r.1 < |r.0| || r.1 == 0)
  {
    if x == [] || |tab| + |x| + 1 > OFFSET_MAX then (tab, 0) else (tab + x + [0], |tab|)
  }

  ghost predicate Ended(tab: seq<byte>) {
    tab != [] && tab[|tab| - 1] == 0
  }

  lemma {:induction false} CStringAt(tab: seq<byte>, off: nat, x: seq<byte>)
    requires off + |x| < |tab| && Text(x) && tab[off..off + |x|] == x && tab[off + |x|] == 0
    ensures CString(tab, off) == x
    decreases |x|
  {
    if x != [] {
      assert tab[off] == x[0];
      CStringAt(tab, off + 1, x[1..]);
    }
  }

  lemma {:induction false} CStringKept(tab: seq<byte>, more: seq<byte>, off: nat)
    requires Ended(tab) && off < |tab|
    ensures CString(tab + more, off) == CString(tab, off)
    decreases |tab| - off
  {
    if tab[off] != 0 {
      CStringKept(tab, more, off + 1);
    }
  }

  /** A stored string is read back, and every string stored before it still reads the same. */
  lemma PushReads(tab: seq<byte>, x: seq<byte>)
    requires Ended(tab) && Text(x) && |tab| + |x| + 1 <= OFFSET_MAX
    ensures Ended(Push(tab, x).0) && Deref(Push(tab, x).0, Push(tab, x).1) == x
    ensures forall off :: 0 <= off < |tab| ==> Deref(Push(tab, x).0, off) == Deref(tab, off)
  {
    var t := Push(tab, x).0;
    if x != [] {
      CStringAt(t, |tab|, x);
      forall off | 0 <= off < |tab| ensures Deref(t, off) == Deref(tab, off) {
        CStringKept(tab, x + [0], off);
        assert tab + (x + [0]) == t;
      }
    }
  }

  class StringTable {
    var buf: seq<byte>
    var cap: nat

    ghost predicate Valid()
      reads this
    {
      Ended(buf) && |buf| <= cap <= OFFSET_MAX
    }

    constructor (cap: nat)
      requires cap <= OFFSET_MAX
      ensures Valid() && buf == [0]
    {
      this.cap := if cap == 0 then 1 else cap;
      buf := [0];
    }

    method Store(x: seq<byte>) returns (off: nat)
      requires Valid()
      modifies this
      ensures Valid() && (buf, off) == Push(old(buf), x)
    {
      if x == [] {
        return 0;
      }
      if |buf| >= OFFSET_MAX || |x| > OFFSET_MAX - |buf| - 1 {
        return 0;
      }
      var need := |buf| + |x| + 1;
      if need > cap {
        var bigger := if cap < 1024 then 1024 else cap;
        while bigger < need
          invariant 1024 <= bigger <= OFFSET_MAX
          decreases need - bigger
        {
          if bigger > OFFSET_MAX / 2 {
            bigger := need;
            break;
          }
          bigger := bigger * 2;
        }
        cap := bigger;
      }
      off := |buf|;
      buf := buf + x + [0];
    }
  }
}

/** Snapshots in memory: rows that name their strings by offset and their Steam record by index. */
module Snapshot {
  import opened Common
  import opened Wire
  import opened SnapshotWire
  import opened Strings

  const NO_EXTRA: nat := 0xffff_ffff
  const LEN_MAX: nat := 0xffff

  datatype Entry = Entry(pid: u32, ppid: u32, counts: Counts, rates: Rates, historyLen: u32, flags: u32,
                         history: seq<float>, offs: seq<nat>, lens: seq<nat>, extra: nat)

  datatype Store = Store(entries: seq<Entry>, tab: seq<byte>, extras: seq<Option<Steam>>)

  predicate EntryIn(e: Entry, tab: seq<byte>) {
    |e.offs| == |e.lens| == 6 && |tab| < U32 && forall i :: 0 <= i < 6 ==> e.offs[i] < |tab|
  }

  ghost predicate Sound(m: Store) {
    |m.entries| < U32 && forall i :: 0 <= i < |m.entries| ==> EntryIn(m.entries[i], m.tab) && Held(RowOf(m, m.entries[i]))
  }

  function Name(tab: seq<byte>, off: nat): text
    requires off <= |tab| < U32
  {
    Deref(tab, off)
  }

  function NamesIn(tab: seq<byte>, e: Entry): Names
    requires EntryIn(e, tab)
  {
    Names(Name(tab, e.offs[0]), Name(tab, e.offs[1]), Name(tab, e.offs[2]), Name(tab, e.offs[3]),
          Name(tab, e.offs[4]), Name(tab, e.offs[5]))
  }

  function SteamIn(extras: seq<Option<Steam>>, extra: nat): Option<Steam> {
    if extra < |extras| then extras[extra] else None
  }

  function RowWith(tab: seq<byte>, e: Entry, steam: Option<Steam>): Row
    requires EntryIn(e, tab)
  {
    Row(e.pid, e.ppid, e.counts, e.rates, e.historyLen, e.flags, e.history, NamesIn(tab, e), steam)
  }

  /** The row an entry stands for, its strings and Steam record looked up. */
  function RowOf(m: Store, e: Entry): Row
    requires EntryIn(e, m.tab)
  {
    RowWith(m.tab, e, SteamIn(m.extras, e.extra))
  }

  ghost function View(m: Store): (rows: seq<row>)
    requires Sound(m)
    ensures |rows| == |m.entries| && forall i :: 0 <= i < |rows| ==> rows[i] == RowOf(m, m.entries[i])
  {
    seq(|m.entries|, i requires 0 <= i < |m.entries| => RowOf(m, m.entries[i]))
  }

  ghost predicate Indexed(m: Store) {
    |m.extras| <= |m.entries| && forall i :: 0 <= i < |m.entries| ==> m.entries[i].extra < |m.extras| || m.entries[i].extra == NO_EXTRA
  }

  function Extended(extras: seq<Option<Steam>>, steam: Option<Steam>): seq<Option<Steam>> {
    if steam.Some? then extras + [steam] else extras
  }

  function NextExtra(extras: seq<Option<Steam>>, steam: Option<Steam>): nat {
    if steam.Some? then |extras| else NO_EXTRA
  }

  /** Strings and Steam records may be added without changing the rows already there. */
  lemma RowKept(m: Store, n: Store, e: Entry)
    requires EntryIn(e, m.tab) && |m.tab| <= |n.tab| < U32
    requires forall off :: 0 <= off < |m.tab| ==> Deref(n.tab, off) == Deref(m.tab, off)
    requires SteamIn(n.extras, e.extra) == SteamIn(m.extras, e.extra)
    ensures EntryIn(e, n.tab) && RowOf(n, e) == RowOf(m, e)
  {
    hide Deref;
  }

  /** Adding an entry, its strings and its Steam record adds one row. */
  lemma AddRow(m: Store, tab: seq<byte>, e: Entry, steam: Option<Steam>)
    requires Sound(m) && Indexed(m) && |m.entries| + 1 < U32 && |m.tab| <= |tab| < U32
    requires forall off :: 0 <= off < |m.tab| ==> Deref(tab, off) == Deref(m.tab, off)
    requires EntryIn(e, tab) && e.extra == NextExtra(m.extras, steam)
    requires Held(RowWith(tab, e, steam))
    ensures
      var n := Store(m.entries + [e], tab, Extended(m.extras, steam));
      Sound(n) && Indexed(n) && View(n) == View(m) + [RowWith(tab, e, steam)]
  {
    hide Deref, Held, NamesIn;
    var n := Store(m.entries + [e], tab, Extended(m.extras, steam));
    forall i | 0 <= i < |m.entries| ensures EntryIn(m.entries[i], n.tab) && RowOf(n, m.entries[i]) == RowOf(m, m.entries[i]) {
      RowKept(m, n, m.entries[i]);
    }
    assert SteamIn(n.extras, e.extra) == steam;
  }

  // ------------------------------------------------------------ the copy that is encoded

  /** The rows asked for: all of them, or the first one with the pid. */
  ghost function Selected(rows: seq<row>, pid: nat): (r: seq<row>)
    ensures |r| <= |rows|
  {
    if pid == 0 then rows
    else if rows == [] then []
    else if rows[0].pid == pid then [rows[0]]
    else Selected(rows[1..], pid)
  }

  lemma {:induction false} SelectedFirst(rows: seq<row>, pid: nat, i: nat)
    requires pid > 0 && i <= |rows| && forall j :: 0 <= j < i ==> rows[j].pid != pid
    ensures Selected(rows, pid) == Selected(rows[i..], pid)
    decreases i
  {
    if i > 0 {
      SelectedFirst(rows[1..], pid, i - 1);
      assert rows[1..][i - 1..] == rows[i..];
    } else {
      assert rows[0..] == rows;
    }
  }

  /** Without a pid every row is asked for; with one, the first row that has it, if any has. */
  lemma SelectedIs(rows: seq<row>, pid: nat, i: nat)
    ensures pid == 0 ==> Selected(rows, pid) == rows
    ensures pid > 0 && i < |rows| && rows[i].pid == pid && (forall j :: 0 <= j < i ==> rows[j].pid != pid) ==>
              Selected(rows, pid) == [rows[i]]
    ensures pid > 0 && (forall j :: 0 <= j < |rows| ==> rows[j].pid != pid) ==> Selected(rows, pid) == []
  {
    if pid > 0 && i < |rows| && forall j :: 0 <= j < i ==> rows[j].pid != pid {
      SelectedFirst(rows, pid, i);
    }
    if pid > 0 && forall j :: 0 <= j < |rows| ==> rows[j].pid != pid {
      SelectedFirst(rows, pid, |rows|);
    }
  }

  /** Rows as they are sent: stamped with the service's own instance. */
  ghost function Stamped(rows: seq<row>, instance: u64): (r: seq<row>)
    ensures |r| == |rows| && forall i :: 0 <= i < |r| ==> r[i] == rows[i].(counts := rows[i].counts.(instance := instance))
  {
    seq(|rows|, i requires 0 <= i < |rows| => Stamp(rows[i], instance))
  }

  function Stamp(r: row, instance: u64): row {
    r.(counts := r.counts.(instance := instance))
  }
}
