/** Copying, encoding and decoding snapshots as the service and its clients do. */
module SnapshotServer {
  import opened Common
  import opened Wire
  import opened SnapshotWire
  import opened Strings
  import opened Snapshot

  // ------------------------------------------------------------ copying

  /** The deep copy made under the lock. */
  method Copy(m: Store, pid: nat) returns (c: Store)
    requires Sound(m)
    ensures Sound(c) && View(c) == Selected(View(m), pid)
  {
    hide EntryIn, NamesIn, Held, Deref;
    c := Store([], [], []);
    if m.entries == [] {
      return;
    }
    c := Store([], m.tab, []);
    for i := 0 to |m.entries|
      invariant Sound(c) && Indexed(c) && c.tab == m.tab && |c.entries| <= i
      invariant pid == 0 ==> View(c) == View(m)[..i]
      invariant pid > 0 ==> c.entries == [] && forall j :: 0 <= j < i ==> m.entries[j].pid != pid
    {
      var e := m.entries[i];
      if pid != 0 && e.pid != pid {
        continue;
      }
      var steam := if e.extra < |m.extras| && m.extras[e.extra].Some? then m.extras[e.extra] else None;
      var target := e.(extra := NextExtra(c.extras, steam));
      Copied(m, e, target);
      AddRow(c, m.tab, target, steam);
      c := Store(c.entries + [target], c.tab, Extended(c.extras, steam));
      if pid != 0 {
        ghost var rows := View(m);
        SelectedFirst(rows, pid, i);
        assert rows[i..][0] == rows[i];
        return;
      }
    }
    ghost var rows := View(m);
    if pid != 0 {
      SelectedFirst(rows, pid, |rows|);
    }
    assert rows[..|rows|] == rows;
  }

  lemma Copied(m: Store, e: Entry, target: Entry)
    requires EntryIn(e, m.tab) && target == e.(extra := target.extra)
    ensures |m.tab| < U32 && EntryIn(target, m.tab)
    ensures RowWith(m.tab, target, SteamIn(m.extras, e.extra)) == RowOf(m, e)
  {
  }

  // ------------------------------------------------------------ encoding

  method WriteLongs(w: Writer, xs: seq<u64>)
    requires w.Valid()
    modifies w
    ensures w.Valid() && (w.error <==> old(w.error) || |old(w.data)| + |PutLongs(xs)| > LIMIT)
    ensures !w.error ==> w.data == old(w.data) + PutLongs(xs)
  {
    hide Put64;
    for i := 0 to |xs|
      invariant w.Valid() && (w.error <==> old(w.error) || |old(w.data)| + |PutLongs(xs[..i])| > LIMIT)
      invariant !w.error ==> w.data == old(w.data) + PutLongs(xs[..i])
    {
      w.PutU64(xs[i]);
      assert xs[..i + 1][..i] == xs[..i];
    }
    assert xs[..|xs|] == xs;
  }

  method WriteFloats(w: Writer, fl: Floats, xs: seq<float>)
    requires w.Valid()
    modifies w
    ensures w.Valid() && (w.error <==> old(w.error) || |old(w.data)| + |PutAll(PutFloat(fl), xs)| > LIMIT)
    ensures !w.error ==> w.data == old(w.data) + PutAll(PutFloat(fl), xs)
  {
    hide Put64;
    for i := 0 to |xs|
      invariant w.Valid() && (w.error <==> old(w.error) || |old(w.data)| + |PutAll(PutFloat(fl), xs[..i])| > LIMIT)
      invariant !w.error ==> w.data == old(w.data) + PutAll(PutFloat(fl), xs[..i])
    {
      w.PutU64(fl.widen(xs[i]));
      assert xs[..i + 1][..i] == xs[..i];
    }
    assert xs[..|xs|] == xs;
  }

  method WriteDoubles(w: Writer, xs: seq<double>)
    requires w.Valid()
    modifies w
    ensures w.Valid() && (w.error <==> old(w.error) || |old(w.data)| + |PutDoubles(xs)| > LIMIT)
    ensures !w.error ==> w.data == old(w.data) + PutDoubles(xs)
  {
    hide Put64;
    for i := 0 to |xs|
      invariant w.Valid() && (w.error <==> old(w.error) || |old(w.data)| + |PutDoubles(xs[..i])| > LIMIT)
      invariant !w.error ==> w.data == old(w.data) + PutDoubles(xs[..i])
    {
      w.PutU64(xs[i]);
      assert xs[..i + 1][..i] == xs[..i];
    }
    assert xs[..|xs|] == xs;
  }

  method WriteTexts(w: Writer, xs: seq<text>)
    requires w.Valid()
    modifies w
    ensures w.Valid() && (w.error <==> old(w.error) || |old(w.data)| + |PutTexts(xs)| > LIMIT)
    ensures !w.error ==> w.data == old(w.data) + PutTexts(xs)
  {
    hide PutString;
    for i := 0 to |xs|
      invariant w.Valid() && (w.error <==> old(w.error) || |old(w.data)| + |PutTexts(xs[..i])| > LIMIT)
      invariant !w.error ==> w.data == old(w.data) + PutTexts(xs[..i])
    {
      w.PutText(xs[i]);
      assert xs[..i + 1][..i] == xs[..i];
    }
    assert xs[..|xs|] == xs;
  }

  method WriteSteam(w: Writer, o: Option<Steam>)
    requires w.Valid()
    modifies w
    ensures w.Valid() && (w.error <==> old(w.error) || |old(w.data)| + |PutSteam(o)| > LIMIT)
    ensures !w.error ==> w.data == old(w.data) + PutSteam(o)
  {
    hide Put32, PutTexts;
    w.PutU32(if o.Some? then 1 else 0);
    if o.None? {
      return;
    }
    w.PutU32(o.value.isSteam);
    w.PutU32(o.value.isWine);
    WriteTexts(w, Texts(o.value));
  }

  method WriteRow(w: Writer, fl: Floats, r: row)
    requires w.Valid()
    modifies w
    ensures w.Valid() && (w.error <==> old(w.error) || |old(w.data)| + |PutRow(fl)(r)| > LIMIT)
    ensures !w.error ==> w.data == old(w.data) + PutRow(fl)(r)
  {
    hide Put32, PutTexts, PutLongs, PutAll, PutSteam, PutFloat;
    w.PutU32(r.pid);
    w.PutU32(r.ppid);
    WriteLongs(w, CountList(r.counts));
    WriteFloats(w, fl, RateList(r.rates));
    assert !w.error ==> w.data == old(w.data) + RowHead(fl, r);
    ghost var half := w.data;
    w.PutU32(r.historyLen);
    w.PutU32(r.flags);
    WriteFloats(w, fl, r.history);
    WriteTexts(w, NameList(r.names));
    WriteSteam(w, r.steam);
    assert !w.error ==> w.data == half + RowTail(fl, r);
  }

  method WriteSystem(w: Writer, y: System)
    requires w.Valid()
    modifies w
    ensures w.Valid() && (w.error <==> old(w.error) || |old(w.data)| + |PutSystem(y)| > LIMIT)
    ensures !w.error ==> w.data == old(w.data) + PutSystem(y)
  {
    hide Put32, PutLongs, PutDoubles;
    WriteLongs(w, [y.uptime, y.memoryTotal, y.memoryFree, y.memoryAvailable]);
    WriteDoubles(w, y.load);
    w.PutU32(y.cpus);
    w.PutU32(y.users);
    w.PutU32(y.backend);
  }

  method WriteHead(w: Writer, f: Frame)
    requires w.Valid()
    modifies w
    ensures w.Valid() && (w.error <==> old(w.error) || |old(w.data)| + |FrameHead(f)| > LIMIT)
    ensures !w.error ==> w.data == old(w.data) + FrameHead(f)
  {
    hide Put32, Put64, PutSystem;
    w.PutU64(f.generation);
    w.PutU64(f.sampled);
    w.PutU32(f.interval);
    w.PutU32(f.ready);
    w.PutU32(f.total);
    WriteSystem(w, f.system);
    w.PutU64(f.sent);
  }

  method WriteRows(w: Writer, fl: Floats, c: Store, instance: u64)
    requires w.Valid() && Sound(c)
    modifies w
    ensures w.Valid() && (w.error <==> old(w.error) || |old(w.data)| + |PutRows(fl, Stamped(View(c), instance))| > LIMIT)
    ensures !w.error ==> w.data == old(w.data) + PutRows(fl, Stamped(View(c), instance))
  {
    hide PutRow, RowOf, Held, EntryIn;
    ghost var rows := Stamped(View(c), instance);
    var i := 0;
    while i < |c.entries| && !w.error
      invariant 0 <= i <= |c.entries| && w.Valid()
      invariant w.error <==> old(w.error) || |old(w.data)| + |PutRows(fl, rows[..i])| > LIMIT
      invariant !w.error ==> w.data == old(w.data) + PutRows(fl, rows[..i])
    {
      StampedRow(c, i, instance);
      var e := c.entries[i];
      WriteRow(w, fl, RowOf(c, e.(counts := e.counts.(instance := instance))));
      assert rows[..i + 1][..i] == rows[..i];
      i := i + 1;
    }
    assert rows[..|rows|] == rows;
    PutRowsGrow(fl, rows, i);
  }

  lemma StampedRow(c: Store, i: nat, instance: u64)
    requires Sound(c) && i < |c.entries|
    ensures var e := c.entries[i];
            var t := e.(counts := e.counts.(instance := instance));
            EntryIn(t, c.tab) && Held(RowOf(c, t)) && RowOf(c, t) == Stamped(View(c), instance)[i]
  {
  }

  lemma {:induction false} PutRowsGrow(fl: Floats, rows: seq<row>, i: nat)
    requires i <= |rows|
    ensures |PutRows(fl, rows[..i])| <= |PutRows(fl, rows)|
    decreases |rows|
  {
    hide PutRow;
    if i < |rows| {
      var n := |rows| - 1;
      PutRowsGrow(fl, rows[..n], i);
      assert rows[..n][..i] == rows[..i];
    } else {
      assert rows[..i] == rows;
    }
  }

  datatype Reply = Fine | NotFound | NotReady | Internal

  /** The state the monitor thread, the service and a client share. */
  class MonitorState {
    var snapshot: Store
    var generation: u64
    var sampled: u64
    var interval: u32
    var complete: u32
    var system: System
    var instance: u64
    var connected: bool

    ghost predicate Valid()
      reads this
    {
      Sound(snapshot) && |system.load| == 3
    }

    /** What a reply about this state says. */
    ghost function Describe(status: bool, pid: nat, sent: u64): Frame
      requires Valid()
      reads this
    {
      Frame(generation, sampled, interval, complete, |snapshot.entries|, system, sent,
            if status then None else Some(Stamped(Selected(View(snapshot), pid), instance)))
    }

    constructor ()
      ensures Valid() && snapshot.entries == [] && !connected
    {
      snapshot := Store([], [], []);
      system := System(0, 0, 0, 0, [0, 0, 0], 0, 0, 0);
      connected := false;
    }
  }

  /** Encodes a status, a whole snapshot, or one process. */
  method Encode(state: MonitorState, status: bool, pid: nat, sent: u64, fl: Floats, w: Writer) returns (code: Reply)
    requires state.Valid() && w.Valid() && w.data == [] && !w.error
    modifies w
    ensures w.Valid()
    ensures code == NotFound || code == NotReady <==>
              pid != 0 && (status || Selected(View(state.snapshot), pid) == [])
    ensures code == NotReady ==> state.complete == 0
    ensures code == NotFound ==> state.complete != 0
    ensures code == NotFound || code == NotReady ==> w.data == []
    ensures code == Fine ==> w.data == PutFrame(fl, state.Describe(status, pid, sent)) && |w.data| <= LIMIT
    ensures code == Internal ==> |PutFrame(fl, state.Describe(status, pid, sent))| > LIMIT
  {
    hide FrameHead, PutRows, Sound, View, Stamped, Selected, Put32;
    var copy := Store([], [], []);
    Nothing();
    if !status {
      copy := Copy(state.snapshot, pid);
    }
    Sizes(state.snapshot);
    Sizes(copy);
    if pid != 0 && |copy.entries| == 0 {
      return if state.complete != 0 then NotFound else NotReady;
    }
    ghost var f := state.Describe(status, pid, sent);
    HeadAlone(f);
    WriteHead(w, Frame(state.generation, state.sampled, state.interval, state.complete, |state.snapshot.entries|, state.system, sent, None));
    if !status {
      w.PutU32(|copy.entries|);
      WriteRows(w, fl, copy, state.instance);
      StampedSize(View(copy), state.instance);
    }
    code := if w.error then Internal else Fine;
  }

  lemma HeadAlone(f: Frame)
    ensures FrameHead(f) == FrameHead(f.(rows := None))
  {
  }

  lemma StampedSize(rows: seq<row>, instance: u64)
    ensures |Stamped(rows, instance)| == |rows|
  {
  }

  lemma Nothing()
    ensures Sound(Store([], [], []))
  {
  }

  lemma Sizes(m: Store)
    requires Sound(m)
    ensures |View(m)| == |m.entries| < U32
  {
  }
}
