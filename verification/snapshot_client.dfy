/** Decoding a received snapshot and publishing it, all of it or nothing. */
module SnapshotClient {
  import opened Common
  import opened Wire
  import opened SnapshotWire
  import opened Strings
  import opened Snapshot
  import opened SnapshotServer

  // ------------------------------------------------------------ after an error nothing is read

  lemma {:induction false} RowsStop(fl: Floats, s: seq<byte>, p: Place, i: nat, n: nat)
    requires i <= n && GetRows(fl, s, p, i).1.Error?
    ensures GetRows(fl, s, p, n).1.Error?
  {
    hide GetHead, GetTail;
    if i < n {
      RowsStop(fl, s, p, i, n - 1);
      HeadStops(fl, s);
    }
  }

  // ------------------------------------------------------------ reading fields

  method TakeLongs(r: Reader, n: nat) returns (xs: seq<u64>)
    requires r.Valid()
    modifies r
    ensures r.Valid() && (xs, r.Here()) == GetLongs(r.data, old(r.Here()), n)
  {
    hide Get64;
    xs := [];
    for i := 0 to n
      invariant r.Valid() && (xs, r.Here()) == GetLongs(r.data, old(r.Here()), i)
    {
      var x := r.TakeU64();
      xs := xs + [x];
    }
  }

  method TakeDouble(r: Reader) returns (x: double)
    requires r.Valid()
    modifies r
    ensures r.Valid() && (x, r.Here()) == GetDouble(r.data, old(r.Here()))
  {
    hide Get64;
    var v := r.TakeU64();
    if !Finite64(v) {
      r.Fail();
      return 0;
    }
    x := v;
  }

  method TakeDoubles(r: Reader, n: nat) returns (xs: seq<double>)
    requires r.Valid()
    modifies r
    ensures r.Valid() && (xs, r.Here()) == GetDoubles(r.data, old(r.Here()), n)
  {
    hide GetDouble;
    xs := [];
    for i := 0 to n
      invariant r.Valid() && (xs, r.Here()) == GetDoubles(r.data, old(r.Here()), i)
    {
      var x := TakeDouble(r);
      xs := xs + [x];
    }
  }

  method TakeFloats(r: Reader, fl: Floats, n: nat) returns (xs: seq<float>)
    requires r.Valid()
    modifies r
    ensures r.Valid() && (xs, r.Here()) == GetAll(GetFloat(fl), r.data, old(r.Here()), n)
  {
    hide GetDouble;
    xs := [];
    for i := 0 to n
      invariant r.Valid() && (xs, r.Here()) == GetAll(GetFloat(fl), r.data, old(r.Here()), i)
    {
      var v := TakeDouble(r);
      if fl.small(v) {
        xs := xs + [fl.narrow(v)];
      } else {
        r.Fail();
        xs := xs + [0];
      }
    }
  }

  method TakeText(r: Reader) returns (x: text)
    requires r.Valid()
    modifies r
    ensures r.Valid() && (x, r.Here()) == GetText(r.data, old(r.Here()))
  {
    var v := r.TakeFixed(U32);
    x := if r.error then [] else v;
  }

  method TakeSteam(r: Reader) returns (o: Option<Steam>)
    requires r.Valid()
    modifies r
    ensures r.Valid() && r.Here() == GetSteam(r.data, old(r.Here())).1
    ensures r.Here().At? ==> o == GetSteam(r.data, old(r.Here())).0
  {
    hide Get32, GetFixeds;
    var present := r.TakeU32();
    if present > 1 {
      r.Fail();
      return None;
    }
    if present == 0 || r.error {
      NothingPresent(r.data);
      return None;
    }
    var isSteam := r.TakeU32();
    var isWine := r.TakeU32();
    var xs := TakeFixeds(r, CAPS);
    o := Some(SteamOf(isSteam, isWine, xs));
  }

  lemma NothingPresent(s: seq<byte>)
    ensures GetFixeds(s, Error, CAPS).1 == Error && Get32(s, Error).1 == Error
  {
  }

  method TakeFixeds(r: Reader, caps: seq<nat>) returns (xs: seq<text>)
    requires r.Valid()
    modifies r
    ensures r.Valid() && (xs, r.Here()) == GetFixeds(r.data, old(r.Here()), caps)
  {
    hide GetFixed;
    xs := [];
    for i := 0 to |caps|
      invariant r.Valid() && (xs, r.Here()) == GetFixeds(r.data, old(r.Here()), caps[..i])
    {
      var x := r.TakeFixed(if caps[i] <= U32 then caps[i] else U32);
      assert caps[..i + 1][..i] == caps[..i];
      xs := xs + [if r.error then [] else x];
    }
    assert caps[..|caps|] == caps;
  }

  // ------------------------------------------------------------ rows

  function Short(x: text): (n: nat)
    ensures n <= |x| && n <= 0xffff && (n == |x| || n == 0xffff)
  {
    if |x| > LEN_MAX then LEN_MAX else |x|
  }

  /** Offsets and lengths of strings stored in a table. */
  ghost predicate Stored(tab: seq<byte>, offs: seq<nat>, lens: seq<nat>, xs: seq<text>) {
    && |offs| == |lens| == |xs|
    && forall i :: 0 <= i < |xs| ==> offs[i] < |tab| && Deref(tab, offs[i]) == xs[i] && lens[i] == Short(xs[i])
  }

  /** Every string of the smaller table reads the same in the larger. */
  ghost predicate Kept(small: seq<byte>, large: seq<byte>) {
    |small| <= |large| && forall off :: 0 <= off < |small| ==> Deref(large, off) == Deref(small, off)
  }

  lemma StoreOne(first: seq<byte>, tab: seq<byte>, offs: seq<nat>, lens: seq<nat>, xs: seq<text>, x: text)
    requires Ended(tab) && |tab| + |x| + 1 <= OFFSET_MAX && Kept(first, tab) && Stored(tab, offs, lens, xs)
    ensures var (t, off) := Push(tab, x);
            Kept(first, t) && Stored(t, offs + [off], lens + [Short(x)], xs + [x]) && |t| <= |tab| + |x| + 4 && (x != [] ==> off != 0)
  {
    PushReads(tab, x);
    hide Deref;
  }

  /** The strings of a row: each is read, then stored in the string table. */
  method TakeNames(r: Reader, table: StringTable, n: nat) returns (offs: seq<nat>, lens: seq<nat>)
    requires r.Valid() && table.Valid() && |r.data| <= LIMIT
    requires r.Here().At? ==> |table.buf| <= 1 + r.pos
    modifies r, table
    ensures r.Valid() && table.Valid() && r.Here() == GetTexts(r.data, old(r.Here()), n).1
    ensures r.Here().At? ==>
              && |table.buf| <= 1 + r.pos && Kept(old(table.buf), table.buf)
              && Stored(table.buf, offs, lens, GetTexts(r.data, old(r.Here()), n).0)
  {
    hide GetText, Push, Deref, Kept, Stored;
    offs, lens := [], [];
    ghost var xs: seq<text>, p0 := [], r.Here();
    StoredNone(table.buf);
    for i := 0 to n
      invariant r.Valid() && table.Valid() && (xs, r.Here()) == GetTexts(r.data, p0, i)
      invariant r.Here().At? ==> |table.buf| <= 1 + r.pos && Kept(old(table.buf), table.buf) && Stored(table.buf, offs, lens, xs)
    {
      ghost var was := r.Here();
      var x := TakeText(r);
      TextTaken(r.data, was);
      xs := xs + [x];
      if !r.error {
        StoreOne(old(table.buf), table.buf, offs, lens, xs[..i], x);
        assert xs[..i] + [x] == xs;
        var off := table.Store(x);
        offs, lens := offs + [off], lens + [Short(x)];
        // a frame's strings always fit, so the table never runs out of offsets
        assert x == [] || off != 0;
      }
    }
  }

  lemma StoredNone(tab: seq<byte>)
    ensures Stored(tab, [], [], []) && Kept(tab, tab)
  {
  }

  lemma TextTaken(s: seq<byte>, p: Place)
    ensures var (x, q) := GetText(s, p); q.At? ==> p.At? && q.pos == p.pos + 4 + |x|
  {
  }

  method TakeHead(r: Reader, fl: Floats) returns (pid: u32, ppid: u32, counts: Counts, rates: Rates)
    requires r.Valid()
    modifies r
    ensures r.Valid() && r.Here() == GetHead(fl, r.data, old(r.Here())).4
    ensures r.Here().At? ==> (pid, ppid, counts, rates, r.Here()) == GetHead(fl, r.data, old(r.Here()))
  {
    hide Get32, GetLongs, GetAll, GetFloat;
    pid := r.TakeU32();
    ppid := r.TakeU32();
    if !PidsOk(pid, ppid) {
      r.Fail();
      LongsStop(r.data, 9);
      FloatsStop(fl, r.data, 3);
    }
    var cs := TakeLongs(r, 9);
    var rs := TakeFloats(r, fl, 3);
    counts, rates := CountsOf(cs), Rates(rs[0], rs[1], rs[2]);
  }

  method TakeMisc(r: Reader, fl: Floats) returns (historyLen: u32, flags: u32, history: seq<float>)
    requires r.Valid()
    modifies r
    ensures r.Valid() && |history| == HISTORY
    ensures var (h, p1) := Get32(r.data, old(r.Here()));
            var (g, p2) := Get32(r.data, p1);
            var (hs, p3) := GetAll(GetFloat(fl), r.data, p2, HISTORY);
            if MiscOk(h, g) then (historyLen, flags, history, r.Here()) == (h, g, hs, p3) else r.Here() == Error
  {
    hide Get32, GetAll, GetFloat;
    historyLen := r.TakeU32();
    flags := r.TakeU32();
    if !MiscOk(historyLen, flags) {
      r.Fail();
      FloatsStop(fl, r.data, HISTORY);
    }
    history := TakeFloats(r, fl, HISTORY);
  }

  lemma {:induction false} FloatsMove(fl: Floats, s: seq<byte>, p: Place, n: nat)
    ensures var q := GetAll(GetFloat(fl), s, p, n).1; q.At? ==> p.At? && p.pos <= q.pos
  {
    if n > 0 {
      FloatsMove(fl, s, p, n - 1);
    }
  }

  lemma SteamMoves(s: seq<byte>, p: Place)
    ensures var q := GetSteam(s, p).1; q.At? ==> p.At? && p.pos <= q.pos
  {
    hide GetFixed;
    FixedsMove(s, Get32(s, Get32(s, Get32(s, p).1).1).1, CAPS);
  }

  lemma {:induction false} FixedsMove(s: seq<byte>, p: Place, caps: seq<nat>)
    ensures var q := GetFixeds(s, p, caps).1; q.At? ==> p.At? && p.pos <= q.pos
  {
    if caps != [] {
      FixedsMove(s, p, caps[..|caps| - 1]);
    }
  }

  /** Where the table and the reader stand between rows: strings never outgrow the bytes read. */
  ghost predicate Ready(r: Reader, table: StringTable)
    reads r, table
  {
    r.Valid() && table.Valid() && |r.data| <= LIMIT && (r.Here().At? ==> |table.buf| <= 1 + r.pos)
  }

  method TakeTail(r: Reader, fl: Floats, table: StringTable)
    returns (historyLen: u32, flags: u32, history: seq<float>, offs: seq<nat>, lens: seq<nat>, steam: Option<Steam>)
    requires Ready(r, table)
    modifies r, table
    ensures Ready(r, table) && r.Here() == GetTail(fl, r.data, old(r.Here())).5
    ensures r.Here().At? ==>
              var t := GetTail(fl, r.data, old(r.Here()));
              && (historyLen, flags, history, steam) == (t.0, t.1, t.2, t.4)
              && Kept(old(table.buf), table.buf) && Stored(table.buf, offs, lens, NameList(t.3))
  {
    hide Get32, GetAll, GetFloat, GetTexts, GetSteam, Deref, Kept, Stored, Ended, SteamFits;
    FloatsMove(fl, r.data, Get32(r.data, Get32(r.data, r.Here()).1).1, HISTORY);
    historyLen, flags, history := TakeMisc(r, fl);
    if r.error {
      TextsStop(r.data, 6);
      SteamStops(r.data);
    }
    offs, lens := TakeNames(r, table, 6);
    SteamMoves(r.data, r.Here());
    steam := TakeSteam(r);
  }

  lemma {:induction false} LongsMove(s: seq<byte>, p: Place, n: nat)
    ensures var q := GetLongs(s, p, n).1; q.At? ==> p.At? && p.pos <= q.pos
  {
    if n > 0 {
      LongsMove(s, p, n - 1);
    }
  }

  lemma HeadMoves(fl: Floats, s: seq<byte>, p: Place)
    ensures var q := GetHead(fl, s, p).4; q.At? ==> p.At? && p.pos <= q.pos
  {
    hide Get32, GetLongs, GetAll, GetFloat;
    var p2 := Get32(s, Get32(s, p).1).1;
    LongsMove(s, p2, 9);
    FloatsMove(fl, s, GetLongs(s, p2, 9).1, 3);
  }

  lemma TailStops(fl: Floats, s: seq<byte>)
    ensures GetTail(fl, s, Error).5 == Error
  {
    hide GetAll, GetFloat, GetTexts, GetSteam;
    FloatsStop(fl, s, HISTORY);
    TextsStop(s, 6);
    SteamStops(s);
  }

  lemma NamesStored(tab: seq<byte>, e: Entry, n: Names)
    requires |tab| < U32 && Stored(tab, e.offs, e.lens, NameList(n))
    ensures EntryIn(e, tab) && NamesIn(tab, e) == n
  {
    hide Deref;
  }

  /** One row into the snapshot being built. */
  method TakeRow(r: Reader, fl: Floats, table: StringTable, extras: seq<Option<Steam>>) returns (e: Entry, steam: Option<Steam>)
    requires Ready(r, table)
    modifies r, table
    ensures Ready(r, table) && r.Here() == GetRowAt(fl, r.data, old(r.Here())).1
    ensures r.Here().At? ==>
              && Kept(old(table.buf), table.buf) && EntryIn(e, table.buf) && e.extra == NextExtra(extras, steam)
              && RowWith(table.buf, e, steam) == GetRowAt(fl, r.data, old(r.Here())).0
  {
    hide GetHead, GetTail, Deref, Kept, Stored, Ended, EntryIn, NamesIn, Held;
    HeadMoves(fl, r.data, r.Here());
    TailStops(fl, r.data);
    var pid, ppid, counts, rates := TakeHead(r, fl);
    ghost var q := r.Here();
    var historyLen, flags, history, offs, lens;
    historyLen, flags, history, offs, lens, steam := TakeTail(r, fl, table);
    e := Entry(pid, ppid, counts, rates, historyLen, flags, history, offs, lens, NextExtra(extras, steam));
    if r.Here().At? {
      NamesStored(table.buf, e, GetTail(fl, r.data, q).3);
    }
  }

  // ------------------------------------------------------------ frames

  method TakeSystem(r: Reader) returns (y: System)
    requires r.Valid()
    modifies r
    ensures r.Valid() && (y, r.Here()) == GetSystem(r.data, old(r.Here()))
  {
    hide Get32, GetLongs, GetDoubles;
    var longs := TakeLongs(r, 4);
    var load := TakeDoubles(r, 3);
    var cpus := r.TakeU32();
    var users := r.TakeU32();
    var backend := r.TakeU32();
    y := System(longs[0], longs[1], longs[2], longs[3], load, cpus, users, backend);
  }

  method TakeFrameHead(r: Reader) returns (f: Frame)
    requires r.Valid()
    modifies r
    ensures r.Valid() && (f, r.Here()) == GetFrameHead(r.data, old(r.Here()))
  {
    hide Get32, Get64, GetSystem;
    var generation := r.TakeU64();
    var sampled := r.TakeU64();
    var interval := r.TakeU32();
    var ready := r.TakeU32();
    var total := r.TakeU32();
    var system := TakeSystem(r);
    var sent := r.TakeU64();
    f := Frame(generation, sampled, interval, ready, total, system, sent, None);
    if !TimesOk(f) {
      r.Fail();
    }
  }

  /** The rows, as long as nothing is wrong. */
  method TakeRows(r: Reader, fl: Floats, count: nat) returns (m: Store)
    requires r.Valid() && |r.data| <= LIMIT && r.Here().At? && count <= LIMIT
    modifies r
    ensures r.Valid() && r.Here() == GetRows(fl, r.data, old(r.Here()), count).1
    ensures r.Here().At? ==> Sound(m) && View(m) == GetRows(fl, r.data, old(r.Here()), count).0
  {
    hide GetRowAt, Deref, Ended, EntryIn, NamesIn, Held, RowWith, View, Sound, Indexed;
    var table := new StringTable(4096);
    ghost var p := r.Here();
    m := Store([], table.buf, []);
    StartStore(table.buf);
    var n := 0;
    while n < count && !r.error
      invariant 0 <= n <= count && fresh(table) && Ready(r, table) && r.Here() == GetRows(fl, r.data, p, n).1
      invariant r.Here().At? ==>
                  |m.entries| == n && m.tab == table.buf && Sound(m) && Indexed(m) && View(m) == GetRows(fl, r.data, p, n).0
    {
      ghost var was := table.buf;
      ghost var q := r.Here();
      var e, steam := TakeRow(r, fl, table, m.extras);
      if !r.error {
        OneMore(m, table.buf, e, steam, GetRowAt(fl, r.data, q).0);
        m := Store(m.entries + [e], table.buf, Extended(m.extras, steam));
      }
      n := n + 1;
    }
    if r.error {
      RowsStop(fl, r.data, p, n, count);
    }
  }

  lemma StartStore(tab: seq<byte>)
    ensures Sound(Store([], tab, [])) && Indexed(Store([], tab, [])) && View(Store([], tab, [])) == []
  {
  }

  lemma OneMore(m: Store, tab: seq<byte>, e: Entry, steam: Option<Steam>, x: row)
    requires Sound(m) && Indexed(m) && |m.entries| + 1 < U32 && |tab| < U32 && Kept(m.tab, tab) && EntryIn(e, tab)
    requires e.extra == NextExtra(m.extras, steam) && RowWith(tab, e, steam) == x
    ensures var n := Store(m.entries + [e], tab, Extended(m.extras, steam));
            Sound(n) && Indexed(n) && View(n) == View(m) + [x]
  {
    hide Deref, EntryIn, RowWith, Sound, Indexed, View;
    AddRow(m, tab, e, steam);
  }

  /** When the sample was taken, by the receiver's own clock; zero when that is unknown. */
  function LocalSample(f: Frame, now: u64): u64
    requires TimesOk(f)
  {
    var age := f.sent - f.sampled;
    if f.sampled != 0 && age <= now then now - age else 0
  }

  /** A sample's age survives the change of clocks: it is as old at the receiver as it was when the frame was sent.  It is
      unknown for a sample without a time and for one older than the receiver's clock. */
  ghost predicate AgeKept(sampled: nat, sent: nat, local: nat, now: nat) {
    if sampled != 0 && sent - sampled <= now then local <= now && now - local == sent - sampled else local == 0
  }

  lemma SampleAge(f: Frame, now: u64)
    requires TimesOk(f)
    ensures AgeKept(f.sampled, f.sent, LocalSample(f, now), now)
  {
  }

  /** The two clocks need not agree: moving both of the service's times together changes nothing. */
  lemma ShiftedClock(f: Frame, g: Frame, now: u64)
    requires TimesOk(f) && TimesOk(g) && f.sampled != 0 && g.sampled != 0 && f.sent - f.sampled == g.sent - g.sampled
    ensures LocalSample(f, now) == LocalSample(g, now)
  {
  }

  /** Publishes a whole frame, or leaves the shared state alone. */
  method Decode(data: seq<byte>, state: MonitorState, statusOnly: bool, now: u64, fl: Floats) returns (ok: bool)
    requires state.Valid() && |data| <= LIMIT
    modifies state
    ensures state.Valid() && (ok <==> GetFrame(fl, data, statusOnly).Some?)
    ensures !ok ==> unchanged(state)
    ensures ok ==>
              var f := GetFrame(fl, data, statusOnly).value;
              && (state.generation, state.interval, state.complete, state.system) == (f.generation, f.interval, f.ready, f.system)
              && state.sampled == LocalSample(f, now) && state.connected && state.instance == old(state.instance)
              && AgeKept(f.sampled, f.sent, state.sampled, now)
              && if statusOnly then state.snapshot == old(state.snapshot) else View(state.snapshot) == f.rows.value
  {
    hide GetFrameHead, GetRows, Get32, View, Sound, TimesOk;
    var r := new Reader(data);
    var f := TakeFrameHead(r);
    var next := state.snapshot;
    if !statusOnly && !r.error {
      var count := r.TakeU32();
      if count > f.total || count > (|data| - r.pos) / ROW_MIN {
        r.Fail();
      }
      if !r.error {
        next := TakeRows(r, fl, count);
      }
    }
    var done := r.Done();
    if !done {
      return false;
    }
    state.snapshot := next;
    state.generation, state.sampled, state.interval := f.generation, LocalSample(f, now), f.interval;
    state.complete, state.system, state.connected := f.ready, f.system, true;
    SampleAge(f, now);
    return true;
  }

  /** Service to client: a reply that was encoded is accepted if and only if the decoder takes its times, pids and numbers;
      then the client has the service's rows, their strings and Steam records, stamped with the service's instance. */
  method Transfer(server: MonitorState, client: MonitorState, status: bool, pid: nat, sent: u64, now: u64, fl: Floats)
    returns (code: Reply, ok: bool)
    requires server != client && server.Valid() && client.Valid() && Exact(fl)
    modifies client
    ensures client.Valid() && (!ok ==> unchanged(client))
    ensures ok <==> code == Fine && ProperFrame(old(server.Describe(status, pid, sent)))
    ensures ok ==> (client.generation, client.interval, client.complete, client.system) ==
                   (server.generation, server.interval, server.complete, server.system)
    ensures ok ==> AgeKept(server.sampled, sent, client.sampled, now) && client.connected
    ensures ok && status ==> client.snapshot == old(client.snapshot)
    ensures ok && !status ==> View(client.snapshot) == Stamped(Selected(View(server.snapshot), pid), server.instance)
  {
    hide PutFrame, GetFrame, View, Sound, Selected, Stamped, Exact, ProperFrame;
    var w := new Writer();
    code := Encode(server, status, pid, sent, fl, w);
    ok := false;
    if code == Fine {
      Described(server.snapshot, pid, server.instance);
      ghost var f := server.Describe(status, pid, sent);
      FrameRoundTrip(fl, f);
      ok := Decode(w.data, client, status, now, fl);
    }
  }

  lemma Described(m: Store, pid: nat, instance: u64)
    requires Sound(m)
    ensures |Stamped(Selected(View(m), pid), instance)| <= |m.entries|
  {
  }
}
