/** The inspection reply and the GPU reply, built from record arrays. */
module Inspect {
  import opened Common
  import opened Wire
  import opened SnapshotWire
  import opened Records

  const PID: Layout := [N32]
  const FD: Layout := [N32, Str(512), Str(256), N32, N64, N32]
  const ENV: Layout := [ANY, N32]
  const MMAP: Layout := [ANY, N32, N64]
  const LIB: Layout := [Str(512), Str(256), Str(64), Str(128), N32, N64]
  const SOCKET: Layout := [Str(512), N64, N64, N64, N32]
  const THREAD: Layout := [N32, Str(64), N32, N32, N32, N32, N64, N64, N64, Real, N64, N64]
  const NODE: Layout := [N32, N32, N32, Str(128), Str(128), Str(256), Str(64), Str(256)]
  const LINK: Layout := [N32, N32, N32, N32]
  const PORT: Layout := [N32, N32, Str(128), Str(8), Str(64)]
  const PLAYER_STATE: Layout := [Str(128), Str(128), N32, Str(256), Str(32), Str(32), N32, Real, Real, N64]
  const PLAYER_TRACK: Layout := [Str(256), Str(256), Str(256), Str(256), Str(512), Str(256), Str(128), N64, N32, N32]
  const PLAYER_ABILITY: Layout := [Str(64), Str(512), N32, N32, N32, N32, N32, N32]
  const PLAYER: Layout := PLAYER_STATE + PLAYER_TRACK + PLAYER_ABILITY
  const CGROUP: Layout := [Str(512), N64, N64, N64, N64, N64, N64, N64, N64, Str(256)]
  const HEAD: Layout := [N32, N32, ANY, ANY, ANY, ANY, Real, N64]
  const RAW: Layout := [ANY, ANY, ANY]
  const DEVICE_NAMES: Layout := [Str(160), Str(64), Str(32), Str(16), N32, N32, N32, N32, N32, N32]
  const DEVICE_CLOCKS: Layout := [N32, N32, N32, N32, N32, N32, N32, N32, N64, N64]
  const DEVICE: Layout := DEVICE_NAMES + DEVICE_CLOCKS
  const GPU_PROCESS: Layout := [N32, N32, N32, N32, N32, N32, N64, Str(96), Str(64)]

  const LAYOUTS: seq<Layout> := [PID, FD, ENV, MMAP, LIB, SOCKET, THREAD, NODE, LINK, PORT, PLAYER]
  const MINIMUMS: seq<nat> := [4, 28, 8, 16, 28, 32, 72, 32, 16, 20, 128]
  const DEVICE_MIN: nat := 88
  const GPU_PROCESS_MIN: nat := 40

  /** A layout's minimum, counted kind by kind. */
  function Tally(l: Layout, i: nat): (n: nat)
    requires i <= |l|
    ensures n == MinSize(l[..i])
    decreases i
  {
    if i == 0 then 0 else
      assert l[..i][..i - 1] == l[..i - 1];
      Tally(l, i - 1) + Smallest(l[i - 1])
  }

  lemma MinimumIs(l: Layout, k: nat, n: nat)
    requires k == |l| && Tally(l, k) == n
    ensures MinSize(l) == n
  {
    assert l[..|l|] == l;
  }

  lemma FileLayouts()
    ensures MinSize(PID) == 4 && MinSize(FD) == 28 && MinSize(ENV) == 8 && MinSize(MMAP) == 16 && MinSize(LIB) == 28
  {
    hide MinSize;
    MinimumIs(PID, 1, 4);
    MinimumIs(FD, 6, 28);
    MinimumIs(ENV, 2, 8);
    MinimumIs(MMAP, 3, 16);
    MinimumIs(LIB, 6, 28);
  }

  lemma ActivityLayouts()
    ensures MinSize(SOCKET) == 32 && MinSize(THREAD) == 72
  {
    hide MinSize;
    MinimumIs(SOCKET, 5, 32);
    assert Tally(THREAD, 4) == 16;
    assert Tally(THREAD, 8) == 40;
    MinimumIs(THREAD, 12, 72);
  }

  lemma AudioLayouts()
    ensures MinSize(NODE) == 32 && MinSize(LINK) == 16 && MinSize(PORT) == 20
  {
    hide MinSize;
    MinimumIs(NODE, 8, 32);
    MinimumIs(LINK, 4, 16);
    MinimumIs(PORT, 5, 20);
  }

  lemma {:induction false} MinSizeAppend(a: Layout, b: Layout)
    ensures MinSize(a + b) == MinSize(a) + MinSize(b)
  {
    if b == [] {
      assert a + b == a;
    } else {
      var n := |b| - 1;
      MinSizeAppend(a, b[..n]);
      assert (a + b)[..|a + b| - 1] == a + b[..n];
    }
  }

  lemma PlayerState()
    ensures MinSize(PLAYER_STATE) == 52
  {
    hide MinSize;
    assert Tally(PLAYER_STATE, 5) == 20;
    MinimumIs(PLAYER_STATE, 10, 52);
  }

  lemma PlayerTrack()
    ensures MinSize(PLAYER_TRACK) == 44
  {
    hide MinSize;
    assert Tally(PLAYER_TRACK, 5) == 20;
    MinimumIs(PLAYER_TRACK, 10, 44);
  }

  lemma PlayerAbility()
    ensures MinSize(PLAYER_ABILITY) == 32
  {
    hide MinSize;
    assert Tally(PLAYER_ABILITY, 4) == 16;
    MinimumIs(PLAYER_ABILITY, 8, 32);
  }

  lemma PlayerLayout()
    ensures MinSize(PLAYER) == 128
  {
    hide MinSize;
    PlayerState();
    PlayerTrack();
    PlayerAbility();
    MinSizeAppend(PLAYER_STATE, PLAYER_TRACK);
    MinSizeAppend(PLAYER_STATE + PLAYER_TRACK, PLAYER_ABILITY);
  }

  lemma GpuLayouts()
    ensures MinSize(DEVICE) == 88 && MinSize(GPU_PROCESS) == 40
  {
    hide MinSize;
    assert Tally(DEVICE_NAMES, 5) == 20;
    MinimumIs(DEVICE_NAMES, 10, 40);
    assert Tally(DEVICE_CLOCKS, 5) == 20;
    MinimumIs(DEVICE_CLOCKS, 10, 48);
    MinSizeAppend(DEVICE_NAMES, DEVICE_CLOCKS);
    assert Tally(GPU_PROCESS, 5) == 20;
    MinimumIs(GPU_PROCESS, 9, 40);
  }

  /** Each constant the decoders test with is the size of the smallest record of its layout. */
  lemma MinimumsRight()
    ensures |MINIMUMS| == |LAYOUTS| && forall i :: 0 <= i < |LAYOUTS| ==> MINIMUMS[i] == MinSize(LAYOUTS[i]) > 0
    ensures DEVICE_MIN == MinSize(DEVICE) && GPU_PROCESS_MIN == MinSize(GPU_PROCESS)
  {
    hide MinSize;
    FileLayouts();
    ActivityLayouts();
    AudioLayouts();
    PlayerLayout();
    GpuLayouts();
  }

  // ------------------------------------------------------------ all arrays of a reply, under one budget

  predicate SectionsOk(cs: seq<Section>) {
    forall i :: 0 <= i < |cs| ==> SectionOk(cs[i])
  }

  ghost predicate Fitting(cs: seq<Section>, arrays: seq<seq<Record>>) {
    |arrays| == |cs| && forall i :: 0 <= i < |cs| ==> LegalRecords(cs[i].layout, arrays[i]) && |arrays[i]| < U32
  }

  ghost predicate FiniteArrays(cs: seq<Section>, arrays: seq<seq<Record>>)
    requires Fitting(cs, arrays)
  {
    forall i :: 0 <= i < |cs| ==> LegalRecords(cs[i].layout, arrays[i]) && FiniteRecords(cs[i].layout, arrays[i])
  }

  ghost function PutArrays(cs: seq<Section>, arrays: seq<seq<Record>>): seq<byte>
    requires Fitting(cs, arrays)
  {
    if cs == [] then [] else
      var n := |cs| - 1;
      PutArrays(cs[..n], arrays[..n]) + PutArray(cs[n].layout, arrays[n])
  }

  /** Memory taken by decoded arrays. */
  function Allocated(cs: seq<Section>, arrays: seq<seq<Record>>): nat
    requires |arrays| == |cs|
  {
    if cs == [] then 0 else
      var n := |cs| - 1;
      Allocated(cs[..n], arrays[..n]) + |arrays[n]| * cs[n].size
  }

  /** Whatever is accepted, its arrays and what is left of the budget make up the budget. */
  function GetArrays(cs: seq<Section>, s: seq<byte>, p: Place, budget: nat): (r: (seq<seq<Record>>, Place, nat))
    requires SectionsOk(cs)
    ensures |r.0| == |cs|
    ensures r.1.At? ==> p.At? && (p.pos <= |s| ==> r.1.pos <= |s|) && Fitting(cs, r.0) && Allocated(cs, r.0) + r.2 == budget
  {
    if cs == [] then ([], p, budget) else
      var n := |cs| - 1;
      var (arrays, p1, b1) := GetArrays(cs[..n], s, p, budget);
      var (a, p2, b2) := GetArray(cs[n], s, p1, b1);
      assert (arrays + [a])[..n] == arrays;
      (arrays + [a], p2, b2)
  }

  predicate Affordable(cs: seq<Section>, arrays: seq<seq<Record>>, budget: nat)
    requires |arrays| == |cs|
  {
    (forall i :: 0 <= i < |arrays| ==> |arrays[i]| <= COUNT_MAX) && Allocated(cs, arrays) <= budget
  }

  lemma FittingPrefix(cs: seq<Section>, arrays: seq<seq<Record>>)
    requires Fitting(cs, arrays) && SectionsOk(cs) && cs != []
    ensures var n := |cs| - 1; Fitting(cs[..n], arrays[..n]) && SectionsOk(cs[..n]) && SectionOk(cs[n])
    ensures var n := |cs| - 1; LegalRecords(cs[n].layout, arrays[n]) && |arrays[n]| < U32
    ensures var n := |cs| - 1;
            FiniteArrays(cs, arrays) <==> FiniteArrays(cs[..n], arrays[..n]) && FiniteRecords(cs[n].layout, arrays[n])
  {
    hide LegalRecords, FiniteRecords;
    var n := |cs| - 1;
    assert cs == cs[..n] + [cs[n]] && arrays == arrays[..n] + [arrays[n]];
  }

  lemma AffordablePrefix(cs: seq<Section>, arrays: seq<seq<Record>>, budget: nat)
    requires |arrays| == |cs| && cs != []
    ensures var n := |cs| - 1;
            Affordable(cs, arrays, budget) <==>
            Affordable(cs[..n], arrays[..n], budget) && |arrays[n]| <= COUNT_MAX &&
            |arrays[n]| * cs[n].size <= budget - Allocated(cs[..n], arrays[..n])
  {
    var n := |cs| - 1;
    assert arrays == arrays[..n] + [arrays[n]];
  }

  /** What the decoder takes of a reply's arrays. */
  ghost predicate Acceptable(cs: seq<Section>, arrays: seq<seq<Record>>, budget: nat)
    requires |arrays| == |cs| && Fitting(cs, arrays)
  {
    Affordable(cs, arrays, budget) && FiniteArrays(cs, arrays)
  }

  /** Written arrays are read back if and only if they are affordable and their numbers finite. */
  lemma {:induction false} ReadArrays(cs: seq<Section>, s: seq<byte>, p: Place, budget: nat, arrays: seq<seq<Record>>)
    requires SectionsOk(cs) && |arrays| == |cs| && Fitting(cs, arrays) && p.At? && Here(s, p, PutArrays(cs, arrays))
    ensures Acceptable(cs, arrays, budget) ==>
              GetArrays(cs, s, p, budget) == (arrays, At(p.pos + |PutArrays(cs, arrays)|), budget - Allocated(cs, arrays))
    ensures GetArrays(cs, s, p, budget).1.At? <==> Acceptable(cs, arrays, budget)
  {
    hide Here, PutArray, GetArray, Fitting, FiniteArrays, SectionsOk, SectionOk, Acceptable, LegalRecords;
    if cs == [] {
      NothingToAfford(cs, arrays, budget);
    } else {
      var n := |cs| - 1;
      FittingPrefix(cs, arrays);
      var front := PutArrays(cs[..n], arrays[..n]);
      assert PutArrays(cs, arrays) == front + PutArray(cs[n].layout, arrays[n]);
      Split(s, p, front, PutArray(cs[n].layout, arrays[n]));
      ReadArrays(cs[..n], s, p, budget, arrays[..n]);
      ReadLast(cs, s, p, budget, arrays);
    }
  }

  /** The last array, once those before it have been read back. */
  lemma ReadLast(cs: seq<Section>, s: seq<byte>, p: Place, budget: nat, arrays: seq<seq<Record>>)
    requires SectionsOk(cs) && |arrays| == |cs| > 0 && Fitting(cs, arrays) && p.At?
    requires var n := |cs| - 1;
             && SectionsOk(cs[..n]) && Fitting(cs[..n], arrays[..n])
             && Here(s, At(p.pos + |PutArrays(cs[..n], arrays[..n])|), PutArray(cs[n].layout, arrays[n]))
             && (Acceptable(cs[..n], arrays[..n], budget) ==>
                   GetArrays(cs[..n], s, p, budget) == (arrays[..n], At(p.pos + |PutArrays(cs[..n], arrays[..n])|), budget - Allocated(cs[..n], arrays[..n])))
             && (GetArrays(cs[..n], s, p, budget).1.At? <==> Acceptable(cs[..n], arrays[..n], budget))
    ensures Acceptable(cs, arrays, budget) ==>
              GetArrays(cs, s, p, budget) == (arrays, At(p.pos + |PutArrays(cs, arrays)|), budget - Allocated(cs, arrays))
    ensures GetArrays(cs, s, p, budget).1.At? <==> Acceptable(cs, arrays, budget)
  {
    hide Here, PutArray, GetArray, Fitting, FiniteArrays, SectionsOk, SectionOk, Acceptable, LegalRecords, FiniteRecords;
    var n := |cs| - 1;
    FittingPrefix(cs, arrays);
    AcceptablePrefix(cs, arrays, budget);
    if Acceptable(cs[..n], arrays[..n], budget) {
      WithinBudget(cs[..n], arrays[..n], budget);
      ReadArray(cs[n], s, At(p.pos + |PutArrays(cs[..n], arrays[..n])|), budget - Allocated(cs[..n], arrays[..n]), arrays[n]);
      assert arrays == arrays[..n] + [arrays[n]];
    }
  }

  lemma WithinBudget(cs: seq<Section>, arrays: seq<seq<Record>>, budget: nat)
    requires |arrays| == |cs| && Fitting(cs, arrays) && Acceptable(cs, arrays, budget)
    ensures Allocated(cs, arrays) <= budget
  {
  }

  lemma AcceptablePrefix(cs: seq<Section>, arrays: seq<seq<Record>>, budget: nat)
    requires |arrays| == |cs| > 0 && Fitting(cs, arrays) && SectionsOk(cs) && Fitting(cs[..|cs| - 1], arrays[..|cs| - 1])
    ensures var n := |cs| - 1;
            LegalRecords(cs[n].layout, arrays[n]) &&
            (Acceptable(cs, arrays, budget) <==>
             Acceptable(cs[..n], arrays[..n], budget) && |arrays[n]| <= COUNT_MAX && FiniteRecords(cs[n].layout, arrays[n]) &&
             |arrays[n]| * cs[n].size <= budget - Allocated(cs[..n], arrays[..n]))
  {
    hide FiniteArrays, FiniteRecords, Affordable;
    FittingPrefix(cs, arrays);
    AffordablePrefix(cs, arrays, budget);
  }

  lemma NothingToAfford(cs: seq<Section>, arrays: seq<seq<Record>>, budget: nat)
    requires cs == [] && |arrays| == |cs| && Fitting(cs, arrays)
    ensures Acceptable(cs, arrays, budget)
  {
  }

  // ------------------------------------------------------------ the inspection reply

  datatype Report = Report(head: Record, arrays: seq<seq<Record>>, cgroup: Option<Record>, raw: Record)

  ghost predicate LegalReport(cs: seq<Section>, r: Report) {
    && LegalRecord(HEAD, r.head) && |r.arrays| == |cs| && Fitting(cs, r.arrays) && LegalRecord(RAW, r.raw)
    && LegalCgroup(r.cgroup)
  }

  ghost predicate LegalCgroup(o: Option<Record>) {
    o.Some? ==> LegalRecord(CGROUP, o.value)
  }

  ghost function PutCgroup(o: Option<Record>): seq<byte>
    requires LegalCgroup(o)
  {
    if o.None? then Put32(0) else Put32(1) + PutRecord(CGROUP, o.value)
  }

  function GetCgroup(s: seq<byte>, p: Place): (r: (Option<Record>, Place))
    ensures r.1.At? ==> p.At? && LegalCgroup(r.0) && (p.pos <= |s| ==> r.1.pos <= |s|)
  {
    var (present, p1) := Get32(s, p);
    if present > 1 then (None, Error)
    else if present == 0 then (None, p1)
    else
      var (c, p2) := GetRecord(CGROUP, s, p1);
      (Some(c), p2)
  }

  /** A layout without real numbers is always finite. */
  lemma NoReals(l: Layout, r: Record)
    requires LegalRecord(l, r) && forall i :: 0 <= i < |l| ==> !l[i].Real?
    ensures |r| == |l| && FiniteRecord(l, r)
  {
  }

  lemma ReadCgroup(s: seq<byte>, p: Place, o: Option<Record>)
    requires LegalCgroup(o) && p.At? && Here(s, p, PutCgroup(o))
    ensures GetCgroup(s, p) == (o, At(p.pos + |PutCgroup(o)|))
  {
    hide Get32, Put32, Here, PutRecord, GetRecord, LegalRecord, FiniteRecord;
    if o.None? {
      Read32(s, p, 0);
    } else {
      Split(s, p, Put32(1), PutRecord(CGROUP, o.value));
      Read32(s, p, 1);
      NoReals(CGROUP, o.value);
      ReadRecord(CGROUP, s, At(p.pos + 4), o.value);
    }
  }

  ghost function PutReport(cs: seq<Section>, r: Report): seq<byte>
    requires LegalReport(cs, r)
  {
    PutRecord(HEAD, r.head) + (PutArrays(cs, r.arrays) + (PutCgroup(r.cgroup) + PutRecord(RAW, r.raw)))
  }

  function GetReport(cs: seq<Section>, s: seq<byte>): (r: Option<Report>)
    requires SectionsOk(cs)
    ensures r.Some? ==> LegalReport(cs, r.value) && Allocated(cs, r.value.arrays) <= LIMIT
  {
    var (head, p1) := GetRecord(HEAD, s, At(0));
    var (arrays, p2, left) := GetArrays(cs, s, p1, LIMIT);
    var (cgroup, p3) := GetCgroup(s, p2);
    var (raw, p4) := GetRecord(RAW, s, p3);
    if p4 == At(|s|) then Some(Report(head, arrays, cgroup, raw)) else None
  }

  /** Counts and memory are within bounds and all numbers finite. */
  ghost predicate Decodable(cs: seq<Section>, r: Report)
    requires LegalReport(cs, r)
  {
    Affordable(cs, r.arrays, LIMIT) && FiniteArrays(cs, r.arrays) && |r.head| == |HEAD| && FiniteRecord(HEAD, r.head)
  }

  /** A report is decoded as it was encoded if and only if its arrays fit the count limit and the budget and its numbers
      are finite; otherwise it is refused. */
  lemma ReportRoundTrip(cs: seq<Section>, r: Report)
    requires SectionsOk(cs) && LegalReport(cs, r)
    ensures Decodable(cs, r) ==> GetReport(cs, PutReport(cs, r)) == Some(r)
    ensures GetReport(cs, PutReport(cs, r)).Some? <==> Decodable(cs, r)
  {
    hide Here, PutRecord, GetRecord, PutArrays, GetArrays, PutCgroup, GetCgroup, Fitting, SectionsOk, Affordable, LegalRecord, Allocated, FiniteRecord, FiniteArrays;
    var s := PutReport(cs, r);
    var a, b, c, d := PutRecord(HEAD, r.head), PutArrays(cs, r.arrays), PutCgroup(r.cgroup), PutRecord(RAW, r.raw);
    WholeHere(s);
    Split(s, At(0), a, b + (c + d));
    Split(s, At(|a|), b, c + d);
    Split(s, At(|a| + |b|), c, d);
    RecordLength(HEAD, r.head);
    NoReals(RAW, r.raw);
    ReadRecord(HEAD, s, At(0), r.head);
    ReadArrays(cs, s, At(|a|), LIMIT, r.arrays);
    ReadCgroup(s, At(|a| + |b|), r.cgroup);
    ReadRecord(RAW, s, At(|a| + |b| + |c|), r.raw);
  }

  /** The sections of the inspection reply, for the sizes its records have in memory. */
  function InspectSections(sizes: seq<nat>): (cs: seq<Section>)
    requires |sizes| == |LAYOUTS| == |MINIMUMS|
    ensures |cs| == |LAYOUTS|
    ensures forall i :: 0 <= i < |cs| ==> cs[i] == Section(LAYOUTS[i], MINIMUMS[i], sizes[i])
  {
    seq(|LAYOUTS|, i requires 0 <= i < |LAYOUTS| => Section(LAYOUTS[i], MINIMUMS[i], sizes[i]))
  }

  lemma InspectSectionsOk(sizes: seq<nat>)
    requires |sizes| == |LAYOUTS| == |MINIMUMS| && forall i :: 0 <= i < |sizes| ==> sizes[i] > 0
    ensures SectionsOk(InspectSections(sizes))
  {
    hide MinSize;
    MinimumsRight();
  }

  /** The reply with the real layouts and the minimums the decoder has built in. */
  lemma InspectRoundTrip(sizes: seq<nat>, r: Report)
    requires |sizes| == |LAYOUTS| == |MINIMUMS| && forall i :: 0 <= i < |sizes| ==> sizes[i] > 0
    requires LegalReport(InspectSections(sizes), r)
    ensures
      var cs := InspectSections(sizes);
      && SectionsOk(cs)
      && (Decodable(cs, r) ==> GetReport(cs, PutReport(cs, r)) == Some(r))
      && (GetReport(cs, PutReport(cs, r)).Some? <==> Decodable(cs, r))
  {
    hide GetReport, PutReport, SectionsOk, Decodable;
    InspectSectionsOk(sizes);
    ReportRoundTrip(InspectSections(sizes), r);
  }

  // ------------------------------------------------------------ replies that are sent and refused

  /** Arrays of which only the k-th holds anything: n bare records. */
  function Only(cs: seq<Section>, k: nat, n: nat): (arrays: seq<seq<Record>>)
    requires k < |cs| && BareOk(cs[k].layout)
    ensures |arrays| == |cs| && forall i :: 0 <= i < |cs| ==> arrays[i] == if i == k then Bares(cs[k].layout, n) else []
  {
    seq(|cs|, i requires 0 <= i < |cs| => if i == k then Bares(cs[k].layout, n) else [])
  }

  predicate BareOk(l: Layout) {
    forall i :: 0 <= i < |l| && l[i].Str? ==> l[i].capacity > 0
  }

  function Bares(l: Layout, n: nat): (rs: seq<Record>)
    requires BareOk(l)
    ensures |rs| == n && LegalRecords(l, rs)
  {
    if n == 0 then [] else Bares(l, n - 1) + [Bare(l)]
  }

  lemma {:induction false} BaresSize(l: Layout, n: nat)
    requires BareOk(l)
    ensures |PutRecords(l, Bares(l, n))| == MinSize(l) * n
  {
    hide PutRecord, LegalRecord, MinSize, Bare;
    if n > 0 {
      BaresSize(l, n - 1);
      BareIsSmallest(l);
      assert Bares(l, n)[..n - 1] == Bares(l, n - 1);
      assert MinSize(l) * n == MinSize(l) * (n - 1) + MinSize(l);
    }
  }

  lemma OnlyFits(cs: seq<Section>, k: nat, n: nat)
    requires k < |cs| && BareOk(cs[k].layout) && n < U32
    ensures Fitting(cs, Only(cs, k, n))
  {
    hide LegalRecord;
  }

  /** What the first m of such arrays take on the wire and in memory. */
  lemma {:induction false} OnlySize(cs: seq<Section>, k: nat, n: nat, m: nat)
    requires k < |cs| && m <= |cs| && BareOk(cs[k].layout) && n < U32 && Fitting(cs[..m], Only(cs, k, n)[..m])
    ensures |PutArrays(cs[..m], Only(cs, k, n)[..m])| == 4 * m + if k < m then MinSize(cs[k].layout) * n else 0
    ensures Allocated(cs[..m], Only(cs, k, n)[..m]) == if k < m then n * cs[k].size else 0
  {
    hide PutRecords, LegalRecords, MinSize, Bares, Put32;
    if m > 0 {
      var c, a := cs[..m], Only(cs, k, n)[..m];
      assert c[..m - 1] == cs[..m - 1] && a[..m - 1] == Only(cs, k, n)[..m - 1];
      OnlySize(cs, k, n, m - 1);
      if k == m - 1 {
        BaresSize(cs[k].layout, n);
      } else {
        NoRecords(c[m - 1].layout);
      }
    }
  }

  lemma NoRecords(l: Layout)
    ensures LegalRecords(l, []) && PutRecords(l, []) == []
  {
  }

  function OnlyReport(cs: seq<Section>, k: nat, n: nat): Report
    requires k < |cs| && BareOk(cs[k].layout)
  {
    Report(Bare(HEAD), Only(cs, k, n), None, Bare(RAW))
  }

  /** Such a report fits a frame; it is refused if the count or the memory of its one array is too large. */
  lemma OnlyRefused(cs: seq<Section>, k: nat, n: nat)
    requires SectionsOk(cs) && k < |cs| && BareOk(cs[k].layout) && n < U32
    requires 60 + 4 * |cs| + MinSize(cs[k].layout) * n <= LIMIT && (n > COUNT_MAX || n * cs[k].size > LIMIT)
    ensures LegalReport(cs, OnlyReport(cs, k, n)) && |PutReport(cs, OnlyReport(cs, k, n))| <= LIMIT
    ensures GetReport(cs, PutReport(cs, OnlyReport(cs, k, n))).None?
  {
    hide PutRecord, LegalRecord, PutArrays, Fitting, SectionsOk, MinSize, Bare, Allocated, GetReport, Only, BareOk, FiniteArrays, FiniteRecord;
    var r := OnlyReport(cs, k, n);
    OnlyFits(cs, k, n);
    assert cs[..|cs|] == cs && r.arrays[..|cs|] == r.arrays;
    OnlySize(cs, k, n, |cs|);
    HeadSize();
    ReportRoundTrip(cs, r);
    OnlyAt(cs, k, n);
  }

  lemma OnlyAt(cs: seq<Section>, k: nat, n: nat)
    requires k < |cs| && BareOk(cs[k].layout)
    ensures |Only(cs, k, n)| == |cs| && |Only(cs, k, n)[k]| == n
  {
  }

  lemma HeadSize()
    ensures BareOk(HEAD) && BareOk(RAW)
    ensures |PutRecord(HEAD, Bare(HEAD))| == 40 && |PutRecord(RAW, Bare(RAW))| == 12
  {
    hide MinSize, PutRecord, Bare;
    assert Tally(HEAD, 4) == 16;
    MinimumIs(HEAD, 8, 40);
    MinimumIs(RAW, 3, 12);
    BareIsSmallest(HEAD);
    BareIsSmallest(RAW);
  }

  /** The count limit: a process with 65537 descendants takes about 256 KiB on the wire and is refused. */
  lemma ManyDescendantsRefused(sizes: seq<nat>)
    requires |sizes| == |LAYOUTS| == |MINIMUMS| && forall i :: 0 <= i < |sizes| ==> sizes[i] > 0
    ensures
      var cs := InspectSections(sizes);
      && BareOk(cs[0].layout) && SectionsOk(cs) && LegalReport(cs, OnlyReport(cs, 0, 65537))
      && |PutReport(cs, OnlyReport(cs, 0, 65537))| <= LIMIT
      && GetReport(cs, PutReport(cs, OnlyReport(cs, 0, 65537))).None?
  {
    hide MinSize, PutReport, GetReport, LegalReport, OnlyReport, SectionsOk;
    InspectSectionsOk(sizes);
    MinimumsRight();
    OnlyRefused(InspectSections(sizes), 0, 65537);
  }

  /** The budget: 65536 file descriptors, whose two buffers alone take 768 bytes each in memory, fit a frame of under
      2 MiB and are refused. */
  lemma ManyDescriptorsRefused(sizes: seq<nat>)
    requires |sizes| == |LAYOUTS| == |MINIMUMS| && (forall i :: 0 <= i < |sizes| ==> sizes[i] > 0) && sizes[1] >= 768
    ensures
      var cs := InspectSections(sizes);
      && BareOk(cs[1].layout) && SectionsOk(cs) && LegalReport(cs, OnlyReport(cs, 1, 65536))
      && |PutReport(cs, OnlyReport(cs, 1, 65536))| <= LIMIT
      && GetReport(cs, PutReport(cs, OnlyReport(cs, 1, 65536))).None?
  {
    hide MinSize, PutReport, GetReport, LegalReport, OnlyReport, SectionsOk;
    InspectSectionsOk(sizes);
    MinimumsRight();
    assert 65536 * sizes[1] >= 65536 * 768;
    OnlyRefused(InspectSections(sizes), 1, 65536);
  }

  // ------------------------------------------------------------ the GPU reply

  datatype Gpu = Gpu(sampled: nat, devices: seq<Record>, processes: seq<Record>)

  /** The GPU decoder has no budget beside the count limit. */
  function DeviceSection(): Section {
    Section(DEVICE, DEVICE_MIN, 1)
  }

  function ProcessSection(): Section {
    Section(GPU_PROCESS, GPU_PROCESS_MIN, 1)
  }

  lemma GpuSectionsOk()
    ensures SectionOk(DeviceSection()) && SectionOk(ProcessSection())
  {
    hide MinSize;
    MinimumsRight();
  }

  /** The device a process record names. */
  function DeviceIndex(r: Record): nat {
    if r != [] && r[0].Number? then r[0].n else 0
  }

  predicate Named(processes: seq<Record>, devices: nat) {
    forall i :: 0 <= i < |processes| ==> DeviceIndex(processes[i]) < devices
  }

  ghost predicate LegalGpu(g: Gpu) {
    && g.sampled < U64 && LegalRecords(DEVICE, g.devices) && LegalRecords(GPU_PROCESS, g.processes)
    && |g.devices| <= COUNT_MAX && |g.processes| <= COUNT_MAX && Named(g.processes, |g.devices|)
  }

  ghost function PutGpu(g: Gpu): seq<byte>
    requires LegalGpu(g)
  {
    Put64(g.sampled) + (PutArray(DEVICE, g.devices) + PutArray(GPU_PROCESS, g.processes))
  }

  function GetGpu(s: seq<byte>): (r: Option<Gpu>)
    ensures r.Some? ==> LegalGpu(r.value)
  {
    GpuSectionsOk();
    var (sampled, p1) := Get64(s, At(0));
    var (devices, p2, _) := GetArray(DeviceSection(), s, p1, COUNT_MAX);
    var (processes, p3, _) := GetArray(ProcessSection(), s, p2, COUNT_MAX);
    if p3 == At(|s|) && Named(processes, |devices|) then Some(Gpu(sampled, devices, processes)) else None
  }

  /** The first field of every accepted process is the index of a device that was accepted with it. */
  lemma GpuNamesDevices(s: seq<byte>, i: nat)
    requires GetGpu(s).Some? && i < |GetGpu(s).value.processes|
    ensures
      var g := GetGpu(s).value;
      var r := g.processes[i];
      && |r| == |GPU_PROCESS| && r[0].Number? && r[0].n < |g.devices|
      && |g.devices[r[0].n]| == |DEVICE|
  {
    hide GetArray;
    var g := GetGpu(s).value;
    assert LegalRecord(GPU_PROCESS, g.processes[i]);
    assert Legal(GPU_PROCESS[0], g.processes[i][0]);
    assert DeviceIndex(g.processes[i]) < |g.devices|;
    assert LegalRecord(DEVICE, g.devices[g.processes[i][0].n]);
  }

  lemma AllFinite(l: Layout, rs: seq<Record>)
    requires LegalRecords(l, rs) && forall i :: 0 <= i < |l| ==> !l[i].Real?
    ensures FiniteRecords(l, rs)
  {
    forall i | 0 <= i < |rs| ensures LegalRecord(l, rs[i]) && FiniteRecord(l, rs[i]) {
      NoReals(l, rs[i]);
    }
  }

  lemma GpuRoundTrip(g: Gpu)
    requires LegalGpu(g)
    ensures GetGpu(PutGpu(g)) == Some(g)
  {
    hide Here, Get64, Put64, PutArray, GetArray, LegalRecords, FiniteRecords, Named, SectionOk;
    GpuSectionsOk();
    AllFinite(DEVICE, g.devices);
    AllFinite(GPU_PROCESS, g.processes);
    var s := PutGpu(g);
    var a, b := PutArray(DEVICE, g.devices), PutArray(GPU_PROCESS, g.processes);
    WholeHere(s);
    Split(s, At(0), Put64(g.sampled), a + b);
    Split(s, At(8), a, b);
    Read64(s, At(0), g.sampled);
    ReadArray(DeviceSection(), s, At(8), COUNT_MAX, g.devices);
    ReadArray(ProcessSection(), s, At(8 + |a|), COUNT_MAX, g.processes);
  }
}
