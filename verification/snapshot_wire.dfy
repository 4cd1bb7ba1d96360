/** The wire form of a process snapshot: its rows, their Steam records, and the frame around them. */
module SnapshotWire {
  import opened Common
  import opened Wire

  const HISTORY: nat := 20
  const ROW_MIN: nat := 300
  const MAX_INTERVAL: nat := 3_600_000
  const INT_MAX: nat := 0x7fff_ffff
  const FLAGS_MAX: nat := 0xffff

  type u32 = x: nat | x < U32
  type u64 = x: nat | x < U64

  /** Floats and doubles are their IEEE 754 bit patterns; these are finite. */
  predicate Finite32(x: nat) {
    x / 0x80_0000 % 0x100 != 0xff
  }

  predicate Finite64(x: nat) {
    x / 0x10_0000_0000_0000 % 0x800 != 0x7ff
  }

  type float = x: nat | x < U32
  type double = x: nat | x < U64
  predicate FiniteFloat(x: float) {
    Finite32(x)
  }

  predicate FiniteDouble(x: double) {
    Finite64(x)
  }

  type text = x: seq<byte> | Text(x) && |x| < U32 witness []

  /** The conversions between the two widths, and the doubles no larger than the largest float. */
  datatype Floats = Floats(widen: float -> double, narrow: double -> float, small: double -> bool)

  /** Widening is exact on finite floats and keeps the others not finite. */
  ghost predicate Exact(fl: Floats) {
    forall f: float ::
      (Finite64(fl.widen(f)) <==> Finite32(f)) && (Finite32(f) ==> fl.small(fl.widen(f)) && fl.narrow(fl.widen(f)) == f)
  }

  // ------------------------------------------------------------ lists of one kind

  function PutAll<T>(put: T -> seq<byte>, xs: seq<T>): seq<byte> {
    if xs == [] then [] else PutAll(put, xs[..|xs| - 1]) + put(xs[|xs| - 1])
  }

  function GetAll<T>(get: (seq<byte>, Place) -> (T, Place), s: seq<byte>, p: Place, n: nat): (r: (seq<T>, Place))
    ensures |r.0| == n
  {
    if n == 0 then ([], p)
    else
      var (xs, p1) := GetAll(get, s, p, n - 1);
      var (x, p2) := get(s, p1);
      (xs + [x], p2)
  }

  /** A reader takes what its writer put, wherever it stands, if it is fit to be read, and refuses it otherwise; after
      an error it takes nothing. */
  ghost predicate Reads<T(!new)>(put: T -> seq<byte>, get: (seq<byte>, Place) -> (T, Place), fit: T -> bool) {
    && (forall s, p, x :: Here(s, p, put(x)) ==> Taken(get(s, p), p, put(x), x, fit(x)))
    && (forall s :: get(s, Error).1 == Error)
  }

  ghost predicate Taken<T>(r: (T, Place), p: Place, bytes: seq<byte>, x: T, fit: bool)
    requires p.At?
  {
    if fit then r == (x, At(p.pos + |bytes|)) else r.1 == Error
  }

  predicate Always<T>(x: T) {
    true
  }

  predicate All<T>(fit: T -> bool, xs: seq<T>) {
    forall i :: 0 <= i < |xs| ==> fit(xs[i])
  }

  lemma ReadOne<T(!new)>(put: T -> seq<byte>, get: (seq<byte>, Place) -> (T, Place), fit: T -> bool, s: seq<byte>, p: Place, x: T)
    requires Reads(put, get, fit)
    ensures Here(s, p, put(x)) ==> Taken(get(s, p), p, put(x), x, fit(x))
    ensures get(s, Error).1 == Error
  {
  }

  lemma AllPrefix<T>(fit: T -> bool, xs: seq<T>)
    requires xs != []
    ensures var n := |xs| - 1; All(fit, xs) <==> All(fit, xs[..n]) && fit(xs[n])
  {
    var n := |xs| - 1;
    assert xs == xs[..n] + [xs[n]];
  }

  /** A list is read back if all its elements are fit to be read, and refused otherwise. */
  lemma {:induction false} ReadAll<T(!new)>(put: T -> seq<byte>, get: (seq<byte>, Place) -> (T, Place), fit: T -> bool,
                                            s: seq<byte>, p: Place, xs: seq<T>)
    requires Reads(put, get, fit) && p.At? && Here(s, p, PutAll(put, xs))
    ensures Taken(GetAll(get, s, p, |xs|), p, PutAll(put, xs), xs, All(fit, xs))
  {
    hide Reads, Here, All;
    if xs == [] {
      AllOfNone(fit, xs);
    } else {
      var n := |xs| - 1;
      AllPrefix(fit, xs);
      Split(s, p, PutAll(put, xs[..n]), put(xs[n]));
      ReadAll(put, get, fit, s, p, xs[..n]);
      ReadOne(put, get, fit, s, At(p.pos + |PutAll(put, xs[..n])|), xs[n]);
      assert xs == xs[..n] + [xs[n]];
    }
  }

  lemma AllOfNone<T>(fit: T -> bool, xs: seq<T>)
    requires xs == []
    ensures All(fit, xs)
  {
  }

  lemma {:induction false} AllStop<T(!new)>(put: T -> seq<byte>, get: (seq<byte>, Place) -> (T, Place), fit: T -> bool, s: seq<byte>, n: nat)
    requires Reads(put, get, fit)
    ensures GetAll(get, s, Error, n).1 == Error
  {
    if n > 0 {
      AllStop(put, get, fit, s, n - 1);
    }
  }

  lemma {:induction false} PutAllSize<T>(put: T -> seq<byte>, xs: seq<T>, k: nat)
    requires forall i :: 0 <= i < |xs| ==> |put(xs[i])| >= k
    ensures |PutAll(put, xs)| >= k * |xs|
  {
    if xs != [] {
      var n := |xs| - 1;
      PutAllSize(put, xs[..n], k);
      assert k * |xs| == k * n + k;
    }
  }

  // ------------------------------------------------------------ the kinds

  function PutLong(v: u64): seq<byte> {
    Put64(v)
  }

  function GetLong(s: seq<byte>, p: Place): (u64, Place) {
    Get64(s, p)
  }

  function PutLongs(xs: seq<u64>): seq<byte> {
    PutAll(PutLong, xs)
  }

  function GetLongs(s: seq<byte>, p: Place, n: nat): (r: (seq<u64>, Place))
    ensures |r.0| == n
  {
    GetAll(GetLong, s, p, n)
  }

  lemma ReadsLong()
    ensures Reads(PutLong, GetLong, Always)
  {
    hide Get64, Put64;
    forall s, p, x: u64 | Here(s, p, PutLong(x)) ensures Taken(GetLong(s, p), p, PutLong(x), x, true) {
      Read64(s, p, x);
    }
  }

  lemma ReadLongs(s: seq<byte>, p: Place, xs: seq<u64>)
    requires p.At? && Here(s, p, PutLongs(xs))
    ensures GetLongs(s, p, |xs|) == (xs, At(p.pos + |PutLongs(xs)|))
  {
    hide PutLong, GetLong, Reads, Here;
    ReadsLong();
    ReadAll(PutLong, GetLong, Always, s, p, xs);
  }

  function PutDouble(v: double): seq<byte> {
    Put64(v)
  }

  function GetDouble(s: seq<byte>, p: Place): (double, Place) {
    var (v, p1) := Get64(s, p);
    if Finite64(v) then (v, p1) else (0, Error)
  }

  lemma ReadsDouble()
    ensures Reads(PutDouble, GetDouble, FiniteDouble)
  {
    hide Get64, Put64;
    forall s, p, x: double | Here(s, p, PutDouble(x)) ensures Taken(GetDouble(s, p), p, PutDouble(x), x, FiniteDouble(x)) {
      Read64(s, p, x);
    }
    forall s ensures GetDouble(s, Error).1 == Error {
    }
  }

  function PutFloat(fl: Floats): float -> seq<byte> {
    (v: float) => PutDouble(fl.widen(v))
  }

  function GetFloatAt(fl: Floats, s: seq<byte>, p: Place): (float, Place) {
    var (v, p1) := GetDouble(s, p);
    if fl.small(v) then (fl.narrow(v), p1) else (0, Error)
  }

  function GetFloat(fl: Floats): (seq<byte>, Place) -> (float, Place) {
    (s: seq<byte>, p: Place) => GetFloatAt(fl, s, p)
  }

  lemma ReadsFloat(fl: Floats)
    requires Exact(fl)
    ensures Reads(PutFloat(fl), GetFloat(fl), FiniteFloat)
  {
    hide PutDouble, GetDouble, Finite32, Finite64;
    ReadsDouble();
    forall s, p, x: float | Here(s, p, PutFloat(fl)(x)) ensures Taken(GetFloat(fl)(s, p), p, PutFloat(fl)(x), x, FiniteFloat(x)) {
      ReadOne(PutDouble, GetDouble, FiniteDouble, s, p, fl.widen(x));
    }
    forall s ensures GetFloat(fl)(s, Error).1 == Error {
      ReadOne(PutDouble, GetDouble, FiniteDouble, s, Error, 0);
    }
  }

  function PutText(x: text): seq<byte> {
    PutString(x)
  }

  function GetText(s: seq<byte>, p: Place): (text, Place) {
    var (x, p1) := GetString(s, p);
    if p1.At? then (x, p1) else ([], Error)
  }

  function PutTexts(xs: seq<text>): seq<byte> {
    PutAll(PutText, xs)
  }

  function GetTexts(s: seq<byte>, p: Place, n: nat): (r: (seq<text>, Place))
    ensures |r.0| == n
  {
    GetAll(GetText, s, p, n)
  }

  lemma ReadsText()
    ensures Reads(PutText, GetText, Always)
  {
    hide PutString, GetFixed;
    forall s, p, x: text | Here(s, p, PutText(x)) ensures Taken(GetText(s, p), p, PutText(x), x, true) {
      ReadFixed(s, p, x, U32);
    }
  }

  lemma ReadTexts(s: seq<byte>, p: Place, xs: seq<text>)
    requires p.At? && Here(s, p, PutTexts(xs))
    ensures GetTexts(s, p, |xs|) == (xs, At(p.pos + |PutTexts(xs)|))
  {
    hide PutText, GetText, Reads, Here;
    ReadsText();
    ReadAll(PutText, GetText, Always, s, p, xs);
  }

  // ------------------------------------------------------------ Steam records

  datatype Steam = Steam(isSteam: u32, isWine: u32, appId: text, gameName: text, protonVersion: text,
                         protonDist: text, compatData: text, gameDir: text, runtimeLayer: text, displayLabel: text)

  /** Sizes of a record's character arrays, terminating zero included. */
  const CAPS: seq<nat> := [32, 256, 128, 1024, 1024, 1024, 128, 256]

  function Texts(r: Steam): (xs: seq<text>)
    ensures |xs| == |CAPS|
  {
    [r.appId, r.gameName, r.protonVersion, r.protonDist, r.compatData, r.gameDir, r.runtimeLayer, r.displayLabel]
  }

  function SteamOf(isSteam: u32, isWine: u32, xs: seq<text>): (r: Steam)
    requires |xs| == |CAPS|
    ensures Texts(r) == xs
  {
    Steam(isSteam, isWine, xs[0], xs[1], xs[2], xs[3], xs[4], xs[5], xs[6], xs[7])
  }

  predicate Fits(xs: seq<text>, caps: seq<nat>) {
    |xs| == |caps| && forall i :: 0 <= i < |xs| ==> |xs[i]| < caps[i]
  }

  predicate SteamFits(o: Option<Steam>) {
    o.Some? ==> Fits(Texts(o.value), CAPS)
  }

  function GetFixeds(s: seq<byte>, p: Place, caps: seq<nat>): (r: (seq<text>, Place))
    ensures |r.0| == |caps| && (r.1.At? ==> p.At? && Fits(r.0, caps))
  {
    if caps == [] then ([], p)
    else
      var n := |caps| - 1;
      var (xs, p1) := GetFixeds(s, p, caps[..n]);
      var (x, p2) := GetFixed(s, p1, if caps[n] <= U32 then caps[n] else U32);
      if p2.At? then (xs + [x], p2) else (xs + [[]], Error)
  }

  lemma {:induction false} ReadFixeds(s: seq<byte>, p: Place, caps: seq<nat>, xs: seq<text>)
    requires Fits(xs, caps) && Here(s, p, PutTexts(xs))
    ensures GetFixeds(s, p, caps) == (xs, At(p.pos + |PutTexts(xs)|))
  {
    hide GetFixed, PutString;
    if xs != [] {
      var n := |xs| - 1;
      Split(s, p, PutTexts(xs[..n]), PutText(xs[n]));
      ReadFixeds(s, p, caps[..n], xs[..n]);
      ReadFixed(s, At(p.pos + |PutTexts(xs[..n])|), xs[n], if caps[n] <= U32 then caps[n] else U32);
      assert xs == xs[..n] + [xs[n]];
    }
  }

  function PutSteam(o: Option<Steam>): (s: seq<byte>)
    ensures |s| >= 4
  {
    if o.None? then Put32(0)
    else Put32(1) + (Put32(o.value.isSteam) + (Put32(o.value.isWine) + PutTexts(Texts(o.value))))
  }

  function GetSteam(s: seq<byte>, p: Place): (r: (Option<Steam>, Place))
    ensures r.1.At? ==> p.At? && SteamFits(r.0)
  {
    var (present, p1) := Get32(s, p);
    if present > 1 then (None, Error)
    else if present == 0 then (None, p1)
    else
      var (isSteam, p2) := Get32(s, p1);
      var (isWine, p3) := Get32(s, p2);
      var (xs, p4) := GetFixeds(s, p3, CAPS);
      (Some(SteamOf(isSteam, isWine, xs)), p4)
  }

  lemma SteamAgain(r: Steam)
    ensures SteamOf(r.isSteam, r.isWine, Texts(r)) == r
  {
  }

  lemma ReadSteam(s: seq<byte>, p: Place, o: Option<Steam>)
    requires SteamFits(o) && p.At? && Here(s, p, PutSteam(o))
    ensures GetSteam(s, p) == (o, At(p.pos + |PutSteam(o)|))
  {
    hide Get32, Put32, GetFixeds, PutTexts, Here, Fits, SteamOf, Texts;
    if o.None? {
      Read32(s, p, 0);
    } else {
      var r := o.value;
      SteamAgain(r);
      var xs := PutTexts(Texts(r));
      Split(s, p, Put32(1), Put32(r.isSteam) + (Put32(r.isWine) + xs));
      Split(s, At(p.pos + 4), Put32(r.isSteam), Put32(r.isWine) + xs);
      Split(s, At(p.pos + 8), Put32(r.isWine), xs);
      Read32(s, p, 1);
      Read32(s, At(p.pos + 4), r.isSteam);
      Read32(s, At(p.pos + 8), r.isWine);
      ReadFixeds(s, At(p.pos + 12), CAPS, Texts(r));
    }
  }

  // ------------------------------------------------------------ rows

  datatype Counts = Counts(memRssKb: u64, cpuTicks: u64, startTime: u64, startTicks: u64, instance: u64,
                           ioReadBytes: u64, ioWriteBytes: u64, netSendBytes: u64, netRecvBytes: u64)

  datatype Rates = Rates(cpuPercent: float, ioReadRate: float, ioWriteRate: float)

  datatype Names = Names(name: text, cmdline: text, user: text, cwd: text, container: text, service: text)

  datatype Row = Row(pid: u32, ppid: u32, counts: Counts, rates: Rates, historyLen: u32, flags: u32,
                     history: seq<float>, names: Names, steam: Option<Steam>)

  function CountList(c: Counts): (xs: seq<u64>)
    ensures |xs| == 9
  {
    [c.memRssKb, c.cpuTicks, c.startTime, c.startTicks, c.instance, c.ioReadBytes, c.ioWriteBytes, c.netSendBytes, c.netRecvBytes]
  }

  function CountsOf(xs: seq<u64>): (c: Counts)
    requires |xs| == 9
    ensures CountList(c) == xs
  {
    Counts(xs[0], xs[1], xs[2], xs[3], xs[4], xs[5], xs[6], xs[7], xs[8])
  }

  function RateList(r: Rates): (xs: seq<float>)
    ensures |xs| == 3
  {
    [r.cpuPercent, r.ioReadRate, r.ioWriteRate]
  }

  function NameList(n: Names): (xs: seq<text>)
    ensures |xs| == 6
  {
    [n.name, n.cmdline, n.user, n.cwd, n.container, n.service]
  }

  function NamesOf(xs: seq<text>): (n: Names)
    requires |xs| == 6
    ensures NameList(n) == xs
  {
    Names(xs[0], xs[1], xs[2], xs[3], xs[4], xs[5])
  }

  predicate PidsOk(pid: nat, ppid: nat) {
    0 < pid <= INT_MAX && ppid <= INT_MAX
  }

  predicate MiscOk(historyLen: nat, flags: nat) {
    historyLen <= HISTORY && flags <= FLAGS_MAX
  }

  /** What a row in memory is: arrays of fixed size. */
  predicate Held(r: Row) {
    |r.history| == HISTORY && SteamFits(r.steam)
  }

  /** What the decoder takes of it: legal pids, finite numbers, a history within its array. */
  predicate ProperRow(r: Row) {
    PidsOk(r.pid, r.ppid) && MiscOk(r.historyLen, r.flags) && All(FiniteFloat, RateList(r.rates)) && All(FiniteFloat, r.history)
  }

  const BLANK: Row := Row(1, 0, Counts(0, 0, 0, 0, 0, 0, 0, 0, 0), Rates(0, 0, 0), 0, 0, Zeros(HISTORY),
                          Names([], [], [], [], [], []), None)

  function Zeros(n: nat): (z: seq<float>)
    ensures |z| == n
  {
    if n == 0 then [] else Zeros(n - 1) + [0]
  }

  type row = r: Row | Held(r) witness BLANK

  predicate FitRow(r: row) {
    ProperRow(r)
  }

  /** A row's bytes, in the order the fields are sent. */
  function RowHead(fl: Floats, r: Row): seq<byte> {
    Put32(r.pid) + (Put32(r.ppid) + (PutLongs(CountList(r.counts)) + PutAll(PutFloat(fl), RateList(r.rates))))
  }

  function RowTail(fl: Floats, r: Row): seq<byte> {
    Put32(r.historyLen) + (Put32(r.flags) + (PutAll(PutFloat(fl), r.history) + (PutTexts(NameList(r.names)) + PutSteam(r.steam))))
  }

  function PutRow(fl: Floats): row -> seq<byte> {
    (r: row) => RowHead(fl, r) + RowTail(fl, r)
  }

  /** Everything up to the rates. */
  function GetHead(fl: Floats, s: seq<byte>, p: Place): (r: (u32, u32, Counts, Rates, Place)) {
    var (pid, p1) := Get32(s, p);
    var (ppid, p2) := Get32(s, p1);
    var (counts, p3) := GetLongs(s, p2, 9);
    var (rates, p4) := GetAll(GetFloat(fl), s, p3, 3);
    (pid, ppid, CountsOf(counts), Rates(rates[0], rates[1], rates[2]), if PidsOk(pid, ppid) then p4 else Error)
  }

  function GetTail(fl: Floats, s: seq<byte>, p: Place): (r: (u32, u32, seq<float>, Names, Option<Steam>, Place))
    ensures |r.2| == HISTORY && (r.5.At? ==> SteamFits(r.4))
  {
    var (historyLen, p1) := Get32(s, p);
    var (flags, p2) := Get32(s, p1);
    var (history, p3) := GetAll(GetFloat(fl), s, p2, HISTORY);
    var (names, p4) := GetTexts(s, p3, 6);
    var (steam, p5) := GetSteam(s, p4);
    (historyLen, flags, history, NamesOf(names), steam, if MiscOk(historyLen, flags) then p5 else Error)
  }

  function GetRowAt(fl: Floats, s: seq<byte>, p: Place): (row, Place) {
    var (pid, ppid, counts, rates, p1) := GetHead(fl, s, p);
    var (historyLen, flags, history, names, steam, p2) := GetTail(fl, s, p1);
    if p1.At? && p2.At? then (Row(pid, ppid, counts, rates, historyLen, flags, history, names, steam), p2)
    else (BLANK, Error)
  }

  function GetRow(fl: Floats): (seq<byte>, Place) -> (row, Place) {
    (s: seq<byte>, p: Place) => GetRowAt(fl, s, p)
  }

  predicate HeadFit(r: Row) {
    PidsOk(r.pid, r.ppid) && All(FiniteFloat, RateList(r.rates))
  }

  predicate TailFit(r: Row) {
    MiscOk(r.historyLen, r.flags) && All(FiniteFloat, r.history)
  }

  lemma ReadHead(fl: Floats, s: seq<byte>, p: Place, r: row)
    requires Exact(fl) && p.At? && Here(s, p, RowHead(fl, r))
    ensures HeadFit(r) ==> GetHead(fl, s, p) == (r.pid, r.ppid, r.counts, r.rates, At(p.pos + |RowHead(fl, r)|))
    ensures !HeadFit(r) ==> GetHead(fl, s, p).4 == Error
  {
    hide Get32, Put32, GetLongs, PutLongs, GetAll, PutAll, Here, PutFloat, GetFloat, Reads, Exact, All;
    var counts, rates := PutLongs(CountList(r.counts)), PutAll(PutFloat(fl), RateList(r.rates));
    Split(s, p, Put32(r.pid), Put32(r.ppid) + (counts + rates));
    Split(s, At(p.pos + 4), Put32(r.ppid), counts + rates);
    Split(s, At(p.pos + 8), counts, rates);
    Read32(s, p, r.pid);
    Read32(s, At(p.pos + 4), r.ppid);
    ReadLongs(s, At(p.pos + 8), CountList(r.counts));
    ReadsFloat(fl);
    ReadAll(PutFloat(fl), GetFloat(fl), FiniteFloat, s, At(p.pos + 8 + |counts|), RateList(r.rates));
  }

  lemma ReadTail(fl: Floats, s: seq<byte>, p: Place, r: row)
    requires Exact(fl) && p.At? && Here(s, p, RowTail(fl, r))
    ensures TailFit(r) ==>
              GetTail(fl, s, p) == (r.historyLen, r.flags, r.history, r.names, r.steam, At(p.pos + |RowTail(fl, r)|))
    ensures !TailFit(r) ==> GetTail(fl, s, p).5 == Error
  {
    hide Get32, Put32, GetTexts, PutTexts, GetAll, PutAll, Here, PutFloat, GetFloat, Reads, PutSteam, GetSteam, Exact, All;
    var history, names := PutAll(PutFloat(fl), r.history), PutTexts(NameList(r.names));
    var steam := PutSteam(r.steam);
    Split(s, p, Put32(r.historyLen), Put32(r.flags) + (history + (names + steam)));
    Split(s, At(p.pos + 4), Put32(r.flags), history + (names + steam));
    Split(s, At(p.pos + 8), history, names + steam);
    Split(s, At(p.pos + 8 + |history|), names, steam);
    Read32(s, p, r.historyLen);
    Read32(s, At(p.pos + 4), r.flags);
    ReadsFloat(fl);
    ReadAll(PutFloat(fl), GetFloat(fl), FiniteFloat, s, At(p.pos + 8), r.history);
    ReadTexts(s, At(p.pos + 8 + |history|), NameList(r.names));
    ReadSteam(s, At(p.pos + 8 + |history| + |names|), r.steam);
    TextsStop(s, 6);
    SteamStops(s);
  }

  // ------------------------------------------------------------ after an error nothing is read

  lemma LongsStop(s: seq<byte>, n: nat)
    ensures GetLongs(s, Error, n).1 == Error
  {
    hide Reads;
    ReadsLong();
    AllStop(PutLong, GetLong, Always, s, n);
  }

  lemma {:induction false} FloatsStop(fl: Floats, s: seq<byte>, n: nat)
    ensures GetAll(GetFloat(fl), s, Error, n).1 == Error
  {
    if n > 0 {
      FloatsStop(fl, s, n - 1);
    }
  }

  lemma TextsStop(s: seq<byte>, n: nat)
    ensures GetTexts(s, Error, n).1 == Error
  {
    hide Reads;
    ReadsText();
    AllStop(PutText, GetText, Always, s, n);
  }

  lemma SteamStops(s: seq<byte>)
    ensures GetSteam(s, Error).1 == Error
  {
  }

  lemma HeadStops(fl: Floats, s: seq<byte>)
    ensures GetHead(fl, s, Error).4 == Error
  {
    LongsStop(s, 9);
    FloatsStop(fl, s, 3);
  }

  /** A row is read back if it is proper, and refused otherwise. */
  lemma ReadsRow(fl: Floats)
    requires Exact(fl)
    ensures Reads(PutRow(fl), GetRow(fl), FitRow)
  {
    hide RowHead, RowTail, GetHead, GetTail, Exact, All;
    forall s, p, r: row | Here(s, p, PutRow(fl)(r)) ensures Taken(GetRow(fl)(s, p), p, PutRow(fl)(r), r, FitRow(r)) {
      Split(s, p, RowHead(fl, r), RowTail(fl, r));
      ReadHead(fl, s, p, r);
      ReadTail(fl, s, At(p.pos + |RowHead(fl, r)|), r);
    }
    forall s ensures GetRow(fl)(s, Error).1 == Error {
      HeadStops(fl, s);
    }
  }

  /** No row takes fewer bytes than the decoder assumes. */
  lemma RowSize(fl: Floats, r: row)
    ensures |PutRow(fl)(r)| >= ROW_MIN
  {
    hide PutAll, PutSteam, Put32;
    PutAllSize(PutLong, CountList(r.counts), 8);
    PutAllSize(PutFloat(fl), RateList(r.rates), 8);
    PutAllSize(PutFloat(fl), r.history, 8);
    PutAllSize(PutText, NameList(r.names), 4);
  }

  /** And the blank row takes exactly that many. */
  lemma BlankSize(fl: Floats)
    ensures |PutRow(fl)(BLANK)| == ROW_MIN
  {
    hide PutAll, Put32;
    EqualSizes(PutLong, CountList(BLANK.counts), 8);
    EqualSizes(PutFloat(fl), RateList(BLANK.rates), 8);
    EqualSizes(PutFloat(fl), BLANK.history, 8);
    EqualSizes(PutText, NameList(BLANK.names), 4);
  }

  lemma {:induction false} EqualSizes<T>(put: T -> seq<byte>, xs: seq<T>, k: nat)
    requires forall i :: 0 <= i < |xs| ==> |put(xs[i])| == k
    ensures |PutAll(put, xs)| == k * |xs|
  {
    if xs != [] {
      var n := |xs| - 1;
      EqualSizes(put, xs[..n], k);
      assert k * |xs| == k * n + k;
    }
  }

  // ------------------------------------------------------------ where a row's fields stand

  /** A list of eight-byte elements. */
  lemma {:induction false} ElementAt<T>(put: T -> seq<byte>, xs: seq<T>, i: nat)
    requires i < |xs| && forall j :: 0 <= j < |xs| ==> |put(xs[j])| == 8
    ensures 8 * i + 8 <= |PutAll(put, xs)| && PutAll(put, xs)[8 * i..8 * i + 8] == put(xs[i])
  {
    var n := |xs| - 1;
    EqualSizes(put, xs[..n], 8);
    assert PutAll(put, xs) == PutAll(put, xs[..n]) + put(xs[n]);
    if i < n {
      ElementAt(put, xs[..n], i);
    }
  }

  lemma ThreeLongs(xs: seq<u64>, i: nat)
    requires i + 3 <= |xs|
    ensures
      var s := PutLongs(xs);
      && |s| == 8 * |xs| && s[8 * i..8 * i + 8] == Put64(xs[i])
      && s[8 * i + 8..8 * i + 16] == Put64(xs[i + 1]) && s[8 * i + 16..8 * i + 24] == Put64(xs[i + 2])
  {
    hide PutAll, Put64;
    EqualSizes(PutLong, xs, 8);
    ElementAt(PutLong, xs, i);
    ElementAt(PutLong, xs, i + 1);
    ElementAt(PutLong, xs, i + 2);
  }

  lemma CountsLayout(c: Counts)
    ensures
      var s := PutLongs(CountList(c));
      && |s| == 72
      && s[0..8] == Put64(c.memRssKb) && s[8..16] == Put64(c.cpuTicks) && s[16..24] == Put64(c.startTime)
      && s[24..32] == Put64(c.startTicks) && s[32..40] == Put64(c.instance) && s[40..48] == Put64(c.ioReadBytes)
      && s[48..56] == Put64(c.ioWriteBytes) && s[56..64] == Put64(c.netSendBytes) && s[64..72] == Put64(c.netRecvBytes)
  {
    hide PutLongs, Put64;
    ThreeLongs(CountList(c), 0);
    ThreeLongs(CountList(c), 3);
    ThreeLongs(CountList(c), 6);
  }

  lemma RatesLayout(fl: Floats, r: Rates)
    ensures
      var s := PutAll(PutFloat(fl), RateList(r));
      && |s| == 24 && s[..8] == Put64(fl.widen(r.cpuPercent))
      && s[8..16] == Put64(fl.widen(r.ioReadRate)) && s[16..] == Put64(fl.widen(r.ioWriteRate))
  {
    hide PutAll, Put64;
    var xs := RateList(r);
    EqualSizes(PutFloat(fl), xs, 8);
    ElementAt(PutFloat(fl), xs, 0);
    ElementAt(PutFloat(fl), xs, 1);
    ElementAt(PutFloat(fl), xs, 2);
  }

  lemma SliceOfSlice(s: seq<byte>, a: nat, b: nat, i: nat, j: nat)
    requires a <= b <= |s| && i <= j <= b - a
    ensures s[a..b][i..j] == s[a + i..a + j]
  {
    var l, r := s[a..b][i..j], s[a + i..a + j];
    forall k | 0 <= k < j - i ensures l[k] == r[k] {
      assert l[k] == s[a..b][i + k] == s[a + i + k];
    }
  }

  lemma HeadLayout(fl: Floats, r: Row)
    ensures
      var s := RowHead(fl, r);
      && |s| == 104 && s[..4] == Put32(r.pid) && s[4..8] == Put32(r.ppid)
      && s[8..80] == PutLongs(CountList(r.counts)) && s[80..] == PutAll(PutFloat(fl), RateList(r.rates))
  {
    hide PutAll, Put32, CountList, RateList;
    EqualSizes(PutLong, CountList(r.counts), 8);
    EqualSizes(PutFloat(fl), RateList(r.rates), 8);
  }

  lemma TailLayout(fl: Floats, r: Row)
    requires |r.history| == HISTORY
    ensures
      var s, names := RowTail(fl, r), PutTexts(NameList(r.names));
      && |s| == 168 + |names| + |PutSteam(r.steam)|
      && s[..4] == Put32(r.historyLen) && s[4..8] == Put32(r.flags)
      && s[8..168] == PutAll(PutFloat(fl), r.history)
      && s[168..168 + |names|] == names && s[168 + |names|..] == PutSteam(r.steam)
  {
    hide PutAll, Put32, PutSteam, NameList;
    EqualSizes(PutFloat(fl), r.history, 8);
  }

  /** A row's numbers stand at fixed places, the counts and rates in between, the names and the Steam record behind. */
  lemma RowLayout(fl: Floats, r: row)
    ensures
      var s, names := PutRow(fl)(r), PutTexts(NameList(r.names));
      && |s| == 272 + |names| + |PutSteam(r.steam)|
      && s[..4] == Put32(r.pid) && s[4..8] == Put32(r.ppid)
      && s[8..80] == PutLongs(CountList(r.counts)) && s[80..104] == PutAll(PutFloat(fl), RateList(r.rates))
      && s[104..108] == Put32(r.historyLen) && s[108..112] == Put32(r.flags)
      && (forall i :: 0 <= i < HISTORY ==> s[112 + 8 * i..120 + 8 * i] == Put64(fl.widen(r.history[i])))
      && s[272..272 + |names|] == names && s[272 + |names|..] == PutSteam(r.steam)
  {
    hide PutAll, PutSteam, Put32, Put64, RowHead, RowTail;
    HeadLayout(fl, r);
    TailLayout(fl, r);
    var s, head, tail := PutRow(fl)(r), RowHead(fl, r), RowTail(fl, r);
    assert s == head + tail && s[..104] == head && s[104..] == tail;
    assert s[..4] == head[..4] && s[4..8] == head[4..8] && s[8..80] == head[8..80] && s[80..104] == head[80..];
    assert s[104..108] == tail[..4] && s[108..112] == tail[4..8] && s[112..272] == tail[8..168];
    forall i | 0 <= i < HISTORY ensures s[112 + 8 * i..120 + 8 * i] == Put64(fl.widen(r.history[i])) {
      ElementAt(PutFloat(fl), r.history, i);
      SliceOfSlice(s, 112, 272, 8 * i, 8 * i + 8);
    }
  }

  lemma OneMore<T>(put: T -> seq<byte>, xs: seq<T>, i: nat)
    requires i < |xs|
    ensures PutAll(put, xs[..0]) == [] && PutAll(put, xs[..i + 1]) == PutAll(put, xs[..i]) + put(xs[i])
    ensures i + 1 == |xs| ==> PutAll(put, xs[..i + 1]) == PutAll(put, xs)
  {
    assert xs[..i + 1][..i] == xs[..i];
    assert xs[..|xs|] == xs;
  }

  /** The order of a row's strings. */
  lemma NamesLayout(n: Names)
    ensures PutTexts(NameList(n)) ==
              PutString(n.name) + PutString(n.cmdline) + PutString(n.user) + PutString(n.cwd) +
              PutString(n.container) + PutString(n.service)
  {
    hide PutAll, PutString;
    var xs := NameList(n);
    OneMore(PutText, xs, 0);
    OneMore(PutText, xs, 1);
    OneMore(PutText, xs, 2);
    OneMore(PutText, xs, 3);
    OneMore(PutText, xs, 4);
    OneMore(PutText, xs, 5);
  }

  lemma FourMore(xs: seq<text>, i: nat)
    requires i + 4 <= |xs|
    ensures PutTexts(xs[..i + 4]) ==
              PutTexts(xs[..i]) + (PutString(xs[i]) + PutString(xs[i + 1]) + PutString(xs[i + 2]) + PutString(xs[i + 3]))
  {
    hide PutAll, PutString;
    OneMore(PutText, xs, i);
    OneMore(PutText, xs, i + 1);
    OneMore(PutText, xs, i + 2);
    OneMore(PutText, xs, i + 3);
  }

  lemma EightTexts(xs: seq<text>)
    requires |xs| == 8
    ensures PutTexts(xs) ==
              (PutString(xs[0]) + PutString(xs[1]) + PutString(xs[2]) + PutString(xs[3])) +
              (PutString(xs[4]) + PutString(xs[5]) + PutString(xs[6]) + PutString(xs[7]))
  {
    hide PutAll, PutString;
    FourMore(xs, 0);
    FourMore(xs, 4);
    OneMore(PutText, xs, 7);
  }

  /** The order of a Steam record's fields. */
  lemma SteamLayout(r: Steam)
    ensures PutSteam(Some(r)) == Put32(1) + (Put32(r.isSteam) + (Put32(r.isWine) + (
              (PutString(r.appId) + PutString(r.gameName) + PutString(r.protonVersion) + PutString(r.protonDist)) +
              (PutString(r.compatData) + PutString(r.gameDir) + PutString(r.runtimeLayer) + PutString(r.displayLabel)))))
  {
    hide PutTexts, PutString, Put32;
    EightTexts(Texts(r));
  }

  // ------------------------------------------------------------ frames

  datatype System = System(uptime: u64, memoryTotal: u64, memoryFree: u64, memoryAvailable: u64,
                           load: seq<double>, cpus: u32, users: u32, backend: u32)

  /** A status frame has no rows. */
  datatype Frame = Frame(generation: u64, sampled: u64, interval: u32, ready: u32, total: u32, system: System,
                         sent: u64, rows: Option<seq<row>>)

  predicate TimesOk(f: Frame) {
    f.sampled <= f.sent && 0 < f.interval <= MAX_INTERVAL && f.ready <= 1
  }

  /** What a frame in memory is. */
  predicate HeldFrame(f: Frame) {
    |f.system.load| == 3 && (f.rows.Some? ==> |f.rows.value| <= f.total)
  }

  /** What the decoder takes of it. */
  predicate ProperFrame(f: Frame) {
    HeldFrame(f) && HeadProper(f) && (f.rows.Some? ==> All(FitRow, f.rows.value))
  }

  predicate HeadProper(f: Frame) {
    TimesOk(f) && All(FiniteDouble, f.system.load)
  }

  function PutDoubles(xs: seq<double>): seq<byte> {
    PutAll(PutDouble, xs)
  }

  function GetDoubles(s: seq<byte>, p: Place, n: nat): (r: (seq<double>, Place))
    ensures |r.0| == n
  {
    GetAll(GetDouble, s, p, n)
  }

  function PutSystem(y: System): seq<byte> {
    PutLongs([y.uptime, y.memoryTotal, y.memoryFree, y.memoryAvailable]) +
    (PutDoubles(y.load) + (Put32(y.cpus) + (Put32(y.users) + Put32(y.backend))))
  }

  function GetSystem(s: seq<byte>, p: Place): (r: (System, Place))
    ensures |r.0.load| == 3
  {
    var (longs, p1) := GetLongs(s, p, 4);
    var (load, p2) := GetDoubles(s, p1, 3);
    var (cpus, p3) := Get32(s, p2);
    var (users, p4) := Get32(s, p3);
    var (backend, p5) := Get32(s, p4);
    (System(longs[0], longs[1], longs[2], longs[3], load, cpus, users, backend), p5)
  }

  lemma ReadSystem(s: seq<byte>, p: Place, y: System)
    requires |y.load| == 3 && p.At? && Here(s, p, PutSystem(y))
    ensures Taken(GetSystem(s, p), p, PutSystem(y), y, All(FiniteDouble, y.load))
  {
    hide Get32, Put32, GetLongs, PutLongs, GetAll, PutAll, Here, Reads, All;
    var longs := [y.uptime, y.memoryTotal, y.memoryFree, y.memoryAvailable];
    var a, b := PutLongs(longs), PutDoubles(y.load);
    var q := p.pos + |a| + |b|;
    Split(s, p, a, b + (Put32(y.cpus) + (Put32(y.users) + Put32(y.backend))));
    Split(s, At(p.pos + |a|), b, Put32(y.cpus) + (Put32(y.users) + Put32(y.backend)));
    Split(s, At(q), Put32(y.cpus), Put32(y.users) + Put32(y.backend));
    Split(s, At(q + 4), Put32(y.users), Put32(y.backend));
    ReadsDouble();
    ReadLongs(s, p, longs);
    ReadAll(PutDouble, GetDouble, FiniteDouble, s, At(p.pos + |a|), y.load);
    Read32(s, At(q), y.cpus);
    Read32(s, At(q + 4), y.users);
    Read32(s, At(q + 8), y.backend);
  }

  function FrameHead(f: Frame): seq<byte> {
    Put64(f.generation) + (Put64(f.sampled) + (Put32(f.interval) + (Put32(f.ready) + (Put32(f.total) +
    (PutSystem(f.system) + Put64(f.sent))))))
  }

  function PutRows(fl: Floats, rows: seq<row>): seq<byte> {
    PutAll(PutRow(fl), rows)
  }

  function PutFrame(fl: Floats, f: Frame): seq<byte>
    requires f.rows.Some? ==> |f.rows.value| < U32
  {
    FrameHead(f) + if f.rows.None? then [] else Put32(|f.rows.value|) + PutRows(fl, f.rows.value)
  }

  lemma SystemParts(y: System)
    requires |y.load| == 3
    ensures
      var s := PutSystem(y);
      && |s| == 68 && s[..32] == PutLongs([y.uptime, y.memoryTotal, y.memoryFree, y.memoryAvailable])
      && s[32..56] == PutDoubles(y.load)
      && s[56..60] == Put32(y.cpus) && s[60..64] == Put32(y.users) && s[64..] == Put32(y.backend)
  {
    hide PutAll, Put32;
    EqualSizes(PutLong, [y.uptime, y.memoryTotal, y.memoryFree, y.memoryAvailable], 8);
    EqualSizes(PutDouble, y.load, 8);
  }

  lemma LoadLayout(load: seq<double>)
    requires |load| == 3
    ensures
      var s := PutDoubles(load);
      |s| == 24 && s[0..8] == Put64(load[0]) && s[8..16] == Put64(load[1]) && s[16..24] == Put64(load[2])
  {
    hide PutAll, Put64;
    EqualSizes(PutDouble, load, 8);
    ElementAt(PutDouble, load, 0);
    ElementAt(PutDouble, load, 1);
    ElementAt(PutDouble, load, 2);
  }

  lemma SystemLayout(y: System)
    requires |y.load| == 3
    ensures
      var s := PutSystem(y);
      && |s| == 68
      && s[0..8] == Put64(y.uptime) && s[8..16] == Put64(y.memoryTotal)
      && s[16..24] == Put64(y.memoryFree) && s[24..32] == Put64(y.memoryAvailable)
      && s[32..40] == Put64(y.load[0]) && s[40..48] == Put64(y.load[1]) && s[48..56] == Put64(y.load[2])
      && s[56..60] == Put32(y.cpus) && s[60..64] == Put32(y.users) && s[64..] == Put32(y.backend)
  {
    hide PutSystem, PutLongs, PutDoubles, Put64, Put32;
    SystemParts(y);
    LoadLayout(y.load);
    var s, longs := PutSystem(y), [y.uptime, y.memoryTotal, y.memoryFree, y.memoryAvailable];
    ThreeLongs(longs, 0);
    ThreeLongs(longs, 1);
    SliceOfSlice(s, 0, 32, 0, 8);
    SliceOfSlice(s, 0, 32, 8, 16);
    SliceOfSlice(s, 0, 32, 16, 24);
    SliceOfSlice(s, 0, 32, 24, 32);
    SliceOfSlice(s, 32, 56, 0, 8);
    SliceOfSlice(s, 32, 56, 8, 16);
    SliceOfSlice(s, 32, 56, 16, 24);
  }

  /** The head of a frame is 104 bytes, its fields at fixed places; a status frame is nothing else. */
  lemma FrameLayout(fl: Floats, f: Frame)
    requires |f.system.load| == 3 && (f.rows.Some? ==> |f.rows.value| < U32)
    ensures
      var s := PutFrame(fl, f);
      && |s| >= 104
      && s[..8] == Put64(f.generation) && s[8..16] == Put64(f.sampled)
      && s[16..20] == Put32(f.interval) && s[20..24] == Put32(f.ready) && s[24..28] == Put32(f.total)
      && s[28..96] == PutSystem(f.system) && s[96..104] == Put64(f.sent)
      && (f.rows.None? ==> |s| == 104)
      && (f.rows.Some? ==> |s| >= 108 && s[104..108] == Put32(|f.rows.value|) && s[108..] == PutRows(fl, f.rows.value))
  {
    hide PutAll, Put64, Put32;
    SystemLayout(f.system);
  }

  /** Everything up to the rows; a frame with impossible times is refused. */
  function GetFrameHead(s: seq<byte>, p: Place): (r: (Frame, Place))
    ensures r.0.rows.None? && |r.0.system.load| == 3 && (r.1.At? ==> TimesOk(r.0))
  {
    var (generation, p1) := Get64(s, p);
    var (sampled, p2) := Get64(s, p1);
    var (interval, p3) := Get32(s, p2);
    var (ready, p4) := Get32(s, p3);
    var (total, p5) := Get32(s, p4);
    var (system, p6) := GetSystem(s, p5);
    var (sent, p7) := Get64(s, p6);
    var f := Frame(generation, sampled, interval, ready, total, system, sent, None);
    (f, if TimesOk(f) then p7 else Error)
  }

  function GetRows(fl: Floats, s: seq<byte>, p: Place, n: nat): (r: (seq<row>, Place))
    ensures |r.0| == n
  {
    GetAll(GetRow(fl), s, p, n)
  }

  /** The whole frame, or nothing: no bytes may be left over. */
  function GetFrame(fl: Floats, s: seq<byte>, statusOnly: bool): (r: Option<Frame>)
    ensures r.Some? ==> HeldFrame(r.value) && TimesOk(r.value) && (r.value.rows.None? <==> statusOnly)
  {
    var (f, p) := GetFrameHead(s, At(0));
    if p.Error? then None
    else if statusOnly then (if p.pos == |s| then Some(f) else None)
    else GetBody(fl, s, f, p)
  }

  function GetBody(fl: Floats, s: seq<byte>, f: Frame, p: Place): (r: Option<Frame>)
    requires TimesOk(f) && |f.system.load| == 3
    ensures r.Some? ==> HeldFrame(r.value) && TimesOk(r.value) && r.value.rows.Some?
  {
    var (count, p1) := Get32(s, p);
    if p1.Error? || count > f.total || count > (|s| - p1.pos) / ROW_MIN then None
    else
      var (rows, p2) := GetRows(fl, s, p1, count);
      if p2 == At(|s|) then Some(f.(rows := Some(rows))) else None
  }

  lemma ReadFrameHead(s: seq<byte>, p: Place, f: Frame)
    requires HeldFrame(f) && p.At? && Here(s, p, FrameHead(f))
    ensures HeadProper(f) ==> GetFrameHead(s, p) == (f.(rows := None), At(p.pos + |FrameHead(f)|))
    ensures !HeadProper(f) ==> GetFrameHead(s, p).1 == Error
  {
    hide Get32, Put32, Get64, Put64, GetSystem, PutSystem, Here, All;
    var y := PutSystem(f.system);
    var i := p.pos;
    var e := y + Put64(f.sent);
    var d := Put32(f.total) + e;
    var c := Put32(f.ready) + d;
    var b := Put32(f.interval) + c;
    Split(s, p, Put64(f.generation), Put64(f.sampled) + b);
    Split(s, At(i + 8), Put64(f.sampled), b);
    Split(s, At(i + 16), Put32(f.interval), c);
    Split(s, At(i + 20), Put32(f.ready), d);
    Split(s, At(i + 24), Put32(f.total), e);
    Split(s, At(i + 28), y, Put64(f.sent));
    Read64(s, p, f.generation);
    Read64(s, At(i + 8), f.sampled);
    Read32(s, At(i + 16), f.interval);
    Read32(s, At(i + 20), f.ready);
    Read32(s, At(i + 24), f.total);
    ReadSystem(s, At(i + 28), f.system);
    Read64(s, At(i + 28 + |y|), f.sent);
  }

  /** The size test never refuses rows that were written. */
  lemma RowsFit(fl: Floats, rows: seq<row>)
    ensures |PutRows(fl, rows)| >= ROW_MIN * |rows|
    ensures |rows| <= |PutRows(fl, rows)| / ROW_MIN
  {
    hide PutRow;
    forall i | 0 <= i < |rows| ensures |PutRow(fl)(rows[i])| >= ROW_MIN {
      RowSize(fl, rows[i]);
    }
    PutAllSize(PutRow(fl), rows, ROW_MIN);
  }

  lemma ReadBody(fl: Floats, s: seq<byte>, p: Place, f: Frame)
    requires Exact(fl) && HeldFrame(f) && HeadProper(f) && f.rows.Some? && p.At?
    requires Here(s, p, Put32(|f.rows.value|) + PutRows(fl, f.rows.value))
    requires p.pos + 4 + |PutRows(fl, f.rows.value)| == |s|
    ensures GetBody(fl, s, f.(rows := None), p) == if All(FitRow, f.rows.value) then Some(f) else None
  {
    hide Get32, Put32, GetAll, PutAll, GetRow, PutRow, Reads, All, Exact, HeadProper;
    var rows := f.rows.value;
    Split(s, p, Put32(|rows|), PutRows(fl, rows));
    Read32(s, p, |rows|);
    RowsFit(fl, rows);
    ReadsRow(fl);
    ReadAll(PutRow(fl), GetRow(fl), FitRow, s, At(p.pos + 4), rows);
  }

  /** Decoding an encoded frame gives the frame if the decoder takes such frames, and nothing otherwise. */
  lemma FrameRoundTrip(fl: Floats, f: Frame)
    requires Exact(fl) && HeldFrame(f)
    ensures GetFrame(fl, PutFrame(fl, f), f.rows.None?) == if ProperFrame(f) then Some(f) else None
  {
    hide GetFrameHead, FrameHead, GetBody, PutRows, Here, HeadProper, All, Exact;
    var s := PutFrame(fl, f);
    WholeHere(s);
    Split(s, At(0), FrameHead(f), if f.rows.None? then [] else Put32(|f.rows.value|) + PutRows(fl, f.rows.value));
    ReadFrameHead(s, At(0), f);
    if f.rows.Some? && HeadProper(f) {
      ReadBody(fl, s, At(|FrameHead(f)|), f);
    }
  }
}
