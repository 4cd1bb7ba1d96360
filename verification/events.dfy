/**
 The event stream: a ring of the last 256 events, a cursor per subscriber, and the frames that
 carry events to it.  Every event after a subscriber's start is delivered once, in order, or
 counted as dropped once.
 */
module Events {
  import opened Common
  import opened Wire

  const RING: nat := 256
  const DATA_MAX: nat := 4096
  const PATH_SIZE: nat := 256

  datatype Event =
    | Write(pid: nat, tgid: nat, fd: nat, truncated: nat, data: seq<byte>)
    | Exec(pid: nat, ppid: nat, path: seq<byte>)

  /** An event as the ring stores it. */
  ghost predicate Proper(e: Event) {
    match e
    case Write(pid, tgid, fd, truncated, data) =>
      pid < U32 && tgid < U32 && fd < U32 && truncated < U32 && |data| <= DATA_MAX
    case Exec(pid, ppid, path) => pid < U32 && ppid < U32 && Text(path) && |path| < PATH_SIZE
  }

  /** Recording cuts a write's data at the payload's size. */
  function Clipped(e: Event): Event {
    if e.Write? && |e.data| > DATA_MAX then e.(data := e.data[..DATA_MAX]) else e
  }

  // ------------------------------------------------------------ the wire form of a frame

  function PutEvent(e: Event): (s: seq<byte>)
    requires Proper(e)
    ensures |s| <= 24 + DATA_MAX
  {
    Put32(Kind(e)) + Tail(e)
  }

  function Kind(e: Event): nat { if e.Write? then 1 else 2 }

  function Tail(e: Event): (s: seq<byte>)
    requires Proper(e)
    ensures |s| <= 20 + DATA_MAX
  {
    match e
    case Write(pid, tgid, fd, truncated, data) =>
      Put32(pid) + Put32(tgid) + Put32(fd) + Put32(truncated) + Put32(|data|) + data
    case Exec(pid, ppid, path) =>
      Put32(pid) + Put32(ppid) + PutString(path)
  }

  function PutEvents(es: seq<Event>): (s: seq<byte>)
    requires forall i :: 0 <= i < |es| ==> Proper(es[i])
    ensures |s| <= |es| * (24 + DATA_MAX)
  {
    if es == [] then [] else PutEvents(es[..|es| - 1]) + PutEvent(es[|es| - 1])
  }

  function PutFrame(dropped: nat, es: seq<Event>): (s: seq<byte>)
    requires dropped < U64 && |es| < U32 && forall i :: 0 <= i < |es| ==> Proper(es[i])
    ensures |s| <= 12 + |es| * (24 + DATA_MAX)
  {
    Put64(dropped) + Put32(|es|) + PutEvents(es)
  }

  /** Where the fields of a write stand. */
  lemma WriteLayout(e: Event)
    requires Proper(e) && e.Write?
    ensures
      var s := PutEvent(e);
      && |s| == 24 + |e.data| && s[..4] == Put32(1) && s[4..8] == Put32(e.pid) && s[8..12] == Put32(e.tgid)
      && s[12..16] == Put32(e.fd) && s[16..20] == Put32(e.truncated) && s[20..24] == Put32(|e.data|) && s[24..] == e.data
  {
    hide Put32;
    var s, t := PutEvent(e), Tail(e);
    assert s[..4] == Put32(1) && s[4..] == t;
    assert t[..4] == Put32(e.pid) && t[4..8] == Put32(e.tgid) && t[8..12] == Put32(e.fd);
    assert t[12..16] == Put32(e.truncated) && t[16..20] == Put32(|e.data|) && t[20..] == e.data;
    forall i: nat, k: nat | i <= k <= |t| ensures s[4 + i..4 + k] == t[i..k] {
    }
  }

  /** Where the fields of an exec stand. */
  lemma ExecLayout(e: Event)
    requires Proper(e) && e.Exec?
    ensures
      var s := PutEvent(e);
      && |s| >= 12 && s[..4] == Put32(2) && s[4..8] == Put32(e.pid) && s[8..12] == Put32(e.ppid) && s[12..] == PutString(e.path)
  {
    hide Put32, PutString;
    var s, t := PutEvent(e), Tail(e);
    assert s[..4] == Put32(2) && s[4..] == t;
    assert t[..4] == Put32(e.pid) && t[4..8] == Put32(e.ppid) && t[8..] == PutString(e.path);
  }

  function GetEvent(s: seq<byte>, p: Place): (r: (Event, Place))
    ensures r.1.At? ==> p.At? && p.pos < r.1.pos <= |s| && Proper(r.0)
  {
    var (kind, p1) := Get32(s, p);
    if kind == 1 then GetWrite(s, p1)
    else if kind == 2 then GetExec(s, p1)
    else (Exec(0, 0, []), Error)
  }

  function GetWrite(s: seq<byte>, p: Place): (r: (Event, Place))
    ensures r.1.At? ==> p.At? && p.pos < r.1.pos <= |s| && Proper(r.0) && r.0.Write?
  {
    var (pid, p1) := Get32(s, p);
    var (tgid, p2) := Get32(s, p1);
    var (fd, p3) := Get32(s, p2);
    var (truncated, p4) := Get32(s, p3);
    var (n, p5) := Get32(s, p4);
    var (data, p6) := GetBytes(s, p5, n);
    (Write(pid, tgid, fd, truncated, data), if n > DATA_MAX then Error else p6)
  }

  function GetExec(s: seq<byte>, p: Place): (r: (Event, Place))
    ensures r.1.At? ==> p.At? && p.pos < r.1.pos <= |s| && Proper(r.0) && r.0.Exec?
  {
    var (pid, p1) := Get32(s, p);
    var (ppid, p2) := Get32(s, p1);
    var (path, p3) := GetFixed(s, p2, PATH_SIZE);
    (Exec(pid, ppid, path), p3)
  }

  function GetEvents(s: seq<byte>, p: Place, count: nat): (r: (seq<Event>, Place))
    ensures |r.0| <= count && (r.1.At? ==> |r.0| == count && p.At? && p.pos <= r.1.pos && (p.pos <= |s| ==> r.1.pos <= |s|))
    ensures r.1.At? ==> forall i :: 0 <= i < |r.0| ==> Proper(r.0[i])
  {
    if count == 0 then ([], p)
    else
      var (es, p1) := GetEvents(s, p, count - 1);
      if p1.Error? then (es, Error)
      else
        var (e, p2) := GetEvent(s, p1);
        (es + [e], p2)
  }

  /** What a received frame publishes: all its events, or nothing. */
  function GetFrame(s: seq<byte>): Option<(nat, seq<Event>)> {
    var (dropped, p1) := Get64(s, At(0));
    var (count, p2) := Get32(s, p1);
    if count > RING then None
    else
      var (es, p3) := GetEvents(s, p2, count);
      if p3 == At(|s|) then Some((dropped, es)) else None
  }

  // ------------------------------------------------------------ reading back

  lemma ReadWrite(s: seq<byte>, p: Place, e: Event)
    requires Proper(e) && e.Write?
    requires Here(s, p, Tail(e))
    ensures GetWrite(s, p) == (e, At(p.pos + 20 + |e.data|))
  {
    hide Get32, Put32, Here;
    var a := Put32(e.pid);
    var b := a + Put32(e.tgid);
    var c := b + Put32(e.fd);
    var d := c + Put32(e.truncated);
    Split(s, p, d + Put32(|e.data|), e.data);
    Split(s, p, d, Put32(|e.data|));
    Split(s, p, c, Put32(e.truncated));
    Split(s, p, b, Put32(e.fd));
    Split(s, p, a, Put32(e.tgid));
    Read32(s, p, e.pid);
    Read32(s, At(p.pos + 4), e.tgid);
    Read32(s, At(p.pos + 8), e.fd);
    Read32(s, At(p.pos + 12), e.truncated);
    Read32(s, At(p.pos + 16), |e.data|);
    ReadBytes(s, At(p.pos + 20), e.data);
  }

  lemma ReadBytes(s: seq<byte>, p: Place, x: seq<byte>)
    requires Here(s, p, x)
    ensures GetBytes(s, p, |x|) == (x, At(p.pos + |x|))
  {
  }

  lemma ReadExec(s: seq<byte>, p: Place, e: Event)
    requires Proper(e) && e.Exec?
    requires Here(s, p, Tail(e))
    ensures GetExec(s, p) == (e, At(p.pos + 12 + |e.path|))
  {
    hide Get32, Put32, Here, PutString, GetFixed;
    Split(s, p, Put32(e.pid) + Put32(e.ppid), PutString(e.path));
    Split(s, p, Put32(e.pid), Put32(e.ppid));
    Read32(s, p, e.pid);
    Read32(s, At(p.pos + 4), e.ppid);
    ReadFixed(s, At(p.pos + 8), e.path, PATH_SIZE);
  }

  lemma ReadEvent(s: seq<byte>, p: Place, e: Event)
    requires Proper(e) && Here(s, p, PutEvent(e))
    ensures GetEvent(s, p) == (e, At(p.pos + |PutEvent(e)|))
  {
    hide Get32, Put32, Here, Tail, GetWrite, GetExec;
    TailLength(e);
    Split(s, p, Put32(Kind(e)), Tail(e));
    Read32(s, p, Kind(e));
    if e.Write? {
      ReadWrite(s, At(p.pos + 4), e);
    } else {
      ReadExec(s, At(p.pos + 4), e);
    }
  }

  lemma TailLength(e: Event)
    requires Proper(e)
    ensures |Tail(e)| == if e.Write? then 20 + |e.data| else 12 + |e.path|
  {
  }

  lemma NoEvents(s: seq<byte>, p: Place)
    ensures PutEvents([]) == [] && GetEvents(s, p, 0) == ([], p)
  {
  }

  lemma NextEvent(s: seq<byte>, p: Place, es: seq<Event>)
    requires es != [] && (forall i :: 0 <= i < |es| ==> Proper(es[i]))
    ensures
      var n := |es| - 1;
      && PutEvents(es) == PutEvents(es[..n]) + PutEvent(es[n])
      && (GetEvents(s, p, n).1.At? ==>
            GetEvents(s, p, |es|) == (GetEvents(s, p, n).0 + [GetEvent(s, GetEvents(s, p, n).1).0], GetEvent(s, GetEvents(s, p, n).1).1))
  {
    hide GetEvent, PutEvent, Proper;
  }

  lemma {:induction false} ReadEvents(s: seq<byte>, p: Place, es: seq<Event>)
    requires (forall i :: 0 <= i < |es| ==> Proper(es[i])) && p.At? && Here(s, p, PutEvents(es))
    ensures GetEvents(s, p, |es|) == (es, At(p.pos + |PutEvents(es)|))
  {
    hide GetEvent, PutEvent, Proper, Here, GetEvents, PutEvents;
    if es == [] {
      NoEvents(s, p);
    } else {
      var n := |es| - 1;
      NextEvent(s, p, es);
      Split(s, p, PutEvents(es[..n]), PutEvent(es[n]));
      ReadEvents(s, p, es[..n]);
      ReadEvent(s, At(p.pos + |PutEvents(es[..n])|), es[n]);
      assert es == es[..n] + [es[n]];
    }
  }

  /** The dispatcher publishes exactly the events that were encoded. */
  lemma FrameRoundTrip(dropped: nat, es: seq<Event>)
    requires dropped < U64 && |es| <= RING && forall i :: 0 <= i < |es| ==> Proper(es[i])
    ensures GetFrame(PutFrame(dropped, es)) == Some((dropped, es))
  {
    hide Get64, Put64, Get32, Put32, GetEvents, PutEvents, Proper, Here;
    var s := PutFrame(dropped, es);
    WholeHere(s);
    Split(s, At(0), Put64(dropped) + Put32(|es|), PutEvents(es));
    Split(s, At(0), Put64(dropped), Put32(|es|));
    Read64(s, At(0), dropped);
    Read32(s, At(8), |es|);
    ReadEvents(s, At(12), es);
  }

  // ------------------------------------------------------------ nothing else is accepted

  lemma WrittenEvent(s: seq<byte>, p: Place)
    requires GetEvent(s, p).1.At?
    ensures Here(s, p, PutEvent(GetEvent(s, p).0)) && GetEvent(s, p).1.pos == p.pos + |PutEvent(GetEvent(s, p).0)|
  {
    hide GetWrite, GetExec, Here, Put32, Tail, Val32;
    var e, q := GetEvent(s, p).0, At(p.pos + 4);
    TailLength(e);
    Written32(s, p);
    if Get32(s, p).0 == 1 {
      WrittenWrite(s, q);
    } else {
      WrittenExec(s, q);
    }
    Joined(s, p, Put32(Kind(e)), Tail(e));
  }

  lemma WrittenWrite(s: seq<byte>, p: Place)
    requires GetWrite(s, p).1.At?
    ensures
      var e := GetWrite(s, p).0;
      && Here(s, p, Tail(e))
      && GetWrite(s, p).1.pos == p.pos + 20 + |e.data|
  {
    hide Here, Put32, Val32;
    var e, i := GetWrite(s, p).0, p.pos;
    Written32(s, p);
    Written32(s, At(i + 4));
    Written32(s, At(i + 8));
    Written32(s, At(i + 12));
    Written32(s, At(i + 16));
    var a := Put32(e.pid);
    var b := a + Put32(e.tgid);
    var c := b + Put32(e.fd);
    var d := c + Put32(e.truncated);
    Joined(s, p, a, Put32(e.tgid));
    Joined(s, p, b, Put32(e.fd));
    Joined(s, p, c, Put32(e.truncated));
    Joined(s, p, d, Put32(|e.data|));
    BytesHere(s, At(i + 20), |e.data|);
    Joined(s, p, d + Put32(|e.data|), e.data);
  }

  lemma BytesHere(s: seq<byte>, p: Place, n: nat)
    requires GetBytes(s, p, n).1.At?
    ensures Here(s, p, GetBytes(s, p, n).0)
  {
  }

  lemma WrittenExec(s: seq<byte>, p: Place)
    requires GetExec(s, p).1.At?
    ensures
      var e := GetExec(s, p).0;
      && Here(s, p, Tail(e))
      && GetExec(s, p).1.pos == p.pos + 12 + |e.path|
  {
    hide Here, Put32, Val32, GetFixed, PutString;
    var e, i := GetExec(s, p).0, p.pos;
    Written32(s, p);
    Written32(s, At(i + 4));
    WrittenFixed(s, At(i + 8), PATH_SIZE);
    Joined(s, p, Put32(e.pid), Put32(e.ppid));
    Joined(s, p, Put32(e.pid) + Put32(e.ppid), PutString(e.path));
  }

  lemma {:induction false} WrittenEvents(s: seq<byte>, p: Place, count: nat)
    requires p.At? && p.pos <= |s| && GetEvents(s, p, count).1.At?
    ensures
      var (es, q) := GetEvents(s, p, count);
      Here(s, p, PutEvents(es)) && q.pos == p.pos + |PutEvents(es)|
  {
    hide GetEvent, PutEvent, Proper;
    if count > 0 {
      var (es, q) := GetEvents(s, p, count - 1);
      WrittenEvents(s, p, count - 1);
      WrittenEvent(s, q);
      var e := GetEvent(s, q).0;
      Joined(s, p, PutEvents(es), PutEvent(e));
      assert (es + [e])[..|es|] == es;
    }
  }

  /** A frame is published exactly if it is the encoding of what is published. */
  lemma OnlyFrames(s: seq<byte>)
    requires GetFrame(s).Some?
    ensures
      var (dropped, es) := GetFrame(s).value;
      && dropped < U64 && |es| <= RING && (forall i :: 0 <= i < |es| ==> Proper(es[i]))
      && s == PutFrame(dropped, es)
  {
    hide Get64, Put64, Get32, Put32, GetEvents, PutEvents, Proper;
    var (dropped, es) := GetFrame(s).value;
    Written64(s, At(0));
    Written32(s, At(8));
    WrittenEvents(s, At(12), |es|);
    Joined(s, At(0), Put64(dropped), Put32(|es|));
    Joined(s, At(0), Put64(dropped) + Put32(|es|), PutEvents(es));
    assert s[0..|s|] == s;
  }

  // ------------------------------------------------------------ the ring

  /** What a subscriber is sent: how many events it missed, and the events after those. */
  datatype Sent = Sent(dropped: nat, events: seq<Event>)

  /** All events so far, and the frames a subscriber was sent since it started at `start`. */
  datatype Log = Log(recorded: seq<Event>, start: nat, cursor: nat, frames: seq<Sent>)

  datatype Step = Record(event: Event) | Encode

  function Oldest(newest: nat): nat { if newest > RING then newest - RING else 0 }

  /** The frame a subscriber at `cursor` gets. */
  function FrameFor(recorded: seq<Event>, cursor: nat): Sent {
    var newest := |recorded|;
    var from := if cursor < Oldest(newest) then Oldest(newest) else if cursor > newest then newest else cursor;
    Sent(if cursor < Oldest(newest) then Oldest(newest) - cursor else 0, recorded[from..])
  }

  lemma FrameOf(recorded: seq<Event>, cursor: nat, from: nat)
    requires from == if cursor < Oldest(|recorded|) then Oldest(|recorded|) else if cursor > |recorded| then |recorded| else cursor
    ensures FrameFor(recorded, cursor) ==
              Sent(if cursor < Oldest(|recorded|) then Oldest(|recorded|) - cursor else 0, recorded[from..])
  {
  }

  function Do(l: Log, step: Step): Log {
    match step
    case Record(e) => l.(recorded := l.recorded + [Clipped(e)])
    case Encode => l.(cursor := |l.recorded|, frames := l.frames + [FrameFor(l.recorded, l.cursor)])
  }

  function Run(l: Log, steps: seq<Step>): Log {
    if steps == [] then l else Do(Run(l, steps[..|steps| - 1]), steps[|steps| - 1])
  }

  /** Where the k-th frame's events begin and end among all events. */
  function Begin(l: Log, k: nat): nat
    requires k <= |l.frames|
  {
    if k == 0 then l.start else Begin(l, k - 1) + l.frames[k - 1].dropped + |l.frames[k - 1].events|
  }

  /** A frame accounts for all events between two cursors: the dropped ones, then the delivered. */
  ghost predicate FrameExact(l: Log, k: nat)
    requires k < |l.frames|
  {
    var f, from, to := l.frames[k], Begin(l, k), Begin(l, k + 1);
    && to <= |l.recorded|
    && f.events == l.recorded[from + f.dropped..to]
    && |f.events| <= RING
    && (f.dropped == 0 || |f.events| == RING)
    && (to - from <= RING ==> f.dropped == 0)
  }

  ghost predicate Accounted(l: Log) {
    && l.start <= l.cursor <= |l.recorded|
    && Begin(l, |l.frames|) == l.cursor
    && forall k :: 0 <= k < |l.frames| ==> FrameExact(l, k)
  }

  lemma {:induction false} BeginSame(l: Log, m: Log, k: nat)
    requires l.start == m.start && l.frames <= m.frames && k <= |l.frames|
    ensures Begin(l, k) == Begin(m, k)
  {
    if k > 0 {
      BeginSame(l, m, k - 1);
    }
  }

  lemma FrameKept(l: Log, m: Log, k: nat)
    requires l.start == m.start && l.frames <= m.frames && l.recorded <= m.recorded && k < |l.frames| && FrameExact(l, k)
    ensures FrameExact(m, k)
  {
    BeginSame(l, m, k);
    BeginSame(l, m, k + 1);
  }

  lemma StepAccounted(l: Log, step: Step)
    requires Accounted(l)
    ensures Accounted(Do(l, step))
  {
    hide FrameFor, FrameExact, Begin;
    var m := Do(l, step);
    forall k | 0 <= k < |l.frames| ensures FrameExact(m, k) {
      FrameKept(l, m, k);
    }
    BeginSame(l, m, |l.frames|);
    if step.Encode? {
      NewFrame(l);
    }
  }

  lemma NewFrame(l: Log)
    requires Accounted(l)
    ensures
      var m, k := Do(l, Encode), |l.frames|;
      FrameExact(m, k) && Begin(m, k + 1) == m.cursor
  {
    hide FrameExact;
    var m, k := Do(l, Encode), |l.frames|;
    BeginSame(l, m, k);
    assert m.frames[k] == FrameFor(l.recorded, l.cursor);
    assert Begin(m, k + 1) == Begin(m, k) + m.frames[k].dropped + |m.frames[k].events|;
    ExactFor(m, k, l.cursor);
  }

  lemma ExactFor(m: Log, k: nat, cursor: nat)
    requires k < |m.frames| && m.frames[k] == FrameFor(m.recorded, cursor) && Begin(m, k) == cursor <= |m.recorded|
    ensures FrameExact(m, k)
  {
    assert Begin(m, k + 1) == Begin(m, k) + m.frames[k].dropped + |m.frames[k].events|;
  }

  /** Over every interleaving of recording and encoding: the frames, one after another, account for
      every event since the start, each once, in order. */
  lemma {:induction false} EveryEventAccounted(l: Log, steps: seq<Step>)
    requires l.frames == [] && l.start == l.cursor == |l.recorded|
    ensures Accounted(Run(l, steps))
  {
    hide Do, FrameExact;
    if steps == [] {
      assert Begin(l, 0) == l.start;
    } else {
      EveryEventAccounted(l, steps[..|steps| - 1]);
      StepAccounted(Run(l, steps[..|steps| - 1]), steps[|steps| - 1]);
    }
  }

  lemma {:induction false} BeginMonotone(l: Log, j: nat, k: nat)
    requires j <= k <= |l.frames|
    ensures Begin(l, j) <= Begin(l, k)
  {
    if j < k {
      BeginMonotone(l, j, k - 1);
    }
  }

  /** So an event between the start and the cursor belongs to exactly one frame, which either
      delivers it at its place or counts it among the dropped. */
  lemma {:induction false} OneFrameEach(l: Log, i: nat, n: nat) returns (k: nat)
    requires Accounted(l) && n <= |l.frames| && l.start <= i < Begin(l, n)
    ensures k < n && Begin(l, k) <= i < Begin(l, k + 1)
    ensures forall j :: 0 <= j < |l.frames| && Begin(l, j) <= i < Begin(l, j + 1) ==> j == k
    ensures
      var f, from := l.frames[k], Begin(l, k);
      i < |l.recorded| &&
      (i < from + f.dropped || f.events[i - from - f.dropped] == l.recorded[i])
  {
    hide FrameExact;
    if i < Begin(l, n - 1) {
      k := OneFrameEach(l, i, n - 1);
    } else {
      k := n - 1;
      forall j | 0 <= j < |l.frames| && Begin(l, j) <= i < Begin(l, j + 1) ensures j == k {
        if j < k {
          BeginMonotone(l, j + 1, k);
        } else if k < j {
          BeginMonotone(l, k + 1, j);
        }
      }
      Placed(l, k, i);
    }
  }

  lemma Placed(l: Log, k: nat, i: nat)
    requires Accounted(l) && k < |l.frames| && Begin(l, k) <= i < Begin(l, k + 1)
    ensures
      var f, from := l.frames[k], Begin(l, k);
      i < |l.recorded| && (i < from + f.dropped || f.events[i - from - f.dropped] == l.recorded[i])
  {
    assert FrameExact(l, k);
  }

  // ------------------------------------------------------------ the events handed in

  /** An exec is recorded as it is; a write with the longest part of its data that the payload has room for, from the
      start, and otherwise as it is. */
  ghost predicate RecordedAs(e: Event, r: Event) {
    match e
    case Exec(_, _, _) => r == e
    case Write(pid, tgid, fd, truncated, data) =>
      && r.Write? && r.pid == pid && r.tgid == tgid && r.fd == fd && r.truncated == truncated
      && r.data <= data && |r.data| == if |data| <= 4096 then |data| else 4096
  }

  lemma ClippedIs(e: Event)
    ensures RecordedAs(e, Clipped(e))
    ensures e.Exec? || |e.data| <= 4096 ==> Clipped(e) == e
  {
  }

  /** An event that fits is recorded unchanged. */
  lemma FitsUnchanged(e: Event, r: Event)
    requires RecordedAs(e, r) && (e.Write? ==> |e.data| <= 4096)
    ensures r == e
  {
    if e.Write? {
      assert r.data == e.data;
    }
  }

  /** The events of a run's Record steps. */
  function Given(steps: seq<Step>): seq<Event> {
    if steps == [] then []
    else
      var n := |steps| - 1;
      if steps[n].Record? then Given(steps[..n]) + [steps[n].event] else Given(steps[..n])
  }

  lemma {:induction false} GivenIsRecorded(l: Log, steps: seq<Step>)
    ensures
      var r := Run(l, steps).recorded;
      && |r| == |l.recorded| + |Given(steps)| && l.recorded <= r
      && forall i :: 0 <= i < |Given(steps)| ==> RecordedAs(Given(steps)[i], r[|l.recorded| + i])
  {
    hide RecordedAs, Clipped, FrameFor;
    if steps != [] {
      var n := |steps| - 1;
      GivenIsRecorded(l, steps[..n]);
      if steps[n].Record? {
        ClippedIs(steps[n].event);
      }
    }
  }

  lemma {:induction false} StartKept(l: Log, steps: seq<Step>)
    ensures Run(l, steps).start == l.start
  {
    if steps != [] {
      StartKept(l, steps[..|steps| - 1]);
    }
  }

  /** Over every interleaving: the i-th event handed in after a subscriber's start, once its cursor is past it, belongs to
      exactly one frame, which counts it as dropped or delivers it as it was recorded. */
  lemma GivenOnceEach(l: Log, steps: seq<Step>, i: nat) returns (k: nat)
    requires l.frames == [] && l.start == l.cursor == |l.recorded|
    requires i < |Given(steps)| && l.start + i < Run(l, steps).cursor
    ensures
      var end, at := Run(l, steps), l.start + i;
      && k < |end.frames| && Begin(end, k) <= at < Begin(end, k + 1)
      && (forall j :: 0 <= j < |end.frames| && Begin(end, j) <= at < Begin(end, j + 1) ==> j == k)
      && var f, from := end.frames[k], Begin(end, k);
         at < from + f.dropped ||
         (at - from - f.dropped < |f.events| && RecordedAs(Given(steps)[i], f.events[at - from - f.dropped]))
  {
    hide Begin, FrameExact, RecordedAs;
    EveryEventAccounted(l, steps);
    StartKept(l, steps);
    GivenIsRecorded(l, steps);
    var end := Run(l, steps);
    k := OneFrameEach(end, l.start + i, |end.frames|);
    FrameLength(end, k);
  }

  lemma FrameLength(l: Log, k: nat)
    requires k < |l.frames|
    ensures Begin(l, k + 1) == Begin(l, k) + l.frames[k].dropped + |l.frames[k].events|
  {
  }
}

/** The ring as the service keeps it, with the encoder and the dispatcher. */
module EventServer {
  import opened Wire
  import opened Events

  class EventRing {
    const ring: array<Event>
    var sequence: nat
    ghost var recorded: seq<Event>

    /** The last 256 events are in the ring, each in its slot. */
    ghost predicate Valid()
      reads this, ring
    {
      && ring.Length == RING && sequence == |recorded| < U64
      && (forall i :: 0 <= i < |recorded| ==> Proper(recorded[i]))
      && forall i :: Oldest(sequence) <= i < sequence ==> ring[i % RING] == recorded[i]
    }

    constructor ()
      ensures Valid() && recorded == [] && fresh(ring)
    {
      ring := new Event[RING](i => Exec(0, 0, []));
      sequence, recorded := 0, [];
    }

    method Record(e: Event)
      requires Valid() && sequence + 1 < U64 && Proper(Clipped(e))
      modifies this, ring
      ensures Valid() && recorded == old(recorded) + [Clipped(e)]
      ensures RecordedAs(e, recorded[|recorded| - 1])
    {
      ClippedIs(e);
      var slot := sequence % RING;
      ghost var before := recorded;
      ring[slot] := if e.Write? && |e.data| > DATA_MAX then e.(data := e.data[..DATA_MAX]) else e;
      sequence := sequence + 1;
      recorded := recorded + [Clipped(e)];
      forall i | Oldest(sequence) <= i < sequence ensures ring[i % RING] == recorded[i] {
        if i < sequence - 1 {
          OtherSlot(i, sequence - 1);
        }
      }
    }

    /** Encodes everything after the cursor that is still there.  The frame always fits the limit. */
    method Encode(cursor: nat) returns (out: seq<byte>, now: nat)
      requires Valid()
      ensures now == sequence
      ensures
        var f := FrameFor(recorded, cursor);
        && f.dropped < U64 && |f.events| <= RING
        && (forall i :: 0 <= i < |f.events| ==> Proper(f.events[i]))
        && out == PutFrame(f.dropped, f.events) && |out| <= LIMIT
    {
      hide Put32, Put64, PutEvents, Proper, FrameFor;
      var newest := sequence;
      var oldest := if newest > RING then newest - RING else 0;
      var dropped, from := 0, cursor;
      if cursor < oldest {
        dropped, from := oldest - cursor, oldest;
      } else if cursor > newest {
        from := newest;
      }
      FrameOf(recorded, cursor, from);
      var writer := new Writer();
      writer.PutU64(dropped);
      writer.PutU32(newest - from);
      EncodeEvents(writer, from);
      out, now := writer.data, newest;
    }

    method EncodeEvents(writer: Writer, from: nat)
      requires Valid() && Oldest(sequence) <= from <= sequence
      requires writer.Valid() && !writer.error && |writer.data| == 12
      modifies writer
      ensures writer.Valid() && !writer.error
      ensures (forall i :: 0 <= i < |recorded[from..]| ==> Proper(recorded[from..][i])) &&
              writer.data == old(writer.data) + PutEvents(recorded[from..])
    {
      hide PutEvent, Proper, Oldest;
      ghost var head, events := writer.data, recorded[from..];
      assert forall k :: 0 <= k < |events| ==> events[k] == recorded[from + k];
      assert events[..0] == [] && head + [] == head;
      var i := from;
      while i < sequence
        invariant from <= i <= sequence && writer.Valid() && !writer.error
        invariant writer.data == head + PutEvents(events[..i - from])
      {
        ghost var k := i - from;
        FewEvents(sequence, from);
        EventsSnoc(events, k);
        assert |PutEvents(events[..k])| <= k * (24 + DATA_MAX);
        PutEventInto(writer, ring[i % RING]);
        i := i + 1;
      }
      assert events[..sequence - from] == events;
    }
  }

  lemma FewEvents(newest: nat, from: nat)
    requires Oldest(newest) <= from
    ensures newest - from <= RING
  {
  }

  lemma OtherSlot(i: nat, j: nat)
    requires i < j < i + RING
    ensures i % RING != j % RING
  {
  }

  lemma EventsSnoc(es: seq<Event>, k: nat)
    requires k < |es| && forall i :: 0 <= i < |es| ==> Proper(es[i])
    ensures PutEvents(es[..k + 1]) == PutEvents(es[..k]) + PutEvent(es[k])
  {
    hide PutEvent, Proper;
    assert es[..k + 1][..k] == es[..k];
  }

  method PutEventInto(w: Writer, e: Event)
    requires w.Valid() && Proper(e) && !w.error && |w.data| + 24 + DATA_MAX <= LIMIT
    modifies w
    ensures w.Valid() && !w.error && w.data == old(w.data) + PutEvent(e)
  {
    hide Put32;
    ghost var start := w.data;
    w.PutU32(if e.Write? then 1 else 2);
    match e {
      case Write(pid, tgid, fd, truncated, data) =>
        w.PutU32(pid);
        w.PutU32(tgid);
        w.PutU32(fd);
        w.PutU32(truncated);
        w.PutU32(|data|);
        w.PutBytes(data);
      case Exec(pid, ppid, path) =>
        w.PutU32(pid);
        w.PutU32(ppid);
        w.PutText(path);
    }
    assert w.data == start + (Put32(Kind(e)) + Tail(e));
  }

  /** Decodes a whole frame before publishing any of it. */
  method Dispatch(input: seq<byte>) returns (published: seq<Event>, ok: bool)
    ensures ok <==> GetFrame(input).Some?
    ensures published == if ok then GetFrame(input).value.1 else []
  {
    hide Get32, Get64, GetEvent;
    var reader := new Reader(input);
    var dropped := reader.TakeU64();
    var count := reader.TakeU32();
    if count > RING {
      return [], false;
    }
    ghost var start := reader.Here();
    var records: seq<Event> := [];
    var i := 0;
    while i < count && !reader.error
      invariant i <= count && reader.Valid() && fresh(reader) && reader.data == input
      invariant (records, reader.Here()) == GetEvents(input, start, i)
    {
      var e := TakeEvent(reader);
      records := records + [e];
      i := i + 1;
    }
    var valid := reader.Done();
    if i < count {
      EventsFail(input, start, i, count);
    }
    if valid {
      published, ok := records, true;
    } else {
      published, ok := [], false;
    }
  }

  lemma {:induction false} EventsFail(s: seq<byte>, p: Place, i: nat, count: nat)
    requires i <= count && GetEvents(s, p, i).1.Error?
    ensures GetEvents(s, p, count).1.Error?
  {
    hide GetEvent;
    if i < count {
      EventsFail(s, p, i, count - 1);
    }
  }

  method TakeEvent(r: Reader) returns (e: Event)
    requires r.Valid()
    modifies r
    ensures r.Valid() && (e, r.Here()) == GetEvent(r.data, old(r.Here()))
  {
    hide Get32;
    var kind := r.TakeU32();
    if kind == 1 {
      var pid := r.TakeU32();
      var tgid := r.TakeU32();
      var fd := r.TakeU32();
      var truncated := r.TakeU32();
      var n := r.TakeU32();
      var data := r.TakeBytes(n);
      if n > DATA_MAX {
        r.Fail();
      }
      e := Write(pid, tgid, fd, truncated, data);
    } else if kind == 2 {
      var pid := r.TakeU32();
      var ppid := r.TakeU32();
      var path := r.TakeFixed(PATH_SIZE);
      e := Exec(pid, ppid, path);
    } else {
      r.Fail();
      e := Exec(0, 0, []);
    }
  }
}
