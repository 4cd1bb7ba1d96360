/**
 Tracing registrations: the union of all clients' watches, and what applying it does to
 the eBPF backend's watched-parent table, pid map and orphan flag.
 */
module Watches {
  import opened Common

  /** A watch as a client asks for it.  A mask's bit 0 stands for fd 1, bit 1 for fd 2. */
  datatype Watch =
    | Fd(pid: nat, fd: bv32)
    | Parent(pid: nat, mask: bv32)
    | Orphan

  const INT_MAX: nat := 0x7fff_ffff

  /** The checks on one registration of a control request. */
  function Decode(kind: nat, pid: nat, value: bv32): (w: Option<Watch>)
    ensures w.Some? && w.value.Parent? ==> 1 <= w.value.mask <= 3 && 0 < w.value.pid <= INT_MAX
    ensures w.Some? && w.value.Fd? ==> 0 < w.value.pid <= INT_MAX
  {
    if kind == 1 && 0 < pid <= INT_MAX && value <= 0x7fff_ffff then Some(Fd(pid, value))
    else if kind == 2 && 0 < pid <= INT_MAX && 1 <= value <= 3 then Some(Parent(pid, value))
    else if kind == 3 && pid == 0 && value == 0 then Some(Orphan)
    else None
  }

  /** The words a client sends for a watch. */
  function Words(w: Watch): (nat, nat, bv32) {
    match w
    case Fd(pid, fd) => (1, pid, fd)
    case Parent(pid, mask) => (2, pid, mask)
    case Orphan => (3, 0, 0)
  }

  predicate LegalWatch(w: Watch) {
    match w
    case Fd(pid, fd) => 0 < pid <= INT_MAX && fd <= 0x7fff_ffff
    case Parent(pid, mask) => 0 < pid <= INT_MAX && 1 <= mask <= 3
    case Orphan => true
  }

  /** Accepted are exactly the words of legal watches, as the watches they stand for; the rest is refused for one of the
      request's seven reasons. */
  lemma DecodeExactly(kind: nat, pid: nat, value: bv32, w: Watch)
    ensures Decode(kind, pid, value) == Some(w) <==> Words(w) == (kind, pid, value) && LegalWatch(w)
    ensures Decode(kind, pid, value).None? <==> Illegal(kind, pid, value)
  {
  }

  predicate Illegal(kind: nat, pid: nat, value: bv32) {
    || kind < 1 || kind > 3 || pid > INT_MAX || (kind != 3 && pid == 0)
    || (kind == 1 && value > 0x7fff_ffff) || (kind == 2 && (value == 0 || value > 3))
    || (kind == 3 && (pid != 0 || value != 0))
  }

  /** What makes two watches the same: a parent's mask does not count. */
  function KeyOf(w: Watch): Watch {
    if w.Parent? then Parent(w.pid, 0) else w
  }

  function Keys(ws: seq<Watch>): set<Watch> {
    set w | w in ws :: KeyOf(w)
  }

  /** All masks asked for a parent, ORed. */
  function MaskFor(ws: seq<Watch>, p: nat): bv32 {
    if ws == [] then 0
    else
      var n := |ws| - 1;
      if ws[n].Parent? && ws[n].pid == p then MaskFor(ws[..n], p) | ws[n].mask else MaskFor(ws[..n], p)
  }

  /** Some watch asks for the bit f of parent p. */
  ghost predicate BitAsked(ws: seq<Watch>, p: nat, f: bv32) {
    exists i :: 0 <= i < |ws| && AsksBit(ws[i], p, f)
  }

  predicate AsksBit(w: Watch, p: nat, f: bv32) {
    w.Parent? && w.pid == p && HasBit(w.mask, f)
  }

  predicate HasBit(m: bv32, f: bv32) { m & f != 0 }

  lemma OrBit(a: bv32, b: bv32, f: bv32)
    ensures HasBit(OrMask(a, b), f) <==> HasBit(a, f) || HasBit(b, f)
  {
    assert (a | b) & f == (a & f) | (b & f);
    OrZero(a & f, b & f);
  }

  lemma OrZero(x: bv32, y: bv32)
    ensures x | y == 0 <==> x == 0 && y == 0
  {
  }

  lemma ZeroBit(f: bv32)
    ensures !HasBit(0, f)
  {
  }

  /** A bit is in the mask exactly if some watch asks for it. */
  lemma {:induction false} MaskBits(ws: seq<Watch>, p: nat, f: bv32)
    ensures HasBit(MaskFor(ws, p), f) <==> BitAsked(ws, p, f)
  {
    hide AsksBit, HasBit;
    if ws == [] {
      ZeroBit(f);
    } else {
      var n := |ws| - 1;
      MaskBits(ws[..n], p, f);
      MaskSplits(ws, p, f);
      BitPrefix(ws, p, f);
    }
  }

  lemma MaskSplits(ws: seq<Watch>, p: nat, f: bv32)
    requires ws != []
    ensures var n := |ws| - 1; HasBit(MaskFor(ws, p), f) <==> HasBit(MaskFor(ws[..n], p), f) || AsksBit(ws[n], p, f)
  {
    hide MaskFor, OrMask, HasBit;
    var n := |ws| - 1;
    MaskLast(ws, p);
    if ws[n].Parent? {
      OrBit(MaskFor(ws[..n], p), ws[n].mask, f);
    }
  }

  lemma MaskLast(ws: seq<Watch>, p: nat)
    requires ws != []
    ensures
      var n := |ws| - 1;
      MaskFor(ws, p) == if ws[n].Parent? && ws[n].pid == p then OrMask(MaskFor(ws[..n], p), ws[n].mask) else MaskFor(ws[..n], p)
  {
  }

  lemma BitPrefix(ws: seq<Watch>, p: nat, f: bv32)
    requires ws != []
    ensures var n := |ws| - 1; BitAsked(ws, p, f) <==> BitAsked(ws[..n], p, f) || AsksBit(ws[n], p, f)
  {
    hide AsksBit;
    var n := |ws| - 1;
    if i :| 0 <= i < |ws| && AsksBit(ws[i], p, f) && i < n {
      assert AsksBit(ws[..n][i], p, f);
    }
  }

  ghost predicate Unique(ws: seq<Watch>) {
    forall i, j :: 0 <= i < j < |ws| ==> KeyOf(ws[i]) != KeyOf(ws[j])
  }

  // ------------------------------------------------------------ the union

  /** Index of the first watch with w's key, or the length. */
  function Find(ws: seq<Watch>, w: Watch): (k: nat)
    ensures k <= |ws|
    ensures k < |ws| ==> KeyOf(ws[k]) == KeyOf(w)
    ensures forall i :: 0 <= i < k ==> KeyOf(ws[i]) != KeyOf(w)
  {
    if ws == [] then 0 else if KeyOf(ws[0]) == KeyOf(w) then 0 else 1 + Find(ws[1..], w)
  }

  function OrMask(a: bv32, b: bv32): bv32 { a | b }

  function Merge(out: seq<Watch>, w: Watch): seq<Watch> {
    var k := Find(out, w);
    if k == |out| then out + [w]
    else if w.Parent? then out[k := Parent(w.pid, OrMask(out[k].mask, w.mask))]
    else out
  }

  function Union(ws: seq<Watch>): seq<Watch> {
    if ws == [] then [] else Merge(Union(ws[..|ws| - 1]), ws[|ws| - 1])
  }

  lemma {:induction false} MaskAbsent(ws: seq<Watch>, p: nat)
    requires Parent(p, 0) !in Keys(ws)
    ensures MaskFor(ws, p) == 0
  {
    if ws != [] {
      var n := |ws| - 1;
      assert KeyOf(ws[n]) in Keys(ws);
      forall k | k in Keys(ws[..n]) ensures k in Keys(ws) {}
      MaskAbsent(ws[..n], p);
    }
  }

  lemma {:induction false} MaskOfEntry(ws: seq<Watch>, i: nat)
    requires Unique(ws) && i < |ws| && ws[i].Parent?
    ensures MaskFor(ws, ws[i].pid) == ws[i].mask
  {
    var n := |ws| - 1;
    if i < n {
      assert KeyOf(ws[i]) != KeyOf(ws[n]);
      MaskOfEntry(ws[..n], i);
    } else {
      MaskAbsent(ws[..n], ws[n].pid);
      assert 0 | ws[n].mask == ws[n].mask;
    }
  }

  lemma MergeKeys(out: seq<Watch>, w: Watch)
    requires Unique(out)
    ensures Unique(Merge(out, w)) && Keys(Merge(out, w)) == Keys(out) + {KeyOf(w)}
  {
    var k, m := Find(out, w), Merge(out, w);
    if k == |out| {
      assert forall i :: 0 <= i < |out| ==> m[i] == out[i];
      assert m[|out|] == w;
      forall x ensures x in Keys(m) <==> x in Keys(out) + {KeyOf(w)} {
        if x in Keys(out) {
          var v :| v in out && KeyOf(v) == x;
          assert v in m;
        }
        if x == KeyOf(w) {
          assert w in m;
        }
      }
    } else {
      SameKeys(out, m);
      assert out[k] in out;
    }
  }

  lemma SameKeys(a: seq<Watch>, b: seq<Watch>)
    requires |a| == |b| && forall i :: 0 <= i < |a| ==> KeyOf(a[i]) == KeyOf(b[i])
    ensures Keys(a) == Keys(b)
  {
    forall x | x in Keys(a) ensures x in Keys(b) {
      var i :| 0 <= i < |a| && KeyOf(a[i]) == x;
      assert b[i] in b;
    }
    forall x | x in Keys(b) ensures x in Keys(a) {
      var i :| 0 <= i < |b| && KeyOf(b[i]) == x;
      assert a[i] in a;
    }
  }

  lemma MergeMask(out: seq<Watch>, w: Watch, p: nat)
    requires Unique(out)
    ensures MaskFor(Merge(out, w), p) ==
            if w.Parent? && w.pid == p then MaskFor(out, p) | w.mask else MaskFor(out, p)
  {
    hide MaskFor, Keys, Unique, Find;
    var k, m := Find(out, w), Merge(out, w);
    MergeKeys(out, w);
    if k == |out| {
      MaskSnoc(out, w, p);
    } else if w.Parent? {
      assert out[k].Parent? && out[k].pid == w.pid && m[k].pid == w.pid;
      if w.pid == p {
        MaskOfEntry(out, k);
        MaskOfEntry(m, k);
      } else {
        MaskElsewhere(out, k, m[k], p);
      }
    }
  }

  lemma MaskSnoc(ws: seq<Watch>, w: Watch, p: nat)
    ensures MaskFor(ws + [w], p) ==
            if w.Parent? && w.pid == p then MaskFor(ws, p) | w.mask else MaskFor(ws, p)
  {
    assert (ws + [w])[..|ws|] == ws;
  }

  lemma {:induction false} MaskElsewhere(ws: seq<Watch>, k: nat, w: Watch, p: nat)
    requires k < |ws| && ws[k].Parent? && w.Parent? && ws[k].pid == w.pid != p
    ensures MaskFor(ws[k := w], p) == MaskFor(ws, p)
  {
    hide MaskFor;
    var n := |ws| - 1;
    var init, v := ws[..n], ws[k := w];
    assert ws == init + [ws[n]];
    MaskSnoc(init, ws[n], p);
    if k < n {
      MaskElsewhere(init, k, w, p);
      assert v == init[k := w] + [ws[n]];
      MaskSnoc(init[k := w], ws[n], p);
    } else {
      assert v == init + [w];
      MaskSnoc(init, w, p);
    }
  }

  /** The union has each key once, exactly the keys asked for, and the masks ORed. */
  lemma {:induction false} UnionSpec(ws: seq<Watch>)
    ensures Unique(Union(ws)) && Keys(Union(ws)) == Keys(ws)
    ensures forall p :: MaskFor(Union(ws), p) == MaskFor(ws, p)
    ensures Union(ws) == [] <==> ws == []
  {
    if ws != [] {
      var n := |ws| - 1;
      var u := Union(ws[..n]);
      UnionSpec(ws[..n]);
      MergeKeys(u, ws[n]);
      forall p ensures MaskFor(Union(ws), p) == MaskFor(ws, p) {
        MergeMask(u, ws[n], p);
      }
      KeysSnoc(ws);
    }
  }

  lemma KeysSnoc(ws: seq<Watch>)
    requires ws != []
    ensures Keys(ws) == Keys(ws[..|ws| - 1]) + {KeyOf(ws[|ws| - 1])}
  {
    var n := |ws| - 1;
    assert ws == ws[..n] + [ws[n]];
    assert ws[n] in ws;
  }
}

module Backend {
  import opened Common
  import opened Watches

  const PARENT_MAX: nat := 64

  /** Which kernel programs are there: fixed while the service runs. */
  datatype Probes = Probes(schedExec: bool, mapReady: bool)

  /** The registration state of the eBPF backend. */
  datatype State = State(parents: map<nat, bv32>, traced: map<nat, bv32>, orphan: bool, attached: bool)

  predicate IsStdFd(fd: bv32) { fd == 1 || fd == 2 }

  /** Writes of process p to fd are captured; bit fd-1 of the mask has the value fd itself. */
  predicate Traced(b: State, p: nat, fd: bv32) {
    p in b.traced && b.traced[p] & fd != 0
  }

  function Entry(b: State, p: nat): bv32 {
    if p in b.traced then b.traced[p] else 0
  }

  function SetBit(mask: bv32, fd: bv32): bv32 { mask | fd }

  function ClearBit(mask: bv32, fd: bv32): bv32 { mask & !fd }

  /** The pid map without one bit; an empty entry is deleted. */
  function WithoutBit(traced: map<nat, bv32>, p: nat, fd: bv32): map<nat, bv32>
    requires p in traced
  {
    var mask := ClearBit(traced[p], fd);
    if mask == 0 then traced - {p} else traced[p := mask]
  }

  /** Taking a descriptor away takes just that bit of that process, and an entry left behind is not empty. */
  lemma BitTaken(traced: map<nat, bv32>, p: nat, fd: bv32, q: nat, f: bv32)
    requires p in traced && IsStdFd(fd) && IsStdFd(f)
    ensures
      var t := WithoutBit(traced, p, fd);
      && (q in t && HasBit(t[q], f) <==> q in traced && HasBit(traced[q], f) && !(q == p && f == fd))
      && (q != p ==> (q in t <==> q in traced)) && (p in t ==> t[p] != 0)
  {
  }

  /** Removing a watch.  Removing a parent flushes the whole pid map. */
  function Remove(probes: Probes, b: State, w: Watch): State {
    match w
    case Fd(p, fd) =>
      if !probes.mapReady || !IsStdFd(fd) || p !in b.traced then b
      else b.(traced := WithoutBit(b.traced, p, fd))
    case Parent(p, _) =>
      b.(parents := b.parents - {p}, traced := if probes.mapReady then map[] else b.traced)
    case Orphan => b.(orphan := false)
  }

  /** Adding a watch.  A parent overwrites its pid's map entry, even if its table has no room. */
  function Add(probes: Probes, attach: bool, b: State, w: Watch): (State, bool) {
    match w
    case Fd(p, fd) =>
      if !probes.mapReady || !IsStdFd(fd) then (b, false)
      else (b.(traced := b.traced[p := SetBit(Entry(b, p), fd)]), true)
    case Parent(p, mask) =>
      if !probes.schedExec then (b, false)
      else
        var b' := if probes.mapReady && mask != 0 then b.(traced := b.traced[p := mask]) else b;
        if p in b.parents || |b.parents| < PARENT_MAX
        then (b'.(parents := b.parents[p := mask]), true)
        else (b', false)
    case Orphan =>
      if !probes.schedExec || !(b.attached || attach) then (b, false)
      else (b.(orphan := true, attached := true), true)
  }

  /** First half of applying a union: what is no longer wanted goes. */
  function Removals(probes: Probes, b: State, old': seq<Watch>, next: seq<Watch>): State {
    if old' == [] then b
    else
      var n := |old'| - 1;
      var b' := Removals(probes, b, old'[..n], next);
      if KeyOf(old'[n]) in Keys(next) then b' else Remove(probes, b', old'[n])
  }

  /** Second half: everything wanted is applied again, up to the first failure. */
  function Reapply(probes: Probes, attach: bool, b: State, next: seq<Watch>): (State, bool) {
    if next == [] then (b, true)
    else
      var n := |next| - 1;
      var (b', ok) := Reapply(probes, attach, b, next[..n]);
      if ok then Add(probes, attach, b', next[n]) else (b', false)
  }

  function Apply(probes: Probes, attach: bool, b: State, old': seq<Watch>, next: seq<Watch>): (State, bool) {
    if next != [] && !b.attached && !attach then (b, false)
    else
      var b' := if next != [] then b.(attached := true) else b;
      Reapply(probes, attach, Removals(probes, b', old', next), next)
  }

  // ------------------------------------------------------------ what the states mean

  function Pids(keys: set<Watch>): set<nat> {
    set w | w in keys && w.Parent? :: w.pid
  }

  /** The backend can carry this watch at all. */
  predicate Applicable(probes: Probes, w: Watch) {
    if w.Fd? then probes.mapReady && IsStdFd(w.fd) else probes.schedExec
  }

  ghost predicate Sane(probes: Probes, b: State) {
    |b.parents| <= PARENT_MAX && (probes.mapReady || b.traced == map[])
  }

  /** The backend holds exactly what the watches ask for. */
  ghost predicate Matches(probes: Probes, b: State, ws: seq<Watch>) {
    var keys := Keys(ws);
    && Sane(probes, b)
    && (forall w :: w in ws ==> Applicable(probes, w))
    && (ws != [] ==> b.attached)
    && ParentsMatch(b, ws)
    && (b.orphan <==> Orphan in keys)
    && (forall p, f :: IsStdFd(f) ==> TracedRight(probes, b, ws, p, f))
  }

  ghost predicate ParentsMatch(b: State, ws: seq<Watch>) {
    && (forall p :: p in b.parents <==> Parent(p, 0) in Keys(ws))
    && (forall p :: p in b.parents ==> b.parents[p] == MaskFor(ws, p))
  }

  /** For a pid that is no watched parent the map is exact.  For a watched parent it holds
      the mask, and nothing beyond the mask and the single descriptors asked for. */
  ghost predicate TracedRight(probes: Probes, b: State, ws: seq<Watch>, p: nat, f: bv32) {
    if Parent(p, 0) in Keys(ws) then
      && (probes.mapReady && MaskFor(ws, p) & f != 0 ==> Traced(b, p, f))
      && (Traced(b, p, f) ==> MaskFor(ws, p) & f != 0 || Fd(p, f) in Keys(ws))
    else
      Traced(b, p, f) <==> Fd(p, f) in Keys(ws)
  }

  /** Nothing in the backend lies outside the given keys. */
  ghost predicate Covered(probes: Probes, b: State, keys: set<Watch>) {
    && Sane(probes, b)
    && (forall p :: p in b.parents ==> Parent(p, 0) in keys)
    && (b.orphan ==> Orphan in keys)
    && (forall p, f :: IsStdFd(f) && Traced(b, p, f) && Parent(p, 0) !in keys ==> Fd(p, f) in keys)
  }

  lemma MatchesIsCovered(probes: Probes, b: State, ws: seq<Watch>, keys: set<Watch>)
    requires Matches(probes, b, ws) && Keys(ws) <= keys
    ensures Covered(probes, b, keys)
  {
    forall p, f | IsStdFd(f) && Traced(b, p, f) && Parent(p, 0) !in keys ensures Fd(p, f) in keys {
      assert TracedRight(probes, b, ws, p, f);
    }
  }

  // ------------------------------------------------------------ single steps

  lemma RemoveCovered(probes: Probes, b: State, w: Watch, keys: set<Watch>)
    requires Covered(probes, b, keys)
    ensures Covered(probes, Remove(probes, b, w), keys)
    ensures forall p, f :: Traced(Remove(probes, b, w), p, f) ==> Traced(b, p, f)
  {
    var b' := Remove(probes, b, w);
    if w.Parent? {
      FewerKeys(b.parents, w.pid);
    }
    forall p, f | Traced(b', p, f) ensures Traced(b, p, f) {
      if w.Fd? && p == w.pid && p in b.traced && b' != b {
        ClearedBit(b.traced[p], w.fd, f);
      }
    }
  }

  lemma FewerKeys(m: map<nat, bv32>, p: nat)
    ensures |m - {p}| <= |m|
  {
    var m' := m - {p};
    assert m'.Keys == m.Keys - {p};
    if p in m {
      assert |m'.Keys| == |m.Keys| - 1;
    } else {
      assert m'.Keys == m.Keys;
    }
  }

  lemma ClearedBit(mask: bv32, fd: bv32, f: bv32)
    ensures mask & !fd & f != 0 ==> mask & f != 0
    ensures mask & !fd & fd == 0
  {
  }

  lemma AddedBit(mask: bv32, fd: bv32, f: bv32)
    requires IsStdFd(fd) && IsStdFd(f)
    ensures (mask | fd) & f != 0 <==> mask & f != 0 || f == fd
  {
  }

  lemma AddCovered(probes: Probes, attach: bool, b: State, w: Watch, keys: set<Watch>)
    requires Covered(probes, b, keys) && KeyOf(w) in keys
    ensures Covered(probes, Add(probes, attach, b, w).0, keys)
  {
    var b' := Add(probes, attach, b, w).0;
    forall p, f | IsStdFd(f) && Traced(b', p, f) && Parent(p, 0) !in keys ensures Fd(p, f) in keys {
      if w.Fd? && p == w.pid && b' != b {
        AddedBit(Entry(b, p), w.fd, f);
      }
    }
  }

  lemma {:induction false} RemovalsCovered(probes: Probes, b: State, old': seq<Watch>, next: seq<Watch>, keys: set<Watch>)
    requires Covered(probes, b, keys)
    ensures Covered(probes, Removals(probes, b, old', next), keys)
  {
    hide Covered, Remove;
    if old' != [] {
      var n := |old'| - 1;
      RemovalsCovered(probes, b, old'[..n], next, keys);
      RemoveCovered(probes, Removals(probes, b, old'[..n], next), old'[n], keys);
    }
  }

  lemma {:induction false} ReapplyCovered(probes: Probes, attach: bool, b: State, next: seq<Watch>, keys: set<Watch>)
    requires Covered(probes, b, keys) && Keys(next) <= keys
    ensures Covered(probes, Reapply(probes, attach, b, next).0, keys)
  {
    hide Covered, Add;
    if next != [] {
      var n := |next| - 1;
      KeysSnoc(next);
      ReapplyCovered(probes, attach, b, next[..n], keys);
      AddCovered(probes, attach, Reapply(probes, attach, b, next[..n]).0, next[n], keys);
    }
  }

  /** Whatever happens, applying a union leaves nothing outside the two unions. */
  lemma ApplyCovered(probes: Probes, attach: bool, b: State, old': seq<Watch>, next: seq<Watch>, keys: set<Watch>)
    requires Covered(probes, b, keys) && Keys(next) <= keys
    ensures Covered(probes, Apply(probes, attach, b, old', next).0, keys)
  {
    var b' := if next != [] then b.(attached := true) else b;
    RemovalsCovered(probes, b', old', next, keys);
    ReapplyCovered(probes, attach, Removals(probes, b', old', next), next, keys);
  }

  // ------------------------------------------------------------ removing

  lemma {:induction false} RemovalsSpec(probes: Probes, b: State, old': seq<Watch>, next: seq<Watch>)
    requires Sane(probes, b)
    ensures
      var r, gone := Removals(probes, b, old', next), Keys(old') - Keys(next);
      && r.attached == b.attached
      && Sane(probes, r)
      && (forall p :: p in r.parents ==> p in b.parents && Parent(p, 0) !in gone)
      && (r.orphan ==> b.orphan && Orphan !in gone)
      && (forall p, f :: IsStdFd(f) && Traced(r, p, f) ==>
            Traced(b, p, f) && Fd(p, f) !in gone && Pids(gone) == {})
  {
    if old' != [] {
      hide Sane;
      var n := |old'| - 1;
      RemovalsSpec(probes, b, old'[..n], next);
      KeysSnoc(old');
      var r, w := Removals(probes, b, old'[..n], next), old'[n];
      var gone := Keys(old'[..n]) - Keys(next);
      if KeyOf(w) in Keys(next) {
        assert Keys(old') - Keys(next) == gone;
      } else {
        assert Keys(old') - Keys(next) == gone + {KeyOf(w)};
        RemoveStep(probes, r, w, gone);
      }
    }
  }

  lemma RemoveStep(probes: Probes, b: State, w: Watch, gone: set<Watch>)
    requires Sane(probes, b)
    requires forall p, f :: IsStdFd(f) && Traced(b, p, f) ==> Fd(p, f) !in gone && Pids(gone) == {}
    ensures
      var r := Remove(probes, b, w);
      && r.attached == b.attached && Sane(probes, r)
      && (forall p :: p in r.parents ==> p in b.parents && Parent(p, 0) != KeyOf(w))
      && (r.orphan ==> b.orphan && !w.Orphan?)
      && (forall p, f :: IsStdFd(f) && Traced(r, p, f) ==>
            Traced(b, p, f) && Fd(p, f) !in gone + {KeyOf(w)} && Pids(gone + {KeyOf(w)}) == {})
  {
    var r := Remove(probes, b, w);
    FewerKeysAll(b, w);
    PidsAdd(gone, KeyOf(w));
    if !w.Parent? {
      forall p, f | IsStdFd(f) && Traced(r, p, f) ensures Traced(b, p, f) && Fd(p, f) !in gone + {KeyOf(w)} {
        RemoveTraced(probes, b, w, p, f);
      }
    }
  }

  lemma RemoveTraced(probes: Probes, b: State, w: Watch, p: nat, f: bv32)
    requires IsStdFd(f) && !w.Parent? && (probes.mapReady || b.traced == map[])
    requires Traced(Remove(probes, b, w), p, f)
    ensures Traced(b, p, f) && w != Fd(p, f)
  {
    if w.Fd? && p == w.pid && IsStdFd(w.fd) && p in b.traced {
      ClearedBit(b.traced[p], w.fd, f);
    }
  }

  lemma FewerKeysAll(b: State, w: Watch)
    ensures w.Parent? ==> |b.parents - {w.pid}| <= |b.parents|
  {
    if w.Parent? {
      FewerKeys(b.parents, w.pid);
    }
  }

  /** After the removals nothing is left that the new union does not want. */
  lemma RemovalsCover(probes: Probes, b: State, old': seq<Watch>, next: seq<Watch>)
    requires Covered(probes, b, Keys(old') + Keys(next))
    ensures Covered(probes, Removals(probes, b, old', next), Keys(next))
    ensures Removals(probes, b, old', next).attached == b.attached
  {
    hide Removals, Keys;
    RemovalsSpec(probes, b, old', next);
    var r, gone := Removals(probes, b, old', next), Keys(old') - Keys(next);
    forall p, f | IsStdFd(f) && Traced(r, p, f) && Parent(p, 0) !in Keys(next) ensures Fd(p, f) in Keys(next) {
      assert Parent(p, 0) in gone ==> p in Pids(gone);
    }
  }

  // ------------------------------------------------------------ applying again

  /** No mask is empty. */
  ghost predicate Masked(ws: seq<Watch>) {
    forall i :: 0 <= i < |ws| && ws[i].Parent? ==> ws[i].mask != 0
  }

  ghost predicate AllApplicable(probes: Probes, ws: seq<Watch>) {
    forall i :: 0 <= i < |ws| ==> Applicable(probes, ws[i])
  }

  /** The state r is b with the watches applied. */
  ghost predicate Applied(probes: Probes, b: State, r: State, ws: seq<Watch>) {
    && Sane(probes, r) && r.attached
    && r.parents.Keys == b.parents.Keys + Pids(Keys(ws))
    && (forall p :: Parent(p, 0) in Keys(ws) ==> p in r.parents && r.parents[p] == MaskFor(ws, p))
    && (r.orphan <==> b.orphan || Orphan in Keys(ws))
    && (forall p, f :: IsStdFd(f) ==> AppliedAt(probes, b, r, ws, p, f))
  }

  ghost predicate AppliedAt(probes: Probes, b: State, r: State, ws: seq<Watch>, p: nat, f: bv32) {
    if Parent(p, 0) in Keys(ws) then
      && (probes.mapReady && MaskFor(ws, p) & f != 0 ==> Traced(r, p, f))
      && (Traced(r, p, f) ==> MaskFor(ws, p) & f != 0 || Fd(p, f) in Keys(ws))
    else
      Traced(r, p, f) <==> Traced(b, p, f) || Fd(p, f) in Keys(ws)
  }

  lemma {:induction false} ReapplySpec(probes: Probes, attach: bool, b: State, next: seq<Watch>)
    requires Sane(probes, b) && b.attached && Unique(next) && Masked(next)
    ensures
      var (r, ok) := Reapply(probes, attach, b, next);
      && (ok <==> AllApplicable(probes, next) && |b.parents.Keys + Pids(Keys(next))| <= PARENT_MAX)
      && (ok ==> Applied(probes, b, r, next))
  {
    hide Applied, Add, Unique, Masked, Keys, Pids, AllApplicable;
    if next == [] {
      AppliedNothing(probes, b);
    } else {
      var n := |next| - 1;
      var ws, w := next[..n], next[n];
      assert next == ws + [w];
      PrefixOk(next);
      ReapplySpec(probes, attach, b, ws);
      ApplicableSnoc(probes, next);
      KeysAppend(ws, w);
      SubsetSize(b.parents.Keys + Pids(Keys(ws)), b.parents.Keys + Pids(Keys(next)));
      var (r, ok) := Reapply(probes, attach, b, ws);
      if ok {
        AddStep(probes, attach, b, r, ws, w);
      }
    }
  }

  lemma AppliedNothing(probes: Probes, b: State)
    requires Sane(probes, b) && b.attached
    ensures Applied(probes, b, b, []) && AllApplicable(probes, []) && |b.parents.Keys + Pids(Keys([]))| <= PARENT_MAX
  {
    assert Pids(Keys([])) == {};
    assert b.parents.Keys + {} == b.parents.Keys;
    assert |b.parents| == |b.parents.Keys|;
  }

  lemma AddStep(probes: Probes, attach: bool, b: State, r: State, ws: seq<Watch>, w: Watch)
    requires Applied(probes, b, r, ws) && KeyOf(w) !in Keys(ws) && (w.Parent? ==> w.mask != 0)
    ensures
      var (r', ok) := Add(probes, attach, r, w);
      && (ok <==> Applicable(probes, w) && |b.parents.Keys + Pids(Keys(ws + [w]))| <= PARENT_MAX)
      && (ok ==> Applied(probes, b, r', ws + [w]))
  {
    hide Applied, Add;
    KeysAppend(ws, w);
    AddRoom(probes, attach, b, r, ws, w);
    var (r', ok) := Add(probes, attach, r, w);
    if ok {
      AddParents(probes, attach, b, r, ws, w);
      forall p, f | IsStdFd(f) ensures AppliedAt(probes, b, r', ws + [w], p, f) {
        AddTraced(probes, attach, b, r, ws, w, p, f);
      }
      AppliedNext(probes, attach, b, r, ws, w);
    }
  }

  lemma KeysAppend(ws: seq<Watch>, w: Watch)
    ensures Keys(ws + [w]) == Keys(ws) + {KeyOf(w)}
    ensures Pids(Keys(ws + [w])) == if w.Parent? then Pids(Keys(ws)) + {w.pid} else Pids(Keys(ws))
  {
    KeysSnoc(ws + [w]);
    assert (ws + [w])[..|ws|] == ws;
    PidsAdd(Keys(ws), KeyOf(w));
  }

  lemma PidsAdd(keys: set<Watch>, k: Watch)
    ensures Pids(keys + {k}) == if k.Parent? then Pids(keys) + {k.pid} else Pids(keys)
  {
    forall p ensures p in Pids(keys + {k}) <==> p in Pids(keys) || (k.Parent? && p == k.pid) {
      if p in Pids(keys) {
        var w :| w in keys && w.Parent? && w.pid == p;
        assert w in keys + {k};
      }
      if k.Parent? {
        assert k in keys + {k};
      }
    }
  }

  /** A parent not yet in the table needs a free place; everything else needs none. */
  lemma AddRoom(probes: Probes, attach: bool, b: State, r: State, ws: seq<Watch>, w: Watch)
    requires Applied(probes, b, r, ws)
    ensures
      Add(probes, attach, r, w).1 <==>
      Applicable(probes, w) && |b.parents.Keys + Pids(Keys(ws + [w]))| <= PARENT_MAX
  {
    hide Applied, Keys, Pids;
    KeysAppend(ws, w);
    AppliedKeys(probes, b, r, ws);
    var all := b.parents.Keys + Pids(Keys(ws));
    if w.Parent? {
      assert b.parents.Keys + Pids(Keys(ws + [w])) == all + {w.pid};
      OneMore(all, w.pid);
    }
  }

  lemma OneMore(s: set<nat>, p: nat)
    ensures |s + {p}| == if p in s then |s| else |s| + 1
  {
    if p in s {
      assert s + {p} == s;
    }
  }

  lemma AppliedKeys(probes: Probes, b: State, r: State, ws: seq<Watch>)
    requires Applied(probes, b, r, ws)
    ensures r.parents.Keys == b.parents.Keys + Pids(Keys(ws)) && |r.parents| == |b.parents.Keys + Pids(Keys(ws))|
    ensures Sane(probes, r) && r.attached && (r.orphan <==> b.orphan || Orphan in Keys(ws))
  {
    hide AppliedAt, Keys, Pids;
    assert |r.parents| == |r.parents.Keys|;
  }

  lemma AppliedMask(probes: Probes, b: State, r: State, ws: seq<Watch>, p: nat)
    requires Applied(probes, b, r, ws) && Parent(p, 0) in Keys(ws)
    ensures p in r.parents && r.parents[p] == MaskFor(ws, p)
  {
    hide AppliedAt, Keys, Pids, MaskFor;
  }

  lemma AppliedPoint(probes: Probes, b: State, r: State, ws: seq<Watch>, p: nat, f: bv32)
    requires Applied(probes, b, r, ws) && IsStdFd(f)
    ensures AppliedAt(probes, b, r, ws, p, f) && (probes.mapReady || r.traced == map[])
  {
    hide AppliedAt, Keys, Pids, MaskFor;
  }

  lemma AddParents(probes: Probes, attach: bool, b: State, r: State, ws: seq<Watch>, w: Watch)
    requires Applied(probes, b, r, ws) && KeyOf(w) !in Keys(ws) && Add(probes, attach, r, w).1
    ensures
      var r' := Add(probes, attach, r, w).0;
      && Sane(probes, r') && r'.attached
      && r'.parents.Keys == b.parents.Keys + Pids(Keys(ws + [w]))
      && (forall p :: Parent(p, 0) in Keys(ws + [w]) ==> p in r'.parents && r'.parents[p] == MaskFor(ws + [w], p))
      && (r'.orphan <==> b.orphan || Orphan in Keys(ws + [w]))
  {
    hide Applied, Keys, MaskFor, Pids, Add, Sane;
    KeysAppend(ws, w);
    AppliedKeys(probes, b, r, ws);
    ParentsAfterAdd(probes, attach, r, w);
    AddSane(probes, attach, b, r, ws, w);
    var r' := Add(probes, attach, r, w).0;
    forall p | Parent(p, 0) in Keys(ws + [w]) ensures p in r'.parents && r'.parents[p] == MaskFor(ws + [w], p) {
      AddMask(probes, attach, b, r, ws, w, p);
    }
  }

  lemma AddSane(probes: Probes, attach: bool, b: State, r: State, ws: seq<Watch>, w: Watch)
    requires Applied(probes, b, r, ws) && Add(probes, attach, r, w).1
    ensures Sane(probes, Add(probes, attach, r, w).0)
    ensures Add(probes, attach, r, w).0.parents.Keys == b.parents.Keys + Pids(Keys(ws + [w]))
  {
    hide Applied, Keys, Pids, Add, Sane;
    KeysAppend(ws, w);
    AppliedKeys(probes, b, r, ws);
    StaysSane(probes, attach, r, w);
    ParentsAfterAdd(probes, attach, r, w);
    if w.Parent? {
      UpdatedKeys(r.parents, w.pid, w.mask);
      assert (b.parents.Keys + Pids(Keys(ws))) + {w.pid} == b.parents.Keys + (Pids(Keys(ws)) + {w.pid});
    }
  }

  lemma UpdatedKeys(m: map<nat, bv32>, p: nat, v: bv32)
    ensures m[p := v].Keys == m.Keys + {p}
    ensures |m[p := v]| == if p in m then |m| else |m| + 1
  {
    OneMore(m.Keys, p);
    assert |m[p := v]| == |m[p := v].Keys| && |m| == |m.Keys|;
  }

  lemma StaysSane(probes: Probes, attach: bool, r: State, w: Watch)
    requires Sane(probes, r)
    ensures Sane(probes, Add(probes, attach, r, w).0)
  {
    if w.Parent? {
      UpdatedKeys(r.parents, w.pid, w.mask);
    }
  }

  lemma AddMask(probes: Probes, attach: bool, b: State, r: State, ws: seq<Watch>, w: Watch, p: nat)
    requires Applied(probes, b, r, ws) && KeyOf(w) !in Keys(ws) && Add(probes, attach, r, w).1
    requires Parent(p, 0) in Keys(ws + [w])
    ensures var r' := Add(probes, attach, r, w).0; p in r'.parents && r'.parents[p] == MaskFor(ws + [w], p)
  {
    hide Applied, Keys, MaskFor, Pids, Add;
    KeysAppend(ws, w);
    ParentsAfterAdd(probes, attach, r, w);
    MaskSnoc(ws, w, p);
    if w.Parent? && p == w.pid {
      MaskAbsent(ws, p);
      ZeroOr(w.mask);
    } else {
      AppliedMask(probes, b, r, ws, p);
    }
  }

  lemma ParentsAfterAdd(probes: Probes, attach: bool, r: State, w: Watch)
    requires Add(probes, attach, r, w).1
    ensures
      var r' := Add(probes, attach, r, w).0;
      && r'.parents == (if w.Parent? then r.parents[w.pid := w.mask] else r.parents)
      && (r'.orphan <==> r.orphan || w.Orphan?)
      && (r.attached ==> r'.attached)
      && (!probes.mapReady ==> r'.traced == r.traced)
  {
  }

  lemma ZeroOr(m: bv32)
    ensures 0 | m == m && 0 & m == 0
  {
  }

  lemma AddTraced(probes: Probes, attach: bool, b: State, r: State, ws: seq<Watch>, w: Watch, p: nat, f: bv32)
    requires Applied(probes, b, r, ws) && KeyOf(w) !in Keys(ws) && (w.Parent? ==> w.mask != 0)
    requires IsStdFd(f) && Add(probes, attach, r, w).1
    ensures AppliedAt(probes, b, Add(probes, attach, r, w).0, ws + [w], p, f)
  {
    hide Applied, Keys, MaskFor, Pids, Add, Traced;
    KeysAppend(ws, w);
    MaskSnoc(ws, w, p);
    AppliedPoint(probes, b, r, ws, p, f);
    TracedAfterAdd(probes, attach, r, w, p, f);
    if w.Parent? && p == w.pid {
      MaskAbsent(ws, p);
      ZeroOr(w.mask);
    }
  }

  /** What one addition does to one bit of the pid map. */
  lemma TracedAfterAdd(probes: Probes, attach: bool, r: State, w: Watch, p: nat, f: bv32)
    requires IsStdFd(f) && Add(probes, attach, r, w).1 && (w.Parent? ==> w.mask != 0)
    ensures
      Traced(Add(probes, attach, r, w).0, p, f) <==>
      match w
      case Fd(q, fd) => Traced(r, p, f) || (p == q && f == fd)
      case Parent(q, mask) => if p == q && probes.mapReady then HasBit(mask, f) else Traced(r, p, f)
      case Orphan => Traced(r, p, f)
    ensures !probes.mapReady && r.traced == map[] ==> !Traced(r, p, f)
  {
    if w.Fd? && p == w.pid {
      AddedBit(Entry(r, p), w.fd, f);
      ZeroOr(f);
    }
  }

  lemma AppliedNext(probes: Probes, attach: bool, b: State, r: State, ws: seq<Watch>, w: Watch)
    requires
      var r' := Add(probes, attach, r, w).0;
      && Sane(probes, r') && r'.attached
      && r'.parents.Keys == b.parents.Keys + Pids(Keys(ws + [w]))
      && (forall p :: Parent(p, 0) in Keys(ws + [w]) ==> p in r'.parents && r'.parents[p] == MaskFor(ws + [w], p))
      && (r'.orphan <==> b.orphan || Orphan in Keys(ws + [w]))
      && (forall p, f :: IsStdFd(f) ==> AppliedAt(probes, b, r', ws + [w], p, f))
    ensures Applied(probes, b, Add(probes, attach, r, w).0, ws + [w])
  {
    hide Add, Keys, MaskFor, AppliedAt;
  }

  lemma PrefixOk(ws: seq<Watch>)
    requires ws != [] && Unique(ws) && Masked(ws)
    ensures Unique(ws[..|ws| - 1]) && Masked(ws[..|ws| - 1])
    ensures KeyOf(ws[|ws| - 1]) !in Keys(ws[..|ws| - 1])
    ensures ws[|ws| - 1].Parent? ==> ws[|ws| - 1].mask != 0
  {
  }

  lemma ApplicableSnoc(probes: Probes, ws: seq<Watch>)
    requires ws != []
    ensures AllApplicable(probes, ws) <==>
            AllApplicable(probes, ws[..|ws| - 1]) && Applicable(probes, ws[|ws| - 1])
  {
    hide Applicable;
    var n := |ws| - 1;
    if AllApplicable(probes, ws[..n]) && Applicable(probes, ws[n]) {
      forall i | 0 <= i < |ws| ensures Applicable(probes, ws[i]) {
        if i < n {
          assert ws[..n][i] == ws[i];
        }
      }
    }
    if AllApplicable(probes, ws) {
      forall i | 0 <= i < n ensures Applicable(probes, ws[..n][i]) {
        assert ws[..n][i] == ws[i];
      }
    }
  }

  // ------------------------------------------------------------ the whole application

  /** The watches the backend can hold together. */
  ghost predicate Feasible(probes: Probes, ws: seq<Watch>) {
    AllApplicable(probes, ws) && |Pids(Keys(ws))| <= PARENT_MAX
  }

  /** Applying a union succeeds exactly when the backend can hold it and the write probe
      is attached; then the backend holds exactly that union. */
  lemma ApplySpec(probes: Probes, attach: bool, b: State, old': seq<Watch>, next: seq<Watch>)
    requires Covered(probes, b, Keys(old') + Keys(next)) && Unique(next) && Masked(next)
    ensures
      var (r, ok) := Apply(probes, attach, b, old', next);
      && (ok <==> (next == [] || b.attached || attach) && Feasible(probes, next))
      && (ok ==> Matches(probes, r, next))
  {
    if next == [] || b.attached || attach {
      var b' := if next != [] then b.(attached := true) else b;
      assert Covered(probes, b', Keys(old') + Keys(next));
      RemovalsCover(probes, b', old', next);
      var c := Removals(probes, b', old', next);
      if next == [] {
        NothingLeft(probes, c);
      } else {
        ReapplySpec(probes, attach, c, next);
        CoveredPids(probes, c, Keys(next));
        var (r, ok) := Reapply(probes, attach, c, next);
        if ok {
          AppliedMatches(probes, c, r, next);
        }
      }
    }
  }

  lemma NothingLeft(probes: Probes, c: State)
    requires Covered(probes, c, Keys([]))
    ensures Matches(probes, c, []) && Feasible(probes, [])
  {
    assert Pids(Keys([])) == {};
  }

  lemma CoveredPids(probes: Probes, c: State, keys: set<Watch>)
    requires Covered(probes, c, keys)
    ensures c.parents.Keys + Pids(keys) == Pids(keys)
  {
    forall p | p in c.parents ensures p in Pids(keys) {
      assert Parent(p, 0) in keys;
    }
  }

  lemma PidsOfKeys(ws: seq<Watch>, p: nat)
    ensures p in Pids(Keys(ws)) <==> Parent(p, 0) in Keys(ws)
  {
    if Parent(p, 0) in Keys(ws) {
      assert Parent(p, 0).Parent?;
    }
  }

  lemma AppliedMatches(probes: Probes, c: State, r: State, ws: seq<Watch>)
    requires Covered(probes, c, Keys(ws)) && Applied(probes, c, r, ws) && AllApplicable(probes, ws)
    ensures Matches(probes, r, ws)
  {
    hide Keys, MaskFor;
    CoveredPids(probes, c, Keys(ws));
    forall p ensures p in r.parents <==> Parent(p, 0) in Keys(ws) {
      PidsOfKeys(ws, p);
    }
    forall p, f | IsStdFd(f) ensures TracedRight(probes, r, ws, p, f) {
      assert AppliedAt(probes, c, r, ws, p, f);
    }
  }

  // ------------------------------------------------------------ a parent overwrites its entry

  /** A single descriptor asked for a pid that is also a watched parent can be lost. */
  lemma FdLost(probes: Probes)
    requires probes.schedExec && probes.mapReady
    ensures
      var b := State(map[], map[], false, true);
      var (r, ok) := Reapply(probes, true, b, [Fd(7, 1), Parent(7, 2)]);
      ok && !Traced(r, 7, 1)
  {
    var b := State(map[], map[], false, true);
    assert [Fd(7, 1), Parent(7, 2)][..1] == [Fd(7, 1)] && [Fd(7, 1)][..0] == [];
    assert Reapply(probes, true, b, []) == (b, true);
    assert Reapply(probes, true, b, [Fd(7, 1)]) == Add(probes, true, b, Fd(7, 1));
    var c := Add(probes, true, b, Fd(7, 1)).0;
    assert Reapply(probes, true, b, [Fd(7, 1), Parent(7, 2)]) == Add(probes, true, c, Parent(7, 2));
    assert 2 as bv32 & 1 == 0;
  }

  ghost predicate AfterParent(ws: seq<Watch>, k: nat, w: Watch) {
    exists i :: k < i < |ws| && ws[i] == w
  }

  lemma AfterSnoc(ws: seq<Watch>, k: nat, w: Watch)
    requires k < |ws| - 1
    ensures var n := |ws| - 1; AfterParent(ws, k, w) <==> AfterParent(ws[..n], k, w) || ws[n] == w
  {
    var n := |ws| - 1;
    if AfterParent(ws[..n], k, w) {
      var i :| k < i < n && ws[..n][i] == w;
      assert ws[i] == w;
    }
    if AfterParent(ws, k, w) && ws[n] != w {
      var i :| k < i < |ws| && ws[i] == w;
      assert ws[..n][i] == w;
    }
  }

  lemma ReapplySnoc(probes: Probes, attach: bool, b: State, ws: seq<Watch>)
    requires ws != [] && Reapply(probes, attach, b, ws).1
    ensures
      var r := Reapply(probes, attach, b, ws[..|ws| - 1]);
      r.1 && Reapply(probes, attach, b, ws) == Add(probes, attach, r.0, ws[|ws| - 1])
  {
    hide Add;
  }

  lemma BitAfterAdd(probes: Probes, attach: bool, r: State, w: Watch, p: nat, f: bv32)
    requires IsStdFd(f) && probes.mapReady && Add(probes, attach, r, w).1 && (w.Parent? ==> w.mask != 0)
    ensures
      Traced(Add(probes, attach, r, w).0, p, f) <==>
      if w.Parent? && w.pid == p then HasBit(w.mask, f) else Traced(r, p, f) || w == Fd(p, f)
  {
    hide Add, Traced, HasBit;
    TracedAfterAdd(probes, attach, r, w, p, f);
  }

  /** It is kept exactly if the mask has it or it comes after the parent in the union. */
  lemma {:induction false} TracedExactly(probes: Probes, attach: bool, b: State, ws: seq<Watch>, k: nat, f: bv32)
    requires Sane(probes, b) && b.attached && Unique(ws) && Masked(ws) && probes.mapReady && IsStdFd(f)
    requires k < |ws| && ws[k].Parent? && Reapply(probes, attach, b, ws).1
    ensures Traced(Reapply(probes, attach, b, ws).0, ws[k].pid, f) <==>
            HasBit(ws[k].mask, f) || AfterParent(ws, k, Fd(ws[k].pid, f))
  {
    hide Add, Masked, Unique, Traced, Reapply, Sane, HasBit;
    var n := |ws| - 1;
    PrefixOk(ws);
    var p, init := ws[k].pid, ws[..n];
    ReapplySnoc(probes, attach, b, ws);
    BitAfterAdd(probes, attach, Reapply(probes, attach, b, init).0, ws[n], p, f);
    if k < n {
      TracedExactly(probes, attach, b, init, k, f);
      OneParent(ws, k, n);
      AfterSnoc(ws, k, Fd(p, f));
    }
  }

  lemma OneParent(ws: seq<Watch>, k: nat, n: nat)
    requires Unique(ws) && k < n < |ws| && ws[k].Parent?
    ensures ws[n].Parent? ==> ws[n].pid != ws[k].pid
  {
  }
}
