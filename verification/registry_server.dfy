/**
 The registration code as the server runs it: owner slots, the backend's parent table and
 its pid map are updated in place, and every operation does what its specification says.
 */
module RegistryServer {
  import opened Watches
  import B = Backend
  import R = Registry

  // ------------------------------------------------------------ the parent table as a map

  ghost predicate Distinct(pids: seq<nat>) {
    forall i, j :: 0 <= i < j < |pids| ==> pids[i] != pids[j]
  }

  function Index(pids: seq<nat>, p: nat): (i: nat)
    requires p in pids
    ensures i < |pids| && pids[i] == p
  {
    if pids[0] == p then 0 else 1 + Index(pids[1..], p)
  }

  ghost function TableMap(pids: seq<nat>, masks: seq<bv32>): (m: map<nat, bv32>)
    requires |pids| == |masks|
    ensures forall p :: p in m <==> p in pids
  {
    map p | p in pids :: masks[Index(pids, p)]
  }

  lemma TableMapAt(pids: seq<nat>, masks: seq<bv32>, i: nat)
    requires |pids| == |masks| && Distinct(pids) && i < |pids|
    ensures TableMap(pids, masks)[pids[i]] == masks[i]
  {
    assert Index(pids, pids[i]) == i;
  }

  /** A map is the table's if it has the table's pids with the table's masks. */
  lemma IsTableMap(pids: seq<nat>, masks: seq<bv32>, m: map<nat, bv32>)
    requires |pids| == |masks| && Distinct(pids)
    requires forall p :: p in m <==> p in pids
    requires forall i :: 0 <= i < |pids| ==> pids[i] in m && m[pids[i]] == masks[i]
    ensures TableMap(pids, masks) == m
  {
    forall p | p in pids ensures TableMap(pids, masks)[p] == m[p] {
      TableMapAt(pids, masks, Index(pids, p));
    }
  }

  ghost function PidSet(pids: seq<nat>): set<nat> {
    set p | p in pids
  }

  lemma {:induction false} TableMapSize(pids: seq<nat>, masks: seq<bv32>)
    requires |pids| == |masks| && Distinct(pids)
    ensures |TableMap(pids, masks)| == |pids|
  {
    assert TableMap(pids, masks).Keys == PidSet(pids);
    DistinctSize(pids);
    assert |TableMap(pids, masks)| == |TableMap(pids, masks).Keys|;
  }

  lemma {:induction false} DistinctSize(pids: seq<nat>)
    requires Distinct(pids)
    ensures |PidSet(pids)| == |pids|
  {
    if pids != [] {
      var n := |pids| - 1;
      DistinctSize(pids[..n]);
      assert pids == pids[..n] + [pids[n]];
      assert PidSet(pids) == PidSet(pids[..n]) + {pids[n]};
      assert pids[n] !in pids[..n];
    }
  }

  lemma TableAppend(pids: seq<nat>, masks: seq<bv32>, p: nat, mask: bv32)
    requires |pids| == |masks| && Distinct(pids) && p !in pids
    ensures Distinct(pids + [p]) && TableMap(pids + [p], masks + [mask]) == TableMap(pids, masks)[p := mask]
  {
    var q, m := pids + [p], masks + [mask];
    forall i | 0 <= i < |q| ensures q[i] in TableMap(pids, masks)[p := mask] && TableMap(pids, masks)[p := mask][q[i]] == m[i] {
      if i < |pids| {
        TableMapAt(pids, masks, i);
      }
    }
    IsTableMap(q, m, TableMap(pids, masks)[p := mask]);
  }

  lemma TableUpdate(pids: seq<nat>, masks: seq<bv32>, k: nat, mask: bv32)
    requires |pids| == |masks| && Distinct(pids) && k < |pids|
    ensures TableMap(pids, masks[k := mask]) == TableMap(pids, masks)[pids[k] := mask]
  {
    forall i | 0 <= i < |pids|
      ensures TableMap(pids, masks)[pids[k] := mask][pids[i]] == masks[k := mask][i]
    {
      TableMapAt(pids, masks, i);
    }
    IsTableMap(pids, masks[k := mask], TableMap(pids, masks)[pids[k] := mask]);
  }

  /** The last entry moves into the place of the removed one. */
  lemma TableSwapRemove(pids: seq<nat>, masks: seq<bv32>, k: nat)
    requires |pids| == |masks| && Distinct(pids) && k < |pids|
    ensures
      var n := |pids| - 1;
      var q, m := pids[k := pids[n]][..n], masks[k := masks[n]][..n];
      Distinct(q) && TableMap(q, m) == TableMap(pids, masks) - {pids[k]}
  {
    var n := |pids| - 1;
    var q, m := pids[k := pids[n]][..n], masks[k := masks[n]][..n];
    var rest := TableMap(pids, masks) - {pids[k]};
    forall p | p in rest ensures p in q {
      var i := Index(pids, p);
      if i < n {
        assert q[i] == p;
      } else {
        assert q[k] == p;
      }
    }
    forall i | 0 <= i < |q| ensures q[i] in rest && rest[q[i]] == m[i] {
      TableMapAt(pids, masks, if i == k then n else i);
    }
    IsTableMap(q, m, rest);
  }

  // ------------------------------------------------------------ the backend

  class Ebpf {
    const probes: B.Probes
    const pids: array<nat>
    const masks: array<bv32>
    var count: nat
    var traced: map<nat, bv32>
    var orphan: bool
    var attached: bool

    ghost predicate Valid()
      reads this, pids, masks
    {
      && pids.Length == masks.Length == B.PARENT_MAX && count <= B.PARENT_MAX
      && pids as object != masks as object
      && Distinct(pids[..count])
    }

    ghost function View(): B.State
      requires Valid()
      reads this, pids, masks
    {
      B.State(TableMap(pids[..count], masks[..count]), traced, orphan, attached)
    }

    constructor (probes: B.Probes)
      ensures Valid() && View() == B.State(map[], map[], false, false) && this.probes == probes
      ensures fresh(pids) && fresh(masks)
    {
      this.probes := probes;
      pids := new nat[B.PARENT_MAX](i => 0);
      masks := new bv32[B.PARENT_MAX](i => 0);
      count, traced, orphan, attached := 0, map[], false, false;
    }

    /** Attaches the write probe unless it is attached already. */
    method WriteEnable(attach: bool) returns (ok: bool)
      requires Valid()
      modifies this`attached
      ensures Valid() && ok == (old(View()).attached || attach) && View() == old(View()).(attached := ok)
    {
      hide TableMap, Distinct, Index;
      if !attached {
        attached := attach;
      }
      ok := attached;
    }

    method AddPidFd(pid: nat, fd: bv32) returns (ok: bool)
      requires Valid()
      modifies this`traced
      ensures Valid() && (View(), ok) == B.Add(probes, false, old(View()), Fd(pid, fd))
    {
      hide B.SetBit, B.ClearBit, TableMap, Distinct, Index;
      if !probes.mapReady || (fd != 1 && fd != 2) {
        return false;
      }
      ghost var b := View();
      var mask: bv32 := 0;
      if pid in traced {
        mask := traced[pid];
      }
      assert mask == B.Entry(b, pid);
      traced := traced[pid := B.SetBit(mask, fd)];
      assert View() == b.(traced := b.traced[pid := B.SetBit(B.Entry(b, pid), fd)]);
      ok := true;
    }

    method RemovePidFd(pid: nat, fd: bv32)
      requires Valid()
      modifies this`traced
      ensures Valid() && View() == B.Remove(probes, old(View()), Fd(pid, fd))
    {
      hide B.SetBit, B.ClearBit, TableMap, Distinct, Index;
      if probes.mapReady && (fd == 1 || fd == 2) && pid in traced {
        ghost var b := View();
        var mask := B.ClearBit(traced[pid], fd);
        if mask == 0 {
          traced := traced - {pid};
        } else {
          traced := traced[pid := mask];
        }
        assert View() == b.(traced := B.WithoutBit(b.traced, pid, fd));
      }
    }

    /** Position of a pid in the parent table, or the count. */
    method FindParent(pid: nat) returns (k: nat)
      requires Valid()
      ensures k <= count && (k < count ==> pids[k] == pid) && (k == count <==> pid !in pids[..count])
    {
      k := 0;
      while k < count
        invariant k <= count && pid !in pids[..k]
      {
        if pids[k] == pid {
          assert pids[..count][k] == pid;
          return;
        }
        k := k + 1;
      }
    }

    /** Enters a parent in the table or changes its mask; a new one needs room. */
    method EnterParent(pid: nat, mask: bv32) returns (ok: bool)
      requires Valid()
      modifies this`count, pids, masks
      ensures Valid() && ok == (pid in old(View()).parents || |old(View()).parents| < B.PARENT_MAX)
      ensures View() == if ok then old(View()).(parents := old(View()).parents[pid := mask]) else old(View())
    {
      hide TableMap, Distinct, Index;
      ghost var p, m := pids[..count], masks[..count];
      TableMapSize(p, m);
      var k := FindParent(pid);
      if k < count {
        TableUpdate(p, m, k, mask);
        masks[k] := mask;
        assert masks[..count] == m[k := mask] && pids[..count] == p;
        return true;
      }
      if count >= B.PARENT_MAX {
        return false;
      }
      TableAppend(p, m, pid, mask);
      pids[count] := pid;
      masks[count] := mask;
      count := count + 1;
      assert pids[..count] == p + [pid] && masks[..count] == m + [mask];
      ok := true;
    }

    /** Moves the last parent into the place of the one that leaves. */
    method DropParent(pid: nat)
      requires Valid()
      modifies this`count, pids, masks
      ensures Valid() && View() == old(View()).(parents := old(View()).parents - {pid})
    {
      hide TableMap, Distinct, Index;
      ghost var p, m := pids[..count], masks[..count];
      var k := FindParent(pid);
      if k < count {
        TableSwapRemove(p, m, k);
        pids[k], masks[k] := pids[count - 1], masks[count - 1];
        count := count - 1;
        assert pids[..count] == p[k := p[count]][..count] && masks[..count] == m[k := m[count]][..count];
      } else {
        assert TableMap(p, m) - {pid} == TableMap(p, m);
      }
    }

    /** Traces the parent's pid at once, then enters it in the table. */
    method WatchParent(pid: nat, mask: bv32) returns (ok: bool)
      requires Valid()
      modifies this`count, this`traced, pids, masks
      ensures Valid() && (View(), ok) == B.Add(probes, false, old(View()), Parent(pid, mask))
    {
      hide TableMap, Distinct, Index;
      if !probes.schedExec {
        return false;
      }
      if probes.mapReady && mask != 0 {
        traced := traced[pid := mask];
      }
      ok := EnterParent(pid, mask);
    }

    /** Flushes the pid map and takes the parent out of the table. */
    method UnwatchParent(pid: nat, ghost mask: bv32)
      requires Valid()
      modifies this`count, this`traced, pids, masks
      ensures Valid() && View() == B.Remove(probes, old(View()), Parent(pid, mask))
    {
      hide TableMap, Distinct, Index;
      if probes.mapReady {
        traced := map[];
      }
      DropParent(pid);
    }

    method OrphanEnable(attach: bool) returns (ok: bool)
      requires Valid()
      modifies this`orphan, this`attached
      ensures Valid() && (attached == old(attached) || ok)
      ensures (View(), ok) == B.Add(probes, attach, old(View()), Orphan)
    {
      hide TableMap, Distinct, Index;
      if !probes.schedExec {
        return false;
      }
      if !attached {
        ok := WriteEnable(attach);
        if !ok {
          return;
        }
      }
      orphan := true;
      ok := true;
    }

    method OrphanDisable()
      requires Valid()
      modifies this`orphan
      ensures Valid() && View() == B.Remove(probes, old(View()), Orphan)
    {
      orphan := false;
    }
  }

  // ------------------------------------------------------------ the union

  method FindWatch(ws: seq<Watch>, w: Watch) returns (k: nat)
    ensures k == Find(ws, w)
  {
    k := 0;
    while k < |ws| && KeyOf(ws[k]) != KeyOf(w)
      invariant k <= |ws| && forall i :: 0 <= i < k ==> KeyOf(ws[i]) != KeyOf(w)
    {
      k := k + 1;
    }
    FindIs(ws, w, k);
  }

  lemma FindIs(ws: seq<Watch>, w: Watch, k: nat)
    requires k <= |ws| && (k < |ws| ==> KeyOf(ws[k]) == KeyOf(w))
    requires forall i :: 0 <= i < k ==> KeyOf(ws[i]) != KeyOf(w)
    ensures Find(ws, w) == k
  {
  }

  lemma FindKey(ws: seq<Watch>, w: Watch)
    ensures Find(ws, w) < |ws| <==> KeyOf(w) in Keys(ws)
  {
    if KeyOf(w) in Keys(ws) {
      var v :| v in ws && KeyOf(v) == KeyOf(w);
      var i :| 0 <= i < |ws| && ws[i] == v;
    }
    if Find(ws, w) < |ws| {
      assert ws[Find(ws, w)] in ws;
    }
  }

  lemma UnionSnoc(ws: seq<Watch>, w: Watch)
    ensures Union(ws + [w]) == Merge(Union(ws), w)
  {
    assert (ws + [w])[..|ws|] == ws;
  }

  lemma {:induction false} UnionLength(ws: seq<Watch>)
    ensures |Union(ws)| <= |ws|
  {
    if ws != [] {
      UnionLength(ws[..|ws| - 1]);
    }
  }

  lemma {:induction false} AllLength(owners: seq<R.Owner>)
    requires forall i :: 0 <= i < |owners| ==> |owners[i].watches| <= R.WATCHES
    ensures |R.All(owners)| <= |owners| * R.WATCHES
  {
    if owners != [] {
      AllLength(owners[..|owners| - 1]);
    }
  }

  // ------------------------------------------------------------ the server's registrations

  class Registrations {
    const owners: array<R.Owner>
    const ebpf: Ebpf

    ghost predicate Valid()
      reads this, owners, ebpf, ebpf.pids, ebpf.masks
    {
      && owners.Length == R.OWNERS && ebpf.Valid()
      && owners as object !in {ebpf as object, ebpf.pids as object, ebpf.masks as object}
      && R.Inv(ebpf.probes, State())
    }

    ghost function State(): R.State
      requires ebpf.Valid()
      reads this, owners, ebpf, ebpf.pids, ebpf.masks
    {
      R.State(owners[..], ebpf.View())
    }

    constructor (probes: B.Probes)
      ensures Valid() && fresh(owners) && fresh(ebpf) && fresh(ebpf.pids) && fresh(ebpf.masks)
      ensures forall i :: 0 <= i < R.OWNERS ==> owners[i] == R.FREE
    {
      owners := new R.Owner[R.OWNERS](i => R.FREE);
      ebpf := new Ebpf(probes);
      new;
      R.Initially(probes);
      assert owners[..] == seq(R.OWNERS, i => R.FREE);
    }

    /** The deduplicated union of all owners; it always fits its buffer of 16 * 128 watches. */
    method CollectUnion() returns (out: seq<Watch>)
      requires owners.Length == R.OWNERS
      ensures out == R.UnionOf(owners[..])
      ensures (forall i :: 0 <= i < R.OWNERS ==> |owners[i].watches| <= R.WATCHES) ==>
                |out| <= R.OWNERS * R.WATCHES
    {
      hide Union, Merge;
      out := [];
      assert Union([]) == [] by { EmptyUnion(); }
      ghost var seen: seq<Watch> := [];
      assert owners[..0] == [];
      for i := 0 to R.OWNERS
        invariant seen == R.All(owners[..i]) && out == Union(seen)
      {
        var ws := owners[i].watches;
        ghost var start := seen;
        assert ws[..0] == [] && start + [] == start;
        for j := 0 to |ws|
          invariant seen == start + ws[..j] && out == Union(seen)
        {
          out := MergeInto(out, ws[j]);
          UnionSnoc(seen, ws[j]);
          seen := seen + [ws[j]];
          assert ws[..j + 1] == ws[..j] + [ws[j]];
        }
        assert ws[..|ws|] == ws;
        assert owners[..i + 1][..i] == owners[..i];
      }
      assert owners[..R.OWNERS] == owners[..];
      if forall i :: 0 <= i < R.OWNERS ==> |owners[i].watches| <= R.WATCHES {
        AllLength(owners[..]);
        UnionLength(seen);
      }
    }

    method MergeInto(out: seq<Watch>, w: Watch) returns (next: seq<Watch>)
      ensures next == Merge(out, w)
    {
      hide OrMask;
      var k := FindWatch(out, w);
      if k == |out| {
        next := out + [w];
      } else if w.Parent? {
        next := out[k := Parent(w.pid, OrMask(out[k].mask, w.mask))];
      } else {
        next := out;
      }
    }

    /** Takes the backend from one union to the next, stopping at the first failure. */
    method ApplyUnion(old': seq<Watch>, next: seq<Watch>, attach: bool) returns (ok: bool)
      requires ebpf.Valid()
      modifies ebpf, ebpf.pids, ebpf.masks
      ensures ebpf.Valid() && (ebpf.View(), ok) == B.Apply(ebpf.probes, attach, old(ebpf.View()), old', next)
    {
      hide B.Add, B.Remove, Ebpf.View, Ebpf.Valid, Find, Keys;
      if next != [] {
        ok := ebpf.WriteEnable(attach);
        if !ok {
          return;
        }
      }
      ghost var start := ebpf.View();
      assert old'[..0] == [];
      for i := 0 to |old'|
        invariant ebpf.Valid() && ebpf.View() == B.Removals(ebpf.probes, start, old'[..i], next)
      {
        var k := FindWatch(next, old'[i]);
        FindKey(next, old'[i]);
        if k == |next| {
          Withdraw(old'[i]);
        }
        assert old'[..i + 1][..i] == old'[..i];
      }
      assert old'[..|old'|] == old';
      ghost var middle := ebpf.View();
      assert next[..0] == [];
      for i := 0 to |next|
        invariant ebpf.Valid() && (ebpf.View(), true) == B.Reapply(ebpf.probes, attach, middle, next[..i])
      {
        ok := Install(next[i], attach);
        assert next[..i + 1][..i] == next[..i];
        if !ok {
          FailureStays(ebpf.probes, attach, middle, next, i + 1);
          return;
        }
      }
      assert next[..|next|] == next;
      ok := true;
    }

    method Withdraw(w: Watch)
      requires ebpf.Valid()
      modifies ebpf, ebpf.pids, ebpf.masks
      ensures ebpf.Valid() && ebpf.View() == B.Remove(ebpf.probes, old(ebpf.View()), w)
    {
      hide B.Remove, Ebpf.View, Ebpf.Valid;
      match w
      case Fd(pid, fd) => ebpf.RemovePidFd(pid, fd);
      case Parent(pid, mask) => ebpf.UnwatchParent(pid, mask);
      case Orphan => ebpf.OrphanDisable();
    }

    method Install(w: Watch, attach: bool) returns (ok: bool)
      requires ebpf.Valid()
      modifies ebpf, ebpf.pids, ebpf.masks
      ensures ebpf.Valid() && (ebpf.View(), ok) == B.Add(ebpf.probes, attach, old(ebpf.View()), w)
    {
      hide B.SetBit, Ebpf.View, Ebpf.Valid;
      match w
      case Fd(pid, fd) => ok := ebpf.AddPidFd(pid, fd);
      case Parent(pid, mask) => ok := ebpf.WatchParent(pid, mask);
      case Orphan => ok := ebpf.OrphanEnable(attach);
    }

    /** Replaces an owner's watches: the table and the backend change together or not at all. */
    method Replace(owner: nat, request: R.Request, c: R.Chance) returns (reply: R.Reply)
      requires Valid() && owner != 0
      modifies owners, ebpf, ebpf.pids, ebpf.masks
      ensures Valid() && (State(), reply) == R.Replace(ebpf.probes, c, old(State()), owner, request)
      ensures reply == R.Ok && request.words != [] ==>
                exists i :: 0 <= i < owners.Length && owners[i].id == owner && R.Spells(request.words, owners[i].watches)
    {
      hide R.Spells, R.IllegalWord, R.Inv, Ebpf.View, Ebpf.Valid, B.Apply, R.UnionOf, R.SlotFor;
      ghost var s := State();
      R.ReplaceAtomic(ebpf.probes, c, s, owner, request);
      R.ReplyExactly(ebpf.probes, c, s, owner, request);
      var decoded := R.Accepted(request);
      if decoded.None? {
        return R.BadRequest;
      }
      var ws := decoded.value;
      if ws != [] && !c.ebpf {
        return R.Unsupported;
      }
      var slot := FindSlot(owner);
      if slot == R.OWNERS {
        return R.Busy;
      }
      var before := CollectUnion();
      var previous := owners[slot];
      owners[slot] := R.Owner(owner, ws);
      assert owners[..] == s.owners[slot := R.Owner(owner, ws)];
      var after := CollectUnion();
      var ok := ApplyUnion(before, after, c.attach);
      if !ok {
        owners[slot] := previous;
        assert owners[..] == s.owners;
        var restored := ApplyUnion(after, before, c.attachAgain);
        return R.Internal;
      }
      if ws == [] {
        owners[slot] := R.FREE;
      }
      assert owners[..] == R.Placed(s.owners, slot, owner, ws);
      return R.Ok;
    }

    /** The owner's own slot, else the first free one, else the number of slots. */
    method FindSlot(owner: nat) returns (slot: nat)
      requires owners.Length == R.OWNERS
      ensures slot == R.SlotFor(owners[..], owner)
    {
      slot := FindId(owner);
      if slot == R.OWNERS {
        slot := FindId(0);
      }
    }

    method FindId(id: nat) returns (slot: nat)
      requires owners.Length == R.OWNERS
      ensures slot == R.SlotWith(owners[..], id)
    {
      slot := 0;
      while slot < R.OWNERS && owners[slot].id != id
        invariant slot <= R.OWNERS && forall i :: 0 <= i < slot ==> owners[..][i].id != id
      {
        slot := slot + 1;
      }
      assert slot < R.OWNERS ==> owners[..][slot].id == id;
      SlotIs(owners[..], id, slot);
    }

    /** Drops an owner; this always frees its slot. */
    method Drop(owner: nat, c: R.Chance)
      requires Valid() && owner != 0
      modifies owners, ebpf, ebpf.pids, ebpf.masks
      ensures Valid() && State() == R.Drop(ebpf.probes, c, old(State()), owner)
      ensures forall i :: 0 <= i < R.OWNERS ==> owners[i].id != owner
    {
      hide R.Inv, Ebpf.View, Ebpf.Valid, R.Replace;
      R.DropSucceeds(ebpf.probes, c, State(), owner);
      var slot := FindId(owner);
      if slot < R.OWNERS {
        var reply := Replace(owner, R.EMPTY, c);
      }
      assert forall i :: 0 <= i < R.OWNERS ==> owners[..][i].id != owner;
    }
  }

  lemma EmptyUnion()
    ensures Union([]) == []
  {
  }

  lemma SlotIs(owners: seq<R.Owner>, id: nat, slot: nat)
    requires slot <= |owners| && (slot < |owners| ==> owners[slot].id == id)
    requires forall i :: 0 <= i < slot ==> owners[i].id != id
    ensures R.SlotWith(owners, id) == slot
  {
  }

  /** A failed application does nothing more. */
  lemma {:induction false} FailureStays(probes: B.Probes, attach: bool, b: B.State, next: seq<Watch>, i: nat)
    requires i <= |next| && !B.Reapply(probes, attach, b, next[..i]).1
    ensures B.Reapply(probes, attach, b, next) == B.Reapply(probes, attach, b, next[..i])
    decreases |next|
  {
    hide B.Add;
    if i < |next| {
      var n := |next| - 1;
      assert next[..n][..i] == next[..i];
      FailureStays(probes, attach, b, next[..n], i);
    } else {
      assert next[..i] == next;
    }
  }
}
