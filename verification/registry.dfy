/**
 The server's table of tracing owners, and its replace operation: all of an owner's watches
 at once, or none.
 */
module Registry {
  import opened Common
  import opened Watches
  import B = Backend

  const OWNERS: nat := 16
  const WATCHES: nat := 128

  /** One slot of the owner table; id 0 marks a free slot. */
  datatype Owner = Owner(id: nat, watches: seq<Watch>)

  const FREE := Owner(0, [])

  datatype Reply = Ok | BadRequest | Unsupported | Internal | Busy

  /** The owner table and the backend's registration state. */
  datatype State = State(owners: seq<Owner>, backend: B.State)

  /** What the environment decides during one request: whether the backend is the eBPF one,
      and the outcome of attaching the write probe, should that be tried. */
  datatype Chance = Chance(ebpf: bool, attach: bool, attachAgain: bool)

  function All(owners: seq<Owner>): seq<Watch> {
    if owners == [] then [] else All(owners[..|owners| - 1]) + owners[|owners| - 1].watches
  }

  function UnionOf(owners: seq<Owner>): seq<Watch> {
    Union(All(owners))
  }

  /** First slot with this id, or the length. */
  function SlotWith(owners: seq<Owner>, id: nat): (i: nat)
    ensures i <= |owners|
    ensures i < |owners| ==> owners[i].id == id
    ensures forall j :: 0 <= j < i ==> owners[j].id != id
  {
    if owners == [] || owners[0].id == id then 0 else 1 + SlotWith(owners[1..], id)
  }

  /** The slot a request of this owner works on: its own, else the first free one. */
  function SlotFor(owners: seq<Owner>, id: nat): (i: nat)
    ensures i <= |owners|
    ensures i < |owners| ==> owners[i].id == id || (owners[i].id == 0 && SlotWith(owners, id) == |owners|)
  {
    if SlotWith(owners, id) < |owners| then SlotWith(owners, id) else SlotWith(owners, 0)
  }

  /** The registrations of a request, checked one by one. */
  function DecodeAll(words: seq<(nat, nat, bv32)>): (r: Option<seq<Watch>>)
    ensures r.Some? ==> |r.value| == |words|
  {
    if words == [] then Some([])
    else
      var n := |words| - 1;
      match (DecodeAll(words[..n]), Decode(words[n].0, words[n].1, words[n].2))
      case (Some(ws), Some(w)) => Some(ws + [w])
      case _ => None
  }

  /** The words are those of the watches, entry by entry, and every watch is legal. */
  ghost predicate Spells(words: seq<(nat, nat, bv32)>, ws: seq<Watch>) {
    |ws| == |words| && forall i :: 0 <= i < |words| ==> Words(ws[i]) == words[i] && LegalWatch(ws[i])
  }

  /** One of the reasons a request's registration is refused. */
  predicate IllegalWord(word: (nat, nat, bv32)) {
    Illegal(word.0, word.1, word.2)
  }

  /** A list of registrations stands for exactly the watches it spells; it is refused exactly if some word is illegal. */
  lemma {:induction false} DecodeAllExactly(words: seq<(nat, nat, bv32)>, ws: seq<Watch>)
    ensures DecodeAll(words) == Some(ws) <==> Spells(words, ws)
    ensures DecodeAll(words).None? <==> exists i :: 0 <= i < |words| && IllegalWord(words[i])
    decreases |words|
  {
    hide Decode, Words, LegalWatch, IllegalWord;
    if words != [] {
      var n := |words| - 1;
      var rest := if |ws| == |words| then ws[..n] else [];
      DecodeAllExactly(words[..n], rest);
      IllegalPrefix(words);
      var last := Decode(words[n].0, words[n].1, words[n].2);
      DecodeWord(words[n], if |ws| == |words| then ws[n] else Orphan);
      if Spells(words, ws) {
        assert forall i :: 0 <= i < n ==> words[..n][i] == words[i] && rest[i] == ws[i];
        assert ws == rest + [ws[n]];
      }
      if DecodeAll(words) == Some(ws) {
        DecodeAllExactly(words[..n], DecodeAll(words[..n]).value);
        assert rest == DecodeAll(words[..n]).value;
      }
    }
  }

  lemma DecodeWord(word: (nat, nat, bv32), w: Watch)
    ensures Decode(word.0, word.1, word.2) == Some(w) <==> Words(w) == word && LegalWatch(w)
    ensures Decode(word.0, word.1, word.2).None? <==> IllegalWord(word)
  {
    hide Decode, Words, LegalWatch, Illegal;
    DecodeExactly(word.0, word.1, word.2, w);
  }

  lemma IllegalPrefix(words: seq<(nat, nat, bv32)>)
    requires words != []
    ensures var n := |words| - 1;
            (exists i :: 0 <= i < |words| && IllegalWord(words[i])) <==>
            (exists i :: 0 <= i < n && IllegalWord(words[..n][i])) || IllegalWord(words[n])
  {
    hide IllegalWord;
    var n := |words| - 1;
    if i :| 0 <= i < |words| && IllegalWord(words[i]) && i < n {
      assert words[..n][i] == words[i];
    }
  }

  /** A request: its registrations, and whether exactly they fill its body. */
  datatype Request = Request(words: seq<(nat, nat, bv32)>, complete: bool)

  function Accepted(r: Request): Option<seq<Watch>> {
    if |r.words| > WATCHES || !r.complete then None else DecodeAll(r.words)
  }

  /** The table after an accepted request: an owner without watches gives its slot back. */
  function Placed(owners: seq<Owner>, slot: nat, owner: nat, ws: seq<Watch>): (r: seq<Owner>)
    requires slot < |owners|
    ensures |r| == |owners|
  {
    owners[slot := if ws == [] then FREE else Owner(owner, ws)]
  }

  function Replace(probes: B.Probes, c: Chance, s: State, owner: nat, r: Request): (State, Reply) {
    match Accepted(r)
    case None => (s, BadRequest)
    case Some(ws) =>
      var slot := SlotFor(s.owners, owner);
      if ws != [] && !c.ebpf then (s, Unsupported)
      else if slot == |s.owners| then (s, Busy)
      else
        var owners := s.owners[slot := Owner(owner, ws)];
        var before, after := UnionOf(s.owners), UnionOf(owners);
        var (b, ok) := B.Apply(probes, c.attach, s.backend, before, after);
        if !ok then
          (State(s.owners, B.Apply(probes, c.attachAgain, b, after, before).0), Internal)
        else
          (State(Placed(s.owners, slot, owner, ws), b), Ok)
  }

  const EMPTY := Request([], true)

  /** Dropping an owner, when its connection closes. */
  function Drop(probes: B.Probes, c: Chance, s: State, owner: nat): State {
    if SlotWith(s.owners, owner) == |s.owners| then s else Replace(probes, c, s, owner, EMPTY).0
  }

  // ------------------------------------------------------------ the invariant

  ghost predicate TableOk(owners: seq<Owner>) {
    && |owners| == OWNERS
    && (forall i :: 0 <= i < OWNERS ==>
          && (owners[i].id == 0 <==> owners[i].watches == [])
          && |owners[i].watches| <= WATCHES
          && B.Masked(owners[i].watches))
    && (forall i, j :: 0 <= i < j < OWNERS && owners[i].id != 0 ==> owners[i].id != owners[j].id)
  }

  ghost predicate Inv(probes: B.Probes, s: State) {
    TableOk(s.owners) && B.Matches(probes, s.backend, UnionOf(s.owners))
  }

  lemma Initially(probes: B.Probes)
    ensures Inv(probes, State(seq(OWNERS, i => FREE), B.State(map[], map[], false, false)))
  {
    var owners := seq(OWNERS, i => FREE);
    NoWatches(owners);
    assert B.Pids(Keys([])) == {};
  }

  lemma {:induction false} NoWatches(owners: seq<Owner>)
    requires forall i :: 0 <= i < |owners| ==> owners[i].watches == []
    ensures All(owners) == []
  {
    if owners != [] {
      NoWatches(owners[..|owners| - 1]);
    }
  }

  /** A watch is among all watches exactly if some owner asks for it. */
  lemma {:induction false} AllContains(owners: seq<Owner>, w: Watch)
    ensures w in All(owners) <==> exists i :: 0 <= i < |owners| && w in owners[i].watches
  {
    if owners != [] {
      var n := |owners| - 1;
      AllContains(owners[..n], w);
      if i :| 0 <= i < |owners| && w in owners[i].watches {
        if i < n {
          assert owners[..n][i] == owners[i];
        }
      }
      if w in All(owners[..n]) {
        var i :| 0 <= i < n && w in owners[..n][i].watches;
        assert w in owners[i].watches;
      }
    }
  }

  lemma {:induction false} AllMasked(owners: seq<Owner>)
    requires forall i :: 0 <= i < |owners| ==> B.Masked(owners[i].watches)
    ensures B.Masked(All(owners))
  {
    forall k | 0 <= k < |All(owners)| && All(owners)[k].Parent? ensures All(owners)[k].mask != 0 {
      var w := All(owners)[k];
      AllContains(owners, w);
      var i :| 0 <= i < |owners| && w in owners[i].watches;
      var j :| 0 <= j < |owners[i].watches| && owners[i].watches[j] == w;
    }
  }

  lemma {:induction false} UnionMasked(ws: seq<Watch>)
    requires B.Masked(ws)
    ensures B.Masked(Union(ws))
  {
    if ws != [] {
      var n := |ws| - 1;
      UnionMasked(ws[..n]);
      MergeMasked(Union(ws[..n]), ws[n]);
    }
  }

  lemma MergeMasked(out: seq<Watch>, w: Watch)
    requires B.Masked(out) && (w.Parent? ==> w.mask != 0)
    ensures B.Masked(Merge(out, w))
  {
    var k := Find(out, w);
    if k < |out| && w.Parent? {
      OrNonZero(out[k].mask, w.mask);
    }
  }

  lemma OrNonZero(a: bv32, b: bv32)
    requires b != 0
    ensures a | b != 0
  {
  }

  lemma {:induction false} DecodedMasked(words: seq<(nat, nat, bv32)>)
    requires DecodeAll(words).Some?
    ensures B.Masked(DecodeAll(words).value)
  {
    if words != [] {
      DecodedMasked(words[..|words| - 1]);
    }
  }

  // ------------------------------------------------------------ atomic replacement

  /** Whether a backend that matches its union can take on the new one. */
  ghost predicate CanHold(probes: B.Probes, c: Chance, b: B.State, after: seq<Watch>) {
    (after == [] || b.attached || c.attach) && B.Feasible(probes, after)
  }

  lemma MatchesFeasible(probes: B.Probes, b: B.State, ws: seq<Watch>)
    requires B.Matches(probes, b, ws)
    ensures B.Feasible(probes, ws)
  {
    hide Keys, B.TracedRight, B.Applicable;
    forall p ensures p in b.parents.Keys <==> p in B.Pids(Keys(ws)) {
      B.PidsOfKeys(ws, p);
    }
    assert b.parents.Keys == B.Pids(Keys(ws));
    assert |b.parents| == |b.parents.Keys|;
  }

  /** The heart of the matter: from one union to the other, or back to where it was. */
  lemma SwitchOrRestore(probes: B.Probes, c: Chance, b: B.State, before: seq<Watch>, after: seq<Watch>)
    requires B.Matches(probes, b, before)
    requires Unique(before) && Unique(after) && B.Masked(before) && B.Masked(after)
    ensures
      var (b1, ok) := B.Apply(probes, c.attach, b, before, after);
      && (ok <==> CanHold(probes, c, b, after))
      && (ok ==> B.Matches(probes, b1, after))
      && (!ok ==> B.Matches(probes, B.Apply(probes, c.attachAgain, b1, after, before).0, before))
  {
    hide B.Matches, B.Apply, Unique, B.Masked, Keys;
    var all := Keys(before) + Keys(after);
    B.MatchesIsCovered(probes, b, before, all);
    B.ApplySpec(probes, c.attach, b, before, after);
    var (b1, ok) := B.Apply(probes, c.attach, b, before, after);
    if !ok {
      B.ApplyCovered(probes, c.attach, b, before, after, all);
      assert all == Keys(after) + Keys(before);
      MatchesFeasible(probes, b, before);
      B.ApplySpec(probes, c.attachAgain, b1, after, before);
      StaysAttached(probes, c.attach, b, before, after);
    }
  }

  lemma StaysAttached(probes: B.Probes, attach: bool, b: B.State, before: seq<Watch>, after: seq<Watch>)
    requires B.Matches(probes, b, before)
    ensures before != [] ==> B.Apply(probes, attach, b, before, after).0.attached
  {
    hide B.TracedRight, B.ParentsMatch;
    var b' := if after != [] then b.(attached := true) else b;
    RemovalsAttached(probes, b', before, after);
    ReapplyAttached(probes, attach, B.Removals(probes, b', before, after), after);
  }

  lemma {:induction false} RemovalsAttached(probes: B.Probes, b: B.State, old': seq<Watch>, next: seq<Watch>)
    ensures B.Removals(probes, b, old', next).attached == b.attached
  {
    if old' != [] {
      RemovalsAttached(probes, b, old'[..|old'| - 1], next);
    }
  }

  lemma {:induction false} ReapplyAttached(probes: B.Probes, attach: bool, b: B.State, next: seq<Watch>)
    ensures b.attached ==> B.Reapply(probes, attach, b, next).0.attached
  {
    if next != [] {
      ReapplyAttached(probes, attach, b, next[..|next| - 1]);
    }
  }

  /** Replacement is atomic.  Every request keeps the table and the backend in step; a refused
      one leaves the owners, the parent table and the orphan flag as they were; and one that
      reaches the backend is refused exactly if the backend cannot hold the new union. */
  lemma ReplaceAtomic(probes: B.Probes, c: Chance, s: State, owner: nat, r: Request)
    requires Inv(probes, s) && owner != 0
    ensures
      var (s', reply) := Replace(probes, c, s, owner, r);
      var slot := SlotFor(s.owners, owner);
      && Inv(probes, s')
      && (reply != Ok ==>
            s'.owners == s.owners && s'.backend.parents == s.backend.parents && s'.backend.orphan == s.backend.orphan)
      && (reply == Ok ==> Accepted(r).Some? && slot < OWNERS && s'.owners == Placed(s.owners, slot, owner, Accepted(r).value))
      && (reply == Ok || reply == Internal ==>
            && Accepted(r).Some? && slot < OWNERS && Spells(r.words, Accepted(r).value)
            && (reply == Ok <==>
                  CanHold(probes, c, s.backend, UnionOf(s.owners[slot := Owner(owner, Accepted(r).value)]))))
      && (reply == Busy ==> slot == OWNERS)
  {
    hide Replace, TableOk, B.Matches, CanHold;
    TableLength(s.owners);
    var slot := SlotFor(s.owners, owner);
    if Accepted(r).Some? && slot < OWNERS && (Accepted(r).value == [] || c.ebpf) {
      DecodeAllExactly(r.words, Accepted(r).value);
      ReplaceAt(probes, c, s, owner, r);
    } else {
      ReplaceRefused(probes, c, s, owner, r);
    }
  }

  /** Which answer a request gets, and what an accepted one leaves in the table, in terms of its words. */
  lemma ReplyExactly(probes: B.Probes, c: Chance, s: State, owner: nat, r: Request)
    requires Inv(probes, s) && owner != 0
    ensures
      var (s', reply) := Replace(probes, c, s, owner, r);
      var slot := SlotFor(s.owners, owner);
      var bad := |r.words| > WATCHES || !r.complete || exists i :: 0 <= i < |r.words| && IllegalWord(r.words[i]);
      && (reply == BadRequest <==> bad)
      && (reply == Unsupported <==> !bad && r.words != [] && !c.ebpf)
      && (reply == Busy <==> !bad && (r.words == [] || c.ebpf) && slot == OWNERS)
      && (reply == Ok ==>
            && slot < OWNERS && |s'.owners| == OWNERS
            && (forall i :: 0 <= i < OWNERS && i != slot ==> s'.owners[i] == s.owners[i])
            && (r.words == [] ==> s'.owners[slot] == Owner(0, []))
            && (r.words != [] ==> s'.owners[slot].id == owner && Spells(r.words, s'.owners[slot].watches)))
  {
    hide Replace, TableOk, B.Matches, CanHold, DecodeAll, Spells, IllegalWord;
    TableLength(s.owners);
    var ws := if DecodeAll(r.words).Some? then DecodeAll(r.words).value else [];
    DecodeAllExactly(r.words, ws);
    ReplaceAtomic(probes, c, s, owner, r);
    ReplyCode(probes, c, s, owner, r);
  }

  lemma ReplyCode(probes: B.Probes, c: Chance, s: State, owner: nat, r: Request)
    ensures
      var reply := Replace(probes, c, s, owner, r).1;
      && (reply == BadRequest <==> Accepted(r).None?)
      && (reply == Unsupported <==> Accepted(r).Some? && Accepted(r).value != [] && !c.ebpf)
      && (reply == Busy <==> Accepted(r).Some? && (Accepted(r).value == [] || c.ebpf) && SlotFor(s.owners, owner) == |s.owners|)
  {
    hide DecodeAll, UnionOf, B.Apply;
  }

  lemma TableLength(owners: seq<Owner>)
    requires TableOk(owners)
    ensures |owners| == OWNERS
  {
  }

  lemma ReplaceRefused(probes: B.Probes, c: Chance, s: State, owner: nat, r: Request)
    requires Accepted(r).None? || SlotFor(s.owners, owner) == |s.owners| || (Accepted(r).value != [] && !c.ebpf)
    ensures Replace(probes, c, s, owner, r).0 == s
    ensures Replace(probes, c, s, owner, r).1 in {BadRequest, Unsupported, Busy}
    ensures Replace(probes, c, s, owner, r).1 == Busy ==> SlotFor(s.owners, owner) == |s.owners|
  {
  }

  lemma ReplaceAt(probes: B.Probes, c: Chance, s: State, owner: nat, r: Request)
    requires Inv(probes, s) && owner != 0 && Accepted(r).Some? && SlotFor(s.owners, owner) < |s.owners|
    requires Accepted(r).value == [] || c.ebpf
    ensures
      var (s', reply) := Replace(probes, c, s, owner, r);
      var slot := SlotFor(s.owners, owner);
      var owners := s.owners[slot := Owner(owner, Accepted(r).value)];
      && Inv(probes, s')
      && (reply == Ok || reply == Internal)
      && (reply == Ok <==> CanHold(probes, c, s.backend, UnionOf(owners)))
      && (reply == Ok ==> s'.owners == Placed(s.owners, slot, owner, Accepted(r).value))
      && (reply == Internal ==>
            s'.owners == s.owners && s'.backend.parents == s.backend.parents && s'.backend.orphan == s.backend.orphan)
  {
    hide B.Matches, TableOk, CanHold, B.Apply, Union, All, Unique, B.Masked, SlotFor;
    var slot, ws := SlotFor(s.owners, owner), Accepted(r).value;
    DecodedMasked(r.words);
    SlotTaken(s.owners, owner, ws);
    var owners := s.owners[slot := Owner(owner, ws)];
    var before, after := UnionOf(s.owners), UnionOf(owners);
    UnionOfGood(s.owners);
    UnionOfGood(owners);
    SwitchOrRestore(probes, c, s.backend, before, after);
    var (b1, ok) := B.Apply(probes, c.attach, s.backend, before, after);
    if ok {
      SameWatches(s.owners, slot, owner, ws);
    } else {
      MatchesUnique(probes, s.backend, B.Apply(probes, c.attachAgain, b1, after, before).0, before);
    }
  }

  ghost predicate MaskedTable(owners: seq<Owner>) {
    forall i :: 0 <= i < |owners| ==> B.Masked(owners[i].watches)
  }

  lemma SlotTaken(owners: seq<Owner>, owner: nat, ws: seq<Watch>)
    requires TableOk(owners) && owner != 0 && B.Masked(ws) && |ws| <= WATCHES && SlotFor(owners, owner) < |owners|
    ensures
      var slot := SlotFor(owners, owner);
      && MaskedTable(owners) && MaskedTable(owners[slot := Owner(owner, ws)])
      && TableOk(Placed(owners, slot, owner, ws))
  {
    hide B.Masked;
    assert B.Masked([]) by { NothingMasked(); }
  }

  lemma NothingMasked()
    ensures B.Masked([])
  {
  }

  lemma UnionOfGood(owners: seq<Owner>)
    requires MaskedTable(owners)
    ensures Unique(UnionOf(owners)) && B.Masked(UnionOf(owners))
  {
    hide B.Masked, Unique, Union;
    AllMasked(owners);
    UnionMasked(All(owners));
    UnionSpec(All(owners));
  }

  lemma {:induction false} AllSame(a: seq<Owner>, b: seq<Owner>)
    requires |a| == |b| && forall i :: 0 <= i < |a| ==> a[i].watches == b[i].watches
    ensures All(a) == All(b)
  {
    if a != [] {
      var n := |a| - 1;
      assert forall i :: 0 <= i < n ==> a[..n][i].watches == b[..n][i].watches;
      AllSame(a[..n], b[..n]);
    }
  }

  lemma SameWatches(owners: seq<Owner>, slot: nat, owner: nat, ws: seq<Watch>)
    requires slot < |owners|
    ensures UnionOf(Placed(owners, slot, owner, ws)) == UnionOf(owners[slot := Owner(owner, ws)])
  {
    AllSame(Placed(owners, slot, owner, ws), owners[slot := Owner(owner, ws)]);
  }

  /** The table and the flag are determined by the union they match. */
  lemma MatchesUnique(probes: B.Probes, b: B.State, c: B.State, ws: seq<Watch>)
    requires B.Matches(probes, b, ws) && B.Matches(probes, c, ws)
    ensures b.parents == c.parents && b.orphan == c.orphan
  {
    hide Keys, MaskFor, B.TracedRight, B.Applicable;
  }

  // ------------------------------------------------------------ consequences

  /** In step means: the parent table is the OR of all owners' masks, process by process, and
      the flag says whether any owner wants orphans. */
  lemma BackendIsUnion(probes: B.Probes, s: State)
    requires Inv(probes, s)
    ensures forall p ::
      p in s.backend.parents <==>
      exists i, j :: 0 <= i < OWNERS && 0 <= j < |s.owners[i].watches| &&
        s.owners[i].watches[j].Parent? && s.owners[i].watches[j].pid == p
    ensures forall p :: p in s.backend.parents ==> s.backend.parents[p] == MaskFor(All(s.owners), p)
    ensures s.backend.orphan <==> exists i :: 0 <= i < OWNERS && Orphan in s.owners[i].watches
  {
    var ws := All(s.owners);
    UnionSpec(ws);
    forall p
      ensures
        p in s.backend.parents <==>
        exists i, j :: 0 <= i < OWNERS && 0 <= j < |s.owners[i].watches| &&
          s.owners[i].watches[j].Parent? && s.owners[i].watches[j].pid == p
    {
      hide B.TracedRight, MaskFor, Union;
      assert p in s.backend.parents <==> Parent(p, 0) in Keys(ws);
      ParentAsked(s.owners, p);
    }
    AllContains(s.owners, Orphan);
    OrphanKey(ws);
  }

  /** Some owner asks for the bit f of parent p. */
  ghost predicate BitWanted(owners: seq<Owner>, p: nat, f: bv32) {
    exists i :: 0 <= i < |owners| && BitAsked(owners[i].watches, p, f)
  }

  ghost predicate Wanted(owners: seq<Owner>, w: Watch) {
    exists i :: 0 <= i < |owners| && w in owners[i].watches
  }

  lemma {:induction false} BitInAll(owners: seq<Owner>, p: nat, f: bv32)
    ensures BitAsked(All(owners), p, f) <==> BitWanted(owners, p, f)
  {
    hide AsksBit;
    if owners != [] {
      var n := |owners| - 1;
      BitInAll(owners[..n], p, f);
      BitJoined(All(owners[..n]), owners[n].watches, p, f);
      if BitWanted(owners, p, f) {
        var i :| 0 <= i < |owners| && BitAsked(owners[i].watches, p, f);
        assert i < n ==> BitAsked(owners[..n][i].watches, p, f);
      }
    }
  }

  lemma BitJoined(v: seq<Watch>, w: seq<Watch>, p: nat, f: bv32)
    ensures BitAsked(v + w, p, f) <==> BitAsked(v, p, f) || BitAsked(w, p, f)
  {
    hide AsksBit;
    if i :| 0 <= i < |v| && AsksBit(v[i], p, f) {
      assert AsksBit((v + w)[i], p, f);
    }
    if i :| 0 <= i < |w| && AsksBit(w[i], p, f) {
      assert AsksBit((v + w)[|v| + i], p, f);
    }
  }

  /** What the table of parents and the pid map hold, bit by bit, in terms of what the owners ask for: a mask has a bit
      exactly if some owner wants it; a mask's bits are traced; and for a process that is no watched parent a descriptor
      is traced exactly if some owner asks for it alone. */
  lemma BackendTraces(probes: B.Probes, s: State, p: nat, f: bv32)
    requires Inv(probes, s) && (f == 1 || f == 2)
    ensures
      var traced := p in s.backend.traced && HasBit(s.backend.traced[p], f);
      && (p in s.backend.parents ==> (HasBit(s.backend.parents[p], f) <==> BitWanted(s.owners, p, f)))
      && (p in s.backend.parents && probes.mapReady && BitWanted(s.owners, p, f) ==> traced)
      && (p !in s.backend.parents ==> (traced <==> Wanted(s.owners, Fd(p, f))))
      && (traced ==> Wanted(s.owners, Fd(p, f)) || BitWanted(s.owners, p, f))
  {
    hide MaskFor, Union, BitAsked, BitWanted, AsksBit;
    var ws := All(s.owners);
    UnionSpec(ws);
    MaskBits(ws, p, f);
    BitInAll(s.owners, p, f);
    AllContains(s.owners, Fd(p, f));
    FdKey(ws, p, f);
    assert B.TracedRight(probes, s.backend, Union(ws), p, f);
  }

  lemma FdKey(ws: seq<Watch>, p: nat, f: bv32)
    ensures Fd(p, f) in Keys(ws) <==> Fd(p, f) in ws
  {
    if Fd(p, f) in ws {
      assert KeyOf(Fd(p, f)) == Fd(p, f);
    }
  }

  lemma OrphanKey(ws: seq<Watch>)
    ensures Orphan in Keys(ws) <==> Orphan in ws
  {
    if Orphan in ws {
      assert KeyOf(Orphan) == Orphan;
    }
  }

  lemma ParentAsked(owners: seq<Owner>, p: nat)
    ensures Parent(p, 0) in Keys(All(owners)) <==>
            exists i, j :: 0 <= i < |owners| && 0 <= j < |owners[i].watches| &&
              owners[i].watches[j].Parent? && owners[i].watches[j].pid == p
  {
    hide All;
    if Parent(p, 0) in Keys(All(owners)) {
      var w :| w in All(owners) && KeyOf(w) == Parent(p, 0);
      AllContains(owners, w);
      var i :| 0 <= i < |owners| && w in owners[i].watches;
      var j :| 0 <= j < |owners[i].watches| && owners[i].watches[j] == w;
    }
    if exists i, j :: 0 <= i < |owners| && 0 <= j < |owners[i].watches| &&
                      owners[i].watches[j].Parent? && owners[i].watches[j].pid == p {
      var i, j :| 0 <= i < |owners| && 0 <= j < |owners[i].watches| &&
                  owners[i].watches[j].Parent? && owners[i].watches[j].pid == p;
      var w := owners[i].watches[j];
      AllContains(owners, w);
      assert KeyOf(w) == Parent(p, 0);
    }
  }

  /** Fewer watches are never harder to hold. */
  lemma FewerFeasible(probes: B.Probes, before: seq<Watch>, after: seq<Watch>)
    requires B.Feasible(probes, before) && Keys(after) <= Keys(before)
    ensures B.Feasible(probes, after)
  {
    forall i | 0 <= i < |after| ensures B.Applicable(probes, after[i]) {
      assert after[i] in after;
      assert KeyOf(after[i]) in Keys(before);
      var w :| w in before && KeyOf(w) == KeyOf(after[i]);
      var k :| 0 <= k < |before| && before[k] == w;
      assert B.Applicable(probes, before[k]);
    }
    forall p | p in B.Pids(Keys(after)) ensures p in B.Pids(Keys(before)) {
      B.PidsOfKeys(after, p);
      B.PidsOfKeys(before, p);
    }
    SubsetSize(B.Pids(Keys(after)), B.Pids(Keys(before)));
  }

  lemma ClearedKeys(owners: seq<Owner>, slot: nat)
    requires slot < |owners|
    ensures Keys(All(owners[slot := FREE])) <= Keys(All(owners))
  {
    hide All;
    forall k | k in Keys(All(owners[slot := FREE])) ensures k in Keys(All(owners)) {
      var w :| w in All(owners[slot := FREE]) && KeyOf(w) == k;
      AllContains(owners[slot := FREE], w);
      var i :| 0 <= i < |owners| && w in owners[slot := FREE][i].watches;
      AllContains(owners, w);
      assert w in owners[i].watches;
    }
  }

  /** Dropping an owner never fails, whatever the environment does: its slot is free again and
      no other slot has changed. */
  lemma DropSucceeds(probes: B.Probes, c: Chance, s: State, owner: nat)
    requires Inv(probes, s) && owner != 0
    ensures
      var s', slot := Drop(probes, c, s, owner), SlotWith(s.owners, owner);
      && Inv(probes, s')
      && SlotWith(s'.owners, owner) == OWNERS
      && s'.owners == if slot == OWNERS then s.owners else s.owners[slot := FREE]
  {
    var slot := SlotWith(s.owners, owner);
    if slot < OWNERS {
      DropCanHold(probes, c, s, owner);
      ReplaceAt(probes, c, s, owner, EMPTY);
      SlotGone(s.owners, owner);
    }
  }

  lemma SlotGone(owners: seq<Owner>, owner: nat)
    requires TableOk(owners) && owner != 0 && SlotWith(owners, owner) < OWNERS
    ensures SlotWith(owners[SlotWith(owners, owner) := FREE], owner) == OWNERS
  {
    hide B.Masked;
  }

  lemma DropCanHold(probes: B.Probes, c: Chance, s: State, owner: nat)
    requires Inv(probes, s) && owner != 0 && SlotWith(s.owners, owner) < |s.owners|
    ensures CanHold(probes, c, s.backend, UnionOf(s.owners[SlotWith(s.owners, owner) := Owner(owner, [])]))
  {
    hide B.Matches, Union, All;
    var slot := SlotWith(s.owners, owner);
    var gone, cleared := s.owners[slot := Owner(owner, [])], s.owners[slot := FREE];
    AllSame(gone, cleared);
    ClearedKeys(s.owners, slot);
    UnionSpec(All(s.owners));
    UnionSpec(All(cleared));
    MatchesFeasible(probes, s.backend, UnionOf(s.owners));
    FewerFeasible(probes, UnionOf(s.owners), UnionOf(cleared));
    OwnerAttached(probes, s, slot);
  }

  lemma OwnerAttached(probes: B.Probes, s: State, slot: nat)
    requires Inv(probes, s) && slot < |s.owners| && s.owners[slot].id != 0
    ensures s.backend.attached
  {
    hide B.TracedRight, B.ParentsMatch, Union;
    var w := s.owners[slot].watches[0];
    AllContains(s.owners, w);
    UnionSpec(All(s.owners));
  }

  /** A request is refused for lack of a slot only while sixteen other owners hold watches. */
  lemma BusyOnlyWhenFull(owners: seq<Owner>, owner: nat)
    requires TableOk(owners) && SlotFor(owners, owner) == |owners|
    ensures forall i :: 0 <= i < OWNERS ==> owners[i].id != 0 && owners[i].id != owner
  {
  }
}
