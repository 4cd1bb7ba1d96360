/**
 Clients, their connections and the server's registrations as one transition system: clients
 edit a revisioned list and resend it whole, the server replaces what a connection registered,
 connections come and go.  Everything below holds after every sequence of steps.
 */
module ControlProtocol {
  import opened Common
  import opened Watches
  import B = Backend
  import R = Registry

  /** A registration as a client holds and sends it: kind, pid, value. */
  type Entry = (nat, nat, bv32)

  const CLIENTS: nat := 16

  // ------------------------------------------------------------ the client's list

  predicate SameEntry(a: Entry, b: Entry) {
    a.0 == b.0 && a.1 == b.1 && (a.0 != 1 || a.2 == b.2)
  }

  /** Client and server agree which registrations are the same: those of one key. */
  lemma SameEntryIsSameKey(a: Watch, b: Watch)
    ensures SameEntry(Words(a), Words(b)) <==> KeyOf(a) == KeyOf(b)
  {
  }

  function FindEntry(list: seq<Entry>, e: Entry): (k: nat)
    ensures k <= |list|
    ensures k < |list| ==> SameEntry(list[k], e)
    ensures forall i :: 0 <= i < k ==> !SameEntry(list[i], e)
  {
    if list == [] || SameEntry(list[0], e) then 0 else 1 + FindEntry(list[1..], e)
  }

  /** An edit: the list it leaves, and whether the revision moves on. */
  function Edited(list: seq<Entry>, e: Entry, remove: bool): (r: (seq<Entry>, bool)) {
    var k := FindEntry(list, e);
    if remove then
      if k < |list| then (list[k := list[|list| - 1]][..|list| - 1], true) else (list, false)
    else if k == R.WATCHES then (list, false)
    else if k == |list| then (list + [e], true)
    else (list[k := e], true)
  }

  ghost predicate NoRepeats(list: seq<Entry>) {
    forall i, j :: 0 <= i < j < |list| ==> !SameEntry(list[i], list[j])
  }

  ghost predicate Holds(list: seq<Entry>, e: Entry) {
    exists i :: 0 <= i < |list| && list[i] == e
  }

  /** Editing keeps the list within its buffer and free of repeats, touches only entries of the
      same identity, and is refused only when a new entry finds the buffer full. */
  lemma EditSpec(list: seq<Entry>, e: Entry, remove: bool)
    requires NoRepeats(list) && |list| <= R.WATCHES
    ensures
      var (l, moved) := Edited(list, e, remove);
      && NoRepeats(l) && |l| <= R.WATCHES
      && (forall x :: !SameEntry(x, e) ==> (Holds(l, x) <==> Holds(list, x)))
      && (!remove ==> (Holds(l, e) <==> moved || Holds(list, e)))
      && (remove ==> forall x :: SameEntry(x, e) ==> !Holds(l, x))
      && (!moved ==> l == list)
      && (!moved && !remove ==> |list| == R.WATCHES && FindEntry(list, e) == |list|)
  {
    var k := FindEntry(list, e);
    var (l, moved) := Edited(list, e, remove);
    forall x | !SameEntry(x, e) ensures Holds(l, x) <==> Holds(list, x) {
      EditKeeps(list, e, remove, x);
    }
    if remove {
      forall x | SameEntry(x, e) ensures !Holds(l, x) {
        EditRemoves(list, e, x);
      }
    } else if moved {
      assert l[k] == e;
    }
  }

  lemma EditKeeps(list: seq<Entry>, e: Entry, remove: bool, x: Entry)
    requires !SameEntry(x, e)
    ensures Holds(Edited(list, e, remove).0, x) <==> Holds(list, x)
  {
    var k, n := FindEntry(list, e), |list| - 1;
    var l := Edited(list, e, remove).0;
    if Holds(list, x) {
      var i :| 0 <= i < |list| && list[i] == x;
      assert if remove && i == n && k < |list| then l[k] == x else l[i] == x;
    }
    if Holds(l, x) {
      var i :| 0 <= i < |l| && l[i] == x;
      if i == k && k < |list| {
        assert list[n] == x;
      } else {
        assert list[i] == x;
      }
    }
  }

  lemma EditRemoves(list: seq<Entry>, e: Entry, x: Entry)
    requires NoRepeats(list) && SameEntry(x, e)
    ensures !Holds(Edited(list, e, true).0, x)
  {
    var k, n := FindEntry(list, e), |list| - 1;
    var l := Edited(list, e, true).0;
    forall i | 0 <= i < |l| ensures l[i] != x {
      if k < |list| {
        var j := if i == k then n else i;
        assert l[i] == list[j];
        assert j < k ==> !SameEntry(list[j], list[k]);
        assert k < j ==> !SameEntry(list[k], list[j]);
      }
    }
  }

  // ------------------------------------------------------------ the system

  /** A client: its list, with the list it had at every revision, and the connection it is using
      with the revision it last sent there. */
  datatype Client = Client(history: seq<seq<Entry>>, current: Option<nat>, sent: Option<nat>) {
    function Revision(): int { |history| - 1 }
  }

  /** A connection the server holds open: whose it is, the revisions on their way, the last one
      delivered and the last one accepted. */
  datatype Conn = Conn(client: nat, channel: seq<nat>, delivered: Option<nat>, accepted: Option<nat>)

  datatype State = State(clients: seq<Client>, conns: map<nat, Conn>, tickets: nat, registry: R.State)

  datatype Step =
    | Edit(client: nat, entry: Entry, remove: bool, ebpf: bool)
    | Connect(client: nat)
    | Send(client: nat)
    | Deliver(ticket: nat, chance: R.Chance)
    | Abandon(client: nat)
    | Close(ticket: nat, chance: R.Chance)

  /** One step; a step that is not possible changes nothing. */
  function Do(probes: B.Probes, s: State, step: Step): State {
    match step
    case Edit(c, e, remove, ebpf) =>
      if c >= |s.clients| || s.clients[c].history == [] || (!remove && !ebpf) then s
      else
        var h := s.clients[c].history;
        var (list, moved) := Edited(h[|h| - 1], e, remove);
        if moved then s.(clients := s.clients[c := s.clients[c].(history := h + [list])]) else s
    case Connect(c) =>
      if c >= |s.clients| || s.clients[c].current.Some? || |s.conns| >= CLIENTS then s
      else
        var t := s.tickets + 1;
        s.(clients := s.clients[c := s.clients[c].(current := Some(t), sent := None)],
           conns := s.conns[t := Conn(c, [], None, None)],
           tickets := t)
    case Send(c) =>
      if c >= |s.clients| || s.clients[c].history == [] || s.clients[c].current.None?
         || s.clients[c].current.value !in s.conns || s.clients[c].sent == Some(s.clients[c].Revision()) then s
      else
        var t, r := s.clients[c].current.value, |s.clients[c].history| - 1;
        var conn := s.conns[t];
        s.(clients := s.clients[c := s.clients[c].(sent := Some(r))],
           conns := s.conns[t := conn.(channel := conn.channel + [r])])
    case Deliver(t, chance) =>
      if t !in s.conns || s.conns[t].channel == [] || s.conns[t].client >= |s.clients|
         || s.conns[t].channel[0] >= |s.clients[s.conns[t].client].history| then s
      else
        var conn := s.conns[t];
        var r := conn.channel[0];
        var (registry, reply) := R.Replace(probes, chance, s.registry, t, RequestOf(s, t));
        s.(conns := s.conns[t := conn.(channel := conn.channel[1..], delivered := Some(r),
                                       accepted := if reply == R.Ok then Some(r) else conn.accepted)],
           registry := registry)
    case Abandon(c) =>
      if c >= |s.clients| then s
      else s.(clients := s.clients[c := s.clients[c].(current := None, sent := None)])
    case Close(t, chance) =>
      if t !in s.conns then s
      else s.(conns := s.conns - {t}, registry := R.Drop(probes, chance, s.registry, t))
  }

  /** The request at the head of a connection's channel: the client's whole list at that revision. */
  function RequestOf(s: State, t: nat): R.Request
    requires t in s.conns && s.conns[t].channel != [] && s.conns[t].client < |s.clients|
    requires s.conns[t].channel[0] < |s.clients[s.conns[t].client].history|
  {
    R.Request(s.clients[s.conns[t].client].history[s.conns[t].channel[0]], true)
  }

  function Run(probes: B.Probes, s: State, steps: seq<Step>): State {
    if steps == [] then s else Do(probes, Run(probes, s, steps[..|steps| - 1]), steps[|steps| - 1])
  }

  /** Any number of clients with empty lists, no connection, nothing registered. */
  ghost predicate Init(s: State) {
    && (forall c :: 0 <= c < |s.clients| ==> s.clients[c] == Client([[]], None, None))
    && s.conns == map[] && s.tickets == 0
    && s.registry == R.State(seq(R.OWNERS, i => R.FREE), B.State(map[], map[], false, false))
  }

  // ------------------------------------------------------------ the invariant

  /** What the server has registered for a connection. */
  function Registered(owners: seq<R.Owner>, t: nat): seq<Watch> {
    var i := R.SlotWith(owners, t);
    if i < |owners| then owners[i].watches else []
  }

  ghost predicate ClientOk(c: Client) {
    && c.history != []
    && forall r :: 0 <= r < |c.history| ==> NoRepeats(c.history[r]) && |c.history[r]| <= R.WATCHES
  }

  function Before(a: Option<nat>, r: nat): bool {
    a.None? || a.value < r
  }

  ghost predicate Increasing(channel: seq<nat>) {
    forall i, j :: 0 <= i < j < |channel| ==> channel[i] < channel[j]
  }

  /** A connection's revisions are in order and the server holds the last accepted one. */
  ghost predicate ConnOk(s: State, t: nat)
    requires t in s.conns
  {
    var conn := s.conns[t];
    && 0 < t <= s.tickets
    && conn.client < |s.clients|
    && Increasing(conn.channel)
    && (forall i :: 0 <= i < |conn.channel| ==>
          conn.channel[i] < |s.clients[conn.client].history| && Before(conn.delivered, conn.channel[i]))
    && (conn.delivered.Some? ==> conn.delivered.value < |s.clients[conn.client].history|)
    && (conn.accepted.Some? ==> conn.delivered.Some? && conn.accepted.value <= conn.delivered.value)
    && HoldsAccepted(s, t)
  }

  ghost predicate HoldsAccepted(s: State, t: nat)
    requires t in s.conns && s.conns[t].client < |s.clients|
  {
    match s.conns[t].accepted
    case None => Registered(s.registry.owners, t) == []
    case Some(r) =>
      && r < |s.clients[s.conns[t].client].history|
      && R.DecodeAll(s.clients[s.conns[t].client].history[r]) == Some(Registered(s.registry.owners, t))
  }

  /** What a client sent last is the last thing on its connection, or the last thing delivered. */
  ghost predicate SentOk(s: State, c: nat)
    requires c < |s.clients|
  {
    var client := s.clients[c];
    client.current.Some? ==>
      && client.current.value <= s.tickets
      && (client.current.value in s.conns ==>
            var conn := s.conns[client.current.value];
            && conn.client == c
            && client.sent == (if conn.channel != [] then Some(conn.channel[|conn.channel| - 1]) else conn.delivered))
  }

  ghost predicate Inv(probes: B.Probes, s: State) {
    && R.Inv(probes, s.registry)
    && |s.conns| <= CLIENTS
    && (forall c :: 0 <= c < |s.clients| ==> ClientOk(s.clients[c]) && SentOk(s, c))
    && (forall t :: t in s.conns ==> ConnOk(s, t))
    && OwnersLive(s)
  }

  /** Owners are always live connections. */
  ghost predicate OwnersLive(s: State) {
    forall i :: 0 <= i < |s.registry.owners| && s.registry.owners[i].id != 0 ==> s.registry.owners[i].id in s.conns
  }

  lemma InitInv(probes: B.Probes, s: State)
    requires Init(s)
    ensures Inv(probes, s)
  {
    R.Initially(probes);
  }

  // ------------------------------------------------------------ what a replacement registers

  lemma RegisteredAt(owners: seq<R.Owner>, i: nat)
    requires R.TableOk(owners) && i < |owners| && owners[i].id != 0
    ensures Registered(owners, owners[i].id) == owners[i].watches
  {
    hide B.Masked;
  }

  lemma RegisteredNone(owners: seq<R.Owner>, t: nat)
    requires forall i :: 0 <= i < |owners| ==> owners[i].id != t
    ensures Registered(owners, t) == []
  {
  }

  /** A replacement changes what its own connection registered and nobody else's. */
  lemma RegisteredAfter(owners: seq<R.Owner>, t: nat, ws: seq<Watch>, u: nat)
    requires R.TableOk(owners) && t != 0 && u != 0 && R.SlotFor(owners, t) < |owners|
    requires R.TableOk(R.Placed(owners, R.SlotFor(owners, t), t, ws))
    ensures Registered(R.Placed(owners, R.SlotFor(owners, t), t, ws), u) ==
            if u == t then ws else Registered(owners, u)
  {
    hide B.Masked, Registered;
    var slot := R.SlotFor(owners, t);
    var after := R.Placed(owners, slot, t, ws);
    var i := R.SlotWith(owners, u);
    if u == t {
      if ws != [] {
        RegisteredAt(after, slot);
      } else {
        RegisteredNone(after, t);
      }
    } else if i < |owners| {
      assert after[i] == owners[i];
      RegisteredAt(owners, i);
      RegisteredAt(after, i);
    } else {
      RegisteredNone(owners, u);
      RegisteredNone(after, u);
    }
  }

  lemma RegisteredAfterDrop(owners: seq<R.Owner>, t: nat, u: nat)
    requires R.TableOk(owners) && t != 0 && u != 0 && u != t && R.SlotWith(owners, t) < |owners|
    requires R.TableOk(owners[R.SlotWith(owners, t) := R.FREE])
    ensures Registered(owners[R.SlotWith(owners, t) := R.FREE], u) == Registered(owners, u)
  {
    hide R.TableOk;
    RegisteredAfter(owners, t, [], u);
  }

  // ------------------------------------------------------------ never busy

  lemma {:induction false} DistinctIds(owners: seq<R.Owner>, n: nat)
    requires n <= |owners| && forall i, j :: 0 <= i < j < n ==> owners[i].id != owners[j].id
    ensures |set i | 0 <= i < n :: owners[i].id| == n
  {
    if n > 0 {
      DistinctIds(owners, n - 1);
      var small, large := set i | 0 <= i < n - 1 :: owners[i].id, set i | 0 <= i < n :: owners[i].id;
      assert large == small + {owners[n - 1].id};
    }
  }

  /** Sixteen connections, sixteen slots: a live connection always finds one. */
  lemma SlotForLive(probes: B.Probes, s: State, t: nat)
    requires Inv(probes, s) && t in s.conns
    ensures R.SlotFor(s.registry.owners, t) < R.OWNERS
  {
    hide B.Matches, ConnOk, SentOk, ClientOk;
    var owners, others := s.registry.owners, s.conns.Keys - {t};
    assert |others| == |s.conns.Keys| - 1 && |s.conns| == |s.conns.Keys|;
    if R.SlotFor(owners, t) == |owners| {
      R.BusyOnlyWhenFull(owners, t);
      DistinctIds(owners, R.OWNERS);
      SubsetSize(set i | 0 <= i < R.OWNERS :: owners[i].id, others);
      assert false;
    }
  }

  /** A control request on a live connection is never answered with "busy". */
  lemma NeverBusy(probes: B.Probes, s: State, t: nat, chance: R.Chance, request: R.Request)
    requires Inv(probes, s) && t in s.conns
    ensures R.Replace(probes, chance, s.registry, t, request).1 != R.Busy
  {
    hide R.Replace, B.Matches;
    SlotForLive(probes, s, t);
    assert ConnOk(s, t);
    R.ReplaceAtomic(probes, chance, s.registry, t, request);
  }

  /** A list that is delivered is refused as malformed exactly if one of its entries is illegal. */
  lemma OnlyIllegalIsBad(probes: B.Probes, s: State, t: nat, chance: R.Chance)
    requires Inv(probes, s) && t in s.conns && s.conns[t].channel != [] && s.conns[t].client < |s.clients|
    requires s.conns[t].channel[0] < |s.clients[s.conns[t].client].history|
    ensures
      var list := s.clients[s.conns[t].client].history[s.conns[t].channel[0]];
      R.Replace(probes, chance, s.registry, t, RequestOf(s, t)).1 == R.BadRequest <==>
      exists i :: 0 <= i < |list| && R.IllegalWord(list[i])
  {
    hide R.Replace, R.IllegalWord, R.Inv;
    assert ConnOk(s, t);
    assert ClientOk(s.clients[s.conns[t].client]);
    R.ReplyExactly(probes, chance, s.registry, t, RequestOf(s, t));
  }

  // ------------------------------------------------------------ every step keeps the invariant

  lemma EditFits(list: seq<Entry>, e: Entry, remove: bool)
    requires NoRepeats(list) && |list| <= R.WATCHES
    ensures NoRepeats(Edited(list, e, remove).0) && |Edited(list, e, remove).0| <= R.WATCHES
  {
    EditSpec(list, e, remove);
  }

  lemma EditInv(probes: B.Probes, s: State, step: Step)
    requires Inv(probes, s) && step.Edit?
    ensures Inv(probes, Do(probes, s, step))
  {
    hide R.Inv, NoRepeats, Edited, Registered, R.DecodeAll;
    var s' := Do(probes, s, step);
    if s' != s {
      var c := step.client;
      var h := s.clients[c].history;
      assert ClientOk(s.clients[c]);
      EditFits(h[|h| - 1], step.entry, step.remove);
      forall t | t in s'.conns ensures ConnOk(s', t) {
        assert ConnOk(s, t);
      }
      forall d | 0 <= d < |s'.clients| ensures ClientOk(s'.clients[d]) && SentOk(s', d) {
        assert ClientOk(s.clients[d]) && SentOk(s, d);
      }
    }
  }

  lemma ConnectInv(probes: B.Probes, s: State, step: Step)
    requires Inv(probes, s) && step.Connect?
    ensures Inv(probes, Do(probes, s, step))
  {
    hide R.Inv, ClientOk, SentOk, ConnOk;
    var s' := Do(probes, s, step);
    if s' != s {
      var t := s.tickets + 1;
      FreshTicket(probes, s);
      assert s'.conns.Keys == s.conns.Keys + {t};
      assert |s'.conns| == |s'.conns.Keys| && |s.conns| == |s.conns.Keys|;
      forall u | u in s'.conns ensures ConnOk(s', u) {
        ConnectConn(probes, s, step, u);
      }
      forall d | 0 <= d < |s'.clients| ensures ClientOk(s'.clients[d]) && SentOk(s', d) {
        ConnectClient(probes, s, step, d);
      }
    }
  }

  lemma ConnectClient(probes: B.Probes, s: State, step: Step, d: nat)
    requires Inv(probes, s) && step.Connect? && d < |s.clients| && Do(probes, s, step) != s
    ensures var s' := Do(probes, s, step); d < |s'.clients| && ClientOk(s'.clients[d]) && SentOk(s', d)
  {
    hide R.Inv, ConnOk, OwnersLive, NoRepeats;
    FreshTicket(probes, s);
    assert ClientOk(s.clients[d]) && SentOk(s, d);
  }

  lemma FreshTicket(probes: B.Probes, s: State)
    requires Inv(probes, s)
    ensures s.tickets + 1 !in s.conns
  {
    hide R.Inv, HoldsAccepted, SentOk, ClientOk;
    forall t | t in s.conns ensures t <= s.tickets {
      assert ConnOk(s, t);
    }
  }

  lemma ConnectConn(probes: B.Probes, s: State, step: Step, u: nat)
    requires Inv(probes, s) && step.Connect? && Do(probes, s, step) != s && u in Do(probes, s, step).conns
    ensures ConnOk(Do(probes, s, step), u)
  {
    hide R.Inv, SentOk, ClientOk, Registered, R.DecodeAll;
    FreshTicket(probes, s);
    NewTicketUnregistered(s, s.tickets + 1);
    if u != s.tickets + 1 {
      assert ConnOk(s, u);
    }
  }

  lemma NewTicketUnregistered(s: State, t: nat)
    requires OwnersLive(s) && t !in s.conns && t != 0
    ensures Registered(s.registry.owners, t) == []
  {
  }

  lemma SendInv(probes: B.Probes, s: State, step: Step)
    requires Inv(probes, s) && step.Send?
    ensures Inv(probes, Do(probes, s, step))
  {
    hide R.Inv, NoRepeats, HoldsAccepted, Increasing;
    var s' := Do(probes, s, step);
    if s' != s {
      var c := step.client;
      var t, r := s.clients[c].current.value, |s.clients[c].history| - 1;
      assert s'.conns.Keys == s.conns.Keys;
      assert |s'.conns| == |s'.conns.Keys| && |s.conns| == |s.conns.Keys|;
      assert SentOk(s, c) && ConnOk(s, t);
      forall u | u in s'.conns ensures ConnOk(s', u) {
        SendConn(probes, s, step, u);
      }
      forall d | 0 <= d < |s'.clients| ensures ClientOk(s'.clients[d]) && SentOk(s', d) {
        assert ClientOk(s.clients[d]) && SentOk(s, d);
      }
    }
  }

  lemma SendConn(probes: B.Probes, s: State, step: Step, u: nat)
    requires Inv(probes, s) && step.Send? && u in s.conns && Do(probes, s, step) != s
    ensures u in Do(probes, s, step).conns && ConnOk(Do(probes, s, step), u)
  {
    hide R.Inv, NoRepeats, Increasing, Registered, R.DecodeAll;
    var s', c := Do(probes, s, step), step.client;
    var t, r := s.clients[c].current.value, |s.clients[c].history| - 1;
    assert ConnOk(s, u) && ConnOk(s, t) && SentOk(s, c);
    if u == t {
      SendOrder(s, c, t, r);
    }
  }

  /** The revision sent is later than everything on the way or delivered. */
  lemma SendOrder(s: State, c: nat, t: nat, r: nat)
    requires c < |s.clients| && t in s.conns && ConnOk(s, t) && SentOk(s, c)
    requires s.clients[c].current == Some(t) && r == |s.clients[c].history| - 1 && s.clients[c].sent != Some(r)
    ensures Increasing(s.conns[t].channel + [r]) && Before(s.conns[t].delivered, r)
    ensures forall i :: 0 <= i < |s.conns[t].channel| ==> s.conns[t].channel[i] < r
  {
    var ch := s.conns[t].channel;
    if ch != [] {
      var n := |ch| - 1;
      assert ch[n] < |s.clients[c].history|;
    }
  }

  lemma AbandonInv(probes: B.Probes, s: State, step: Step)
    requires Inv(probes, s) && step.Abandon?
    ensures Inv(probes, Do(probes, s, step))
  {
    hide R.Inv, Registered, R.DecodeAll;
    var s' := Do(probes, s, step);
    forall u | u in s'.conns ensures ConnOk(s', u) {
      assert ConnOk(s, u);
    }
    forall d | 0 <= d < |s'.clients| ensures ClientOk(s'.clients[d]) && SentOk(s', d) {
      assert ClientOk(s.clients[d]) && SentOk(s, d);
    }
  }

  lemma CloseInv(probes: B.Probes, s: State, step: Step)
    requires Inv(probes, s) && step.Close?
    ensures Inv(probes, Do(probes, s, step))
  {
    hide R.Inv, ClientOk, HoldsAccepted, Increasing, R.Drop, OwnersLive;
    var s', t := Do(probes, s, step), step.ticket;
    if t in s.conns {
      CloseRegistry(probes, s, step);
      assert s'.conns.Keys == s.conns.Keys - {t};
      assert |s'.conns| == |s'.conns.Keys| && |s.conns| == |s.conns.Keys|;
      forall u | u in s'.conns ensures ConnOk(s', u) {
        CloseConn(probes, s, step, u);
      }
      forall d | 0 <= d < |s'.clients| ensures ClientOk(s'.clients[d]) && SentOk(s', d) {
        assert ClientOk(s.clients[d]) && SentOk(s, d);
      }
    }
  }

  lemma CloseRegistry(probes: B.Probes, s: State, step: Step)
    requires Inv(probes, s) && step.Close? && step.ticket in s.conns
    ensures var s' := Do(probes, s, step); R.Inv(probes, s'.registry) && OwnersLive(s')
  {
    hide R.TableOk, B.Matches, SentOk, ClientOk, HoldsAccepted, R.Drop;
    assert ConnOk(s, step.ticket);
    R.TableLength(s.registry.owners);
    R.DropSucceeds(probes, step.chance, s.registry, step.ticket);
  }

  lemma CloseConn(probes: B.Probes, s: State, step: Step, u: nat)
    requires Inv(probes, s) && step.Close? && step.ticket in s.conns && u in s.conns && u != step.ticket
    ensures u in Do(probes, s, step).conns && ConnOk(Do(probes, s, step), u)
  {
    hide R.TableOk, B.Matches, SentOk, ClientOk, Registered, R.DecodeAll, R.Drop, Increasing, OwnersLive;
    var t, owners := step.ticket, s.registry.owners;
    assert ConnOk(s, u) && ConnOk(s, t);
    R.TableLength(owners);
    R.DropSucceeds(probes, step.chance, s.registry, t);
    if R.SlotWith(owners, t) < R.OWNERS {
      RegisteredAfterDrop(owners, t, u);
    }
  }

  lemma DeliverInv(probes: B.Probes, s: State, step: Step)
    requires Inv(probes, s) && step.Deliver?
    ensures Inv(probes, Do(probes, s, step))
  {
    hide R.Inv, ClientOk, SentOk, ConnOk, R.Replace, OwnersLive;
    var s', t := Do(probes, s, step), step.ticket;
    if s' != s {
      DeliverRegistry(probes, s, step);
      assert s'.conns.Keys == s.conns.Keys;
      assert |s'.conns| == |s'.conns.Keys| && |s.conns| == |s.conns.Keys|;
      forall u | u in s'.conns ensures ConnOk(s', u) {
        DeliverConn(probes, s, step, u);
      }
      forall d | 0 <= d < |s'.clients| ensures ClientOk(s'.clients[d]) && SentOk(s', d) {
        DeliverClient(probes, s, step, d);
      }
    }
  }

  lemma DeliverClient(probes: B.Probes, s: State, step: Step, d: nat)
    requires Inv(probes, s) && step.Deliver? && d < |s.clients| && Do(probes, s, step) != s
    ensures var s' := Do(probes, s, step); d < |s'.clients| && ClientOk(s'.clients[d]) && SentOk(s', d)
  {
    hide R.Inv, R.Replace, ClientOk, HoldsAccepted, Increasing, OwnersLive;
    assert ClientOk(s.clients[d]) && SentOk(s, d);
  }

  lemma DeliverRegistry(probes: B.Probes, s: State, step: Step)
    requires Inv(probes, s) && step.Deliver? && Do(probes, s, step) != s
    ensures var s' := Do(probes, s, step); R.Inv(probes, s'.registry) && OwnersLive(s')
  {
    hide R.TableOk, B.Matches, SentOk, ClientOk, HoldsAccepted, R.Replace, R.CanHold, R.SlotFor;
    var t := step.ticket;
    assert ConnOk(s, t);
    R.TableLength(s.registry.owners);
    R.ReplaceAtomic(probes, step.chance, s.registry, t, RequestOf(s, t));
  }

  lemma DeliverConn(probes: B.Probes, s: State, step: Step, u: nat)
    requires Inv(probes, s) && step.Deliver? && u in s.conns && Do(probes, s, step) != s
    ensures u in Do(probes, s, step).conns && ConnOk(Do(probes, s, step), u)
  {
    hide R.Inv, ClientOk, SentOk, HoldsAccepted, R.Replace, OwnersLive, Increasing;
    var t := step.ticket;
    assert ConnOk(s, t) && ConnOk(s, u);
    DeliverHolds(probes, s, step, u);
    if u == t {
      ChannelTail(s.conns[t].channel);
    }
  }

  lemma DeliverHolds(probes: B.Probes, s: State, step: Step, u: nat)
    requires Inv(probes, s) && step.Deliver? && u in s.conns && Do(probes, s, step) != s
    ensures u in Do(probes, s, step).conns && Do(probes, s, step).conns[u].client < |s.clients|
    ensures HoldsAccepted(Do(probes, s, step), u)
  {
    hide R.TableOk, B.Matches, ClientOk, SentOk, Registered, R.DecodeAll, R.Replace, R.CanHold, OwnersLive, Increasing, R.SlotFor;
    var t, owners := step.ticket, s.registry.owners;
    assert ConnOk(s, t) && ConnOk(s, u);
    R.TableLength(owners);
    var request := RequestOf(s, t);
    R.ReplaceAtomic(probes, step.chance, s.registry, t, request);
    if R.Replace(probes, step.chance, s.registry, t, request).1 == R.Ok {
      RegisteredAfter(owners, t, R.Accepted(request).value, u);
    }
  }

  lemma ChannelTail(ch: seq<nat>)
    requires ch != [] && Increasing(ch)
    ensures Increasing(ch[1..]) && forall i :: 0 <= i < |ch| - 1 ==> ch[1..][i] == ch[i + 1] && ch[0] < ch[i + 1]
  {
  }

  lemma StepInv(probes: B.Probes, s: State, step: Step)
    requires Inv(probes, s)
    ensures Inv(probes, Do(probes, s, step))
  {
    hide Inv, Do;
    match step
    case Edit(_, _, _, _) => EditInv(probes, s, step);
    case Connect(_) => ConnectInv(probes, s, step);
    case Send(_) => SendInv(probes, s, step);
    case Deliver(_, _) => DeliverInv(probes, s, step);
    case Abandon(_) => AbandonInv(probes, s, step);
    case Close(_, _) => CloseInv(probes, s, step);
  }

  /** The invariant holds after every run. */
  lemma {:induction false} RunInv(probes: B.Probes, s: State, steps: seq<Step>)
    requires Init(s)
    ensures Inv(probes, Run(probes, s, steps))
  {
    hide Inv, Do, Init;
    if steps == [] {
      InitInv(probes, s);
    } else {
      RunInv(probes, s, steps[..|steps| - 1]);
      StepInv(probes, Run(probes, s, steps[..|steps| - 1]), steps[|steps| - 1]);
    }
  }

  // ------------------------------------------------------------ what clients may rely on

  /** After every run, the server's list for a live connection is empty or one its client's list
      was at some revision; owners are live connections. */
  lemma ServerHoldsSomeRevision(probes: B.Probes, s0: State, steps: seq<Step>, t: nat)
    requires Init(s0) && t in Run(probes, s0, steps).conns
    ensures
      var s := Run(probes, s0, steps);
      var conn, list := s.conns[t], Registered(s.registry.owners, t);
      && conn.client < |s.clients|
      && (list == [] || exists r :: 0 <= r < |s.clients[conn.client].history| &&
                          R.Spells(s.clients[conn.client].history[r], list))
      && OwnersLive(s)
  {
    hide Run, R.Inv, R.DecodeAll, Registered, R.Spells;
    RunInv(probes, s0, steps);
    var s := Run(probes, s0, steps);
    assert ConnOk(s, t);
    var h := s.clients[s.conns[t].client].history;
    if r :| 0 <= r < |h| && R.DecodeAll(h[r]) == Some(Registered(s.registry.owners, t)) {
      R.DecodeAllExactly(h[r], Registered(s.registry.owners, t));
    }
  }

  /** After every run: once a client has sent its current revision, the channel is drained and the
      list was accepted, the server holds exactly the client's current list. */
  lemma ServerCatchesUp(probes: B.Probes, s0: State, steps: seq<Step>, c: nat)
    requires Init(s0)
    requires
      var s := Run(probes, s0, steps);
      && c < |s.clients| && s.clients[c].current.Some? && s.clients[c].current.value in s.conns
      && s.clients[c].sent == Some(s.clients[c].Revision())
      && var conn := s.conns[s.clients[c].current.value];
         conn.channel == [] && conn.accepted == conn.delivered
    ensures
      var s := Run(probes, s0, steps);
      var h := s.clients[c].history;
      h != [] && R.Spells(h[|h| - 1], Registered(s.registry.owners, s.clients[c].current.value))
  {
    hide Run, R.Inv, R.DecodeAll, Registered, R.Spells;
    RunInv(probes, s0, steps);
    var s := Run(probes, s0, steps);
    var t, h := s.clients[c].current.value, s.clients[c].history;
    assert ConnOk(s, t) && SentOk(s, c);
    R.DecodeAllExactly(h[|h| - 1], Registered(s.registry.owners, t));
  }

  /** The lists a client has had, from its edits alone. */
  function Lists(steps: seq<Step>, c: nat): (h: seq<seq<Entry>>)
    ensures h != []
  {
    if steps == [] then [[]]
    else
      var h, step := Lists(steps[..|steps| - 1], c), steps[|steps| - 1];
      if step.Edit? && step.client == c && (step.remove || step.ebpf) && Edited(h[|h| - 1], step.entry, step.remove).1
      then h + [Edited(h[|h| - 1], step.entry, step.remove).0]
      else h
  }

  /** Whatever else happens in a run, a client's revisions are the lists its own edits make, one after another. */
  lemma {:induction false} RevisionsAreEdits(probes: B.Probes, s0: State, steps: seq<Step>, c: nat)
    requires Init(s0) && c < |s0.clients|
    ensures |Run(probes, s0, steps).clients| == |s0.clients| && Run(probes, s0, steps).clients[c].history == Lists(steps, c)
  {
    hide Do, Edited;
    if steps != [] {
      var n := |steps| - 1;
      RevisionsAreEdits(probes, s0, steps[..n], c);
      StepHistory(probes, Run(probes, s0, steps[..n]), steps[n], c);
    }
  }

  lemma StepHistory(probes: B.Probes, s: State, step: Step, c: nat)
    requires c < |s.clients| && s.clients[c].history != []
    ensures
      var s', h := Do(probes, s, step), s.clients[c].history;
      && |s'.clients| == |s.clients|
      && s'.clients[c].history ==
         if step.Edit? && step.client == c && (step.remove || step.ebpf) && Edited(h[|h| - 1], step.entry, step.remove).1
         then h + [Edited(h[|h| - 1], step.entry, step.remove).0]
         else h
  {
    hide R.Replace, R.Drop, Edited, RequestOf;
  }

  /** A connection never goes back to an older list. */
  lemma AcceptedInOrder(probes: B.Probes, s: State, step: Step, t: nat)
    requires Inv(probes, s) && t in s.conns && t in Do(probes, s, step).conns
    ensures
      var old', new' := s.conns[t].accepted, Do(probes, s, step).conns[t].accepted;
      old' == new' || (new'.Some? && (old'.None? || old'.value < new'.value))
  {
    hide R.Replace, R.Drop, HoldsAccepted;
    assert ConnOk(s, t);
    if step.Connect? && step.client < |s.clients| {
      assert t <= s.tickets;
    }
  }
}

/** The client side as it runs: a fixed buffer of entries edited in place under a lock. */
module ControlClient {
  import opened Common
  import R = Registry
  import opened ControlProtocol

  class Remote {
    const watches: array<Entry>
    var count: nat
    var revision: nat

    ghost predicate Valid()
      reads this, watches
    {
      watches.Length == R.WATCHES && count <= R.WATCHES && NoRepeats(watches[..count])
    }

    ghost function List(): seq<Entry>
      requires Valid()
      reads this, watches
    {
      watches[..count]
    }

    constructor ()
      ensures Valid() && List() == [] && revision == 0 && fresh(watches)
    {
      watches := new Entry[R.WATCHES](i => (0, 0, 0));
      count, revision := 0, 0;
    }

    /** The entry's place in the list, or the list's end. */
    method Find(e: Entry) returns (slot: nat)
      requires Valid()
      ensures slot == FindEntry(List(), e) <= count
    {
      hide NoRepeats;
      ghost var list := List();
      slot := 0;
      while slot < count && !SameEntry(watches[slot], e)
        invariant slot <= count && forall i :: 0 <= i < slot ==> !SameEntry(list[i], e)
      {
        slot := slot + 1;
      }
      FoundAt(list, e, slot);
    }

    /** Moves the last entry into a slot. */
    method SwapRemove(slot: nat)
      requires count <= watches.Length && slot < count
      modifies this`count, watches
      ensures count == old(count) - 1 && watches[..count] == old(watches[..count])[slot := old(watches[count - 1])][..count]
    {
      count := count - 1;
      watches[slot] := watches[count];
    }

    /** Writes an entry over a slot, or after the last. */
    method Put(slot: nat, e: Entry)
      requires slot <= count <= watches.Length && slot < watches.Length
      modifies this`count, watches
      ensures count <= watches.Length
      ensures watches[..count] == if slot == old(count) then old(watches[..count]) + [e] else old(watches[..count])[slot := e]
    {
      if slot == count {
        count := count + 1;
      }
      watches[slot] := e;
    }

    /** Adds, changes or removes one entry; the revision moves exactly when the list was written. */
    method Control(e: Entry, remove: bool, ebpf: bool) returns (ok: bool)
      requires Valid()
      modifies this, watches
      ensures Valid()
      ensures
        var (list, moved) := if !remove && !ebpf then (old(List()), false) else Edited(old(List()), e, remove);
        && List() == list
        && revision == old(revision) + (if moved then 1 else 0)
        && ok == (remove || moved)
    {
      hide NoRepeats, FindEntry;
      if !remove && !ebpf {
        return false;
      }
      EditSpec(List(), e, remove);
      var slot := Find(e);
      if remove {
        if slot < count {
          SwapRemove(slot);
          revision := revision + 1;
        }
      } else {
        if slot == R.WATCHES {
          return false;
        }
        Put(slot, e);
        revision := revision + 1;
      }
      ok := true;
    }

    /** What goes out on a connection that last carried `sent`: the whole list, or nothing. */
    method SendControls(sent: Option<nat>) returns (message: Option<seq<Entry>>, now: nat)
      requires Valid()
      ensures now == revision
      ensures message == if sent == Some(revision) then None else Some(List())
    {
      now := revision;
      message := None;
      if sent != Some(revision) {
        message := Some(watches[..count]);
      }
    }
  }

  lemma FoundAt(list: seq<Entry>, e: Entry, k: nat)
    requires k <= |list| && (k < |list| ==> SameEntry(list[k], e))
    requires forall i :: 0 <= i < k ==> !SameEntry(list[i], e)
    ensures FindEntry(list, e) == k
  {
  }
}
