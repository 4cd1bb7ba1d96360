/**
 The inspector queue: sixteen job slots shared by the socket thread and the inspector thread.
 A job is queued by one connection, started and finished by the inspector, and reaped by the
 socket thread.  Each step below is one critical section; a run is any sequence of them.
 */
module Jobs {
  import opened Common

  const SLOTS: nat := 16

  /** What a connection asks the inspector for. */
  datatype Query = Query(kind: nat, pid: nat, needs: nat)

  /** The header of the request a connection is working on. */
  datatype Header = Header(kind: nat, id: nat)

  /** A result, with the query it was computed from. */
  datatype Result = Result(query: Query, outcome: nat)

  datatype Job =
    | Free
    | Queued(ticket: nat, query: Query, serial: nat)
    | Running(ticket: nat, query: Query, serial: nat)
    | Complete(ticket: nat, query: Query, serial: nat, result: Result)

  datatype Client =
    | Closed
    | Open(ticket: nat, job: Option<nat>, incoming: Header, writing: bool)

  /** Every request ever queued, by serial number. */
  datatype Request = Request(ticket: nat, id: nat, query: Query)

  /** Every result handed to a connection. */
  datatype Delivery = Delivery(ticket: nat, header: Header, serial: nat, result: Result)

  datatype State = State(
    jobs: seq<Job>,
    clients: seq<Client>,
    tickets: nat,
    next: nat,                  // where the inspector's scan starts
    working: Option<nat>,       // the slot the inspector is working on, outside the lock
    requests: seq<Request>,
    deliveries: seq<Delivery>)

  datatype Step =
    | Accept
    | Receive(client: nat, header: Header)
    | Enqueue(client: nat, header: Header, pid: nat, needs: nat)
    | Reply(client: nat, header: Header)
    | Push(client: nat)
    | Sent(client: nat)
    | Close(client: nat)
    | Pick
    | Finish(outcome: nat)
    | Reap

  // ------------------------------------------------------------ the scans

  function FirstFree(jobs: seq<Job>): (i: nat)
    ensures i <= |jobs|
    ensures i < |jobs| ==> jobs[i].Free?
    ensures forall j :: 0 <= j < i ==> !jobs[j].Free?
  {
    if jobs == [] || jobs[0].Free? then 0 else 1 + FirstFree(jobs[1..])
  }

  function FirstClosed(clients: seq<Client>): (i: nat)
    ensures i <= |clients|
    ensures i < |clients| ==> clients[i].Closed?
  {
    if clients == [] || clients[0].Closed? then 0 else 1 + FirstClosed(clients[1..])
  }

  /** The slot e places on from slot n, going round. */
  function Around(n: nat, e: nat): (i: nat)
    ensures i < SLOTS
  {
    (n + e) % SLOTS
  }

  /** Offset from `next` of the first queued job, going round; the number of slots if none. */
  function Scan(jobs: seq<Job>, next: nat, from: nat): (d: nat)
    requires |jobs| == SLOTS && next < SLOTS && from <= SLOTS
    ensures from <= d <= SLOTS
    ensures d < SLOTS ==> jobs[Around(next, d)].Queued?
    ensures forall e :: from <= e < d ==> !jobs[Around(next, e)].Queued?
    decreases SLOTS - from
  {
    if from == SLOTS || jobs[Around(next, from)].Queued? then from else Scan(jobs, next, from + 1)
  }

  /** The first connection that waits for slot i under the given ticket. */
  function Waiting(clients: seq<Client>, i: nat, ticket: nat): (c: nat)
    ensures c <= |clients|
    ensures c < |clients| ==> clients[c].Open? && clients[c].job == Some(i) && clients[c].ticket == ticket
    ensures forall d :: 0 <= d < c ==> !(clients[d].Open? && clients[d].job == Some(i) && clients[d].ticket == ticket)
  {
    if clients == [] then 0
    else if clients[0].Open? && clients[0].job == Some(i) && clients[0].ticket == ticket then 0
    else 1 + Waiting(clients[1..], i, ticket)
  }

  // ------------------------------------------------------------ the steps

  /** A connection that may be read from: open, no job, nothing to write. */
  predicate Readable(s: State, c: nat) {
    c < |s.clients| && s.clients[c].Open? && s.clients[c].job.None? && !s.clients[c].writing
  }

  /** Reaping one slot: a complete job goes to its connection, if that is still waiting, and the
      slot is free in any case. */
  function ReapSlot(s: State, i: nat): (r: State)
    requires i < |s.jobs|
    ensures |r.jobs| == |s.jobs| && |r.clients| == |s.clients|
  {
    if !s.jobs[i].Complete? then s
    else
      var job := s.jobs[i];
      var c := Waiting(s.clients, i, job.ticket);
      var s' := s.(jobs := s.jobs[i := Free]);
      if c < |s.clients| then
        s'.(clients := s.clients[c := s.clients[c].(job := None, writing := true)],
            deliveries := s.deliveries + [Delivery(s.clients[c].ticket, s.clients[c].incoming, job.serial, job.result)])
      else s'
  }

  function ReapUpTo(s: State, n: nat): (r: State)
    requires n <= |s.jobs|
    ensures |r.jobs| == |s.jobs| && |r.clients| == |s.clients|
  {
    if n == 0 then s else ReapSlot(ReapUpTo(s, n - 1), n - 1)
  }

  function Do(s: State, step: Step): State
    requires |s.jobs| == SLOTS && s.next < SLOTS
  {
    match step
    case Accept =>
      var c := FirstClosed(s.clients);
      if c == |s.clients| then s
      else s.(clients := s.clients[c := Open(s.tickets + 1, None, Header(0, 0), false)], tickets := s.tickets + 1)
    case Receive(c, h) =>
      if Readable(s, c) then s.(clients := s.clients[c := s.clients[c].(incoming := h)]) else s
    case Enqueue(c, h, pid, needs) =>
      if !Readable(s, c) then s
      else
        var i, client := FirstFree(s.jobs), s.clients[c].(incoming := h);
        if i == |s.jobs| then s.(clients := s.clients[c := client.(writing := true)])
        else
          var q := Query(h.kind, pid, needs);
          s.(jobs := s.jobs[i := Queued(client.ticket, q, |s.requests|)],
             clients := s.clients[c := client.(job := Some(i))],
             requests := s.requests + [Request(client.ticket, h.id, q)])
    case Reply(c, h) =>
      if Readable(s, c) then s.(clients := s.clients[c := s.clients[c].(incoming := h, writing := true)]) else s
    case Push(c) =>
      if Readable(s, c) then s.(clients := s.clients[c := s.clients[c].(writing := true)]) else s
    case Sent(c) =>
      if c < |s.clients| && s.clients[c].Open? && s.clients[c].writing
      then s.(clients := s.clients[c := s.clients[c].(writing := false)]) else s
    case Close(c) =>
      if c < |s.clients| then s.(clients := s.clients[c := Closed]) else s
    case Pick =>
      var d := Scan(s.jobs, s.next, 0);
      if s.working.Some? || d == SLOTS then s
      else
        var i := Around(s.next, d);
        s.(jobs := s.jobs[i := Running(s.jobs[i].ticket, s.jobs[i].query, s.jobs[i].serial)],
           next := Around(i, 1),
           working := Some(i))
    case Finish(outcome) =>
      // the query is read from the slot only now, outside the lock
      if s.working.None? || s.working.value >= |s.jobs| || s.jobs[s.working.value].Free? then s
      else
        var i := s.working.value;
        var job := s.jobs[i];
        s.(jobs := s.jobs[i := Complete(job.ticket, job.query, job.serial, Result(job.query, outcome))],
           working := None)
    case Reap => ReapUpTo(s, |s.jobs|)
  }

  ghost predicate Init(s: State) {
    && s.jobs == seq(SLOTS, i => Free) && s.clients == seq(SLOTS, i => Closed)
    && s.tickets == 0 && s.next == 0 && s.working == None && s.requests == [] && s.deliveries == []
  }

  // ------------------------------------------------------------ the invariant

  /** An occupied slot carries the query of the request with its serial number. */
  ghost predicate JobOk(s: State, i: nat)
    requires i < |s.jobs|
  {
    var job := s.jobs[i];
    !job.Free? ==>
      && job.serial < |s.requests|
      && s.requests[job.serial].ticket == job.ticket <= s.tickets
      && s.requests[job.serial].query == job.query
      && (job.Running? <==> s.working == Some(i))
      && (job.Complete? ==> job.result.query == job.query)
  }

  /** A connection that waits for a slot is the one that queued it, still on that request. */
  ghost predicate ClientOk(s: State, c: nat)
    requires c < |s.clients|
  {
    var client := s.clients[c];
    client.Open? ==>
      && client.ticket <= s.tickets
      && (client.job.Some? ==>
            && client.job.value < |s.jobs|
            && !client.writing
            && var job := s.jobs[client.job.value];
               && !job.Free? && job.ticket == client.ticket
               && job.serial < |s.requests|
               && s.requests[job.serial].id == client.incoming.id
               && job.query.kind == client.incoming.kind)
  }

  ghost predicate SerialsDistinct(s: State) {
    forall i, j :: 0 <= i < j < |s.jobs| && !s.jobs[i].Free? && !s.jobs[j].Free? ==> s.jobs[i].serial != s.jobs[j].serial
  }

  ghost predicate TicketsDistinct(s: State) {
    forall c, d :: 0 <= c < d < |s.clients| && s.clients[c].Open? && s.clients[d].Open? ==>
      s.clients[c].ticket != s.clients[d].ticket
  }

  /** A result went to the connection that asked, under that request's header, computed from its
      query. */
  ghost predicate DeliveryOk(s: State, k: nat)
    requires k < |s.deliveries|
  {
    var d := s.deliveries[k];
    && d.serial < |s.requests|
    && s.requests[d.serial].ticket == d.ticket
    && s.requests[d.serial].id == d.header.id
    && s.requests[d.serial].query.kind == d.header.kind
    && s.requests[d.serial].query == d.result.query
  }

  /** No request is answered twice, and an answered one is in no slot. */
  ghost predicate OnceOnly(s: State) {
    && (forall k, l :: 0 <= k < l < |s.deliveries| ==> s.deliveries[k].serial != s.deliveries[l].serial)
    && (forall k, i :: 0 <= k < |s.deliveries| && 0 <= i < |s.jobs| && !s.jobs[i].Free? ==>
          s.deliveries[k].serial != s.jobs[i].serial)
  }

  ghost predicate Inv(s: State) {
    && |s.jobs| == SLOTS && |s.clients| == SLOTS && s.next < SLOTS
    && (s.working.Some? ==> s.working.value < SLOTS && s.jobs[s.working.value].Running?)
    && (forall i :: 0 <= i < |s.jobs| ==> JobOk(s, i))
    && (forall c :: 0 <= c < |s.clients| ==> ClientOk(s, c))
    && (forall k :: 0 <= k < |s.deliveries| ==> DeliveryOk(s, k))
    && SerialsDistinct(s) && TicketsDistinct(s) && OnceOnly(s)
  }

  lemma InitInv(s: State)
    requires Init(s)
    ensures Inv(s)
  {
  }

  /** No two connections wait for the same slot. */
  lemma OneWaiter(s: State, c: nat, d: nat)
    requires Inv(s) && c < d < |s.clients| && s.clients[c].Open? && s.clients[d].Open?
    ensures s.clients[c].job.Some? ==> s.clients[c].job != s.clients[d].job
  {
    assert ClientOk(s, c) && ClientOk(s, d);
  }

  // ------------------------------------------------------------ every step keeps it

  lemma ConnectionInv(s: State, step: Step)
    requires Inv(s) && (step.Accept? || step.Receive? || step.Reply? || step.Push? || step.Sent? || step.Close?)
    ensures Inv(Do(s, step))
  {
    var s' := Do(s, step);
    ConnectionClients(s, step);
    hide ClientOk;
    forall i | 0 <= i < |s'.jobs| ensures JobOk(s', i) {
      assert JobOk(s, i);
    }
    forall k | 0 <= k < |s'.deliveries| ensures DeliveryOk(s', k) {
      assert DeliveryOk(s, k);
    }
  }

  lemma ConnectionClients(s: State, step: Step)
    requires Inv(s) && (step.Accept? || step.Receive? || step.Reply? || step.Push? || step.Sent? || step.Close?)
    ensures var s' := Do(s, step); TicketsDistinct(s') && forall c :: 0 <= c < |s'.clients| ==> ClientOk(s', c)
  {
    hide JobOk, DeliveryOk;
    var s' := Do(s, step);
    forall c | 0 <= c < |s'.clients| ensures ClientOk(s', c) {
      assert ClientOk(s, c);
    }
    assert TicketsDistinct(s') by {
      assert forall c :: 0 <= c < |s.clients| && s.clients[c].Open? ==> ClientOk(s, c);
    }
  }

  lemma EnqueueInv(s: State, step: Step)
    requires Inv(s) && step.Enqueue?
    ensures Inv(Do(s, step))
  {
    var s' := Do(s, step);
    if Readable(s, step.client) {
      assert ClientOk(s, step.client);
      forall c | 0 <= c < |s'.clients| ensures ClientOk(s', c) {
        assert ClientOk(s, c);
      }
      forall i | 0 <= i < |s'.jobs| ensures JobOk(s', i) {
        assert JobOk(s, i);
      }
      forall k | 0 <= k < |s'.deliveries| ensures DeliveryOk(s', k) && s.deliveries[k].serial < |s.requests| {
        assert DeliveryOk(s, k);
      }
      forall i | 0 <= i < |s.jobs| && !s.jobs[i].Free? ensures s.jobs[i].serial < |s.requests| {
        assert JobOk(s, i);
      }
    }
  }

  lemma InspectorInv(s: State, step: Step)
    requires Inv(s) && (step.Pick? || step.Finish?)
    ensures Inv(Do(s, step))
  {
    hide Scan, Around;
    var s' := Do(s, step);
    forall c | 0 <= c < |s'.clients| ensures ClientOk(s', c) {
      assert ClientOk(s, c);
    }
    forall i | 0 <= i < |s'.jobs| ensures JobOk(s', i) {
      assert JobOk(s, i);
    }
    forall k | 0 <= k < |s'.deliveries| ensures DeliveryOk(s', k) {
      assert DeliveryOk(s, k);
    }
  }

  /** Only the connection that reaping finds waits for a finished slot. */
  lemma OnlyWaiter(s: State, i: nat, c: nat)
    requires Inv(s) && i < SLOTS && s.jobs[i].Complete? && c < SLOTS && c != Waiting(s.clients, i, s.jobs[i].ticket)
    ensures !(s.clients[c].Open? && s.clients[c].job == Some(i))
  {
    hide Waiting;
    var w := Waiting(s.clients, i, s.jobs[i].ticket);
    assert ClientOk(s, c);
    if w < c && s.clients[c].Open? && s.clients[c].job.Some? {
      OneWaiter(s, w, c);
    }
  }

  lemma ReapSlotInv(s: State, i: nat)
    requires Inv(s) && i < SLOTS
    ensures Inv(ReapSlot(s, i))
    ensures !ReapSlot(s, i).jobs[i].Complete?
    ensures forall j :: 0 <= j < SLOTS && j != i ==> ReapSlot(s, i).jobs[j] == s.jobs[j]
  {
    var s' := ReapSlot(s, i);
    if s.jobs[i].Complete? {
      assert JobOk(s, i);
      var w := Waiting(s.clients, i, s.jobs[i].ticket);
      forall c | 0 <= c < |s'.clients| ensures ClientOk(s', c) {
        assert ClientOk(s, c);
        if c != w {
          OnlyWaiter(s, i, c);
        }
      }
      forall j | 0 <= j < |s'.jobs| ensures JobOk(s', j) {
        assert JobOk(s, j);
      }
      forall k | 0 <= k < |s'.deliveries| ensures DeliveryOk(s', k) {
        if k < |s.deliveries| {
          assert DeliveryOk(s, k);
        } else {
          assert ClientOk(s, w);
        }
      }
    }
  }

  lemma {:induction false} ReapInv(s: State, n: nat)
    requires Inv(s) && n <= SLOTS
    ensures Inv(ReapUpTo(s, n))
    ensures forall i :: 0 <= i < n ==> !ReapUpTo(s, n).jobs[i].Complete?
    ensures forall i :: 0 <= i < SLOTS ==>
              ReapUpTo(s, n).jobs[i] == if i < n && s.jobs[i].Complete? then Free else s.jobs[i]
  {
    hide Inv, ReapSlot;
    InvLengths(s);
    if n > 0 {
      ReapInv(s, n - 1);
      InvLengths(ReapUpTo(s, n - 1));
      ReapSlotInv(ReapUpTo(s, n - 1), n - 1);
      ReapSlotJob(ReapUpTo(s, n - 1), n - 1);
    }
  }

  lemma InvLengths(s: State)
    requires Inv(s)
    ensures |s.jobs| == SLOTS && |s.clients| == SLOTS && s.next < SLOTS
  {
  }

  lemma ReapSlotJob(s: State, i: nat)
    requires i < |s.jobs|
    ensures ReapSlot(s, i).jobs[i] == if s.jobs[i].Complete? then Free else s.jobs[i]
  {
  }

  lemma StepInv(s: State, step: Step)
    requires Inv(s)
    ensures |s.jobs| == SLOTS && s.next < SLOTS && Inv(Do(s, step))
  {
    InvLengths(s);
    if step.Enqueue? {
      EnqueueInv(s, step);
    } else if step.Pick? || step.Finish? {
      InspectorInv(s, step);
    } else if step.Reap? {
      ReapInv(s, |s.jobs|);
    } else {
      ConnectionInv(s, step);
    }
  }

  ghost function Run(s: State, steps: seq<Step>): (r: State)
    requires Inv(s)
    ensures Inv(r)
  {
    if steps == [] then s
    else
      var t := Run(s, steps[..|steps| - 1]);
      StepInv(t, steps[|steps| - 1]);
      Do(t, steps[|steps| - 1])
  }

  // ------------------------------------------------------------ the results, over every run

  /** An Enqueue step that queues a job. */
  predicate TakesSlot(s: State, step: Step) {
    step.Enqueue? && Readable(s, step.client) && FirstFree(s.jobs) < |s.jobs|
  }

  /** The steps of a run that queued a job, in order. */
  ghost function Origins(s0: State, steps: seq<Step>): (r: seq<nat>)
    requires Inv(s0)
    ensures forall k :: 0 <= k < |r| ==> r[k] < |steps| && steps[r[k]].Enqueue?
  {
    if steps == [] then []
    else
      var n := |steps| - 1;
      var before := Origins(s0, steps[..n]);
      assert forall k :: 0 <= k < |before| ==> steps[..n][before[k]] == steps[before[k]];
      if TakesSlot(Run(s0, steps[..n]), steps[n]) then before + [n] else before
  }

  /** A request carries what its step asked for, under the ticket the step's connection had then. */
  ghost predicate AskedBy(s0: State, steps: seq<Step>, n: nat, r: Request)
    requires Inv(s0) && n < |steps| && steps[n].Enqueue?
  {
    var then', step := Run(s0, steps[..n]), steps[n];
    && step.client < |then'.clients| && then'.clients[step.client].Open?
    && r.ticket == then'.clients[step.client].ticket
    && r.id == step.header.id
    && r.query.kind == step.header.kind
    && r.query.pid == step.pid
    && r.query.needs == step.needs
  }

  lemma StepRequests(s: State, step: Step)
    requires Inv(s)
    ensures |s.jobs| == SLOTS && s.next < SLOTS
    ensures
      var r, r' := s.requests, Do(s, step).requests;
      if TakesSlot(s, step) then
        && |r'| == |r| + 1 && r'[..|r|] == r
        && r'[|r|].ticket == s.clients[step.client].ticket && r'[|r|].id == step.header.id
        && r'[|r|].query.kind == step.header.kind && r'[|r|].query.pid == step.pid && r'[|r|].query.needs == step.needs
      else r' == r
  {
    InvLengths(s);
    if step.Reap? {
      hide Inv;
      ReapRequests(s, |s.jobs|);
    }
  }

  lemma {:induction false} ReapRequests(s: State, n: nat)
    requires n <= |s.jobs|
    ensures ReapUpTo(s, n).requests == s.requests
  {
    if n > 0 {
      ReapRequests(s, n - 1);
    }
  }

  /** Over every run the k-th request logged is that of the k-th step that queued a job. */
  lemma {:induction false} RequestsAreAsked(s0: State, steps: seq<Step>)
    requires Inv(s0) && s0.requests == []
    ensures |Run(s0, steps).requests| == |Origins(s0, steps)|
    ensures forall k :: 0 <= k < |Origins(s0, steps)| ==> AskedBy(s0, steps, Origins(s0, steps)[k], Run(s0, steps).requests[k])
  {
    hide Inv, Do;
    if steps != [] {
      var n := |steps| - 1;
      var s, before := Run(s0, steps[..n]), Origins(s0, steps[..n]);
      RequestsAreAsked(s0, steps[..n]);
      StepRequests(s, steps[n]);
      forall k | 0 <= k < |before| ensures AskedBy(s0, steps, before[k], s.requests[k]) {
        assert AskedBy(s0, steps[..n], before[k], s.requests[k]);
        assert steps[..n][..before[k]] == steps[..before[k]];
      }
    }
  }

  // ------------------------------------------------------------ where a result comes from

  /** A result is in a finished slot or was delivered. */
  ghost predicate Holds(s: State, serial: nat, r: Result) {
    || (exists i :: 0 <= i < |s.jobs| && s.jobs[i].Complete? && s.jobs[i].serial == serial && s.jobs[i].result == r)
    || (exists k :: 0 <= k < |s.deliveries| && s.deliveries[k].serial == serial && s.deliveries[k].result == r)
  }

  /** The inspector works on the request with this serial number. */
  predicate WorksOn(s: State, serial: nat) {
    s.working.Some? && s.working.value < |s.jobs| && !s.jobs[s.working.value].Free? && s.jobs[s.working.value].serial == serial
  }

  lemma StepResults(s: State, step: Step, serial: nat, r: Result)
    requires Inv(s) && |s.jobs| == SLOTS && s.next < SLOTS && Holds(Do(s, step), serial, r)
    ensures Holds(s, serial, r) || (step.Finish? && WorksOn(s, serial) && r.outcome == step.outcome)
  {
    hide Scan, Around;
    if step.Reap? {
      ReapResults(s, |s.jobs|, serial, r);
    }
  }

  lemma {:induction false} ReapResults(s: State, n: nat, serial: nat, r: Result)
    requires n <= |s.jobs| && Holds(ReapUpTo(s, n), serial, r)
    ensures Holds(s, serial, r)
  {
    if n > 0 {
      var t, t' := ReapUpTo(s, n - 1), ReapUpTo(s, n);
      assert t' == ReapSlot(t, n - 1);
      ReapSlotResults(t, n - 1, serial, r);
      ReapResults(s, n - 1, serial, r);
    }
  }

  lemma ReapSlotResults(s: State, i: nat, serial: nat, r: Result)
    requires i < |s.jobs| && Holds(ReapSlot(s, i), serial, r)
    ensures Holds(s, serial, r)
  {
    var s' := ReapSlot(s, i);
    if k :| 0 <= k < |s'.deliveries| && s'.deliveries[k].serial == serial && s'.deliveries[k].result == r {
      if k < |s.deliveries| {
        assert s.deliveries[k] == s'.deliveries[k];
      } else {
        assert s.jobs[i].Complete? && s.jobs[i].serial == serial && s.jobs[i].result == r;
      }
    } else {
      var j :| 0 <= j < |s'.jobs| && s'.jobs[j].Complete? && s'.jobs[j].serial == serial && s'.jobs[j].result == r;
      assert s.jobs[j] == s'.jobs[j];
    }
  }

  /** The n-th step is the inspector storing this outcome for the request. */
  ghost predicate FinishedBy(s0: State, steps: seq<Step>, n: nat, serial: nat, outcome: nat)
    requires Inv(s0)
  {
    n < |steps| && steps[n] == Finish(outcome) && WorksOn(Run(s0, steps[..n]), serial)
  }

  /** Over every run, a result's outcome is that of a Finish step taken while the inspector worked on its request. */
  lemma {:induction false} ResultsAreFinished(s0: State, steps: seq<Step>, serial: nat, r: Result)
    requires Init(s0) && Inv(s0) && Holds(Run(s0, steps), serial, r)
    ensures exists n: nat :: FinishedBy(s0, steps, n, serial, r.outcome)
  {
    hide Inv, Do;
    if steps == [] {
      assert false;
    } else {
      var m := |steps| - 1;
      var s := Run(s0, steps[..m]);
      InvLengths(s);
      StepResults(s, steps[m], serial, r);
      if Holds(s, serial, r) {
        ResultsAreFinished(s0, steps[..m], serial, r);
        var n: nat :| FinishedBy(s0, steps[..m], n, serial, r.outcome);
        assert steps[..m][..n] == steps[..n];
        assert FinishedBy(s0, steps, n, serial, r.outcome);
      } else {
        assert FinishedBy(s0, steps, m, serial, r.outcome);
      }
    }
  }

  /** A delivery answers the step that asked: it goes to the connection that step was taken for, under its type and id,
      and was computed for its pid and needs, with the outcome the inspector stored for that very request. */
  ghost predicate Answers(s0: State, steps: seq<Step>, d: Delivery, n: nat)
    requires Inv(s0)
  {
    && n < |steps| && steps[n].Enqueue?
    && var then', step := Run(s0, steps[..n]), steps[n];
       && step.client < |then'.clients| && then'.clients[step.client].Open?
       && d.ticket == then'.clients[step.client].ticket
       && d.header.kind == step.header.kind && d.header.id == step.header.id
       && d.result.query.kind == step.header.kind
       && d.result.query.pid == step.pid && d.result.query.needs == step.needs
       && exists m: nat :: FinishedBy(s0, steps, m, d.serial, d.result.outcome)
  }

  /** Under every interleaving: every delivery answers the step that queued its request, and no request is answered
      twice. */
  lemma DeliveredRightAndOnce(s0: State, steps: seq<Step>)
    requires Init(s0)
    ensures Inv(s0)
    ensures var s, origins := Run(s0, steps), Origins(s0, steps);
            && (forall k :: 0 <= k < |s.deliveries| ==>
                  s.deliveries[k].serial < |origins| && Answers(s0, steps, s.deliveries[k], origins[s.deliveries[k].serial]))
            && (forall k, l :: 0 <= k < l < |s.deliveries| ==> s.deliveries[k].serial != s.deliveries[l].serial)
  {
    InitInv(s0);
    hide Do;
    var s, origins := Run(s0, steps), Origins(s0, steps);
    RequestsAreAsked(s0, steps);
    forall k | 0 <= k < |s.deliveries|
      ensures s.deliveries[k].serial < |origins| && Answers(s0, steps, s.deliveries[k], origins[s.deliveries[k].serial])
    {
      var d := s.deliveries[k];
      assert DeliveryOk(s, k);
      assert AskedBy(s0, steps, origins[d.serial], s.requests[d.serial]);
      assert Holds(s, d.serial, d.result);
      ResultsAreFinished(s0, steps, d.serial, d.result);
    }
  }

  /** The inspector reads a running slot outside the lock: no step of the other thread changes it. */
  lemma RunningUntouched(s: State, step: Step, i: nat)
    requires Inv(s) && i < |s.jobs| && s.jobs[i].Running?
    ensures
      var job, after := s.jobs[i], Do(s, step).jobs[i];
      && (after == job || (step.Finish? && after.Complete?))
      && after.ticket == job.ticket && after.query == job.query && after.serial == job.serial
  {
    if step.Reap? {
      ReapInv(s, |s.jobs|);
    } else if step.Pick? || step.Finish? {
      assert JobOk(s, i);
    }
  }

  /** Reaping leaves no finished job behind, claimed or abandoned. */
  lemma ReapFrees(s: State, i: nat)
    requires Inv(s) && i < SLOTS && s.jobs[i].Complete?
    ensures Do(s, Reap).jobs[i].Free?
  {
    ReapInv(s, |s.jobs|);
  }

  /** A connection that is still waiting gets its result when its slot is reaped; if none is
      waiting, nobody gets it. */
  lemma ReapSlotDelivers(s: State, i: nat)
    requires Inv(s) && i < SLOTS && s.jobs[i].Complete?
    ensures
      var s', job := ReapSlot(s, i), s.jobs[i];
      && ((forall c :: 0 <= c < SLOTS ==> !(s.clients[c].Open? && s.clients[c].job == Some(i))) ==>
            s'.deliveries == s.deliveries)
      && forall c :: 0 <= c < SLOTS && s.clients[c].Open? && s.clients[c].job == Some(i) ==>
           && s'.deliveries == s.deliveries + [Delivery(s.clients[c].ticket, s.clients[c].incoming, job.serial, job.result)]
           && s'.clients[c] == s.clients[c].(job := None, writing := true)
  {
    var w := Waiting(s.clients, i, s.jobs[i].ticket);
    forall c | 0 <= c < SLOTS && s.clients[c].Open? && s.clients[c].job == Some(i) ensures c == w {
      assert ClientOk(s, c);
      if w < c {
        OneWaiter(s, w, c);
      }
    }
  }

  // ------------------------------------------------------------ fairness

  lemma DistanceLeads(next: nat, i: nat)
    requires next < SLOTS && i < SLOTS
    ensures Around(next, Distance(SLOTS, next, i)) == i
  {
  }

  /** Starting another job brings the scan strictly closer to a queued one. */
  lemma PickCloser(s: State, i: nat)
    requires Inv(s) && i < SLOTS && s.jobs[i].Queued? && Do(s, Pick) != s && Do(s, Pick).jobs[i].Queued?
    ensures Do(s, Pick).next < SLOTS && Distance(SLOTS, Do(s, Pick).next, i) < Distance(SLOTS, s.next, i)
  {
    hide Scan, Around, Inv;
    InvLengths(s);
    var d, e := Scan(s.jobs, s.next, 0), Distance(SLOTS, s.next, i);
    DistanceLeads(s.next, i);
    assert s.jobs[Around(s.next, e)].Queued?;
    assert d <= e;
    if d < e {
      StepsOn(s.next, d, e);
    }
  }

  lemma StepsOn(next: nat, d: nat, e: nat)
    requires next < SLOTS && d < e < SLOTS
    ensures Distance(SLOTS, Around(Around(next, d), 1), Around(next, e)) == e - d - 1
  {
    assert Around(next, d) == if next + d < SLOTS then next + d else next + d - SLOTS;
    assert Around(next, e) == if next + e < SLOTS then next + e else next + e - SLOTS;
  }

  lemma OthersKeepQueue(s: State, step: Step, i: nat)
    requires Inv(s) && i < SLOTS && s.jobs[i].Queued? && !step.Pick?
    ensures Do(s, step).jobs[i] == s.jobs[i] && Do(s, step).next == s.next
  {
    if step.Reap? {
      ReapInv(s, |s.jobs|);
      ReapNext(s, |s.jobs|);
    }
  }

  lemma {:induction false} ReapNext(s: State, n: nat)
    requires n <= |s.jobs|
    ensures ReapUpTo(s, n).next == s.next
  {
    if n > 0 {
      ReapNext(s, n - 1);
    }
  }

  /** How many jobs are started along a run. */
  ghost function Starts(s: State, steps: seq<Step>): nat
    requires Inv(s)
  {
    if steps == [] then 0
    else
      var n := |steps| - 1;
      var t := Run(s, steps[..n]);
      Starts(s, steps[..n]) + (if steps[n].Pick? && Do(t, Pick) != t then 1 else 0)
  }

  ghost predicate StaysQueued(s: State, steps: seq<Step>, i: nat)
    requires Inv(s) && i < SLOTS
  {
    if steps == [] then s.jobs[i].Queued?
    else StaysQueued(s, steps[..|steps| - 1], i) && Run(s, steps).jobs[i].Queued?
  }

  /** While a job waits in its slot, at most fifteen others are started, whatever is queued
      meanwhile. */
  lemma {:induction false} AtMostFifteenOthers(s: State, steps: seq<Step>, i: nat)
    requires Inv(s) && i < SLOTS && StaysQueued(s, steps, i)
    ensures Starts(s, steps) + Distance(SLOTS, Run(s, steps).next, i) <= Distance(SLOTS, s.next, i)
    ensures Starts(s, steps) <= SLOTS - 1
  {
    hide Inv, Do;
    if steps != [] {
      var n := |steps| - 1;
      AtMostFifteenOthers(s, steps[..n], i);
      var t := Run(s, steps[..n]);
      InvLengths(t);
      assert t.jobs[i].Queued? by { EndsQueued(s, steps[..n], i); }
      StepInv(t, steps[n]);
      if steps[n].Pick? {
        if Do(t, Pick) != t {
          PickCloser(t, i);
        }
      } else {
        OthersKeepQueue(t, steps[n], i);
      }
    }
  }

  lemma EndsQueued(s: State, steps: seq<Step>, i: nat)
    requires Inv(s) && i < SLOTS && StaysQueued(s, steps, i)
    ensures |Run(s, steps).jobs| == SLOTS && Run(s, steps).jobs[i].Queued?
  {
    InvLengths(Run(s, steps));
  }
}
