/**
 The inspector queue as the two threads run it: slots and connections are array elements
 updated in place by scanning loops.  Each method is one critical section and takes exactly
 the step its specification names.
 */
module JobsServer {
  import opened Common
  import opened Jobs

  class JobServer {
    const jobs: array<Job>
    const clients: array<Client>
    var tickets: nat
    var next: nat
    var working: Option<nat>
    // bookkeeping: what was asked and what was answered
    var requests: seq<Request>
    var deliveries: seq<Delivery>

    ghost function View(): State
      reads this, jobs, clients
    {
      State(jobs[..], clients[..], tickets, next, working, requests, deliveries)
    }

    ghost predicate Valid()
      reads this, jobs, clients
    {
      jobs.Length == clients.Length == SLOTS && Inv(View())
    }

    constructor ()
      ensures Valid() && Init(View()) && fresh(jobs) && fresh(clients)
    {
      jobs := new Job[SLOTS](i => Free);
      clients := new Client[SLOTS](i => Closed);
      tickets, next, working, requests, deliveries := 0, 0, None, [], [];
      new;
      assert jobs[..] == seq(SLOTS, i => Free) && clients[..] == seq(SLOTS, i => Closed);
      InitInv(View());
    }

    /** The inspector's scan: the first queued slot from `next` on, going round. */
    method PickJob()
      requires Valid() && working.None?
      modifies this`next, this`working, jobs
      ensures Valid() && View() == Do(old(View()), Pick)
    {
      hide Inv, Around;
      InvLengths(View());
      StepInv(View(), Pick);
      ghost var before := jobs[..];
      var d := 0;
      while d < SLOTS && !jobs[Around(next, d)].Queued?
        invariant d <= SLOTS && Scan(before, next, 0) == Scan(before, next, d)
      {
        d := d + 1;
      }
      if d < SLOTS {
        var i := Around(next, d);
        var job := jobs[i];
        jobs[i] := Running(job.ticket, job.query, job.serial);
        next := Around(i, 1);
        working := Some(i);
        assert jobs[..] == before[i := Running(job.ticket, job.query, job.serial)];
      }
    }

    /** The inspector stores a result; the query is read from the slot itself. */
    method FinishJob(outcome: nat)
      requires Valid() && working.Some?
      modifies this`working, jobs
      ensures Valid() && View() == Do(old(View()), Finish(outcome))
    {
      InvLengths(View());
      StepInv(View(), Finish(outcome));
      ghost var before := jobs[..];
      var i := working.value;
      var job := jobs[i];
      assert before[i].Running?;
      jobs[i] := Complete(job.ticket, job.query, job.serial, Result(job.query, outcome));
      working := None;
      assert jobs[..] == before[i := jobs[i]];
    }

    /** A request for the inspector: takes the first free slot, or is answered with "busy". */
    method EnqueueJob(c: nat, h: Header, pid: nat, needs: nat) returns (busy: bool)
      requires Valid() && Readable(View(), c)
      modifies this`requests, jobs, clients
      ensures Valid() && View() == Do(old(View()), Enqueue(c, h, pid, needs))
      ensures busy <==> forall i :: 0 <= i < SLOTS ==> !old(View()).jobs[i].Free?
      ensures !busy ==>
                var client, n := old(clients[c]), |old(requests)|;
                && clients[c].job.Some? && clients[c].job.value < SLOTS && |requests| == n + 1
                && jobs[clients[c].job.value] == Queued(client.ticket, requests[n].query, n)
                && requests[n].ticket == client.ticket && requests[n].id == h.id
                && requests[n].query.kind == h.kind && requests[n].query.pid == pid && requests[n].query.needs == needs
    {
      hide Inv;
      InvLengths(View());
      StepInv(View(), Enqueue(c, h, pid, needs));
      ghost var before, whom := jobs[..], clients[..];
      assert whom[c] == clients[c];
      var i := 0;
      while i < SLOTS && !jobs[i].Free?
        invariant i <= SLOTS && forall j :: 0 <= j < i ==> !before[j].Free?
      {
        i := i + 1;
      }
      FreeIs(before, i);
      var client := clients[c].(incoming := h);
      busy := i == SLOTS;
      if busy {
        clients[c] := client.(writing := true);
      } else {
        var q := Query(h.kind, pid, needs);
        jobs[i] := Queued(client.ticket, q, |requests|);
        clients[c] := client.(job := Some(i));
        requests := requests + [Request(client.ticket, h.id, q)];
        assert jobs[..] == before[i := jobs[i]];
      }
      assert clients[..] == whom[c := clients[c]];
    }

    /** The socket thread's reaping: every finished slot, to whoever still waits for it. */
    method ReapJobs()
      requires Valid()
      modifies this`deliveries, jobs, clients
      ensures Valid() && View() == Do(old(View()), Reap)
      ensures forall i :: 0 <= i < SLOTS ==> !jobs[i].Complete?
    {
      hide Inv, ReapSlot;
      ghost var s := View();
      InvLengths(s);
      StepInv(s, Reap);
      for i := 0 to SLOTS
        invariant View() == ReapUpTo(s, i)
      {
        ReapOne(i);
      }
      ReapInv(s, SLOTS);
      assert forall i :: 0 <= i < SLOTS ==> jobs[i] == View().jobs[i];
    }

    method ReapOne(i: nat)
      requires jobs.Length == clients.Length == SLOTS && i < SLOTS
      modifies this`deliveries, jobs, clients
      ensures View() == ReapSlot(old(View()), i)
    {
      ghost var before, whom := jobs[..], clients[..];
      var job := jobs[i];
      if job.Complete? {
        var c := 0;
        while c < SLOTS && !(clients[c].Open? && clients[c].job == Some(i) && clients[c].ticket == job.ticket)
          invariant c <= SLOTS
          invariant forall d :: 0 <= d < c ==>
                      !(whom[d].Open? && whom[d].job == Some(i) && whom[d].ticket == job.ticket)
        {
          c := c + 1;
        }
        WaiterIs(whom, i, job.ticket, c);
        if c < SLOTS {
          deliveries := deliveries + [Delivery(clients[c].ticket, clients[c].incoming, job.serial, job.result)];
          clients[c] := clients[c].(job := None, writing := true);
          assert clients[..] == whom[c := clients[c]];
        }
        jobs[i] := Free;
        assert jobs[..] == before[i := Free];
      }
    }
  }

  lemma FreeIs(jobs: seq<Job>, i: nat)
    requires i <= |jobs| && (i < |jobs| ==> jobs[i].Free?) && forall j :: 0 <= j < i ==> !jobs[j].Free?
    ensures FirstFree(jobs) == i
  {
  }

  lemma WaiterIs(clients: seq<Client>, i: nat, ticket: nat, c: nat)
    requires c <= |clients|
    requires c < |clients| ==> clients[c].Open? && clients[c].job == Some(i) && clients[c].ticket == ticket
    requires forall d :: 0 <= d < c ==> !(clients[d].Open? && clients[d].job == Some(i) && clients[d].ticket == ticket)
    ensures Waiting(clients, i, ticket) == c
  {
  }
}
