/**
 Steam and Wine processes: a few are recognised on their own, the rest inherit from a parent.
 The monitor marks them in at most four passes over the process table, in table order.
 */
module Steam {
  import opened Common

  const TABLE: nat := 8192
  const PASSES: nat := 4

  datatype Proc = Proc(pid: int, ppid: int)

  /** Index of the first process with this pid, or the length. */
  function FirstIndex(procs: seq<Proc>, pid: int): (j: nat)
    ensures j <= |procs|
    ensures j < |procs| ==> procs[j].pid == pid
    ensures forall k :: 0 <= k < j ==> procs[k].pid != pid
  {
    if procs == [] || procs[0].pid == pid then 0 else 1 + FirstIndex(procs[1..], pid)
  }

  /** The processes the pid table has room for. */
  function Tabled(procs: seq<Proc>): (t: seq<Proc>)
    ensures |t| <= |procs| && |t| <= TABLE
  {
    if |procs| <= TABLE then procs else procs[..TABLE]
  }

  /** Where a process's parent stands in the table, if it is there. */
  function Parent(procs: seq<Proc>, i: nat): (p: Option<nat>)
    requires i < |procs|
    ensures p.Some? ==> p.value < |procs|
  {
    var t := Tabled(procs);
    var j := FirstIndex(t, procs[i].ppid);
    if procs[i].ppid > 0 && j < |t| then Some(j) else None
  }

  /** A process's parent is the first process of the table with its parent pid. */
  lemma ParentIs(procs: seq<Proc>, i: nat, j: nat)
    requires i < |procs|
    ensures Parent(procs, i) == Some(j) <==>
              && procs[i].ppid > 0 && j < |procs| && j < 8192 && procs[j].pid == procs[i].ppid
              && forall k :: 0 <= k < j ==> procs[k].pid != procs[i].ppid
  {
    var t := Tabled(procs);
    var f := FirstIndex(t, procs[i].ppid);
    assert forall k :: 0 <= k < |t| ==> t[k] == procs[k];
    if j < |t| && procs[j].pid == procs[i].ppid && (forall k :: 0 <= k < j ==> procs[k].pid != procs[i].ppid) {
      assert t[j].pid == procs[i].ppid;
    }
  }

  /** What detection finds for process i: nothing for early processes, the parent's record if it has
      one, else its own. */
  function Detect<I>(procs: seq<Proc>, own: seq<Option<I>>, marks: seq<Option<I>>, i: nat): Option<I>
    requires |own| == |marks| == |procs| && i < |procs|
  {
    var p := Parent(procs, i);
    if procs[i].pid <= 10 then None
    else if p.Some? && marks[p.value].Some? then marks[p.value]
    else own[i]
  }

  function Visit<I>(procs: seq<Proc>, own: seq<Option<I>>, marks: seq<Option<I>>, i: nat): (m: seq<Option<I>>)
    requires |own| == |marks| == |procs| && i < |procs|
    ensures |m| == |procs|
  {
    if marks[i].Some? then marks else marks[i := Detect(procs, own, marks, i)]
  }

  /** A pass over the first n processes. */
  function PassTo<I>(procs: seq<Proc>, own: seq<Option<I>>, marks: seq<Option<I>>, n: nat): (m: seq<Option<I>>)
    requires |own| == |marks| == |procs| && n <= |procs|
    ensures |m| == |procs|
  {
    if n == 0 then marks else Visit(procs, own, PassTo(procs, own, marks, n - 1), n - 1)
  }

  function Pass<I>(procs: seq<Proc>, own: seq<Option<I>>, marks: seq<Option<I>>): (m: seq<Option<I>>)
    requires |own| == |marks| == |procs|
    ensures |m| == |procs|
  {
    PassTo(procs, own, marks, |procs|)
  }

  function Unmarked<I>(n: nat): (m: seq<Option<I>>)
    ensures |m| == n && forall i :: 0 <= i < n ==> m[i] == None
  {
    seq(n, i => None)
  }

  function After<I>(procs: seq<Proc>, own: seq<Option<I>>, k: nat): (m: seq<Option<I>>)
    requires |own| == |procs|
    ensures |m| == |procs|
  {
    if k == 0 then Unmarked(|procs|) else Pass(procs, own, After(procs, own, k - 1))
  }

  // ------------------------------------------------------------ chains of inheritance

  /** A line of parents from c[0] to a process recognised on its own. */
  ghost predicate Chain<I>(procs: seq<Proc>, own: seq<Option<I>>, c: seq<nat>)
    requires |own| == |procs|
  {
    && c != []
    && (forall k :: 0 <= k < |c| ==> c[k] < |procs| && procs[c[k]].pid > 10)
    && own[c[|c| - 1]].Some?
    && (forall k :: 0 <= k < |c| - 1 ==> Parent(procs, c[k]) == Some(c[k + 1]))
  }

  /** How often a child stands before its parent in the table. */
  function Inversions(c: seq<nat>): nat {
    if |c| <= 1 then 0 else (if c[0] < c[1] then 1 else 0) + Inversions(c[1..])
  }

  lemma ChainTail<I>(procs: seq<Proc>, own: seq<Option<I>>, c: seq<nat>)
    requires |own| == |procs| && Chain(procs, own, c) && |c| > 1
    ensures Chain(procs, own, c[1..]) && Parent(procs, c[0]) == Some(c[1])
  {
    var d := c[1..];
    forall k | 0 <= k < |d| - 1 ensures Parent(procs, d[k]) == Some(d[k + 1]) {
      assert Parent(procs, c[k + 1]) == Some(c[k + 2]);
    }
  }

  // ------------------------------------------------------------ marks only grow

  ghost predicate Grows<I>(m: seq<Option<I>>, n: seq<Option<I>>) {
    |m| == |n| && forall i :: 0 <= i < |m| && m[i].Some? ==> n[i] == m[i]
  }

  lemma {:induction false} PassGrows<I>(procs: seq<Proc>, own: seq<Option<I>>, marks: seq<Option<I>>, i: nat, n: nat)
    requires |own| == |marks| == |procs| && i <= n <= |procs|
    ensures Grows(PassTo(procs, own, marks, i), PassTo(procs, own, marks, n)) && Grows(marks, PassTo(procs, own, marks, n))
  {
    if i < n {
      PassGrows(procs, own, marks, i, n - 1);
    } else if n > 0 {
      PassGrows(procs, own, marks, 0, n - 1);
    }
  }

  /** In pass k, a process is marked when its turn comes if its chain has fewer than k inversions. */
  lemma {:induction false} MarkedInTurn<I>(procs: seq<Proc>, own: seq<Option<I>>, c: seq<nat>, k: nat)
    requires |own| == |procs| && Chain(procs, own, c) && Inversions(c) < k
    ensures PassTo(procs, own, After(procs, own, k - 1), c[0] + 1)[c[0]].Some?
    decreases |c|
  {
    hide Parent;
    var before, i := After(procs, own, k - 1), c[0];
    if |c| > 1 {
      ChainTail(procs, own, c);
      var p := c[1];
      if i < p {
        MarkedInTurn(procs, own, c[1..], k - 1);
        PassGrows(procs, own, After(procs, own, k - 2), p + 1, |procs|);
        PassGrows(procs, own, before, 0, i);
      } else {
        MarkedInTurn(procs, own, c[1..], k);
        if p < i {
          PassGrows(procs, own, before, p + 1, i);
        }
      }
    }
  }

  /** After pass k every process with a chain of at most k-1 inversions is marked. */
  lemma MarkedAfter<I>(procs: seq<Proc>, own: seq<Option<I>>, c: seq<nat>, k: nat)
    requires |own| == |procs| && Chain(procs, own, c) && Inversions(c) < k
    ensures After(procs, own, k)[c[0]].Some?
  {
    MarkedInTurn(procs, own, c, k);
    PassGrows(procs, own, After(procs, own, k - 1), c[0] + 1, |procs|);
  }

  // ------------------------------------------------------------ nothing else is marked

  /** A chain from i to a recognised process with fewer than k inversions. */
  ghost predicate Reaches<I>(procs: seq<Proc>, own: seq<Option<I>>, i: nat, k: nat)
    requires |own| == |procs|
  {
    exists c :: Chain(procs, own, c) && c[0] == i && Inversions(c) < k
  }

  /** A chain from i to a recognised process. */
  ghost predicate Linked<I>(procs: seq<Proc>, own: seq<Option<I>>, i: nat)
    requires |own| == |procs|
  {
    exists c :: Chain(procs, own, c) && c[0] == i
  }

  /** If i is marked, it has such a chain and carries the record of the chain's end. */
  ghost predicate Justified<I>(procs: seq<Proc>, own: seq<Option<I>>, marks: seq<Option<I>>, i: nat, k: nat)
    requires |own| == |marks| == |procs| && i < |procs|
  {
    marks[i].Some? ==>
      exists c :: Chain(procs, own, c) && c[0] == i && Inversions(c) < k && marks[i] == own[c[|c| - 1]]
  }

  /** The bound for process j once pass k + 1 has come to process n: one more for those it has visited. */
  function Allowed(j: nat, n: nat, k: nat): nat {
    if j < n then k + 1 else k
  }

  ghost predicate JustifiedTo<I>(procs: seq<Proc>, own: seq<Option<I>>, marks: seq<Option<I>>, n: nat, k: nat)
    requires |own| == |marks| == |procs|
  {
    forall j :: 0 <= j < |procs| ==> Justified(procs, own, marks, j, Allowed(j, n, k))
  }

  lemma ChainExtended<I>(procs: seq<Proc>, own: seq<Option<I>>, c: seq<nat>, i: nat)
    requires |own| == |procs| && Chain(procs, own, c) && i < |procs| && procs[i].pid > 10 && Parent(procs, i) == Some(c[0])
    ensures Chain(procs, own, [i] + c)
    ensures Inversions([i] + c) == Inversions(c) + if i < c[0] then 1 else 0
  {
    hide Parent;
    var d := [i] + c;
    assert d[1..] == c;
    forall k | 0 <= k < |d| - 1 ensures Parent(procs, d[k]) == Some(d[k + 1]) {
      if k > 0 {
        assert Parent(procs, c[k - 1]) == Some(c[k]);
      }
    }
  }

  /** What process n gets in pass k + 1 is justified: a parent before it was marked in this pass at the latest, a
      parent after it in an earlier one, and only the second costs an inversion. */
  lemma NewMarkJustified<I>(procs: seq<Proc>, own: seq<Option<I>>, marks: seq<Option<I>>, n: nat, k: nat)
    requires |own| == |marks| == |procs| && n < |procs| && JustifiedTo(procs, own, marks, n, k) && marks[n].None?
    ensures Justified(procs, own, Visit(procs, own, marks, n), n, k + 1)
  {
    hide Parent, Inversions;
    var m := Visit(procs, own, marks, n);
    var p := Parent(procs, n);
    if m[n].Some? {
      if p.Some? && marks[p.value].Some? {
        assert Justified(procs, own, marks, p.value, Allowed(p.value, n, k));
        var c :| Chain(procs, own, c) && c[0] == p.value && marks[p.value] == own[c[|c| - 1]] &&
                 Inversions(c) < Allowed(p.value, n, k);
        ChainExtended(procs, own, c, n);
        var d := [n] + c;
        assert d[|d| - 1] == c[|c| - 1] && d[0] == n;
      } else {
        var d := [n];
        assert Chain(procs, own, d) && d[0] == n && m[n] == own[d[|d| - 1]];
        OneInNone(n);
      }
    }
  }

  lemma OneInNone(i: nat)
    ensures Inversions([i]) == 0
  {
  }

  lemma JustifiedLonger<I>(procs: seq<Proc>, own: seq<Option<I>>, marks: seq<Option<I>>, i: nat, k: nat)
    requires |own| == |marks| == |procs| && i < |procs| && Justified(procs, own, marks, i, k)
    ensures Justified(procs, own, marks, i, k + 1)
  {
  }

  lemma VisitJustified<I>(procs: seq<Proc>, own: seq<Option<I>>, marks: seq<Option<I>>, n: nat, k: nat)
    requires |own| == |marks| == |procs| && n < |procs| && JustifiedTo(procs, own, marks, n, k)
    ensures JustifiedTo(procs, own, Visit(procs, own, marks, n), n + 1, k)
  {
    hide Chain, Inversions, Detect;
    var m, next := Visit(procs, own, marks, n), n + 1;
    forall j | 0 <= j < |procs| ensures Justified(procs, own, m, j, Allowed(j, next, k)) {
      assert Justified(procs, own, marks, j, Allowed(j, n, k));
      if j == n {
        if marks[n].None? {
          NewMarkJustified(procs, own, marks, n, k);
        } else {
          JustifiedLonger(procs, own, marks, n, k);
        }
      }
    }
  }

  lemma {:induction false} PassJustified<I>(procs: seq<Proc>, own: seq<Option<I>>, marks: seq<Option<I>>, n: nat, k: nat)
    requires |own| == |marks| == |procs| && n <= |procs| && JustifiedTo(procs, own, marks, 0, k)
    ensures JustifiedTo(procs, own, PassTo(procs, own, marks, n), n, k)
  {
    hide JustifiedTo, Visit;
    if n > 0 {
      PassJustified(procs, own, marks, n - 1, k);
      VisitJustified(procs, own, PassTo(procs, own, marks, n - 1), n - 1, k);
    }
  }

  /** After pass k whatever is marked has a chain with fewer than k inversions, and carries the record of that
      chain's end. */
  lemma {:induction false} OnlyChains<I>(procs: seq<Proc>, own: seq<Option<I>>, k: nat)
    requires |own| == |procs|
    ensures forall j :: 0 <= j < |procs| ==> Justified(procs, own, After(procs, own, k), j, k)
  {
    if k > 0 {
      hide Justified;
      var before, after, last := After(procs, own, k - 1), After(procs, own, k), k - 1;
      OnlyChains(procs, own, last);
      PassJustified(procs, own, before, |procs|, last);
      forall j | 0 <= j < |procs| ensures Justified(procs, own, after, j, k) {
        assert Justified(procs, own, after, j, Allowed(j, |procs|, last));
      }
    }
  }

  /** Pass k marks exactly the processes with a chain of at most k - 1 inversions. */
  lemma MarkedExactly<I>(procs: seq<Proc>, own: seq<Option<I>>, k: nat, j: nat)
    requires |own| == |procs| && j < |procs|
    ensures After(procs, own, k)[j].Some? <==> Reaches(procs, own, j, k)
  {
    hide Inversions, After;
    OnlyChains(procs, own, k);
    assert Justified(procs, own, After(procs, own, k), j, k);
    if Reaches(procs, own, j, k) {
      var c :| Chain(procs, own, c) && c[0] == j && Inversions(c) < k;
      MarkedAfter(procs, own, c, k);
    }
  }

  // ------------------------------------------------------------ which record a process gets

  /** A pass changes a process only at its turn. */
  lemma {:induction false} OnlyAtTurn<I>(procs: seq<Proc>, own: seq<Option<I>>, marks: seq<Option<I>>, n: nat, j: nat)
    requires |own| == |marks| == |procs| && n <= |procs| && j < |procs|
    ensures PassTo(procs, own, marks, n)[j] == if j < n then PassTo(procs, own, marks, j + 1)[j] else marks[j]
  {
    hide Detect;
    if n > 0 && j != n - 1 {
      OnlyAtTurn(procs, own, marks, n - 1, j);
    }
  }

  /** The parent of i was marked before i's turn in pass k. */
  ghost predicate ParentFirst<I>(procs: seq<Proc>, own: seq<Option<I>>, i: nat, p: nat, k: nat)
    requires |own| == |procs| && k > 0
  {
    (p < i && Reaches(procs, own, p, k)) || (p > i && Reaches(procs, own, p, k - 1))
  }

  /** The record a process gets in the pass that first marks it: its parent's, if the parent was marked by then, whatever
      the process itself would be recognised as; else its own. */
  lemma RecordExactly<I>(procs: seq<Proc>, own: seq<Option<I>>, i: nat, k: nat)
    requires |own| == |procs| && i < |procs| && k > 0
    requires After(procs, own, k)[i].Some? && After(procs, own, k - 1)[i].None?
    ensures
      var p, marks := Parent(procs, i), After(procs, own, k);
      marks[i] == if p.Some? && ParentFirst(procs, own, i, p.value, k) then marks[p.value] else own[i]
  {
    hide Parent, PassTo, Reaches;
    var before, p := After(procs, own, k - 1), Parent(procs, i);
    var turn := PassTo(procs, own, before, i);
    AtTurn(procs, own, before, i);
    OnlyAtTurn(procs, own, before, |procs|, i);
    OnlyAtTurn(procs, own, before, i, i);
    if p.Some? {
      OnlyAtTurn(procs, own, before, |procs|, p.value);
      OnlyAtTurn(procs, own, before, i, p.value);
      PassGrows(procs, own, before, i, |procs|);
      MarkedExactly(procs, own, k, p.value);
      MarkedExactly(procs, own, k - 1, p.value);
    }
  }

  lemma AtTurn<I>(procs: seq<Proc>, own: seq<Option<I>>, marks: seq<Option<I>>, i: nat)
    requires |own| == |marks| == |procs| && i < |procs|
    ensures PassTo(procs, own, marks, i + 1) == Visit(procs, own, PassTo(procs, own, marks, i), i)
  {
  }

  // ------------------------------------------------------------ a pass that finds nothing

  /** If a pass changes nothing, no step of it did. */
  lemma {:induction false} QuietSteps<I>(procs: seq<Proc>, own: seq<Option<I>>, marks: seq<Option<I>>, n: nat)
    requires |own| == |marks| == |procs| && n <= |procs| && PassTo(procs, own, marks, |procs|) == marks
    ensures PassTo(procs, own, marks, n) == marks
    decreases |procs| - n
  {
    var m := PassTo(procs, own, marks, n);
    PassGrows(procs, own, marks, n, |procs|);
    PassGrows(procs, own, marks, 0, n);
    forall i | 0 <= i < |procs| ensures m[i] == marks[i] {
      if m[i].Some? {
        assert marks[i] == m[i];
      }
    }
  }

  /** Then the marks are closed under inheritance: every chain's start is marked. */
  lemma {:induction false} QuietMeansClosed<I>(procs: seq<Proc>, own: seq<Option<I>>, marks: seq<Option<I>>, c: seq<nat>)
    requires |own| == |marks| == |procs| && Pass(procs, own, marks) == marks && Chain(procs, own, c)
    ensures marks[c[0]].Some?
    decreases |c|
  {
    hide Parent;
    QuietSteps(procs, own, marks, c[0]);
    QuietSteps(procs, own, marks, c[0] + 1);
    if |c| > 1 {
      ChainTail(procs, own, c);
      QuietMeansClosed(procs, own, marks, c[1..]);
    }
  }

  /** Once quiet, always quiet. */
  lemma {:induction false} QuietStays<I>(procs: seq<Proc>, own: seq<Option<I>>, j: nat, k: nat)
    requires |own| == |procs| && j <= k && Pass(procs, own, After(procs, own, j)) == After(procs, own, j)
    ensures After(procs, own, k) == After(procs, own, j)
  {
    if j < k {
      QuietStays(procs, own, j, k - 1);
    }
  }

  /** Once quiet, the marked processes are exactly those with any chain at all. */
  lemma QuietExactly<I>(procs: seq<Proc>, own: seq<Option<I>>, k: nat, j: nat)
    requires |own| == |procs| && j < |procs| && Pass(procs, own, After(procs, own, k)) == After(procs, own, k)
    ensures After(procs, own, k)[j].Some? <==> Linked(procs, own, j)
  {
    hide Inversions, After, Pass;
    MarkedExactly(procs, own, k, j);
    if c :| Chain(procs, own, c) && c[0] == j {
      QuietMeansClosed(procs, own, After(procs, own, k), c);
    }
  }
}
