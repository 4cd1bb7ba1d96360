/**
 The set of watched processes: the roots a user asked for and all their descendants, found by a
 breadth-first walk over one reading of the process table and kept as a sorted array.
 */
module WatchSet {
  import opened Common

  const MAX_ROOTS: nat := 64

  datatype Entry = Entry(pid: int, ppid: int)

  /** T contains the old members and the root, and every child of the root and of each member not old. */
  ghost predicate Takes(table: seq<Entry>, kept: set<int>, root: int, t: set<int>) {
    && kept + {root} <= t
    && forall i :: 0 <= i < |table| && Due(table[i].ppid, kept, root, t) ==> table[i].pid in t
  }

  predicate Due(pid: int, kept: set<int>, root: int, t: set<int>) {
    pid in t && (pid !in kept || pid == root)
  }

  ghost predicate Closed(table: seq<Entry>, t: set<int>) {
    forall i :: 0 <= i < |table| && table[i].ppid in t ==> table[i].pid in t
  }

  /** T contains the roots and is closed under "child of". */
  ghost predicate Covers(table: seq<Entry>, roots: set<int>, t: set<int>) {
    roots <= t && Closed(table, t)
  }

  /** The least such set. */
  ghost predicate Least(table: seq<Entry>, roots: set<int>, w: set<int>) {
    Covers(table, roots, w) && forall t :: Covers(table, roots, t) ==> w <= t
  }

  /** The least set a walk from the root can arrive at, starting from the old members. */
  ghost predicate LeastTaken(table: seq<Entry>, kept: set<int>, root: int, w: set<int>) {
    Takes(table, kept, root, w) && forall t :: Takes(table, kept, root, t) ==> w <= t
  }

  /** A walk that starts from the least set for some roots ends with the least set for one root more. */
  lemma OneMoreRoot(table: seq<Entry>, roots: set<int>, kept: set<int>, root: int, w: set<int>)
    requires Least(table, roots, kept) && LeastTaken(table, kept, root, w)
    ensures Least(table, roots + {root}, w)
  {
    forall t | Covers(table, roots + {root}, t) ensures w <= t {
      assert Covers(table, roots, t);
      assert Takes(table, kept, root, t);
    }
  }

  lemma NoRoots(table: seq<Entry>)
    ensures Least(table, {}, {})
  {
  }

  /** There is only one least set. */
  lemma LeastUnique(table: seq<Entry>, roots: set<int>, v: set<int>, w: set<int>)
    requires Least(table, roots, v) && Least(table, roots, w)
    ensures v == w
  {
    assert Covers(table, roots, v) && Covers(table, roots, w);
  }

  /** A line of processes, each the child of the one before. */
  ghost predicate Line(table: seq<Entry>, c: seq<int>) {
    c != [] && forall k :: 0 <= k < |c| - 1 ==> Child(table, c[k], c[k + 1])
  }

  predicate Child(table: seq<Entry>, p: int, c: int) {
    Entry(c, p) in table
  }

  /** Every descendant of a root is in a covering set. */
  lemma {:induction false} DescendantsIn(table: seq<Entry>, roots: set<int>, w: set<int>, c: seq<int>)
    requires Covers(table, roots, w) && Line(table, c) && c[0] in roots
    ensures c[|c| - 1] in w
  {
    if |c| > 1 {
      var d := c[..|c| - 1];
      forall k | 0 <= k < |d| - 1 ensures Child(table, d[k], d[k + 1]) {
        assert Child(table, c[k], c[k + 1]);
      }
      DescendantsIn(table, roots, w, d);
      assert Child(table, c[|c| - 2], c[|c| - 1]);
    }
  }

  // ------------------------------------------------------------ what the walk keeps

  function Pids(table: seq<Entry>): (s: set<int>)
    ensures forall i :: 0 <= i < |table| ==> table[i].pid in s
    ensures |s| <= |table|
  {
    if table == [] then {} else
      var n := |table| - 1;
      assert table == table[..n] + [table[n]];
      Pids(table[..n]) + {table[n].pid}
  }

  /** Some process not yet queued is left, so there is room in the queue. */
  lemma RoomInQueue(table: seq<Entry>, pushed: set<int>, pid: int)
    requires pushed <= Pids(table) && pid in Pids(table) && pid !in pushed
    ensures |pushed| < |table|
  {
    SubsetSize(pushed + {pid}, Pids(table));
  }

  /** Children already taken care of: those of members neither old nor waiting, and those of `parent`
      among the first n entries. */
  ghost predicate Walked(table: seq<Entry>, kept: set<int>, root: int, w: set<int>, waiting: set<int>) {
    forall i :: 0 <= i < |table| && Due(table[i].ppid, kept, root, w - waiting) ==> table[i].pid in w
  }

  ghost predicate Scanned(table: seq<Entry>, parent: int, n: nat, w: set<int>)
    requires n <= |table|
  {
    forall i :: 0 <= i < n && table[i].ppid == parent ==> table[i].pid in w
  }

  ghost predicate Needed(table: seq<Entry>, kept: set<int>, root: int, w: set<int>) {
    forall t :: Takes(table, kept, root, t) ==> w <= t
  }

  lemma NeededMore(table: seq<Entry>, kept: set<int>, root: int, w: set<int>, i: nat)
    requires Needed(table, kept, root, w) && i < |table| && table[i].ppid in w
    requires table[i].ppid !in kept || table[i].ppid == root
    ensures Needed(table, kept, root, w + {table[i].pid})
  {
  }

  lemma ScanDone(table: seq<Entry>, kept: set<int>, root: int, w: set<int>, parent: int, waiting: set<int>)
    requires Walked(table, kept, root, w, waiting + {parent}) && Scanned(table, parent, |table|, w)
    ensures Walked(table, kept, root, w, waiting)
  {
  }

  /** Watching one more process that waits its turn keeps what was walked. */
  lemma WalkedMore(table: seq<Entry>, kept: set<int>, root: int, w: set<int>, waiting: set<int>, pid: int)
    requires Walked(table, kept, root, w, waiting)
    ensures Walked(table, kept, root, w + {pid}, waiting + {pid})
  {
  }

  /** Where a walk stands: `waiting` are in the queue, `pushed` were ever put there after the root. */
  ghost predicate Walking(table: seq<Entry>, kept: set<int>, root: int, w: set<int>, waiting: set<int>,
                          pushed: set<int>)
  {
    && kept + {root} <= w && Needed(table, kept, root, w) && Walked(table, kept, root, w, waiting)
    && (forall q :: q in waiting ==> Due(q, kept, root, w))
    && pushed <= Pids(table) && pushed <= w
  }

  lemma WalkStarts(table: seq<Entry>, kept: set<int>, root: int)
    ensures Walking(table, kept, root, kept + {root}, {root}, {})
  {
  }

  /** A child not yet watched joins the set and the queue, and there is room for it. */
  lemma WalkFinds(table: seq<Entry>, kept: set<int>, root: int, w: set<int>, waiting: set<int>, pushed: set<int>, i: nat)
    requires Walking(table, kept, root, w, waiting, pushed) && i < |table|
    requires Due(table[i].ppid, kept, root, w) && table[i].pid !in w
    ensures Walking(table, kept, root, w + {table[i].pid}, waiting + {table[i].pid}, pushed + {table[i].pid})
    ensures |pushed| < |table| && |pushed + {table[i].pid}| == |pushed| + 1
  {
    hide Takes, Pids;
    NeededMore(table, kept, root, w, i);
    WalkedMore(table, kept, root, w, waiting, table[i].pid);
    RoomInQueue(table, pushed, table[i].pid);
  }

  lemma WalkScanned(table: seq<Entry>, kept: set<int>, root: int, w: set<int>, parent: int, waiting: set<int>, pushed: set<int>)
    requires Walking(table, kept, root, w, waiting + {parent}, pushed) && Scanned(table, parent, |table|, w)
    ensures Walking(table, kept, root, w, waiting, pushed)
  {
    hide Takes, Pids;
    ScanDone(table, kept, root, w, parent, waiting);
  }

  lemma WalkEnds(table: seq<Entry>, kept: set<int>, root: int, w: set<int>, pushed: set<int>)
    requires Walking(table, kept, root, w, {}, pushed)
    ensures LeastTaken(table, kept, root, w)
  {
    assert w - {} == w;
  }
}

/** The set and the walk as the monitor keeps them. */
module WatchSetServer {
  import opened WatchSet

  ghost predicate Sorted(s: seq<int>) {
    forall i, j :: 0 <= i < j < |s| ==> s[i] < s[j]
  }

  ghost function Elements(s: seq<int>): set<int> {
    set x | x in s
  }

  method Copy(a: array<int>, n: nat, size: nat) returns (b: array<int>)
    requires n <= a.Length && n <= size
    ensures fresh(b) && b.Length == size && b[..n] == a[..n]
  {
    b := new int[size];
    for k := 0 to n
      invariant b[..k] == a[..k]
    {
      b[k] := a[k];
    }
  }

  /** Moves a[i..n] one place up. */
  method OpenGap(a: array<int>, i: nat, n: nat)
    requires i <= n < a.Length
    modifies a
    ensures a[..i] == old(a[..i]) && a[i + 1..n + 1] == old(a[i..n])
  {
    var k := n;
    while k > i
      invariant i <= k <= n
      invariant a[..k] == old(a[..k]) && a[k + 1..n + 1] == old(a[k..n])
    {
      k := k - 1;
      a[k + 1] := a[k];
    }
  }

  /** Moves a[i + 1..n] one place down. */
  method CloseGap(a: array<int>, i: nat, n: nat)
    requires i < n <= a.Length
    modifies a
    ensures a[..i] == old(a[..i]) && a[i..n - 1] == old(a[i + 1..n])
  {
    var k := i;
    while k < n - 1
      invariant i <= k <= n - 1
      invariant a[..i] == old(a[..i]) && a[i..k] == old(a[i + 1..k + 1]) && a[k..n] == old(a[k..n])
    {
      assert a[k + 1] == a[k..n][1] == old(a[k + 1]);
      a[k] := a[k + 1];
      k := k + 1;
    }
  }

  class PidSet {
    var pids: array<int>
    var count: nat

    ghost predicate Valid()
      reads this, pids
    {
      count <= pids.Length && Sorted(pids[..count])
    }

    ghost function Members(): set<int>
      reads this, pids
      requires Valid()
    {
      Elements(pids[..count])
    }

    constructor ()
      ensures Valid() && fresh(pids) && Members() == {}
    {
      pids := new int[0];
      count := 0;
    }

    /** Binary search: where pid is, or would be inserted. */
    method Lower(pid: int) returns (lo: nat)
      requires Valid()
      ensures lo <= count
      ensures forall k :: 0 <= k < lo ==> pids[k] < pid
      ensures forall k :: lo <= k < count ==> pids[k] >= pid
    {
      lo := 0;
      var hi := count;
      while lo < hi
        invariant lo <= hi <= count
        invariant forall k :: 0 <= k < lo ==> pids[k] < pid
        invariant forall k :: hi <= k < count ==> pids[k] >= pid
      {
        var mid := lo + (hi - lo) / 2;
        assert pids[..count][mid] == pids[mid];
        assert forall k :: 0 <= k < count ==> pids[..count][k] == pids[k];
        if pids[mid] < pid {
          lo := mid + 1;
        } else {
          hi := mid;
        }
      }
    }

    method Contains(pid: int) returns (b: bool)
      requires Valid()
      ensures b <==> pid in Members()
    {
      var i := Lower(pid);
      b := i < count && pids[i] == pid;
      assert forall k :: 0 <= k < count ==> pids[..count][k] == pids[k];
    }

    /** Makes room for one more, doubling the array when it is full. */
    method Reserve()
      requires Valid()
      modifies this, pids
      ensures Valid() && count == old(count) < pids.Length && pids[..count] == old(pids[..count])
      ensures pids == old(pids) || fresh(pids)
    {
      if count >= pids.Length {
        pids := Copy(pids, count, if pids.Length > 0 then pids.Length * 2 else 128);
      }
    }

    /** Puts pid at index i. */
    method Insert(i: nat, pid: int)
      requires Valid() && i <= count && Sorted(pids[..i] + [pid] + pids[i..count])
      modifies this, pids
      ensures Valid() && (pids == old(pids) || fresh(pids))
      ensures pids[..count] == old(pids[..i] + [pid] + pids[i..count])
    {
      hide Sorted;
      ghost var s := pids[..count];
      Reserve();
      OpenGap(pids, i, count);
      pids[i] := pid;
      count := count + 1;
      assert pids[..count] == s[..i] + [pid] + s[i..];
      assert s[..i] == old(pids[..i]) && s[i..] == old(pids[i..count]);
    }

    method Add(pid: int) returns (added: bool)
      requires Valid()
      modifies this, pids
      ensures Valid() && (pids == old(pids) || fresh(pids))
      ensures Members() == old(Members()) + {pid}
      ensures added <==> pid !in old(Members())
    {
      var i := Lower(pid);
      ghost var s := pids[..count];
      assert forall k :: 0 <= k < count ==> s[k] == pids[k];
      if i < count && pids[i] == pid {
        assert s[i] == pid;
        return false;
      }
      Spliced(s, i, pid);
      assert s[..i] == pids[..i] && s[i..] == pids[i..count];
      Insert(i, pid);
      return true;
    }

    method Remove(pid: int) returns (removed: bool)
      requires Valid()
      modifies this, pids
      ensures Valid() && pids == old(pids)
      ensures Members() == old(Members()) - {pid}
      ensures removed <==> pid in old(Members())
    {
      var i := Lower(pid);
      ghost var s := pids[..count];
      assert forall k :: 0 <= k < count ==> s[k] == pids[k];
      if i >= count || pids[i] != pid {
        return false;
      }
      assert s[i] == pid;
      CloseGap(pids, i, count);
      count := count - 1;
      assert pids[..count] == s[..i] + s[i + 1..];
      Cut(s, i);
      return true;
    }
  }

  lemma Spliced(s: seq<int>, i: nat, pid: int)
    requires Sorted(s) && i <= |s|
    requires (forall k :: 0 <= k < i ==> s[k] < pid) && (forall k :: i <= k < |s| ==> s[k] > pid)
    ensures Sorted(s[..i] + [pid] + s[i..])
    ensures Elements(s[..i] + [pid] + s[i..]) == Elements(s) + {pid}
    ensures pid !in Elements(s)
  {
    assert s == s[..i] + s[i..];
  }

  lemma Cut(s: seq<int>, i: nat)
    requires Sorted(s) && i < |s|
    ensures Sorted(s[..i] + s[i + 1..])
    ensures Elements(s[..i] + s[i + 1..]) == Elements(s) - {s[i]}
  {
    assert s == s[..i] + [s[i]] + s[i + 1..];
  }

  lemma QueueEnds(q: seq<int>, x: int)
    ensures Elements(q + [x]) == Elements(q) + {x}
    ensures q != [] ==> Elements(q) == Elements(q[1..]) + {q[0]}
  {
    if q != [] {
      assert q == [q[0]] + q[1..];
    }
  }

  /** Scans the table once for the children of one process. */
  method ScanChildren(watched: PidSet, table: seq<Entry>, parent: int, queue: array<int>, head: nat, tail: nat,
                      ghost kept: set<int>, ghost root: int, ghost pushed: set<int>)
    returns (tail': nat, ghost pushed': set<int>)
    requires watched.Valid() && queue != watched.pids && queue.Length == |table| + 1
    requires head <= tail <= queue.Length && tail == |pushed| + 1
    requires Walking(table, kept, root, watched.Members(), Elements(queue[head..tail]) + {parent}, pushed)
    modifies watched, watched.pids, queue
    ensures watched.Valid() && (watched.pids == old(watched.pids) || fresh(watched.pids))
    ensures tail <= tail' <= queue.Length && tail' == |pushed'| + 1
    ensures Walking(table, kept, root, watched.Members(), Elements(queue[head..tail']), pushed')
  {
    hide Walking, Elements, Sorted;
    tail', pushed' := tail, pushed;
    for i := 0 to |table|
      invariant watched.Valid() && (watched.pids == old(watched.pids) || fresh(watched.pids)) && queue != watched.pids
      invariant tail <= tail' <= queue.Length && tail' == |pushed'| + 1
      invariant Walking(table, kept, root, watched.Members(), Elements(queue[head..tail']) + {parent}, pushed')
      invariant Scanned(table, parent, i, watched.Members())
    {
      if table[i].ppid == parent {
        var pid := table[i].pid;
        var there := watched.Contains(pid);
        if !there {
          ghost var w, q := watched.Members(), queue[head..tail'];
          ParentDue(table, kept, root, w, Elements(q), parent, pushed');
          WalkFinds(table, kept, root, w, Elements(q) + {parent}, pushed', i);
          var _ := watched.Add(pid);
          if tail' <= |table| {
            queue[tail'] := pid;
            tail' := tail' + 1;
            pushed' := pushed' + {pid};
            assert queue[head..tail'] == q + [pid];
            QueueEnds(q, pid);
            assert Elements(q) + {parent} + {pid} == Elements(q + [pid]) + {parent};
          }
        }
      }
    }
    WalkScanned(table, kept, root, watched.Members(), parent, Elements(queue[head..tail']), pushed');
  }

  lemma ParentDue(table: seq<Entry>, kept: set<int>, root: int, w: set<int>, waiting: set<int>, parent: int, pushed: set<int>)
    requires Walking(table, kept, root, w, waiting + {parent}, pushed)
    ensures Due(parent, kept, root, w)
  {
  }

  /** The walk from one root. It ends on every table, cyclic ones too, and the queue never overflows. */
  method EnumerateDescendants(watched: PidSet, table: seq<Entry>, root: int)
    requires watched.Valid()
    modifies watched, watched.pids
    ensures watched.Valid() && (watched.pids == old(watched.pids) || fresh(watched.pids))
    ensures LeastTaken(table, old(watched.Members()), root, watched.Members())
  {
    hide Walking, Elements, Sorted;
    ghost var kept := watched.Members();
    var queue := new int[|table| + 1];
    queue[0] := root;
    var head, tail := 0, 1;
    ghost var pushed: set<int> := {};
    var _ := watched.Add(root);
    WalkStarts(table, kept, root);
    SingleQueue(queue[..1], root);
    assert queue[0..1] == queue[..1];
    while head < tail
      invariant watched.Valid() && (watched.pids == old(watched.pids) || fresh(watched.pids))
      invariant queue != watched.pids && fresh(queue)
      invariant head <= tail <= queue.Length && tail == |pushed| + 1
      invariant Walking(table, kept, root, watched.Members(), Elements(queue[head..tail]), pushed)
      decreases queue.Length - head
    {
      ghost var q := queue[head..tail];
      var parent := queue[head];
      QueueEnds(q, 0);
      assert q[0] == parent && q[1..] == queue[head + 1..tail];
      tail, pushed := ScanChildren(watched, table, parent, queue, head + 1, tail, kept, root, pushed);
      head := head + 1;
    }
    NoQueue(queue[head..tail]);
    WalkEnds(table, kept, root, watched.Members(), pushed);
  }

  lemma SingleQueue(q: seq<int>, x: int)
    requires q == [x]
    ensures Elements(q) == {x}
  {
  }

  lemma NoQueue(q: seq<int>)
    requires q == []
    ensures Elements(q) == {}
  {
  }

  /** The monitor's roots and what they make it watch. */
  class Monitor {
    var roots: seq<int>
    var watched: PidSet

    ghost predicate Valid()
      reads this, watched, watched.pids
    {
      |roots| <= MAX_ROOTS && watched.Valid() && forall i, j :: 0 <= i < j < |roots| ==> roots[i] != roots[j]
    }

    constructor ()
      ensures Valid() && roots == [] && watched.Members() == {} && fresh(watched) && fresh(watched.pids)
    {
      roots := [];
      watched := new PidSet();
    }

    /** Rebuilds the set from the roots. */
    method Refresh(table: seq<Entry>)
      requires Valid()
      modifies this`watched
      ensures Valid() && roots == old(roots) && fresh(watched) && fresh(watched.pids)
      ensures Least(table, Elements(roots), watched.Members())
    {
      hide Least, LeastTaken, Elements, Sorted;
      watched := new PidSet();
      NoRoots(table);
      NoQueue(roots[..0]);
      for i := 0 to |roots|
        invariant Valid() && roots == old(roots) && fresh(watched) && fresh(watched.pids)
        invariant Least(table, Elements(roots[..i]), watched.Members())
      {
        ghost var w := watched.Members();
        EnumerateDescendants(watched, table, roots[i]);
        OneMoreRoot(table, Elements(roots[..i]), w, roots[i], watched.Members());
        QueueEnds(roots[..i], roots[i]);
        assert roots[..i + 1] == roots[..i] + [roots[i]];
      }
      assert roots[..|roots|] == roots;
    }

    /** Adds a root and walks from it; refused for an illegal pid or when the roots are full. */
    method Watch(pid: int, table: seq<Entry>) returns (ok: bool)
      requires Valid()
      modifies this, watched, watched.pids
      ensures Valid() && watched == old(watched)
      ensures ok <==> pid > 0 && |old(roots)| < MAX_ROOTS
      ensures !ok || pid in old(roots) ==> roots == old(roots) && watched.Members() == old(watched.Members())
      ensures ok && pid !in old(roots) ==>
                roots == old(roots) + [pid] && LeastTaken(table, old(watched.Members()), pid, watched.Members())
      // after a rebuild from the same table the set stays the least one
      ensures old(Least(table, Elements(roots), watched.Members())) && ok ==>
                Least(table, Elements(roots), watched.Members())
    {
      hide Least, LeastTaken, Elements, Sorted;
      if pid <= 0 || |roots| >= MAX_ROOTS {
        return false;
      }
      for i := 0 to |roots|
        invariant forall j :: 0 <= j < i ==> roots[j] != pid
      {
        if roots[i] == pid {
          return true;
        }
      }
      ghost var w, r := watched.Members(), roots;
      roots := roots + [pid];
      EnumerateDescendants(watched, table, pid);
      QueueEnds(r, pid);
      if Least(table, Elements(r), w) {
        OneMoreRoot(table, Elements(r), w, pid, watched.Members());
      }
      return true;
    }

    /** Removes a root, moving the last one into its place, and rebuilds the set from those left. */
    method Unwatch(pid: int, table: seq<Entry>) returns (ok: bool)
      requires Valid()
      modifies this
      ensures Valid()
      ensures ok <==> pid > 0 && pid in old(roots)
      ensures !ok ==> roots == old(roots) && watched == old(watched)
      ensures ok ==> Elements(roots) == old(Elements(roots)) - {pid} && fresh(watched) && fresh(watched.pids)
      ensures ok ==> Least(table, Elements(roots), watched.Members())
    {
      hide Least, Sorted;
      if pid <= 0 {
        return false;
      }
      for i := 0 to |roots|
        invariant roots == old(roots) && watched == old(watched) && Valid()
        invariant forall j :: 0 <= j < i ==> roots[j] != pid
      {
        if roots[i] == pid {
          SwapRemoved(roots, i);
          var last := |roots| - 1;
          roots := roots[i := roots[last]][..last];
          Refresh(table);
          return true;
        }
      }
      return false;
    }
  }

  lemma SwapRemoved(r: seq<int>, i: nat)
    requires i < |r| && forall i, j :: 0 <= i < j < |r| ==> r[i] != r[j]
    ensures var s := r[i := r[|r| - 1]][..|r| - 1];
            Elements(s) == Elements(r) - {r[i]} && forall i, j :: 0 <= i < j < |s| ==> s[i] != s[j]
  {
    var last := |r| - 1;
    var s := r[i := r[last]][..last];
    forall x | x in r && x != r[i] ensures x in s {
      var k :| 0 <= k < |r| && r[k] == x;
      assert s[if k == last then i else k] == x;
    }
    forall k | 0 <= k < |s| ensures s[k] in r && s[k] != r[i] {
      assert s[k] == r[if k == i then last else k];
    }
  }
}
