/** The passes as the monitor runs them: an open-addressed pid table, then marks filled in place. */
module SteamPasses {
  import opened Common
  import opened Steam

  function Home(pid: int): (h: nat)
    ensures h < TABLE
  {
    pid % TABLE
  }

  /** Every slot fewer than k steps from h is in use. */
  ghost predicate InUse(b: seq<Option<nat>>, h: nat, k: nat)
    requires |b| == TABLE && h < TABLE
  {
    forall t :: 0 <= t < TABLE && Distance(TABLE, h, t) < k ==> b[t].Some?
  }

  function Used(b: seq<Option<nat>>): (n: nat)
    ensures n <= |b|
    ensures n == |b| <==> forall t :: 0 <= t < |b| ==> b[t].Some?
  {
    if b == [] then 0
    else
      var m := |b| - 1;
      assert b == b[..m] + [b[m]];
      Used(b[..m]) + if b[m].Some? then 1 else 0
  }

  lemma {:induction false} UsedGrows(b: seq<Option<nat>>, s: nat, i: nat)
    requires s < |b| && b[s].None?
    ensures Used(b[s := Some(i)]) == Used(b) + 1
  {
    var m := |b| - 1;
    if s < m {
      UsedGrows(b[..m], s, i);
      assert b[s := Some(i)][..m] == b[..m][s := Some(i)];
    } else {
      assert b[s := Some(i)][..m] == b[..m];
    }
  }

  /** The table holds the first |pos| processes, process i in slot pos[i]; where several share a pid, the
      earlier is nearer its home. */
  ghost predicate Shape(procs: seq<Proc>, pos: seq<nat>, b: seq<Option<nat>>) {
    && |pos| <= |procs| && |b| == TABLE && Used(b) == |pos|
    && (forall i :: 0 <= i < |pos| ==> pos[i] < TABLE && b[pos[i]] == Some(i))
    && (forall t :: 0 <= t < TABLE && b[t].Some? ==> b[t].value < |pos| && pos[b[t].value] == t)
    && (forall i :: 0 <= i < |pos| ==> InUse(b, Home(procs[i].pid), Distance(TABLE, Home(procs[i].pid), pos[i])))
    && (forall i, j :: 0 <= i < j < |pos| && procs[i].pid == procs[j].pid ==>
          Distance(TABLE, Home(procs[i].pid), pos[i]) < Distance(TABLE, Home(procs[i].pid), pos[j]))
  }

  lemma InUseGrows(b: seq<Option<nat>>, h: nat, k: nat, s: nat, i: nat)
    requires |b| == TABLE && h < TABLE && s < TABLE && InUse(b, h, k)
    ensures InUse(b[s := Some(i)], h, k)
  {
    hide Distance;
  }

  lemma NearerHome(procs: seq<Proc>, pos: seq<nat>, b: seq<Option<nat>>, pid: int, s: nat, i: nat)
    requires Shape(procs, pos, b) && s < TABLE && b[s].None? && i < |pos| && procs[i].pid == pid
    ensures Distance(TABLE, Home(pid), pos[i]) < Distance(TABLE, Home(pid), s)
  {
    hide Home, Used;
    var h := Home(pid);
    assert InUse(b, h, Distance(TABLE, h, pos[i]));
    assert Distance(TABLE, h, pos[i]) != Distance(TABLE, h, s);
  }

  /** Filling the first empty slot on the next process's probe path keeps the shape. */
  lemma Inserted(procs: seq<Proc>, pos: seq<nat>, b: seq<Option<nat>>, s: nat)
    requires Shape(procs, pos, b) && |pos| < |procs| && s < TABLE && b[s].None?
    requires InUse(b, Home(procs[|pos|].pid), Distance(TABLE, Home(procs[|pos|].pid), s))
    ensures Shape(procs, pos + [s], b[s := Some(|pos|)])
  {
    hide Home, Distance, Used, InUse;
    var n := |pos|;
    var p, c := pos + [s], b[s := Some(n)];
    UsedGrows(b, s, n);
    forall i | 0 <= i < |p| ensures InUse(c, Home(procs[i].pid), Distance(TABLE, Home(procs[i].pid), p[i])) {
      InUseGrows(b, Home(procs[i].pid), Distance(TABLE, Home(procs[i].pid), p[i]), s, n);
    }
    forall i, j | 0 <= i < j < |p| && procs[i].pid == procs[j].pid
      ensures Distance(TABLE, Home(procs[i].pid), p[i]) < Distance(TABLE, Home(procs[i].pid), p[j])
    {
      if j == n {
        NearerHome(procs, pos, b, procs[n].pid, s, i);
      }
    }
  }

  ghost predicate Bounded(procs: seq<Proc>, b: seq<Option<nat>>) {
    |b| == TABLE && forall t :: 0 <= t < TABLE && b[t].Some? ==> b[t].value < |procs|
  }

  /** The first k slots probed for pid hold other processes. */
  ghost predicate Passed(procs: seq<Proc>, b: seq<Option<nat>>, pid: int, k: nat)
    requires Bounded(procs, b)
  {
    forall t :: 0 <= t < TABLE && Distance(TABLE, Home(pid), t) < k ==> b[t].Some? && procs[b[t].value].pid != pid
  }

  lemma PassedOneMore(procs: seq<Proc>, b: seq<Option<nat>>, pid: int, k: nat)
    requires Bounded(procs, b) && k < TABLE && Passed(procs, b, pid, k)
    requires var s := (Home(pid) + k) % TABLE; b[s].Some? && procs[b[s].value].pid != pid
    ensures Passed(procs, b, pid, k + 1)
  {
    hide Home, Distance;
    StepReaches(TABLE, Home(pid), k);
  }

  lemma NoneEarlier(procs: seq<Proc>, pos: seq<nat>, b: seq<Option<nat>>, pid: int, s: nat, j: nat)
    requires Shape(procs, pos, b) && Bounded(procs, b) && s < TABLE && b[s].Some? && j < b[s].value
    requires procs[b[s].value].pid == pid && Passed(procs, b, pid, Distance(TABLE, Home(pid), s))
    ensures procs[j].pid != pid
  {
    hide Home, Distance, Used, InUse;
    assert pos[b[s].value] == s && b[pos[j]] == Some(j);
    if procs[j].pid == pid {
      assert false;
    }
  }

  lemma FirstIndexIs(procs: seq<Proc>, n: nat, pid: int, i: nat)
    requires i < n <= |procs| && procs[i].pid == pid && forall j :: 0 <= j < i ==> procs[j].pid != pid
    ensures FirstIndex(procs[..n], pid) == i
  {
    assert procs[..n][i].pid == pid;
  }

  /** A slot where a probe for pid stops with a match holds the first process of that pid. */
  lemma FoundIsFirst(procs: seq<Proc>, pos: seq<nat>, b: seq<Option<nat>>, pid: int, s: nat)
    requires Shape(procs, pos, b) && Bounded(procs, b) && s < TABLE && b[s].Some?
    requires procs[b[s].value].pid == pid && Passed(procs, b, pid, Distance(TABLE, Home(pid), s))
    ensures FirstIndex(procs[..|pos|], pid) == b[s].value < |pos|
  {
    hide Home, Distance, Used, InUse, Passed, FirstIndex;
    forall j: nat | j < b[s].value ensures procs[j].pid != pid {
      NoneEarlier(procs, pos, b, pid, s, j);
    }
    FirstIndexIs(procs, |pos|, pid, b[s].value);
  }

  /** A probe for pid that reaches an empty slot proves it absent. */
  lemma NotFound(procs: seq<Proc>, pos: seq<nat>, b: seq<Option<nat>>, pid: int, s: nat)
    requires Shape(procs, pos, b) && Bounded(procs, b) && s < TABLE && b[s].None?
    requires Passed(procs, b, pid, Distance(TABLE, Home(pid), s))
    ensures FirstIndex(procs[..|pos|], pid) == |pos|
  {
    hide Home, Distance, Used, InUse;
    var j := FirstIndex(procs[..|pos|], pid);
    if j < |pos| {
      NearerHome(procs, pos, b, pid, s, j);
      assert false;
    }
  }

  /** So does one that goes all the way round. */
  lemma NotFoundAnywhere(procs: seq<Proc>, pos: seq<nat>, b: seq<Option<nat>>, pid: int)
    requires Shape(procs, pos, b) && Bounded(procs, b) && Passed(procs, b, pid, TABLE)
    ensures FirstIndex(procs[..|pos|], pid) == |pos|
  {
    hide Home, Distance, Used, InUse;
    var j := FirstIndex(procs[..|pos|], pid);
    if j < |pos| {
      assert false;
    }
  }

  // ------------------------------------------------------------ the pid table

  /** Probes for an empty slot from a pid's home: one step past k slots in use. */
  method FindEmpty(slots: array<Option<nat>>, pid: int) returns (s: nat, full: bool)
    requires slots.Length == TABLE
    ensures full <==> Used(slots[..]) == TABLE
    ensures !full ==> s < TABLE && slots[s].None? && InUse(slots[..], Home(pid), Distance(TABLE, Home(pid), s))
  {
    hide Home, Distance;
    ghost var b := slots[..];
    var h := Home(pid);
    s := h;
    for k := 0 to TABLE
      invariant s == (h + k) % TABLE
      invariant InUse(b, h, k)
    {
      StepReaches(TABLE, h, k);
      if slots[s].None? {
        assert b[s].None?;
        return s, false;
      }
      assert b[s].Some?;
      s := (s + 1) % TABLE;
      NextSlot(h, k);
    }
    full := true;
    assert forall t :: 0 <= t < TABLE ==> Distance(TABLE, h, t) < TABLE;
  }

  lemma NextSlot(h: nat, k: nat)
    ensures ((h + k) % TABLE + 1) % TABLE == (h + k + 1) % TABLE
  {
  }

  lemma EmptyShape(procs: seq<Proc>, b: seq<Option<nat>>)
    requires |b| == TABLE && forall t :: 0 <= t < TABLE ==> b[t] == None
    ensures Shape(procs, [], b)
  {
    NoneUsed(b);
  }

  lemma {:induction false} NoneUsed(b: seq<Option<nat>>)
    requires forall t :: 0 <= t < |b| ==> b[t] == None
    ensures Used(b) == 0
  {
    if b != [] {
      NoneUsed(b[..|b| - 1]);
    }
  }

  /** Enters the processes in table order; those beyond the table's size find no slot. */
  method BuildTable(procs: seq<Proc>) returns (slots: array<Option<nat>>, ghost pos: seq<nat>)
    ensures fresh(slots) && Shape(procs, pos, slots[..]) && |pos| == |Tabled(procs)|
  {
    hide Home, Distance, Used, InUse, Shape;
    slots := new Option<nat>[TABLE](t => None);
    pos := [];
    EmptyShape(procs, slots[..]);
    for i := 0 to |procs|
      invariant Shape(procs, pos, slots[..])
      invariant |pos| == if i < TABLE then i else TABLE
    {
      var s, full := FindEmpty(slots, procs[i].pid);
      ShapeCounts(procs, pos, slots[..]);
      if !full {
        ghost var b := slots[..];
        Inserted(procs, pos, b, s);
        pos := pos + [s];
        slots[s] := Some(i);
        assert slots[..] == b[s := Some(i)];
      }
    }
  }

  lemma ShapeCounts(procs: seq<Proc>, pos: seq<nat>, b: seq<Option<nat>>)
    requires Shape(procs, pos, b)
    ensures Used(b) == |pos| && Bounded(procs, b)
    ensures |b| == TABLE && (forall t :: 0 <= t < TABLE ==> b[t].Some?) == (|pos| == TABLE)
  {
  }

  /** Looks a pid up: the first process in the table with that pid. */
  method Lookup(procs: seq<Proc>, slots: array<Option<nat>>, ghost pos: seq<nat>, pid: int) returns (r: Option<nat>)
    requires Shape(procs, pos, slots[..]) && |pos| == |Tabled(procs)|
    ensures r == var j := FirstIndex(Tabled(procs), pid); if j < |Tabled(procs)| then Some(j) else None
  {
    hide Home, Distance, Used, InUse, Shape, Passed;
    ghost var b := slots[..];
    ShapeCounts(procs, pos, b);
    assert procs[..|pos|] == Tabled(procs);
    var h := Home(pid);
    var s := h;
    NothingPassed(procs, b, pid);
    for k := 0 to TABLE
      invariant s == (h + k) % TABLE
      invariant Passed(procs, b, pid, k)
    {
      assert b[s] == slots[s];
      if slots[s].None? {
        StepReaches(TABLE, h, k);
        NotFound(procs, pos, b, pid, s);
        return None;
      }
      if procs[slots[s].value].pid == pid {
        StepReaches(TABLE, h, k);
        FoundIsFirst(procs, pos, b, pid, s);
        return slots[s];
      }
      PassedOneMore(procs, b, pid, k);
      s := (s + 1) % TABLE;
      NextSlot(h, k);
    }
    NotFoundAnywhere(procs, pos, b, pid);
    return None;
  }

  lemma NothingPassed(procs: seq<Proc>, b: seq<Option<nat>>, pid: int)
    requires Bounded(procs, b)
    ensures Passed(procs, b, pid, 0)
  {
  }

  // ------------------------------------------------------------ the passes

  /** One pass over the table, marking in place; says how many processes it marked. */
  method RunPass<I>(procs: seq<Proc>, own: seq<Option<I>>, slots: array<Option<nat>>, ghost pos: seq<nat>,
                    marks: array<Option<I>>) returns (found: nat)
    requires |own| == |procs| == marks.Length && Shape(procs, pos, slots[..]) && |pos| == |Tabled(procs)|
    requires slots as object != marks as object
    modifies marks
    ensures marks[..] == Pass(procs, own, old(marks[..]))
    ensures found == 0 <==> marks[..] == old(marks[..])
  {
    hide Shape, FirstIndex, Tabled, Grows;
    found := 0;
    ghost var before, b := marks[..], slots[..];
    for i := 0 to |procs|
      invariant marks[..] == PassTo(procs, own, before, i) && slots[..] == b
      invariant found == 0 ==> marks[..] == before
      invariant found > 0 ==> exists t :: 0 <= t < i && before[t].None? && marks[t].Some?
    {
      ghost var now := marks[..];
      assert now[i] == marks[i];
      if marks[i].Some? {
        continue;
      }
      PassGrows(procs, own, before, 0, i);
      KeptNone(before, now, i);
      var parent: Option<I> := None;
      if procs[i].ppid > 0 {
        var j := Lookup(procs, slots, pos, procs[i].ppid);
        if j.Some? {
          assert now[j.value] == marks[j.value];
          parent := marks[j.value];
        }
      }
      var si := if procs[i].pid <= 10 then None else if parent.Some? then parent else own[i];
      assert si == Detect(procs, own, now, i);
      assert now[i := None] == now;
      if si.Some? {
        marks[i] := si;
        found := found + 1;
        assert marks[..] == now[i := si];
      }
    }
  }

  lemma KeptNone<I>(m: seq<Option<I>>, n: seq<Option<I>>, i: nat)
    requires Grows(m, n) && i < |m| && n[i].None?
    ensures m[i].None?
  {
  }

  /** All passes, stopping early after one that finds nothing: the same marks as running all four.  Marked are exactly
      the processes with a chain of at most three inversions; after a quiet pass, all with any chain. */
  method MarkAll<I(0,!new)>(procs: seq<Proc>, own: seq<Option<I>>) returns (marks: array<Option<I>>, quiet: bool)
    requires |own| == |procs|
    ensures fresh(marks) && marks[..] == After(procs, own, PASSES)
    ensures forall j :: 0 <= j < |procs| ==> (marks[j].Some? <==> Reaches(procs, own, j, PASSES))
    ensures forall j :: 0 <= j < |procs| ==> Justified(procs, own, marks[..], j, PASSES)
    ensures quiet ==> forall j :: 0 <= j < |procs| ==> (marks[j].Some? <==> Linked(procs, own, j))
  {
    hide Shape, Pass, After, Reaches, Linked, Justified;
    var slots, pos := BuildTable(procs);
    marks := new Option<I>[|procs|](i => None);
    quiet := false;
    AfterNone(procs, own, marks[..]);
    var pass := 0;
    while pass < PASSES && !quiet
      invariant pass <= PASSES && marks[..] == After(procs, own, pass) && fresh(marks)
      invariant slots as object != marks as object && Shape(procs, pos, slots[..])
      invariant quiet ==> Pass(procs, own, After(procs, own, pass)) == After(procs, own, pass)
    {
      var found := RunPass(procs, own, slots, pos, marks);
      AfterNext(procs, own, pass);
      pass := pass + 1;
      quiet := found == 0;
    }
    if quiet {
      QuietStays(procs, own, pass, PASSES);
    }
    OnlyChains(procs, own, PASSES);
    forall j | 0 <= j < |procs| ensures marks[j].Some? <==> Reaches(procs, own, j, PASSES) {
      MarkedExactly(procs, own, PASSES, j);
    }
    forall j | 0 <= j < |procs| && quiet ensures marks[j].Some? <==> Linked(procs, own, j) {
      QuietExactly(procs, own, PASSES, j);
    }
  }

  lemma AfterNone<I>(procs: seq<Proc>, own: seq<Option<I>>, marks: seq<Option<I>>)
    requires |own| == |procs| == |marks| && forall i :: 0 <= i < |marks| ==> marks[i] == None
    ensures marks == After(procs, own, 0)
  {
  }

  lemma AfterNext<I>(procs: seq<Proc>, own: seq<Option<I>>, k: nat)
    requires |own| == |procs|
    ensures After(procs, own, k + 1) == Pass(procs, own, After(procs, own, k))
  {
  }
}
