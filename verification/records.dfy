/**
 Inspection and GPU replies: arrays of fixed-layout records.  Before it allocates, the decoder tests each
 count against the bytes left, using a constant for the smallest record, and against a memory budget.
 */
module Records {
  import opened Wire
  import opened SnapshotWire

  const COUNT_MAX: nat := 65536

  /** One field on the wire; a string in memory is shorter than its capacity. */
  datatype Kind = N32 | N64 | Real | Str(capacity: nat)

  datatype Value = Number(n: nat) | Chars(x: seq<byte>)

  type Layout = seq<Kind>
  type Record = seq<Value>

  /** Strings the decoder allocates itself have no capacity of their own. */
  const ANY := Str(U32)

  predicate Legal(k: Kind, v: Value) {
    match k
    case N32 => v.Number? && v.n < U32
    case N64 => v.Number? && v.n < U64
    case Real => v.Number? && v.n < U64
    case Str(capacity) => v.Chars? && Text(v.x) && |v.x| < capacity && |v.x| < U32
  }

  ghost predicate LegalRecord(l: Layout, r: Record) {
    |r| == |l| && forall i :: 0 <= i < |l| ==> Legal(l[i], r[i])
  }

  /** The encoder writes any number; the decoder refuses one that is not finite. */
  predicate Finite(k: Kind, v: Value) {
    k.Real? && v.Number? ==> Finite64(v.n)
  }

  ghost predicate FiniteRecord(l: Layout, r: Record)
    requires |r| == |l|
  {
    forall i :: 0 <= i < |l| ==> Finite(l[i], r[i])
  }

  function PutValue(k: Kind, v: Value): (s: seq<byte>)
    requires Legal(k, v)
    ensures |s| >= Smallest(k)
  {
    match k
    case N32 => Put32(v.n)
    case N64 => Put64(v.n)
    case Real => Put64(v.n)
    case Str(_) => PutString(v.x)
  }

  function GetValue(k: Kind, s: seq<byte>, p: Place): (r: (Value, Place))
    ensures r.1.At? ==> p.At? && p.pos <= r.1.pos <= |s| && Legal(k, r.0) && Finite(k, r.0)
  {
    match k
    case N32 => var (n, q) := Get32(s, p); (Number(n), q)
    case N64 => var (n, q) := Get64(s, p); (Number(n), q)
    case Real => var (n, q) := GetDouble(s, p); (Number(n), q)
    case Str(capacity) => var (x, q) := GetFixed(s, p, if capacity <= U32 then capacity else U32); (Chars(x), q)
  }

  lemma ReadValue(k: Kind, s: seq<byte>, p: Place, v: Value)
    requires Legal(k, v) && Here(s, p, PutValue(k, v))
    ensures Finite(k, v) ==> GetValue(k, s, p) == (v, At(p.pos + |PutValue(k, v)|))
    ensures !Finite(k, v) ==> GetValue(k, s, p).1 == Error
  {
    hide Get32, Put32, Get64, Put64, GetFixed, PutString, Finite64;
    match k {
      case N32 => Read32(s, p, v.n);
      case N64 => Read64(s, p, v.n);
      case Real => Read64(s, p, v.n);
      case Str(capacity) => ReadFixed(s, p, v.x, if capacity <= U32 then capacity else U32);
    }
  }

  // ------------------------------------------------------------ records

  ghost function PutRecord(l: Layout, r: Record): seq<byte>
    requires LegalRecord(l, r)
  {
    if l == [] then [] else
      var n := |l| - 1;
      PutRecord(l[..n], r[..n]) + PutValue(l[n], r[n])
  }

  function GetRecord(l: Layout, s: seq<byte>, p: Place): (r: (Record, Place))
    ensures r.1.At? ==> p.At? && p.pos <= r.1.pos && (p.pos <= |s| ==> r.1.pos <= |s|)
    ensures r.1.At? ==> LegalRecord(l, r.0) && FiniteRecord(l, r.0)
  {
    if l == [] then ([], p) else
      var n := |l| - 1;
      var (vs, p1) := GetRecord(l[..n], s, p);
      var (v, p2) := GetValue(l[n], s, p1);
      (vs + [v], p2)
  }

  lemma {:induction false} ReadRecord(l: Layout, s: seq<byte>, p: Place, r: Record)
    requires |r| == |l| && LegalRecord(l, r) && p.At? && Here(s, p, PutRecord(l, r))
    ensures FiniteRecord(l, r) ==> GetRecord(l, s, p) == (r, At(p.pos + |PutRecord(l, r)|))
    ensures !FiniteRecord(l, r) ==> GetRecord(l, s, p).1 == Error
  {
    hide Here, Legal, Finite, PutValue, GetValue, FiniteRecord;
    if l == [] {
      NoFields(l, r);
    } else {
      var n := |l| - 1;
      Split(s, p, PutRecord(l[..n], r[..n]), PutValue(l[n], r[n]));
      ReadRecord(l[..n], s, p, r[..n]);
      FinitePrefix(l, r);
      if FiniteRecord(l[..n], r[..n]) {
        ReadValue(l[n], s, At(p.pos + |PutRecord(l[..n], r[..n])|), r[n]);
        assert r == r[..n] + [r[n]];
      }
    }
  }

  lemma NoFields(l: Layout, r: Record)
    requires l == [] && |r| == |l|
    ensures FiniteRecord(l, r)
  {
  }

  lemma FinitePrefix(l: Layout, r: Record)
    requires |r| == |l| > 0
    ensures var n := |l| - 1; FiniteRecord(l, r) <==> FiniteRecord(l[..n], r[..n]) && Finite(l[n], r[n])
  {
    var n := |l| - 1;
    forall i | 0 <= i < n ensures Finite(l[..n][i], r[..n][i]) == Finite(l[i], r[i]) {
    }
  }

  function Smallest(k: Kind): nat {
    if k.N32? || k.Str? then 4 else 8
  }

  function MinSize(l: Layout): nat {
    if l == [] then 0 else MinSize(l[..|l| - 1]) + Smallest(l[|l| - 1])
  }

  /** A record of zeros and empty strings. */
  function Bare(l: Layout): (r: Record)
    requires forall i :: 0 <= i < |l| && l[i].Str? ==> l[i].capacity > 0
    ensures LegalRecord(l, r) && FiniteRecord(l, r)
  {
    if l == [] then [] else
      Bare(l[..|l| - 1]) + [if l[|l| - 1].Str? then Chars([]) else Number(0)]
  }

  /** No record is smaller than the layout's minimum, and the bare one is exactly that size. */
  lemma {:induction false} NoneSmaller(l: Layout, r: Record)
    requires LegalRecord(l, r)
    ensures |PutRecord(l, r)| >= MinSize(l)
  {
    hide Legal, PutValue;
    if l != [] {
      var n := |l| - 1;
      NoneSmaller(l[..n], r[..n]);
    }
  }

  lemma {:induction false} BareIsSmallest(l: Layout)
    requires forall i :: 0 <= i < |l| && l[i].Str? ==> l[i].capacity > 0
    ensures |PutRecord(l, Bare(l))| == MinSize(l)
  {
    if l != [] {
      var n := |l| - 1;
      BareIsSmallest(l[..n]);
      assert Bare(l)[..n] == Bare(l[..n]);
    }
  }

  // ------------------------------------------------------------ arrays

  /** What the decoder knows of an array: the record layout, the smallest size it tests with, and the
      record's size in memory. */
  datatype Section = Section(layout: Layout, minimum: nat, size: nat)

  predicate SectionOk(c: Section) {
    c.size > 0 && c.minimum > 0 && c.minimum == MinSize(c.layout)
  }

  ghost predicate LegalRecords(l: Layout, rs: seq<Record>) {
    forall i :: 0 <= i < |rs| ==> LegalRecord(l, rs[i])
  }

  ghost predicate FiniteRecords(l: Layout, rs: seq<Record>)
    requires LegalRecords(l, rs)
  {
    forall i :: 0 <= i < |rs| ==> LegalRecord(l, rs[i]) && FiniteRecord(l, rs[i])
  }

  ghost function PutRecords(l: Layout, rs: seq<Record>): seq<byte>
    requires LegalRecords(l, rs)
  {
    if rs == [] then [] else PutRecords(l, rs[..|rs| - 1]) + PutRecord(l, rs[|rs| - 1])
  }

  function GetRecords(l: Layout, s: seq<byte>, p: Place, n: nat): (r: (seq<Record>, Place))
    ensures |r.0| == n
    ensures r.1.At? ==> p.At? && p.pos <= r.1.pos && (p.pos <= |s| ==> r.1.pos <= |s|)
    ensures r.1.At? ==> LegalRecords(l, r.0) && FiniteRecords(l, r.0)
  {
    if n == 0 then ([], p) else
      var (rs, p1) := GetRecords(l, s, p, n - 1);
      var (r, p2) := GetRecord(l, s, p1);
      (rs + [r], p2)
  }

  lemma LegalPrefix(l: Layout, rs: seq<Record>)
    requires LegalRecords(l, rs) && rs != []
    ensures LegalRecords(l, rs[..|rs| - 1]) && LegalRecord(l, rs[|rs| - 1])
    ensures FiniteRecords(l, rs) <==> FiniteRecords(l, rs[..|rs| - 1]) && FiniteRecord(l, rs[|rs| - 1])
  {
    var n := |rs| - 1;
    assert rs == rs[..n] + [rs[n]];
  }

  /** One record more, written and read. */
  lemma RecordsSnoc(l: Layout, s: seq<byte>, p: Place, rs: seq<Record>)
    requires LegalRecords(l, rs) && rs != []
    ensures
      var n := |rs| - 1;
      && LegalRecords(l, rs[..n]) && LegalRecord(l, rs[n]) && |rs[n]| == |l|
      && PutRecords(l, rs) == PutRecords(l, rs[..n]) + PutRecord(l, rs[n])
      && var (xs, p1) := GetRecords(l, s, p, n);
         var (x, p2) := GetRecord(l, s, p1);
         GetRecords(l, s, p, |rs|) == (xs + [x], p2)
  {
    hide PutRecord, GetRecord, Legal;
  }

  lemma {:induction false} ReadRecords(l: Layout, s: seq<byte>, p: Place, rs: seq<Record>)
    requires LegalRecords(l, rs) && p.At? && Here(s, p, PutRecords(l, rs))
    ensures FiniteRecords(l, rs) ==> GetRecords(l, s, p, |rs|) == (rs, At(p.pos + |PutRecords(l, rs)|))
    ensures !FiniteRecords(l, rs) ==> GetRecords(l, s, p, |rs|).1 == Error
  {
    hide Here, LegalRecord, LegalRecords, FiniteRecord, FiniteRecords, PutRecord, GetRecord, PutRecords, GetRecords;
    if rs == [] {
      NoneInfinite(l, s, p, rs);
    } else {
      var n := |rs| - 1;
      RecordsSnoc(l, s, p, rs);
      LegalPrefix(l, rs);
      Split(s, p, PutRecords(l, rs[..n]), PutRecord(l, rs[n]));
      ReadRecords(l, s, p, rs[..n]);
      if FiniteRecords(l, rs[..n]) {
        ReadRecord(l, s, At(p.pos + |PutRecords(l, rs[..n])|), rs[n]);
        assert rs[..n] + [rs[n]] == rs;
      }
    }
  }

  lemma RecordLength(l: Layout, r: Record)
    requires LegalRecord(l, r)
    ensures |r| == |l|
  {
  }

  lemma NoneInfinite(l: Layout, s: seq<byte>, p: Place, rs: seq<Record>)
    requires rs == [] && LegalRecords(l, rs)
    ensures FiniteRecords(l, rs) && PutRecords(l, rs) == [] && GetRecords(l, s, p, |rs|) == (rs, p)
  {
  }

  lemma {:induction false} RecordsSize(l: Layout, rs: seq<Record>)
    requires LegalRecords(l, rs)
    ensures |PutRecords(l, rs)| >= MinSize(l) * |rs|
  {
    hide LegalRecord, PutRecord, MinSize;
    if rs != [] {
      var n := |rs| - 1;
      RecordsSize(l, rs[..n]);
      NoneSmaller(l, rs[n]);
      assert MinSize(l) * |rs| == MinSize(l) * n + MinSize(l);
    }
  }

  ghost function PutArray(l: Layout, rs: seq<Record>): seq<byte>
    requires LegalRecords(l, rs) && |rs| < U32
  {
    Put32(|rs|) + PutRecords(l, rs)
  }

  /** The array, and the budget left after allocating it. */
  function GetArray(c: Section, s: seq<byte>, p: Place, budget: nat): (r: (seq<Record>, Place, nat))
    requires SectionOk(c)
    ensures r.1.At? ==> p.At? && p.pos <= r.1.pos <= |s| && LegalRecords(c.layout, r.0) && FiniteRecords(c.layout, r.0)
    ensures r.1.At? ==> |r.0| * c.size + r.2 == budget && |r.0| <= COUNT_MAX
  {
    var (n, p1) := Get32(s, p);
    if p1.Error? || n > COUNT_MAX || n > (|s| - p1.pos) / c.minimum || n > budget / c.size then ([], Error, budget)
    else
      Within(n, c.size, budget);
      var (rs, p2) := GetRecords(c.layout, s, p1, n);
      (rs, p2, budget - n * c.size)
  }

  lemma Within(n: nat, size: nat, budget: nat)
    requires size > 0
    ensures n <= budget / size <==> n * size <= budget
  {
    var q := budget / size;
    assert budget == q * size + budget % size;
    if n <= q {
      assert n * size <= q * size;
    } else {
      assert (q + 1) * size <= n * size;
    }
  }

  /** The bytes-left test never refuses what was written: only the count limit, the budget and numbers that are not
      finite can. */
  lemma ReadArray(c: Section, s: seq<byte>, p: Place, budget: nat, rs: seq<Record>)
    requires SectionOk(c) && LegalRecords(c.layout, rs) && |rs| < U32
    requires p.At? && Here(s, p, PutArray(c.layout, rs))
    ensures |rs| <= COUNT_MAX && |rs| * c.size <= budget && FiniteRecords(c.layout, rs) ==>
              GetArray(c, s, p, budget) == (rs, At(p.pos + |PutArray(c.layout, rs)|), budget - |rs| * c.size)
    ensures GetArray(c, s, p, budget).1.At? <==> |rs| <= COUNT_MAX && |rs| * c.size <= budget && FiniteRecords(c.layout, rs)
  {
    hide Get32, Put32, PutRecords, GetRecords, LegalRecords, FiniteRecords, MinSize;
    Split(s, p, Put32(|rs|), PutRecords(c.layout, rs));
    Read32(s, p, |rs|);
    ReadRecords(c.layout, s, At(p.pos + 4), rs);
    RecordsSize(c.layout, rs);
    Within(|rs|, c.minimum, |s| - (p.pos + 4));
    Within(|rs|, c.size, budget);
    assert c.minimum * |rs| == |rs| * c.minimum;
  }
}
