/** Encoding and decoding record replies field by field. */
module InspectServer {
  import opened Common
  import opened Wire
  import opened SnapshotWire
  import opened Records
  import opened Inspect

  // ------------------------------------------------------------ encoding

  method WriteRecord(w: Writer, l: Layout, r: Record)
    requires w.Valid() && LegalRecord(l, r)
    modifies w
    ensures w.Valid() && (w.error <==> old(w.error) || |old(w.data)| + |PutRecord(l, r)| > LIMIT)
    ensures !w.error ==> w.data == old(w.data) + PutRecord(l, r)
  {
    hide Put32, Put64, PutString, Finite64;
    for i := 0 to |l|
      invariant w.Valid() && (w.error <==> old(w.error) || |old(w.data)| + |PutRecord(l[..i], r[..i])| > LIMIT)
      invariant !w.error ==> w.data == old(w.data) + PutRecord(l[..i], r[..i])
    {
      assert Legal(l[i], r[i]);
      assert l[..i + 1][..i] == l[..i] && r[..i + 1][..i] == r[..i];
      WriteValue(w, l[i], r[i]);
    }
    assert l[..|l|] == l && r[..|r|] == r;
  }

  method WriteValue(w: Writer, k: Kind, v: Value)
    requires w.Valid() && Legal(k, v)
    modifies w
    ensures w.Valid() && (w.error <==> old(w.error) || |old(w.data)| + |PutValue(k, v)| > LIMIT)
    ensures !w.error ==> w.data == old(w.data) + PutValue(k, v)
  {
    hide Put32, Put64, PutString;
    match k
    case N32 => w.PutU32(v.n);
    case N64 => w.PutU64(v.n);
    case Real => w.PutU64(v.n);
    case Str(_) => w.PutText(v.x);
  }

  method WriteArray(w: Writer, l: Layout, rs: seq<Record>)
    requires w.Valid() && LegalRecords(l, rs) && |rs| < U32
    modifies w
    ensures w.Valid() && (w.error <==> old(w.error) || |old(w.data)| + |PutArray(l, rs)| > LIMIT)
    ensures !w.error ==> w.data == old(w.data) + PutArray(l, rs)
  {
    hide Put32, PutRecord, LegalRecord;
    w.PutU32(|rs|);
    ghost var e, d := w.error, w.data;
    var i := 0;
    while i < |rs| && !w.error
      invariant 0 <= i <= |rs| && w.Valid() && (w.error <==> e || |d| + |PutRecords(l, rs[..i])| > LIMIT)
      invariant !w.error ==> w.data == d + PutRecords(l, rs[..i])
    {
      assert rs[..i + 1][..i] == rs[..i];
      WriteRecord(w, l, rs[i]);
      i := i + 1;
    }
    assert rs[..|rs|] == rs;
    RecordsGrow(l, rs, i);
  }

  lemma {:induction false} RecordsGrow(l: Layout, rs: seq<Record>, i: nat)
    requires LegalRecords(l, rs) && i <= |rs|
    ensures |PutRecords(l, rs[..i])| <= |PutRecords(l, rs)|
    decreases |rs|
  {
    hide PutRecord, LegalRecord;
    if i < |rs| {
      var n := |rs| - 1;
      RecordsGrow(l, rs[..n], i);
      assert rs[..n][..i] == rs[..i];
    } else {
      assert rs[..i] == rs;
    }
  }

  /** The whole report, or an error when it does not fit a frame. */
  method EncodeReport(cs: seq<Section>, r: Report, w: Writer)
    requires w.Valid() && w.data == [] && !w.error && LegalReport(cs, r)
    modifies w
    ensures w.Valid() && (w.error <==> |PutReport(cs, r)| > LIMIT)
    ensures !w.error ==> w.data == PutReport(cs, r)
  {
    hide Put32, PutRecord, LegalRecord, PutArray, LegalRecords;
    WriteRecord(w, HEAD, r.head);
    ghost var e, d := w.error, w.data;
    for i := 0 to |cs|
      invariant w.Valid() && (w.error <==> e || |d| + |PutArrays(cs[..i], r.arrays[..i])| > LIMIT)
      invariant !w.error ==> w.data == d + PutArrays(cs[..i], r.arrays[..i])
    {
      assert cs[..i + 1][..i] == cs[..i] && r.arrays[..i + 1][..i] == r.arrays[..i];
      WriteArray(w, cs[i].layout, r.arrays[i]);
    }
    assert cs[..|cs|] == cs && r.arrays[..|r.arrays|] == r.arrays;
    w.PutU32(if r.cgroup.Some? then 1 else 0);
    if r.cgroup.Some? {
      WriteRecord(w, CGROUP, r.cgroup.value);
    }
    WriteRecord(w, RAW, r.raw);
  }

  // ------------------------------------------------------------ decoding

  method TakeValue(r: Reader, k: Kind) returns (v: Value)
    requires r.Valid()
    modifies r
    ensures r.Valid() && (v, r.Here()) == GetValue(k, r.data, old(r.Here()))
  {
    hide Get32, Get64, GetFixed, Finite64;
    match k {
      case N32 =>
        var n := r.TakeU32();
        v := Number(n);
      case N64 =>
        var n := r.TakeU64();
        v := Number(n);
      case Real =>
        var n := r.TakeU64();
        v := Number(n);
        if !Finite64(n) {
          r.Fail();
          v := Number(0);
        }
      case Str(capacity) =>
        var x := r.TakeFixed(if capacity <= U32 then capacity else U32);
        v := Chars(x);
    }
  }

  method TakeRecord(r: Reader, l: Layout) returns (vs: Record)
    requires r.Valid()
    modifies r
    ensures r.Valid() && (vs, r.Here()) == GetRecord(l, r.data, old(r.Here()))
  {
    hide GetValue, Legal;
    vs := [];
    for i := 0 to |l|
      invariant r.Valid() && (vs, r.Here()) == GetRecord(l[..i], r.data, old(r.Here()))
    {
      assert l[..i + 1][..i] == l[..i];
      var v := TakeValue(r, l[i]);
      vs := vs + [v];
    }
    assert l[..|l|] == l;
  }

  lemma {:induction false} RecordsStop(l: Layout, s: seq<byte>, p: Place, i: nat, n: nat)
    requires i <= n && GetRecords(l, s, p, i).1.Error?
    ensures GetRecords(l, s, p, n).1.Error?
  {
    hide GetRecord;
    if i < n {
      RecordsStop(l, s, p, i, n - 1);
    }
  }

  /** Tests the count, takes the array's memory from the budget, and reads the records. */
  method TakeArray(r: Reader, c: Section, budget: nat) returns (rs: seq<Record>, left: nat)
    requires r.Valid() && SectionOk(c)
    modifies r
    ensures r.Valid() && r.Here() == GetArray(c, r.data, old(r.Here()), budget).1
    ensures r.Here().At? ==> (rs, r.Here(), left) == GetArray(c, r.data, old(r.Here()), budget)
  {
    hide Get32, GetRecord, LegalRecord, MinSize, LegalRecords;
    rs, left := [], budget;
    var n := r.TakeU32();
    if r.error || n > COUNT_MAX || n > (|r.data| - r.pos) / c.minimum || n > budget / c.size {
      r.Fail();
      return;
    }
    Within(n, c.size, budget);
    ghost var p := r.Here();
    left := budget - n * c.size;
    var i := 0;
    while i < n && !r.error
      invariant 0 <= i <= n && r.Valid() && (rs, r.Here()) == GetRecords(c.layout, r.data, p, i)
    {
      var v := TakeRecord(r, c.layout);
      rs := rs + [v];
      i := i + 1;
    }
    if r.error {
      RecordsStop(c.layout, r.data, p, i, n);
    }
  }

  method TakeArrays(r: Reader, cs: seq<Section>) returns (arrays: seq<seq<Record>>)
    requires r.Valid() && SectionsOk(cs)
    modifies r
    ensures r.Valid() && r.Here() == GetArrays(cs, r.data, old(r.Here()), LIMIT).1
    ensures r.Here().At? ==> arrays == GetArrays(cs, r.data, old(r.Here()), LIMIT).0
  {
    hide GetArray, SectionOk, Fitting, Allocated;
    arrays := [];
    var budget := LIMIT;
    for i := 0 to |cs|
      invariant r.Valid() && r.Here() == GetArrays(cs[..i], r.data, old(r.Here()), LIMIT).1
      invariant r.Here().At? ==> (arrays, r.Here(), budget) == GetArrays(cs[..i], r.data, old(r.Here()), LIMIT)
    {
      assert cs[..i + 1][..i] == cs[..i];
      ArraysStop(cs[i], r.data, budget, GetArrays(cs[..i], r.data, old(r.Here()), LIMIT).2);
      var a;
      a, budget := TakeArray(r, cs[i], budget);
      arrays := arrays + [a];
    }
    assert cs[..|cs|] == cs;
  }

  lemma ArraysStop(c: Section, s: seq<byte>, b: nat, d: nat)
    requires SectionOk(c)
    ensures GetArray(c, s, Error, b).1 == GetArray(c, s, Error, d).1 == Error
  {
  }

  /** The report, if the whole body is one. */
  method DecodeReport(data: seq<byte>, cs: seq<Section>) returns (o: Option<Report>)
    requires SectionsOk(cs)
    ensures o == GetReport(cs, data)
  {
    hide Get32, GetRecord, GetArrays, SectionsOk, LegalRecord, Fitting, Allocated;
    var r := new Reader(data);
    var head := TakeRecord(r, HEAD);
    var arrays := TakeArrays(r, cs);
    var present := r.TakeU32();
    if present > 1 {
      r.Fail();
    }
    var cgroup := None;
    if present == 1 && !r.error {
      var c := TakeRecord(r, CGROUP);
      cgroup := Some(c);
    }
    var raw := TakeRecord(r, RAW);
    var done := r.Done();
    return if done then Some(Report(head, arrays, cgroup, raw)) else None;
  }

  /** The GPU reply; every process it accepts names a device it holds. */
  method DecodeGpu(data: seq<byte>) returns (o: Option<Gpu>)
    ensures o == GetGpu(data)
  {
    hide Get64, GetArray, LegalRecords, SectionOk;
    GpuSectionsOk();
    var r := new Reader(data);
    var sampled := r.TakeU64();
    ArraysStop(ProcessSection(), data, COUNT_MAX, COUNT_MAX);
    var devices, _ := TakeArray(r, DeviceSection(), COUNT_MAX);
    var processes, _ := TakeArray(r, ProcessSection(), COUNT_MAX);
    ghost var p := r.Here();
    for i := 0 to |processes|
      invariant r.Valid() && (r.error <==> p.Error? || !Named(processes[..i], |devices|))
      invariant !r.error ==> r.Here() == p
    {
      assert processes[..i + 1] == processes[..i] + [processes[i]];
      if DeviceIndex(processes[i]) >= |devices| {
        assert !Named(processes[..i + 1], |devices|) by {
          assert processes[..i + 1][i] == processes[i];
        }
        r.Fail();
      }
    }
    assert processes[..|processes|] == processes;
    var done := r.Done();
    return if done then Some(Gpu(sampled, devices, processes)) else None;
  }
}
