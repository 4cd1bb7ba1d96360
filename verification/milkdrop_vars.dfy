/**
 The open-addressed variable table of the MilkDrop evaluator, as a finite map from names
 to values in which a name never stored reads as zero.
 */
module MilkVars {
  import opened Common
  import opened MilkTokens

  const TABLE: nat := 256

  function Hash(h: bv32, s: string): bv32
    decreases |s|
  {
    if s == "" then h
    else Hash(((h << 5) + h) ^ ((s[0] as int % 256) as bv32), s[1..])
  }

  /** The bucket where probing for a name starts. */
  function Home(name: string): (h: nat)
    ensures h < TABLE
  {
    (Hash(5381, name) as int) % TABLE
  }

  /** No empty bucket on the probe path from h up to s. */
  ghost predicate Clear(b: seq<nat>, h: nat, s: nat)
    requires |b| == TABLE && h < TABLE && s < TABLE
  {
    forall t :: 0 <= t < TABLE && Distance(TABLE, h, t) < Distance(TABLE, h, s) ==> b[t] != 0
  }

  // ------------------------------------------------------------ the map a list of entries stands for

  ghost function MapOf<K(!new), F>(keys: seq<K>, vals: seq<F>): (m: map<K, F>)
    requires |keys| == |vals|
    ensures forall k :: k in m <==> k in keys
  {
    if keys == [] then map[]
    else
      var n := |keys| - 1;
      assert keys == keys[..n] + [keys[n]];
      MapOf(keys[..n], vals[..n])[keys[n] := vals[n]]
  }

  ghost predicate Distinct<K>(keys: seq<K>) {
    forall i, j :: 0 <= i < j < |keys| ==> keys[i] != keys[j]
  }

  /** The key at i occurs nowhere else. */
  ghost predicate Once<K>(keys: seq<K>, i: nat)
    requires i < |keys|
  {
    forall j :: 0 <= j < |keys| && j != i ==> keys[j] != keys[i]
  }

  lemma {:induction false} MapOfAt<K(!new), F>(keys: seq<K>, vals: seq<F>, i: nat)
    requires |keys| == |vals| && i < |keys| && Once(keys, i)
    ensures MapOf(keys, vals)[keys[i]] == vals[i]
  {
    var n := |keys| - 1;
    var k, u := keys[..n], vals[..n];
    assert keys[n] == keys[|keys| - 1];
    if i < n {
      assert k[i] == keys[i] && u[i] == vals[i] && keys[i] != keys[n];
      MapOfAt(k, u, i);
    }
  }

  lemma {:induction false} MapOfSize<K(!new), F>(keys: seq<K>, vals: seq<F>)
    requires |keys| == |vals| && Distinct(keys)
    ensures |MapOf(keys, vals)| == |keys|
  {
    if keys != [] {
      var n := |keys| - 1;
      MapOfSize(keys[..n], vals[..n]);
      assert keys[n] !in keys[..n];
    }
  }

  lemma {:induction false} MapOfUpdate<K(!new), F>(keys: seq<K>, vals: seq<F>, i: nat, v: F)
    requires |keys| == |vals| && i < |keys| && Once(keys, i)
    ensures MapOf(keys, vals[i := v]) == MapOf(keys, vals)[keys[i] := v]
  {
    hide Once;
    var n := |keys| - 1;
    var k, u := keys[..n], vals[..n];
    if i < n {
      OnceBefore(keys, i);
      MapOfUpdate(k, u, i, v);
      assert vals[i := v][..n] == u[i := v];
      UpdatesCommute(MapOf(k, u), keys[i], v, keys[n], vals[n]);
    } else {
      assert vals[i := v][..n] == u;
      UpdateTwice(MapOf(k, u), keys[n], vals[n], v);
    }
  }

  lemma OnceBefore<K>(keys: seq<K>, i: nat)
    requires i < |keys| - 1 && Once(keys, i)
    ensures Once(keys[..|keys| - 1], i) && keys[i] != keys[|keys| - 1]
  {
  }

  /** A write to an entry changes the value of no other key, even where keys repeat. */
  lemma {:induction false} MapOfElsewhere<K(!new), F>(keys: seq<K>, vals: seq<F>, i: nat, v: F, x: K)
    requires |keys| == |vals| && i < |keys| && x != keys[i] && x in keys
    ensures MapOf(keys, vals[i := v])[x] == MapOf(keys, vals)[x]
  {
    var n := |keys| - 1;
    var k, u := keys[..n], vals[..n];
    assert keys == k + [keys[n]];
    if i < n {
      assert vals[i := v][..n] == u[i := v];
      if x != keys[n] {
        MapOfElsewhere(k, u, i, v, x);
      }
    } else {
      assert vals[i := v][..n] == u;
    }
  }

  lemma UpdatesCommute<K(!new), F>(m: map<K, F>, x: K, v: F, y: K, w: F)
    requires x != y
    ensures m[x := v][y := w] == m[y := w][x := v]
  {
  }

  lemma UpdateTwice<K(!new), F>(m: map<K, F>, x: K, v: F, w: F)
    ensures m[x := v][x := w] == m[x := w]
  {
  }

  lemma MapOfSnoc<K(!new), F>(keys: seq<K>, vals: seq<F>, name: K, v: F)
    requires |keys| == |vals|
    ensures MapOf(keys + [name], vals + [v]) == MapOf(keys, vals)[name := v]
  {
    assert (keys + [name])[..|keys|] == keys && (vals + [v])[..|keys|] == vals;
  }

  // ------------------------------------------------------------ the table

  /** The table's shape: entries `names` asked for as `keys` sit in buckets `slots`. */
  ghost predicate Good(names: seq<string>, keys: seq<string>, slots: seq<nat>, b: seq<nat>) {
    && |names| == |keys| == |slots| <= MAX_VARS && |b| == TABLE
    && (forall i :: 0 <= i < |keys| ==> names[i] == Cut(keys[i]) && slots[i] < TABLE && b[slots[i]] == i + 1)
    && (forall t :: 0 <= t < TABLE ==> b[t] <= |keys| && (b[t] != 0 ==> slots[b[t] - 1] == t))
    && (forall i :: 0 <= i < |keys| ==> Clear(b, Home(keys[i]), slots[i]))
    && FitDistinct(keys)
  }

  /** Names that fit the name buffer are entered once. */
  ghost predicate FitDistinct(keys: seq<string>) {
    forall i :: 0 <= i < |keys| && |keys[i]| <= NAME_MAX ==> Once(keys, i)
  }

  /** The name fits, and no longer name was cut to it: always so for names shorter than the buffer. */
  ghost predicate Plain(keys: seq<string>, name: string) {
    |name| <= NAME_MAX && forall i :: 0 <= i < |keys| && Cut(keys[i]) == name ==> keys[i] == name
  }

  lemma ShortIsPlain(keys: seq<string>, name: string)
    requires |name| < NAME_MAX || (|name| == NAME_MAX && Fitting(keys))
    ensures Plain(keys, name)
  {
  }

  /** Every name asked for fits the name buffer. */
  ghost predicate Fitting(keys: seq<string>) {
    forall i :: 0 <= i < |keys| ==> |keys[i]| <= NAME_MAX
  }

  ghost predicate Bounded(names: seq<string>, b: seq<nat>) {
    |b| == TABLE && forall t :: 0 <= t < TABLE ==> b[t] <= |names|
  }

  /** On the probe path of a name, strictly before bucket s, every entry has another name. */
  ghost predicate Passed(names: seq<string>, b: seq<nat>, name: string, s: nat)
    requires s < TABLE && Bounded(names, b)
  {
    forall t :: 0 <= t < TABLE && Distance(TABLE, Home(name), t) < Distance(TABLE, Home(name), s) ==>
      b[t] != 0 && names[b[t] - 1] != name
  }

  ghost predicate PassedSteps(names: seq<string>, b: seq<nat>, name: string, p: nat)
    requires Bounded(names, b)
  {
    forall t :: 0 <= t < TABLE && Distance(TABLE, Home(name), t) < p ==> b[t] != 0 && names[b[t] - 1] != name
  }

  lemma PassedOneMore(names: seq<string>, b: seq<nat>, name: string, p: nat)
    requires p < TABLE && Bounded(names, b) && PassedSteps(names, b, name, p)
    requires var s := (Home(name) + p) % TABLE; b[s] != 0 && names[b[s] - 1] != name
    ensures PassedSteps(names, b, name, p + 1)
  {
    hide Home, Distance;
    StepReaches(TABLE, Home(name), p);
  }

  lemma NothingPassed(names: seq<string>, b: seq<nat>, name: string)
    requires Bounded(names, b)
    ensures PassedSteps(names, b, name, 0)
  {
  }

  lemma AllPassed(names: seq<string>, b: seq<nat>, name: string)
    requires Bounded(names, b) && PassedSteps(names, b, name, TABLE)
    ensures forall t :: 0 <= t < TABLE ==> b[t] != 0
  {
    hide Home;
  }

  lemma StopsHere(names: seq<string>, b: seq<nat>, name: string, p: nat)
    requires p < TABLE && Bounded(names, b) && PassedSteps(names, b, name, p)
    ensures Passed(names, b, name, (Home(name) + p) % TABLE)
  {
    hide Home, Distance;
    StepReaches(TABLE, Home(name), p);
  }

  /** 192 entries cannot occupy 256 buckets. */
  lemma NeverFull(names: seq<string>, keys: seq<string>, slots: seq<nat>, b: seq<nat>)
    requires Good(names, keys, slots, b)
    ensures exists t :: 0 <= t < TABLE && b[t] == 0
  {
    if forall t :: 0 <= t < TABLE ==> b[t] != 0 {
      var used := set i | 0 <= i < |slots| :: slots[i];
      forall t | t in Range(TABLE) ensures t in used {
        assert slots[b[t] - 1] == t;
      }
      ImageSize(slots, |slots|);
      SubsetSize(Range(TABLE), used);
      assert false;
    }
  }

  /** A fitting name whose first empty bucket comes before any match was never stored. */
  lemma Absent(names: seq<string>, keys: seq<string>, slots: seq<nat>, b: seq<nat>, name: string, s: nat)
    requires Good(names, keys, slots, b) && s < TABLE && b[s] == 0 && Passed(names, b, name, s)
    requires |name| <= NAME_MAX
    ensures name !in keys
  {
    hide Home;
    if i :| 0 <= i < |keys| && keys[i] == name {
      assert false;
    }
  }

  /** Filling the empty bucket that ends a name's probe path keeps the table's shape. */
  lemma Inserted(names: seq<string>, keys: seq<string>, slots: seq<nat>, b: seq<nat>, name: string, s: nat)
    requires Good(names, keys, slots, b) && |keys| < MAX_VARS && s < TABLE && b[s] == 0
    requires Clear(b, Home(name), s)
    requires |name| <= NAME_MAX ==> name !in keys
    ensures Good(names + [Cut(name)], keys + [name], slots + [s], b[s := |keys| + 1])
  {
    hide Home, Distance, Cut, Clear;
    var k, l, c := keys + [name], slots + [s], b[s := |keys| + 1];
    forall i | 0 <= i < |k| ensures Clear(c, Home(k[i]), l[i]) {
      StaysClear(b, Home(k[i]), l[i], s, |keys| + 1);
    }
    AppendDistinct(keys, name);
  }

  lemma StaysClear(b: seq<nat>, h: nat, s: nat, t: nat, v: nat)
    requires |b| == TABLE && h < TABLE && s < TABLE && t < TABLE && v != 0 && Clear(b, h, s)
    ensures Clear(b[t := v], h, s)
  {
    hide Distance;
  }

  lemma AppendDistinct(keys: seq<string>, name: string)
    requires FitDistinct(keys) && (|name| <= NAME_MAX ==> name !in keys)
    ensures FitDistinct(keys + [name])
  {
    var k := keys + [name];
    forall i | 0 <= i < |k| && |k[i]| <= NAME_MAX ensures Once(k, i) {
      if i < |keys| {
        assert Once(keys, i);
      }
    }
  }

  lemma FitsOnce(keys: seq<string>, i: nat)
    requires FitDistinct(keys) && i < |keys| && |keys[i]| <= NAME_MAX
    ensures Once(keys, i)
  {
  }

  /** Two maps agree at a key. */
  ghost predicate SameAt<F>(m: map<string, F>, n: map<string, F>, x: string) {
    (x in m <==> x in n) && (x in m ==> m[x] == n[x])
  }

  lemma PlainFits(keys: seq<string>, name: string)
    ensures Plain(keys, name) ==> |name| <= NAME_MAX
  {
  }

  lemma KeepsAll<F>(m: map<string, F>)
    ensures forall x :: SameAt(m, m, x)
  {
  }

  /** Creating a name at zero and then writing an entry that has this key, or a longer one, leaves all other fitting
      names alone. */
  lemma KeepsOthers<F>(m: map<string, F>, mid: map<string, F>, end: map<string, F>, name: string, key: string, zero: F)
    requires (mid == m || mid == m[name := zero]) && (key == name || |key| > NAME_MAX)
    requires forall x :: x != key ==> SameAt(mid, end, x)
    ensures forall x :: |x| <= NAME_MAX && x != name ==> SameAt(m, end, x)
  {
    forall x | |x| <= NAME_MAX && x != name ensures SameAt(m, end, x) {
      assert SameAt(mid, end, x);
    }
  }

  lemma FittingDistinct(keys: seq<string>)
    requires FitDistinct(keys) && Fitting(keys)
    ensures Distinct(keys)
  {
    forall i, j | 0 <= i < j < |keys| ensures keys[i] != keys[j] {
      assert Once(keys, i);
    }
  }

  /** A probe path ends at one bucket only. */
  lemma StopsOnce(names: seq<string>, b: seq<nat>, name: string, s: nat, t: nat)
    requires Bounded(names, b) && s < TABLE && t < TABLE && Passed(names, b, name, s) && Passed(names, b, name, t)
    requires b[s] == 0 || names[b[s] - 1] == name
    requires b[t] == 0 || names[b[t] - 1] == name
    ensures s == t
  {
    hide Home;
  }

  /** A new entry lies at the end of its own probe path. */
  lemma PassedStays(names: seq<string>, b: seq<nat>, name: string, s: nat)
    requires Bounded(names, b) && s < TABLE && Passed(names, b, name, s)
    ensures Bounded(names + [name], b[s := |names| + 1]) && Passed(names + [name], b[s := |names| + 1], name, s)
  {
    hide Home;
  }

  class VarTable<F(0)> {
    const zero: F
    const names: array<string>
    const values: array<F>
    const buckets: array<nat>
    var count: nat
    // the names as they were asked for, before the buffer cut them, and where each entry sits
    ghost var keys: seq<string>
    ghost var slots: seq<nat>

    ghost predicate Valid()
      reads this, names, values, buckets
    {
      && names.Length == values.Length == MAX_VARS && count <= MAX_VARS
      && names as object != values as object && values as object != buckets as object
      && Good(names[..count], keys, slots, buckets[..])
    }

    /** What the table stands for. */
    ghost function Contents(): (m: map<string, F>)
      requires Valid()
      reads this, names, values, buckets
    {
      MapOf(keys, values[..count])
    }

    constructor (zero: F)
      ensures Valid() && Fitting(keys) && Contents() == map[] && this.zero == zero && count == 0
      ensures fresh(names) && fresh(values) && fresh(buckets)
    {
      this.zero := zero;
      names := new string[MAX_VARS](i => "");
      values := new F[MAX_VARS](i => zero);
      buckets := new nat[TABLE](i => 0);
      count := 0;
      keys, slots := [], [];
    }

    /** The probe loop: the bucket of the first entry with this very name, or the first empty bucket. */
    method Probe(name: string) returns (s: nat)
      requires Valid()
      ensures s < TABLE && Passed(names[..count], buckets[..], name, s)
      ensures buckets[s] != 0 ==> names[buckets[s] - 1] == name
    {
      hide Home, Distance, Good, PassedSteps, Passed;
      ghost var n, b := names[..count], buckets[..];
      GoodLengths(n, keys, slots, b);
      var h := Home(name);
      NothingPassed(n, b, name);
      for p := 0 to TABLE
        invariant PassedSteps(n, b, name, p)
      {
        s := (h + p) % TABLE;
        assert b[s] == buckets[s];
        StopsHere(n, b, name, p);
        if buckets[s] == 0 {
          return;
        }
        assert n[b[s] - 1] == names[buckets[s] - 1];
        if names[buckets[s] - 1] == name {
          return;
        }
        PassedOneMore(n, b, name, p);
      }
      AllPassed(n, b, name);
      NeverFull(n, keys, slots, b);
      assert false;
    }

    /** Entry k is where probing for the name ends. */
    ghost predicate Located(name: string, k: nat)
      reads this, names, buckets
    {
      && count <= names.Length && Bounded(names[..count], buckets[..])
      && k < count && k < |slots| && slots[k] < TABLE && names[k] == name && buckets[slots[k]] == k + 1
      && Passed(names[..count], buckets[..], name, slots[k])
    }

    /** The entry where probing for the name ends, or MAX_VARS when it ends at an empty bucket. */
    ghost function Where(name: string): nat
      reads this, names, buckets
    {
      if exists k: nat :: Located(name, k) then (var k: nat :| Located(name, k); k) else MAX_VARS
    }

    lemma WhereIs(name: string, k: nat)
      requires Located(name, k)
      ensures Where(name) == k
    {
      hide Passed;
      forall j: nat | Located(name, j) ensures j == k {
        StopsOnce(names[..count], buckets[..], name, slots[j], slots[k]);
      }
    }

    lemma WhereNot(name: string, s: nat)
      requires count <= names.Length && Bounded(names[..count], buckets[..]) && s < TABLE && buckets[s] == 0
      requires Passed(names[..count], buckets[..], name, s)
      ensures Where(name) == MAX_VARS
    {
      hide Passed;
      forall j: nat | Located(name, j) ensures false {
        StopsOnce(names[..count], buckets[..], name, slots[j], s);
      }
    }

    /** Finds a name's entry, creating it with value zero; not found when a new name does not fit. */
    method Get(name: string) returns (found: bool, i: nat)
      requires Valid()
      modifies this, names, values, buckets
      ensures Valid()
      // entries never move and keep their values
      ensures if count == old(count) then keys == old(keys) else count == old(count) + 1 && keys == old(keys) + [name]
      ensures values[..old(count)] == old(values[..count])
      ensures found ==> i < count && names[i] == Cut(name)
      ensures found && i >= old(count) ==> values[i] == zero && keys[i] == name
      ensures !found ==> old(count) == count == MAX_VARS
      ensures Contents() == if count == old(count) then old(Contents()) else old(Contents())[name := zero]
      // a name longer than the buffer is never found again, one that fits always
      ensures found && i < old(count) ==> |name| <= NAME_MAX
      ensures found && |name| <= NAME_MAX ==> Where(name) == i
      ensures old(Where(name)) < MAX_VARS ==> found && i == old(Where(name)) && count == old(count)
      // the table is a map, whatever longer names it holds
      ensures old(Plain(keys, name)) ==>
                && (found ==> keys[i] == name)
                && (found <==> name in Contents())
                && (count == old(count) <==> name in old(Contents()) || old(count) == MAX_VARS)
    {
      hide Good, Home, Passed, Clear, Distance, MapOf, Distinct, FitDistinct, Once, VarTable.Where;
      ghost var n, b := names[..count], buckets[..];
      GoodLengths(n, keys, slots, b);
      var s := Probe(name);
      assert b[s] == buckets[s];
      if buckets[s] == 0 {
        WhereNot(name, s);
        found, i := Create(name, s);
        return;
      }
      found, i := true, buckets[s] - 1;
      assert n[i] == name;
      FoundName(n, keys, slots, b, name, s);
      WhereIs(name, i);
    }

    /** The probe ended at empty bucket s: a new entry, if there is room. */
    method Create(name: string, s: nat) returns (found: bool, i: nat)
      requires Valid() && s < TABLE && buckets[s] == 0 && Passed(names[..count], buckets[..], name, s)
      modifies this, names, values, buckets
      ensures Valid() && (|name| <= NAME_MAX ==> name !in old(keys))
      ensures found <==> old(count) < MAX_VARS
      ensures !found ==> count == old(count) && keys == old(keys) && Contents() == old(Contents())
      ensures !found ==> names[..count] == old(names[..count]) && values[..count] == old(values[..count])
      ensures found ==> i == old(count) && count == i + 1 && keys == old(keys) + [name] && names[i] == Cut(name)
      ensures found ==> values[..count] == old(values[..count]) + [zero] && Contents() == old(Contents())[name := zero]
      ensures found && |name| <= NAME_MAX ==> Where(name) == i
    {
      hide Good, Home, Passed, Clear, Distance, MapOf, FitDistinct, Once, VarTable.Where;
      ghost var n, b := names[..count], buckets[..];
      GoodLengths(n, keys, slots, b);
      PassedIsClear(n, b, name, s);
      if |name| <= NAME_MAX {
        Absent(n, keys, slots, b, name, s);
        PassedStays(n, b, name, s);
      }
      if count >= MAX_VARS {
        return false, 0;
      }
      Insert(name, s);
      if |name| <= NAME_MAX {
        WhereIs(name, count - 1);
      }
      return true, count - 1;
    }

    method Insert(name: string, s: nat)
      requires Valid() && count < MAX_VARS && s < TABLE && buckets[s] == 0
      requires Clear(buckets[..], Home(name), s)
      requires |name| <= NAME_MAX ==> name !in keys
      modifies this, names, values, buckets
      ensures Valid() && count == old(count) + 1 && keys == old(keys) + [name] && slots == old(slots) + [s]
      ensures values[..count] == old(values[..count]) + [zero]
      ensures names[..count] == old(names[..count]) + [Cut(name)]
      ensures buckets[..] == old(buckets[..])[s := count]
      ensures Contents() == old(Contents())[name := zero]
    {
      hide Good, Clear, Home, MapOf;
      ghost var n, v, b := names[..count], values[..count], buckets[..];
      GoodLengths(n, keys, slots, b);
      Inserted(n, keys, slots, b, name, s);
      MapOfSnoc(keys, v, name, zero);
      var i := count;
      count := count + 1;
      names[i] := Cut(name);
      values[i] := zero;
      buckets[s] := i + 1;
      assert names[..count] == n + [Cut(name)];
      assert values[..count] == v + [zero];
      assert buckets[..] == b[s := i + 1];
      keys, slots := keys + [name], slots + [s];
    }

    /** Assignment: ignored when the name is new and the table full. */
    method Set(name: string, v: F)
      requires Valid()
      modifies this, names, values, buckets
      ensures Valid()
      ensures old(Plain(keys, name)) ==>
                Contents() == if name in old(Contents()) || old(count) < MAX_VARS then old(Contents())[name := v] else old(Contents())
      // whatever the name, every other name that fits keeps its value
      ensures forall x :: |x| <= NAME_MAX && x != name ==> SameAt(old(Contents()), Contents(), x)
      ensures (old(count) < MAX_VARS || old(Where(name)) < MAX_VARS) && |name| <= NAME_MAX ==>
                Where(name) < count && values[Where(name)] == v
      ensures old(Fitting(keys)) && |name| <= NAME_MAX ==> Fitting(keys) && Contents() == Stored(old(Contents()), name, v)
    {
      hide Good, MapOf, FitDistinct, Once, VarTable.Where, Cut, SameAt, VarTable.Contents, Plain;
      ghost var m := Contents();
      FittingSize();
      PlainFits(keys, name);
      var found, i := Get(name);
      if found {
        KeyOf(name, i);
        ghost var mid := Contents();
        Overwrite(i, v);
        KeepsOthers(m, mid, Contents(), name, keys[i], zero);
        UpdateTwice(m, name, zero, v);
      } else {
        KeepsAll(m);
      }
    }

    /** While all names fit, the map has as many keys as the table entries. */
    lemma FittingSize()
      requires Valid()
      ensures Fitting(keys) ==> |Contents()| == count && forall name :: |name| <= NAME_MAX ==> Plain(keys, name)
    {
      hide Good, MapOf;
      GoodLengths(names[..count], keys, slots, buckets[..]);
      if Fitting(keys) {
        Fitted(names[..count], keys, slots, buckets[..], values[..count]);
      }
    }

    lemma KeyOf(name: string, i: nat)
      requires Valid() && i < count && names[i] == Cut(name)
      ensures i < |keys| && (|keys[i]| <= NAME_MAX && |name| <= NAME_MAX ==> keys[i] == name)
    {
      hide Good;
      GoodLengths(names[..count], keys, slots, buckets[..]);
      EntryKey(names[..count], keys, slots, buckets[..], name, i);
    }

    method Overwrite(i: nat, v: F)
      requires Valid() && i < count
      modifies values
      ensures Valid() && values[i] == v
      ensures |keys[i]| <= NAME_MAX ==> Contents() == old(Contents())[keys[i] := v]
      ensures forall x :: x != keys[i] ==> SameAt(old(Contents()), Contents(), x)
    {
      hide Good, MapOf, Once, FitDistinct;
      GoodLengths(names[..count], keys, slots, buckets[..]);
      ghost var n, b, before := names[..count], buckets[..], values[..count];
      if |keys[i]| <= NAME_MAX {
        FitsOnce(keys, i);
        MapOfUpdate(keys, before, i, v);
      }
      forall x | x in keys && x != keys[i] ensures MapOf(keys, before[i := v])[x] == MapOf(keys, before)[x] {
        MapOfElsewhere(keys, before, i, v, x);
      }
      values[i] := v;
      assert values[..count] == before[i := v];
      assert names[..count] == n && buckets[..] == b;
    }

    /** Reading: zero for a name not stored. */
    method Read(name: string) returns (v: F)
      requires Valid()
      modifies this, names, values, buckets
      ensures Valid()
      ensures Contents() == if count == old(count) then old(Contents()) else old(Contents())[name := zero]
      ensures old(Plain(keys, name)) ==> v == if name in old(Contents()) then old(Contents())[name] else zero
      ensures old(Where(name)) < old(count) ==> v == old(values[Where(name)])
      ensures old(Fitting(keys)) && |name| <= NAME_MAX ==> Fitting(keys) && Contents() == Touched(old(Contents()), name, zero)
      // a name longer than the buffer reads as zero, whatever was assigned to it
      ensures |name| > NAME_MAX ==> v == zero
    {
      hide Good, MapOf, FitDistinct, VarTable.Where, Plain, Cut, Once;
      ghost var before := values[..count];
      GoodLengths(names[..count], keys, slots, buckets[..]);
      if Fitting(keys) {
        Fitted(names[..count], keys, slots, buckets[..], before);
      }
      var found, i := Get(name);
      if !found {
        return zero;
      }
      GoodLengths(names[..count], keys, slots, buckets[..]);
      EntryKey(names[..count], keys, slots, buckets[..], name, i);
      if |keys[i]| <= NAME_MAX {
        FitsOnce(keys, i);
        MapOfAt(keys, values[..count], i);
      }
      assert i < old(count) ==> values[..old(count)][i] == before[i];
      v := values[i];
    }

    /** Set, then read: the value comes back if and only if the name fits its buffer, as long as there is an entry
        or room for one. */
    method SetThenRead(name: string, v: F) returns (r: F)
      requires Valid() && (count < MAX_VARS || Where(name) < MAX_VARS)
      modifies this, names, values, buckets
      ensures Valid() && r == if |name| <= NAME_MAX then v else zero
    {
      hide Good, MapOf, VarTable.Where;
      Set(name, v);
      r := Read(name);
    }
  }

  /** A name of 64 characters is assigned and lost. */
  method LongNameLost<F(0)>(zero: F, v: F) returns (r: F)
    ensures r == zero
  {
    hide Good, MapOf;
    var name := seq(NAME_MAX + 1, i => 'a');
    var table := new VarTable(zero);
    r := table.SetThenRead(name, v);
  }

  lemma Fitted<F>(names: seq<string>, keys: seq<string>, slots: seq<nat>, b: seq<nat>, vals: seq<F>)
    requires Good(names, keys, slots, b) && Fitting(keys) && |vals| == |keys|
    ensures |MapOf(keys, vals)| == |keys| && forall name :: |name| <= NAME_MAX ==> Plain(keys, name)
  {
    FittingDistinct(keys);
    MapOfSize(keys, vals);
  }

  lemma PassedIsClear(names: seq<string>, b: seq<nat>, name: string, s: nat)
    requires s < TABLE && Bounded(names, b) && Passed(names, b, name, s)
    ensures Clear(b, Home(name), s)
  {
    hide Home, Distance;
  }

  /** The entry a probe found has the name, up to the cut. */
  lemma FoundName(names: seq<string>, keys: seq<string>, slots: seq<nat>, b: seq<nat>, name: string, s: nat)
    requires Good(names, keys, slots, b) && s < TABLE && b[s] != 0 && names[b[s] - 1] == name
    ensures |name| <= NAME_MAX && slots[b[s] - 1] == s
    ensures Plain(keys, name) ==> keys[b[s] - 1] == name && name in keys
  {
  }

  /** An entry's key is the name asked for, or a longer one cut to it. */
  lemma EntryKey(names: seq<string>, keys: seq<string>, slots: seq<nat>, b: seq<nat>, name: string, i: nat)
    requires Good(names, keys, slots, b) && i < |keys| && names[i] == Cut(name)
    ensures |keys[i]| <= NAME_MAX && |name| <= NAME_MAX ==> keys[i] == name
  {
  }

  lemma GoodLengths(names: seq<string>, keys: seq<string>, slots: seq<nat>, b: seq<nat>)
    requires Good(names, keys, slots, b)
    ensures |names| == |keys| == |slots| && Bounded(names, b) && FitDistinct(keys)
  {
  }

  function Touched<F>(m: map<string, F>, name: string, zero: F): map<string, F> {
    if name in m || |m| >= MAX_VARS then m else m[name := zero]
  }

  function Stored<F>(m: map<string, F>, name: string, v: F): map<string, F> {
    if name in m || |m| < MAX_VARS then m[name := v] else m
  }

  // ------------------------------------------------------------ counting

  function Range(n: nat): (r: set<nat>)
    ensures forall t: nat :: t in r <==> t < n
    ensures |r| == n
  {
    if n == 0 then {} else Range(n - 1) + {n - 1}
  }

  lemma {:induction false} ImageSize(f: seq<nat>, n: nat)
    requires n <= |f|
    ensures |set i | 0 <= i < n :: f[i]| <= n
  {
    if n > 0 {
      ImageSize(f, n - 1);
      var small, large := set i | 0 <= i < n - 1 :: f[i], set i | 0 <= i < n :: f[i];
      assert large == small + {f[n - 1]};
    }
  }
}
