/** What several parts share: optional values, sizes of sets, and distances around a circular table. */
module Common {
  datatype Option<T> = None | Some(value: T)

  lemma {:induction false} SubsetSize<T>(s: set<T>, t: set<T>)
    requires s <= t
    ensures |s| <= |t|
  {
    if x :| x in s {
      SubsetSize(s - {x}, t - {x});
    } else {
      assert s == {};
    }
  }

  /** How many steps forward slot s is from slot h, around a table of n slots. */
  function Distance(n: nat, h: nat, s: nat): (d: nat)
    requires h < n && s < n
    ensures d < n && (h + d == s || h + d == s + n)
  {
    if s >= h then s - h else s + n - h
  }

  lemma Wraps(n: nat, x: nat)
    requires x < 2 * n
    ensures x % n == if x < n then x else x - n
  {
    if x >= n {
      assert x == n + (x - n);
    }
  }

  /** The slot k steps on from h is the only one at that distance. */
  lemma StepReaches(n: nat, h: nat, k: nat)
    requires h < n && k < n
    ensures (h + k) % n < n && Distance(n, h, (h + k) % n) == k
    ensures forall t :: 0 <= t < n && Distance(n, h, t) == k ==> t == (h + k) % n
  {
    Wraps(n, h + k);
  }
}
