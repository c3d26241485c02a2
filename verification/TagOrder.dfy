/** Counting argument behind the in-place tag sort of ntoskrnl/config/cmboot.c.
    The sort re-inserts a node one place too early, so it re-creates inversions while it runs;
    the lemmas here say how the number of inversions moves. */
module TagOrder {
  import opened Options

  datatype Driver = Driver(id: nat, group: Option<string>, tag: nat)

  ghost predicate SortedFrom(s: seq<Driver>, lo: nat, n: nat)
    requires n <= |s|
  {
    forall i, j :: lo <= i < j < n ==> s[i].tag <= s[j].tag
  }

  function Below(s: seq<Driver>, tag: nat): nat {
    if s == [] then 0 else (if s[0].tag < tag then 1 else 0) + Below(s[1..], tag)
  }

  /** Pairs of drivers in the wrong order. */
  function Inversions(s: seq<Driver>): nat {
    if s == [] then 0 else Below(s[1..], s[0].tag) + Inversions(s[1..])
  }

  lemma {:induction false} BelowSwap(a: seq<Driver>, x: Driver, y: Driver, b: seq<Driver>, tag: nat)
    ensures Below(a + [x, y] + b, tag) == Below(a + [y, x] + b, tag)
  {
    if a == [] {
      assert (a + [x, y] + b)[1..][1..] == b == (a + [y, x] + b)[1..][1..];
    } else {
      BelowSwap(a[1..], x, y, b, tag);
      assert (a + [x, y] + b)[1..] == a[1..] + [x, y] + b;
      assert (a + [y, x] + b)[1..] == a[1..] + [y, x] + b;
    }
  }

  /** Exchanging two neighbours changes the number of inversions by exactly their own. */
  lemma {:induction false} InversionsSwap(a: seq<Driver>, x: Driver, y: Driver, b: seq<Driver>)
    ensures Inversions(a + [x, y] + b) + (if y.tag > x.tag then 1 else 0)
         == Inversions(a + [y, x] + b) + (if x.tag > y.tag then 1 else 0)
  {
    if a == [] {
      assert (a + [x, y] + b)[1..] == [y] + b && ([y] + b)[1..] == b;
      assert (a + [y, x] + b)[1..] == [x] + b && ([x] + b)[1..] == b;
    } else {
      InversionsSwap(a[1..], x, y, b);
      BelowSwap(a[1..], x, y, b, a[0].tag);
      assert (a + [x, y] + b)[1..] == a[1..] + [x, y] + b;
      assert (a + [y, x] + b)[1..] == a[1..] + [y, x] + b;
    }
  }

  /** s with the element at k taken out and put back in front of position q. */
  function Moved<T>(s: seq<T>, k: nat, q: nat): seq<T>
    requires q <= k < |s|
  {
    s[..q] + [s[k]] + s[q..k] + s[k + 1..]
  }

  /** m is s with the element at k moved in front of position q, said position by position. */
  ghost predicate IsMove<T>(s: seq<T>, m: seq<T>, k: nat, q: nat) {
    && q <= k < |s| == |m|
    && m[q] == s[k]
    && (forall i :: 0 <= i < q ==> m[i] == s[i])
    && (forall i :: q < i <= k ==> m[i] == s[i - 1])
    && (forall i :: k < i < |s| ==> m[i] == s[i])
  }

  lemma MovedIsMove<T>(s: seq<T>, m: seq<T>, k: nat, q: nat)
    requires q <= k < |s|
    requires m == Moved(s, k, q)
    ensures IsMove(s, m, k, q) && multiset(m) == multiset(s)
  {
    assert s == s[..q] + s[q..k] + [s[k]] + s[k + 1..];
  }

  lemma MovedStep<T>(s: seq<T>, k: nat, q: nat)
    requires q < k < |s|
    ensures Moved(s, k, q) == s[..q] + [s[k], s[q]] + (s[q + 1..k] + s[k + 1..])
    ensures Moved(s, k, q + 1) == s[..q] + [s[q], s[k]] + (s[q + 1..k] + s[k + 1..])
  {
    assert s[q..k] == [s[q]] + s[q + 1..k];
    assert s[..q + 1] == s[..q] + [s[q]];
  }

  /** Moving s[k] in front of larger elements removes one inversion for each of them. */
  lemma {:induction false} MovePastLarger(s: seq<Driver>, k: nat, q: nat)
    requires q <= k < |s|
    requires forall i :: q <= i < k ==> s[i].tag > s[k].tag
    ensures Inversions(Moved(s, k, q)) + (k - q) == Inversions(s)
    decreases k - q
  {
    if q == k {
      assert Moved(s, k, q) == s;
    } else {
      MovePastLarger(s, k, q + 1);
      MovedStep(s, k, q);
      InversionsSwap(s[..q], s[k], s[q], s[q + 1..k] + s[k + 1..]);
    }
  }

  /** One round of the sort moves s[k] past larger elements and then past one more, at q.
      Either an inversion disappears, or exactly one larger element was passed and a new
      inversion stands at q, one place in front of the one that was there. */
  lemma {:induction false} RoundShrinks(s: seq<Driver>, k: nat, q: nat)
    requires q < k < |s|
    requires forall i :: q < i < k ==> s[i].tag > s[k].tag
    requires s[k - 1].tag > s[k].tag
    ensures Inversions(Moved(s, k, q)) <= Inversions(s)
    ensures Inversions(Moved(s, k, q)) == Inversions(s) ==> q == k - 2 && s[q].tag < s[k].tag
  {
    MovePastLarger(s, k, q + 1);
    MovedStep(s, k, q);
    InversionsSwap(s[..q], s[k], s[q], s[q + 1..k] + s[k + 1..]);
  }
}
