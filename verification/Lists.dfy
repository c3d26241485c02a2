/** Lists with entries taken out, as RemoveEntryList does it. */
module Lists {
  function One(b: bool): nat {
    if b then 1 else 0
  }

  ghost predicate Apart<T>(s: seq<T>, i: nat, j: nat)
    requires i < |s| && j < |s|
  {
    s[i] != s[j]
  }

  /** No entry comes twice. */
  ghost predicate Distinct<T>(s: seq<T>) {
    forall i, j :: 0 <= i < j < |s| ==> Apart(s, i, j)
  }

  lemma DistinctPlaces<T>(s: seq<T>, i: nat, j: nat)
    requires Distinct(s) && i < |s| && j < |s|
    ensures s[i] == s[j] ==> i == j
  {
    assert i < j ==> Apart(s, i, j);
    assert j < i ==> Apart(s, j, i);
  }

  lemma WithoutDistinct<T>(s: seq<T>, rest: seq<T>, k: nat)
    requires Distinct(s) && k < |s| && rest == s[..k] + s[k + 1..]
    ensures Distinct(rest) && forall i :: 0 <= i < k ==> rest[i] == s[i]
  {
    forall i, j | 0 <= i < j < |rest|
      ensures Apart(rest, i, j)
    {
      DistinctPlaces(s, if i < k then i else i + 1, if j < k then j else j + 1);
    }
  }

  lemma DistinctConcat<T>(s: seq<T>, t: seq<T>)
    requires Distinct(s) && Distinct(t) && forall x :: x in s ==> x !in t
    ensures Distinct(s + t)
  {
    forall i, j | 0 <= i < j < |s + t|
      ensures Apart(s + t, i, j)
    {
      if j < |s| {
        assert Apart(s, i, j);
      } else if i >= |s| {
        assert Apart(t, i - |s|, j - |s|);
      } else {
        assert s[i] in s && t[j - |s|] in t;
      }
    }
  }

  /** The list without its first occurrence of k. */
  function Remove<T(==)>(q: seq<T>, k: T): (r: seq<T>)
    ensures |r| <= |q|
  {
    if q == [] then [] else if q[0] == k then q[1..] else [q[0]] + Remove(q[1..], k)
  }

  lemma {:induction false} RemoveCounts<T>(q: seq<T>, k: T, l: T)
    ensures multiset(Remove(q, k))[l] == multiset(q)[l] - (if l == k && k in q then 1 else 0)
    ensures |Remove(q, k)| == |q| - (if k in q then 1 else 0)
  {
    if q != [] {
      assert q == [q[0]] + q[1..];
      RemoveCounts(q[1..], k, l);
    }
  }

  /** A walk along a list meets what it looks for at its first occurrence. */
  lemma {:induction false} RemoveAt<T>(q: seq<T>, k: T, i: nat)
    requires i < |q| && q[i] == k && forall j :: 0 <= j < i ==> q[j] != k
    ensures Remove(q, k) == q[..i] + q[i + 1..]
  {
    if i > 0 {
      RemoveAt(q[1..], k, i - 1);
      assert q[1..][..i - 1] == q[1..i] && q[1..][i..] == q[i + 1..];
    }
  }

  /** The last entry of a list without repetitions. */
  lemma RemoveLast<T>(q: seq<T>, k: T)
    requires q != [] && q[|q| - 1] == k && multiset(q)[k] == 1
    ensures Remove(q, k) == q[..|q| - 1]
  {
    var n := |q| - 1;
    assert q == q[..n] + [k];
    forall j | 0 <= j < n
      ensures q[j] != k
    {
      assert q[..n][j] in multiset(q[..n]);
    }
    RemoveAt(q, k, n);
  }
}
