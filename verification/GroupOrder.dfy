/** Group order lists of ntoskrnl/config/cmboot.c: the REG_MULTI_SZ text, the order it induces on
    drivers, and what one bucket pass over the driver list computes. */
module GroupOrder {
  import opened TagOrder

  const NUL: char := '\0'

  /** A name in upper case; up is RtlUpcaseUnicodeChar. */
  function Fold(up: char -> char, name: string): (r: string)
    ensures |r| == |name|
  {
    seq(|name|, i requires 0 <= i < |name| => up(name[i]))
  }

  /** RtlEqualUnicodeString without regard to case. */
  predicate SameName(up: char -> char, a: string, b: string) {
    Fold(up, a) == Fold(up, b)
  }

  /** A missing group has a null buffer and length zero. */
  function GroupName(d: Driver): string {
    if d.group.Some? then d.group.value else ""
  }

  function Key(up: char -> char, d: Driver): string {
    Fold(up, GroupName(d))
  }

  predicate InGroup(up: char -> char, d: Driver, name: string) {
    d.group.Some? && SameName(up, name, d.group.value)
  }

  /** First position at or after j of the driver's group in the order list; its length if there is none. */
  function Rank(up: char -> char, names: seq<string>, j: nat, d: Driver): (r: nat)
    requires j <= |names|
    ensures j <= r <= |names|
    ensures r < |names| ==> InGroup(up, d, names[r])
    ensures forall k :: j <= k < r ==> !InGroup(up, d, names[k])
    decreases |names| - j
  {
    if j == |names| || InGroup(up, d, names[j]) then j else Rank(up, names, j + 1, d)
  }

  ghost predicate Ranked(up: char -> char, names: seq<string>, j: nat, s: seq<Driver>)
    requires j <= |names|
  {
    forall a, b :: 0 <= a < b < |s| ==> Rank(up, names, j, s[a]) <= Rank(up, names, j, s[b])
  }

  // ----- the text of the list

  ghost predicate WellFormed(names: seq<string>) {
    forall i :: 0 <= i < |names| ==> names[i] != "" && NUL !in names[i]
  }

  ghost function Text(names: seq<string>): string {
    if names == [] then "" else Text(names[..|names| - 1]) + names[|names| - 1] + [NUL]
  }

  lemma {:induction false} TextPrefix(names: seq<string>, j: nat)
    requires j <= |names|
    ensures Text(names[..j]) <= Text(names)
    decreases |names|
  {
    if j == |names| {
      assert names[..j] == names;
    } else {
      var init := names[..|names| - 1];
      TextPrefix(init, j);
      assert init[..j] == names[..j];
    }
  }

  /** Where name j - 1 stands in any text that starts with the list. */
  lemma TextAt(names: seq<string>, j: nat, buffer: string)
    requires 0 < j <= |names| && Text(names) <= buffer
    ensures var s, e := |Text(names[..j - 1])|, |Text(names[..j])| - 1;
      && s + |names[j - 1]| == e < |buffer|
      && buffer[s..e] == names[j - 1] && buffer[e] == NUL
      && (s > 0 ==> buffer[s - 1] == NUL)
  {
    var before, upto := names[..j - 1], names[..j];
    assert upto[..|upto| - 1] == before;
    TextPrefix(names, j);
    assert Text(upto) <= buffer;
    assert Text(upto) == Text(before) + names[j - 1] + [NUL];
    var s, e := |Text(before)|, |Text(upto)| - 1;
    assert buffer[s..e] == Text(upto)[s..e] == names[j - 1];
    if s > 0 {
      assert Text(before) == Text(before[..|before| - 1]) + before[|before| - 1] + [NUL];
      assert buffer[s - 1] == Text(upto)[s - 1] == Text(before)[s - 1];
    }
  }

  /** The scan of the list stands on a terminator of name j - 1, or in front of the list when j is 0. */
  ghost predicate ScanAt(buffer: string, names: seq<string>, j: nat, current: int)
    requires j <= |names|
  {
    if j == 0 then current <= 0
    else
      && 0 < current < |buffer| && buffer[current] == NUL
      && |Text(names[..j])| - 1 <= current <= |Text(names[..j])|
  }

  /** REG_MULTI_SZ data for the names: each one terminated, and the list usually terminated once more. */
  ghost predicate IsOrderList(buffer: string, names: seq<string>) {
    && WellFormed(names)
    && Text(names) <= buffer && 0 < |buffer| <= |Text(names)| + 1
    && buffer[|buffer| - 1] == NUL
  }

  lemma ScanStart(buffer: string, names: seq<string>)
    requires IsOrderList(buffer, names)
    ensures ScanAt(buffer, names, |names|, |buffer| - 1)
  {
    assert names[..|names|] == names;
    if names != [] {
      TextAt(names, |names|, buffer);
    }
  }

  lemma ScanNext(buffer: string, names: seq<string>, j: nat)
    requires WellFormed(names) && 0 < j <= |names| && Text(names) <= buffer
    ensures ScanAt(buffer, names, j - 1, |Text(names[..j - 1])| - 1)
  {
    if j > 1 {
      TextAt(names, j - 1, buffer);
    }
  }

  // ----- one bucket pass

  /** The drivers of the group among the first n, last one first. */
  function Picked(up: char -> char, s: seq<Driver>, name: string, n: nat): seq<Driver>
    requires n <= |s|
  {
    if n == 0 then []
    else if InGroup(up, s[n - 1], name) then [s[n - 1]] + Picked(up, s, name, n - 1)
    else Picked(up, s, name, n - 1)
  }

  /** The drivers outside the group among the first n, in their order. */
  function Others(up: char -> char, s: seq<Driver>, name: string, n: nat): seq<Driver>
    requires n <= |s|
  {
    if n == 0 then []
    else if InGroup(up, s[n - 1], name) then Others(up, s, name, n - 1)
    else Others(up, s, name, n - 1) + [s[n - 1]]
  }

  /** What a pass makes of the list: the group in front, the rest behind it. */
  function Bucket(up: char -> char, s: seq<Driver>, name: string): seq<Driver> {
    Picked(up, s, name, |s|) + Others(up, s, name, |s|)
  }

  /** The list once a pass has looked at the first i drivers. */
  function Pass(up: char -> char, s: seq<Driver>, name: string, i: nat): (r: seq<Driver>)
    requires i <= |s|
  {
    Picked(up, s, name, i) + Others(up, s, name, i) + s[i..]
  }

  lemma {:induction false} PassSizes(up: char -> char, s: seq<Driver>, name: string, n: nat)
    requires n <= |s|
    ensures |Picked(up, s, name, n)| + |Others(up, s, name, n)| == n
  {
    if n > 0 {
      PassSizes(up, s, name, n - 1);
    }
  }

  lemma PassStep(up: char -> char, s: seq<Driver>, name: string, i: nat, r: seq<Driver>, r': seq<Driver>)
    requires i < |s| == |r| && r == Pass(up, s, name, i)
    requires r' == if InGroup(up, s[i], name) then [s[i]] + r[..i] + r[i + 1..] else r
    ensures r' == Pass(up, s, name, i + 1)
  {
    PassSizes(up, s, name, i);
    Rearranged(Picked(up, s, name, i), Others(up, s, name, i), s[i], s[i + 1..], s[i..], r);
  }

  lemma Rearranged<T>(p: seq<T>, o: seq<T>, x: T, rest: seq<T>, tail: seq<T>, r: seq<T>)
    requires tail == [x] + rest && r == p + o + tail
    ensures [x] + r[..|p| + |o|] + r[|p| + |o| + 1..] == ([x] + p) + o + rest
    ensures r == p + (o + [x]) + rest
  {
    assert r[..|p| + |o|] == p + o;
    assert r[|p| + |o| + 1..] == rest;
  }

  /** x stands in front of y. */
  ghost predicate Precedes(s: seq<Driver>, x: Driver, y: Driver) {
    exists a, b :: 0 <= a < b < |s| && s[a] == x && s[b] == y
  }

  /** The driver names the group, in whatever case. */
  predicate OfGroup(up: char -> char, d: Driver, name: string) {
    && d.group.Some? && |d.group.value| == |name|
    && forall k :: 0 <= k < |name| ==> up(d.group.value[k]) == up(name[k])
  }

  lemma InGroupExactly(up: char -> char, d: Driver, name: string)
    ensures InGroup(up, d, name) <==> OfGroup(up, d, name)
  {
    if d.group.Some? && |d.group.value| == |name| {
      var a, b := Fold(up, name), Fold(up, d.group.value);
      assert forall k :: 0 <= k < |name| ==> a[k] == up(name[k]) && b[k] == up(d.group.value[k]);
      assert a == b <==> forall k :: 0 <= k < |name| ==> a[k] == b[k];
    }
  }

  lemma {:induction false} PickedHas(up: char -> char, s: seq<Driver>, name: string, n: nat, i: nat)
    requires i < n <= |s|
    ensures InGroup(up, s[i], name) ==> s[i] in Picked(up, s, name, n)
    ensures !InGroup(up, s[i], name) ==> s[i] in Others(up, s, name, n)
  {
    if i < n - 1 {
      PickedHas(up, s, name, n - 1, i);
    }
  }

  lemma PrecedesFirst(x: Driver, s: seq<Driver>, y: Driver)
    requires y in s
    ensures Precedes([x] + s, x, y)
  {
    var b :| 0 <= b < |s| && s[b] == y;
    assert ([x] + s)[0] == x && ([x] + s)[b + 1] == y;
  }

  lemma PrecedesStill(a: seq<Driver>, s: seq<Driver>, b: seq<Driver>, x: Driver, y: Driver)
    requires Precedes(s, x, y)
    ensures Precedes(a + s + b, x, y)
  {
    var i, j :| 0 <= i < j < |s| && s[i] == x && s[j] == y;
    assert (a + s + b)[|a| + i] == x && (a + s + b)[|a| + j] == y;
  }

  lemma PrecedesAcross(s: seq<Driver>, t: seq<Driver>, x: Driver, y: Driver)
    requires x in s && y in t
    ensures Precedes(s + t, x, y)
  {
    var a :| 0 <= a < |s| && s[a] == x;
    var b :| 0 <= b < |t| && t[b] == y;
    assert (s + t)[a] == x && (s + t)[|s| + b] == y;
  }

  /** Two drivers of the group change places. */
  lemma {:induction false} PickedOrder(up: char -> char, s: seq<Driver>, name: string, n: nat, i: nat, j: nat)
    requires i < j < n <= |s| && InGroup(up, s[i], name) && InGroup(up, s[j], name)
    ensures Precedes(Picked(up, s, name, n), s[j], s[i])
  {
    var rest := Picked(up, s, name, n - 1);
    if j == n - 1 {
      PickedHas(up, s, name, n - 1, i);
      PrecedesFirst(s[j], rest, s[i]);
    } else {
      PickedOrder(up, s, name, n - 1, i, j);
      PrecedesStill([s[n - 1]], rest, [], s[j], s[i]);
      assert [s[n - 1]] + rest + [] == [s[n - 1]] + rest;
    }
  }

  /** Two drivers outside it do not. */
  lemma {:induction false} OthersOrder(up: char -> char, s: seq<Driver>, name: string, n: nat, i: nat, j: nat)
    requires i < j < n <= |s| && !InGroup(up, s[i], name) && !InGroup(up, s[j], name)
    ensures Precedes(Others(up, s, name, n), s[i], s[j])
  {
    var rest := Others(up, s, name, n - 1);
    if j == n - 1 {
      PickedHas(up, s, name, n - 1, i);
      PrecedesAcross(rest, [s[j]], s[i], s[j]);
    } else {
      OthersOrder(up, s, name, n - 1, i, j);
      PrecedesStill([], rest, [s[n - 1]], s[i], s[j]);
      assert [] + rest + [s[n - 1]] == rest + [s[n - 1]];
    }
  }

  /** A pass puts the later of two drivers in front of the earlier exactly when the later one is of the group. */
  lemma BucketOrder(up: char -> char, s: seq<Driver>, name: string, i: nat, j: nat)
    requires i < j < |s|
    ensures var r := Bucket(up, s, name);
      if OfGroup(up, s[j], name) then Precedes(r, s[j], s[i]) else Precedes(r, s[i], s[j])
  {
    InGroupExactly(up, s[j], name);
    PickedHas(up, s, name, |s|, i);
    PickedHas(up, s, name, |s|, j);
    var p, o := Picked(up, s, name, |s|), Others(up, s, name, |s|);
    assert [] + p + o == p + o && p + o + [] == p + o;
    if InGroup(up, s[i], name) && InGroup(up, s[j], name) {
      PickedOrder(up, s, name, |s|, i, j);
      PrecedesStill([], p, o, s[j], s[i]);
    } else if InGroup(up, s[j], name) {
      PrecedesAcross(p, o, s[j], s[i]);
    } else if InGroup(up, s[i], name) {
      PrecedesAcross(p, o, s[i], s[j]);
    } else {
      OthersOrder(up, s, name, |s|, i, j);
      PrecedesStill(p, o, [], s[i], s[j]);
    }
  }

  /** So it is for every two drivers. */
  ghost predicate GroupInFront(up: char -> char, s: seq<Driver>, name: string, r: seq<Driver>) {
    forall i, j :: 0 <= i < j < |s| ==>
      if OfGroup(up, s[j], name) then Precedes(r, s[j], s[i]) else Precedes(r, s[i], s[j])
  }

  lemma BucketInFront(up: char -> char, s: seq<Driver>, name: string)
    ensures GroupInFront(up, s, name, Bucket(up, s, name))
  {
    forall i, j | 0 <= i < j < |s|
      ensures var r := Bucket(up, s, name);
        if OfGroup(up, s[j], name) then Precedes(r, s[j], s[i]) else Precedes(r, s[i], s[j])
    {
      BucketOrder(up, s, name, i, j);
    }
  }

  /** All bucket passes, from the last name down to name j. */
  function Buckets(up: char -> char, s: seq<Driver>, names: seq<string>, j: nat): seq<Driver>
    requires j <= |names|
    decreases |names| - j
  {
    if j == |names| then s else Bucket(up, Buckets(up, s, names, j + 1), names[j])
  }

  lemma {:induction false} PickedAll(up: char -> char, s: seq<Driver>, name: string, n: nat)
    requires n <= |s|
    ensures forall d :: d in Picked(up, s, name, n) ==> InGroup(up, d, name)
  {
    if n > 0 {
      PickedAll(up, s, name, n - 1);
    }
  }

  /** The driver, ranked from name j on, may stand in front of all drivers from place n on. */
  ghost predicate InFrontOf(up: char -> char, names: seq<string>, j: nat, d: Driver, s: seq<Driver>, n: nat)
    requires j < |names|
  {
    forall b :: n <= b < |s| ==> Rank(up, names, j, d) <= Rank(up, names, j + 1, s[b])
  }

  lemma RankOutside(up: char -> char, names: seq<string>, j: nat, s: seq<Driver>, n: nat)
    requires j < |names| && Ranked(up, names, j + 1, s) && n < |s| && !InGroup(up, s[n], names[j])
    ensures Rank(up, names, j, s[n]) == Rank(up, names, j + 1, s[n]) && InFrontOf(up, names, j, s[n], s, n + 1)
  {
  }

  lemma RankedMore(up: char -> char, names: seq<string>, j: nat, o: seq<Driver>, x: Driver)
    requires j < |names| && Ranked(up, names, j, o)
    requires forall d :: d in o ==> Rank(up, names, j, d) <= Rank(up, names, j, x)
    ensures Ranked(up, names, j, o + [x])
  {
  }

  /** The drivers outside group j among the first n are ranked, and may stand in front of all later ones. */
  ghost predicate RankedAt(up: char -> char, names: seq<string>, j: nat, s: seq<Driver>, n: nat, o: seq<Driver>)
    requires j < |names|
  {
    && Ranked(up, names, j, o)
    && forall d :: d in o ==> !InGroup(up, d, names[j]) && InFrontOf(up, names, j, d, s, n)
  }

  lemma OneMoreRanked(up: char -> char, names: seq<string>, j: nat, s: seq<Driver>, n: nat, o: seq<Driver>,
                      o': seq<Driver>)
    requires j < |names| && Ranked(up, names, j + 1, s) && n < |s| && RankedAt(up, names, j, s, n, o)
    requires o' == if InGroup(up, s[n], names[j]) then o else o + [s[n]]
    ensures RankedAt(up, names, j, s, n + 1, o')
  {
    forall d | d in o
      ensures InFrontOf(up, names, j, d, s, n + 1) && Rank(up, names, j, d) <= Rank(up, names, j + 1, s[n])
    {
      assert InFrontOf(up, names, j, d, s, n);
    }
    if !InGroup(up, s[n], names[j]) {
      RankOutside(up, names, j, s, n);
      RankedMore(up, names, j, o, s[n]);
    }
  }

  lemma {:induction false} OthersRanked(up: char -> char, names: seq<string>, j: nat, s: seq<Driver>, n: nat)
    requires j < |names| && Ranked(up, names, j + 1, s) && n <= |s|
    ensures RankedAt(up, names, j, s, n, Others(up, s, names[j], n))
  {
    if n == 0 {
      NoneRanked(up, names, j, s);
    } else {
      OthersRanked(up, names, j, s, n - 1);
      var o, o' := Others(up, s, names[j], n - 1), Others(up, s, names[j], n);
      OthersNext(up, s, names[j], n - 1, o, o');
      OneMoreRanked(up, names, j, s, n - 1, o, o');
    }
  }

  lemma NoneRanked(up: char -> char, names: seq<string>, j: nat, s: seq<Driver>)
    requires j < |names|
    ensures RankedAt(up, names, j, s, 0, [])
  {
  }

  lemma OthersNext(up: char -> char, s: seq<Driver>, name: string, n: nat, o: seq<Driver>, o': seq<Driver>)
    requires n < |s| && o == Others(up, s, name, n) && o' == Others(up, s, name, n + 1)
    ensures o' == if InGroup(up, s[n], name) then o else o + [s[n]]
  {
  }

  lemma BucketRanked(up: char -> char, names: seq<string>, j: nat, s: seq<Driver>)
    requires j < |names| && Ranked(up, names, j + 1, s)
    ensures Ranked(up, names, j, Bucket(up, s, names[j]))
  {
    PickedAll(up, s, names[j], |s|);
    OthersRanked(up, names, j, s, |s|);
    var p, o := Picked(up, s, names[j], |s|), Others(up, s, names[j], |s|);
    forall a, b | 0 <= a < b < |p + o|
      ensures Rank(up, names, j, (p + o)[a]) <= Rank(up, names, j, (p + o)[b])
    {
      if a < |p| {
        assert (p + o)[a] in p;
      } else {
        assert Rank(up, names, j, o[a - |p|]) <= Rank(up, names, j, o[b - |p|]);
      }
    }
  }

  /** The bucket passes order the drivers by the first position of their group in the list. */
  lemma {:induction false} BucketsRanked(up: char -> char, s: seq<Driver>, names: seq<string>, j: nat)
    requires j <= |names|
    ensures Ranked(up, names, j, Buckets(up, s, names, j))
    decreases |names| - j
  {
    if j < |names| {
      BucketsRanked(up, s, names, j + 1);
      BucketRanked(up, names, j, Buckets(up, s, names, j + 1));
    }
  }

  /** The drivers of no listed group among the first n, in list order. */
  function Unlisted(up: char -> char, names: seq<string>, s: seq<Driver>, n: nat): seq<Driver>
    requires n <= |s|
  {
    if n == 0 then []
    else if Rank(up, names, 0, s[n - 1]) == |names| then Unlisted(up, names, s, n - 1) + [s[n - 1]]
    else Unlisted(up, names, s, n - 1)
  }

  lemma {:induction false} UnlistedPrefix(up: char -> char, names: seq<string>, s: seq<Driver>, t: seq<Driver>, n: nat)
    requires n <= |s| && n <= |t| && forall i :: 0 <= i < n ==> s[i] == t[i]
    ensures Unlisted(up, names, s, n) == Unlisted(up, names, t, n)
  {
    if n > 0 {
      UnlistedPrefix(up, names, s, t, n - 1);
    }
  }

  lemma {:induction false} UnlistedConcat(up: char -> char, names: seq<string>, s: seq<Driver>, t: seq<Driver>, n: nat)
    requires n <= |t|
    ensures Unlisted(up, names, s + t, |s| + n) == Unlisted(up, names, s, |s|) + Unlisted(up, names, t, n)
  {
    if n == 0 {
      UnlistedPrefix(up, names, s + t, s, |s|);
    } else {
      UnlistedConcat(up, names, s, t, n - 1);
    }
  }

  lemma {:induction false} UnlistedPicked(up: char -> char, names: seq<string>, j: nat, s: seq<Driver>, n: nat)
    requires j < |names| && n <= |s|
    ensures var p := Picked(up, s, names[j], n); Unlisted(up, names, p, |p|) == []
  {
    if n > 0 {
      UnlistedPicked(up, names, j, s, n - 1);
      if InGroup(up, s[n - 1], names[j]) {
        var p := Picked(up, s, names[j], n - 1);
        UnlistedConcat(up, names, [s[n - 1]], p, |p|);
      }
    }
  }

  lemma {:induction false} UnlistedOthers(up: char -> char, names: seq<string>, j: nat, s: seq<Driver>, n: nat)
    requires j < |names| && n <= |s|
    ensures var o := Others(up, s, names[j], n); Unlisted(up, names, o, |o|) == Unlisted(up, names, s, n)
  {
    if n > 0 {
      UnlistedOthers(up, names, j, s, n - 1);
      if !InGroup(up, s[n - 1], names[j]) {
        var o := Others(up, s, names[j], n - 1);
        UnlistedPrefix(up, names, o + [s[n - 1]], o, |o|);
      }
    }
  }

  lemma UnlistedBucket(up: char -> char, names: seq<string>, j: nat, s: seq<Driver>)
    requires j < |names|
    ensures |Bucket(up, s, names[j])| == |s|
    ensures Unlisted(up, names, Bucket(up, s, names[j]), |s|) == Unlisted(up, names, s, |s|)
  {
    PassSizes(up, s, names[j], |s|);
    UnlistedPicked(up, names, j, s, |s|);
    UnlistedOthers(up, names, j, s, |s|);
    var p, o := Picked(up, s, names[j], |s|), Others(up, s, names[j], |s|);
    UnlistedConcat(up, names, p, o, |o|);
  }

  /** The passes never exchange two drivers that belong to no listed group. */
  lemma {:induction false} BucketsKeepUnlisted(up: char -> char, s: seq<Driver>, names: seq<string>, j: nat)
    requires j <= |names|
    ensures |Buckets(up, s, names, j)| == |s|
    ensures Unlisted(up, names, Buckets(up, s, names, j), |s|) == Unlisted(up, names, s, |s|)
    decreases |names| - j
  {
    if j < |names| {
      BucketsKeepUnlisted(up, s, names, j + 1);
      UnlistedBucket(up, names, j, Buckets(up, s, names, j + 1));
    }
  }

  // ----- runs of one group

  ghost predicate SameRun(up: char -> char, s: seq<Driver>, i: nat, j: nat) {
    i <= j < |s| && forall k :: i <= k <= j ==> Key(up, s[k]) == Key(up, s[i])
  }

  /** Inside the first n drivers, every run of one group is sorted by tag. */
  ghost predicate RunsSorted(up: char -> char, s: seq<Driver>, n: nat)
    requires n <= |s|
  {
    forall i, j :: 0 <= i < j < n && SameRun(up, s, i, j) ==> s[i].tag <= s[j].tag
  }

  ghost predicate SameKeys(up: char -> char, s: seq<Driver>, t: seq<Driver>) {
    |s| == |t| && forall k :: 0 <= k < |s| ==> Key(up, s[k]) == Key(up, t[k])
  }

  lemma {:induction false} RankByKey(up: char -> char, names: seq<string>, j: nat, d: Driver, e: Driver)
    requires WellFormed(names) && j <= |names| && Key(up, d) == Key(up, e)
    ensures Rank(up, names, j, d) == Rank(up, names, j, e)
    decreases |names| - j
  {
    if j < |names| {
      assert |Fold(up, names[j])| > 0;
      RankByKey(up, names, j + 1, d, e);
    }
  }

  lemma SameKeysMore(up: char -> char, s: seq<Driver>, t: seq<Driver>, d: Driver, e: Driver)
    requires SameKeys(up, s, t) && Key(up, d) == Key(up, e)
    ensures SameKeys(up, s + [d], t + [e])
  {
  }

  /** Drivers with the same group names are listed or unlisted alike. */
  lemma {:induction false} UnlistedByKeys(up: char -> char, names: seq<string>, s: seq<Driver>, t: seq<Driver>, n: nat)
    requires WellFormed(names) && SameKeys(up, s, t) && n <= |s|
    ensures SameKeys(up, Unlisted(up, names, s, n), Unlisted(up, names, t, n))
  {
    if n > 0 {
      UnlistedByKeys(up, names, s, t, n - 1);
      RankByKey(up, names, 0, s[n - 1], t[n - 1]);
      SameKeysMore(up, Unlisted(up, names, s, n - 1), Unlisted(up, names, t, n - 1), s[n - 1], t[n - 1]);
    }
  }

  /** The drivers of no listed group, with the names of their groups in the order they had. */
  ghost predicate UnlistedKept(up: char -> char, names: seq<string>, s: seq<Driver>, t: seq<Driver>) {
    SameKeys(up, Unlisted(up, names, s, |s|), Unlisted(up, names, t, |t|))
  }

  /** Ordered by the first position of the group in the list, and by tag inside each listed group. */
  ghost predicate BootOrdered(up: char -> char, names: seq<string>, s: seq<Driver>) {
    forall i, j :: 0 <= i < j < |s| ==>
      && Rank(up, names, 0, s[i]) <= Rank(up, names, 0, s[j])
      && (Rank(up, names, 0, s[i]) == Rank(up, names, 0, s[j]) < |names| ==> s[i].tag <= s[j].tag)
  }

  /** Sorting the runs of a list that is ordered by group orders it by group and tag. */
  lemma RunsGiveBootOrder(up: char -> char, names: seq<string>, s: seq<Driver>, t: seq<Driver>)
    requires WellFormed(names) && Ranked(up, names, 0, s)
    requires SameKeys(up, s, t) && RunsSorted(up, t, |t|)
    ensures BootOrdered(up, names, t)
  {
    forall i, j | 0 <= i < j < |t|
      ensures Rank(up, names, 0, t[i]) <= Rank(up, names, 0, t[j])
    {
      RankByKey(up, names, 0, s[i], t[i]);
      RankByKey(up, names, 0, s[j], t[j]);
    }
    forall i, j | 0 <= i < j < |t| && Rank(up, names, 0, t[i]) == Rank(up, names, 0, t[j]) < |names|
      ensures t[i].tag <= t[j].tag
    {
      OneRun(up, names, t, i, j);
    }
  }

  /** Everything between two drivers of one listed group is of that group. */
  lemma OneRun(up: char -> char, names: seq<string>, t: seq<Driver>, i: nat, j: nat)
    requires Ranked(up, names, 0, t) && RunsSorted(up, t, |t|)
    requires i < j < |t| && Rank(up, names, 0, t[i]) == Rank(up, names, 0, t[j]) < |names|
    ensures t[i].tag <= t[j].tag
  {
    forall k | i <= k <= j
      ensures Key(up, t[k]) == Key(up, t[i])
    {
      BetweenRanks(up, names, t, i, k, j);
      SameRank(up, names, t[k], t[i]);
    }
    assert SameRun(up, t, i, j);
  }

  lemma BetweenRanks(up: char -> char, names: seq<string>, t: seq<Driver>, i: nat, k: nat, j: nat)
    requires Ranked(up, names, 0, t) && i <= k <= j < |t| && Rank(up, names, 0, t[i]) == Rank(up, names, 0, t[j])
    ensures Rank(up, names, 0, t[k]) == Rank(up, names, 0, t[i])
  {
    if i < k < j {
      var a, b, c := t[i], t[k], t[j];
      assert Rank(up, names, 0, a) <= Rank(up, names, 0, b) && Rank(up, names, 0, b) <= Rank(up, names, 0, c);
    }
  }

  lemma SameRank(up: char -> char, names: seq<string>, d: Driver, e: Driver)
    requires Rank(up, names, 0, d) == Rank(up, names, 0, e) < |names|
    ensures Key(up, d) == Key(up, e)
  {
    SameGroup(up, d, e, names[Rank(up, names, 0, d)]);
  }

  lemma SameGroup(up: char -> char, d: Driver, e: Driver, name: string)
    requires InGroup(up, d, name) && InGroup(up, e, name)
    ensures Key(up, d) == Key(up, e)
  {
  }
}
