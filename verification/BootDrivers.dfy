/** The boot driver list of ntoskrnl/config/cmboot.c, reordered in place: first into the buckets of the
    group order list, then by tag inside each group.
    The circular list is the sequence nodes without its head; a node is named by its value, and id makes
    equal-looking drivers distinct, so comparing two nodes is comparing two list entries. */
module BootDrivers {
  import opened Lists
  import opened Options
  import opened TagOrder
  import opened GroupOrder

  lemma MoveDistinct<T>(s: seq<T>, m: seq<T>, k: nat, q: nat)
    requires IsMove(s, m, k, q) && Distinct(s)
    ensures Distinct(m)
  {
    forall i, j | 0 <= i < j < |m|
      ensures Apart(m, i, j)
    {
      var a := if q < i <= k then i - 1 else if i == q then k else i;
      var b := if q < j <= k then j - 1 else if j == q then k else j;
      assert m[i] == s[a] && m[j] == s[b];
      DistinctPlaces(s, a, b);
    }
  }

  lemma RelinkedIsMoved<T>(s: seq<T>, rest: seq<T>, k: nat, q: nat)
    requires q <= k < |s| && rest == s[..k] + s[k + 1..]
    ensures rest[..q] + [s[k]] + rest[q..] == Moved(s, k, q)
  {
    assert rest[..q] == s[..q];
    assert rest[q..] == s[q..k] + s[k + 1..];
  }

  /** Positions lo..hi may have been permuted, everything else is where it was. */
  ghost predicate PermutedWithin<T>(s: seq<T>, s': seq<T>, lo: nat, hi: nat) {
    && |s'| == |s|
    && multiset(s') == multiset(s)
    && (forall i :: 0 <= i < |s| && !(lo <= i <= hi) ==> s'[i] == s[i])
  }

  /** Second component of the measure of CmpOrderGroup: the scan position while it faces an inversion. */
  function Pending(s: seq<Driver>, c: nat): nat {
    if c + 1 < |s| && s[c].tag > s[c + 1].tag then c else |s|
  }

  ghost predicate Progress(s: seq<Driver>, c: nat, s': seq<Driver>, c': nat) {
    || Inversions(s') < Inversions(s)
    || (Inversions(s') == Inversions(s) && Pending(s', c') < Pending(s, c))
    || (Inversions(s') == Inversions(s) && Pending(s', c') == Pending(s, c) && c < c')
  }

  /** The round as a whole: the sorted prefix of the segment and the measure. */
  lemma RoundMoves(s: seq<Driver>, m: seq<Driver>, lo: nat, c: nat, p: nat)
    requires lo <= p <= c && c + 1 < |s| && m == Moved(s, c + 1, p)
    requires SortedFrom(s, lo, c + 1)
    requires s[c].tag > s[c + 1].tag
    requires forall i :: p < i <= c ==> s[i].tag > s[c + 1].tag
    requires p == lo || s[p].tag <= s[c + 1].tag
    ensures SortedFrom(m, lo, p + 1)
    ensures Progress(s, c, m, p)
  {
    MovedIsMove(s, m, c + 1, p);
    RoundShrinks(s, c + 1, p);
    forall i, j | lo <= i < j < p + 1
      ensures m[i].tag <= m[j].tag
    {
      assert m[i] == s[i] && s[i].tag <= s[p].tag;
    }
  }

  lemma SortedGrows(s: seq<Driver>, lo: nat, c: nat)
    requires lo <= c && c + 1 < |s| && SortedFrom(s, lo, c + 1) && s[c].tag <= s[c + 1].tag
    ensures SortedFrom(s, lo, c + 2)
    ensures Progress(s, c, s, c + 1)
  {
    forall i, j | lo <= i < j < c + 2
      ensures s[i].tag <= s[j].tag
    {
      assert i == c || s[i].tag <= s[c].tag;
    }
  }

  lemma MoveToFront<T>(s: seq<T>, m: seq<T>, k: nat)
    requires k < |s| && Distinct(s) && m == [s[k]] + s[..k] + s[k + 1..]
    ensures Distinct(m) && multiset(m) == multiset(s) && |m| == |s|
    ensures forall i :: k < i < |s| ==> m[i] == s[i]
  {
    assert m == Moved(s, k, 0);
    MovedIsMove(s, m, k, 0);
    MoveDistinct(s, m, k, 0);
  }

  /** A permuted segment only holds drivers that were in it. */
  lemma StaysWithin<T>(s: seq<T>, t: seq<T>, lo: nat, hi: nat, k: nat)
    requires PermutedWithin(s, t, lo, hi) && Distinct(t) && lo <= k <= hi < |s|
    ensures exists l :: lo <= l <= hi && t[k] == s[l]
  {
    assert t[k] in multiset(t);
    assert t[k] in multiset(s);
    var l :| 0 <= l < |s| && s[l] == t[k];
    DistinctPlaces(t, l, k);
  }

  lemma RunSorted(up: char -> char, s: seq<Driver>, t: seq<Driver>, lo: nat, hi: nat)
    requires SameRun(up, s, lo, hi) && RunsSorted(up, s, lo)
    requires lo > 0 ==> Key(up, s[lo - 1]) != Key(up, s[lo])
    requires PermutedWithin(s, t, lo, hi) && Distinct(t) && SortedFrom(t, lo, hi + 1)
    ensures SameKeys(up, s, t) && RunsSorted(up, t, hi + 1)
  {
    forall k | 0 <= k < |s|
      ensures Key(up, s[k]) == Key(up, t[k])
    {
      if lo <= k <= hi {
        StaysWithin(s, t, lo, hi, k);
      }
    }
    forall i, j | 0 <= i < j < hi + 1 && SameRun(up, t, i, j)
      ensures t[i].tag <= t[j].tag
    {
      if j < lo {
        assert SameRun(up, s, i, j);
      }
    }
  }

  /** A bucket pass that has looked at i drivers. */
  ghost predicate PassAt(up: char -> char, s: seq<Driver>, name: string, i: nat, r: seq<Driver>)
    requires i <= |s|
  {
    && r == Pass(up, s, name, i)
    && Distinct(r) && multiset(r) == multiset(s) && |r| == |s|
    && forall k :: i <= k < |s| ==> r[k] == s[k]
  }

  lemma PassBegins(up: char -> char, s: seq<Driver>, name: string)
    requires Distinct(s)
    ensures PassAt(up, s, name, 0, s)
  {
  }

  lemma PassAdvances(up: char -> char, s: seq<Driver>, name: string, i: nat, r: seq<Driver>, r': seq<Driver>)
    requires i < |s| && PassAt(up, s, name, i, r)
    requires r' == if InGroup(up, s[i], name) then [s[i]] + r[..i] + r[i + 1..] else r
    ensures PassAt(up, s, name, i + 1, r')
  {
    PassStep(up, s, name, i, r, r');
    if InGroup(up, s[i], name) {
      MoveToFront(r, r', i);
    }
  }

  lemma PassEnds(up: char -> char, s: seq<Driver>, name: string, r: seq<Driver>)
    requires PassAt(up, s, name, |s|, r)
    ensures r == Bucket(up, s, name)
  {
  }

  /** The walk back from position c stops at p: everything it passed is larger, and it ran into the start or a node that
      is not. */
  ghost predicate StopsAt(s: seq<Driver>, current: Driver, lo: nat, c: nat, p: nat, previous: Driver) {
    && lo <= p <= c < |s| && s[p] == previous
    && (forall i :: p < i <= c ==> s[i].tag > current.tag)
    && (p == lo || previous.tag <= current.tag)
  }

  /** The run of one group that starts at lo ends at hi, where the list ends or another group follows. */
  ghost predicate EndsAt(up: char -> char, s: seq<Driver>, lo: nat, hi: nat, end: Driver, next: Option<Driver>) {
    && lo <= hi < |s| && s[hi] == end && SameRun(up, s, lo, hi)
    && next == (if hi + 1 < |s| then Some(s[hi + 1]) else None)
    && (hi + 1 < |s| ==> Key(up, s[hi]) != Key(up, s[hi + 1]))
  }

  class DriverList {
    var nodes: seq<Driver>
    const up: char -> char

    ghost predicate Valid()
      reads this
    {
      Distinct(nodes)
    }

    constructor (up: char -> char, nodes: seq<Driver>)
      requires Distinct(nodes)
      ensures Valid() && this.nodes == nodes && this.up == up
    {
      this.nodes := nodes;
      this.up := up;
    }

    /** The position of a linked node; its neighbours are the nodes at the positions around it. */
    method Position(n: Driver, ghost at: nat) returns (k: nat)
      requires Valid() && at < |nodes| && nodes[at] == n
      ensures k == at
    {
      k := 0;
      while nodes[k] != n
        invariant k <= at
        decreases at - k
      {
        k := k + 1;
      }
      DistinctPlaces(nodes, k, at);
    }

    /** CmpOrderGroup, its inner loop: walk back from previousNode to the first node that is not
        larger than current, or to the start node. */
    method WalkBack(current: Driver, previousNode: Driver, start: Driver, ghost lo: nat,
                    ghost c: nat) returns (previous: Driver)
      requires Valid() && lo <= c < |nodes| && nodes[lo] == start && nodes[c] == previousNode
      ensures exists p :: StopsAt(nodes, current, lo, c, p, previous)
    {
      previous := previousNode;
      ghost var p: nat := c;
      while previous.tag > current.tag && previous != start
        invariant lo <= p <= c && nodes[p] == previous
        invariant forall i :: p < i <= c ==> nodes[i].tag > current.tag
        decreases p
      {
        assert p != lo;
        var i := Position(previous, p);
        previous := nodes[i - 1];
        p := p - 1;
      }
      DistinctPlaces(nodes, p, lo);
      assert StopsAt(nodes, current, lo, c, p, previous);
    }

    /** CmpOrderGroup, one move: unlink the node at c + 1, walk back, and link it in front of the node
        where the walk stopped. */
    method MoveBack(current: Driver, previousNode: Driver, start: Driver, ghost lo: nat, ghost c: nat)
      returns (previous: Driver, ghost p: nat)
      requires Valid() && lo <= c && c + 1 < |nodes|
      requires nodes[lo] == start && nodes[c] == previousNode && nodes[c + 1] == current
      requires SortedFrom(nodes, lo, c + 1) && previousNode.tag > current.tag
      modifies `nodes
      ensures Valid() && lo <= p <= c && old(nodes)[p] == previous
      ensures IsMove(old(nodes), nodes, c + 1, p) && multiset(nodes) == multiset(old(nodes))
      ensures SortedFrom(nodes, lo, p + 1)
      ensures Progress(old(nodes), c, nodes, p)
    {
      var k := Position(current, c + 1);
      nodes := nodes[..k] + nodes[k + 1..];
      WithoutDistinct(old(nodes), nodes, k);
      previous := WalkBack(current, previousNode, start, lo, c);
      p :| StopsAt(nodes, current, lo, c, p, previous);
      var q := Position(previous, p);
      RelinkedIsMoved(old(nodes), nodes, k, q);
      nodes := nodes[..q] + [current] + nodes[q..];
      RoundMoves(old(nodes), nodes, lo, c, p);
      MovedIsMove(old(nodes), nodes, k, q);
      MoveDistinct(old(nodes), nodes, k, q);
    }

    /** One turn of the CmpOrderGroup loop, from the node at position c. */
    method Round(startNode: Driver, endNode: Driver, currentNode: Driver, ghost lo: nat, ghost hi: nat, ghost c: nat)
      returns (start: Driver, end: Driver, current: Driver, ghost p: nat)
      requires Valid() && lo <= c < hi < |nodes|
      requires nodes[lo] == startNode && nodes[hi] == endNode && nodes[c] == currentNode
      requires SortedFrom(nodes, lo, c + 1)
      modifies `nodes
      ensures Valid() && lo <= p <= hi && PermutedWithin(old(nodes), nodes, lo, hi)
      ensures nodes[lo] == start && nodes[hi] == end && nodes[p] == current
      ensures SortedFrom(nodes, lo, p + 1)
      ensures Progress(old(nodes), c, nodes, p)
    {
      start, end := startNode, endNode;
      var previous := currentNode;
      var k := Position(currentNode, c);
      current := nodes[k + 1];
      if previous.tag > current.tag {
        DistinctPlaces(nodes, c + 1, hi);
        if current == end {
          end := nodes[k];
        }
        previous, p := MoveBack(current, previous, start, lo, c);
        DistinctPlaces(old(nodes), p, lo);
        if previous == start {
          start := current;
        }
      } else {
        p := c + 1;
        SortedGrows(nodes, lo, c);
      }
    }

    /** CmpOrderGroup. lo and hi are the positions of the two end nodes. */
    method OrderGroup(startNode: Driver, endNode: Driver, ghost lo: nat, ghost hi: nat)
      requires Valid() && lo <= hi < |nodes| && nodes[lo] == startNode && nodes[hi] == endNode
      modifies `nodes
      ensures Valid() && PermutedWithin(old(nodes), nodes, lo, hi)
      ensures SortedFrom(nodes, lo, hi + 1)
    {
      DistinctPlaces(nodes, lo, hi);
      if startNode == endNode {
        return;
      }
      var start, end, current := startNode, endNode, startNode;
      ghost var c := lo;
      while true
        invariant Valid() && lo <= c < hi && PermutedWithin(old(nodes), nodes, lo, hi)
        invariant nodes[lo] == start && nodes[hi] == end && nodes[c] == current
        invariant SortedFrom(nodes, lo, c + 1)
        decreases Inversions(nodes), Pending(nodes, c), hi - c
      {
        start, end, current, c := Round(start, end, current, lo, hi, c);
        DistinctPlaces(nodes, c, hi);
        if current == end {
          break;
        }
      }
    }

    /** The entry behind a node, unless the list ends there. */
    method Next(n: Driver, ghost at: nat) returns (next: Option<Driver>)
      requires Valid() && at < |nodes| && nodes[at] == n
      ensures next == if at + 1 < |nodes| then Some(nodes[at + 1]) else None
    {
      var k := Position(n, at);
      next := if k + 1 < |nodes| then Some(nodes[k + 1]) else None;
    }

    /** RemoveEntryList followed by InsertHeadList. */
    method RelinkAtHead(n: Driver, ghost at: nat)
      requires Valid() && at < |nodes| && nodes[at] == n
      modifies `nodes
      ensures nodes == [old(nodes)[at]] + old(nodes)[..at] + old(nodes)[at + 1..]
    {
      var k := Position(n, at);
      nodes := [n] + nodes[..k] + nodes[k + 1..];
    }

    /** One turn of the inner loop of CmpDoSort, at the driver that was at position i when the pass began. */
    method PassTurn(name: string, current: Driver, ghost was: seq<Driver>, ghost i: nat) returns (next: Option<Driver>)
      requires i < |was| && was[i] == current && PassAt(up, was, name, i, nodes)
      modifies `nodes
      ensures PassAt(up, was, name, i + 1, nodes)
      ensures next == if i + 1 < |was| then Some(was[i + 1]) else None
    {
      next := Next(current, i);
      if InGroup(up, current, name) {
        RelinkAtHead(current, i);
      }
      PassAdvances(up, was, name, i, old(nodes), nodes);
    }

    /** CmpDoSort, its inner loop: relink every driver of the group at the head of the list. */
    method BucketPass(name: string)
      requires Valid()
      modifies `nodes
      ensures Valid() && multiset(nodes) == multiset(old(nodes))
      ensures nodes == Bucket(up, old(nodes), name)
      ensures GroupInFront(up, old(nodes), name, nodes)
    {
      ghost var was := nodes;
      ghost var i: nat := 0;
      PassBegins(up, was, name);
      var next := if |nodes| > 0 then Some(nodes[0]) else None;
      while next.Some?
        invariant i <= |was| && PassAt(up, was, name, i, nodes)
        invariant next == if i < |was| then Some(was[i]) else None
        decreases |was| - i
      {
        next := PassTurn(name, next.value, was, i);
        i := i + 1;
      }
      PassEnds(up, was, name, nodes);
      BucketInFront(up, was, name);
    }

    /** CmpDoSort, its scan: from current backwards to the first character of name j - 1. */
    method ScanName(buffer: string, last: nat, ghost names: seq<string>, ghost j: nat) returns (first: nat, end: nat)
      requires WellFormed(names) && 0 < j <= |names| && Text(names) <= buffer
      requires ScanAt(buffer, names, j, last)
      ensures first == |Text(names[..j - 1])| && end == |Text(names[..j])| - 1
      ensures first <= end < |buffer| && buffer[first..end] == names[j - 1]
    {
      ghost var s, e := |Text(names[..j - 1])|, |Text(names[..j])| - 1;
      TextAt(names, j, buffer);
      assert forall k :: s <= k < e ==> buffer[k] == buffer[s..e][k - s] != NUL;
      first, end := last, last;
      while true
        invariant s < first <= last && (first < e ==> end == e)
        decreases first
      {
        if buffer[first] == NUL {
          end := first;
        }
        first := first - 1;
        if first == 0 || buffer[first - 1] == NUL {
          break;
        }
      }
    }

    /** CmpDoSort: the names are taken from the last to the first. The order list covers all of buffer but its
        last character, which CmpSortDriverList takes off the length. */
    method DoSort(buffer: string, ghost names: seq<string>)
      requires Valid() && IsOrderList(buffer, names)
      modifies `nodes
      ensures Valid() && multiset(nodes) == multiset(old(nodes))
      ensures nodes == Buckets(up, old(nodes), names, 0)
    {
      ghost var j: nat := |names|;
      var current: int := |buffer| - 1;
      ScanStart(buffer, names);
      while current > 0
        invariant Valid() && j <= |names| && multiset(nodes) == multiset(old(nodes))
        invariant nodes == Buckets(up, old(nodes), names, j)
        invariant ScanAt(buffer, names, j, current)
        decreases j
      {
        var first, end := ScanName(buffer, current, names, j);
        BucketPass(buffer[first..end]);
        ScanNext(buffer, names, j);
        current := first as int - 1;
        j := j - 1;
      }
    }

    /** CmpResolveDriverDependencies: sort every maximal run of one group by tag. */
    method ResolveDriverDependencies()
      requires Valid()
      modifies `nodes
      ensures Valid() && multiset(nodes) == multiset(old(nodes))
      ensures SameKeys(up, old(nodes), nodes) && RunsSorted(up, nodes, |nodes|)
    {
      ghost var lo: nat := 0;
      var next := if |nodes| > 0 then Some(nodes[0]) else None;
      while next.Some?
        invariant Valid() && lo <= |nodes| && multiset(nodes) == multiset(old(nodes))
        invariant next == if lo < |nodes| then Some(nodes[lo]) else None
        invariant SameKeys(up, old(nodes), nodes) && RunsSorted(up, nodes, lo)
        invariant 0 < lo < |nodes| ==> Key(up, nodes[lo - 1]) != Key(up, nodes[lo])
        decreases |nodes| - lo
      {
        next, lo := SortRun(next.value, lo);
      }
    }

    /** One turn of CmpResolveDriverDependencies: the run that begins at start is sorted by tag. */
    method SortRun(start: Driver, ghost lo: nat) returns (next: Option<Driver>, ghost behind: nat)
      requires Valid() && lo < |nodes| && nodes[lo] == start && RunsSorted(up, nodes, lo)
      requires lo > 0 ==> Key(up, nodes[lo - 1]) != Key(up, nodes[lo])
      modifies `nodes
      ensures Valid() && |nodes| == |old(nodes)| && multiset(nodes) == multiset(old(nodes))
      ensures lo < behind <= |nodes| && next == if behind < |nodes| then Some(nodes[behind]) else None
      ensures SameKeys(up, old(nodes), nodes) && RunsSorted(up, nodes, behind)
      ensures behind < |nodes| ==> Key(up, nodes[behind - 1]) != Key(up, nodes[behind])
    {
      var end;
      end, next := FindRun(start, lo);
      ghost var hi: nat :| EndsAt(up, nodes, lo, hi, end, next);
      OrderGroup(start, end, lo, hi);
      RunSorted(up, old(nodes), nodes, lo, hi);
      behind := hi + 1;
    }

    /** CmpResolveDriverDependencies, its inner loop: the last node of the run, and the entry behind it. */
    method FindRun(start: Driver, ghost lo: nat) returns (end: Driver, next: Option<Driver>)
      requires Valid() && lo < |nodes| && nodes[lo] == start
      ensures exists hi :: EndsAt(up, nodes, lo, hi, end, next)
    {
      ghost var hi: nat := lo;
      end := start;
      next := Next(end, hi);
      while next.Some? && SameName(up, GroupName(start), GroupName(next.value))
        invariant lo <= hi < |nodes| && nodes[hi] == end && SameRun(up, nodes, lo, hi)
        invariant next == if hi + 1 < |nodes| then Some(nodes[hi + 1]) else None
        decreases |nodes| - hi
      {
        end := next.value;
        hi := hi + 1;
        next := Next(end, hi);
      }
      assert EndsAt(up, nodes, lo, hi, end, next);
    }

    /** Both passes: CmpSortDriverList and then CmpResolveDriverDependencies. */
    method OrderBootDrivers(buffer: string, ghost names: seq<string>)
      requires Valid() && IsOrderList(buffer, names)
      modifies `nodes
      ensures Valid() && multiset(nodes) == multiset(old(nodes))
      ensures BootOrdered(up, names, nodes)
      ensures RunsSorted(up, nodes, |nodes|) && UnlistedKept(up, names, old(nodes), nodes)
    {
      DoSort(buffer, names);
      BucketsRanked(up, old(nodes), names, 0);
      BucketsKeepUnlisted(up, old(nodes), names, 0);
      ghost var bucketed := nodes;
      ResolveDriverDependencies();
      RunsGiveBootOrder(up, names, bucketed, nodes);
      UnlistedByKeys(up, names, bucketed, nodes, |nodes|);
    }
  }
}
