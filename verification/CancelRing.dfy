/** Doubly linked lists with a head, as LIST_ENTRY links: node 0 is the head. Used by the cancellation protocol of
    media/doc/irp cancel boilerplate.c. */
module CancelRing {
  import opened Lists

  type Node = nat

  datatype Links = Links(flink: map<Node, Node>, blink: map<Node, Node>)

  function Flink(l: Links, n: Node): Node {
    if n in l.flink then l.flink[n] else n
  }

  function Blink(l: Links, n: Node): Node {
    if n in l.blink then l.blink[n] else n
  }

  function RemoveEntry(l: Links, n: Node): Links {
    var f, b := Flink(l, n), Blink(l, n);
    Links(l.flink[b := f], l.blink[f := b])
  }

  function InsertTail(l: Links, n: Node): Links {
    var b := Blink(l, 0);
    Links(l.flink[n := 0][b := n], l.blink[n := b][0 := n])
  }

  function SelfLink(l: Links, n: Node): Links {
    Links(l.flink[n := n], l.blink[n := n])
  }

  predicate SelfLinked(l: Links, n: Node) {
    Flink(l, n) == n && Blink(l, n) == n
  }

  /** The i-th node of the ring: the head, the queue, and the head again. */
  function At(q: seq<Node>, i: nat): Node {
    if 0 < i <= |q| then q[i - 1] else 0
  }

  ghost predicate Linked(l: Links, q: seq<Node>, i: nat) {
    i <= |q| ==> Flink(l, At(q, i)) == At(q, i + 1) && Blink(l, At(q, i + 1)) == At(q, i)
  }

  /** The links form one ring through the head and the queue, in order. */
  ghost predicate Ring(l: Links, q: seq<Node>) {
    0 !in q && Distinct(q) && (forall i :: Linked(l, q, i))
  }

  lemma OnlyThere(q: seq<Node>, i: nat, j: nat)
    requires 0 !in q && Distinct(q) && i <= |q| && j <= |q|
    ensures At(q, i) == At(q, j) ==> i == j
  {
    if 0 < i && 0 < j {
      DistinctPlaces(q, i - 1, j - 1);
    } else if 0 < i {
      assert q[i - 1] in q;
    } else if 0 < j {
      assert q[j - 1] in q;
    }
  }

  /** Unlinking the node at place k closes the ring around it, wherever it is. */
  lemma RemoveKeepsRing(l: Links, q: seq<Node>, k: nat)
    requires Ring(l, q) && k < |q|
    ensures Ring(RemoveEntry(l, q[k]), q[..k] + q[k + 1..])
  {
    var l', q' := RemoveEntry(l, q[k]), q[..k] + q[k + 1..];
    assert Linked(l, q, k) && Linked(l, q, k + 1);
    WithoutDistinct(q, q', k);
    forall i: nat
      ensures Linked(l', q', i)
    {
      if i <= |q'| {
        var x := if i <= k then i else i + 1;
        var y := if i < k then i + 1 else i + 2;
        assert At(q', i) == At(q, x) && At(q', i + 1) == At(q, y);
        assert Linked(l, q, x) && Linked(l, q, y - 1);
        OnlyThere(q, x, k);
        OnlyThere(q, if y <= |q| then y else 0, if k + 2 <= |q| then k + 2 else 0);
      }
    }
  }

  lemma InsertKeepsRing(l: Links, q: seq<Node>, n: Node)
    requires Ring(l, q) && n != 0 && n !in q
    ensures Ring(InsertTail(l, n), q + [n])
  {
    var l', q' := InsertTail(l, n), q + [n];
    assert Linked(l, q, |q|);
    DistinctConcat(q, [n]);
    forall i: nat
      ensures Linked(l', q', i)
    {
      assert Linked(l, q, i);
      if i < |q| {
        OnlyThere(q, i, |q|);
        OnlyThere(q, i + 1, 0);
      }
    }
  }

  /** Unlinking a node that points to itself changes nothing for the ring. */
  lemma RemoveSelfLinked(l: Links, q: seq<Node>, n: Node)
    requires Ring(l, q) && n != 0 && n !in q && SelfLinked(l, n)
    ensures Ring(RemoveEntry(l, n), q) && Ring(SelfLink(l, n), q)
  {
    forall i: nat
      ensures Linked(RemoveEntry(l, n), q, i) && Linked(SelfLink(l, n), q, i)
    {
      assert Linked(l, q, i);
    }
  }

  lemma SelfLinkKeepsRing(l: Links, q: seq<Node>, n: Node)
    requires Ring(l, q) && n != 0 && n !in q
    ensures Ring(SelfLink(l, n), q) && SelfLinked(SelfLink(l, n), n)
  {
    forall i: nat
      ensures Linked(SelfLink(l, n), q, i)
    {
      assert Linked(l, q, i);
    }
  }

  /** Neither change touches a node outside the ring. */
  lemma OutsideUntouched(l: Links, q: seq<Node>, n: Node, m: Node)
    requires Ring(l, q) && m != 0 && m !in q && SelfLinked(l, m)
    ensures n in q ==> SelfLinked(RemoveEntry(l, n), m)
    ensures n != m ==> SelfLinked(InsertTail(l, n), m) && SelfLinked(SelfLink(l, n), m)
    ensures SelfLinked(l, n) ==> SelfLinked(RemoveEntry(l, n), m)
  {
    assert Linked(l, q, |q|);
    if n in q {
      var k :| 0 <= k < |q| && q[k] == n;
      assert Linked(l, q, k) && Linked(l, q, k + 1);
      assert At(q, k + 1) == n;
    }
  }

  /** Without the self-link, a second removal would put a node back that is no longer queued: a is taken out, b is taken
      out, and then a is taken out again through its stale links. */
  lemma StaleLinksBreakTheRing(l: Links, a: Node, b: Node)
    requires Ring(l, [a, b])
    ensures Ring(RemoveEntry(RemoveEntry(l, a), b), [])
    ensures Flink(RemoveEntry(RemoveEntry(RemoveEntry(l, a), b), a), 0) == b
    ensures !Ring(RemoveEntry(RemoveEntry(RemoveEntry(l, a), b), a), [])
  {
    RemoveKeepsRing(l, [a, b], 0);
    assert [a, b][..0] + [a, b][1..] == [b];
    RemoveKeepsRing(RemoveEntry(l, a), [b], 0);
    assert [b][..0] + [b][1..] == [];
    assert Linked(l, [a, b], 0) && Linked(l, [a, b], 1) && Linked(l, [a, b], 2);
    assert a in [a, b] && b in [a, b] && Apart([a, b], 0, 1);
    var last := RemoveEntry(RemoveEntry(RemoveEntry(l, a), b), a);
    assert !Linked(last, [], 0);
  }
}
