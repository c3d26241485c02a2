/** The page allocators for key control blocks and delay items, ntoskrnl/config/cmalloc.c. A page is cut into perPage
    blocks; free blocks of all pages are on one list, and a page goes back to the pool with its last block. */
module BlockPool {
  import opened Lists
  import opened Options

  type Address = nat

  datatype Block = Block(page: Address, index: nat)

  /** A key control block's memory; the flag PrivateAlloc tells the first two apart. */
  datatype Memory = Private(block: Block) | Single(address: Address) | NoMemory

  datatype Pool = Pool(free: seq<Block>, counts: map<Address, nat>, out: set<Block>)

  predicate OnPage(s: Pool, perPage: nat, b: Block) {
    b.page in s.counts && b.index < perPage
  }

  ghost function FreeOf(free: seq<Block>, p: Address): set<Block> {
    set b | b in free && b.page == p
  }

  /** Every block of a live page is either handed out or once on the free list, and no other block is anywhere. */
  ghost predicate BlockOk(s: Pool, perPage: nat, b: Block) {
    && multiset(s.free)[b] == One(OnPage(s, perPage, b) && b !in s.out)
    && (b in s.out ==> OnPage(s, perPage, b))
  }

  /** FreeCount is the number of the page's blocks on the free list, and a page that is kept has blocks handed out. */
  ghost predicate PageOk(s: Pool, perPage: nat, p: Address) {
    p in s.counts ==> s.counts[p] == |FreeOf(s.free, p)| && s.counts[p] < perPage
  }

  ghost predicate Inv(s: Pool, perPage: nat) {
    perPage > 0 && (forall b :: BlockOk(s, perPage, b)) && (forall p :: PageOk(s, perPage, p))
  }

  /** The first n blocks of a page. */
  ghost function BlocksOf(p: Address, n: nat): (r: set<Block>)
    ensures |r| == n && forall b :: b in r <==> b.page == p && b.index < n
  {
    if n == 0 then {} else BlocksOf(p, n - 1) + {Block(p, n - 1)}
  }

  lemma Difference<T>(a: set<T>, b: set<T>)
    requires a <= b
    ensures |b - a| == |b| - |a|
  {
    assert b == a + (b - a);
  }

  lemma FreeOnPage(s: Pool, perPage: nat, p: Address)
    requires forall b :: BlockOk(s, perPage, b)
    ensures FreeOf(s.free, p) <= BlocksOf(p, perPage)
    ensures p in s.counts ==> forall b :: b in BlocksOf(p, perPage) - FreeOf(s.free, p) <==> b in s.out && b.page == p
  {
    forall b
      ensures b in s.free <==> OnPage(s, perPage, b) && b !in s.out
      ensures b in s.out ==> OnPage(s, perPage, b)
    {
      assert BlockOk(s, perPage, b);
      assert b in s.free <==> b in multiset(s.free);
    }
  }

  /** FreeCount and the blocks handed out of a page add up to all of its blocks. */
  lemma CountsAddUp(s: Pool, perPage: nat, p: Address)
    requires Inv(s, perPage) && p in s.counts
    ensures s.counts[p] + |set b | b in s.out && b.page == p| == perPage
  {
    assert PageOk(s, perPage, p);
    FreeOnPage(s, perPage, p);
    Difference(FreeOf(s.free, p), BlocksOf(p, perPage));
    assert BlocksOf(p, perPage) - FreeOf(s.free, p) == set b | b in s.out && b.page == p;
  }

  /** A page that is kept has a block handed out; at rest no page is kept in vain. */
  lemma PageInUse(s: Pool, perPage: nat, p: Address)
    requires Inv(s, perPage) && p in s.counts
    ensures exists b :: b in s.out && b.page == p
  {
    assert PageOk(s, perPage, p);
    FreeOnPage(s, perPage, p);
    Difference(FreeOf(s.free, p), BlocksOf(p, perPage));
    var b :| b in BlocksOf(p, perPage) - FreeOf(s.free, p);
    assert b in s.out && b.page == p;
  }

  // ----- changes of the pool

  function PageList(p: Address, n: nat): (r: seq<Block>)
    ensures |r| == n && forall i :: 0 <= i < n ==> r[i] == Block(p, i)
  {
    seq(n, (i: nat) => Block(p, i))
  }

  /** A page comes from the system and all its blocks go to the end of the free list. */
  function AddPage(s: Pool, perPage: nat, p: Address): Pool {
    s.(free := s.free + PageList(p, perPage), counts := s.counts[p := perPage])
  }

  /** The first free block is handed out. */
  function Take(s: Pool): Pool
    requires s.free != [] && s.free[0].page in s.counts && s.counts[s.free[0].page] > 0
  {
    var b := s.free[0];
    Pool(s.free[1..], s.counts[b.page := s.counts[b.page] - 1], s.out + {b})
  }

  function GiveBack(s: Pool, b: Block): Pool
    requires b.page in s.counts
  {
    Pool(s.free + [b], s.counts[b.page := s.counts[b.page] + 1], s.out - {b})
  }

  function Without(free: seq<Block>, p: Address, n: nat): seq<Block> {
    if n == 0 then free else Remove(Without(free, p, n - 1), Block(p, n - 1))
  }

  function DropPage(s: Pool, perPage: nat, p: Address): Pool {
    Pool(Without(s.free, p, perPage), s.counts - {p}, s.out)
  }

  // ----- the invariant, with at most one page whose blocks are all free

  ghost predicate InvBut(s: Pool, perPage: nat, full: Option<Address>) {
    && perPage > 0 && (forall b :: BlockOk(s, perPage, b))
    && (forall p: Address :: Some(p) != full ==> PageOk(s, perPage, p))
    && (full.Some? ==> full.value in s.counts && s.counts[full.value] == |FreeOf(s.free, full.value)| == perPage)
  }

  lemma {:induction false} PageListCounts(p: Address, n: nat, b: Block)
    ensures multiset(PageList(p, n))[b] == One(b.page == p && b.index < n)
  {
    if n > 0 {
      PageListCounts(p, n - 1, b);
      assert PageList(p, n) == PageList(p, n - 1) + [Block(p, n - 1)];
    }
  }

  lemma AddPageKeeps(s: Pool, perPage: nat, p: Address)
    requires Inv(s, perPage) && p !in s.counts
    ensures InvBut(AddPage(s, perPage, p), perPage, Some(p))
  {
    var t := AddPage(s, perPage, p);
    forall b
      ensures BlockOk(t, perPage, b)
    {
      PageListCounts(p, perPage, b);
      assert BlockOk(s, perPage, b);
    }
    forall q | q != p
      ensures PageOk(t, perPage, q)
    {
      assert PageOk(s, perPage, q);
      assert FreeOf(t.free, q) == FreeOf(s.free, q);
    }
    FreeOnPage(t, perPage, p);
    assert FreeOf(t.free, p) == BlocksOf(p, perPage) by {
      forall b | b in BlocksOf(p, perPage)
        ensures b in t.free
      {
        assert PageList(p, perPage)[b.index] == b;
      }
    }
  }

  lemma HeadKnown(s: Pool, perPage: nat, full: Option<Address>)
    requires InvBut(s, perPage, full) && s.free != []
    ensures var b := s.free[0];
      b.page in s.counts && s.counts[b.page] > 0 && b !in s.out && b !in s.free[1..] && OnPage(s, perPage, b)
  {
    var b := s.free[0];
    assert s.free == [b] + s.free[1..];
    assert BlockOk(s, perPage, b);
    assert multiset(s.free)[b] == 1 + multiset(s.free[1..])[b];
    assert PageOk(s, perPage, b.page) || full == Some(b.page);
    assert b in FreeOf(s.free, b.page);
  }

  lemma TakeKeeps(s: Pool, perPage: nat, full: Option<Address>)
    requires InvBut(s, perPage, full) && s.free != [] && (full.Some? ==> s.free[0].page == full.value)
    ensures s.free[0].page in s.counts && s.counts[s.free[0].page] > 0 && Inv(Take(s), perPage)
  {
    HeadKnown(s, perPage, full);
    var t, b := Take(s), s.free[0];
    assert s.free == [b] + s.free[1..];
    forall c
      ensures BlockOk(t, perPage, c)
    {
      assert BlockOk(s, perPage, c);
    }
    forall p: Address
      ensures PageOk(t, perPage, p)
    {
      assert PageOk(s, perPage, p) || full == Some(p);
      FreeTail(s.free, p);
    }
  }

  lemma FreeTail(free: seq<Block>, p: Address)
    requires free != [] && free[0] !in free[1..]
    ensures |FreeOf(free, p)| == |FreeOf(free[1..], p)| + One(free[0].page == p)
  {
    if p == free[0].page {
      assert FreeOf(free, p) == FreeOf(free[1..], p) + {free[0]};
    } else {
      assert FreeOf(free, p) == FreeOf(free[1..], p);
    }
  }

  lemma GiveBackKeeps(s: Pool, perPage: nat, b: Block)
    requires Inv(s, perPage) && b in s.out
    ensures b.page in s.counts && s.counts[b.page] < perPage && s.counts[b.page] == |FreeOf(s.free, b.page)|
    ensures var t := GiveBack(s, b); InvBut(t, perPage, if t.counts[b.page] == perPage then Some(b.page) else None)
  {
    assert BlockOk(s, perPage, b) && PageOk(s, perPage, b.page);
    var t := GiveBack(s, b);
    forall c
      ensures BlockOk(t, perPage, c)
    {
      assert BlockOk(s, perPage, c);
    }
    assert b !in s.free by {
      assert b in s.free <==> b in multiset(s.free);
    }
    assert FreeOf(t.free, b.page) == FreeOf(s.free, b.page) + {b};
    forall p | p != b.page
      ensures PageOk(t, perPage, p)
    {
      assert PageOk(s, perPage, p);
      assert FreeOf(t.free, p) == FreeOf(s.free, p);
    }
  }

  lemma {:induction false} WithoutCounts(free: seq<Block>, p: Address, n: nat, b: Block)
    requires multiset(free)[b] <= 1
    ensures multiset(Without(free, p, n))[b] == if b.page == p && b.index < n then 0 else multiset(free)[b]
  {
    if n > 0 {
      WithoutCounts(free, p, n - 1, b);
      var q := Without(free, p, n - 1);
      RemoveCounts(q, Block(p, n - 1), b);
      assert b in q <==> b in multiset(q);
    }
  }

  /** The free blocks of other pages, in their order. */
  function OffPage(free: seq<Block>, p: Address): seq<Block> {
    if free == [] then [] else if free[0].page == p then OffPage(free[1..], p) else [free[0]] + OffPage(free[1..], p)
  }

  /** Without the first n blocks of the page. */
  function Sifted(free: seq<Block>, p: Address, n: nat): seq<Block> {
    if free == [] then []
    else if free[0].page == p && free[0].index < n then Sifted(free[1..], p, n)
    else [free[0]] + Sifted(free[1..], p, n)
  }

  lemma {:induction false} SiftedNone(free: seq<Block>, p: Address)
    ensures Sifted(free, p, 0) == free
  {
    if free != [] {
      SiftedNone(free[1..], p);
    }
  }

  lemma {:induction false} SiftedSame(free: seq<Block>, p: Address, n: nat)
    requires Block(p, n) !in free
    ensures Sifted(free, p, n + 1) == Sifted(free, p, n)
  {
    if free != [] {
      SiftedSame(free[1..], p, n);
      assert free[0] != Block(p, n);
    }
  }

  lemma {:induction false} SiftedMore(free: seq<Block>, p: Address, n: nat)
    requires multiset(free)[Block(p, n)] <= 1
    ensures Remove(Sifted(free, p, n), Block(p, n)) == Sifted(free, p, n + 1)
  {
    if free != [] {
      var rest := free[1..];
      assert free == [free[0]] + rest;
      assert multiset(free)[Block(p, n)] == multiset([free[0]])[Block(p, n)] + multiset(rest)[Block(p, n)];
      if free[0] == Block(p, n) {
        assert Block(p, n) in rest <==> Block(p, n) in multiset(rest);
        SiftedSame(rest, p, n);
      } else {
        SiftedMore(rest, p, n);
      }
    }
  }

  lemma {:induction false} WithoutSifts(free: seq<Block>, p: Address, n: nat)
    requires forall b :: multiset(free)[b] <= 1
    ensures Without(free, p, n) == Sifted(free, p, n)
  {
    if n == 0 {
      SiftedNone(free, p);
    } else {
      WithoutSifts(free, p, n - 1);
      SiftedMore(free, p, n - 1);
    }
  }

  lemma {:induction false} SiftedAll(free: seq<Block>, p: Address, n: nat)
    requires forall b :: b in free && b.page == p ==> b.index < n
    ensures Sifted(free, p, n) == OffPage(free, p)
  {
    if free != [] {
      SiftedAll(free[1..], p, n);
    }
  }

  lemma {:induction false} OffPageLast(free: seq<Block>, b: Block)
    ensures OffPage(free + [b], b.page) == OffPage(free, b.page)
  {
    if free != [] {
      OffPageLast(free[1..], b);
      assert (free + [b])[1..] == free[1..] + [b];
    }
  }

  lemma PageTakenOut(s: Pool, perPage: nat, p: Address)
    requires forall b :: BlockOk(s, perPage, b)
    ensures DropPage(s, perPage, p).free == OffPage(s.free, p)
  {
    forall b
      ensures multiset(s.free)[b] <= 1 && (b in s.free && b.page == p ==> b.index < perPage)
    {
      assert BlockOk(s, perPage, b) && (b in s.free <==> b in multiset(s.free));
    }
    WithoutSifts(s.free, p, perPage);
    SiftedAll(s.free, p, perPage);
  }

  lemma DropPageKeeps(s: Pool, perPage: nat, p: Address)
    requires InvBut(s, perPage, Some(p))
    ensures Inv(DropPage(s, perPage, p), perPage)
    ensures forall i :: 0 <= i < perPage ==> Block(p, i) in s.free && Block(p, i) !in s.out
  {
    var t := DropPage(s, perPage, p);
    FreeOnPage(s, perPage, p);
    Difference(FreeOf(s.free, p), BlocksOf(p, perPage));
    assert BlocksOf(p, perPage) - FreeOf(s.free, p) == {};
    forall i | 0 <= i < perPage
      ensures Block(p, i) in s.free && Block(p, i) !in s.out
    {
      assert Block(p, i) in BlocksOf(p, perPage);
    }
    forall b
      ensures BlockOk(t, perPage, b)
    {
      assert BlockOk(s, perPage, b);
      WithoutCounts(s.free, p, perPage, b);
      assert b.page == p && b.index < perPage ==> b == Block(p, b.index);
    }
    forall q
      ensures PageOk(t, perPage, q)
    {
      if q != p {
        assert PageOk(s, perPage, q);
        SameFree(s, t, perPage, p, q);
      }
    }
  }

  lemma SameFree(s: Pool, t: Pool, perPage: nat, p: Address, q: Address)
    requires t == DropPage(s, perPage, p) && q != p && forall b :: BlockOk(s, perPage, b)
    ensures FreeOf(t.free, q) == FreeOf(s.free, q)
  {
    forall b: Block | b.page == q
      ensures b in t.free <==> b in s.free
    {
      assert BlockOk(s, perPage, b);
      WithoutCounts(s.free, p, perPage, b);
      assert b in t.free <==> b in multiset(t.free);
      assert b in s.free <==> b in multiset(s.free);
    }
  }

  // ----- the routines

  class Allocator {
    const perPage: nat
    var free: seq<Block>
    var counts: map<Address, nat>
    ghost var out: set<Block>

    ghost function State(): Pool
      reads this
    {
      Pool(free, counts, out)
    }

    ghost predicate Valid()
      reads this
    {
      Inv(State(), perPage)
    }

    constructor (perPage: nat)
      requires perPage > 0
      ensures Valid() && out == {} && counts == map[] && this.perPage == perPage
    {
      this.perPage := perPage;
      free, counts, out := [], map[], {};
    }

    /** A new page is cut into blocks. */
    method CutPage(p: Address)
      requires Valid() && p !in counts && free == []
      modifies this`free, this`counts
      ensures State() == AddPage(old(State()), perPage, p) && InvBut(State(), perPage, Some(p)) && free != []
      ensures free[0].page == p
    {
      AddPageKeeps(State(), perPage, p);
      counts := counts[p := perPage];
      for i := 0 to perPage
        invariant free == PageList(p, i) && counts == old(counts)[p := perPage]
      {
        free := free + [Block(p, i)];
      }
    }

    /** CmpAllocateDelayItem; page is what the system answers when a page is asked for. The jump back to the search is
        taken at most once. A block is handed out that nobody had, and no request fails while there are free blocks. */
    method Allocate(page: Option<Address>) returns (b: Option<Block>)
      requires Valid() && (page.Some? ==> page.value !in counts)
      modifies this`free, this`counts, this`out
      ensures Valid()
      ensures b.None? <==> old(free) == [] && page.None?
      ensures b.None? ==> State() == old(State())
      ensures b.Some? ==> b.value !in old(out) && out == old(out) + {b.value}
      ensures counts.Keys == old(counts.Keys) + (if old(free) == [] && page.Some? then {page.value} else {})
      ensures old(free) != [] ==> b == Some(old(free)[0]) && free == old(free)[1..]
      ensures old(free) == [] && page.Some? ==>
        b == Some(Block(page.value, 0)) && free == PageList(page.value, perPage)[1..]
    {
      ghost var full: Option<Address> := None;
      while free == []
        invariant InvBut(State(), perPage, full) && out == old(out)
        invariant full == None ==> State() == old(State())
        invariant full.Some? ==> old(free) == [] && full == page && free != [] && free[0].page == full.value
        invariant full.Some? ==> counts.Keys == old(counts.Keys) + {full.value} && free == PageList(full.value, perPage)
        decreases free == []
      {
        if page.None? {
          return None;
        }
        CutPage(page.value);
        full := page;
      }
      HeadKnown(State(), perPage, full);
      TakeKeeps(State(), perPage, full);
      var head := free[0];
      free := free[1..];
      counts := counts[head.page := counts[head.page] - 1];
      out := out + {head};
      b := Some(head);
    }

    /** CmpAllocateKeyControlBlock: once the allocator is set up it is asked first; single is what the system answers
        when asked for one block outside a page. */
    method AllocateKcb(initialized: bool, page: Option<Address>, single: Option<Address>) returns (k: Memory)
      requires Valid() && (page.Some? ==> page.value !in counts)
      modifies this`free, this`counts, this`out
      ensures Valid()
      ensures k.Private? ==> initialized && k.block !in old(out) && out == old(out) + {k.block}
      ensures !k.Private? ==> State() == old(State()) && (initialized ==> old(free) == [] && page.None?)
      ensures k.NoMemory? <==> !k.Private? && single.None?
      ensures k.Single? ==> Some(k.address) == single
    {
      if initialized {
        var b := Allocate(page);
        if b.Some? {
          return Private(b.value);
        }
      }
      k := if single.Some? then Single(single.value) else NoMemory;
    }

    /** CmpFreeKeyControlBlock: the block goes where it came from. */
    method FreeKcb(k: Memory)
      requires Valid() && (k.Private? ==> k.block in out)
      modifies this`free, this`counts, this`out
      ensures Valid() && out == old(out) - (if k.Private? then {k.block} else {})
    {
      if k.Private? {
        Free(k.block);
      }
    }

    /** CmpFreeDelayItem. The page goes back to the system exactly when none of its blocks is handed out any more. */
    method Free(b: Block)
      requires Valid() && b in out
      modifies this`free, this`counts, this`out
      ensures Valid() && out == old(out) - {b}
      ensures counts.Keys == old(counts.Keys) - (if exists c :: c in out && c.page == b.page then {} else {b.page})
      ensures b.page in counts ==> free == old(free) + [b]
      ensures b.page !in counts ==> free == OffPage(old(free), b.page)
    {
      ghost var s := State();
      GiveBackKeeps(s, perPage, b);
      ghost var kept := free;
      free := free + [b];
      counts := counts[b.page := counts[b.page] + 1];
      out := out - {b};
      ghost var t := State();
      assert t == GiveBack(s, b);
      if counts[b.page] == perPage {
        DropPageKeeps(t, perPage, b.page);
        for i := 0 to perPage
          invariant State() == t.(free := Without(t.free, b.page, i))
        {
          free := Remove(free, Block(b.page, i));
        }
        counts := counts - {b.page};
        assert State() == DropPage(t, perPage, b.page);
        NoneOut(t, State(), perPage, b.page);
        PageTakenOut(t, perPage, b.page);
        OffPageLast(kept, b);
      } else {
        PageInUse(State(), perPage, b.page);
      }
    }
  }

  lemma NoneOut(t: Pool, u: Pool, perPage: nat, p: Address)
    requires u == DropPage(t, perPage, p) && Inv(u, perPage)
    ensures forall c :: c in u.out ==> c.page != p
  {
    forall c | c in u.out
      ensures c.page != p
    {
      assert BlockOk(u, perPage, c);
    }
  }
}
