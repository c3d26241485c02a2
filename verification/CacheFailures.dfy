/** Inputs on which the cache does not do what a flat file would, ntoskrnl/cc/copy.c and ntoskrnl/cc/view.c: one file of
    one stripe, zeros on disk, and one VACB for it that a caller holds. */
module CacheFailures {
  import opened Lists
  import opened VacbLists
  import opened CacheState
  import opened CacheContent
  import opened CacheTransfer
  import opened CacheCopy
  import opened CacheRanges

  const STRIPE := Vacb(0, 0, 0)

  function Bytes(b: Byte): seq<Byte> {
    seq(VACB_MAPPING_GRANULARITY, i => b)
  }

  function OneStripe(view: View): Cache {
    var dirty := if view.dirty then [STRIPE] else [];
    Cache(map[STRIPE := view],
      map[0 := File(VACB_MAPPING_GRANULARITY, [STRIPE], PAGES_PER_VACB * |dirty|, false, false)],
          [STRIPE], dirty, PAGES_PER_VACB * |dirty|, map[0 := Bytes(0)], multiset{STRIPE})
  }

  lemma OneStripeOk(view: View)
    requires |view.data| == VACB_MAPPING_GRANULARITY && view.mapped == 0 && view.refs == 2 + One(view.dirty)
    ensures Inv(OneStripe(view), {}) && CanTransfer(OneStripe(view), STRIPE)
    ensures view.valid == view.dirty ==> Coherent(OneStripe(view), {})
  {
    var c := OneStripe(view);
    forall v
      ensures VacbOk(c, v, {})
    {
      assert v in c.lru <==> v == STRIPE;
    }
    forall f
      ensures FileOk(c, f)
    {
      assert OfFile([STRIPE], 0) == 1;
      assert RoundToPages(VACB_MAPPING_GRANULARITY) == VACB_MAPPING_GRANULARITY;
    }
    if view.valid == view.dirty {
      forall v
        ensures CoherentAt(c, v)
      {
      }
    }
  }

  /** A file of which nothing is cached passes the test for data that can be had without waiting. */
  lemma NothingCachedPasses()
    ensures var c :=
      Cache(map[], map[0 := File(1, [], 0, false, false)], [], [], 0, map[0 := Zeros(PAGE_SIZE)], multiset{});
      Inv(c, {}) && Ready(c, 0, 0, 1) && !InMemory(c, 0, 0)
  {
    var c := Cache(map[], map[0 := File(1, [], 0, false, false)], [], [], 0, map[0 := Zeros(PAGE_SIZE)], multiset{});
    assert forall v :: VacbOk(c, v, {});
    assert forall f :: FileOk(c, f);
  }

  /** A write of a whole stripe whose buffer faults at the first byte: nothing was copied, and yet the file changes. */
  lemma TornWriteFails()
    ensures var c := OneStripe(View(Bytes(1), false, false, 0, 2));
      && Inv(c, {}) && Coherent(c, {}) && CanTransfer(c, STRIPE)
      && var data := ChunkData(c, STRIPE, Write, 0, VACB_MAPPING_GRANULARITY, [], ReadDone);
         !Wrote(c, Release(SetData(c, STRIPE, data), STRIPE, true, true, false), 0, 0, [])
  {
    var view := View(Bytes(1), false, false, 0, 2);
    var c := OneStripe(view);
    OneStripeOk(view);
    var data := ChunkData(c, STRIPE, Write, 0, VACB_MAPPING_GRANULARITY, [], ReadDone);
    ReleaseStores(c, STRIPE, data, true);
    TornWrite(c, Release(SetData(c, STRIPE, data), STRIPE, true, true, false), STRIPE, []);
    assert !OnDisk(c, STRIPE, 0);
  }

  /** A read that ends at the end of the file and leaves ones: readers see ones from then on. */
  lemma EndOfFileReadFails()
    ensures var c := OneStripe(View(Bytes(2), false, false, 0, 2));
      && Inv(c, {}) && Coherent(c, {}) && CanTransfer(c, STRIPE)
      && var data := ChunkData(c, STRIPE, Read, 0, 1, [], ReadEnd(Bytes(1)));
         !Wrote(c, Release(SetData(c, STRIPE, data), STRIPE, true, false, false), 0, 0, [])
  {
    var view := View(Bytes(2), false, false, 0, 2);
    var c := OneStripe(view);
    OneStripeOk(view);
    var data := ChunkData(c, STRIPE, Read, 0, 1, [], ReadEnd(Bytes(1)));
    ReleaseStores(c, STRIPE, data, false);
    EndOfFileRead(c, Release(SetData(c, STRIPE, data), STRIPE, true, false, false), STRIPE, Read, 0, 1, [], Bytes(1));
    assert Bytes(1)[0] != DiskByte(c, STRIPE.file, STRIPE.offset + 0);
  }

  /** A write-back that ends at the end of the file and writes nothing: the stripe is clean, and lost once evicted. */
  lemma EndOfFileWriteFails()
    ensures var c := OneStripe(View(Bytes(1), true, true, 0, 3));
      && Inv(c, {}) && Coherent(c, {}) && CanTransfer(c, STRIPE) && CanUnmark(c, STRIPE)
      && !SameContent(c, Unlink(Flush(c, STRIPE, WriteEnd(Bytes(0))), STRIPE))
  {
    var view := View(Bytes(1), true, true, 0, 3);
    var c := OneStripe(view);
    OneStripeOk(view);
    FlushKeeps(c, STRIPE, WriteEnd(Bytes(0)), {});
    FlushFrame(c, STRIPE, WriteEnd(Bytes(0)));
    EndOfFileWrite(c, Flush(c, STRIPE, WriteEnd(Bytes(0))), STRIPE, Bytes(0), {});
    assert WriteEnd(Bytes(0)).left[0] != view.data[0];
  }

  /** A stripe that nobody filled, marked dirty and written back: its memory replaces the file. */
  lemma FlushOfUnreadFails()
    ensures var c := OneStripe(View(Bytes(1), false, true, 0, 3));
      && Inv(c, {}) && CanTransfer(c, STRIPE) && CanUnmark(c, STRIPE)
      && !SameContent(c, Flush(c, STRIPE, Written))
  {
    var view := View(Bytes(1), false, true, 0, 3);
    var c := OneStripe(view);
    OneStripeOk(view);
    FlushKeeps(c, STRIPE, Written, {});
    FlushFrame(c, STRIPE, Written);
    FlushOfUnread(c, Flush(c, STRIPE, Written), STRIPE, {});
    assert !OnDisk(c, STRIPE, 0);
  }
}
