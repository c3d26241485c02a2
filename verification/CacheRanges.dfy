/** Which stripes the range operations of the cache reach, and what dropping a stripe without writing it back does:
    CcFlushCache and CcRosDeleteFileCache of ntoskrnl/cc/view.c, CcPurgeCacheSection of ntoskrnl/cc/fs.c. */
module CacheRanges {
  import opened Lists
  import opened Options
  import opened VacbLists
  import opened CacheState
  import opened CacheContent
  import opened CacheTransfer
  import opened CacheCopy

  // ----- CcFlushCache

  /** The stripes of n successive lookups, at offset, offset + one stripe, and so on. */
  predicate VisitedIn(v: Vacb, offset: nat, n: nat) {
    RoundDown(offset) <= v.offset < RoundDown(offset) + n * VACB_MAPPING_GRANULARITY
  }

  /** The loop of CcFlushCache turns once for every stripe begun in length. */
  function Turns(length: nat): nat {
    (length + VACB_MAPPING_GRANULARITY - 1) / VACB_MAPPING_GRANULARITY
  }

  predicate Visits(v: Vacb, offset: nat, length: nat) {
    VisitedIn(v, offset, Turns(length))
  }

  predicate Intersects(v: Vacb, offset: nat, length: nat) {
    length > 0 && v.offset < offset + length && offset < v.offset + VACB_MAPPING_GRANULARITY
  }

  lemma StripeArithmetic(offset: nat, length: nat, q: nat)
    requires length > 0
    ensures var v := Vacb(0, 0, q * VACB_MAPPING_GRANULARITY);
      var first, r := offset / VACB_MAPPING_GRANULARITY, offset % VACB_MAPPING_GRANULARITY;
      && (Visits(v, offset, length) <==> first <= q <= first + (length - 1) / VACB_MAPPING_GRANULARITY)
      && (Intersects(v, offset, length) <==> first <= q <= first + (r + length - 1) / VACB_MAPPING_GRANULARITY)
  {
  }

  /** A flush of a byte range reaches every stripe of the range exactly when the length, counted from a stripe boundary
      instead of from offset, spans as many stripes. For an aligned offset it always does. */
  lemma FlushReachesRange(offset: nat, length: nat)
    requires length > 0
    ensures (forall q: nat :: Intersects(Vacb(0, 0, q * VACB_MAPPING_GRANULARITY), offset, length) ==>
               Visits(Vacb(0, 0, q * VACB_MAPPING_GRANULARITY), offset, length)) <==>
      (offset % VACB_MAPPING_GRANULARITY + length - 1) / VACB_MAPPING_GRANULARITY ==
        (length - 1) / VACB_MAPPING_GRANULARITY
  {
    var first, r := offset / VACB_MAPPING_GRANULARITY, offset % VACB_MAPPING_GRANULARITY;
    forall q: nat
      ensures Visits(Vacb(0, 0, q * VACB_MAPPING_GRANULARITY), offset, length) <==>
        first <= q <= first + (length - 1) / VACB_MAPPING_GRANULARITY
      ensures Intersects(Vacb(0, 0, q * VACB_MAPPING_GRANULARITY), offset, length) <==>
        first <= q <= first + (r + length - 1) / VACB_MAPPING_GRANULARITY
    {
      StripeArithmetic(offset, length, q);
    }
    var last := first + (r + length - 1) / VACB_MAPPING_GRANULARITY;
    assert Intersects(Vacb(0, 0, last * VACB_MAPPING_GRANULARITY), offset, length);
  }

  /** Two bytes across a stripe boundary: the flush visits the first stripe only. */
  lemma FlushMissesAStripe()
    ensures var v := Vacb(0, 0, VACB_MAPPING_GRANULARITY);
      Intersects(v, VACB_MAPPING_GRANULARITY - 1, 2) && !Visits(v, VACB_MAPPING_GRANULARITY - 1, 2)
  {
  }

  // ----- data that can be had without waiting

  /** DoRangesIntersect of the stripe and a range that may be empty. */
  predicate Meets(v: Vacb, offset: nat, length: nat) {
    v.offset + VACB_MAPPING_GRANULARITY > offset && offset + length > v.offset
  }

  /** What CcCopyData tests before a copy that must not wait. */
  ghost predicate Ready(c: Cache, f: nat, offset: nat, length: nat)
    requires f in c.files
  {
    forall v :: v in c.files[f].list && v in c.views && Meets(v, offset, length) ==> c.views[v].valid
  }

  ghost predicate Cached(c: Cache, f: nat, i: nat)
    requires f in c.files
  {
    Find(c.files[f].list, RoundDown(i)).Some?
  }

  /** The byte can be read without the disk. */
  ghost predicate InMemory(c: Cache, f: nat, i: nat)
    requires f in c.files
  {
    var r := Find(c.files[f].list, RoundDown(i));
    r.Some? && r.value in c.views && c.views[r.value].valid
  }

  /** The test finds a range available if it is, but also stripes that have no VACB: the range is in memory exactly if
      it passes the test and all of it is cached. */
  lemma InMemoryExactly(c: Cache, f: nat, offset: nat, length: nat)
    requires Inv(c, {}) && f in c.files && length > 0
    ensures (forall i :: offset <= i < offset + length ==> InMemory(c, f, i)) <==>
      Ready(c, f, offset, length) && forall i :: offset <= i < offset + length ==> Cached(c, f, i)
  {
    assert FileOk(c, f);
    forall i | offset <= i < offset + length && Cached(c, f, i) && Ready(c, f, offset, length)
      ensures InMemory(c, f, i)
    {
      var v := Find(c.files[f].list, RoundDown(i)).value;
      assert VacbOk(c, v, {});
      CoversBase(v, i);
    }
    if forall i :: offset <= i < offset + length ==> InMemory(c, f, i) {
      forall i | offset <= i < offset + length
        ensures Cached(c, f, i)
      {
        assert InMemory(c, f, i);
      }
      forall v | v in c.files[f].list && v in c.views && Meets(v, offset, length)
        ensures c.views[v].valid
      {
        var i := if v.offset < offset then offset else v.offset;
        CoversBase(v, i);
        FindListed(c.files[f].list, v);
        assert InMemory(c, f, i);
      }
    }
  }

  // ----- dropping a stripe without writing it back

  /** Forget the dirty mark and the mappings of a VACB and take it off the lists. */
  function Unmarked(c: Cache, v: Vacb): Cache
    requires v in c.views && (c.views[v].dirty ==> CanUnmark(c, v))
  {
    if c.views[v].dirty then UnmarkDirty(c, v) else c
  }

  function Unmapped(c: Cache, v: Vacb): Cache
    requires v in c.views && c.views[v].refs >= One(c.views[v].mapped > 0)
  {
    var view := c.views[v];
    SetView(c, v, view.(mapped := 0, refs := view.refs - One(view.mapped > 0)))
  }

  /** c' is c without the stripe of v in its list; nothing else that readers could see differs. */
  ghost predicate DroppedAs(c: Cache, c': Cache, v: Vacb) {
    && c'.disk == c.disk && SameSections(c, c') && v in c.views && v.file in c.files
    && (forall f :: f in c.files && f != v.file ==> c'.files[f].list == c.files[f].list)
    && c'.files[v.file].list == Remove(c.files[v.file].list, v)
    && c'.views.Keys == c.views.Keys && (forall w :: w in c.views && w != v ==> c'.views[w] == c.views[w])
  }

  lemma UnmarkedKeeps(c: Cache, v: Vacb, detached: set<Vacb>)
    requires Inv(c, detached) && v in c.views && v !in detached
    ensures c.views[v].dirty ==> CanUnmark(c, v)
    ensures Inv(Unmarked(c, v), detached)
  {
    if c.views[v].dirty {
      UnmarkDirtyKeeps(c, v, detached);
    }
  }

  lemma UnmappedKeeps(c: Cache, v: Vacb, detached: set<Vacb>)
    requires Inv(c, detached) && v in c.views && v !in detached
    ensures c.views[v].refs >= One(c.views[v].mapped > 0) && Inv(Unmapped(c, v), detached)
  {
    assert VacbOk(c, v, detached);
    var view := c.views[v];
    ViewKeeps(c, v, view.(mapped := 0, refs := view.refs - One(view.mapped > 0)), c.holders, detached);
  }

  lemma UnmarkedFrame(c: Cache, v: Vacb)
    requires v in c.views && (c.views[v].dirty ==> CanUnmark(c, v))
    ensures var c' := Unmarked(c, v);
      && c'.disk == c.disk && c'.views.Keys == c.views.Keys && SameSections(c, c') && c'.holders == c.holders
        && c'.lru == c.lru
      && (forall w :: w in c.views && w != v ==> c'.views[w] == c.views[w])
      && (forall f :: f in c.files ==> c'.files[f].list == c.files[f].list)
      && !c'.views[v].dirty && c'.views[v].mapped == c.views[v].mapped
      && c'.views[v].refs == c.views[v].refs - One(c.views[v].dirty)
  {
  }

  /** The stripe reads from disk afterwards, every other byte is as before, and the rest of the cache is coherent. */
  lemma DroppedContent(c: Cache, c': Cache, v: Vacb, detached: set<Vacb>)
    requires Inv(c, detached) && Inv(c', detached + {v}) && v !in detached && DroppedAs(c, c', v)
    ensures Coherent(c, detached) ==> Coherent(c', detached + {v})
    ensures forall f, i :: f in c.files && 0 <= i < c.files[f].section ==>
      ByteAt(c', f, i) == if f == v.file && Covers(v, i) then DiskByte(c, f, i) else ByteAt(c, f, i)
  {
    forall w | w !in detached + {v} && CoherentAt(c, w)
      ensures CoherentAt(c', w)
    {
      assert forall k: nat :: w in c.views && OnDisk(c, w, k) ==> OnDisk(c', w, k);
    }
    forall f, i | f in c.files && 0 <= i < c.files[f].section
      ensures ByteAt(c', f, i) == if f == v.file && Covers(v, i) then DiskByte(c, f, i) else ByteAt(c, f, i)
    {
      DroppedByte(c, c', v, detached, f, i);
    }
  }

  lemma DroppedByte(c: Cache, c': Cache, v: Vacb, detached: set<Vacb>, f: nat, i: nat)
    requires Inv(c, detached) && Inv(c', detached + {v}) && v !in detached && DroppedAs(c, c', v)
    requires f in c.files && i < c.files[f].section
    ensures ByteAt(c', f, i) == if f == v.file && Covers(v, i) then DiskByte(c, f, i) else ByteAt(c, f, i)
  {
    assert VacbOk(c, v, detached) && FileOk(c, f);
    CoversBase(v, i);
    var list := c.files[f].list;
    if f == v.file {
      RemoveSorted(list, v);
      if Covers(v, i) {
        var r := Find(Remove(list, v), v.offset);
        if r.Some? {
          SortedOnce(list, v, r.value);
        }
      } else {
        FindOnly(list, Remove(list, v), RoundDown(i));
      }
    }
  }

  /** A VACB nobody holds can be dropped: its count is one once the dirty mark and the mappings are gone. */
  lemma DropKeepsInv(c: Cache, v: Vacb, detached: set<Vacb>)
    requires Inv(c, detached) && v in c.views && v !in detached && v !in c.holders
    ensures c.views[v].dirty ==> CanUnmark(c, v)
    ensures Unmarked(c, v).views[v].refs >= One(c.views[v].mapped > 0) && v.file in c.files
    ensures var c' := Unlink(Unmapped(Unmarked(c, v), v), v);
      Inv(c', detached + {v}) && DroppedAs(c, c', v) && c'.holders == c.holders
  {
    UnmarkedKeeps(c, v, detached);
    UnmarkedFrame(c, v);
    UnmappedKeeps(Unmarked(c, v), v, detached);
    assert VacbOk(Unmapped(Unmarked(c, v), v), v, detached);
    UnlinkKeeps(Unmapped(Unmarked(c, v), v), v, detached);
  }

  /** The stripe of some VACB in the set covers the byte. */
  ghost predicate UnderAny(gone: set<Vacb>, f: nat, i: nat) {
    exists v :: v in gone && v.file == f && Covers(v, i)
  }

  /** A byte after the stripes in gone were dropped: from disk under one of them, as before everywhere else. */
  ghost predicate DroppedToDisk(c: Cache, c': Cache, gone: set<Vacb>, f: nat, i: nat) {
    f in c.files && f in c'.files
    && ByteAt(c', f, i) == if UnderAny(gone, f, i) then DiskByte(c, f, i) else ByteAt(c, f, i)
  }

  ghost predicate AllDroppedToDisk(c: Cache, c': Cache, gone: set<Vacb>) {
    && SameSections(c, c') && c'.disk == c.disk
    && forall f, i :: f in c.files && 0 <= i < c.files[f].section ==> DroppedToDisk(c, c', gone, f, i)
  }

  lemma DropOneMore(c: Cache, c': Cache, c'': Cache, gone: set<Vacb>, v: Vacb)
    requires AllDroppedToDisk(c, c', gone) && Inv(c', gone) && Inv(c'', gone + {v}) && v !in gone
    requires DroppedAs(c', c'', v)
    ensures AllDroppedToDisk(c, c'', gone + {v}) && (Coherent(c', gone) ==> Coherent(c'', gone + {v}))
  {
    DroppedContent(c', c'', v, gone);
    forall f, i | f in c.files && 0 <= i < c.files[f].section
      ensures DroppedToDisk(c, c'', gone + {v}, f, i)
    {
      assert DroppedToDisk(c, c', gone, f, i);
      if UnderAny(gone, f, i) {
        var w :| w in gone && w.file == f && Covers(w, i);
        assert w in gone + {v};
      }
      assert UnderAny(gone + {v}, f, i) <==> UnderAny(gone, f, i) || (f == v.file && Covers(v, i));
    }
  }

  lemma DroppedFlat(c: Cache, c': Cache, c'': Cache, gone: set<Vacb>)
    requires AllDroppedToDisk(c, c', gone) && Flat(c'') == Flat(c') && SameSections(c', c'') && c''.disk == c'.disk
    ensures AllDroppedToDisk(c, c'', gone)
  {
    forall f, i | f in c.files && 0 <= i < c.files[f].section
      ensures DroppedToDisk(c, c'', gone, f, i)
    {
      assert DroppedToDisk(c, c', gone, f, i);
      assert Flat(c'')[f][i] == ByteAt(c'', f, i) && Flat(c')[f][i] == ByteAt(c', f, i);
    }
  }

  // ----- CcPurgeCacheSection

  /** End of the view inside the section. */
  function ViewEnd(section: nat, v: Vacb): nat {
    if v.offset + VACB_MAPPING_GRANULARITY < section then v.offset + VACB_MAPPING_GRANULARITY else section
  }

  /** What the loop of CcPurgeCacheSection accepts; no end means the rest of the file. */
  predicate Purgeable(section: nat, v: Vacb, start: nat, end: Option<nat>) {
    v.offset >= start && (end.Some? ==> ViewEnd(section, v) < end.value)
  }

  /** The whole view lies in the range, as the comment in the source has it. */
  predicate Inside(section: nat, v: Vacb, start: nat, end: Option<nat>) {
    v.offset >= start && (end.Some? ==> ViewEnd(section, v) <= end.value)
  }

  /** A purge accepts every view that lies in the range, except exactly those that end where the range ends. */
  lemma PurgeMissesTheLast(section: nat, v: Vacb, start: nat, end: Option<nat>)
    ensures Purgeable(section, v, start, end) <==> Inside(section, v, start, end) && end != Some(ViewEnd(section, v))
  {
  }

  /** A purge of exactly one full stripe leaves it cached. */
  lemma PurgeOfOneStripe()
    ensures var section, v, end := 2 * VACB_MAPPING_GRANULARITY, Vacb(0, 0, 0), Some(VACB_MAPPING_GRANULARITY);
      Inside(section, v, 0, end) && !Purgeable(section, v, 0, end)
  {
  }

  // ----- CcRosDeleteFileCache

  /** Once no stripe of the file is dirty, the disk holds the file. */
  lemma CleanIsOnDisk(c: Cache, f: nat, i: nat)
    requires Inv(c, {}) && Coherent(c, {}) && f in c.files && i < c.files[f].section
    requires forall v :: v in c.views && v.file == f ==> !c.views[v].dirty
    ensures ByteAt(c, f, i) == DiskByte(c, f, i)
  {
    assert FileOk(c, f);
    var r := Find(c.files[f].list, RoundDown(i));
    if r.Some? {
      var v := r.value;
      assert VacbOk(c, v, {}) && CoherentAt(c, v);
      assert c.views[v].valid ==> OnDisk(c, v, i - v.offset);
    }
  }

  /** A file without VACBs can go. */
  lemma RemoveFileKeeps(c: Cache, f: nat)
    requires Inv(c, {}) && forall v :: v in c.views ==> v.file != f
    ensures var c' := c.(files := c.files - {f});
      Inv(c', {}) && (Coherent(c, {}) ==> Coherent(c', {})) && Flat(c') == Flat(c) - {f}
  {
    var c' := c.(files := c.files - {f});
    forall v
      ensures VacbOk(c', v, {})
    {
      assert VacbOk(c, v, {});
    }
    forall g
      ensures FileOk(c', g)
    {
      assert FileOk(c, g);
    }
    forall v | CoherentAt(c, v)
      ensures CoherentAt(c', v)
    {
      assert forall k: nat :: v in c.views && OnDisk(c, v, k) ==> OnDisk(c', v, k);
    }
    forall g | g in c'.files
      ensures FlatFile(c', g) == FlatFile(c, g)
    {
      assert forall i: nat :: ByteAt(c', g, i) == ByteAt(c, g, i);
    }
  }

  // ----- CcRosInitializeFileCache

  /** A file without VACBs can come: it reads as the disk holds it. */
  lemma AddFileKeeps(c: Cache, f: nat, file: File)
    requires Inv(c, {}) && f !in c.files && f in c.disk
    requires file.list == [] && file.dirtyPages == 0 && |c.disk[f]| == RoundToPages(file.section)
    ensures var c' := c.(files := c.files[f := file]);
      && Inv(c', {}) && (Coherent(c, {}) ==> Coherent(c', {}))
      && file.section <= |c.disk[f]| && Flat(c') == Flat(c)[f := c.disk[f][..file.section]]
  {
    var c' := c.(files := c.files[f := file]);
    var pages := RoundUp(file.section);
    AddFileInv(c, c', f, file);
    forall v
      ensures CoherentAt(c, v) ==> CoherentAt(c', v)
    {
      assert VacbOk(c, v, {});
      assert forall k: nat :: v in c.views && OnDisk(c, v, k) ==> OnDisk(c', v, k);
    }
    AddFileFlat(c, c', f, file);
  }

  lemma AddFileInv(c: Cache, c': Cache, f: nat, file: File)
    requires Inv(c, {}) && f !in c.files && f in c.disk && c' == c.(files := c.files[f := file])
    requires file.list == [] && file.dirtyPages == 0 && |c.disk[f]| == RoundToPages(file.section)
    ensures Inv(c', {})
  {
    forall v
      ensures VacbOk(c', v, {})
    {
      assert VacbOk(c, v, {});
    }
    forall v | v in c.dirty
      ensures v.file != f
    {
      assert v in multiset(c.dirty);
      assert VacbOk(c, v, {});
    }
    NoneOfFile(c.dirty, f);
    forall g
      ensures FileOk(c', g)
    {
      assert FileOk(c, g);
    }
  }

  lemma AddFileFlat(c: Cache, c': Cache, f: nat, file: File)
    requires f !in c.files && f in c.disk && c' == c.(files := c.files[f := file])
    requires file.list == [] && file.section <= |c.disk[f]|
    ensures Flat(c') == Flat(c)[f := c.disk[f][..file.section]]
  {
    forall g | g in c'.files
      ensures FlatFile(c', g) == if g == f then c.disk[f][..file.section] else FlatFile(c, g)
    {
      assert forall i: nat :: g != f ==> ByteAt(c', g, i) == ByteAt(c, g, i);
    }
  }

  lemma {:induction false} NoneOfFile(s: seq<Vacb>, f: nat)
    requires forall v :: v in s ==> v.file != f
    ensures OfFile(s, f) == 0
  {
    if s != [] {
      NoneOfFile(s[1..], f);
    }
  }
}
