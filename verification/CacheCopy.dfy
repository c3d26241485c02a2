/** The copy of one stripe in CcCopyData, ntoskrnl/cc/copy.c, and CcRosReleaseVacb, ntoskrnl/cc/view.c. */
module CacheCopy {
  import opened Lists
  import opened VacbLists
  import opened CacheState
  import opened CacheContent
  import opened CacheTransfer

  datatype Operation = Read | Write | Zero

  function Zeros(n: nat): seq<Byte> {
    seq(n, i => 0)
  }

  function SetData(c: Cache, v: Vacb, data: seq<Byte>): Cache
    requires v in c.views
  {
    SetView(c, v, c.views[v].(data := data))
  }

  function SetValid(c: Cache, v: Vacb, valid: bool): Cache
    requires v in c.views
  {
    SetView(c, v, c.views[v].(valid := valid))
  }

  function MarkIf(c: Cache, v: Vacb, dirty: bool): Cache
    requires v in c.views && v.file in c.files
  {
    if dirty && !c.views[v].dirty then MarkDirty(c, v) else c
  }

  /** The first mapping of a VACB takes a reference. */
  function MapIf(c: Cache, v: Vacb, mapped: bool): Cache
    requires v in c.views
  {
    var view := c.views[v];
    if mapped then SetView(c, v, view.(mapped := view.mapped + 1, refs := view.refs + One(view.mapped == 0))) else c
  }

  /** CcRosReleaseVacb. */
  function Release(c: Cache, v: Vacb, valid: bool, dirty: bool, mapped: bool): Cache
    requires v in c.views && v.file in c.files && c.views[v].refs > 1
  {
    Drop(MapIf(MarkIf(SetValid(c, v, valid), v, dirty), v, mapped), v)
  }

  lemma SetDataKeeps(c: Cache, v: Vacb, data: seq<Byte>, valid: bool)
    requires Inv(c, {}) && v in c.views && |data| == VACB_MAPPING_GRANULARITY
    ensures Inv(SetView(c, v, c.views[v].(data := data, valid := valid)), {})
  {
    assert VacbOk(c, v, {});
    ViewKeeps(c, v, c.views[v].(data := data, valid := valid), c.holders, {});
  }

  lemma MapIfKeeps(c: Cache, v: Vacb, mapped: bool)
    requires Inv(c, {}) && v in c.views
    ensures Inv(MapIf(c, v, mapped), {})
  {
    assert VacbOk(c, v, {});
    var view := c.views[v];
    ViewKeeps(c, v, view.(mapped := view.mapped + 1, refs := view.refs + One(view.mapped == 0)), c.holders, {});
  }

  lemma SetValidKeeps(c: Cache, v: Vacb, valid: bool)
    requires Inv(c, {}) && v in c.views
    ensures v.file in c.files && Inv(SetValid(c, v, valid), {})
  {
    assert VacbOk(c, v, {});
    SetDataKeeps(c, v, c.views[v].data, valid);
  }

  /** Releasing keeps the invariant, and the released reference is never the last: Refs > 0. */
  lemma ReleaseKeeps(c: Cache, v: Vacb, valid: bool, dirty: bool, mapped: bool)
    requires Inv(c, {}) && v in c.holders
    ensures v in c.views && v.file in c.files && c.views[v].refs > 1
    ensures Inv(Release(c, v, valid, dirty, mapped), {}) && Release(c, v, valid, dirty, mapped).views[v].refs > 0
  {
    DropKeeps(c, v, {});
    SetValidKeeps(c, v, valid);
    var c1 := SetValid(c, v, valid);
    if dirty && !c.views[v].dirty {
      MarkDirtyKeeps(c1, v, {});
    }
    MapIfKeeps(MarkIf(c1, v, dirty), v, mapped);
    DropKeeps(MapIf(MarkIf(c1, v, dirty), v, mapped), v, {});
  }

  /** c' is c with new valid data in the stripe of v, and possibly a dirty mark. */
  ghost predicate StoredAs(c: Cache, c': Cache, v: Vacb, data: seq<Byte>, dirty: bool) {
    && c'.disk == c.disk && c'.views.Keys == c.views.Keys && SameSections(c, c')
    && (forall f :: f in c.files ==> c'.files[f].list == c.files[f].list)
    && v in c.views && v.file in c.files
    && (forall w :: w in c.views && w != v ==> c'.views[w] == c.views[w])
    && c'.views[v].data == data && c'.views[v].valid && c'.views[v].dirty == (dirty || c.views[v].dirty)
  }

  /** What releasing a stripe as valid after its data was set leaves behind. */
  lemma ReleaseStores(c: Cache, v: Vacb, data: seq<Byte>, dirty: bool)
    requires Inv(c, {}) && v in c.holders && |data| == VACB_MAPPING_GRANULARITY
    ensures v in c.views && v.file in c.files && c.views[v].refs > 1
    ensures var c' := Release(SetData(c, v, data), v, true, dirty, false);
      Inv(c', {}) && StoredAs(c, c', v, data, dirty) && c'.holders == c.holders - multiset{v}
  {
    DropKeeps(c, v, {});
    assert VacbOk(c, v, {});
    SetDataKeeps(c, v, data, c.views[v].valid);
    ReleaseKeeps(SetData(c, v, data), v, true, dirty, false);
  }

  /** Data stored without a dirty mark must be what the stripe already held. */
  ghost predicate Unchanged(c: Cache, v: Vacb, data: seq<Byte>)
    requires v.file in c.files
  {
    forall k :: 0 <= k < |data| && v.offset + k < c.files[v.file].section ==> data[k] == ByteAt(c, v.file, v.offset + k)
  }

  /** The stripe now reads as the stored data; every other byte is unchanged. */
  lemma StoredByte(c: Cache, c': Cache, v: Vacb, data: seq<Byte>, dirty: bool, f: nat, i: nat)
    requires Inv(c, {}) && Inv(c', {}) && StoredAs(c, c', v, data, dirty)
    requires f in c.files && i < c.files[f].section
    ensures |data| == VACB_MAPPING_GRANULARITY
    ensures ByteAt(c', f, i) == if f == v.file && Covers(v, i) then data[i - v.offset] else ByteAt(c, f, i)
  {
    assert VacbOk(c', v, {});
    assert FileOk(c, f);
    CoversBase(v, i);
    if f == v.file && Covers(v, i) {
      ByteThrough(c', {}, v, i);
    }
  }

  lemma StoredCoherent(c: Cache, c': Cache, v: Vacb, data: seq<Byte>, dirty: bool)
    requires Inv(c, {}) && Inv(c', {}) && Coherent(c, {}) && StoredAs(c, c', v, data, dirty)
    requires dirty || Unchanged(c, v, data)
    ensures Coherent(c', {})
  {
    forall w
      ensures CoherentAt(c', w)
    {
      StoredCoherentAt(c, c', v, data, dirty, w);
    }
  }

  lemma StoredCoherentAt(c: Cache, c': Cache, v: Vacb, data: seq<Byte>, dirty: bool, w: Vacb)
    requires Inv(c, {}) && Inv(c', {}) && Coherent(c, {}) && StoredAs(c, c', v, data, dirty)
    requires dirty || Unchanged(c, v, data)
    ensures CoherentAt(c', w)
  {
    assert CoherentAt(c, w);
    assert VacbOk(c', v, {});
    if w in c'.views && w.file in c'.files && c'.views[w].valid && !c'.views[w].dirty {
      forall k | 0 <= k < VACB_MAPPING_GRANULARITY && w.offset + k < c'.files[w.file].section
        ensures OnDisk(c', w, k)
      {
        if w == v {
          ByteThrough(c, {}, v, v.offset + k);
          assert c.views[v].valid ==> OnDisk(c, v, k);
        } else {
          assert OnDisk(c, w, k);
        }
      }
    }
  }

  // ----- the data of one chunk

  lemma PagesOfStripe(section: nat, v: Vacb)
    requires v.offset % VACB_MAPPING_GRANULARITY == 0 && v.offset < section
    ensures var size := RoundToPages(StripeSize(section, v));
      && StripeSize(section, v) <= size <= VACB_MAPPING_GRANULARITY
      && v.offset + size <= RoundToPages(section)
  {
    var stripe := v.offset / VACB_MAPPING_GRANULARITY;
    var pages := RoundUp(StripeSize(section, v));
    var all := RoundUp(section);
    assert v.offset == PAGE_SIZE * (PAGES_PER_VACB * stripe);
  }

  lemma RoundUp(n: nat) returns (pages: nat)
    ensures RoundToPages(n) == PAGE_SIZE * pages && n <= PAGE_SIZE * pages < n + PAGE_SIZE
  {
    pages := (n + PAGE_SIZE - 1) / PAGE_SIZE;
  }

  /** CcReadVirtualAddress: the pages of the section from disk, the rest of the stripe zero. */
  function FromDisk(c: Cache, v: Vacb): (data: seq<Byte>)
    requires CanTransfer(c, v)
    ensures |data| == VACB_MAPPING_GRANULARITY
    ensures forall k :: 0 <= k < |data| && v.offset + k < c.files[v.file].section ==>
      data[k] == DiskByte(c, v.file, v.offset + k)
  {
    var size := RoundToPages(StripeSize(c.files[v.file].section, v));
    PagesOfStripe(c.files[v.file].section, v);
    c.disk[v.file][v.offset..v.offset + size] + Zeros(VACB_MAPPING_GRANULARITY - size)
  }

  /** What IoPageRead did: any answer but success leaves anything in the stripe's memory. An answer of end of file
      passes for success. */
  datatype ReadOutcome = ReadDone | ReadEnd(left: seq<Byte>) | ReadFailed(left: seq<Byte>)

  predicate ReadOk(r: ReadOutcome) {
    r.ReadDone? || |r.left| == VACB_MAPPING_GRANULARITY
  }

  /** The stripe a read passes for: what it left in the pages of the section, and zeros behind them. */
  function Filled(c: Cache, v: Vacb, r: ReadOutcome): (data: seq<Byte>)
    requires CanTransfer(c, v) && ReadOk(r)
    ensures |data| == VACB_MAPPING_GRANULARITY
    ensures forall k :: 0 <= k < |data| && v.offset + k < c.files[v.file].section ==>
      data[k] == if r.ReadDone? then DiskByte(c, v.file, v.offset + k) else r.left[k]
  {
    var size := RoundToPages(StripeSize(c.files[v.file].section, v));
    PagesOfStripe(c.files[v.file].section, v);
    if r.ReadDone? then FromDisk(c, v) else r.left[..size] + Zeros(VACB_MAPPING_GRANULARITY - size)
  }

  /** What the read left is the file's stripe. */
  ghost predicate Arrived(c: Cache, v: Vacb, r: ReadOutcome)
    requires CanTransfer(c, v) && ReadOk(r)
  {
    r.ReadDone? || forall k :: 0 <= k < VACB_MAPPING_GRANULARITY && v.offset + k < c.files[v.file].section ==>
      r.left[k] == DiskByte(c, v.file, v.offset + k)
  }

  /** A stripe that is not valid is read first, unless all of it is about to be written. */
  predicate NeedsRead(c: Cache, v: Vacb, op: Operation, n: nat)
    requires v in c.views
  {
    !c.views[v].valid && (op == Read || n < VACB_MAPPING_GRANULARITY)
  }

  /** The stripe a chunk of n bytes is applied to. */
  function ChunkBase(c: Cache, v: Vacb, op: Operation, n: nat, r: ReadOutcome): (base: seq<Byte>)
    requires CanTransfer(c, v) && ReadOk(r)
    ensures |base| == VACB_MAPPING_GRANULARITY
  {
    if NeedsRead(c, v, op, n) then Filled(c, v, r) else c.views[v].data
  }

  /** The stripe afterwards: bytes is what could be fetched from the caller, all n of them unless the caller's buffer
      faulted. */
  function ChunkData(c: Cache, v: Vacb, op: Operation, start: nat, n: nat, bytes: seq<Byte>, r: ReadOutcome): seq<Byte>
    requires CanTransfer(c, v) && ReadOk(r)
    requires v.offset <= start && start + n <= v.offset + VACB_MAPPING_GRANULARITY && |bytes| <= n
  {
    var base := ChunkBase(c, v, op, n, r);
    if op == Read then base else Overwrite(base, start - v.offset, bytes)
  }

  /** The write tears: the whole stripe was to be written, so it was not read, and the caller's buffer faulted. */
  predicate Torn(view: View, op: Operation, n: nat, bytes: seq<Byte>) {
    !view.valid && op != Read && n >= VACB_MAPPING_GRANULARITY && |bytes| < n
  }

  /** The foreign bytes behind a torn write: the rest of the VACB's fresh memory. */
  function Foreign(view: View, op: Operation, n: nat, bytes: seq<Byte>): seq<Byte>
    requires |bytes| <= |view.data|
  {
    if Torn(view, op, n, bytes) then view.data[|bytes|..] else []
  }

  /** What a chunk lays over the file. */
  function Laid(c: Cache, v: Vacb, op: Operation, n: nat, bytes: seq<Byte>): seq<Byte>
    requires v in c.views && |bytes| <= |c.views[v].data|
  {
    if op == Read then [] else bytes + Foreign(c.views[v], op, n, bytes)
  }

  /** The bytes of the file f from start on become bytes; nothing else changes. */
  ghost predicate Wrote(c: Cache, c': Cache, f: nat, start: nat, bytes: seq<Byte>) {
    && SameSections(c, c')
    && forall g, i :: g in c.files && 0 <= i < c.files[g].section ==> WroteAt(c, c', f, start, bytes, g, i)
  }

  ghost predicate WroteAt(c: Cache, c': Cache, f: nat, start: nat, bytes: seq<Byte>, g: nat, i: nat) {
    g in c.files && g in c'.files
    && ByteAt(c', g, i) == if g == f && start <= i < start + |bytes| then bytes[i - start] else ByteAt(c, g, i)
  }

  lemma ChunkBaseReads(c: Cache, v: Vacb, op: Operation, n: nat, r: ReadOutcome, k: nat)
    requires Inv(c, {}) && CanTransfer(c, v) && k < VACB_MAPPING_GRANULARITY && v.offset + k < c.files[v.file].section
    requires ReadOk(r) && (c.views[v].valid || (NeedsRead(c, v, op, n) && Arrived(c, v, r)))
    ensures ChunkBase(c, v, op, n, r)[k] == ByteAt(c, v.file, v.offset + k)
  {
    ByteThrough(c, {}, v, v.offset + k);
  }

  /** A chunk of a copy changes exactly the bytes it lays over the file, provided that the stripe it had to read
      arrived: those it was given, and behind a torn write the foreign ones. */
  lemma ChunkContent(c: Cache, c': Cache, v: Vacb, op: Operation, start: nat, n: nat, bytes: seq<Byte>, r: ReadOutcome)
    requires Inv(c, {}) && Inv(c', {}) && Coherent(c, {}) && CanTransfer(c, v) && ReadOk(r)
    requires v.offset <= start && start + n <= v.offset + VACB_MAPPING_GRANULARITY && |bytes| <= n
    requires StoredAs(c, c', v, ChunkData(c, v, op, start, n, bytes, r), op != Read)
    requires NeedsRead(c, v, op, n) ==> Arrived(c, v, r)
    ensures Coherent(c', {}) && Wrote(c, c', v.file, start, Laid(c, v, op, n, bytes))
  {
    var data := ChunkData(c, v, op, start, n, bytes, r);
    if op == Read {
      forall k | 0 <= k < |data| && v.offset + k < c.files[v.file].section
        ensures data[k] == ByteAt(c, v.file, v.offset + k)
      {
        ChunkBaseReads(c, v, op, n, r, k);
      }
    }
    StoredCoherent(c, c', v, data, op != Read);
    var laid := Laid(c, v, op, n, bytes);
    forall g, i | g in c.files && 0 <= i < c.files[g].section
      ensures WroteAt(c, c', v.file, start, laid, g, i)
    {
      StoredByte(c, c', v, data, op != Read, g, i);
      if g == v.file && Covers(v, i) && !(start <= i < start + |laid|) {
        ChunkBaseReads(c, v, op, n, r, i - v.offset);
      }
    }
  }

  /** A stripe whose read ended at the end of the file passes for valid. A chunk then does what it should exactly when
      the memory outside the chunk happens to equal the file's stripe. */
  lemma EndOfFileRead(c: Cache, c': Cache, v: Vacb, op: Operation, start: nat, n: nat, bytes: seq<Byte>,
                      left: seq<Byte>)
    requires Inv(c, {}) && Inv(c', {}) && CanTransfer(c, v) && |left| == VACB_MAPPING_GRANULARITY
    requires NeedsRead(c, v, op, n)
    requires v.offset <= start && start + n <= v.offset + VACB_MAPPING_GRANULARITY && |bytes| <= n
    requires StoredAs(c, c', v, ChunkData(c, v, op, start, n, bytes, ReadEnd(left)), op != Read)
    ensures Wrote(c, c', v.file, start, if op == Read then [] else bytes) <==>
      forall k :: 0 <= k < VACB_MAPPING_GRANULARITY && v.offset + k < c.files[v.file].section ==>
        (op != Read && start <= v.offset + k < start + |bytes|) || left[k] == DiskByte(c, v.file, v.offset + k)
  {
    var written := if op == Read then [] else bytes;
    forall g, i | g in c.files && 0 <= i < c.files[g].section
      ensures WroteAt(c, c', v.file, start, written, g, i) <==>
        || !(g == v.file && Covers(v, i)) || (op != Read && start <= i < start + |bytes|)
        || left[i - v.offset] == DiskByte(c, v.file, i)
    {
      EndOfFileByte(c, c', v, op, start, n, bytes, left, g, i);
    }
    forall k | 0 <= k < VACB_MAPPING_GRANULARITY && v.offset + k < c.files[v.file].section
      ensures WroteAt(c, c', v.file, start, written, v.file, v.offset + k) <==>
        (op != Read && start <= v.offset + k < start + |bytes|) || left[k] == DiskByte(c, v.file, v.offset + k)
    {
      EndOfFileByte(c, c', v, op, start, n, bytes, left, v.file, v.offset + k);
    }
  }

  lemma EndOfFileByte(c: Cache, c': Cache, v: Vacb, op: Operation, start: nat, n: nat, bytes: seq<Byte>,
                      left: seq<Byte>, g: nat, i: nat)
    requires Inv(c, {}) && Inv(c', {}) && CanTransfer(c, v) && |left| == VACB_MAPPING_GRANULARITY
    requires NeedsRead(c, v, op, n)
    requires v.offset <= start && start + n <= v.offset + VACB_MAPPING_GRANULARITY && |bytes| <= n
    requires StoredAs(c, c', v, ChunkData(c, v, op, start, n, bytes, ReadEnd(left)), op != Read)
    requires g in c.files && i < c.files[g].section
    ensures WroteAt(c, c', v.file, start, if op == Read then [] else bytes, g, i) <==>
      || !(g == v.file && Covers(v, i)) || (op != Read && start <= i < start + |bytes|)
      || left[i - v.offset] == DiskByte(c, v.file, i)
  {
    StoredByte(c, c', v, ChunkData(c, v, op, start, n, bytes, ReadEnd(left)), op != Read, g, i);
    if g == v.file && Covers(v, i) {
      ByteThrough(c, {}, v, i);
    }
  }

  /** The torn write, exactly: a write of a whole stripe that is not valid, cut short after m bytes, leaves in the file
      whatever the fresh memory of the VACB held, so it does what it should only if that memory happens to equal the
      rest of the file's stripe. */
  lemma TornWrite(c: Cache, c': Cache, v: Vacb, bytes: seq<Byte>)
    requires Inv(c, {}) && Inv(c', {}) && Coherent(c, {}) && CanTransfer(c, v) && |bytes| < VACB_MAPPING_GRANULARITY
    requires StoredAs(c, c', v, ChunkData(c, v, Write, v.offset, VACB_MAPPING_GRANULARITY, bytes, ReadDone), true)
    requires !c.views[v].valid
    ensures Wrote(c, c', v.file, v.offset, bytes) <==>
      forall k :: |bytes| <= k < VACB_MAPPING_GRANULARITY && v.offset + k < c.files[v.file].section ==> OnDisk(c, v, k)
  {
    var data := ChunkData(c, v, Write, v.offset, VACB_MAPPING_GRANULARITY, bytes, ReadDone);
    forall k | |bytes| <= k < VACB_MAPPING_GRANULARITY && v.offset + k < c.files[v.file].section
      ensures WroteAt(c, c', v.file, v.offset, bytes, v.file, v.offset + k) <==> OnDisk(c, v, k)
    {
      StoredByte(c, c', v, data, true, v.file, v.offset + k);
      ByteThrough(c, {}, v, v.offset + k);
    }
    forall g, i | g in c.files && 0 <= i < c.files[g].section
      && !(g == v.file && Covers(v, i) && i >= v.offset + |bytes|)
      ensures WroteAt(c, c', v.file, v.offset, bytes, g, i)
    {
      StoredByte(c, c', v, data, true, g, i);
    }
    forall i | 0 <= i < c.files[v.file].section && Covers(v, i) && i >= v.offset + |bytes|
      ensures WroteAt(c, c', v.file, v.offset, bytes, v.file, i) <==> OnDisk(c, v, i - v.offset)
    {
      assert v.offset + (i - v.offset) == i;
    }
  }

  /** The flat file with bytes laid over it from start on; what falls behind the end of the section is lost. */
  function Patch(s: seq<Byte>, start: nat, bytes: seq<Byte>): (r: seq<Byte>)
    ensures |r| == |s|
    ensures forall i :: 0 <= i < |s| ==> r[i] == if start <= i < start + |bytes| then bytes[i - start] else s[i]
  {
    seq(|s|, i requires 0 <= i < |s| => if start <= i < start + |bytes| then bytes[i - start] else s[i])
  }

  lemma PatchTwice(s: seq<Byte>, start: nat, a: seq<Byte>, b: seq<Byte>)
    ensures Patch(Patch(s, start, a), start + |a|, b) == Patch(s, start, a + b)
  {
  }

  lemma PatchNothing(s: seq<Byte>, start: nat)
    ensures Patch(s, start, []) == s
  {
  }

  lemma WroteFlat(c: Cache, c': Cache, f: nat, start: nat, bytes: seq<Byte>)
    requires f in c.files && Wrote(c, c', f, start, bytes)
    ensures Flat(c') == Flat(c)[f := Patch(Flat(c)[f], start, bytes)]
  {
    forall g | g in c.files
      ensures FlatFile(c', g) == if g == f then Patch(FlatFile(c, f), start, bytes) else FlatFile(c, g)
    {
      forall i | 0 <= i < c.files[g].section
        ensures FlatFile(c', g)[i] ==
          if g == f && start <= i < start + |bytes| then bytes[i - start] else FlatFile(c, g)[i]
      {
        assert WroteAt(c, c', f, start, bytes, g, i);
      }
    }
  }

  /** A stripe whose read from disk failed is released as it was, not valid; its memory does not matter. */
  lemma FailedRead(c: Cache, v: Vacb, left: seq<Byte>)
    requires Inv(c, {}) && v in c.holders && v in c.views && !c.views[v].valid
    requires |left| == VACB_MAPPING_GRANULARITY && v.file in c.files && c.views[v].refs > 1
    ensures var c' := Release(SetData(c, v, left), v, false, false, false);
      && Inv(c', {}) && (Coherent(c, {}) ==> Coherent(c', {})) && SameSections(c, c') && Flat(c') == Flat(c)
      && c'.holders == c.holders - multiset{v}
  {
    assert VacbOk(c, v, {});
    SetDataKeeps(c, v, left, false);
    ReleaseKeeps(SetData(c, v, left), v, false, false, false);
    var c' := Release(SetData(c, v, left), v, false, false, false);
    forall w | CoherentAt(c, w)
      ensures CoherentAt(c', w)
    {
      assert forall k: nat :: w in c.views && w != v && OnDisk(c, w, k) ==> OnDisk(c', w, k);
    }
    forall f, i | f in c.files && 0 <= i < c.files[f].section
      ensures SameByte(c, c', f, i)
    {
    }
    SameFlat(c, c');
  }
}
