/** Moving data between the cache, the disk and callers: write-back of a stripe, filling a stripe from disk, and
    storing a changed stripe, ntoskrnl/cc/copy.c and CcRosFlushVacb of ntoskrnl/cc/view.c. */
module CacheTransfer {
  import opened VacbLists
  import opened CacheState
  import opened CacheContent

  /** s with bytes laid over it from position at. */
  function Overwrite(s: seq<Byte>, at: nat, bytes: seq<Byte>): (r: seq<Byte>)
    requires at + |bytes| <= |s|
    ensures |r| == |s|
    ensures forall i :: 0 <= i < |s| ==> r[i] == if at <= i < at + |bytes| then bytes[i - at] else s[i]
  {
    s[..at] + bytes + s[at + |bytes|..]
  }

  // ----- write-back

  /** What IoSynchronousPageWrite did: any answer but success may have left anything in the range it was to write. An
      answer of end of file passes for success. */
  datatype WriteOutcome =
    | Written
    | WriteEnd(left: seq<Byte>)
    | WriteProtected(left: seq<Byte>)
    | WriteFailed(left: seq<Byte>)

  predicate OutcomeOk(outcome: WriteOutcome) {
    outcome.Written? || |outcome.left| == VACB_MAPPING_GRANULARITY
  }

  /** The stripe is clean afterwards. */
  predicate Cleans(outcome: WriteOutcome) {
    outcome.Written? || outcome.WriteEnd?
  }

  /** Bytes of the stripe that lie inside the section. */
  function StripeSize(section: nat, v: Vacb): nat
    requires v.offset <= section
  {
    if section - v.offset > VACB_MAPPING_GRANULARITY then VACB_MAPPING_GRANULARITY else section - v.offset
  }

  predicate CanTransfer(c: Cache, v: Vacb) {
    && v in c.views && v.file in c.files && v.file in c.disk
    && v.offset % VACB_MAPPING_GRANULARITY == 0 && v.offset < c.files[v.file].section
    && |c.views[v].data| == VACB_MAPPING_GRANULARITY
    && |c.disk[v.file]| == RoundToPages(c.files[v.file].section)
  }

  /** The disk after the stripe's range was written with the given bytes. */
  function DiskWrite(c: Cache, v: Vacb, bytes: seq<Byte>): Cache
    requires CanTransfer(c, v) && |bytes| == VACB_MAPPING_GRANULARITY
  {
    var n := StripeSize(c.files[v.file].section, v);
    c.(disk := c.disk[v.file := Overwrite(c.disk[v.file], v.offset, bytes[..n])])
  }

  predicate CanUnmark(c: Cache, v: Vacb) {
    && v in c.views && v.file in c.files && c.views[v].refs > 1
    && c.totalDirtyPages >= PAGES_PER_VACB && c.files[v.file].dirtyPages >= PAGES_PER_VACB
  }

  /** What the write leaves in the stripe's range of the disk. */
  function LeftOnDisk(c: Cache, v: Vacb, outcome: WriteOutcome): seq<Byte>
    requires v in c.views
  {
    if outcome.Written? then c.views[v].data else outcome.left
  }

  /** A write that ended at the end of the file has put the stripe on disk all the same. */
  ghost predicate Landed(c: Cache, v: Vacb, outcome: WriteOutcome)
    requires CanTransfer(c, v) && OutcomeOk(outcome)
  {
    outcome.WriteEnd? ==>
      forall k :: 0 <= k < VACB_MAPPING_GRANULARITY && v.offset + k < c.files[v.file].section ==>
        outcome.left[k] == c.views[v].data[k]
  }

  /** CcRosFlushVacb: unmark, write, and mark again if the write failed. */
  function Flush(c: Cache, v: Vacb, outcome: WriteOutcome): Cache
    requires CanUnmark(c, v) && CanTransfer(c, v) && OutcomeOk(outcome)
  {
    var u := DiskWrite(UnmarkDirty(c, v), v, LeftOnDisk(c, v, outcome));
    if Cleans(outcome) then u else MarkDirty(u, v)
  }

  lemma CanTransferListed(c: Cache, v: Vacb, detached: set<Vacb>)
    requires Inv(c, detached) && v in c.views
    ensures CanTransfer(c, v)
  {
    assert VacbOk(c, v, detached) && FileOk(c, v.file);
  }

  lemma DiskWriteKeeps(c: Cache, v: Vacb, bytes: seq<Byte>, detached: set<Vacb>)
    requires Inv(c, detached) && CanTransfer(c, v) && |bytes| == VACB_MAPPING_GRANULARITY
    ensures Inv(DiskWrite(c, v, bytes), detached)
  {
    var c' := DiskWrite(c, v, bytes);
    forall w
      ensures VacbOk(c', w, detached)
    {
      assert VacbOk(c, w, detached);
    }
    forall f
      ensures FileOk(c', f)
    {
      assert FileOk(c, f);
    }
  }

  /** The disk changes only under the stripe. */
  lemma DiskWriteAt(c: Cache, v: Vacb, bytes: seq<Byte>, f: nat, i: nat)
    requires CanTransfer(c, v) && |bytes| == VACB_MAPPING_GRANULARITY && f in c.files && i < c.files[f].section
    ensures DiskByte(DiskWrite(c, v, bytes), f, i) ==
      if f == v.file && Covers(v, i) then bytes[i - v.offset] else DiskByte(c, f, i)
  {
  }

  lemma FlushKeeps(c: Cache, v: Vacb, outcome: WriteOutcome, detached: set<Vacb>)
    requires Inv(c, detached) && v in c.views && c.views[v].dirty && OutcomeOk(outcome)
    ensures CanUnmark(c, v) && CanTransfer(c, v)
    ensures Inv(Flush(c, v, outcome), detached)
  {
    UnmarkDirtyKeeps(c, v, detached);
    CanTransferListed(c, v, detached);
    var u := UnmarkDirty(c, v);
    DiskWriteKeeps(u, v, LeftOnDisk(c, v, outcome), detached);
    if !Cleans(outcome) {
      MarkDirtyKeeps(DiskWrite(u, v, LeftOnDisk(c, v, outcome)), v, detached);
    }
  }

  /** c' is c after a write-back of v, as far as data is concerned. */
  ghost predicate FlushedAs(c: Cache, c': Cache, v: Vacb, outcome: WriteOutcome) {
    && c'.views.Keys == c.views.Keys && SameSections(c, c')
    && (forall f :: f in c.files ==> c'.files[f].list == c.files[f].list)
    && CanTransfer(c, v) && OutcomeOk(outcome)
    && (forall w :: w in c.views && w != v ==> c'.views[w] == c.views[w])
    && c'.views[v].data == c.views[v].data && c'.views[v].valid == c.views[v].valid
    && c'.views[v].dirty == !Cleans(outcome)
    && c'.disk == DiskWrite(c, v, LeftOnDisk(c, v, outcome)).disk
    && c'.holders == c.holders
  }

  lemma FlushFrame(c: Cache, v: Vacb, outcome: WriteOutcome)
    requires CanUnmark(c, v) && CanTransfer(c, v) && OutcomeOk(outcome)
    ensures FlushedAs(c, Flush(c, v, outcome), v, outcome)
  {
  }

  /** Write-back, successful or not, does not change what readers see at that moment, and it leaves the cache coherent
      exactly when a write that ended at the end of the file has put the stripe on disk. */
  lemma FlushContent(c: Cache, c': Cache, v: Vacb, outcome: WriteOutcome, detached: set<Vacb>)
    requires Inv(c, detached) && Inv(c', detached) && Coherent(c, detached) && FlushedAs(c, c', v, outcome)
    requires c.views[v].dirty && v !in detached
    ensures SameContent(c, c') && (Coherent(c', detached) <==> Landed(c, v, outcome))
  {
    assert CoherentAt(c, v);
    forall f, i | f in c.files && 0 <= i < c.files[f].section
      ensures SameByte(c, c', f, i)
    {
      FlushByte(c, c', v, outcome, f, i, detached);
    }
    if Landed(c, v, outcome) {
      forall w | w !in detached
        ensures CoherentAt(c', w)
      {
        FlushCoherentAt(c, c', v, outcome, w, detached);
      }
    } else {
      var k :| 0 <= k < VACB_MAPPING_GRANULARITY && v.offset + k < c.files[v.file].section &&
        outcome.left[k] != c.views[v].data[k];
      DiskWriteAt(c, v, outcome.left, v.file, v.offset + k);
      assert !OnDisk(c', v, k);
      assert !CoherentAt(c', v);
    }
  }

  /** A write-back that ended at the end of the file is lost on readers once the clean stripe is evicted, exactly when
      it has not put the stripe on disk. */
  lemma EndOfFileWrite(c: Cache, c': Cache, v: Vacb, left: seq<Byte>, detached: set<Vacb>)
    requires Inv(c, detached) && Inv(c', detached) && Coherent(c, detached) && FlushedAs(c, c', v, WriteEnd(left))
    requires c.views[v].dirty && v !in detached
    ensures SameContent(c, Unlink(c', v)) <==> Landed(c, v, WriteEnd(left))
  {
    FlushContent(c, c', v, WriteEnd(left), detached);
    assert VacbOk(c', v, detached);
    if Landed(c, v, WriteEnd(left)) {
      UnlinkContent(c', v, detached);
      SameTwice(c, c', Unlink(c', v));
    } else {
      var k :| 0 <= k < VACB_MAPPING_GRANULARITY && v.offset + k < c.files[v.file].section
        && left[k] != c.views[v].data[k];
      LostByte(c, c', v, left, detached, k);
    }
  }

  lemma LostByte(c: Cache, c': Cache, v: Vacb, left: seq<Byte>, detached: set<Vacb>, k: nat)
    requires Inv(c, detached) && Inv(c', detached) && CoherentAt(c, v) && FlushedAs(c, c', v, WriteEnd(left))
    requires c.views[v].dirty && v !in detached && v.file in c'.files
    requires k < VACB_MAPPING_GRANULARITY && v.offset + k < c.files[v.file].section && left[k] != c.views[v].data[k]
    ensures !SameByte(c, Unlink(c', v), v.file, v.offset + k)
  {
    ByteThrough(c, detached, v, v.offset + k);
    LeftByte(c, c', v, left, detached, k);
  }

  lemma LeftByte(c: Cache, c': Cache, v: Vacb, left: seq<Byte>, detached: set<Vacb>, k: nat)
    requires Inv(c, detached) && Inv(c', detached) && FlushedAs(c, c', v, WriteEnd(left)) && v !in detached
    requires v.file in c'.files && k < VACB_MAPPING_GRANULARITY && v.offset + k < c.files[v.file].section
    ensures ByteAt(Unlink(c', v), v.file, v.offset + k) == left[k]
  {
    DiskWriteAt(c, v, left, v.file, v.offset + k);
    EvictedByte(c', detached, v, v.offset + k);
  }

  lemma FlushByte(c: Cache, c': Cache, v: Vacb, outcome: WriteOutcome, f: nat, i: nat, detached: set<Vacb>)
    requires Inv(c, detached) && Inv(c', detached) && FlushedAs(c, c', v, outcome) && c.views[v].valid && v !in detached
    requires f in c.files && i < c.files[f].section
    ensures SameByte(c, c', f, i)
  {
    DiskWriteAt(c, v, LeftOnDisk(c, v, outcome), f, i);
    if f == v.file && Covers(v, i) {
      ByteThrough(c, detached, v, i);
      ByteThrough(c', detached, v, i);
    }
  }

  lemma FlushCoherentAt(c: Cache, c': Cache, v: Vacb, outcome: WriteOutcome, w: Vacb, detached: set<Vacb>)
    requires Inv(c, detached) && Coherent(c, detached) && FlushedAs(c, c', v, outcome)
    requires c.views[v].valid && v !in detached && w !in detached && Landed(c, v, outcome)
    ensures CoherentAt(c', w)
  {
    var bytes := LeftOnDisk(c, v, outcome);
    assert CoherentAt(c, w);
    if w in c'.views && w.file in c'.files && c'.views[w].valid && !c'.views[w].dirty {
      assert VacbOk(c, w, detached);
      forall k | 0 <= k < VACB_MAPPING_GRANULARITY && w.offset + k < c'.files[w.file].section
        ensures OnDisk(c', w, k)
      {
        DiskWriteAt(c, v, bytes, w.file, w.offset + k);
        if w != v {
          assert OnDisk(c, w, k);
          if w.file == v.file && Covers(v, w.offset + k) {
            NoOverlap(c, detached, v, w, w.offset + k);
          }
        }
      }
    }
  }

  /** Writing back a stripe that was marked dirty without being valid puts its memory in the place of the file, so
      readers see no change exactly if that memory equals the file's stripe. */
  lemma FlushOfUnread(c: Cache, c': Cache, v: Vacb, detached: set<Vacb>)
    requires Inv(c, detached) && Inv(c', detached) && FlushedAs(c, c', v, Written) && !c.views[v].valid
    requires v !in detached
    ensures SameContent(c, c') <==>
      forall k :: 0 <= k < VACB_MAPPING_GRANULARITY && v.offset + k < c.files[v.file].section ==> OnDisk(c, v, k)
  {
    forall f, i | f in c.files && 0 <= i < c.files[f].section
      ensures SameByte(c, c', f, i) <==> !(f == v.file && Covers(v, i)) || OnDisk(c, v, i - v.offset)
    {
      UnreadByte(c, c', v, detached, f, i);
    }
    forall k | 0 <= k < VACB_MAPPING_GRANULARITY && v.offset + k < c.files[v.file].section
      ensures SameByte(c, c', v.file, v.offset + k) <==> OnDisk(c, v, k)
    {
      UnreadByte(c, c', v, detached, v.file, v.offset + k);
    }
  }

  lemma UnreadByte(c: Cache, c': Cache, v: Vacb, detached: set<Vacb>, f: nat, i: nat)
    requires Inv(c, detached) && Inv(c', detached) && FlushedAs(c, c', v, Written) && !c.views[v].valid
    requires v !in detached
    requires f in c.files && i < c.files[f].section
    ensures SameByte(c, c', f, i) <==> !(f == v.file && Covers(v, i)) || OnDisk(c, v, i - v.offset)
  {
    DiskWriteAt(c, v, c.views[v].data, f, i);
    if f == v.file && Covers(v, i) {
      ByteThrough(c, detached, v, i);
      ByteThrough(c', detached, v, i);
    }
  }
}
