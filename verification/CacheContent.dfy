/** What a cached file holds: the byte a reader must see at each offset, when the cache is coherent with the
    disk, and how the primitive changes of the cache act on that content. */
module CacheContent {
  import opened Lists
  import opened VacbLists
  import opened CacheState

  function DiskByte(c: Cache, f: nat, i: nat): Byte {
    if f in c.disk && i < |c.disk[f]| then c.disk[f][i] else 0
  }

  /** The byte of the file: the cached copy if its stripe is cached and valid, else what is on disk. */
  function ByteAt(c: Cache, f: nat, i: nat): Byte
    requires f in c.files
  {
    match Find(c.files[f].list, RoundDown(i))
    case Some(v) =>
      if v in c.views && c.views[v].valid && i - v.offset < |c.views[v].data| then c.views[v].data[i - v.offset]
      else DiskByte(c, f, i)
    case None => DiskByte(c, f, i)
  }

  ghost predicate SameByte(c: Cache, c': Cache, f: nat, i: nat) {
    f in c.files && f in c'.files && ByteAt(c', f, i) == ByteAt(c, f, i)
  }

  ghost predicate SameSections(c: Cache, c': Cache) {
    c'.files.Keys == c.files.Keys && forall f :: f in c.files ==> c'.files[f].section == c.files[f].section
  }

  /** Every byte inside every section is what it was. */
  ghost predicate SameContent(c: Cache, c': Cache) {
    SameSections(c, c') && forall f, i :: f in c.files && 0 <= i < c.files[f].section ==> SameByte(c, c', f, i)
  }

  ghost predicate OnDisk(c: Cache, v: Vacb, k: nat)
    requires v in c.views
  {
    k < |c.views[v].data| && c.views[v].data[k] == DiskByte(c, v.file, v.offset + k)
  }

  /** Dirty data is valid, and valid data that is not dirty is what the disk holds. */
  ghost predicate CoherentAt(c: Cache, v: Vacb) {
    v in c.views && v.file in c.files ==>
      && (c.views[v].dirty ==> c.views[v].valid)
      && (c.views[v].valid && !c.views[v].dirty ==>
            forall k :: 0 <= k < VACB_MAPPING_GRANULARITY && v.offset + k < c.files[v.file].section ==> OnDisk(c, v, k))
  }

  ghost predicate Coherent(c: Cache, detached: set<Vacb>) {
    forall v :: v !in detached ==> CoherentAt(c, v)
  }

  /** The file as a flat array of bytes. */
  function FlatFile(c: Cache, f: nat): (bytes: seq<Byte>)
    requires f in c.files
    ensures |bytes| == c.files[f].section
    ensures forall i :: 0 <= i < |bytes| ==> bytes[i] == ByteAt(c, f, i)
  {
    seq(c.files[f].section, i requires 0 <= i => ByteAt(c, f, i))
  }

  /** All files, flat. */
  function Flat(c: Cache): map<nat, seq<Byte>> {
    map f | f in c.files :: FlatFile(c, f)
  }

  lemma SameTwice(c: Cache, c': Cache, c'': Cache)
    requires SameContent(c, c') && SameContent(c', c'')
    ensures SameContent(c, c'')
  {
    forall f, i | f in c.files && 0 <= i < c.files[f].section
      ensures SameByte(c, c'', f, i)
    {
      assert SameByte(c, c', f, i) && SameByte(c', c'', f, i);
    }
  }

  lemma SameFlat(c: Cache, c': Cache)
    requires SameContent(c, c')
    ensures Flat(c') == Flat(c)
  {
    forall f | f in c.files
      ensures FlatFile(c', f) == FlatFile(c, f)
    {
      forall i | 0 <= i < c.files[f].section
        ensures FlatFile(c', f)[i] == FlatFile(c, f)[i]
      {
        assert SameByte(c, c', f, i);
      }
    }
  }

  /** Only references, positions in the lists and dirty marks of valid data differ. */
  ghost predicate SameData(c: Cache, c': Cache) {
    && c'.disk == c.disk && c'.views.Keys == c.views.Keys && SameSections(c, c')
    && (forall f :: f in c.files ==> c'.files[f].list == c.files[f].list)
    && (forall v :: v in c.views ==>
          && c'.views[v].data == c.views[v].data && c'.views[v].valid == c.views[v].valid
          && (c.views[v].dirty ==> c'.views[v].dirty)
          && (c'.views[v].dirty ==> c.views[v].dirty || c.views[v].valid))
  }

  lemma SameDataKeeps(c: Cache, c': Cache, detached: set<Vacb>)
    requires SameData(c, c')
    ensures SameContent(c, c') && (Coherent(c, detached) ==> Coherent(c', detached))
  {
    forall v | v !in detached && CoherentAt(c, v)
      ensures CoherentAt(c', v)
    {
      if v in c'.views && v.file in c'.files && c'.views[v].valid && !c'.views[v].dirty {
        forall k | 0 <= k < VACB_MAPPING_GRANULARITY && v.offset + k < c'.files[v.file].section
          ensures OnDisk(c', v, k)
        {
          assert OnDisk(c, v, k);
        }
      }
    }
  }

  /** The byte at i as seen through a listed VACB that covers it. */
  lemma ByteThrough(c: Cache, detached: set<Vacb>, v: Vacb, i: nat)
    requires Inv(c, detached) && v in c.views && v !in detached && Covers(v, i)
    ensures v.file in c.files && |c.views[v].data| == VACB_MAPPING_GRANULARITY
    ensures ByteAt(c, v.file, i) == if c.views[v].valid then c.views[v].data[i - v.offset] else DiskByte(c, v.file, i)
  {
    assert VacbOk(c, v, detached) && FileOk(c, v.file);
    CoversBase(v, i);
    FindListed(c.files[v.file].list, v);
  }

  /** Two listed VACBs of one file never cover the same byte. */
  lemma NoOverlap(c: Cache, detached: set<Vacb>, v: Vacb, w: Vacb, i: nat)
    requires Inv(c, detached) && v in c.views && w in c.views && v !in detached && w !in detached
    requires v.file == w.file && Covers(v, i) && Covers(w, i)
    ensures v == w
  {
    assert VacbOk(c, v, detached) && VacbOk(c, w, detached) && FileOk(c, v.file);
    CoversBase(v, i);
    CoversBase(w, i);
    SortedOnce(c.files[v.file].list, v, w);
  }

  /** A stripe that was taken off the lists reads from disk. */
  lemma EvictedByte(c: Cache, detached: set<Vacb>, v: Vacb, i: nat)
    requires Inv(c, detached) && v in c.views && v !in detached && Covers(v, i)
    ensures v.file in c.files && ByteAt(Unlink(c, v), v.file, i) == DiskByte(c, v.file, i)
  {
    assert VacbOk(c, v, detached) && FileOk(c, v.file);
    CoversBase(v, i);
    var list := c.files[v.file].list;
    RemoveSorted(list, v);
    var r := Find(Remove(list, v), v.offset);
    if r.Some? {
      SortedOnce(list, v, r.value);
    }
  }

  /** Taking a clean VACB off the lists does not change what readers see. */
  lemma UnlinkContent(c: Cache, v: Vacb, detached: set<Vacb>)
    requires Inv(c, detached) && Coherent(c, detached) && v in c.views && v !in detached && !c.views[v].dirty
    ensures v.file in c.files && SameContent(c, Unlink(c, v)) && Coherent(Unlink(c, v), detached + {v})
  {
    assert VacbOk(c, v, detached) && FileOk(c, v.file);
    var c' := Unlink(c, v);
    var list := c.files[v.file].list;
    RemoveSorted(list, v);
    forall f, i | f in c.files && 0 <= i < c.files[f].section
      ensures SameByte(c, c', f, i)
    {
      if f == v.file {
        if RoundDown(i) == v.offset {
          CoversBase(v, i);
          ByteThrough(c, detached, v, i);
          assert CoherentAt(c, v);
          assert c.views[v].valid ==> OnDisk(c, v, i - v.offset);
          var r := Find(Remove(list, v), v.offset);
          if r.Some? {
            SortedOnce(list, v, r.value);
          }
        } else {
          FindOnly(list, Remove(list, v), RoundDown(i));
        }
      }
    }
    forall w | w !in detached + {v}
      ensures CoherentAt(c', w)
    {
      assert CoherentAt(c, w);
      assert forall k: nat :: w in c.views && OnDisk(c, w, k) ==> OnDisk(c', w, k);
    }
  }

  lemma FreeContent(c: Cache, v: Vacb, detached: set<Vacb>)
    requires Inv(c, detached) && v in detached
    ensures SameContent(c, Free(c, v)) && (Coherent(c, detached) ==> Coherent(Free(c, v), detached - {v}))
  {
    var c' := Free(c, v);
    forall f, i | f in c.files && 0 <= i < c.files[f].section
      ensures SameByte(c, c', f, i)
    {
      var r := Find(c.files[f].list, RoundDown(i));
      if r.Some? {
        assert VacbOk(c, r.value, detached) && FileOk(c, f);
      }
    }
    forall w | w !in detached - {v} && Coherent(c, detached)
      ensures CoherentAt(c', w)
    {
      assert w in c'.views ==> CoherentAt(c, w);
      assert forall k: nat :: w in c'.views && OnDisk(c, w, k) ==> OnDisk(c', w, k);
    }
  }

  lemma LinkContent(c: Cache, v: Vacb, memory: seq<Byte>, detached: set<Vacb>)
    requires Inv(c, detached) && v !in c.views && v.file in c.files
    requires forall w :: w in c.files[v.file].list ==> w.offset != v.offset
    ensures SameContent(c, Link(c, v, memory)) && (Coherent(c, detached) ==> Coherent(Link(c, v, memory), detached))
  {
    assert FileOk(c, v.file);
    var c' := Link(c, v, memory);
    var list := c.files[v.file].list;
    InsertSorted(list, v);
    forall f, i | f in c.files && 0 <= i < c.files[f].section
      ensures SameByte(c, c', f, i)
    {
      var r := Find(c.files[f].list, RoundDown(i));
      if r.Some? {
        assert VacbOk(c, r.value, detached);
      }
      if f == v.file && RoundDown(i) == v.offset {
        FindListed(Insert(list, v), v);
      } else if f == v.file {
        FindOnly(list, Insert(list, v), RoundDown(i));
      }
    }
    forall w | w !in detached && Coherent(c, detached)
      ensures CoherentAt(c', w)
    {
      assert CoherentAt(c, w);
      assert forall k: nat :: w in c.views && OnDisk(c, w, k) ==> OnDisk(c', w, k);
    }
  }
}
