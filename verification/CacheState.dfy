/** The state of the file cache, ntoskrnl/cc/view.c, the invariant that ties its lists, counters and
    reference counts together, and the primitive changes every routine is made of. */
module CacheState {
  import opened Lists
  import opened VacbLists

  newtype Byte = b: int | 0 <= b < 256

  /** The fields of a VACB that change. */
  datatype View = View(data: seq<Byte>, valid: bool, dirty: bool, mapped: nat, refs: nat)

  /** A shared cache map. */
  datatype File = File(section: nat, list: seq<Vacb>, dirtyPages: nat, temporary: bool, writeBehindDisabled: bool)

  /** holders counts the references callers have taken and not yet released. */
  datatype Cache = Cache(
    views: map<Vacb, View>,
    files: map<nat, File>,
    lru: seq<Vacb>,
    dirty: seq<Vacb>,
    totalDirtyPages: nat,
    disk: map<nat, seq<Byte>>,
    holders: multiset<Vacb>)

  function RoundToPages(size: nat): nat {
    (size + PAGE_SIZE - 1) / PAGE_SIZE * PAGE_SIZE
  }

  /** One VACB: it is linked where it should be, and its reference count is one, plus one while dirty, plus one
      while mapped, plus the callers' references. Detached VACBs have left every list and wait to be freed. */
  ghost predicate VacbOk(c: Cache, v: Vacb, detached: set<Vacb>) {
    if v in c.views then
      var view := c.views[v];
      && v.file in c.files
      && v.offset % VACB_MAPPING_GRANULARITY == 0 && v.offset < c.files[v.file].section
      && |view.data| == VACB_MAPPING_GRANULARITY
      && (v in c.files[v.file].list <==> v !in detached)
      && multiset(c.lru)[v] == One(v !in detached)
      && multiset(c.dirty)[v] == One(view.dirty)
      && view.refs == 1 + One(view.dirty) + One(view.mapped > 0) + c.holders[v]
      && (v in detached ==> view.refs == 1)
    else
      && multiset(c.lru)[v] == 0 && multiset(c.dirty)[v] == 0 && c.holders[v] == 0 && v !in detached
      && (v.file in c.files ==> v !in c.files[v.file].list)
  }

  /** One file: its list is strictly sorted and its dirty counter counts its part of the dirty list. */
  ghost predicate FileOk(c: Cache, f: nat) {
    f in c.files ==>
      var file := c.files[f];
      && Sorted(file.list) && AllOf(file.list, f)
      && file.dirtyPages == PAGES_PER_VACB * OfFile(c.dirty, f)
      && f in c.disk && |c.disk[f]| == RoundToPages(file.section)
  }

  ghost predicate Inv(c: Cache, detached: set<Vacb>) {
    && (forall v :: VacbOk(c, v, detached))
    && (forall f :: FileOk(c, f))
    && c.totalDirtyPages == PAGES_PER_VACB * |c.dirty|
  }

  // ----- primitive changes

  function SetView(c: Cache, v: Vacb, view: View): Cache {
    c.(views := c.views[v := view])
  }

  /** CcRosVacbIncRefCount on behalf of a caller. */
  function Hold(c: Cache, v: Vacb): Cache
    requires v in c.views
  {
    SetView(c, v, c.views[v].(refs := c.views[v].refs + 1)).(holders := c.holders + multiset{v})
  }

  /** CcRosVacbDecRefCount on behalf of a caller; the VACB stays, because it is listed. */
  function Drop(c: Cache, v: Vacb): Cache
    requires v in c.views && c.views[v].refs > 1
  {
    SetView(c, v, c.views[v].(refs := c.views[v].refs - 1)).(holders := c.holders - multiset{v})
  }

  /** Move to the tail of the LRU list. */
  function Touch(c: Cache, v: Vacb): Cache {
    c.(lru := Remove(c.lru, v) + [v])
  }

  /** Enter the dirty list and both counters. */
  function EnterDirty(c: Cache, v: Vacb): Cache
    requires v in c.views && v.file in c.files
  {
    var view, file := c.views[v], c.files[v.file];
    SetView(c, v, view.(dirty := true, refs := view.refs + 1)).(
      dirty := c.dirty + [v],
      totalDirtyPages := c.totalDirtyPages + PAGES_PER_VACB,
      files := c.files[v.file := file.(dirtyPages := file.dirtyPages + PAGES_PER_VACB)])
  }

  /** CcRosMarkDirtyVacb. */
  function MarkDirty(c: Cache, v: Vacb): Cache
    requires v in c.views && v.file in c.files
  {
    Touch(EnterDirty(c, v), v)
  }

  /** CcRosUnmarkDirtyVacb. */
  function UnmarkDirty(c: Cache, v: Vacb): Cache
    requires v in c.views && v.file in c.files && c.views[v].refs > 1
    requires c.totalDirtyPages >= PAGES_PER_VACB && c.files[v.file].dirtyPages >= PAGES_PER_VACB
  {
    var view, file := c.views[v], c.files[v.file];
    SetView(c, v, view.(dirty := false, refs := view.refs - 1)).(
      dirty := Remove(c.dirty, v),
      totalDirtyPages := c.totalDirtyPages - PAGES_PER_VACB,
      files := c.files[v.file := file.(dirtyPages := file.dirtyPages - PAGES_PER_VACB)])
  }

  /** Leave the file's list and the LRU list. */
  function Unlink(c: Cache, v: Vacb): Cache
    requires v.file in c.files
  {
    var file := c.files[v.file];
    c.(files := c.files[v.file := file.(list := Remove(file.list, v))], lru := Remove(c.lru, v))
  }

  /** The last CcRosVacbDecRefCount: the VACB is freed. */
  function Free(c: Cache, v: Vacb): Cache {
    c.(views := c.views - {v})
  }

  /** A new VACB enters its file's list and the LRU list with its own reference and the caller's. */
  function Link(c: Cache, v: Vacb, memory: seq<Byte>): Cache
    requires v.file in c.files
  {
    var file := c.files[v.file];
    c.(views := c.views[v := View(memory, false, false, 0, 2)],
       files := c.files[v.file := file.(list := Insert(file.list, v))],
       lru := c.lru + [v],
       holders := c.holders + multiset{v})
  }

  // ----- each of them keeps the invariant

  /** Nothing but the view of v and the callers' references changed, and the count still adds up. */
  lemma ViewKeeps(c: Cache, v: Vacb, view: View, holders: multiset<Vacb>, detached: set<Vacb>)
    requires Inv(c, detached) && v in c.views && v !in detached
    requires |view.data| == VACB_MAPPING_GRANULARITY && view.dirty == c.views[v].dirty
    requires view.refs == 1 + One(view.dirty) + One(view.mapped > 0) + holders[v]
    requires forall w :: w != v ==> holders[w] == c.holders[w]
    ensures Inv(SetView(c, v, view).(holders := holders), detached)
  {
    var c' := SetView(c, v, view).(holders := holders);
    forall w
      ensures VacbOk(c', w, detached)
    {
      assert VacbOk(c, w, detached);
    }
    forall f
      ensures FileOk(c', f)
    {
      assert FileOk(c, f);
    }
  }

  lemma HoldKeeps(c: Cache, v: Vacb, detached: set<Vacb>)
    requires Inv(c, detached) && v in c.views && v !in detached
    ensures Inv(Hold(c, v), detached)
  {
    assert VacbOk(c, v, detached);
    ViewKeeps(c, v, c.views[v].(refs := c.views[v].refs + 1), c.holders + multiset{v}, detached);
  }

  /** A caller's reference is never the last one. */
  lemma DropKeeps(c: Cache, v: Vacb, detached: set<Vacb>)
    requires Inv(c, detached) && v in c.holders
    ensures v in c.views && c.views[v].refs > 1 && v !in detached
    ensures Inv(Drop(c, v), detached)
  {
    assert VacbOk(c, v, detached);
    ViewKeeps(c, v, c.views[v].(refs := c.views[v].refs - 1), c.holders - multiset{v}, detached);
  }

  lemma TouchKeeps(c: Cache, v: Vacb, detached: set<Vacb>)
    requires Inv(c, detached) && v in c.views && v !in detached
    ensures Inv(Touch(c, v), detached)
  {
    var c' := Touch(c, v);
    assert VacbOk(c, v, detached);
    forall w
      ensures VacbOk(c', w, detached)
    {
      RemoveCounts(c.lru, v, w);
      assert VacbOk(c, w, detached);
    }
    forall f
      ensures FileOk(c', f)
    {
      assert FileOk(c, f);
    }
  }

  lemma EnterDirtyKeeps(c: Cache, v: Vacb, detached: set<Vacb>)
    requires Inv(c, detached) && v in c.views && v !in detached && !c.views[v].dirty
    ensures v.file in c.files && Inv(EnterDirty(c, v), detached)
  {
    assert VacbOk(c, v, detached);
    var c' := EnterDirty(c, v);
    forall w
      ensures VacbOk(c', w, detached)
    {
      assert VacbOk(c, w, detached);
    }
    forall f
      ensures FileOk(c', f)
    {
      OfFileAppend(c.dirty, v, f);
      assert FileOk(c, f);
    }
  }

  lemma MarkDirtyKeeps(c: Cache, v: Vacb, detached: set<Vacb>)
    requires Inv(c, detached) && v in c.views && v !in detached && !c.views[v].dirty
    ensures v.file in c.files && Inv(MarkDirty(c, v), detached)
  {
    EnterDirtyKeeps(c, v, detached);
    TouchKeeps(EnterDirty(c, v), v, detached);
  }

  /** A dirty VACB can always be unmarked: the counters and the reference count allow it. */
  lemma UnmarkDirtyAllowed(c: Cache, v: Vacb, detached: set<Vacb>)
    requires Inv(c, detached) && v in c.views && c.views[v].dirty
    ensures v.file in c.files && c.views[v].refs > 1 && v !in detached && v in c.dirty
    ensures c.totalDirtyPages >= PAGES_PER_VACB && c.files[v.file].dirtyPages >= PAGES_PER_VACB
  {
    assert VacbOk(c, v, detached);
    assert v in multiset(c.dirty);
    assert FileOk(c, v.file);
    OfFileRemove(c.dirty, v, v.file);
  }

  lemma UnmarkDirtyKeeps(c: Cache, v: Vacb, detached: set<Vacb>)
    requires Inv(c, detached) && v in c.views && c.views[v].dirty
    ensures v.file in c.files && c.views[v].refs > 1 && v !in detached
    ensures c.totalDirtyPages >= PAGES_PER_VACB && c.files[v.file].dirtyPages >= PAGES_PER_VACB
    ensures Inv(UnmarkDirty(c, v), detached)
  {
    UnmarkDirtyAllowed(c, v, detached);
    var c' := UnmarkDirty(c, v);
    forall w
      ensures VacbOk(c', w, detached)
    {
      RemoveCounts(c.dirty, v, w);
      assert VacbOk(c, w, detached);
    }
    RemoveCounts(c.dirty, v, v);
    forall f
      ensures FileOk(c', f)
    {
      OfFileRemove(c.dirty, v, f);
      assert FileOk(c, f);
    }
  }

  lemma UnlinkKeeps(c: Cache, v: Vacb, detached: set<Vacb>)
    requires Inv(c, detached) && v in c.views && v !in detached && c.views[v].refs == 1
    ensures v.file in c.files && Inv(Unlink(c, v), detached + {v})
  {
    assert VacbOk(c, v, detached);
    assert FileOk(c, v.file);
    var c' := Unlink(c, v);
    RemoveSorted(c.files[v.file].list, v);
    forall w
      ensures VacbOk(c', w, detached + {v})
    {
      RemoveCounts(c.lru, v, w);
      assert VacbOk(c, w, detached);
    }
    forall f
      ensures FileOk(c', f)
    {
      assert FileOk(c, f);
    }
  }

  /** The count reaches zero only when the VACB is on no list at all. */
  lemma FreeKeeps(c: Cache, v: Vacb, detached: set<Vacb>)
    requires Inv(c, detached) && v in detached
    ensures v in c.views && c.views[v].refs == 1 && !c.views[v].dirty && c.views[v].mapped == 0
    ensures v !in c.lru && v !in c.dirty && v.file in c.files && v !in c.files[v.file].list
    ensures Inv(Free(c, v), detached - {v})
  {
    assert VacbOk(c, v, detached);
    assert v in c.lru ==> v in multiset(c.lru);
    assert v in c.dirty ==> v in multiset(c.dirty);
    var c' := Free(c, v);
    forall w
      ensures VacbOk(c', w, detached - {v})
    {
      assert VacbOk(c, w, detached);
    }
    forall f
      ensures FileOk(c', f)
    {
      assert FileOk(c, f);
    }
  }

  lemma LinkKeeps(c: Cache, v: Vacb, memory: seq<Byte>, detached: set<Vacb>)
    requires Inv(c, detached) && v !in c.views && v.file in c.files && |memory| == VACB_MAPPING_GRANULARITY
    requires v.offset % VACB_MAPPING_GRANULARITY == 0 && v.offset < c.files[v.file].section
    requires forall w :: w in c.files[v.file].list ==> w.offset != v.offset
    ensures Inv(Link(c, v, memory), detached)
  {
    assert FileOk(c, v.file);
    var c' := Link(c, v, memory);
    InsertSorted(c.files[v.file].list, v);
    forall w
      ensures VacbOk(c', w, detached)
    {
      assert VacbOk(c, w, detached);
    }
    forall f
      ensures FileOk(c', f)
    {
      assert FileOk(c, f);
    }
  }

  // ----- dirty accounting

  ghost function SumOfDirtyPages(files: map<nat, File>, fs: set<nat>): nat
    requires fs <= files.Keys
  {
    if fs == {} then 0 else var f :| f in fs; files[f].dirtyPages + SumOfDirtyPages(files, fs - {f})
  }

  lemma {:induction false} SumCounts(c: Cache, detached: set<Vacb>, fs: set<nat>)
    requires Inv(c, detached) && fs <= c.files.Keys
    ensures SumOfDirtyPages(c.files, fs) == PAGES_PER_VACB * OfFiles(c.dirty, fs)
    decreases |fs|
  {
    if fs == {} {
      NoFiles(c.dirty);
    } else {
      var f :| f in fs && SumOfDirtyPages(c.files, fs) == c.files[f].dirtyPages + SumOfDirtyPages(c.files, fs - {f});
      SumCounts(c, detached, fs - {f});
      assert FileOk(c, f);
      OfFilesSplit(c.dirty, fs, f);
    }
  }

  lemma {:induction false} NoFiles(s: seq<Vacb>)
    ensures OfFiles(s, {}) == 0
  {
    if s != [] {
      NoFiles(s[1..]);
    }
  }

  /** CcTotalDirtyPages is the pages of the dirty list and the sum of all files' dirty pages, and the dirty list is the
      dirty flags. */
  lemma DirtyAccounting(c: Cache, detached: set<Vacb>)
    requires Inv(c, detached)
    ensures c.totalDirtyPages == PAGES_PER_VACB * |c.dirty| == SumOfDirtyPages(c.files, c.files.Keys)
    ensures forall v :: v in c.dirty <==> v in c.views && c.views[v].dirty
  {
    forall v
      ensures v in c.dirty <==> v in c.views && c.views[v].dirty
      ensures v in c.dirty ==> v.file in c.files
    {
      assert VacbOk(c, v, detached);
      assert v in c.dirty <==> v in multiset(c.dirty);
    }
    OfFilesAll(c.dirty, c.files.Keys);
    SumCounts(c, detached, c.files.Keys);
  }
}
