/** The cache manager's routines over VACBs, ntoskrnl/cc/view.c, ntoskrnl/cc/copy.c and ntoskrnl/cc/fs.c. Each routine
    is one atomic change of the shared state; the outcomes of disk transfers and memory mappings are parameters. */
module CacheManager {
  import opened Lists
  import opened Options
  import opened VacbLists
  import opened CacheState
  import opened CacheContent
  import opened CacheTransfer
  import opened CacheCopy
  import opened CacheRanges
  import opened CacheSteps
  import opened CacheWriteBack

  class Cc {
    var views: map<Vacb, View>
    var files: map<nat, File>
    var lru: seq<Vacb>
    var dirty: seq<Vacb>
    var totalDirtyPages: nat
    var disk: map<nat, seq<Byte>>
    var created: nat
    ghost var holders: multiset<Vacb>
    /** VACBs of deleted files that somebody still held, with the references left on them. */
    var leaked: map<Vacb, nat>
    /** A transfer that ended at the end of the file left other bytes than it should have, or a stripe nobody had filled
        was marked dirty. */
    ghost var astray: bool

    ghost function State(): Cache
      reads this
    {
      Cache(views, files, lru, dirty, totalDirtyPages, disk, holders)
    }

    ghost predicate Valid()
      reads this
    {
      Good(State(), {}, astray) && Fresh()
    }

    /** Serial numbers are handed out in order. */
    ghost predicate Fresh()
      reads this
    {
      forall v :: v in views ==> v.serial < created
    }

    constructor (disk: map<nat, seq<Byte>>)
      ensures Valid() && views == map[] && files == map[] && this.disk == disk && holders == multiset{}
      ensures leaked == map[] && !astray
    {
      views, files, lru, dirty, totalDirtyPages, created := map[], map[], [], [], 0, 0;
      this.disk := disk;
      holders, leaked, astray := multiset{}, map[], false;
      new;
      assert forall v :: VacbOk(State(), v, {});
      assert forall f :: FileOk(State(), f);
      assert forall v :: CoherentAt(State(), v);
    }

    /** CcRosInitializeFileCache: a file the disk holds becomes cached, with no VACB yet; for a file that is cached
        already only its handles change. memory says whether the map that is needed, the shared one of a new file or
        the private one of a further handle, could be allocated. */
    method InitializeFileCache(f: nat, section: nat, temporary: bool, writeBehindDisabled: bool,
                               memory: bool) returns (ok: bool)
      requires Valid() && (f !in files ==> f in disk && |disk[f]| == RoundToPages(section))
      modifies `files
      ensures Valid() && ok == memory && files.Keys == if ok then old(files).Keys + {f} else old(files).Keys
      ensures ok && f !in old(files) ==> section <= |disk[f]|
      ensures files == if ok && f !in old(files) then
        old(files)[f := File(section, [], 0, temporary, writeBehindDisabled)] else old(files)
      ensures Flat(State()) ==
        if ok && f !in old(files) then old(Flat(State()))[f := disk[f][..section]] else old(Flat(State()))
    {
      if memory && f !in files {
        AddFileKeeps(State(), f, File(section, [], 0, temporary, writeBehindDisabled));
        files := files[f := File(section, [], 0, temporary, writeBehindDisabled)];
      }
      ok := memory;
    }

    /** CcRosVacbIncRefCount for a caller. */
    method AddReference(v: Vacb, ghost detached: set<Vacb>)
      requires Good(State(), detached, astray) && v in views && v !in detached
      modifies `views, `files, `lru, `dirty, `totalDirtyPages, `disk, `created, `holders
      ensures Good(State(), detached, astray) && State() == Hold(old(State()), v) && created == old(created)
      ensures Flat(State()) == old(Flat(State()))
    {
      HoldContent(State(), v, detached, astray);
      views := views[v := views[v].(refs := views[v].refs + 1)];
      holders := holders + multiset{v};
    }

    /** CcRosVacbDecRefCount for a caller: the count stays positive. */
    method DropReference(v: Vacb, ghost detached: set<Vacb>)
      requires Good(State(), detached, astray) && v in holders
      modifies `views, `files, `lru, `dirty, `totalDirtyPages, `disk, `created, `holders
      ensures v in old(views) && old(views)[v].refs > 1
      ensures Good(State(), detached, astray) && State() == Drop(old(State()), v) && created == old(created)
      ensures Flat(State()) == old(Flat(State()))
    {
      DropKeeps(State(), v, detached);
      SameDataKeeps(State(), Drop(State(), v), detached);
      SameFlat(State(), Drop(State(), v));
      views := views[v := views[v].(refs := views[v].refs - 1)];
      holders := holders - multiset{v};
    }

    /** CcRosLookupVacb: the sorted list is left as soon as an offset beyond the wanted one shows up. */
    method LookupVacb(f: nat, offset: nat) returns (r: Option<Vacb>)
      requires Valid() && f in files
      modifies `views, `files, `lru, `dirty, `totalDirtyPages, `disk, `created, `holders
      ensures Valid() && r == Find(old(files[f].list), RoundDown(offset))
      ensures r.Some? ==> r.value in old(views) && r.value.file == f && Covers(r.value, offset)
      ensures State() == if r.Some? then Hold(old(State()), r.value) else old(State())
      ensures Flat(State()) == old(Flat(State())) && SameDirty(old(State()), State())
    {
      var list := files[f].list;
      assert FileOk(State(), f);
      var i := 0;
      while i < |list| && !Covers(list[i], offset) && list[i].offset <= offset
        invariant 0 <= i <= |list| && forall j :: 0 <= j < i ==> !Covers(list[j], offset)
      {
        i := i + 1;
      }
      if i < |list| && Covers(list[i], offset) {
        FindListed(list, list[i]);
        CoversBase(list[i], offset);
        assert VacbOk(State(), list[i], {});
        AddReference(list[i], {});
        return Some(list[i]);
      }
      LookupMiss(list, f, i, offset);
      return None;
    }

    /** RemoveEntryList from the file's list and from the LRU list, on the way to a local free list. */
    method Detach(v: Vacb, ghost detached: set<Vacb>)
      requires Good(State(), detached, astray) && v in views && v !in detached && views[v].refs < 2
      modifies `views, `files, `lru, `dirty, `totalDirtyPages, `disk, `created, `holders
      ensures Good(State(), detached + {v}, astray) && old(views)[v].refs == 1
      ensures views == old(views) && created == old(created) && SameBooks(old(State()), State())
      ensures Unseen(old(State()), State(), astray)
    {
      assert VacbOk(State(), v, detached);
      assert !views[v].dirty;
      assert views[v].mapped == 0;
      assert views[v].refs == 1;
      UnlinkKeeps(State(), v, detached);
      if !astray {
        UnlinkContent(State(), v, detached);
        SameFlat(State(), Unlink(State(), v));
      }
      files := files[v.file := files[v.file].(list := Remove(files[v.file].list, v))];
      lru := Remove(lru, v);
    }

    /** The loops over the LRU list in CcRosTrimCache and CcRosFreeUnusedVacb: every VACB with one reference leaves the
        lists, whatever the target; the pages counted as freed stop at the target. */
    method DetachUnused(target: nat, ghost detached: set<Vacb>) returns (freeList: seq<Vacb>, left: nat, freed: nat)
      requires Good(State(), detached, astray)
      modifies `views, `files, `lru, `dirty, `totalDirtyPages, `disk, `created, `holders
      ensures Good(State(), detached + SetOf(freeList), astray)
      ensures views == old(views) && created == old(created) && SameBooks(old(State()), State())
      ensures Unseen(old(State()), State(), astray)
      ensures forall v :: v in views && v !in detached + SetOf(freeList) ==> views[v].refs >= 2
      ensures forall v :: v in freeList ==> v in views && v !in detached && views[v].refs == 1
      ensures Distinct(freeList)
      ensures left + freed == target && freed == Lesser(target, PAGES_PER_VACB * |freeList|)
    {
      var order := lru;
      freeList, left, freed := [], target, 0;
      assert detached + SetOf(freeList) == detached;
      var i := 0;
      while i < |order|
        invariant 0 <= i <= |order| && Good(State(), detached + SetOf(freeList), astray)
        invariant views == old(views) && created == old(created) && SameBooks(old(State()), State())
        invariant Unseen(old(State()), State(), astray)
        invariant forall j :: 0 <= j < i ==>
          order[j] in SetOf(freeList) || (order[j] in views && views[order[j]].refs >= 2)
        invariant forall j :: i <= j < |order| ==> order[j] !in freeList
        invariant Distinct(freeList)
        invariant forall v :: v in freeList ==> v in views && v !in detached && views[v].refs == 1
        invariant left + freed == target && freed == Lesser(target, PAGES_PER_VACB * |freeList|)
      {
        var v := order[i];
        LruDiffers(old(State()), detached, i);
        if views[v].refs < 2 {
          Detach(v, detached + SetOf(freeList));
          assert detached + SetOf(freeList) + {v} == detached + SetOf([v] + freeList);
          DistinctConcat([v], freeList);
          freeList := [v] + freeList;
          var pages := if PAGES_PER_VACB < left then PAGES_PER_VACB else left;
          left := left - pages;
          freed := freed + pages;
        }
        i := i + 1;
      }
      forall v | v in views && v !in detached + SetOf(freeList)
        ensures views[v].refs >= 2
      {
        LruListed(old(State()), detached, v);
      }
    }

    /** The loops over the local free list: the last reference goes, and CcRosInternalFreeVacb finds it
        unlinked. */
    method FreeDetached(freeList: seq<Vacb>, ghost detached: set<Vacb>)
      requires Good(State(), detached, astray) && Fresh() && SetOf(freeList) <= detached
      requires Distinct(freeList)
      modifies `views, `files, `lru, `dirty, `totalDirtyPages, `disk, `created, `holders
      ensures Good(State(), detached - SetOf(freeList), astray) && Fresh()
      ensures views == old(views) - SetOf(freeList) && created == old(created) && SameBooks(old(State()), State())
      ensures files == old(files) && lru == old(lru)
      ensures Flat(State()) == old(Flat(State()))
    {
      var i := 0;
      assert detached - SetOf(freeList[..0]) == detached && views - SetOf(freeList[..0]) == views;
      while i < |freeList|
        invariant 0 <= i <= |freeList| && Good(State(), detached - SetOf(freeList[..i]), astray)
        invariant views == old(views) - SetOf(freeList[..i]) && created == old(created)
        invariant SameBooks(old(State()), State()) && files == old(files) && lru == old(lru)
        invariant Flat(State()) == old(Flat(State()))
      {
        var v := freeList[i];
        ghost var left := detached - SetOf(freeList[..i]);
        NotBefore(freeList, i);
        FreeKeeps(State(), v, left);
        FreeContent(State(), v, left);
        SameFlat(State(), Free(State(), v));
        assert views[v].refs - 1 == 0;
        assert v !in files[v.file].list && v !in dirty && v !in lru;
        assert freeList[..i + 1] == freeList[..i] + [v];
        assert left - {v} == detached - SetOf(freeList[..i + 1]);
        views := views - {v};
        assert views == old(views) - SetOf(freeList[..i + 1]);
        i := i + 1;
      }
      assert freeList[..i] == freeList;
    }

    /** CcRosFreeUnusedVacb. */
    method FreeUnusedVacb() returns (count: nat)
      requires Valid()
      modifies `views, `files, `lru, `dirty, `totalDirtyPages, `disk, `created, `holders
      ensures Valid() && created == old(created) && SameBooks(old(State()), State())
      ensures Unseen(old(State()), State(), astray)
      ensures forall v :: v in views <==> v in old(views) && old(views)[v].refs >= 2
      ensures forall v :: v in views ==> views[v] == old(views)[v]
      ensures count == |Unused(old(views))|
      ensures count == 0 <==> forall v :: v in old(views) ==> old(views)[v].refs >= 2
    {
      var freeList, _, _ := DetachUnused(0, {});
      assert {} + SetOf(freeList) == SetOf(freeList);
      FreeDetached(freeList, SetOf(freeList));
      assert SetOf(freeList) - SetOf(freeList) == {};
      count := |freeList|;
      UnusedListed(old(views), freeList);
      if count > 0 {
        assert freeList[0] in freeList;
      }
    }

    /** CcRosMapVacbInKernelSpace with one retry after pruning unused VACBs, as CcRosCreateVacb does it; the two flags
        say whether the first and the second attempt find room. */
    method MapView(firstFits: bool, secondFits: bool) returns (mapped: bool)
      requires Valid()
      modifies `views, `files, `lru, `dirty, `totalDirtyPages, `disk, `created, `holders
      ensures Valid() && created == old(created) && SameBooks(old(State()), State())
      ensures Unseen(old(State()), State(), astray) && mapped == Fits(old(views), firstFits, secondFits)
    {
      mapped := firstFits;
      if !mapped {
        var freed := FreeUnusedVacb();
        if freed != 0 {
          mapped := secondFits;
        }
      }
    }

    /** CcRosCreateVacb, the search for the place in the file's list, or for a VACB that is already there. */
    method FindPlace(f: nat, offset: nat) returns (i: nat)
      requires Valid() && f in files
      ensures i <= |files[f].list|
      ensures (i < |files[f].list| && Covers(files[f].list[i], offset)) || Find(files[f].list, RoundDown(offset)).None?
      ensures Find(files[f].list, RoundDown(offset)).None? ==>
        && (forall j :: 0 <= j < i ==> files[f].list[j].offset < RoundDown(offset))
        && (i < |files[f].list| ==> files[f].list[i].offset > RoundDown(offset))
    {
      var list := files[f].list;
      assert FileOk(State(), f);
      i := 0;
      var previous := None;
      while i < |list| && !Covers(list[i], offset) && list[i].offset <= offset
        invariant 0 <= i <= |list|
        invariant forall j :: 0 <= j < i ==> !Covers(list[j], offset) && list[j].offset < RoundDown(offset)
        invariant previous == if i == 0 then None else Some(list[i - 1])
      {
        assert previous.Some? ==> Below(list, i - 1, i) && previous.value.offset < list[i].offset;
        CoversBase(list[i], offset);
        previous := Some(list[i]);
        i := i + 1;
      }
      if i == |list| || !Covers(list[i], offset) {
        LookupMiss(list, f, i, offset);
      } else {
        CoversBase(list[i], offset);
        assert list[i] in list;
      }
    }

    /** CcRosCreateVacb, the new VACB enters the file's list in front of position i. */
    method LinkVacb(v: Vacb, memory: seq<Byte>, i: nat)
      requires Valid() && v.file in files && v.serial == created && |memory| == VACB_MAPPING_GRANULARITY
      requires v.offset % VACB_MAPPING_GRANULARITY == 0 && v.offset < files[v.file].section
      requires i <= |files[v.file].list| && Find(files[v.file].list, v.offset).None?
      requires forall j :: 0 <= j < i ==> files[v.file].list[j].offset < v.offset
      requires i < |files[v.file].list| ==> files[v.file].list[i].offset > v.offset
      modifies `views, `files, `lru, `dirty, `totalDirtyPages, `disk, `created, `holders
      ensures Valid() && State() == Link(old(State()), v, memory) && Flat(State()) == old(Flat(State()))
      ensures lru == old(lru) + [v]
    {
      InsertAt(files[v.file].list, v, i);
      LinkKeeps(State(), v, memory, {});
      LinkContent(State(), v, memory, {});
      SameFlat(State(), Link(State(), v, memory));
      EnterVacb(v, memory, i);
    }

    method EnterVacb(v: Vacb, memory: seq<Byte>, i: nat)
      requires v.file in files && i <= |files[v.file].list|
      requires files[v.file].list[..i] + [v] + files[v.file].list[i..] == Insert(files[v.file].list, v)
      modifies `views, `files, `lru, `created, `holders
      ensures State() == Link(old(State()), v, memory) && created == old(created) + 1
    {
      var list := files[v.file].list;
      views := views[v := View(memory, false, false, 0, 2)];
      files := files[v.file := files[v.file].(list := list[..i] + [v] + list[i..])];
      lru := lru + [v];
      holders := holders + multiset{v};
      created := created + 1;
    }

    /** CcRosCreateVacb, with the check that another thread has not cached the stripe meanwhile. */
    method CreateVacb(f: nat, offset: nat, memory: seq<Byte>, firstFits: bool, secondFits: bool) returns (r: GetResult)
      requires Valid() && f in files && |memory| == VACB_MAPPING_GRANULARITY
      modifies `views, `files, `lru, `dirty, `totalDirtyPages, `disk, `created, `holders
      ensures Valid() && Unseen(old(State()), State(), astray)
      ensures totalDirtyPages == old(totalDirtyPages) && dirty == old(dirty) && disk == old(disk)
      ensures r.Got? ==>
        r.vacb in views && r.vacb.file == f && Covers(r.vacb, offset) && holders == old(holders) + multiset{r.vacb}
      ensures r.Failed? ==> holders == old(holders)
      ensures r.Failed? ==>
        r.reason == if offset >= old(files[f]).section then InvalidParameter else InsufficientResources
      ensures r.Got? <==> offset < old(files[f]).section && Fits(old(views), firstFits, secondFits)
    {
      if offset >= files[f].section {
        return Failed(InvalidParameter);
      }
      var v := Vacb(created, f, RoundDown(offset));
      var mapped := MapView(firstFits, secondFits);
      if !mapped {
        return Failed(InsufficientResources);
      }
      var i := FindPlace(f, offset);
      var list := files[f].list;
      if i < |list| && Covers(list[i], offset) {
        assert VacbOk(State(), list[i], {}) && FileOk(State(), f);
        AddReference(list[i], {});
        return Got(list[i]);
      }
      LinkVacb(v, memory, i);
      return Got(v);
    }

    /** CcRosGetVacb: look the stripe up or create it, and move it to the tail of the LRU list. */
    method GetVacb(f: nat, offset: nat, memory: seq<Byte>, firstFits: bool, secondFits: bool) returns (r: GetResult)
      requires Valid() && f in files && |memory| == VACB_MAPPING_GRANULARITY
      modifies `views, `files, `lru, `dirty, `totalDirtyPages, `disk, `created, `holders
      ensures Valid() && Unseen(old(State()), State(), astray)
      ensures totalDirtyPages == old(totalDirtyPages) && dirty == old(dirty) && disk == old(disk)
      ensures r.Got? ==>
        r.vacb in views && r.vacb.file == f && Covers(r.vacb, offset) && holders == old(holders) + multiset{r.vacb}
      ensures r.Got? ==> views[r.vacb].refs > 1 && lru != [] && lru[|lru| - 1] == r.vacb
      ensures r.Failed? ==> holders == old(holders)
      ensures r.Failed? ==>
        r.reason == if offset >= old(files[f]).section then InvalidParameter else InsufficientResources
      ensures r.Got? <==>
        || old(Find(files[f].list, RoundDown(offset))).Some?
        || (offset < old(files[f]).section && Fits(old(views), firstFits, secondFits))
    {
      var found := LookupVacb(f, offset);
      if found.Some? {
        r := Got(found.value);
      } else {
        r := CreateVacb(f, offset, memory, firstFits, secondFits);
        if r.Failed? {
          return;
        }
      }
      MoveToTail(r.vacb);
    }

    method MoveToTail(v: Vacb)
      requires Valid() && v in views
      modifies `lru
      ensures Valid() && lru == Remove(old(lru), v) + [v] && Flat(State()) == old(Flat(State()))
      ensures v in holders ==> views[v].refs > 1
    {
      assert VacbOk(State(), v, {});
      TouchKeeps(State(), v, {});
      SameDataKeeps(State(), Touch(State(), v), {});
      SameFlat(State(), Touch(State(), v));
      lru := Remove(lru, v) + [v];
    }

    /** CcRosMarkDirtyVacb. */
    method MarkDirtyVacb(v: Vacb, ghost detached: set<Vacb>)
      requires Inv(State(), detached) && v in views && v !in detached && !views[v].dirty
      modifies `views, `files, `lru, `dirty, `totalDirtyPages, `disk, `created, `holders
      ensures v.file in old(files) && State() == MarkDirty(old(State()), v) && created == old(created)
      ensures Inv(State(), detached) && v in views && views[v] == old(views)[v].(dirty := true, refs := views[v].refs)
      ensures dirty == old(dirty) + [v] && lru == Remove(old(lru), v) + [v]
    {
      MarkDirtyKeeps(State(), v, detached);
      dirty := dirty + [v];
      totalDirtyPages := totalDirtyPages + PAGES_PER_VACB;
      files := files[v.file := files[v.file].(dirtyPages := files[v.file].dirtyPages + PAGES_PER_VACB)];
      lru := Remove(lru, v) + [v];
      views := views[v := views[v].(dirty := true, refs := views[v].refs + 1)];
    }

    /** CcRosUnmarkDirtyVacb. */
    method UnmarkDirtyVacb(v: Vacb, ghost detached: set<Vacb>)
      requires Inv(State(), detached) && v in views && views[v].dirty
      modifies `views, `files, `lru, `dirty, `totalDirtyPages, `disk, `created, `holders
      ensures CanUnmark(old(State()), v) && State() == UnmarkDirty(old(State()), v) && created == old(created)
      ensures Inv(State(), detached) && v in views && views[v] == old(views)[v].(dirty := false, refs := views[v].refs)
      ensures dirty == Remove(old(dirty), v) && lru == old(lru)
    {
      UnmarkDirtyKeeps(State(), v, detached);
      views := views[v := views[v].(dirty := false, refs := views[v].refs - 1)];
      dirty := Remove(dirty, v);
      totalDirtyPages := totalDirtyPages - PAGES_PER_VACB;
      files := files[v.file := files[v.file].(dirtyPages := files[v.file].dirtyPages - PAGES_PER_VACB)];
    }

    /** CcRosFlushVacb with CcWriteVirtualAddress. */
    method FlushVacb(v: Vacb, outcome: WriteOutcome, ghost detached: set<Vacb>)
      requires Good(State(), detached, astray) && v in views && views[v].dirty && v !in detached && OutcomeOk(outcome)
      modifies `views, `files, `lru, `dirty, `totalDirtyPages, `disk, `created, `holders, `astray
      ensures CanUnmark(old(State()), v) && CanTransfer(old(State()), v)
      ensures Good(State(), detached, astray) && State() == Flush(old(State()), v, outcome) && created == old(created)
      ensures Unseen(old(State()), State(), old(astray))
      ensures astray == (old(astray) || !Landed(old(State()), v, outcome))
    {
      ghost var c := State();
      FlushKeeps(c, v, outcome, detached);
      FlushFrame(c, v, outcome);
      if !astray {
        FlushContent(c, Flush(c, v, outcome), v, outcome, detached);
        SameFlat(c, Flush(c, v, outcome));
      }
      astray := astray || !Landed(c, v, outcome);
      var size := StripeSize(files[v.file].section, v);
      UnmarkDirtyVacb(v, detached);
      var bytes := if outcome.Written? then views[v].data else outcome.left;
      DiskWriteKeeps(State(), v, bytes, detached);
      disk := disk[v.file := Overwrite(disk[v.file], v.offset, bytes[..size])];
      if !Cleans(outcome) {
        MarkDirtyVacb(v, detached);
      }
    }

    /** One VACB in the loop of CcRosFlushDirtyPages that is skipped. */
    method SkipReferenced(v: Vacb, ghost detached: set<Vacb>)
      requires Good(State(), detached, astray) && v in dirty
      modifies `views, `files, `lru, `dirty, `totalDirtyPages, `disk, `created, `holders
      ensures State() == old(State()) && created == old(created)
    {
      DirtyListed(State(), detached, v);
      HoldThenDrop(State(), v);
      AddReference(v, detached);
      DropReference(v, detached);
    }

    /** One VACB in the loop of CcRosFlushDirtyPages that is not skipped. */
    method FlushReferenced(v: Vacb, outcome: WriteOutcome, ghost detached: set<Vacb>)
      requires Good(State(), detached, astray) && v in dirty && OutcomeOk(outcome)
      modifies `views, `files, `lru, `dirty, `totalDirtyPages, `disk, `created, `holders, `astray
      ensures Good(State(), detached, astray) && created == old(created) && Unseen(old(State()), State(), astray)
      ensures (old(astray) ==> astray) && (!outcome.WriteEnd? ==> astray == old(astray))
      ensures OneFlushed(old(State()), State(), v, outcome)
    {
      DirtyListed(State(), detached, v);
      ghost var c := State();
      AddReference(v, detached);
      FlushVacb(v, outcome, detached);
      DropReference(v, detached);
      FlushesHeld(c, v, outcome);
    }

    /** One turn of the loop of CcRosFlushDirtyPages: flushed says that the VACB was not skipped. */
    method FlushOrSkip(v: Vacb, lazy: bool, lockable: set<nat>, outcome: WriteOutcome, ghost detached: set<Vacb>)
      returns (flushed: bool)
      requires Good(State(), detached, astray) && v in dirty && OutcomeOk(outcome)
      modifies `views, `files, `lru, `dirty, `totalDirtyPages, `disk, `created, `holders, `astray
      ensures Good(State(), detached, astray) && created == old(created) && Unseen(old(State()), State(), astray)
      ensures (old(astray) ==> astray) && (!outcome.WriteEnd? ==> astray == old(astray))
      ensures flushed ==> OneFlushed(old(State()), State(), v, outcome)
      ensures !flushed ==> State() == old(State())
      ensures flushed == !Skips(old(files), v.file, lazy, lockable)
    {
      DirtyListed(State(), detached, v);
      flushed := false;
      if lazy && files[v.file].temporary {
        SkipReferenced(v, detached);
      } else if lazy && files[v.file].writeBehindDisabled {
        SkipReferenced(v, detached);
      } else {
        assert views[v].dirty;
        if v.file !in lockable {
          SkipReferenced(v, detached);
        } else {
          flushed := true;
          FlushReferenced(v, outcome, detached);
        }
      }
    }

    /** CcRosFlushDirtyPages. outcomes are the results of the writes in turn; once they are used up every write
        succeeds, so that a write that always fails is left out. A file that has to be skipped is left alone; of the
        other stripes none stays dirty before the target is met, and without failures they are written back in the order
        they became dirty. */
    method FlushDirtyPages(target: nat, lazy: bool, lockable: set<nat>, outcomes: seq<WriteOutcome>,
                           ghost detached: set<Vacb>)
      returns (count: nat, ghost writes: nat)
      requires Good(State(), detached, astray) && forall i :: 0 <= i < |outcomes| ==> OutcomeOk(outcomes[i])
      modifies `views, `files, `lru, `dirty, `totalDirtyPages, `disk, `created, `holders, `astray
      ensures Good(State(), detached, astray) && created == old(created) && Unseen(old(State()), State(), astray)
      ensures (old(astray) ==> astray)
      ensures ((forall i :: 0 <= i < |outcomes| ==> !outcomes[i].WriteEnd?) ==> astray == old(astray))
      ensures count < target + PAGES_PER_VACB
      ensures WrittenBack(old(State()), State(), lazy, lockable, outcomes, writes, count)
      ensures forall f | f in old(files) && f !in lockable :: LeftAlone(old(State()), State(), f)
      ensures forall f | f in old(files) && lazy && old(files)[f].temporary :: LeftAlone(old(State()), State(), f)
      ensures forall f | f in old(files) && lazy && old(files)[f].writeBehindDisabled ::
        LeftAlone(old(State()), State(), f)
      ensures forall v :: v in views && views[v].dirty && count < target ==> v.file in old(files)
      ensures forall v | v in views && views[v].dirty && count < target && v.file in lockable ::
        lazy && (old(files)[v.file].temporary || old(files)[v.file].writeBehindDisabled)
    {
      ghost var i;
      count, i, writes := FlushListed(target, lazy, lockable, outcomes, detached);
      DirtyLeft(old(State()), State(), detached, lazy, lockable, i, count < target);
    }

    /** CcRosFlushDirtyPages, its loop; i is how far it has walked since the last write-back. */
    method FlushListed(target: nat, lazy: bool, lockable: set<nat>, outcomes: seq<WriteOutcome>,
                       ghost detached: set<Vacb>)
      returns (count: nat, ghost i: nat, ghost writes: nat)
      requires Good(State(), detached, astray) && forall i :: 0 <= i < |outcomes| ==> OutcomeOk(outcomes[i])
      modifies `views, `files, `lru, `dirty, `totalDirtyPages, `disk, `created, `holders, `astray
      ensures Good(State(), detached, astray) && created == old(created)
      ensures FlushedLike(old(State()), State(), old(astray), astray, lazy, lockable, outcomes, writes, count)
      ensures AllSkipped(old(State()), dirty, lazy, lockable, i)
      ensures count < target + PAGES_PER_VACB && (count < target ==> i == |dirty|)
    {
      count, writes := 0, 0;
      var left, used, at := target, 0, 0;
      NothingWritten(State(), lazy, lockable, outcomes);
      while at < |dirty| && left > 0
        invariant Good(State(), detached, astray) && created == old(created)
        invariant FlushedLike(old(State()), State(), old(astray), astray, lazy, lockable, outcomes, writes, count)
        invariant used == if writes < |outcomes| then writes else |outcomes|
        invariant 0 <= used <= |outcomes| && left >= 0 && AllSkipped(old(State()), dirty, lazy, lockable, at)
        invariant if left > 0 then left + count == target else target <= count < target + PAGES_PER_VACB
        decreases |outcomes| - used + left, |dirty| - at
      {
        var outcome := if used < |outcomes| then outcomes[used] else Written;
        var flushed :=
          FlushNext(old(State()), old(astray), at, lazy, lockable, outcomes, writes, outcome, count, detached);
        if !flushed {
          at := at + 1;
        } else {
          used := if used < |outcomes| then used + 1 else used;
          writes := writes + 1;
          if !outcome.WriteFailed? {
            count := count + PAGES_PER_VACB;
            left := if left < PAGES_PER_VACB then 0 else left - PAGES_PER_VACB;
          }
          at := 0;
        }
      }
      i := at;
    }

    /** One turn of that loop, and what all turns so far have done. */
    method FlushNext(ghost c: Cache, ghost was: bool, at: nat, lazy: bool, lockable: set<nat>,
                     ghost outcomes: seq<WriteOutcome>, ghost writes: nat, outcome: WriteOutcome, ghost count: nat,
                     ghost detached: set<Vacb>)
      returns (flushed: bool)
      requires Good(State(), detached, astray) && OutcomeOk(outcome) && outcome == Ends(outcomes, writes)
      requires FlushedLike(c, State(), was, astray, lazy, lockable, outcomes, writes, count)
      requires at < |dirty| && AllSkipped(c, dirty, lazy, lockable, at)
      modifies `views, `files, `lru, `dirty, `totalDirtyPages, `disk, `created, `holders, `astray
      ensures Good(State(), detached, astray) && created == old(created)
      ensures !flushed ==> dirty == old(dirty) && AllSkipped(c, dirty, lazy, lockable, at + 1)
      ensures FlushedLike(c, State(), was, astray, lazy, lockable, outcomes, if flushed then writes + 1 else writes,
                          if flushed && !outcome.WriteFailed? then count + PAGES_PER_VACB else count)
    {
      ghost var before, strayed := State(), astray;
      SkipsSame(c, before, dirty[at].file, lazy, lockable);
      flushed := FlushOrSkip(dirty[at], lazy, lockable, outcome, detached);
      if flushed {
        WritesOneMore(c, before, State(), lazy, lockable, outcomes, writes, count, at);
        FlushedLikeMore(c, before, State(), was, strayed, astray, outcomes, outcome);
      }
    }

    /** CcRosTrimCache: nothing that could be freed is left and no data is lost. Reported are the pages of the VACBs
        that were unused, as far as the target goes, and of those a write-back set free, as far as the pages flushed
        go. */
    method TrimCache(target: nat, lockable: set<nat>, outcomes: seq<WriteOutcome>)
      returns (freed: nat, ghost flushed: nat)
      requires Valid() && forall i :: 0 <= i < |outcomes| ==> OutcomeOk(outcomes[i])
      modifies `views, `files, `lru, `dirty, `totalDirtyPages, `disk, `created, `holders, `astray
      ensures Valid() && Unseen(old(State()), State(), astray) && holders == old(holders)
      ensures (old(astray) ==> astray)
      ensures ((forall i :: 0 <= i < |outcomes| ==> !outcomes[i].WriteEnd?) ==> astray == old(astray))
      ensures freed <= target
      ensures views.Keys <= old(views).Keys && forall v :: v in views ==> views[v].refs >= 2
      ensures |old(views)| - |views| >= |Unused(old(views))|
      ensures freed == Reported(target, |Unused(old(views))|, |old(views)| - |views|, flushed)
      ensures outcomes == [] ==> totalDirtyPages + flushed == old(totalDirtyPages)
    {
      var freeList;
      freeList, freed, flushed := TrimLists(target, lockable, outcomes);
      ghost var kept := views;
      FreeDetached(freeList, SetOf(freeList));
      assert SetOf(freeList) - SetOf(freeList) == {};
      GoneCounted(old(views), kept, views, freeList);
    }

    /** CcRosTrimCache, up to the point where the VACBs are on its free list. */
    method TrimLists(target: nat, lockable: set<nat>, outcomes: seq<WriteOutcome>)
      returns (list: seq<Vacb>, freed: nat, ghost flushed: nat)
      requires Valid() && forall i :: 0 <= i < |outcomes| ==> OutcomeOk(outcomes[i])
      modifies `views, `files, `lru, `dirty, `totalDirtyPages, `disk, `created, `holders, `astray
      ensures Good(State(), SetOf(list), astray) && Fresh() && Unseen(old(State()), State(), astray)
      ensures (old(astray) ==> astray) && holders == old(holders) && views.Keys == old(views).Keys
      ensures ((forall i :: 0 <= i < |outcomes| ==> !outcomes[i].WriteEnd?) ==> astray == old(astray))
      ensures Distinct(list) && |list| >= |Unused(old(views))| && Detached(views, list)
      ensures freed == Reported(target, |Unused(old(views))|, |list|, flushed)
      ensures outcomes == [] ==> totalDirtyPages + flushed == old(totalDirtyPages)
    {
      var left;
      list, left, freed := DetachUnused(target, {});
      flushed := 0;
      assert {} + SetOf(list) == SetOf(list);
      UnusedListed(old(views), list);
      if left > 0 {
        var again;
        list, again, flushed := TrimAgain(left, lockable, outcomes, list);
        freed := freed + again;
      }
    }

    /** CcRosTrimCache, from the write-back to the end of the second walk along the LRU list. */
    method TrimAgain(target: nat, lockable: set<nat>, outcomes: seq<WriteOutcome>, freeList: seq<Vacb>)
      returns (list: seq<Vacb>, again: nat, ghost flushed: nat)
      requires Good(State(), SetOf(freeList), astray) && forall i :: 0 <= i < |outcomes| ==> OutcomeOk(outcomes[i])
      requires Distinct(freeList) && target > 0 && Detached(views, freeList)
      modifies `views, `files, `lru, `dirty, `totalDirtyPages, `disk, `created, `holders, `astray
      ensures Good(State(), SetOf(list), astray) && Unseen(old(State()), State(), astray) && holders == old(holders)
      ensures (old(astray) ==> astray) && created == old(created) && views.Keys == old(views).Keys
      ensures ((forall i :: 0 <= i < |outcomes| ==> !outcomes[i].WriteEnd?) ==> astray == old(astray))
      ensures Distinct(list) && |list| >= |freeList| && Detached(views, list)
      ensures again == Lesser(Lesser(target, flushed), PAGES_PER_VACB * (|list| - |freeList|))
      ensures outcomes == [] ==> totalDirtyPages + flushed == old(totalDirtyPages)
    {
      ghost var detached := SetOf(freeList);
      var pages, writes := FlushDirtyPages(target, false, lockable, outcomes, detached);
      AllCounted(writes);
      list, again, flushed := freeList, 0, pages;
      if pages != 0 {
        var more, left;
        more, left, again := DetachUnused(if pages < target then pages else target, detached);
        assert detached + SetOf(more) == SetOf(more + freeList);
        DistinctConcat(more, freeList);
        list := more + freeList;
      }
      DetachedStill(State(), list);
    }

    /** CcRosReleaseVacb. */
    method ReleaseVacb(v: Vacb, valid: bool, markDirty: bool, mapped: bool)
      requires Inv(State(), {}) && v in holders
      modifies `views, `files, `lru, `dirty, `totalDirtyPages, `disk, `created, `holders
      ensures v in old(views) && v.file in old(files) && old(views)[v].refs > 1
      ensures Inv(State(), {}) && State() == Release(old(State()), v, valid, markDirty, mapped)
      ensures created == old(created) && holders == old(holders) - multiset{v} && disk == old(disk)
      ensures v in views && views == old(views)[v := views[v]] && views[v].data == old(views)[v].data
      ensures views[v].valid == valid && views[v].dirty == (old(views)[v].dirty || markDirty)
      ensures views[v].mapped == old(views)[v].mapped + One(mapped)
      ensures views[v].refs == old(views)[v].refs - 1
        + One(markDirty && !old(views)[v].dirty) + One(mapped && old(views)[v].mapped == 0)
      ensures lru == if markDirty && !old(views)[v].dirty then Remove(old(lru), v) + [v] else old(lru)
      ensures dirty == if markDirty && !old(views)[v].dirty then old(dirty) + [v] else old(dirty)
    {
      ghost var c := State();
      ReleaseKeeps(c, v, valid, markDirty, mapped);
      SetValidKeeps(c, v, valid);
      views := views[v := views[v].(valid := valid)];
      if markDirty && !views[v].dirty {
        MarkDirtyVacb(v, {});
      }
      assert State() == MarkIf(SetValid(c, v, valid), v, markDirty);
      if mapped {
        AddMapping(v);
      }
      GiveBack(v);
      assert views[v].refs > 0;
    }

    /** One more mapping of the VACB; the first one takes a reference. */
    method AddMapping(v: Vacb)
      requires v in views
      modifies `views, `files, `lru, `dirty, `totalDirtyPages, `disk, `created, `holders
      ensures State() == MapIf(old(State()), v, true) && created == old(created)
    {
      var view := views[v];
      views := views[v := view.(mapped := view.mapped + 1, refs := view.refs + One(view.mapped == 0))];
    }

    method GiveBack(v: Vacb)
      requires v in views && views[v].refs > 1
      modifies `views, `files, `lru, `dirty, `totalDirtyPages, `disk, `created, `holders
      ensures State() == Drop(old(State()), v) && created == old(created)
    {
      views := views[v := views[v].(refs := views[v].refs - 1)];
      holders := holders - multiset{v};
    }

    /** CcReadVirtualAddress: the stripe passes for filled unless the read failed. */
    method ReadVirtualAddress(v: Vacb, read: ReadOutcome) returns (ok: bool, data: seq<Byte>)
      requires CanTransfer(State(), v) && ReadOk(read)
      ensures ok == !read.ReadFailed?
      ensures data == if ok then Filled(State(), v, read) else read.left
    {
      if read.ReadFailed? {
        return false, read.left;
      }
      PagesOfStripe(files[v.file].section, v);
      var size := RoundToPages(StripeSize(files[v.file].section, v));
      data := if read.ReadDone? then disk[v.file][v.offset..v.offset + size] else read.left[..size];
      data := data + Zeros(VACB_MAPPING_GRANULARITY - size);
      ok := true;
    }

    /** The stripe a chunk works on: cached data, fresh memory for a write of the whole stripe, or what the
        read left. */
    method FillStripe(v: Vacb, op: Operation, n: nat, read: ReadOutcome) returns (ok: bool, base: seq<Byte>)
      requires CanTransfer(State(), v) && ReadOk(read)
      ensures ok ==> base == ChunkBase(State(), v, op, n, read)
      ensures ok <==> !(read.ReadFailed? && NeedsRead(State(), v, op, n))
      ensures !ok ==> base == read.left
    {
      ok, base := true, views[v].data;
      if !views[v].valid && (op == Read || n < VACB_MAPPING_GRANULARITY) {
        ok, base := ReadVirtualAddress(v, read);
      }
    }

    /** Write the stripe's memory and release it. */
    method StoreStripe(v: Vacb, data: seq<Byte>, valid: bool, markDirty: bool)
      requires Inv(State(), {}) && v in holders && |data| == VACB_MAPPING_GRANULARITY
      modifies `views, `files, `lru, `dirty, `totalDirtyPages, `disk, `created, `holders
      ensures v in old(views) && v.file in old(files) && old(views)[v].refs > 1
      ensures State() == Release(SetData(old(State()), v, data), v, valid, markDirty, false) && created == old(created)
    {
      DropKeeps(State(), v, {});
      SetDataKeeps(State(), v, data, views[v].valid);
      views := views[v := views[v].(data := data)];
      ReleaseVacb(v, valid, markDirty, false);
    }

    /** One stripe of CcCopyData: fill it if needed, apply the operation, release it. bytes is what the caller's buffer
        yields, read the outcome of the disk read. */
    method CopyChunk(v: Vacb, op: Operation, start: nat, n: nat, bytes: seq<Byte>, read: ReadOutcome)
      returns (ok: bool, data: seq<Byte>)
      requires Valid() && v in holders && ReadOk(read)
      requires v.offset <= start && start + n <= v.offset + VACB_MAPPING_GRANULARITY && |bytes| <= n
      modifies `views, `files, `lru, `dirty, `totalDirtyPages, `disk, `created, `holders, `astray
      ensures CanTransfer(old(State()), v) && Valid() && created == old(created)
      ensures holders == old(holders) - multiset{v}
      ensures SameSections(old(State()), State()) && (!read.ReadFailed? ==> ok)
      ensures !ok ==> read.ReadFailed? && (op == Read || n < VACB_MAPPING_GRANULARITY)
      ensures !ok ==> Flat(State()) == old(Flat(State())) && astray == old(astray)
      ensures ok ==> astray == (old(astray) || Strays(old(State()), v, op, n, read))
      ensures !read.ReadEnd? ==> astray == old(astray)
      ensures ok ==> data == ChunkPart(old(State()), v, op, start, n, bytes, read)
      ensures ok && !astray ==> Wrote(old(State()), State(), v.file, start, Laid(old(State()), v, op, n, bytes))
    {
      ghost var c := State();
      DropKeeps(c, v, {});
      CanTransferListed(c, v, {});
      ok, data := FillStripe(v, op, n, read);
      if !ok {
        AbandonStripe(v, data);
      } else {
        data := ApplyChunk(v, op, start, n, bytes, read, data);
        data := data[start - v.offset..start - v.offset + n];
      }
    }

    /** The operation on a stripe that passes for filled, and its release. */
    method ApplyChunk(v: Vacb, op: Operation, start: nat, n: nat, bytes: seq<Byte>, ghost read: ReadOutcome,
                      base: seq<Byte>)
      returns (stripe: seq<Byte>)
      requires Valid() && v in holders && ReadOk(read) && CanTransfer(State(), v) && views[v].refs > 1
      requires v.offset <= start && start + n <= v.offset + VACB_MAPPING_GRANULARITY && |bytes| <= n
      requires base == ChunkBase(State(), v, op, n, read)
      modifies `views, `files, `lru, `dirty, `totalDirtyPages, `disk, `created, `holders, `astray
      ensures Valid() && created == old(created) && holders == old(holders) - multiset{v}
      ensures SameSections(old(State()), State())
      ensures astray == (old(astray) || Strays(old(State()), v, op, n, read))
      ensures |stripe| == VACB_MAPPING_GRANULARITY && stripe == ChunkData(old(State()), v, op, start, n, bytes, read)
      ensures !astray ==> Wrote(old(State()), State(), v.file, start, Laid(old(State()), v, op, n, bytes))
    {
      ghost var c := State();
      stripe := base;
      if op != Read {
        stripe := Overwrite(base, start - v.offset, bytes);
      }
      assert stripe == ChunkData(c, v, op, start, n, bytes, read);
      StoreStripe(v, stripe, true, op != Read);
      ChunkReleased(c, State(), v, op, start, n, bytes, read, astray);
      astray := astray || Strays(c, v, op, n, read);
    }

    /** The read of a stripe failed: release it, still not valid. */
    method AbandonStripe(v: Vacb, left: seq<Byte>)
      requires Valid() && v in holders && v in views && !views[v].valid && |left| == VACB_MAPPING_GRANULARITY
      modifies `views, `files, `lru, `dirty, `totalDirtyPages, `disk, `created, `holders
      ensures Valid() && created == old(created) && holders == old(holders) - multiset{v}
      ensures Flat(State()) == old(Flat(State())) && SameSections(old(State()), State())
    {
      DropKeeps(State(), v, {});
      assert VacbOk(State(), v, {});
      FailedRead(State(), v, left);
      StoreStripe(v, left, false, false);
    }

    /** The rest of a turn of CcCopyData, once the stripe is held. foreign is what a torn write leaves behind the
        caller's bytes. */
    method CopyHeld(v: Vacb, start: nat, n: nat, op: Operation, bytes: seq<Byte>, e: Environment)
      returns (failure: Option<Failure>, data: seq<Byte>, foreign: seq<Byte>)
      requires Valid() && v in holders && CanTransfer(State(), v) && EnvironmentOk(e)
      requires v.offset <= start && start + n <= v.offset + VACB_MAPPING_GRANULARITY && |bytes| <= n
      modifies `views, `files, `lru, `dirty, `totalDirtyPages, `disk, `created, `holders, `astray
      ensures Valid() && holders == old(holders) - multiset{v} && SameSections(old(State()), State())
      ensures (old(astray) ==> astray) && (!e.read.ReadEnd? ==> astray == old(astray))
      ensures failure.Some? ==>
        && failure.value == ReadError && e.read.ReadFailed? && (op == Read || n < VACB_MAPPING_GRANULARITY)
        && Flat(State()) == old(Flat(State()))
      ensures failure.None? && !astray ==> Turned(old(Flat(State())), Flat(State()), v.file, start, op, bytes, foreign)
      ensures failure.None? && op == Read ==>
        |data| == n && (!astray ==> Shows(data, old(Flat(State()))[v.file], start))
      ensures ForeignOk(op, failure, n, bytes, foreign)
    {
      ghost var c := State();
      foreign := Foreign(views[v], op, n, bytes);
      var ok;
      ok, data := CopyChunk(v, op, start, n, bytes, e.read);
      if !ok {
        return Some(ReadError), [], [];
      }
      if !astray {
        StripeTurned(c, State(), v, op, start, n, bytes, e.read, data);
      }
      failure := None;
    }

    /** One turn of CcCopyData: get the stripe, copy it, release it. */
    method CopyStripe(f: nat, start: nat, n: nat, op: Operation, bytes: seq<Byte>, e: Environment)
      returns (failure: Option<Failure>, data: seq<Byte>, foreign: seq<Byte>)
      requires Valid() && f in files && EnvironmentOk(e)
      requires 0 < n <= VACB_MAPPING_GRANULARITY - start % VACB_MAPPING_GRANULARITY && |bytes| <= n
      modifies `views, `files, `lru, `dirty, `totalDirtyPages, `disk, `created, `holders, `astray
      ensures Valid() && holders == old(holders) && SameSections(old(State()), State())
      ensures (old(astray) ==> astray) && (!e.read.ReadEnd? ==> astray == old(astray))
      ensures failure.Some? && !astray ==> Flat(State()) == old(Flat(State()))
      ensures failure.None? && !astray ==> Turned(old(Flat(State())), Flat(State()), f, start, op, bytes, foreign)
      ensures failure.None? && op == Read ==> |data| == n && (!astray ==> Shows(data, old(Flat(State()))[f], start))
      ensures ForeignOk(op, failure, n, bytes, foreign)
      ensures Kind(e) && start < old(files[f]).section ==> failure.None?
      ensures failure.Some? ==>
        Because(failure.value, old(files[f]).section, start, op == Read || n < VACB_MAPPING_GRANULARITY, e)
      ensures failure.None? ==> RoundDown(start) < old(files[f]).section
    {
      var r := GetVacb(f, RoundDown(start), e.memory, e.firstFits, e.secondFits);
      if r.Failed? {
        FailedBecause(r.reason, old(files[f]).section, start, op == Read || n < VACB_MAPPING_GRANULARITY, e);
        return Some(r.reason), [], [];
      }
      CachedWithin(State(), r.vacb, start);
      CanTransferListed(State(), r.vacb, {});
      StripeHolds(r.vacb, start, n);
      failure, data, foreign := CopyHeld(r.vacb, start, n, op, bytes, e);
      assert old(holders) + multiset{r.vacb} - multiset{r.vacb} == old(holders);
    }

    /** One turn of the loop of CcCopyData: n bytes of a stripe, of which the caller's buffer yields m. */
    method CopyTurn(ghost flat: map<nat, seq<Byte>>, f: nat, offset: nat, op: Operation, input: seq<Byte>, copied: nat,
                    output: seq<Byte>, n: nat, m: nat, e: Environment)
      returns (failure: Option<Failure>, output': seq<Byte>, foreign: seq<Byte>)
      requires Valid() && f in files && EnvironmentOk(e) && (op == Read ==> |output| == copied)
      requires !astray ==> CopiedSoFar(flat, Flat(State()), f, offset, op, input, copied, output, [])
      requires 0 < n <= VACB_MAPPING_GRANULARITY - (offset + copied) % VACB_MAPPING_GRANULARITY
      requires m <= n && copied + m <= |input|
      modifies `views, `files, `lru, `dirty, `totalDirtyPages, `disk, `created, `holders, `astray
      ensures Valid() && holders == old(holders) && SameSections(old(State()), State())
      ensures (old(astray) ==> astray) && (!e.read.ReadEnd? ==> astray == old(astray))
      ensures TurnDone(flat, Flat(State()), astray, f, offset, op, input, copied, n, m, old(files[f]).section, e,
                       failure, output', foreign)
    {
      var data;
      output' := output;
      ghost var now := Flat(State());
      failure, data, foreign := CopyStripe(f, offset + copied, n, op, Fetched(op, input, copied, m), e);
      if failure.None? {
        output' := if op == Read then output + data[..m] else output;
        if !astray {
          CopyGoesOn(flat, now, Flat(State()), f, offset, op, input, copied, output, m, data, foreign);
        }
      }
    }

    /** One turn of the loop of CcCopyData, with the length it takes and what the caller's buffer yields of it. */
    method CopyNext(ghost flat: map<nat, seq<Byte>>, f: nat, offset: nat, op: Operation, input: seq<Byte>,
                    accessible: nat, p: Progress, e: Environment)
      returns (p': Progress)
      requires Valid() && f in files && EnvironmentOk(e) && p.failure.None? && p.copied < |input|
      requires Underway(flat, Flat(State()), astray, f, offset, op, input, accessible, p)
      modifies `views, `files, `lru, `dirty, `totalDirtyPages, `disk, `created, `holders, `astray
      ensures Valid() && holders == old(holders) && SameSections(old(State()), State())
      ensures (old(astray) ==> astray) && (!e.read.ReadEnd? ==> astray == old(astray))
      ensures Advanced(flat, Flat(State()), astray, f, offset, op, input, accessible, old(files[f]).section, e, p, p')
    {
      var n := ChunkLength(offset + p.copied, |input| - p.copied);
      p' := CopyMeasured(flat, f, offset, op, input, accessible, p, n, e);
    }

    method CopyMeasured(ghost flat: map<nat, seq<Byte>>, f: nat, offset: nat, op: Operation, input: seq<Byte>,
                        accessible: nat, p: Progress, n: nat, e: Environment)
      returns (p': Progress)
      requires Valid() && f in files && EnvironmentOk(e) && p.failure.None?
      requires Underway(flat, Flat(State()), astray, f, offset, op, input, accessible, p)
      requires 0 < n <= VACB_MAPPING_GRANULARITY - (offset + p.copied) % VACB_MAPPING_GRANULARITY
      requires p.copied + n <= |input|
      requires op == Read || n < VACB_MAPPING_GRANULARITY ==> MustRead(op, offset + p.copied, |input| - p.copied)
      modifies `views, `files, `lru, `dirty, `totalDirtyPages, `disk, `created, `holders, `astray
      ensures Valid() && holders == old(holders) && SameSections(old(State()), State())
      ensures (old(astray) ==> astray) && (!e.read.ReadEnd? ==> astray == old(astray))
      ensures Advanced(flat, Flat(State()), astray, f, offset, op, input, accessible, old(files[f]).section, e, p, p')
    {
      var m := if op == Zero || accessible >= p.copied + n then n else accessible - p.copied;
      var failure, output, foreign := CopyTurn(flat, f, offset, op, input, p.copied, p.output, n, m, e);
      p' := Next(p, n, m, failure, output, foreign);
      TurnAdvances(flat, Flat(State()), astray, f, offset, op, input, accessible, old(files[f]).section, e, p, n, m,
                   failure, output, foreign);
    }

    /** CcCopyData, its test for an operation that must not wait, which leaves the sorted list early. */
    method DataReady(f: nat, offset: nat, length: nat) returns (ready: bool)
      requires Valid() && f in files
      ensures ready <==> Ready(State(), f, offset, length)
    {
      var list := files[f].list;
      var i := 0;
      assert FileOk(State(), f);
      while i < |list|
        invariant 0 <= i <= |list|
        invariant forall j :: 0 <= j < i ==>
          list[j] in views && (Meets(list[j], offset, length) ==> views[list[j]].valid)
      {
        var v := list[i];
        assert VacbOk(State(), v, {}) && v in list;
        if !views[v].valid && Meets(v, offset, length) {
          return false;
        }
        if v.offset >= offset + length {
          NoneBehind(list, i, offset, length);
          return true;
        }
        i := i + 1;
      }
      return true;
    }

    /** CcCopyData. input holds the caller's data for a write; only the first accessible bytes of the caller's buffer
        can be touched. foreign is empty, but for a write of a whole stripe that the caller's buffer cut short. */
    method CopyData(f: nat, offset: nat, length: nat, op: Operation, input: seq<Byte>, accessible: nat, wait: bool,
                    env: nat -> Environment)
      returns (status: CopyStatus, copied: nat, output: seq<Byte>, foreign: seq<Byte>)
      requires Valid() && f in files && |input| == length
      requires forall k :: EnvironmentOk(env(k))
      modifies `views, `files, `lru, `dirty, `totalDirtyPages, `disk, `created, `holders, `astray
      ensures Valid() && holders == old(holders) && SameSections(old(State()), State()) && copied <= length
      ensures (old(astray) ==> astray) && ((forall k :: !env(k).read.ReadEnd?) ==> astray == old(astray))
      ensures status.Unavailable? <==> !wait && !Ready(old(State()), f, offset, length)
      ensures status.Unavailable? ==> State() == old(State()) && copied == 0
      ensures status.Copied? ==> copied == length && foreign == []
      ensures var flat := old(Flat(State()));
        !astray ==> Flat(State()) == flat[f := Patch(flat[f], offset, Transferred(op, input, copied) + foreign)]
      ensures foreign != [] ==> op == Write && accessible < length && status == Raised(InvalidUserBuffer)
      ensures op == Read ==> |output| == copied && (!astray ==> Shows(output, old(Flat(State()))[f], offset))
      ensures Reachable(old(files[f]).section, offset, op, input, accessible) && (forall k :: Kind(env(k))) ==>
        status.Copied? || status.Unavailable?
      ensures status.Raised? ==> exists k ::
        Explained(status.reason, old(files[f]).section, offset, op, length, accessible, copied, env(k))
      ensures status.Copied? ==>
        (op == Zero || accessible >= length) && WithinSection(old(files[f]).section, offset, length)
    {
      if !wait {
        var ready := DataReady(f, offset, length);
        if !ready {
          CopyBegins(Flat(State()), f, offset, op, input);
          return Unavailable, 0, [], [];
        }
      }
      status, copied, output, foreign := CopyStripes(f, offset, length, op, input, accessible, env);
    }

    /** CcCopyData, after that test. */
    method CopyStripes(f: nat, offset: nat, length: nat, op: Operation, input: seq<Byte>, accessible: nat,
                       env: nat -> Environment)
      returns (status: CopyStatus, copied: nat, output: seq<Byte>, foreign: seq<Byte>)
      requires Valid() && f in files && |input| == length
      requires forall k :: EnvironmentOk(env(k))
      modifies `views, `files, `lru, `dirty, `totalDirtyPages, `disk, `created, `holders, `astray
      ensures Valid() && holders == old(holders) && SameSections(old(State()), State()) && copied <= length
      ensures (old(astray) ==> astray) && ((forall k :: !env(k).read.ReadEnd?) ==> astray == old(astray))
      ensures status.Copied? ==> copied == length && foreign == []
      ensures var flat := old(Flat(State()));
        !astray ==> Flat(State()) == flat[f := Patch(flat[f], offset, Transferred(op, input, copied) + foreign)]
      ensures foreign != [] ==> op == Write && accessible < length && status == Raised(InvalidUserBuffer)
      ensures op == Read ==> |output| == copied && (!astray ==> Shows(output, old(Flat(State()))[f], offset))
      ensures !status.Unavailable?
      ensures Reachable(old(files[f]).section, offset, op, input, accessible) && (forall k :: Kind(env(k))) ==>
        status.Copied?
      ensures status.Raised? ==> exists k ::
        Explained(status.reason, old(files[f]).section, offset, op, length, accessible, copied, env(k))
      ensures status.Copied? ==>
        (op == Zero || accessible >= length) && WithinSection(old(files[f]).section, offset, length)
    {
      var k, p := 0, Progress(0, [], [], None);
      ghost var flat := Flat(State());
      CopyBegins(flat, f, offset, op, input);
      while p.copied < length && p.failure.None?
        invariant Valid() && holders == old(holders) && SameSections(old(State()), State())
        invariant (old(astray) ==> astray) && ((forall k :: !env(k).read.ReadEnd?) ==> astray == old(astray))
        invariant Underway(flat, Flat(State()), astray, f, offset, op, input, accessible, p)
        invariant Reachable(old(files[f]).section, offset, op, input, accessible) && (forall k :: Kind(env(k))) ==>
          p.failure.None?
        invariant p.failure.Some? ==> exists k ::
          Explained(p.failure.value, old(files[f]).section, offset, op, length, accessible, p.copied, env(k))
        invariant p.failure.None? ==> WithinSection(old(files[f]).section, offset, p.copied)
        decreases length - p.copied, p.failure.None?
      {
        p := CopyNext(flat, f, offset, op, input, accessible, p, env(k));
        k := k + 1;
      }
      copied, output, foreign := p.copied, p.output, p.foreign;
      status := if p.failure.None? then Copied else Raised(p.failure.value);
    }

    /** One turn of CcFlushCache: look the stripe up, write it back if dirty, and release it. */
    method FlushAt(f: nat, position: nat, outcome: WriteOutcome) returns (ok: bool)
      requires Valid() && f in files && OutcomeOk(outcome)
      modifies `views, `files, `lru, `dirty, `totalDirtyPages, `disk, `created, `holders, `astray
      ensures Valid() && StripeFlushed(old(State()), State(), old(astray), astray, f, position, outcome)
      ensures ok == (Cleans(outcome) || !DirtyAt(old(State()), f, position))
    {
      ok := true;
      var found := LookupVacb(f, position);
      if found.Some? {
        ghost var held := State();
        ok := FlushFound(found.value, outcome);
        FoundFlushed(old(State()), held, State(), old(astray), astray, f, position, found.value, outcome);
      }
    }

    method FlushFound(v: Vacb, outcome: WriteOutcome) returns (ok: bool)
      requires Valid() && v in holders && v in views && OutcomeOk(outcome)
      modifies `views, `files, `lru, `dirty, `totalDirtyPages, `disk, `created, `holders, `astray
      ensures Valid() && Unseen(old(State()), State(), astray) && holders == old(holders) - multiset{v}
      ensures views.Keys == old(views).Keys
      ensures SameLists(old(State()), State())
      ensures (old(astray) ==> astray) && (!outcome.WriteEnd? ==> astray == old(astray))
      ensures ok == (Cleans(outcome) || !old(views)[v].dirty)
      ensures forall w :: w in views ==> views[w].dirty == (old(views)[w].dirty && !(Cleans(outcome) && w == v))
    {
      ok := FlushIfDirty(v, outcome);
      ReleaseUnchanged(v);
    }

    method FlushIfDirty(v: Vacb, outcome: WriteOutcome) returns (ok: bool)
      requires Valid() && v in views && OutcomeOk(outcome)
      modifies `views, `files, `lru, `dirty, `totalDirtyPages, `disk, `created, `holders, `astray
      ensures Valid() && Unseen(old(State()), State(), astray) && holders == old(holders)
      ensures views.Keys == old(views).Keys
      ensures SameLists(old(State()), State())
      ensures (old(astray) ==> astray) && (!outcome.WriteEnd? ==> astray == old(astray))
      ensures ok == (Cleans(outcome) || !old(views)[v].dirty)
      ensures forall w :: w in views ==> views[w].dirty == (old(views)[w].dirty && !(Cleans(outcome) && w == v))
    {
      ok := true;
      if views[v].dirty {
        ghost var c := State();
        FlushVacb(v, outcome, {});
        FlushFrame(c, v, outcome);
        ok := Cleans(outcome);
      }
    }

    /** CcRosReleaseVacb as CcFlushCache calls it: the VACB stays as valid as it is. */
    method ReleaseUnchanged(v: Vacb)
      requires Valid() && v in holders
      modifies `views, `files, `lru, `dirty, `totalDirtyPages, `disk, `created, `holders
      ensures Valid() && Flat(State()) == old(Flat(State())) && holders == old(holders) - multiset{v}
      ensures views.Keys == old(views).Keys
      ensures SameLists(old(State()), State())
      ensures forall w :: w in views ==> views[w].dirty == old(views)[w].dirty
    {
      ghost var c := State();
      DropKeeps(c, v, {});
      SameDataKeeps(c, Drop(c, v), {});
      SameFlat(c, Drop(c, v));
      assert VacbOk(c, v, {});
      ReleaseIsDrop(c, v);
      ReleaseVacb(v, views[v].valid, false, false);
    }

    /** CcFlushCache for a range; without a range, offset is 0 and length is the file size. */
    method FlushCache(f: nat, offset: nat, length: nat, outcomes: nat -> WriteOutcome) returns (ok: bool)
      requires Valid() && f in files && forall k :: OutcomeOk(outcomes(k))
      modifies `views, `files, `lru, `dirty, `totalDirtyPages, `disk, `created, `holders, `astray
      ensures Valid() && Unseen(old(State()), State(), astray) && holders == old(holders)
      ensures views.Keys == old(views).Keys
      ensures SameLists(old(State()), State())
      ensures (old(astray) ==> astray) && ((forall k :: !outcomes(k).WriteEnd?) ==> astray == old(astray))
      ensures CleanedAll(old(views), views, f, offset, Turns(length), outcomes)
      ensures ok <==> AllWritten(old(views), f, offset, Turns(length), outcomes)
    {
      ok := FlushStripes(f, offset, length, outcomes);
    }

    /** CcFlushCache, its loop. */
    method FlushStripes(f: nat, offset: nat, length: nat, outcomes: nat -> WriteOutcome) returns (ok: bool)
      requires Valid() && f in files && forall k :: OutcomeOk(outcomes(k))
      modifies `views, `files, `lru, `dirty, `totalDirtyPages, `disk, `created, `holders, `astray
      ensures Valid()
      ensures FlushedSoFar(old(State()), State(), old(astray), astray, f, offset, Turns(length), outcomes, ok)
    {
      ok := true;
      var position, remaining, k := offset, length, 0;
      FlushBegins(State(), astray, f, offset, outcomes);
      while remaining > 0
        invariant f in files && Valid()
        invariant FlushedSoFar(old(State()), State(), old(astray), astray, f, offset, k, outcomes, ok)
        invariant position == offset + k * VACB_MAPPING_GRANULARITY
        invariant remaining == Rest(length, k) && (remaining == 0 ==> k == Turns(length))
        decreases remaining
      {
        ok := FlushTurn(old(State()), old(astray), f, offset, k, position, outcomes, ok);
        RestStep(length, k);
        remaining := remaining - if remaining < VACB_MAPPING_GRANULARITY then remaining else VACB_MAPPING_GRANULARITY;
        position := position + VACB_MAPPING_GRANULARITY;
        k := k + 1;
      }
    }

    /** One turn of CcFlushCache, and what all turns so far have done. */
    method FlushTurn(ghost c: Cache, ghost was: bool, f: nat, ghost offset: nat, k: nat, position: nat,
                     outcomes: nat -> WriteOutcome, ok: bool)
      returns (ok': bool)
      requires Valid() && f in files && OutcomeOk(outcomes(k)) && Inv(c, {})
      requires position == offset + k * VACB_MAPPING_GRANULARITY
      requires FlushedSoFar(c, State(), was, astray, f, offset, k, outcomes, ok)
      modifies `views, `files, `lru, `dirty, `totalDirtyPages, `disk, `created, `holders, `astray
      ensures f in files && Valid() && FlushedSoFar(c, State(), was, astray, f, offset, k + 1, outcomes, ok')
    {
      ghost var before, astrayBefore := State(), astray;
      var done := FlushAt(f, position, outcomes(k));
      ok' := ok && done;
      FlushedOneMore(c, before, State(), was, astrayBefore, astray, f, offset, k, outcomes, ok);
    }

    /** Take a VACB that nobody holds off all lists without writing it back. */
    method DropStripe(v: Vacb, ghost detached: set<Vacb>)
      requires Inv(State(), detached) && v in views && v !in detached && v !in holders
      modifies `views, `files, `lru, `dirty, `totalDirtyPages, `disk, `created, `holders
      ensures Inv(State(), detached + {v}) && DroppedAs(old(State()), State(), v)
      ensures created == old(created) && holders == old(holders) && disk == old(disk)
    {
      DropKeepsInv(State(), v, detached);
      if views[v].dirty {
        UnmarkDirtyVacb(v, detached);
      }
      ForgetMappings(v);
      files := files[v.file := files[v.file].(list := Remove(files[v.file].list, v))];
      lru := Remove(lru, v);
    }

    method ForgetMappings(v: Vacb)
      requires v in views && views[v].refs >= One(views[v].mapped > 0)
      modifies `views, `files, `lru, `dirty, `totalDirtyPages, `disk, `created, `holders
      ensures State() == Unmapped(old(State()), v) && created == old(created)
    {
      var view := views[v];
      views := views[v := view.(mapped := 0, refs := view.refs - One(view.mapped > 0))];
    }

    /** CcPurgeCacheSection, its loop over the file's list. */
    method DetachPurged(f: nat, start: nat, length: nat) returns (success: bool, freeList: seq<Vacb>)
      requires Valid() && f in files
      modifies `views, `files, `lru, `dirty, `totalDirtyPages, `disk, `created, `holders
      ensures Purged(old(State()), State(), f, freeList, astray) && created == old(created) && holders == old(holders)
      ensures success ==> forall v :: v in views ==>
        (v in freeList <==> v.file == f && Purgeable(old(files[f]).section, v, start, PurgeEnd(start, length)))
      ensures !success ==> exists v :: StopsAt(views, f, old(files[f]).section, start, length, v, freeList)
    {
      var end := PurgeEnd(start, length);
      var list, section := files[f].list, files[f].section;
      success := true;
      var i, stop := 0, false;
      freeList := [];
      AllListed(State(), f);
      assert SetOf(freeList) == {};
      NothingDropped(State());
      while i < |list| && !stop
        invariant 0 <= i <= |list| && Purged(old(State()), State(), f, freeList, astray) && created == old(created)
        invariant holders == old(holders)
        invariant forall j :: 0 <= j < i ==> (list[j] in freeList <==> Purgeable(section, list[j], start, end))
        invariant forall j :: i <= j < |list| ==> list[j] !in freeList
        invariant stop ==>
          i < |list| && list[i].offset >= start && (success <==> !Purgeable(section, list[i], start, end))
        invariant !success ==> stop && InUse(views[list[i]])
        decreases |list| - i, !stop
      {
        var v := list[i];
        assert v in list;
        if v.offset < start {
          i := i + 1;
        } else if end.Some? && ViewEnd(section, v) >= end.value {
          stop := true;
        } else if InUse(views[v]) {
          success, stop := false, true;
        } else {
          NotLater(old(State()), f, i);
          PurgeStripe(v, old(State()), f, freeList);
          freeList := [v] + freeList;
          i := i + 1;
        }
      }
      if success {
        forall v | v in views
          ensures v in freeList <==> v.file == f && Purgeable(section, v, start, end)
        {
          PurgeReached(list, f, section, start, end, i, freeList, v);
        }
      } else {
        PurgeStopped(views, list, f, section, start, length, i, freeList);
      }
    }

    /** CcPurgeCacheSection: a length of zero stands for the rest of the file. */
    method PurgeCacheSection(f: nat, start: nat, length: nat) returns (success: bool)
      requires Valid() && f in files
      modifies `views, `files, `lru, `dirty, `totalDirtyPages, `disk, `created, `holders
      ensures Valid() && holders == old(holders) && views.Keys <= old(views).Keys
      ensures forall v :: v in views ==> views[v] == old(views)[v]
      ensures AllDroppedToDisk(old(State()), State(), old(views).Keys - views.Keys)
      ensures success ==> forall v :: v in old(views) ==>
        (v !in views <==> v.file == f && InRange(old(files[f]).section, v, start, length))
      ensures !success ==> exists v :: StoppedAt(old(views), views, f, old(files[f]).section, start, length, v)
    {
      var freeList;
      success, freeList := DetachPurged(f, start, length);
      ghost var purged := State();
      FreeDetached(freeList, SetOf(freeList));
      assert SetOf(freeList) - SetOf(freeList) == {};
      DroppedFlat(old(State()), purged, State(), SetOf(freeList));
      assert old(views).Keys - views.Keys == SetOf(freeList);
      if !success {
        ghost var v :| StopsAt(purged.views, f, old(files[f]).section, start, length, v, freeList);
        assert StoppedAt(old(views), views, f, old(files[f]).section, start, length, v);
      }
    }

    /** One VACB that CcPurgeCacheSection frees. */
    method PurgeStripe(v: Vacb, ghost c: Cache, ghost f: nat, ghost gone: seq<Vacb>)
      requires Purged(c, State(), f, gone, astray) && v in c.views && v.file == f && v !in gone && !InUse(views[v])
      modifies `views, `files, `lru, `dirty, `totalDirtyPages, `disk, `created, `holders
      ensures Purged(c, State(), f, [v] + gone, astray) && created == old(created) && holders == old(holders)
    {
      ghost var before := State();
      assert VacbOk(before, v, SetOf(gone));
      assert views[v].refs == 1 || views[v].dirty;
      DropStripe(v, SetOf(gone));
      DropOneMore(c, before, State(), SetOf(gone), v);
      OneMoreGone(v, gone);
    }

    /** CcRosUnmapVacb. */
    method UnmapVacb(f: nat, offset: nat, nowDirty: bool) returns (found: bool)
      requires Valid() && f in files
      requires Find(files[f].list, RoundDown(offset)).Some? ==>
        Find(files[f].list, RoundDown(offset)).value in views
          && views[Find(files[f].list, RoundDown(offset)).value].mapped > 0
      modifies `views, `files, `lru, `dirty, `totalDirtyPages, `disk, `created, `holders, `astray
      ensures Valid() && Flat(State()) == old(Flat(State())) && holders == old(holders)
      ensures !found ==> astray == old(astray)
      ensures found == old(Find(files[f].list, RoundDown(offset))).Some?
      ensures found ==> var v := old(Find(files[f].list, RoundDown(offset))).value;
        && v in views && astray == (old(astray) || (nowDirty && !old(views)[v].valid))
        && views[v].mapped == old(views)[v].mapped - 1 && views[v].dirty == (old(views)[v].dirty || nowDirty)
    {
      var r := LookupVacb(f, offset);
      if r.None? {
        return false;
      }
      found := true;
      UnmapFound(r.value, nowDirty);
      assert old(holders) + multiset{r.value} - multiset{r.value} == old(holders);
    }

    method UnmapFound(v: Vacb, nowDirty: bool)
      requires Valid() && v in holders && v in views && views[v].mapped > 0
      modifies `views, `files, `lru, `dirty, `totalDirtyPages, `disk, `created, `holders, `astray
      ensures Valid() && SameSections(old(State()), State()) && Flat(State()) == old(Flat(State()))
      ensures holders == old(holders) - multiset{v}
      ensures v in views && astray == (old(astray) || (nowDirty && !old(views)[v].valid))
      ensures views[v].mapped == old(views)[v].mapped - 1 && views[v].dirty == (old(views)[v].dirty || nowDirty)
    {
      UnmapReleases(State(), v, nowDirty, astray);
      RemoveMapping(v);
      astray := astray || (nowDirty && !views[v].valid);
      ReleaseVacb(v, views[v].valid, nowDirty, false);
    }

    /** One mapping less; the last one gives its reference back. */
    method RemoveMapping(v: Vacb)
      requires v in views && views[v].mapped > 0 && views[v].refs > 0
      modifies `views, `files, `lru, `dirty, `totalDirtyPages, `disk, `created, `holders
      ensures State() == LessMapped(old(State()), v) && created == old(created)
    {
      var view := views[v];
      views := views[v := view.(mapped := view.mapped - 1, refs := view.refs - One(view.mapped == 1))];
    }

    /** The references of outstanding holders stay on a VACB that its file's cache gives up. */
    method LeaveBehind(v: Vacb, ghost detached: set<Vacb>)
      requires Good(State(), detached, astray) && v in views && v !in detached
      modifies `views, `holders, `leaked
      ensures old(views)[v].refs > old(holders)[v] && State() == Disown(old(State()), v)
      ensures Good(State(), detached, astray) && SameData(old(State()), State())
      ensures leaked == if v in old(holders) then old(leaked)[v := old(holders)[v]] else old(leaked)
    {
      DisownKeeps(State(), v, detached, astray);
      assert VacbOk(State(), v, detached);
      var view := views[v];
      var left := view.refs - One(view.dirty) - One(view.mapped > 0) - 1;
      assert left == holders[v];
      if left > 0 {
        leaked := leaked[v := left];
      }
      views := views[v := view.(refs := view.refs - left)];
      holders := holders[v := 0];
    }

    /** Take a VACB off all lists without writing it back, whoever holds it. */
    method DropHeld(v: Vacb, ghost detached: set<Vacb>)
      requires Good(State(), detached, astray) && v in views && v !in detached
      modifies `views, `files, `lru, `dirty, `totalDirtyPages, `disk, `created, `holders, `leaked
      ensures old(views)[v].refs > old(holders)[v] && Inv(State(), detached + {v})
      ensures DroppedAs(Disown(old(State()), v), State(), v) && created == old(created)
      ensures holders == old(holders)[v := 0]
      ensures leaked == if v in old(holders) then old(leaked)[v := old(holders)[v]] else old(leaked)
    {
      LeaveBehind(v, detached);
      DropStripe(v, detached);
    }

    /** CcRosDeleteFileCache, one turn of its loop. */
    method DropListed(v: Vacb, ghost c: Cache, ghost f: nat, ghost gone: seq<Vacb>)
      requires Purged(c, State(), f, gone, astray) && v in c.views && v.file == f && v !in gone
      modifies `views, `files, `lru, `dirty, `totalDirtyPages, `disk, `created, `holders, `leaked
      ensures Purged(c, State(), f, [v] + gone, astray) && created == old(created)
      ensures f in old(files) && f in files && files[f].list == Remove(old(files[f].list), v)
      ensures holders == old(holders)[v := 0]
      ensures leaked == if v in old(holders) then old(leaked)[v := old(holders)[v]] else old(leaked)
    {
      ghost var before := State();
      DisownKeeps(before, v, SetOf(gone), astray);
      DropHeld(v, SetOf(gone));
      PurgedOneMore(c, before, Disown(before, v), State(), f, gone, v, astray);
    }

    /** CcRosDeleteFileCache, its loop: every VACB of the file leaves the lists, dirty or mapped or held or not. */
    method DetachFile(f: nat) returns (freeList: seq<Vacb>)
      requires Valid() && f in files
      modifies `views, `files, `lru, `dirty, `totalDirtyPages, `disk, `created, `holders, `leaked
      ensures Purged(old(State()), State(), f, freeList, astray) && created == old(created)
      ensures LeftBehind(old(holders), holders, old(leaked), leaked, freeList)
      ensures forall v :: v in views ==> (v in freeList <==> v.file == f)
    {
      freeList := [];
      assert SetOf(freeList) == {};
      NothingDropped(State());
      while |files[f].list| > 0
        invariant f in files && Purged(old(State()), State(), f, freeList, astray) && created == old(created)
        invariant LeftBehind(old(holders), holders, old(leaked), leaked, freeList)
        decreases |files[f].list|
      {
        var v := files[f].list[|files[f].list| - 1];
        assert VacbOk(State(), v, SetOf(freeList)) && FileOk(State(), f);
        RemoveCounts(files[f].list, v, v);
        ghost var held, lost := holders, leaked;
        DropListed(v, old(State()), f, freeList);
        LeftOneMore(old(holders), held, holders, old(leaked), lost, leaked, v, freeList);
        freeList := [v] + freeList;
      }
      forall v | v in views
        ensures v in freeList <==> v.file == f
      {
        assert VacbOk(State(), v, SetOf(freeList));
      }
    }

    /** CcRosDeleteFileCache: write everything back and, unless the file was opened again meanwhile, drop every VACB. A
        VACB that somebody still holds stays behind with exactly the holders' references. If the writes succeed, the
        disk is left with exactly the file its readers saw, unless a stripe beyond the file size was dirty. */
    method DeleteFileCache(f: nat, fileSize: nat, reopened: bool, outcomes: nat -> WriteOutcome) returns (ok: bool)
      requires Valid() && f in files
      requires forall k :: OutcomeOk(outcomes(k))
      modifies `views, `files, `lru, `dirty, `totalDirtyPages, `disk, `created, `holders, `astray, `leaked
      ensures Valid() && files.Keys == if reopened then old(files).Keys else old(files).Keys - {f}
      ensures (old(astray) ==> astray) && ((forall k :: !outcomes(k).WriteEnd?) ==> astray == old(astray))
      ensures (forall k :: Cleans(outcomes(k))) ==> ok
      ensures forall v :: v in views <==> v in old(views) && (reopened || v.file != f)
      ensures reopened ==> holders == old(holders) && leaked == old(leaked)
      ensures !reopened ==> FileLeft(old(holders), holders, old(leaked), leaked, f)
      ensures !astray && ok && DirtyBelow(old(views), f, fileSize) ==>
        f in disk && |disk[f]| >= old(files[f]).section && disk[f][..old(files[f]).section] == old(Flat(State()))[f]
    {
      ok := FlushCache(f, 0, fileSize, outcomes);
      ghost var flushed := State();
      if !astray && ok && DirtyBelow(old(views), f, fileSize) {
        FlushedToDisk(old(State()), flushed, f, fileSize, outcomes);
      }
      if !reopened {
        RemoveFile(f);
      }
    }

    method DropFile(f: nat) returns (freeList: seq<Vacb>)
      requires Valid() && f in files
      modifies `views, `files, `lru, `dirty, `totalDirtyPages, `disk, `created, `holders, `leaked
      ensures Purged(old(State()), State(), f, freeList, astray) && created == old(created)
      ensures FileLeft(old(holders), holders, old(leaked), leaked, f)
      ensures forall v :: v in views ==> (v in freeList <==> v.file == f)
    {
      freeList := DetachFile(f);
      HeldListed(old(State()), holders, old(leaked), leaked, f, freeList);
    }

    /** CcRosDeleteFileCache, after the write-back. */
    method RemoveFile(f: nat)
      requires Valid() && f in files
      modifies `views, `files, `lru, `dirty, `totalDirtyPages, `disk, `created, `holders, `leaked
      ensures Valid() && files.Keys == old(files).Keys - {f} && disk == old(disk)
      ensures forall v :: v in views <==> v in old(views) && v.file != f
      ensures FileLeft(old(holders), holders, old(leaked), leaked, f)
    {
      var freeList := DropFile(f);
      ghost var purged := State();
      FreeDetached(freeList, SetOf(freeList));
      assert SetOf(freeList) - SetOf(freeList) == {};
      OthersStay(old(State()), purged, State(), f, freeList, astray);
      RemoveFileKeeps(State(), f);
      files := files - {f};
    }
  }
}
