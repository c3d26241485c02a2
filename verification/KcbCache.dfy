/** The registry's cache of key control blocks as the code changes it, ntoskrnl/config/cmkcbncb.c and
    ntoskrnl/config/cmdelay.c. Every routine runs under the locks it takes, as one atomic change; pending are the
    references its callers still have to give back. */
module KcbCache {
  import opened HashChains
  import opened Lists
  import opened NameHash
  import opened Options
  import opened KcbState
  import opened KcbSteps
  import opened KcbEffects

  /** The arguments of CmpCreateKeyControlBlock, and what it meets. */
  datatype NewKey = NewKey(
    hive: nat, cell: nat, fake: bool, parent: Option<Id>, name: seq<Wchar>, symLink: bool, frozen: bool,
    unloading: bool, blockMemory: bool, nameMemory: bool)

  /** The request with its hash: the parent's hash continued over the name. */
  function RequestFor(up: Wchar -> Wchar, s: Kcbs, r: NewKey): Request
    requires r.parent.Some? ==> r.parent.value in s.kcbs
  {
    var seed := if r.parent.Some? then s.kcbs[r.parent.value].key.convKey else 0;
    var key :=
      Key(ConvKey(up, seed, Stripped(r.name)), r.hive, if r.fake then (r.cell + 1) % 0x1_0000_0000 else r.cell);
    Request(key, r.parent, r.symLink, r.fake, r.frozen, r.unloading, r.blockMemory, r.nameMemory)
  }

  /** How the key of a request is known: its hive, its cell, one more for a fake key, and the hash of its path. */
  ghost predicate HasName(up: Wchar -> Wchar, kcbs: map<Id, Kcb>, r: NewKey, key: Key)
    requires r.parent.Some? ==> r.parent.value in kcbs
  {
    && key.hive == r.hive && key.cell == (if r.fake then (r.cell + 1) % 0x1_0000_0000 else r.cell)
    && key.convKey == ConvKey(up, if r.parent.Some? then kcbs[r.parent.value].key.convKey else 0, Stripped(r.name))
  }

  /** The answer to a request, and the block that it names. */
  ghost predicate KeyOpened(s: Kcbs, t: Kcbs, r: NewKey, key: Key, answer: Answer, k: Id) {
    && AnsweredAs(s, answer, key, r.parent, !r.unloading && r.blockMemory, r.nameMemory, k)
    && (answer == Opened(k) ==> Made(s, t, key, r.parent, r.symLink, r.fake, r.frozen, k))
    && (answer.Opened? && answer.kcb != k ==>
          Matches(s, key, answer.kcb) && UsedAgain(s, t, r.fake, r.frozen, answer.kcb))
  }

  class KcbCache {
    var kcbs: map<Id, Kcb>
    var table: map<nat, seq<Id>>
    var lru: seq<Id>
    var elements: nat
    var deferred: seq<Id>
    var closeArmed: bool
    var derefArmed: bool
    var holdLazyFlush: bool
    ghost var holders: multiset<Id>
    ghost var lost: multiset<Id>

    ghost function State(): Kcbs
      reads this
    {
      Kcbs(kcbs, table, lru, elements, deferred, closeArmed, derefArmed, holders, lost)
    }

    ghost predicate Valid()
      reads this
    {
      Inv(State(), multiset{})
    }

    constructor ()
      ensures Valid() && State() == Start()
    {
      kcbs, table, lru, elements, deferred := map[], map[], [], 0, [];
      closeArmed, derefArmed, holdLazyFlush, holders, lost := false, false, true, multiset{}, multiset{};
      new;
      StartOk();
    }

    /** CmpRemoveKeyHash: the walk finds the block. */
    method RemoveKeyHash(k: Id)
      requires k in kcbs && k in Chain(table, HashIndex(kcbs[k].key.convKey))
      modifies this`table
      ensures State() == Unhash(old(State()), k)
    {
      var index := HashIndex(kcbs[k].key.convKey);
      var rest := Unlink(Chain(table, index), k);
      table := table[index := rest];
    }

    /** The search of CmpInsertKeyHash: one chain is enough. */
    method FindKeyHash(key: Key) returns (found: Option<Id>)
      requires Valid()
      ensures found == Lookup(State(), key)
    {
      var chain := Chain(table, HashIndex(key.convKey));
      var i := 0;
      while i < |chain| && !(chain[i] in kcbs && kcbs[chain[i]].key == key)
        invariant 0 <= i <= |chain|
        invariant forall j :: 0 <= j < i ==> !Matches(State(), key, chain[j])
      {
        i := i + 1;
      }
      ChainComplete(State(), key, chain);
      if i < |chain| {
        found := Some(chain[i]);
        assert chain[i] in chain && Matches(State(), key, chain[i]);
      } else {
        found := None;
      }
    }

    /** CmpRemoveFromDelayedClose. */
    method RemoveFromDelayedClose(k: Id)
      requires k in kcbs && kcbs[k].delayed && elements > 0
      modifies this`kcbs, this`lru, this`elements
      ensures kcbs == old(kcbs)[k := old(kcbs)[k].(delayed := false)]
      ensures lru == Remove(old(lru), k) && elements == old(elements) - 1
    {
      lru := Remove(lru, k);
      elements := elements - 1;
      kcbs := kcbs[k := kcbs[k].(delayed := false)];
    }

    /** The interlocked increment, taken back when the 16-bit count overflows. */
    method TryIncrement(k: Id) returns (ok: bool)
      requires k in kcbs && kcbs[k].refs <= MAX_REFERENCES
      modifies this`kcbs
      ensures ok <==> old(kcbs)[k].refs < MAX_REFERENCES
      ensures kcbs == if ok then old(kcbs)[k := old(kcbs)[k].(refs := old(kcbs)[k].refs + 1)] else old(kcbs)
    {
      var kcb := kcbs[k];
      kcbs := kcbs[k := kcb.(refs := kcb.refs + 1)];
      ok := (kcb.refs + 1) % 0x1_0000 != 0;
      if !ok {
        kcbs := kcbs[k := kcbs[k].(refs := kcbs[k].refs - 1)];
      }
    }

    /** CmpReferenceKeyControlBlock: it fails only at 64K references. */
    method ReferenceKeyControlBlock(k: Id) returns (ok: bool)
      requires k in kcbs && kcbs[k].refs <= MAX_REFERENCES && (kcbs[k].delayed ==> elements > 0)
      modifies this`kcbs, this`lru, this`elements
      ensures ok <==> old(CanReference(State(), k))
      ensures State() == old(if CanReference(State(), k) then Increment(State(), k) else State())
    {
      ghost var s := State();
      ok := TryIncrement(k);
      if ok && kcbs[k].delayed {
        RemoveFromDelayedClose(k);
      }
      assert ok ==> kcbs == s.kcbs[k := s.kcbs[k].(refs := s.kcbs[k].refs + 1, delayed := false)];
    }

    /** CmpDelayDerefKeyControlBlock. */
    method DelayDerefKeyControlBlock(k: Id, shortage: Shortage, ghost pending: multiset<Id>)
      requires Inv(State(), pending) && k in pending
      modifies this`kcbs, this`deferred, this`derefArmed, this`lost
      ensures State() == Postpone(old(State()), pending, k, shortage)
    {
      PendingLive(State(), pending, k);
      if kcbs[k].refs - 1 > 0 && k !in shortage.races {
        kcbs := kcbs[k := kcbs[k].(refs := kcbs[k].refs - 1)];
      } else if k in shortage.items {
        lost := lost + multiset{k};
      } else {
        deferred := deferred + [k];
        if !derefArmed {
          derefArmed := true;
        }
      }
    }

    /** CmpDereferenceKeyControlBlockWithLock. */
    method DereferenceWithLock(k: Id, exclusive: bool, shortage: Shortage, ghost pending: multiset<Id>)
      requires Inv(State(), pending) && k in pending
      modifies this
      ensures State() == Release(old(State()), pending, k, exclusive, old(holdLazyFlush), shortage)
      ensures holdLazyFlush == old(holdLazyFlush)
      decreases Level(State(), k), 3
    {
      ghost var s := State();
      PendingLive(s, pending, k);
      kcbs := kcbs[k := kcbs[k].(refs := kcbs[k].refs - 1)];
      if kcbs[k].refs == 0 {
        LastReferenceGone(k, exclusive, shortage, s, pending);
      }
    }

    method LastReferenceGone(k: Id, exclusive: bool, shortage: Shortage, ghost s: Kcbs, ghost pending: multiset<Id>)
      requires LastGone(s, State(), pending, k)
      modifies this
      ensures !DirectDelete(s.kcbs[k], old(holdLazyFlush)) && k !in shortage.items ==> State() == Delay(s, k)
      ensures DirectDelete(s.kcbs[k], old(holdLazyFlush)) || k in shortage.items ==>
        CleanedUp(s, State(), pending, k, exclusive, old(holdLazyFlush), shortage)
      ensures holdLazyFlush == old(holdLazyFlush)
      decreases Level(State(), k), 2
    {
      if (holdLazyFlush && !kcbs[k].symLink) || kcbs[k].noDelayClose || kcbs[k].delete {
        BeforeCleanUp(s, State(), pending, k);
        CleanUpKcbCache(k, exclusive, shortage, pending - multiset{k});
      } else {
        AddToDelayedClose(k, exclusive, shortage, s, pending);
      }
    }

    /** CmpAddToDelayedClose, on a block whose last reference in s has just gone. */
    method AddToDelayedClose(k: Id, exclusive: bool, shortage: Shortage, ghost s: Kcbs, ghost pending: multiset<Id>)
      requires LastGone(s, State(), pending, k) && !kcbs[k].delete
      modifies this
      ensures k !in shortage.items ==> State() == Delay(s, k)
      ensures k in shortage.items ==> CleanedUp(s, State(), pending, k, exclusive, old(holdLazyFlush), shortage)
      ensures holdLazyFlush == old(holdLazyFlush)
      decreases Level(State(), k), 1
    {
      if k in shortage.items {
        BeforeCleanUp(s, State(), pending, k);
        CleanUpKcbCache(k, exclusive, shortage, pending - multiset{k});
      } else {
        EnterDelayedClose(k);
      }
    }

    method EnterDelayedClose(k: Id)
      requires k in kcbs
      modifies this`kcbs, this`lru, this`elements, this`closeArmed
      ensures kcbs == old(kcbs)[k := old(kcbs)[k].(delayed := true)] && lru == [k] + old(lru)
      ensures elements == old(elements) + 1
      ensures closeArmed <==> old(closeArmed) || elements > DELAYED_CLOSE_SIZE
    {
      kcbs := kcbs[k := kcbs[k].(delayed := true)];
      elements := elements + 1;
      lru := [k] + lru;
      if elements > DELAYED_CLOSE_SIZE && !closeArmed {
        closeArmed := true;
      }
    }

    /** CmpCleanUpKcbCacheWithLock. */
    method CleanUpKcbCache(k: Id, exclusive: bool, shortage: Shortage, ghost pending: multiset<Id>)
      requires k in kcbs && (!kcbs[k].delete ==> k in Chain(table, HashIndex(kcbs[k].key.convKey)))
      requires Inv(Erase(State(), k), pending + ParentSet(kcbs[k].parent))
      requires kcbs[k].parent.Some? ==> Level(Erase(State(), k), kcbs[k].parent.value) < kcbs[k].totalLevels
      modifies this
      ensures State() == old(ReleaseParent(Erase(State(), k), pending, kcbs[k].parent, exclusive, holdLazyFlush,
        shortage, kcbs[k].totalLevels))
      ensures holdLazyFlush == old(holdLazyFlush)
      decreases Level(State(), k), 0
    {
      ghost var s := State();
      var parent := kcbs[k].parent;
      if !kcbs[k].delete {
        RemoveKeyHash(k);
      }
      kcbs := kcbs - {k};
      assert State() == Erase(s, k);
      if parent.Some? {
        if exclusive {
          DereferenceWithLock(parent.value, exclusive, shortage, pending + ParentSet(parent));
        } else {
          DelayDerefKeyControlBlock(parent.value, shortage, pending + ParentSet(parent));
        }
      }
    }

    // ----- what the rest of the registry calls

    /** A caller takes a reference and keeps it. */
    method Acquire(k: Id) returns (ok: bool)
      requires Valid() && k in kcbs
      modifies this
      ensures Valid() && State() == Take(old(State()), k) && ok == old(CanReference(State(), k))
      ensures ok ==> TakenOnce(old(State()), State(), k) && holders == old(holders) + multiset{k}
      ensures holdLazyFlush == old(holdLazyFlush)
    {
      ghost var s := State();
      LiveBlock(s, k);
      if CanReference(s, k) {
        TakeUses(s, k);
      }
      ok := ReferenceKeyControlBlock(k);
      if ok {
        holders := holders + multiset{k};
      }
      assert State() == Take(s, k);
    }

    /** CmpDereferenceKeyControlBlock by a holder. A last reference leaves the block first on the delayed-close list or
        takes it away, any other one changes the block's count only. */
    method DereferenceKeyControlBlock(k: Id, shortage: Shortage)
      requires Valid() && k in holders
      modifies this
      ensures Valid() && State() == GiveBack(old(State()), k, old(holdLazyFlush), shortage)
      ensures holdLazyFlush == old(holdLazyFlush) && k in old(kcbs)
      ensures old(kcbs)[k].refs == 1 ==>
        (k in kcbs <==>
          && (old(holdLazyFlush) ==> old(kcbs)[k].symLink) && !old(kcbs)[k].noDelayClose && !old(kcbs)[k].delete
          && k !in shortage.items)
      ensures old(kcbs)[k].refs == 1 && k in kcbs ==>
        lru == [k] + old(lru) && kcbs[k].delayed && kcbs == old(kcbs)[k := kcbs[k]]
      ensures old(kcbs)[k].refs > 1 ==>
        lru == old(lru) && k in kcbs && kcbs == old(kcbs)[k := old(kcbs)[k].(refs := kcbs[k].refs)]
    {
      ghost var s := State();
      UnholdKeeps(s, multiset{}, k);
      assert multiset{} + multiset{k} == multiset{k};
      PendingLive(Unhold(s, k), multiset{k}, k);
      if kcbs[k].refs == 1 {
        LastReference(Unhold(s, k), multiset{k}, k, false, holdLazyFlush, shortage);
      } else {
        NotTheLastReference(Unhold(s, k), multiset{k}, k, false, holdLazyFlush, shortage);
      }
      holders := holders - multiset{k};
      assert State() == Unhold(s, k);
      DropPending(k, shortage, multiset{k});
      assert State() == GiveBack(s, k, holdLazyFlush, shortage);
    }

    /** The lock is only taken for the last reference. */
    method DropPending(k: Id, shortage: Shortage, ghost pending: multiset<Id>)
      requires Inv(State(), pending) && k in pending
      modifies this
      ensures State() == Release(old(State()), pending, k, false, old(holdLazyFlush), shortage)
      ensures holdLazyFlush == old(holdLazyFlush)
    {
      PendingLive(State(), pending, k);
      if kcbs[k].refs - 1 > 0 {
        kcbs := kcbs[k := kcbs[k].(refs := kcbs[k].refs - 1)];
      } else {
        DereferenceWithLock(k, false, shortage, pending);
      }
    }

    /** CmpCreateKeyControlBlock for a key that has a block already. */
    method ReopenBlock(f: Id, fake: bool, frozen: bool) returns (ok: bool)
      requires Valid() && f in kcbs
      modifies this
      ensures ok == old(CanReference(State(), f)) && holdLazyFlush == old(holdLazyFlush)
      ensures State() == if ok then Reopen(old(State()), f, fake, frozen) else old(State())
    {
      ok := Acquire(f);
      if ok {
        SetFlags(f, fake, frozen);
      }
    }

    /** A fake key that turns out to be real has its flags reset; its hive and cell are those it was found under. */
    method SetFlags(k: Id, fake: bool, frozen: bool)
      requires k in kcbs
      modifies this`kcbs
      ensures State() == Refresh(old(State()), k, fake, frozen)
    {
      if kcbs[k].fake && !fake {
        kcbs := kcbs[k := kcbs[k].(fake := false, noDelayClose := false)];
      }
      if frozen && !kcbs[k].symLink {
        kcbs := kcbs[k := kcbs[k].(noDelayClose := true)];
      }
      assert kcbs == kcbs[k := kcbs[k]];
    }

    /** A new block goes to the front of its hash chain; its creator holds it. */
    method EnterBlock(r: Request, k: Id)
      requires k !in kcbs && (r.parent.Some? ==> r.parent.value in kcbs)
      modifies this`kcbs, this`table, this`holders
      ensures State() == Open(old(State()), r, k)
    {
      ghost var s := State();
      var index := HashIndex(r.key.convKey);
      var levels := if r.parent.Some? then kcbs[r.parent.value].totalLevels + 1 else 1;
      table := table[index := [k] + Chain(table, index)];
      kcbs := kcbs[k := Kcb(r.key, r.parent, levels, 1, false, r.frozen && !r.symLink, r.symLink, false, r.fake)];
      holders := holders + multiset{k};
      EnteredAs(s, r, k);
    }

    /** The branch of CmpCreateKeyControlBlock for a new key below a parent. */
    method OpenBelowParent(r: Request, k: Id, shortage: Shortage) returns (answer: Answer)
      requires Valid() && k !in kcbs && r.parent.Some? && r.parent.value in kcbs && Lookup(State(), r.key).None?
      modifies this
      ensures holdLazyFlush == old(holdLazyFlush)
      ensures BelowParent(old(State()), State(), answer, r, k, old(holdLazyFlush), shortage)
    {
      var p := r.parent.value;
      answer := Nothing;
      if kcbs[p].totalLevels + 1 < MAX_LEVELS {
        ghost var s := State();
        LiveBlock(s, p);
        var ok := ReferenceKeyControlBlock(p);
        if ok {
          IncrementKeeps(s, multiset{}, p);
          assert multiset{} + multiset{p} == multiset{p};
          if r.nameMemory {
            EnterBlock(r, k);
            answer := Opened(k);
          } else {
            DereferenceWithLock(p, false, shortage, multiset{p});
          }
        }
      }
    }

    /** CmpCreateKeyControlBlock; k is the block that would be allocated. The new block is entered where the code knows
        it will stay; the code enters it first and takes it out again on failure, under the same locks. */
    method CreateKeyControlBlock(r: Request, k: Id, shortage: Shortage) returns (answer: Answer)
      requires Valid() && k !in kcbs && (r.parent.Some? ==> r.parent.value in kcbs)
      modifies this
      ensures (State(), answer) == Create(old(State()), r, k, old(holdLazyFlush), shortage)
      ensures OpenedAs(old(State()), State(), answer, r, k, old(holdLazyFlush), shortage)
      ensures AnsweredAs(old(State()), answer, r.key, r.parent, CanStart(r), r.nameMemory, k)
      ensures holdLazyFlush == old(holdLazyFlush)
    {
      CreateOpens(State(), r, k, holdLazyFlush, shortage);
      answer := CreateBlock(r, k, shortage);
    }

    /** The code under the locks. */
    method CreateBlock(r: Request, k: Id, shortage: Shortage) returns (answer: Answer)
      requires Valid() && k !in kcbs && (r.parent.Some? ==> r.parent.value in kcbs)
      modifies this
      ensures (State(), answer) == Create(old(State()), r, k, old(holdLazyFlush), shortage)
      ensures holdLazyFlush == old(holdLazyFlush)
    {
      if r.unloading || !r.blockMemory {
        return Nothing;
      }
      var found := FindKeyHash(r.key);
      if found.Some? {
        var ok := ReopenBlock(found.value, r.fake, r.frozen);
        answer := if ok then Opened(found.value) else Nothing;
      } else if r.parent.Some? {
        answer := OpenBelowParent(r, k, shortage);
      } else if r.nameMemory {
        EnterBlock(r, k);
        answer := Opened(k);
      } else {
        answer := Stopped;
      }
    }

    /** The hash of the new key: the parent's, continued over the name. */
    method MakeRequest(up: Wchar -> Wchar, r: NewKey) returns (request: Request)
      requires r.parent.Some? ==> r.parent.value in kcbs
      ensures request == RequestFor(up, State(), r)
    {
      var seed := if r.parent.Some? then kcbs[r.parent.value].key.convKey else 0;
      var name := StripSeparators(r.name);
      var convKey := ComputeConvKey(up, seed, name);
      var cell := if r.fake then (r.cell + 1) % 0x1_0000_0000 else r.cell;
      request := Request(Key(convKey, r.hive, cell), r.parent, r.symLink, r.fake, r.frozen, r.unloading, r.blockMemory,
                         r.nameMemory);
    }

    /** The whole of CmpCreateKeyControlBlock: the key is found under the hash of its path, the parent's continued over
        the name. */
    method OpenKey(up: Wchar -> Wchar, r: NewKey, k: Id, shortage: Shortage) returns (answer: Answer)
      requires Valid() && k !in kcbs && (r.parent.Some? ==> r.parent.value in kcbs)
      modifies this
      ensures (State(), answer) ==
        Create(old(State()), RequestFor(up, old(State()), r), k, old(holdLazyFlush), shortage)
      ensures holdLazyFlush == old(holdLazyFlush)
      ensures exists key :: HasName(up, old(kcbs), r, key) && KeyOpened(old(State()), State(), r, key, answer, k)
    {
      var request := MakeRequest(up, r);
      answer := CreateKeyControlBlock(request, k, shortage);
      assert HasName(up, old(kcbs), r, request.key) && KeyOpened(old(State()), State(), r, request.key, answer, k);
    }

    /** CmDeleteKey, as far as the block is concerned; the hive has let the key go. */
    method DeleteKey(k: Id)
      requires Valid() && k in holders
      modifies this`kcbs, this`table
      ensures Valid() && State() == Delete(old(State()), k) && k in old(kcbs)
      ensures old(kcbs)[k].parent.Some? && !old(kcbs)[k].delete ==>
        Marked(old(State()), State(), k) && Lookup(State(), old(kcbs)[k].key) == None
      ensures old(kcbs)[k].parent.None? || old(kcbs)[k].delete ==> State() == old(State())
    {
      ghost var s := State();
      assert KcbOk(s, multiset{}, k);
      DeleteMarks(s, k);
      if kcbs[k].parent.Some? && !kcbs[k].delete {
        InOwnChain(s, k);
        RemoveKeyHash(k);
        kcbs := kcbs[k := kcbs[k].(delete := true, key := kcbs[k].key.(cell := HCELL_NIL))];
        assert State() == MarkDeleted(s, k);
      }
      assert State() == Delete(s, k);
    }

    /** The eviction in CmpEnumerateOpenSubKeys, with the registry locked exclusively. */
    method EvictEmpty(k: Id, shortage: Shortage)
      requires Valid() && k in kcbs && kcbs[k].delayed
      modifies this
      ensures Valid() && State() == Evict(old(State()), k, true, old(holdLazyFlush), shortage)
      ensures k !in kcbs && deferred == old(deferred) && lost == old(lost) && holders == old(holders)
      ensures holdLazyFlush == old(holdLazyFlush)
    {
      ghost var s := State();
      EraseDelayedKeeps(s, multiset{}, k);
      assert KcbOk(s, multiset{}, k) && Rooted(s, k);
      InOwnChain(s, k);
      RemoveFromDelayedClose(k);
      SameErased(s, State(), k);
      CleanUpKcbCache(k, true, shortage, multiset{});
    }

    /** One turn of CmpDelayDerefKCBWorker: the first reference in the queue is given back; what its block's parent has
        to wait for comes last. */
    method DerefNext(shortage: Shortage)
      requires Valid() && deferred != []
      modifies this
      ensures Valid() && holdLazyFlush == old(holdLazyFlush)
      ensures State() == DrainOne(old(State()), old(holdLazyFlush), shortage)
      ensures old(deferred)[1..] <= deferred
    {
      ghost var s := State();
      NextDeferred(s);
      var k := deferred[0];
      deferred := deferred[1..];
      assert State() == s.(deferred := s.deferred[1..]);
      assert multiset{k} - multiset{k} == multiset{};
      DropPending(k, shortage, multiset{k});
      assert State() == DrainOne(s, holdLazyFlush, shortage);
    }

    /** CmpDelayDerefKCBWorker: it ends, with nothing left in the queue. */
    method DelayDerefWorker(shortages: nat -> Shortage)
      requires Valid()
      modifies this
      ensures State() == Drain(old(State()), old(holdLazyFlush), shortages, 0) && holdLazyFlush == old(holdLazyFlush)
      ensures Valid()
    {
      var turn := 0;
      ghost var last := Drain(State(), holdLazyFlush, shortages, 0);
      while deferred != []
        invariant Valid() && holdLazyFlush == old(holdLazyFlush)
        invariant Drain(State(), holdLazyFlush, shortages, turn) == last
        decreases |kcbs|, |deferred|
      {
        DerefNext(shortages(turn));
        turn := turn + 1;
      }
      derefArmed := false;
    }

    /** One turn of CmpDelayCloseWorker. References are atomic here, so the entry at the end of the list is always an
        unused block; DelayedClose has the other branch of the code, for a block that a reference is converting its lock
        for. */
    method CloseOldestEntry(shortage: Shortage)
      requires Valid() && elements > 0
      modifies this
      ensures State() == CloseOldest(old(State()), old(holdLazyFlush), shortage) && holdLazyFlush == old(holdLazyFlush)
    {
      ghost var s := State();
      var k := lru[|lru| - 1];
      OldestUnused(s);
      assert kcbs[k].refs == 0 && kcbs[k].delayed;
      EraseDelayedKeeps(s, multiset{}, k);
      lru := lru[..|lru| - 1];
      elements := elements - 1;
      SameErased(s, State(), k);
      CleanUpKcbCache(k, false, shortage, multiset{});
    }

    method CloseNextEntry(shortage: Shortage)
      requires Valid() && elements > 0
      modifies this
      ensures Valid() && holdLazyFlush == old(holdLazyFlush) && closeArmed == old(closeArmed)
      ensures ClosedDown(old(State()), State(), old(elements) - 1)
    {
      CloseOldestOnly(State(), holdLazyFlush, shortage);
      CloseOldestEntry(shortage);
    }

    /** CmpDelayCloseWorker: it closes the longest unused blocks, exactly as many as it may and has to, and stays armed
        exactly when there is more to do. */
    method DelayCloseWorker(shortages: nat -> Shortage)
      requires Valid()
      modifies this
      ensures Valid() && holdLazyFlush == old(holdLazyFlush)
      ensures ClosedDown(old(State()), State(), Remaining(old(elements)))
      ensures closeArmed <==> elements > DELAYED_CLOSE_SIZE
    {
      var i := 0;
      ClosedNothing(State());
      while i < DELAYED_CLOSE_SIZE / 4 && elements > DELAYED_CLOSE_SIZE
        invariant i <= 512 && Valid() && holdLazyFlush == old(holdLazyFlush)
        invariant elements == old(elements) - i && (i > 0 ==> elements >= DELAYED_CLOSE_SIZE)
        invariant ClosedDown(old(State()), State(), elements)
      {
        CloseOneMore(shortages(i), old(State()));
        i := i + 1;
      }
      ghost var s := State();
      Rearmed(s, s.elements > DELAYED_CLOSE_SIZE);
      closeArmed := elements > DELAYED_CLOSE_SIZE;
    }

    /** One turn of CmpDelayCloseWorker, and what all turns so far have done. */
    method CloseOneMore(shortage: Shortage, ghost s: Kcbs)
      requires Valid() && elements > 0 && ClosedDown(s, State(), elements)
      modifies this
      ensures Valid() && elements == old(elements) - 1 && holdLazyFlush == old(holdLazyFlush)
      ensures ClosedDown(s, State(), elements)
    {
      ghost var t := State();
      CloseNextEntry(shortage);
      ClosedMore(s, t, State());
    }
  }

  /** What one run of the close worker leaves on the list. */
  function Remaining(elements: nat): nat {
    if elements <= DELAYED_CLOSE_SIZE then elements
    else if elements - DELAYED_CLOSE_SIZE <= 512 then DELAYED_CLOSE_SIZE
    else elements - 512
  }

  ghost function Members(q: seq<Id>): set<Id> {
    set k | k in q
  }

  /** The blocks beyond the first n of the list are gone, all others are there, and at most their reference counts have
      changed. */
  ghost predicate ClosedDown(s: Kcbs, t: Kcbs, n: int) {
    && 0 <= n <= |s.lru| && t.lru == s.lru[..n] && t.elements == n
    && t.kcbs.Keys == s.kcbs.Keys - Members(s.lru[n..])
    && (forall l :: l in t.kcbs ==> l in s.kcbs && t.kcbs[l] == s.kcbs[l].(refs := t.kcbs[l].refs))
    && t.holders == s.holders
  }

  lemma ClosedNothing(s: Kcbs)
    requires s.elements == |s.lru|
    ensures ClosedDown(s, s, s.elements)
  {
    assert s.lru[..|s.lru|] == s.lru;
  }

  lemma ClosedMore(s: Kcbs, t: Kcbs, u: Kcbs)
    requires ClosedDown(s, t, t.elements) && t.elements > 0 && ClosedDown(t, u, t.elements - 1)
    ensures ClosedDown(s, u, u.elements)
  {
    var n := u.elements;
    assert s.lru[n..] == [s.lru[n]] + s.lru[n + 1..];
    assert t.lru[n..] == [s.lru[n]];
    assert Members(s.lru[n..]) == {s.lru[n]} + Members(s.lru[n + 1..]);
    assert t.lru[..n] == s.lru[..n];
  }

  lemma CloseOldestOnly(s: Kcbs, hold: bool, shortage: Shortage)
    requires Inv(s, multiset{}) && s.elements > 0
    ensures var t := CloseOldest(s, hold, shortage); ClosedDown(s, t, s.elements - 1) && t.closeArmed == s.closeArmed
  {
    OldestUnused(s);
    var k, n := s.lru[|s.lru| - 1], |s.lru| - 1;
    assert s.lru[n..] == [k];
    assert Members(s.lru[n..]) == {k};
  }

  lemma LiveBlock(s: Kcbs, k: Id)
    requires Inv(s, multiset{}) && k in s.kcbs
    ensures s.kcbs[k].refs <= MAX_REFERENCES && (s.kcbs[k].delayed ==> s.elements > 0)
  {
    assert KcbOk(s, multiset{}, k);
    assert s.kcbs[k].delayed ==> k in multiset(s.lru);
  }

  lemma SameErased(s: Kcbs, t: Kcbs, k: Id)
    requires k in s.kcbs && k in t.kcbs && s.elements > 0
    requires t == s.(kcbs := t.kcbs, lru := Remove(s.lru, k), elements := s.elements - 1)
    requires t.kcbs == s.kcbs[k := t.kcbs[k]] && t.kcbs[k].key == s.kcbs[k].key && t.kcbs[k].delete == s.kcbs[k].delete
    ensures Erase(t, k) == EraseDelayed(s, k)
  {
    assert t.kcbs - {k} == s.kcbs - {k};
  }

  lemma EnteredAs(s: Kcbs, r: Request, k: Id)
    ensures Open(s, r, k).kcbs == s.kcbs[k := NewKcb(s, r).(noDelayClose := r.frozen && !r.symLink)]
  {
  }

  /** What Create says about a new key below a parent. */
  ghost predicate BelowParent(s: Kcbs, t: Kcbs, answer: Answer, r: Request, k: Id, hold: bool, shortage: Shortage)
    requires Inv(s, multiset{}) && k !in s.kcbs && r.parent.Some? && r.parent.value in s.kcbs
    requires forall f :: !Matches(s, r.key, f)
  {
    var p := r.parent.value;
    if CanReference(s, p) && Level(s, p) + 1 < MAX_LEVELS then
      t == OpenBelow(s, r, k, hold, shortage) && answer == (if r.nameMemory then Opened(k) else Nothing)
    else t == s && answer == Nothing
  }

  ghost predicate LastGone(s: Kcbs, t: Kcbs, pending: multiset<Id>, k: Id) {
    Inv(s, pending) && k in pending && k in s.kcbs && s.kcbs[k].refs == 1 && t == Decrement(s, k)
  }

  ghost predicate CleanUpReady(s: Kcbs, pending: multiset<Id>, k: Id) {
    && k in s.kcbs && Inv(Erase(s, k), pending - multiset{k} + ParentSet(s.kcbs[k].parent))
    && (s.kcbs[k].parent.Some? ==> Level(Erase(s, k), s.kcbs[k].parent.value) < s.kcbs[k].totalLevels)
  }

  ghost predicate CleanedUp(s: Kcbs, t: Kcbs, pending: multiset<Id>, k: Id, exclusive: bool, hold: bool,
                            shortage: Shortage) {
    && CleanUpReady(s, pending, k)
    && t == ReleaseParent(Erase(s, k), pending - multiset{k}, s.kcbs[k].parent, exclusive, hold, shortage,
      s.kcbs[k].totalLevels)
  }

  lemma BeforeCleanUp(s: Kcbs, t: Kcbs, pending: multiset<Id>, k: Id)
    requires LastGone(s, t, pending, k)
    ensures Erase(t, k) == Erase(s, k) && CleanUpReady(s, pending, k) && k in t.kcbs
    ensures !s.kcbs[k].delete ==> k in Chain(s.table, HashIndex(s.kcbs[k].key.convKey))
  {
    EraseKeeps(s, pending, k);
    assert t.kcbs - {k} == s.kcbs - {k};
    var index := HashIndex(s.kcbs[k].key.convKey);
    assert Hashed(s, k, index) && Rooted(s, k);
    assert k in multiset(Chain(s.table, index)) <==> k in Chain(s.table, index);
  }

  /** A block with a given key can only be in the key's chain, and a chain holds no deleted blocks. */
  lemma ChainComplete(s: Kcbs, key: Key, chain: seq<Id>)
    requires Inv(s, multiset{}) && chain == Chain(s.table, HashIndex(key.convKey))
    ensures forall f :: Matches(s, key, f) ==> f in chain
    ensures forall f :: f in chain ==> f in s.kcbs && !s.kcbs[f].delete
    ensures forall f, g :: Matches(s, key, f) && Matches(s, key, g) ==> f == g
  {
    forall f
      ensures Matches(s, key, f) ==> f in chain
      ensures f in chain ==> f in s.kcbs && !s.kcbs[f].delete
    {
      assert Hashed(s, f, HashIndex(key.convKey));
      assert f in chain <==> f in multiset(chain);
    }
    forall f, g | Matches(s, key, f) && Matches(s, key, g)
      ensures f == g
    {
      assert OneBlock(s, f, g);
    }
  }
}
