/** What the operations on key control blocks do to the state, ntoskrnl/config/cmkcbncb.c and ntoskrnl/config/cmdelay.c,
    and what holds in every state a run of them reaches. */
module KcbSteps {
  import opened HashChains
  import opened Lists
  import opened NameHash
  import opened Options
  import opened KcbState

  /** What a call meets: the blocks for which no delay item can be allocated, and those whose count another thread
      changes between the reading and the exchange in CmpDelayDerefKeyControlBlock. */
  datatype Shortage = Shortage(items: set<Id>, races: set<Id>)

  const PLENTY := Shortage({}, {})

  /** The blocks that are freed at once instead of delayed. */
  predicate DirectDelete(kcb: Kcb, hold: bool) {
    (hold && !kcb.symLink) || kcb.noDelayClose || kcb.delete
  }

  function Lose(s: Kcbs, k: Id): Kcbs {
    s.(lost := s.lost + multiset{k})
  }

  function Level(s: Kcbs, k: Id): nat {
    if k in s.kcbs then s.kcbs[k].totalLevels else 0
  }

  lemma PendingLive(s: Kcbs, pending: multiset<Id>, k: Id)
    requires Inv(s, pending) && k in pending
    ensures k in s.kcbs && s.kcbs[k].refs > 0 && !s.kcbs[k].delayed && s.kcbs[k].refs >= pending[k]
    ensures s.kcbs[k].totalLevels > 0
  {
    assert KcbOk(s, pending, k);
    assert Rooted(s, k);
  }

  /** The same blocks, with the same content except for their reference counts. */
  ghost predicate OnlyCounts(m: map<Id, Kcb>, m': map<Id, Kcb>) {
    m'.Keys == m.Keys && forall l :: l in m ==> m'[l] == m[l].(refs := m'[l].refs)
  }

  predicate Last(s: Kcbs, k: Id) {
    k in s.kcbs && s.kcbs[k].refs <= 1
  }

  /** The reference is not simply given back: it is the last one, or the exchange fails. */
  predicate Held(s: Kcbs, k: Id, shortage: Shortage) {
    Last(s, k) || k in shortage.races
  }

  /** It waits in the queue then, if there is a delay item for it. */
  predicate Waits(s: Kcbs, k: Id, shortage: Shortage) {
    Held(s, k, shortage) && k !in shortage.items
  }

  function Postponed(s: Kcbs, k: Id, shortage: Shortage): Kcbs
    requires k in s.kcbs && s.kcbs[k].refs > 0
  {
    if s.kcbs[k].refs > 1 && k !in shortage.races then Decrement(s, k)
    else if k !in shortage.items then Defer(s, k)
    else Lose(s, k)
  }

  lemma PostponedKeeps(s: Kcbs, pending: multiset<Id>, k: Id, shortage: Shortage)
    requires Inv(s, pending) && k in pending
    ensures k in s.kcbs && s.kcbs[k].refs > 0 && Inv(Postponed(s, k, shortage), pending - multiset{k})
  {
    PendingLive(s, pending, k);
    if s.kcbs[k].refs > 1 && k !in shortage.races {
      DecrementKeeps(s, pending, k);
    } else if k !in shortage.items {
      DeferKeeps(s, pending, k);
    } else {
      Moved(s, Lose(s, k), pending, pending - multiset{k});
    }
  }

  lemma DecrementFrame(s: Kcbs, k: Id)
    requires k in s.kcbs && s.kcbs[k].refs > 0
    ensures OnlyCounts(s.kcbs, Decrement(s, k).kcbs)
  {
  }

  lemma PostponedFrame(s: Kcbs, k: Id, shortage: Shortage)
    requires k in s.kcbs && s.kcbs[k].refs > 0
    ensures OnlyCounts(s.kcbs, Postponed(s, k, shortage).kcbs)
  {
    if s.kcbs[k].refs > 1 && k !in shortage.races {
      DecrementFrame(s, k);
    }
  }

  /** The workers are set going when there is work for them, and only then; what waits keeps its order. */
  ghost predicate ArmedInTime(s: Kcbs, t: Kcbs) {
    && (t.closeArmed <==> s.closeArmed || t.elements > DELAYED_CLOSE_SIZE)
    && (t.derefArmed <==> s.derefArmed || t.deferred != [])
    && s.deferred <= t.deferred
  }

  lemma ArmedStill(s: Kcbs, pending: multiset<Id>)
    requires Inv(s, pending)
    ensures ArmedInTime(s, s)
  {
  }

  lemma PostponedArmed(s: Kcbs, pending: multiset<Id>, k: Id, shortage: Shortage)
    requires Inv(s, pending) && k in s.kcbs && s.kcbs[k].refs > 0
    ensures ArmedInTime(s, Postponed(s, k, shortage)) && Postponed(s, k, shortage).elements == s.elements
  {
    ArmedStill(s, pending);
  }

  /** CmpDelayDerefKeyControlBlock. */
  ghost function Postpone(s: Kcbs, pending: multiset<Id>, k: Id, shortage: Shortage): (t: Kcbs)
    requires Inv(s, pending) && k in pending
    ensures Inv(t, pending - multiset{k})
    ensures OnlyCounts(s.kcbs, t.kcbs) && t.lru == s.lru && t.closeArmed == s.closeArmed && t.holders == s.holders
    ensures t.deferred == if Waits(s, k, shortage) then s.deferred + [k] else s.deferred
    ensures t.lost == if Held(s, k, shortage) && k in shortage.items then s.lost + multiset{k} else s.lost
    ensures ArmedInTime(s, t) && t.elements == s.elements
  {
    PostponedKeeps(s, pending, k, shortage);
    PostponedArmed(s, pending, k, shortage);
    PostponedFrame(s, k, shortage);
    Postponed(s, k, shortage)
  }

  /** CmpDereferenceKeyControlBlockWithLock: the recursion climbs one level at a time. With the registry locked
      exclusively, nothing is put off. */
  ghost function Release(s: Kcbs, pending: multiset<Id>, k: Id, exclusive: bool, hold: bool,
                         shortage: Shortage): (t: Kcbs)
    requires Inv(s, pending) && k in pending
    ensures Inv(t, pending - multiset{k})
    ensures t.kcbs.Keys <= s.kcbs.Keys && t.holders == s.holders
    ensures s.lost <= t.lost && (shortage.items == {} ==> t.lost == s.lost)
    ensures ArmedInTime(s, t) && s.elements <= t.elements
    ensures exclusive ==> t.deferred == s.deferred && t.lost == s.lost
    decreases Level(s, k), 1
  {
    PendingLive(s, pending, k);
    if s.kcbs[k].refs > 1 then
      DecrementKeeps(s, pending, k);
      Decrement(s, k)
    else if !DirectDelete(s.kcbs[k], hold) && k !in shortage.items then
      DelayKeeps(s, pending, k);
      Delay(s, k)
    else
      assert Rooted(s, k);
      EraseKeeps(s, pending, k);
      ReleaseParent(Erase(s, k), pending - multiset{k}, s.kcbs[k].parent, exclusive, hold, shortage,
        s.kcbs[k].totalLevels)
  }

  /** The end of CmpCleanUpKcbCacheWithLock: the parent's reference for a block that was freed. */
  ghost function ReleaseParent(s: Kcbs, pending: multiset<Id>, parent: Option<Id>, exclusive: bool, hold: bool,
                               shortage: Shortage, level: nat): (t: Kcbs)
    requires Inv(s, pending + ParentSet(parent))
    requires parent.Some? ==> Level(s, parent.value) < level
    ensures Inv(t, pending)
    ensures t.kcbs.Keys <= s.kcbs.Keys && t.holders == s.holders
    ensures s.lost <= t.lost && (shortage.items == {} ==> t.lost == s.lost)
    ensures ArmedInTime(s, t) && s.elements <= t.elements
    ensures exclusive ==> t.deferred == s.deferred && t.lost == s.lost
    ensures !exclusive ==> OnlyCounts(s.kcbs, t.kcbs) && t.lru == s.lru && t.closeArmed == s.closeArmed
    decreases level, 0
  {
    match parent
    case None =>
      assert pending + ParentSet(parent) == pending;
      ArmedStill(s, pending);
      s
    case Some(p) =>
      assert pending + ParentSet(parent) - multiset{p} == pending;
      PendingLive(s, pending + ParentSet(parent), p);
      if exclusive then Release(s, pending + ParentSet(parent), p, exclusive, hold, shortage)
      else Postpone(s, pending + ParentSet(parent), p, shortage)
  }

  /** k is below or at its own ancestor a. */
  ghost predicate Below(s: Kcbs, k: Id, a: Id)
    decreases Level(s, k)
  {
    k == a || (k in s.kcbs && s.kcbs[k].parent.Some? && Level(s, s.kcbs[k].parent.value) < Level(s, k)
      && Below(s, s.kcbs[k].parent.value, a))
  }

  ghost predicate Untouched(s: Kcbs, t: Kcbs, l: Id) {
    (l in t.kcbs <==> l in s.kcbs) && (l in s.kcbs ==> t.kcbs[l] == s.kcbs[l])
  }

  lemma PostponeTouches(s: Kcbs, pending: multiset<Id>, k: Id, shortage: Shortage, l: Id)
    requires Inv(s, pending) && k in pending && l != k
    ensures Untouched(s, Postpone(s, pending, k, shortage), l)
  {
    PendingLive(s, pending, k);
    assert Untouched(s, Postponed(s, k, shortage), l);
  }

  /** Giving a reference back touches the block and its ancestors only. */
  lemma {:induction false} ReleaseTouches(s: Kcbs, pending: multiset<Id>, k: Id, exclusive: bool, hold: bool,
                                          shortage: Shortage, l: Id)
    requires Inv(s, pending) && k in pending && !Below(s, k, l)
    ensures Untouched(s, Release(s, pending, k, exclusive, hold, shortage), l)
    decreases Level(s, k), 1
  {
    PendingLive(s, pending, k);
    if s.kcbs[k].refs > 1 {
    } else if !DirectDelete(s.kcbs[k], hold) && k !in shortage.items {
    } else {
      assert Rooted(s, k);
      EraseKeeps(s, pending, k);
      if s.kcbs[k].parent.Some? {
        BelowErased(s, k, s.kcbs[k].parent.value, l);
      }
      ReleaseParentTouches(Erase(s, k), pending - multiset{k}, s.kcbs[k].parent, exclusive, hold, shortage,
        s.kcbs[k].totalLevels, l);
    }
  }

  lemma {:induction false} ReleaseParentTouches(s: Kcbs, pending: multiset<Id>, parent: Option<Id>, exclusive: bool,
                                                hold: bool, shortage: Shortage, level: nat, l: Id)
    requires Inv(s, pending + ParentSet(parent))
    requires parent.Some? ==> Level(s, parent.value) < level && !Below(s, parent.value, l)
    ensures Untouched(s, ReleaseParent(s, pending, parent, exclusive, hold, shortage, level), l)
    decreases level, 0
  {
    if parent.Some? {
      assert pending + ParentSet(parent) - multiset{parent.value} == pending;
      PendingLive(s, pending + ParentSet(parent), parent.value);
      if exclusive {
        ReleaseTouches(s, pending + ParentSet(parent), parent.value, exclusive, hold, shortage, l);
      } else {
        PostponeTouches(s, pending + ParentSet(parent), parent.value, shortage, l);
      }
    }
  }

  /** Freeing a block changes nothing above it. */
  lemma {:induction false} BelowErased(s: Kcbs, k: Id, p: Id, l: Id)
    requires k in s.kcbs && Level(s, p) < Level(s, k) && !Below(s, p, l) && forall m :: Rooted(s, m)
    ensures !Below(Erase(s, k), p, l)
    decreases Level(s, p)
  {
    assert Rooted(s, p);
    if p in s.kcbs && s.kcbs[p].parent.Some? {
      BelowErased(s, k, s.kcbs[p].parent.value, l);
    }
  }

  /** What becomes of a block whose last reference goes: it stays, first on the delayed-close list, exactly when nothing
      calls for direct deletion and a delay item can be had. */
  lemma LastReference(s: Kcbs, pending: multiset<Id>, k: Id, exclusive: bool, hold: bool, shortage: Shortage)
    requires Inv(s, pending) && k in pending && k in s.kcbs && s.kcbs[k].refs == 1
    ensures var t := Release(s, pending, k, exclusive, hold, shortage);
      && (k in t.kcbs <==>
            && (hold ==> s.kcbs[k].symLink) && !s.kcbs[k].noDelayClose && !s.kcbs[k].delete && k !in shortage.items)
      && (k in t.kcbs ==> t.lru == [k] + s.lru && t.kcbs == s.kcbs[k := t.kcbs[k]] && t.kcbs[k].delayed)
  {
    PendingLive(s, pending, k);
    if DirectDelete(s.kcbs[k], hold) || k in shortage.items {
      assert Rooted(s, k);
      EraseKeeps(s, pending, k);
      assert k !in Erase(s, k).kcbs;
    }
  }

  /** A reference that is not the last one leaves the lists and all other blocks alone. */
  lemma NotTheLastReference(s: Kcbs, pending: multiset<Id>, k: Id, exclusive: bool, hold: bool, shortage: Shortage)
    requires Inv(s, pending) && k in pending && k in s.kcbs && s.kcbs[k].refs > 1
    ensures var t := Release(s, pending, k, exclusive, hold, shortage);
      t == s.(kcbs := t.kcbs) && OnlyCounts(s.kcbs, t.kcbs) && forall l :: l in s.kcbs && l != k ==>
        t.kcbs[l] == s.kcbs[l]
  {
    PendingLive(s, pending, k);
  }

  // ----- the operations, each from a state with nothing pending to another

  function Hold(s: Kcbs, k: Id): Kcbs {
    s.(holders := s.holders + multiset{k})
  }

  function Unhold(s: Kcbs, k: Id): Kcbs {
    s.(holders := s.holders - multiset{k})
  }

  lemma HoldKeeps(s: Kcbs, pending: multiset<Id>, k: Id)
    requires Inv(s, pending + multiset{k})
    ensures Inv(Hold(s, k), pending)
  {
    Moved(s, Hold(s, k), pending + multiset{k}, pending);
  }

  lemma UnholdKeeps(s: Kcbs, pending: multiset<Id>, k: Id)
    requires Inv(s, pending) && k in s.holders
    ensures Inv(Unhold(s, k), pending + multiset{k})
  {
    Moved(s, Unhold(s, k), pending, pending + multiset{k});
  }

  predicate CanReference(s: Kcbs, k: Id) {
    k in s.kcbs && s.kcbs[k].refs < MAX_REFERENCES
  }

  /** CmpReferenceKeyControlBlock by someone who keeps the reference. */
  ghost function Take(s: Kcbs, k: Id): (t: Kcbs)
    requires Inv(s, multiset{}) && k in s.kcbs
    ensures Inv(t, multiset{}) && t.kcbs.Keys == s.kcbs.Keys && t.lost == s.lost
    ensures t.holders == if CanReference(s, k) then s.holders + multiset{k} else s.holders
    ensures ArmedInTime(s, t)
  {
    if CanReference(s, k) then
      IncrementKeeps(s, multiset{}, k);
      HoldKeeps(Increment(s, k), multiset{}, k);
      Hold(Increment(s, k), k)
    else
      s
  }

  /** CmpDereferenceKeyControlBlock. */
  ghost function GiveBack(s: Kcbs, k: Id, hold: bool, shortage: Shortage): (t: Kcbs)
    requires Inv(s, multiset{}) && k in s.holders
    ensures Inv(t, multiset{}) && t.kcbs.Keys <= s.kcbs.Keys
    ensures t.holders == s.holders - multiset{k} && ArmedInTime(s, t)
    ensures s.lost <= t.lost && (shortage.items == {} ==> t.lost == s.lost)
  {
    UnholdKeeps(s, multiset{}, k);
    assert multiset{} + multiset{k} == multiset{k} && multiset{k} - multiset{k} == multiset{};
    Release(Unhold(s, k), multiset{k}, k, false, hold, shortage)
  }

  /** CmDeleteKey on an open key that the hive lets go. */
  ghost function Delete(s: Kcbs, k: Id): (t: Kcbs)
    requires Inv(s, multiset{}) && k in s.holders
    ensures Inv(t, multiset{}) && t.kcbs.Keys == s.kcbs.Keys
    ensures t.holders == s.holders && ArmedInTime(s, t)
    ensures t.lost == s.lost
  {
    assert KcbOk(s, multiset{}, k);
    if s.kcbs[k].parent.None? || s.kcbs[k].delete then s
    else
      MarkDeletedKeeps(s, multiset{}, k);
      MarkDeleted(s, k)
  }

  /** An unused block is thrown out ahead of time (CmpEnumerateOpenSubKeys). */
  ghost function Evict(s: Kcbs, k: Id, exclusive: bool, hold: bool, shortage: Shortage): (t: Kcbs)
    requires Inv(s, multiset{}) && k in s.kcbs && s.kcbs[k].delayed
    ensures Inv(t, multiset{}) && t.kcbs.Keys <= s.kcbs.Keys - {k}
    ensures s.lost <= t.lost && (shortage.items == {} ==> t.lost == s.lost)
    ensures t.holders == s.holders && ArmedInTime(s, t)
    ensures exclusive ==> t.deferred == s.deferred && t.lost == s.lost
    ensures !exclusive ==> OnlyCounts(s.kcbs - {k}, t.kcbs) && t.lru == Remove(s.lru, k) && t.closeArmed == s.closeArmed
  {
    assert Rooted(s, k);
    EraseDelayedKeeps(s, multiset{}, k);
    ReleaseParent(EraseDelayed(s, k), multiset{}, s.kcbs[k].parent, exclusive, hold, shortage, s.kcbs[k].totalLevels)
  }

  lemma NextDeferred(s: Kcbs)
    requires Inv(s, multiset{}) && s.deferred != []
    ensures Inv(s.(deferred := s.deferred[1..]), multiset{s.deferred[0]})
  {
    assert s.deferred == [s.deferred[0]] + s.deferred[1..];
    Moved(s, s.(deferred := s.deferred[1..]), multiset{}, multiset{s.deferred[0]});
  }

  /** A deferred dereference either frees a block or is gone for good. */
  lemma ReleaseShrinks(s: Kcbs, pending: multiset<Id>, k: Id, hold: bool, shortage: Shortage)
    requires Inv(s, pending) && k in pending
    ensures var t := Release(s, pending, k, false, hold, shortage);
      |t.kcbs| < |s.kcbs| || (|t.kcbs| == |s.kcbs| && t.deferred == s.deferred)
  {
    PendingLive(s, pending, k);
    var t := Release(s, pending, k, false, hold, shortage);
    if s.kcbs[k].refs == 1 && (DirectDelete(s.kcbs[k], hold) || k in shortage.items) {
      EraseKeeps(s, pending, k);
      assert t.kcbs.Keys == Erase(s, k).kcbs.Keys == s.kcbs.Keys - {k};
      Sizes(t.kcbs);
      Sizes(s.kcbs);
    } else {
      assert t.kcbs.Keys == s.kcbs.Keys;
      Sizes(t.kcbs);
      Sizes(s.kcbs);
    }
  }

  lemma Sizes(kcbs: map<Id, Kcb>)
    ensures |kcbs| == |kcbs.Keys|
  {
  }

  /** One turn of CmpDelayDerefKCBWorker: the reference that has waited longest is given back. */
  ghost function DrainOne(s: Kcbs, hold: bool, shortage: Shortage): (t: Kcbs)
    requires Inv(s, multiset{}) && s.deferred != []
    ensures Inv(t, multiset{}) && t.kcbs.Keys <= s.kcbs.Keys && t.holders == s.holders
    ensures s.lost <= t.lost && (shortage.items == {} ==> t.lost == s.lost)
    ensures s.deferred[1..] <= t.deferred && s.elements <= t.elements
    ensures t.closeArmed <==> s.closeArmed || t.elements > DELAYED_CLOSE_SIZE
    ensures |t.kcbs| < |s.kcbs| || (|t.kcbs| == |s.kcbs| && |t.deferred| < |s.deferred|)
  {
    NextDeferred(s);
    var k, s' := s.deferred[0], s.(deferred := s.deferred[1..]);
    assert multiset{k} - multiset{k} == multiset{};
    ReleaseShrinks(s', multiset{k}, k, hold, shortage);
    Release(s', multiset{k}, k, false, hold, shortage)
  }

  lemma NothingDeferred(s: Kcbs)
    requires Inv(s, multiset{}) && s.deferred == []
    ensures Inv(s.(derefArmed := false), multiset{})
    ensures s.closeArmed <==> s.closeArmed || s.elements > DELAYED_CLOSE_SIZE
  {
    Moved(s, s.(derefArmed := false), multiset{}, multiset{});
  }

  /** CmpDelayDerefKCBWorker. */
  ghost function Drain(s: Kcbs, hold: bool, shortages: nat -> Shortage, turn: nat): (t: Kcbs)
    requires Inv(s, multiset{})
    ensures Inv(t, multiset{}) && t.kcbs.Keys <= s.kcbs.Keys
    ensures t.holders == s.holders
    ensures t.deferred == [] && !t.derefArmed && s.elements <= t.elements
    ensures t.closeArmed <==> s.closeArmed || t.elements > DELAYED_CLOSE_SIZE
    decreases |s.kcbs|, |s.deferred|
  {
    if s.deferred == [] then
      NothingDeferred(s);
      s.(derefArmed := false)
    else Drain(DrainOne(s, hold, shortages(turn)), hold, shortages, turn + 1)
  }

  lemma {:induction false} DrainLoses(s: Kcbs, hold: bool, shortages: nat -> Shortage, turn: nat)
    requires Inv(s, multiset{})
    ensures var t := Drain(s, hold, shortages, turn);
      s.lost <= t.lost && ((forall i :: shortages(i).items == {}) ==> t.lost == s.lost)
    decreases |s.kcbs|, |s.deferred|
  {
    if s.deferred != [] {
      var u := DrainOne(s, hold, shortages(turn));
      assert s.lost <= u.lost && (shortages(turn).items == {} ==> u.lost == s.lost);
      DrainLoses(u, hold, shortages, turn + 1);
      assert Drain(s, hold, shortages, turn) == Drain(u, hold, shortages, turn + 1);
    }
  }

  /** One turn of CmpDelayCloseWorker: the longest unused block goes. */
  ghost function CloseOldest(s: Kcbs, hold: bool, shortage: Shortage): (t: Kcbs)
    requires Inv(s, multiset{}) && s.elements > 0
    ensures Inv(t, multiset{}) && s.lost <= t.lost && (shortage.items == {} ==> t.lost == s.lost)
  {
    OldestUnused(s);
    Evict(s, s.lru[|s.lru| - 1], false, hold, shortage)
  }

  lemma OldestUnused(s: Kcbs)
    requires Inv(s, multiset{}) && s.elements > 0
    ensures var k := s.lru[|s.lru| - 1];
      && k in s.kcbs && s.kcbs[k].delayed && s.kcbs[k].refs == 0 && !s.kcbs[k].delete
        && Remove(s.lru, k) == s.lru[..|s.lru| - 1]
      && k in Chain(s.table, HashIndex(s.kcbs[k].key.convKey)) && Rooted(s, k)
  {
    var k := s.lru[|s.lru| - 1];
    assert KcbOk(s, multiset{}, k) && k in multiset(s.lru);
    RemoveLast(s.lru, k);
    InOwnChain(s, k);
  }

  lemma InOwnChain(s: Kcbs, k: Id)
    requires Inv(s, multiset{}) && k in s.kcbs && !s.kcbs[k].delete
    ensures k in Chain(s.table, HashIndex(s.kcbs[k].key.convKey))
  {
    var index := HashIndex(s.kcbs[k].key.convKey);
    assert Hashed(s, k, index);
    assert k in multiset(Chain(s.table, index)) <==> k in Chain(s.table, index);
  }

  lemma Rearmed(s: Kcbs, armed: bool)
    requires Inv(s, multiset{}) && (s.elements > DELAYED_CLOSE_SIZE ==> armed)
    ensures Inv(s.(closeArmed := armed), multiset{})
  {
    var t := s.(closeArmed := armed);
    forall l
      ensures KcbOk(t, multiset{}, l) && Rooted(t, l)
    {
      assert KcbOk(s, multiset{}, l) && Rooted(s, l);
    }
    forall l, index
      ensures Hashed(t, l, index)
    {
      assert Hashed(s, l, index);
    }
    forall l, m
      ensures OneBlock(t, l, m)
    {
      assert OneBlock(s, l, m);
    }
  }

  // ----- creation

  /** What CmpCreateKeyControlBlock is asked for and meets: the key and its parent, the node's symbolic-link flag,
      whether the key is a fake one, whether the hive is frozen or being unloaded by another thread, and the allocations
      of the block and of its name. */
  datatype Request = Request(key: Key, parent: Option<Id>, symLink: bool, fake: bool, frozen: bool, unloading: bool,
    blockMemory: bool, nameMemory: bool)

  predicate Matches(s: Kcbs, key: Key, f: Id) {
    f in s.kcbs && !s.kcbs[f].delete && s.kcbs[f].key == key
  }

  /** The hive lets the thread go on, and there is memory for a block. */
  predicate CanStart(r: Request) {
    !r.unloading && r.blockMemory
  }

  /** A fake key that is opened as a real one loses its flags; blocks of a frozen hive are not delayed when they
      close. */
  function Refresh(s: Kcbs, k: Id, fake: bool, frozen: bool): Kcbs
    requires k in s.kcbs
  {
    var kcb := s.kcbs[k];
    var kept := kcb.noDelayClose && !(kcb.fake && !fake);
    SetKcb(s, k, kcb.(fake := kcb.fake && fake, noDelayClose := kept || (frozen && !kcb.symLink)))
  }

  lemma RefreshKeeps(s: Kcbs, pending: multiset<Id>, k: Id, fake: bool, frozen: bool)
    requires Inv(s, pending) && k in s.kcbs
    ensures Inv(Refresh(s, k, fake, frozen), pending)
  {
    var t := Refresh(s, k, fake, frozen);
    forall l
      ensures KcbOk(t, pending, l)
    {
      SameChildren(s.kcbs, k, t.kcbs[k], l);
      assert KcbOk(s, pending, l);
    }
    SameShape(s, t, k);
  }

  function NewKcb(s: Kcbs, r: Request): Kcb {
    var levels := if r.parent.Some? then Level(s, r.parent.value) + 1 else 1;
    Kcb(r.key, r.parent, levels, 1, false, false, r.symLink, false, r.fake)
  }

  /** An existing block is opened once more. */
  ghost function Reopen(s: Kcbs, f: Id, fake: bool, frozen: bool): (t: Kcbs)
    requires Inv(s, multiset{}) && CanReference(s, f)
    ensures Inv(t, multiset{}) && t.kcbs.Keys == s.kcbs.Keys && t.holders == s.holders + multiset{f}
    ensures t.lost == s.lost
    ensures t.kcbs[f].key == s.kcbs[f].key && t.kcbs[f].delete == s.kcbs[f].delete
  {
    RefreshKeeps(Take(s, f), multiset{}, f, fake, frozen);
    Refresh(Take(s, f), f, fake, frozen)
  }

  lemma NoNewMatch(s: Kcbs, key: Key, p: Id)
    requires CanReference(s, p) && (s.kcbs[p].delayed ==> s.elements > 0) && forall f :: !Matches(s, key, f)
    ensures forall f :: !Matches(Increment(s, p), key, f)
  {
    forall f
      ensures !Matches(Increment(s, p), key, f)
    {
      assert !Matches(s, key, f);
    }
  }

  /** A new block below p; without memory for its name, the reference to p is given back. */
  ghost function OpenBelow(s: Kcbs, r: Request, k: Id, hold: bool, shortage: Shortage): (t: Kcbs)
    requires Inv(s, multiset{}) && k !in s.kcbs && r.parent.Some? && CanReference(s, r.parent.value)
    requires Level(s, r.parent.value) + 1 < MAX_LEVELS && forall f :: !Matches(s, r.key, f)
    ensures Inv(t, multiset{}) && t.kcbs.Keys <= s.kcbs.Keys + {k}
    ensures s.lost <= t.lost && (shortage.items == {} ==> t.lost == s.lost)
    ensures r.nameMemory ==> Matches(t, r.key, k)
    ensures t.holders == if r.nameMemory then s.holders + multiset{k} else s.holders
  {
    var p := r.parent.value;
    IncrementKeeps(s, multiset{}, p);
    assert multiset{} + multiset{p} == multiset{p} && multiset{p} - multiset{p} == multiset{};
    var s' := Increment(s, p);
    if r.nameMemory then
      NoNewMatch(s, r.key, p);
      OpenKeeps(s', r, k);
      Open(s', r, k)
    else Release(s', multiset{p}, p, false, hold, shortage)
  }

  /** The new block enters the table and its creator holds it. */
  function Open(s: Kcbs, r: Request, k: Id): Kcbs {
    Refresh(Hold(Enter(s, k, NewKcb(s, r)), k), k, r.fake, r.frozen)
  }

  lemma OpenKeeps(s: Kcbs, r: Request, k: Id)
    requires Inv(s, ParentSet(r.parent)) && k !in s.kcbs && forall f :: !Matches(s, r.key, f)
    requires r.parent.Some? ==> Level(s, r.parent.value) + 1 < MAX_LEVELS
    ensures Inv(Open(s, r, k), multiset{})
  {
    var kcb := NewKcb(s, r);
    forall l | l in s.kcbs && !s.kcbs[l].delete
      ensures s.kcbs[l].key != kcb.key
    {
      assert !Matches(s, r.key, l);
    }
    if r.parent.Some? {
      PendingLive(s, ParentSet(r.parent), r.parent.value);
    }
    EnterKeeps(s, ParentSet(r.parent), k, kcb);
    assert ParentSet(r.parent) - ParentSet(r.parent) + multiset{k} == multiset{} + multiset{k};
    HoldKeeps(Enter(s, k, kcb), multiset{}, k);
    RefreshKeeps(Hold(Enter(s, k, kcb), k), multiset{}, k, r.fake, r.frozen);
  }

  /** A parent can take another child: fewer than 64K references and fewer than 512 levels. */
  predicate RoomBelow(s: Kcbs, parent: Option<Id>) {
    parent.Some? ==> CanReference(s, parent.value) && Level(s, parent.value) + 1 < MAX_LEVELS
  }

  lemma OneMatch(s: Kcbs, key: Key, f: Id, g: Id)
    requires Inv(s, multiset{}) && Matches(s, key, f) && Matches(s, key, g)
    ensures f == g
  {
    assert OneBlock(s, f, g);
  }

  lemma OneMatchOnly(s: Kcbs, key: Key, f: Id)
    requires Inv(s, multiset{}) && Matches(s, key, f)
    ensures forall g :: Matches(s, key, g) ==> g == f
  {
    forall g | Matches(s, key, g)
      ensures g == f
    {
      OneMatch(s, key, f, g);
    }
  }

  /** The block the hash table holds for a key, if any. */
  ghost function Lookup(s: Kcbs, key: Key): (f: Option<Id>)
    ensures f.Some? ==> Matches(s, key, f.value)
    ensures f.None? ==> forall g :: !Matches(s, key, g)
  {
    if exists g :: Matches(s, key, g) then var g :| Matches(s, key, g); Some(g) else None
  }

  datatype Answer = Opened(kcb: Id) | Nothing | Stopped

  /** CmpCreateKeyControlBlock for a key that has no block. A root block without memory for its name ends the system,
      because the code then dereferences a parent that is not there. */
  ghost function CreateNew(s: Kcbs, r: Request, k: Id, hold: bool, shortage: Shortage): (t: (Kcbs, Answer))
    requires Inv(s, multiset{}) && k !in s.kcbs && (r.parent.Some? ==> r.parent.value in s.kcbs)
    requires forall f :: !Matches(s, r.key, f)
    ensures Inv(t.0, multiset{}) && t.0.kcbs.Keys <= s.kcbs.Keys + {k}
    ensures s.lost <= t.0.lost && (shortage.items == {} ==> t.0.lost == s.lost)
    ensures t.1.Opened? ==> t.1 == Opened(k) && Matches(t.0, r.key, k) && t.0.holders == s.holders + multiset{k}
    ensures !t.1.Opened? ==> t.0.holders == s.holders
    ensures t.1.Opened? <==> r.nameMemory && RoomBelow(s, r.parent)
    ensures t.1 == Stopped <==> !r.nameMemory && r.parent.None?
  {
    if r.parent.Some? then
      var p := r.parent.value;
      if CanReference(s, p) && Level(s, p) + 1 < MAX_LEVELS then
        (OpenBelow(s, r, k, hold, shortage), if r.nameMemory then Opened(k) else Nothing)
      else (s, Nothing)
    else if r.nameMemory then
      OpenKeeps(s, r, k);
      (Open(s, r, k), Opened(k))
    else (s, Stopped)
  }

  /** CmpCreateKeyControlBlock; k is the block it allocates. */
  ghost function Create(s: Kcbs, r: Request, k: Id, hold: bool, shortage: Shortage): (t: (Kcbs, Answer))
    requires Inv(s, multiset{}) && k !in s.kcbs && (r.parent.Some? ==> r.parent.value in s.kcbs)
    ensures Inv(t.0, multiset{}) && t.0.kcbs.Keys <= s.kcbs.Keys + {k}
    ensures s.lost <= t.0.lost && (shortage.items == {} ==> t.0.lost == s.lost)
    ensures t.1.Opened? ==> Matches(t.0, r.key, t.1.kcb) && t.0.holders == s.holders + multiset{t.1.kcb}
    ensures !t.1.Opened? ==> t.0.holders == s.holders
    ensures forall f :: Matches(s, r.key, f) ==>
      t.1 == if CanStart(r) && CanReference(s, f) then Opened(f) else Nothing
    ensures (forall f :: !Matches(s, r.key, f)) ==>
      (t.1 == Opened(k) <==> CanStart(r) && r.nameMemory && RoomBelow(s, r.parent))
    ensures t.1 == Stopped <==> CanStart(r) && !r.nameMemory && r.parent.None? && forall f :: !Matches(s, r.key, f)
  {
    if !CanStart(r) then (s, Nothing)
    else
      var found := Lookup(s, r.key);
      if found.Some? then
        OneMatchOnly(s, r.key, found.value);
        if CanReference(s, found.value) then (Reopen(s, found.value, r.fake, r.frozen), Opened(found.value))
        else (s, Nothing)
      else CreateNew(s, r, k, hold, shortage)
  }

  // ----- runs

  datatype Event =
    | Reference(kcb: Id)
    | Dereference(kcb: Id, hold: bool, shortage: Shortage)
    | CreateBlock(request: Request, kcb: Id, hold: bool, shortage: Shortage)
    | DeleteKey(kcb: Id)
    | EvictEmpty(kcb: Id, hold: bool, shortage: Shortage)
    | RunDereferences(hold: bool, shortages: nat -> Shortage)
    | CloseNext(hold: bool, shortage: Shortage)
    | CloseDone

  /** What the code demands of its callers: they pass live blocks, and give back only what they hold. */
  ghost predicate Enabled(s: Kcbs, e: Event) {
    match e
    case Reference(k) => k in s.kcbs
    case Dereference(k, _, _) => k in s.holders
    case CreateBlock(r, k, _, _) => k !in s.kcbs && (r.parent.Some? ==> r.parent.value in s.kcbs)
    case DeleteKey(k) => k in s.holders
    case EvictEmpty(k, _, _) => k in s.kcbs && s.kcbs[k].delayed
    case RunDereferences(_, _) => true
    case CloseNext(_, _) => s.elements > DELAYED_CLOSE_SIZE
    case CloseDone => true
  }

  ghost predicate Plenty(e: Event) {
    match e
    case Dereference(_, _, shortage) => shortage.items == {}
    case CreateBlock(_, _, _, shortage) => shortage.items == {}
    case EvictEmpty(_, _, shortage) => shortage.items == {}
    case RunDereferences(_, shortages) => forall i :: shortages(i).items == {}
    case CloseNext(_, shortage) => shortage.items == {}
    case _ => true
  }

  /** The turns of the workers. */
  ghost function WorkerStep(s: Kcbs, e: Event): (t: Kcbs)
    requires Inv(s, multiset{}) && Enabled(s, e) && (e.RunDereferences? || e.CloseNext? || e.CloseDone?)
    ensures Inv(t, multiset{})
    ensures s.lost <= t.lost && (Plenty(e) ==> t.lost == s.lost)
  {
    match e
    case RunDereferences(hold, shortages) => DrainLoses(s, hold, shortages, 0); Drain(s, hold, shortages, 0)
    case CloseNext(hold, shortage) => CloseOldest(s, hold, shortage)
    case CloseDone =>
      Rearmed(s, s.elements > DELAYED_CLOSE_SIZE);
      s.(closeArmed := s.elements > DELAYED_CLOSE_SIZE)
  }

  ghost function Step(s: Kcbs, e: Event): (t: Kcbs)
    requires Inv(s, multiset{}) && Enabled(s, e)
    ensures Inv(t, multiset{})
    ensures s.lost <= t.lost && (Plenty(e) ==> t.lost == s.lost)
  {
    match e
    case Reference(k) => Take(s, k)
    case Dereference(k, hold, shortage) => GiveBack(s, k, hold, shortage)
    case CreateBlock(r, k, hold, shortage) => Create(s, r, k, hold, shortage).0
    case DeleteKey(k) => Delete(s, k)
    case EvictEmpty(k, hold, shortage) => Evict(s, k, true, hold, shortage)
    case _ => WorkerStep(s, e)
  }

  function Start(): Kcbs {
    Kcbs(map[], map[], [], 0, [], false, false, multiset{}, multiset{})
  }

  lemma StartOk()
    ensures Inv(Start(), multiset{})
  {
    assert forall k :: ChildrenOf(map[], k) == {};
  }

  /** Every run: any events in any order, those that are not enabled left out. */
  ghost function After(es: seq<Event>): (s: Kcbs)
    ensures Inv(s, multiset{})
  {
    if es == [] then
      StartOk();
      Start()
    else
      var s := After(es[..|es| - 1]);
      var e := es[|es| - 1];
      if Enabled(s, e) then Step(s, e) else s
  }

  /** Reference conservation in every reachable state. */
  lemma ReferencesConserved(es: seq<Event>, k: Id)
    ensures var s := After(es);
      && s.elements == |s.lru|
      && (k in s.kcbs ==>
            && s.kcbs[k].refs == s.holders[k] + |ChildrenOf(s.kcbs, k)| + multiset(s.deferred)[k] + s.lost[k]
            && (s.kcbs[k].parent.Some? ==> s.kcbs[k].parent.value in s.kcbs)
            && (s.kcbs[k].refs == 0 <==> k in s.lru))
      && (k !in s.kcbs ==> k !in s.holders && k !in s.lru && k !in s.deferred && k !in s.lost)
  {
    var s := After(es);
    assert KcbOk(s, multiset{}, k) && Rooted(s, k);
    assert k in s.lru <==> k in multiset(s.lru);
    assert k in s.deferred <==> k in multiset(s.deferred);
  }

  /** Nothing leaks: when nobody holds a key, nothing waits to be dereferenced or closed and nothing was lost, no block
      is left. */
  lemma NothingLeaks(es: seq<Event>)
    requires var s := After(es); s.holders == multiset{} && s.deferred == [] && s.lru == [] && s.lost == multiset{}
    ensures After(es).kcbs == map[]
  {
    var s := After(es);
    forall k | k in s.kcbs
      ensures false
    {
      Unreferenced(s, k);
    }
  }

  /** A block that is not delayed has a child, and its child has one, and so on, deeper than a tree can be. */
  lemma {:induction false} Unreferenced(s: Kcbs, k: Id)
    requires Inv(s, multiset{}) && s.holders == multiset{} && s.deferred == [] && s.lru == [] && s.lost == multiset{}
    ensures k !in s.kcbs
    decreases MAX_LEVELS - Level(s, k)
  {
    assert KcbOk(s, multiset{}, k) && Rooted(s, k);
    if k in s.kcbs {
      assert |ChildrenOf(s.kcbs, k)| > 0;
      var c :| c in ChildrenOf(s.kcbs, k);
      assert Rooted(s, c);
      Unreferenced(s, c);
    }
  }

  /** A reference lost for want of a delay item keeps its block alive in every continuation of the run. */
  lemma {:induction false} LostForEver(es: seq<Event>, n: nat, k: Id)
    requires n <= |es| && k in After(es[..n]).lost
    ensures k in After(es).lost && k in After(es).kcbs
  {
    if n == |es| {
      assert es[..n] == es;
      ReferencesConserved(es, k);
    } else {
      assert es[..|es| - 1][..n] == es[..n];
      LostForEver(es[..|es| - 1], n, k);
      ReferencesConserved(es, k);
    }
  }

  /** As long as delay items can be allocated, no reference is lost. */
  lemma {:induction false} PlentyLosesNothing(es: seq<Event>)
    requires forall i :: 0 <= i < |es| ==> Plenty(es[i])
    ensures After(es).lost == multiset{}
  {
    if es != [] {
      PlentyLosesNothing(es[..|es| - 1]);
    }
  }

  function NewRequest(convKey: nat, parent: Option<Id>): Request {
    Request(Key(convKey, 0, 0), parent, false, false, false, false, true, true)
  }

  /** A run that loses a reference: a root and a key below it are opened; the root is closed; then the key is closed, is
      deleted at once because lazy flushing is held back, and no delay item can be had for the root. */
  function RootOpen(): seq<Event> {
    [CreateBlock(NewRequest(1, None), 0, true, PLENTY)]
  }

  function BothOpen(): seq<Event> {
    RootOpen() + [CreateBlock(NewRequest(2, Some(0)), 1, true, PLENTY)]
  }

  function ChildOpen(): seq<Event> {
    BothOpen() + [Dereference(0, true, PLENTY)]
  }

  function LosingRun(): seq<Event> {
    ChildOpen() + [Dereference(1, true, Shortage({0}, {}))]
  }

  lemma AfterOneMore(es: seq<Event>, e: Event)
    ensures After(es + [e]) == if Enabled(After(es), e) then Step(After(es), e) else After(es)
  {
    assert (es + [e])[..|es|] == es;
  }

  const ROOT := Kcb(Key(1, 0, 0), None, 1, 1, false, false, false, false, false)
  const BELOW := Kcb(Key(2, 0, 0), Some(0), 2, 1, false, false, false, false, false)

  lemma RootOpened()
    ensures var s := After(RootOpen()); s.kcbs == map[0 := ROOT] && s.holders == multiset{0} && s.lost == multiset{}
  {
    assert RootOpen() == [] + [CreateBlock(NewRequest(1, None), 0, true, PLENTY)];
    AfterOneMore([], CreateBlock(NewRequest(1, None), 0, true, PLENTY));
  }

  lemma BelowOpened(s: Kcbs)
    requires Inv(s, multiset{}) && s.kcbs == map[0 := ROOT] && s.holders == multiset{0} && s.lost == multiset{}
    ensures var t := Create(s, NewRequest(2, Some(0)), 1, true, PLENTY).0;
      && t.kcbs == map[0 := ROOT.(refs := 2), 1 := BELOW] && t.holders == multiset{0, 1} && t.lost == multiset{}
  {
    var r := NewRequest(2, Some(0));
    assert forall f :: !Matches(s, r.key, f);
    assert Lookup(s, r.key) == None;
    var u := Increment(s, 0);
    assert u.kcbs == map[0 := ROOT.(refs := 2)] && u.holders == multiset{0} && u.lost == multiset{};
    assert OpenBelow(s, r, 1, true, PLENTY) == Open(u, r, 1);
    OpenedBelow(u);
  }

  lemma OpenedBelow(u: Kcbs)
    requires u.kcbs == map[0 := ROOT.(refs := 2)] && u.holders == multiset{0} && u.lost == multiset{}
    ensures var t := Open(u, NewRequest(2, Some(0)), 1);
      && t.kcbs == map[0 := ROOT.(refs := 2), 1 := BELOW] && t.holders == multiset{0, 1} && t.lost == multiset{}
  {
    var r := NewRequest(2, Some(0));
    assert NewKcb(u, r) == BELOW;
    var t := Enter(u, 1, BELOW);
    assert t.kcbs == map[0 := ROOT.(refs := 2), 1 := BELOW] && t.holders == multiset{0} && t.lost == multiset{};
    assert multiset{0} + multiset{1} == multiset{0, 1};
  }

  lemma RootClosed(s: Kcbs)
    requires Inv(s, multiset{}) && s.kcbs == map[0 := ROOT.(refs := 2), 1 := BELOW]
    requires s.holders == multiset{0, 1} && s.lost == multiset{}
    ensures var t := GiveBack(s, 0, true, PLENTY);
      t.kcbs == map[0 := ROOT, 1 := BELOW] && t.holders == multiset{1} && t.lost == multiset{}
  {
  }

  lemma BelowClosed(s: Kcbs)
    requires Inv(s, multiset{}) && s.kcbs == map[0 := ROOT, 1 := BELOW] && s.holders == multiset{1}
    requires s.lost == multiset{}
    ensures var t := GiveBack(s, 1, true, Shortage({0}, {}));
      t.kcbs == map[0 := ROOT] && t.holders == multiset{} && t.lost == multiset{0}
  {
    UnholdKeeps(s, multiset{}, 1);
    assert multiset{} + multiset{1} == multiset{1};
    EraseKeeps(Unhold(s, 1), multiset{1}, 1);
    var u := Erase(Unhold(s, 1), 1);
    assert u.kcbs == map[0 := ROOT];
    assert multiset{1} - multiset{1} == multiset{} && multiset{} + ParentSet(Some(0)) == multiset{0};
    assert ReleaseParent(u, multiset{}, Some(0), false, true, Shortage({0}, {}), 2) == Lose(u, 0);
    assert Release(Unhold(s, 1), multiset{1}, 1, false, true, Shortage({0}, {})) == Lose(u, 0);
  }

  lemma ThreeSteps()
    ensures var s := After(ChildOpen());
      s.kcbs == map[0 := ROOT, 1 := BELOW] && s.holders == multiset{1} && s.lost == multiset{}
  {
    TwoSteps();
    RootClosed(After(BothOpen()));
    AfterOneMore(BothOpen(), Dereference(0, true, PLENTY));
  }

  lemma TwoSteps()
    ensures var s := After(BothOpen());
      s.kcbs == map[0 := ROOT.(refs := 2), 1 := BELOW] && s.holders == multiset{0, 1} && s.lost == multiset{}
  {
    RootOpened();
    BelowOpened(After(RootOpen()));
    AfterOneMore(RootOpen(), CreateBlock(NewRequest(2, Some(0)), 1, true, PLENTY));
  }

  /** Nobody holds the root any more and it has no children, yet it is still there with a count of one. */
  lemma LosingRunLoses()
    ensures var s := After(LosingRun()); s.kcbs == map[0 := ROOT] && s.holders == multiset{} && s.lost == multiset{0}
  {
    ThreeSteps();
    OneMoreClosed(ChildOpen(), After(ChildOpen()));
  }

  lemma OneMoreClosed(es: seq<Event>, s: Kcbs)
    requires s == After(es) && Inv(s, multiset{})
    requires s.kcbs == map[0 := ROOT, 1 := BELOW] && s.holders == multiset{1} && s.lost == multiset{}
    ensures var t := After(es + [Dereference(1, true, Shortage({0}, {}))]);
      t.kcbs == map[0 := ROOT] && t.holders == multiset{} && t.lost == multiset{0}
  {
    BelowClosed(s);
    AfterOneMore(es, Dereference(1, true, Shortage({0}, {})));
  }
}
