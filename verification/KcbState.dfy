/** Registry key control blocks, ntoskrnl/config/cmkcbncb.c and ntoskrnl/config/cmdelay.c: the reference-counted tree,
    its hash table, the delayed-close list and the queue of deferred dereferences, with the invariant that ties them
    together. */
module KcbState {
  import opened HashChains
  import opened Lists
  import opened Options
  import opened NameHash

  /** What identifies a key in the hash table. */
  datatype Key = Key(convKey: nat, hive: nat, cell: nat)

  /** delayed stands for DelayedCloseIndex 0, InDelayClose 1 and a delay-close entry; otherwise the index is
      CmpDelayedCloseSize and there is no entry. fake is the flag of a key that does not exist. */
  datatype Kcb = Kcb(key: Key, parent: Option<Id>, totalLevels: nat, refs: nat, delete: bool, noDelayClose: bool,
    symLink: bool, delayed: bool, fake: bool)

  /** holders are references the rest of the registry has taken; lost are references dropped on the floor because no
      delay item could be allocated. */
  datatype Kcbs = Kcbs(
    kcbs: map<Id, Kcb>,
    table: map<nat, seq<Id>>,
    lru: seq<Id>,
    elements: nat,
    deferred: seq<Id>,
    closeArmed: bool,
    derefArmed: bool,
    holders: multiset<Id>,
    lost: multiset<Id>)

  const DELAYED_CLOSE_SIZE: nat := 2048
  const MAX_REFERENCES: nat := 0xFFFF
  const MAX_LEVELS: nat := 512
  const HCELL_NIL: nat := 0xFFFF_FFFF

  function ChildrenOf(kcbs: map<Id, Kcb>, k: Id): set<Id> {
    set c | c in kcbs && kcbs[c].parent == Some(k)
  }

  /** Where the references of a key control block come from: holders, live children, queued dereferences, lost
      references, and those an operation under way still has to give back. */
  function References(s: Kcbs, pending: multiset<Id>, k: Id): nat {
    s.holders[k] + |ChildrenOf(s.kcbs, k)| + multiset(s.deferred)[k] + s.lost[k] + pending[k]
  }

  ghost predicate KcbOk(s: Kcbs, pending: multiset<Id>, k: Id) {
    && multiset(s.lru)[k] == One(k in s.kcbs && s.kcbs[k].delayed)
    && (k in s.kcbs ==>
          var kcb := s.kcbs[k];
          && kcb.refs == References(s, pending, k) && kcb.refs <= MAX_REFERENCES
          && (kcb.refs == 0 <==> kcb.delayed)
          && (kcb.delayed ==> !kcb.delete))
    && (k !in s.kcbs ==> References(s, pending, k) == 0)
  }

  /** The tree: parents are live and one level up. */
  ghost predicate Rooted(s: Kcbs, k: Id) {
    k in s.kcbs ==>
      match s.kcbs[k].parent
      case None => s.kcbs[k].totalLevels == 1
      case Some(p) => p in s.kcbs && s.kcbs[k].totalLevels == s.kcbs[p].totalLevels + 1 < MAX_LEVELS
  }

  /** A block that is not deleted is once in the chain its key hashes to, and nowhere else. */
  ghost predicate Hashed(s: Kcbs, k: Id, index: nat) {
    multiset(Chain(s.table, index))[k] ==
      One(k in s.kcbs && !s.kcbs[k].delete && index == HashIndex(s.kcbs[k].key.convKey))
  }

  /** No key has two blocks. */
  ghost predicate OneBlock(s: Kcbs, k: Id, l: Id) {
    k in s.kcbs && l in s.kcbs && k != l && !s.kcbs[k].delete && !s.kcbs[l].delete ==> s.kcbs[k].key != s.kcbs[l].key
  }

  ghost predicate Inv(s: Kcbs, pending: multiset<Id>) {
    && (forall k :: KcbOk(s, pending, k))
    && (forall k :: Rooted(s, k))
    && (forall k, index :: Hashed(s, k, index))
    && (forall k, l :: OneBlock(s, k, l))
    && s.elements == |s.lru|
    && (|s.deferred| > 0 ==> s.derefArmed)
    && (s.elements > DELAYED_CLOSE_SIZE ==> s.closeArmed)
  }

  // ----- primitive changes

  function SetKcb(s: Kcbs, k: Id, kcb: Kcb): Kcbs {
    s.(kcbs := s.kcbs[k := kcb])
  }

  /** One reference less, when it is not the last. */
  function Decrement(s: Kcbs, k: Id): Kcbs
    requires k in s.kcbs && s.kcbs[k].refs > 0
  {
    SetKcb(s, k, s.kcbs[k].(refs := s.kcbs[k].refs - 1))
  }

  /** The last reference goes and the block enters the delayed-close list (CmpAddToDelayedClose). */
  function Delay(s: Kcbs, k: Id): Kcbs
    requires k in s.kcbs
  {
    SetKcb(s, k, s.kcbs[k].(refs := 0, delayed := true)).(
      lru := [k] + s.lru,
      elements := s.elements + 1,
      closeArmed := s.closeArmed || s.elements + 1 > DELAYED_CLOSE_SIZE)
  }

  /** The block leaves the hash table, if it is still there (CmpRemoveKeyControlBlock). */
  function Unhash(s: Kcbs, k: Id): Kcbs
    requires k in s.kcbs
  {
    var index := HashIndex(s.kcbs[k].key.convKey);
    s.(table := s.table[index := Remove(Chain(s.table, index), k)])
  }

  /** The block is freed (CmpCleanUpKcbCacheWithLock up to the parent). */
  function Erase(s: Kcbs, k: Id): Kcbs
    requires k in s.kcbs
  {
    var t := if s.kcbs[k].delete then s else Unhash(s, k);
    t.(kcbs := s.kcbs - {k})
  }

  /** A delayed block is freed: it also leaves the delayed-close list. */
  function EraseDelayed(s: Kcbs, k: Id): Kcbs
    requires k in s.kcbs && s.elements > 0
  {
    Erase(s, k).(lru := Remove(s.lru, k), elements := s.elements - 1)
  }

  /** CmDeleteKey: the block is marked, leaves the hash table and forgets its cell. */
  function MarkDeleted(s: Kcbs, k: Id): Kcbs
    requires k in s.kcbs
  {
    Unhash(s, k).(kcbs := s.kcbs[k := s.kcbs[k].(delete := true, key := s.kcbs[k].key.(cell := HCELL_NIL))])
  }

  /** A new block goes to the front of its chain (CmpInsertKeyHash). */
  function Enter(s: Kcbs, k: Id, kcb: Kcb): Kcbs {
    var index := HashIndex(kcb.key.convKey);
    s.(kcbs := s.kcbs[k := kcb], table := s.table[index := [k] + Chain(s.table, index)])
  }

  /** One reference more; a delayed block is taken off the delayed-close list. */
  function Increment(s: Kcbs, k: Id): Kcbs
    requires k in s.kcbs && (s.kcbs[k].delayed ==> s.elements > 0)
  {
    var kcb := s.kcbs[k];
    var t := SetKcb(s, k, kcb.(refs := kcb.refs + 1, delayed := false));
    if kcb.delayed then t.(lru := Remove(s.lru, k), elements := s.elements - 1) else t
  }

  /** The pending reference waits in the queue of deferred dereferences. */
  function Defer(s: Kcbs, k: Id): Kcbs {
    s.(deferred := s.deferred + [k], derefArmed := true)
  }

  // ----- they keep the invariant

  function ParentSet(parent: Option<Id>): multiset<Id> {
    if parent.Some? then multiset{parent.value} else multiset{}
  }

  lemma SameChildren(kcbs: map<Id, Kcb>, k: Id, kcb: Kcb, p: Id)
    requires k in kcbs && kcb.parent == kcbs[k].parent
    ensures ChildrenOf(kcbs[k := kcb], p) == ChildrenOf(kcbs, p)
  {
  }

  lemma FewerChildren(kcbs: map<Id, Kcb>, k: Id, p: Id)
    requires k in kcbs
    ensures |ChildrenOf(kcbs - {k}, p)| + One(kcbs[k].parent == Some(p)) == |ChildrenOf(kcbs, p)|
  {
    var rest := ChildrenOf(kcbs - {k}, p);
    if kcbs[k].parent == Some(p) {
      assert ChildrenOf(kcbs, p) == rest + {k};
    } else {
      assert ChildrenOf(kcbs, p) == rest;
    }
  }

  lemma MoreChildren(kcbs: map<Id, Kcb>, k: Id, kcb: Kcb, p: Id)
    requires k !in kcbs
    ensures |ChildrenOf(kcbs[k := kcb], p)| == |ChildrenOf(kcbs, p)| + One(kcb.parent == Some(p))
  {
    var more := ChildrenOf(kcbs[k := kcb], p);
    if kcb.parent == Some(p) {
      assert more == ChildrenOf(kcbs, p) + {k};
    } else {
      assert more == ChildrenOf(kcbs, p);
    }
  }

  lemma DecrementKeeps(s: Kcbs, pending: multiset<Id>, k: Id)
    requires Inv(s, pending) && k in pending && k in s.kcbs && s.kcbs[k].refs > 1
    ensures Inv(Decrement(s, k), pending - multiset{k})
  {
    var t := Decrement(s, k);
    forall l
      ensures KcbOk(t, pending - multiset{k}, l)
    {
      SameChildren(s.kcbs, k, t.kcbs[k], l);
      assert KcbOk(s, pending, l);
    }
    SameShape(s, t, k);
  }

  /** Changes of one block that leave its key, parent and level alone. */
  lemma SameShape(s: Kcbs, t: Kcbs, k: Id)
    requires k in s.kcbs && k in t.kcbs && t.kcbs == s.kcbs[k := t.kcbs[k]] && t.table == s.table
    requires t.kcbs[k].key == s.kcbs[k].key && t.kcbs[k].parent == s.kcbs[k].parent
    requires t.kcbs[k].totalLevels == s.kcbs[k].totalLevels && t.kcbs[k].delete == s.kcbs[k].delete
    requires (forall l :: Rooted(s, l)) && (forall l, index :: Hashed(s, l, index))
    requires (forall l, m :: OneBlock(s, l, m))
    ensures (forall l :: Rooted(t, l)) && (forall l, index :: Hashed(t, l, index)) && (forall l, m :: OneBlock(t, l, m))
  {
    forall l
      ensures Rooted(t, l)
    {
      assert Rooted(s, l);
    }
    forall l, index
      ensures Hashed(t, l, index)
    {
      assert Hashed(s, l, index);
    }
    forall l, m
      ensures OneBlock(t, l, m)
    {
      assert OneBlock(s, l, m);
    }
  }

  lemma DelayKeeps(s: Kcbs, pending: multiset<Id>, k: Id)
    requires Inv(s, pending) && k in pending && k in s.kcbs && s.kcbs[k].refs == 1 && !s.kcbs[k].delete
    ensures Inv(Delay(s, k), pending - multiset{k})
  {
    var t := Delay(s, k);
    assert KcbOk(s, pending, k);
    forall l
      ensures KcbOk(t, pending - multiset{k}, l)
    {
      SameChildren(s.kcbs, k, t.kcbs[k], l);
      assert KcbOk(s, pending, l);
    }
    SameShape(s, t, k);
  }

  lemma IncrementKeeps(s: Kcbs, pending: multiset<Id>, k: Id)
    requires Inv(s, pending) && k in s.kcbs && s.kcbs[k].refs < MAX_REFERENCES
    ensures s.kcbs[k].delayed ==> s.elements > 0
    ensures Inv(Increment(s, k), pending + multiset{k})
  {
    assert KcbOk(s, pending, k);
    assert s.kcbs[k].delayed ==> k in multiset(s.lru);
    var t := Increment(s, k);
    RemoveCounts(s.lru, k, k);
    forall l
      ensures KcbOk(t, pending + multiset{k}, l)
    {
      assert KcbOk(s, pending, l);
      IncrementCounts(s, pending, k, l);
    }
    SameShape(s, t, k);
  }

  lemma IncrementCounts(s: Kcbs, pending: multiset<Id>, k: Id, l: Id)
    requires KcbOk(s, pending, k) && KcbOk(s, pending, l) && k in s.kcbs && s.kcbs[k].refs < MAX_REFERENCES
    requires s.kcbs[k].delayed ==> s.elements > 0
    ensures KcbOk(Increment(s, k), pending + multiset{k}, l)
  {
    SameChildren(s.kcbs, k, Increment(s, k).kcbs[k], l);
    RemoveCounts(s.lru, k, l);
  }

  lemma DeferKeeps(s: Kcbs, pending: multiset<Id>, k: Id)
    requires Inv(s, pending) && k in pending
    ensures Inv(Defer(s, k), pending - multiset{k})
  {
    Moved(s, Defer(s, k), pending, pending - multiset{k});
  }

  /** References that only change their owner. */
  lemma Moved(s: Kcbs, t: Kcbs, pending: multiset<Id>, pending': multiset<Id>)
    requires Inv(s, pending) && t.kcbs == s.kcbs && t.table == s.table && t.lru == s.lru && t.elements == s.elements
    requires t.closeArmed == s.closeArmed && (|t.deferred| > 0 ==> t.derefArmed)
    requires forall k :: References(t, pending', k) == References(s, pending, k)
    ensures Inv(t, pending')
  {
    forall l
      ensures KcbOk(t, pending', l)
    {
      assert KcbOk(s, pending, l);
    }
    forall l
      ensures Rooted(t, l)
    {
      assert Rooted(s, l);
    }
    forall l, index
      ensures Hashed(t, l, index)
    {
      assert Hashed(s, l, index);
    }
    forall l, m
      ensures OneBlock(t, l, m)
    {
      assert OneBlock(s, l, m);
    }
  }

  /** A block without other references than the one given back can be freed; its parent's reference is what is left to
      give back. */
  lemma EraseKeeps(s: Kcbs, pending: multiset<Id>, k: Id)
    requires Inv(s, pending) && k in pending && k in s.kcbs && s.kcbs[k].refs == 1
    ensures Inv(Erase(s, k), pending - multiset{k} + ParentSet(s.kcbs[k].parent))
  {
    var t, pending' := Erase(s, k), pending - multiset{k} + ParentSet(s.kcbs[k].parent);
    assert KcbOk(s, pending, k) && !s.kcbs[k].delayed;
    forall l
      ensures KcbOk(t, pending', l)
    {
      FewerChildren(s.kcbs, k, l);
      assert KcbOk(s, pending, l);
      assert Rooted(s, k);
    }
    EraseShape(s, t, k);
  }

  lemma EraseDelayedKeeps(s: Kcbs, pending: multiset<Id>, k: Id)
    requires Inv(s, pending) && k in s.kcbs && s.kcbs[k].delayed
    ensures s.elements > 0 && Inv(EraseDelayed(s, k), pending + ParentSet(s.kcbs[k].parent))
  {
    assert KcbOk(s, pending, k) && k in multiset(s.lru);
    RemoveCounts(s.lru, k, k);
    var t, pending' := EraseDelayed(s, k), pending + ParentSet(s.kcbs[k].parent);
    forall l
      ensures KcbOk(t, pending', l)
    {
      FewerChildren(s.kcbs, k, l);
      RemoveCounts(s.lru, k, l);
      assert KcbOk(s, pending, l);
      assert Rooted(s, k);
    }
    EraseShape(s, t, k);
  }

  lemma EraseShape(s: Kcbs, t: Kcbs, k: Id)
    requires k in s.kcbs && t.kcbs == s.kcbs - {k} && t.table == Erase(s, k).table && ChildrenOf(s.kcbs, k) == {}
    requires (forall l :: Rooted(s, l)) && (forall l, index :: Hashed(s, l, index))
    requires (forall l, m :: OneBlock(s, l, m))
    ensures (forall l :: Rooted(t, l)) && (forall l, index :: Hashed(t, l, index)) && (forall l, m :: OneBlock(t, l, m))
  {
    forall l
      ensures Rooted(t, l)
    {
      assert Rooted(s, l);
      assert l in s.kcbs && s.kcbs[l].parent == Some(k) ==> l in ChildrenOf(s.kcbs, k);
    }
    forall l, index
      ensures Hashed(t, l, index)
    {
      UnhashCounts(s, k, l, index);
    }
    forall l, m
      ensures OneBlock(t, l, m)
    {
      assert OneBlock(s, l, m);
    }
  }

  lemma UnhashCounts(s: Kcbs, k: Id, l: Id, index: nat)
    requires k in s.kcbs && (forall l, index :: Hashed(s, l, index))
    ensures multiset(Chain(Erase(s, k).table, index))[l] == if l == k then 0 else multiset(Chain(s.table, index))[l]
    ensures Hashed(s, l, index) && Hashed(s, k, index)
  {
    assert Hashed(s, l, index) && Hashed(s, k, index);
    var own := HashIndex(s.kcbs[k].key.convKey);
    assert Hashed(s, k, own);
    assert !s.kcbs[k].delete ==> k in multiset(Chain(s.table, own));
    RemoveCounts(Chain(s.table, own), k, l);
  }

  lemma MarkDeletedKeeps(s: Kcbs, pending: multiset<Id>, k: Id)
    requires Inv(s, pending) && k in s.kcbs && !s.kcbs[k].delete && s.kcbs[k].refs > 0
    ensures Inv(MarkDeleted(s, k), pending)
  {
    var t := MarkDeleted(s, k);
    forall l
      ensures KcbOk(t, pending, l)
    {
      SameChildren(s.kcbs, k, t.kcbs[k], l);
      assert KcbOk(s, pending, l);
    }
    forall l
      ensures Rooted(t, l)
    {
      assert Rooted(s, l);
    }
    forall l, index
      ensures Hashed(t, l, index)
    {
      UnhashCounts(s, k, l, index);
      assert Chain(t.table, index) == Chain(Erase(s, k).table, index);
    }
    forall l, m
      ensures OneBlock(t, l, m)
    {
      assert OneBlock(s, l, m);
    }
  }

  /** A new block takes over the reference its parent was given for it, and comes with one of its own. */
  lemma EnterKeeps(s: Kcbs, pending: multiset<Id>, k: Id, kcb: Kcb)
    requires Inv(s, pending) && k !in s.kcbs && kcb.refs == 1 && !kcb.delete && !kcb.delayed
    requires kcb.parent.None? ==> kcb.totalLevels == 1
    requires kcb.parent.Some? ==>
      && kcb.parent.value in pending && kcb.parent.value in s.kcbs
      && kcb.totalLevels == s.kcbs[kcb.parent.value].totalLevels + 1 < MAX_LEVELS
    requires forall l :: l in s.kcbs && !s.kcbs[l].delete ==> s.kcbs[l].key != kcb.key
    ensures Inv(Enter(s, k, kcb), pending - ParentSet(kcb.parent) + multiset{k})
  {
    forall l
      ensures KcbOk(Enter(s, k, kcb), pending - ParentSet(kcb.parent) + multiset{k}, l)
    {
      EnterCounts(s, pending, k, kcb, l);
    }
    EnterShape(s, k, kcb);
  }

  lemma EnterCounts(s: Kcbs, pending: multiset<Id>, k: Id, kcb: Kcb, l: Id)
    requires KcbOk(s, pending, l) && k !in s.kcbs && kcb.refs == 1 && !kcb.delete && !kcb.delayed
    requires kcb.parent.Some? ==> kcb.parent.value in pending && kcb.parent.value in s.kcbs
    ensures KcbOk(Enter(s, k, kcb), pending - ParentSet(kcb.parent) + multiset{k}, l)
  {
    MoreChildren(s.kcbs, k, kcb, l);
  }

  lemma EnterShape(s: Kcbs, k: Id, kcb: Kcb)
    requires (forall l :: Rooted(s, l)) && (forall l, index :: Hashed(s, l, index))
    requires (forall l, m :: OneBlock(s, l, m))
    requires k !in s.kcbs && !kcb.delete && (kcb.parent.None? ==> kcb.totalLevels == 1)
    requires kcb.parent.Some? ==>
      kcb.parent.value in s.kcbs && kcb.totalLevels == s.kcbs[kcb.parent.value].totalLevels + 1 < MAX_LEVELS
    requires forall l :: l in s.kcbs && !s.kcbs[l].delete ==> s.kcbs[l].key != kcb.key
    ensures var t := Enter(s, k, kcb);
      (forall l :: Rooted(t, l)) && (forall l, index :: Hashed(t, l, index)) && (forall l, m :: OneBlock(t, l, m))
  {
    var t := Enter(s, k, kcb);
    forall l
      ensures Rooted(t, l)
    {
      assert Rooted(s, l);
    }
    forall l, index
      ensures Hashed(t, l, index)
    {
      assert Hashed(s, l, index);
    }
    forall l, m
      ensures OneBlock(t, l, m)
    {
      assert OneBlock(s, l, m);
    }
  }
}
