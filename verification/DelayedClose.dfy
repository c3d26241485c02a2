/** The delayed-close list of ntoskrnl/config/cmdelay.c with references that have to convert their lock,
    ntoskrnl/config/cmkcbncb.c, as interleaved steps over the tree of key control blocks. A reference to an unused block
    that holds the lock shared and cannot convert it claims the block, drops the lock, and goes on once it has the lock
    exclusively; every other thread, and the workers, may run in between. A block that is freed leaves the reference to
    its parent to be given back, at once or by the dereference worker, which are later steps here. Keys and the hash
    table are left out. */
module DelayedClose {
  import opened Lists
  import opened Options
  import KcbState

  type Id = nat

  /** DelayedCloseIndex: the table size for a block that is not listed, zero for a listed one, and one for a listed
      block that somebody has claimed. */
  datatype Index = Off | Listed | Claimed

  datatype Kcb = Kcb(parent: Option<Id>, refs: nat, index: Index)

  /** users counts the references held, converting those of threads that wait for the exclusive lock, owed those of
      freed children that are still to be given back, and lost those for which no delay item could be allocated. */
  datatype Blocks = Blocks(
    kcbs: map<Id, Kcb>,
    lru: seq<Id>,
    elements: nat,
    users: multiset<Id>,
    converting: multiset<Id>,
    owed: multiset<Id>,
    lost: multiset<Id>)

  datatype Event =
    | Create(kcb: Id, parent: Option<Id>)
    | Reference(kcb: Id)
    | Claim(kcb: Id)
    | Converted(kcb: Id)
    | Dereference(kcb: Id, direct: bool)
    | GiveBack(kcb: Id, direct: bool)
    | Lose(kcb: Id)
    | CloseTail
    | Evict(kcb: Id)

  const MAX_REFERENCES := KcbState.MAX_REFERENCES
  const SIZE := KcbState.DELAYED_CLOSE_SIZE

  /** A new block takes over a reference to its parent. A block can be claimed by every thread that saw it unused and
      has held the lock shared since, so until nobody has converted. Evictions have the whole registry locked, so that
      no thread is inside a reference. */
  predicate Enabled(s: Blocks, e: Event) {
    match e
    case Create(k, parent) => k !in s.kcbs && (parent.Some? ==> parent.value in s.kcbs && parent.value in s.users)
    case Reference(k) => k in s.kcbs
    case Claim(k) => k in s.kcbs && s.kcbs[k].index != Off && s.kcbs[k].refs < MAX_REFERENCES
    case Converted(k) => k in s.kcbs && k in s.converting && s.kcbs[k].refs > 0
    case Dereference(k, _) => k in s.kcbs && k in s.users && s.kcbs[k].refs > 0
    case GiveBack(k, _) => k in s.kcbs && k in s.owed && s.kcbs[k].refs > 0
    case Lose(k) => k in s.owed
    case CloseTail => s.elements > SIZE && s.lru != [] && s.lru[|s.lru| - 1] in s.kcbs
    case Evict(k) => k in s.kcbs && s.kcbs[k].refs == 0 && s.converting == multiset{}
  }

  function SetKcb(s: Blocks, k: Id, kcb: Kcb): Blocks {
    s.(kcbs := s.kcbs[k := kcb])
  }

  /** The block becomes kcb, and if its index says that it is listed, CmpRemoveFromDelayedClose takes it off the
      list. */
  function Settle(s: Blocks, k: Id, kcb: Kcb): Blocks {
    if kcb.index == Listed then
      var left := if s.elements > 0 then s.elements - 1 else 0;
      SetKcb(s, k, kcb.(index := Off)).(lru := Remove(s.lru, k), elements := left)
    else SetKcb(s, k, kcb)
  }

  function ParentSet(parent: Option<Id>): multiset<Id> {
    if parent.Some? then multiset{parent.value} else multiset{}
  }

  /** CmpCleanUpKcbCacheWithLock: the block goes, and its reference to the parent is owed. */
  function Free(s: Blocks, k: Id): Blocks
    requires k in s.kcbs
  {
    s.(kcbs := s.kcbs - {k}, owed := s.owed + ParentSet(s.kcbs[k].parent))
  }

  /** CmpReferenceKeyControlBlock with the lock held exclusively, or for a block in use. */
  function Refer(s: Blocks, k: Id): Blocks
    requires k in s.kcbs
  {
    var kcb := s.kcbs[k];
    if kcb.refs < MAX_REFERENCES then Settle(s.(users := s.users + multiset{k}), k, kcb.(refs := kcb.refs + 1)) else s
  }

  /** The same after the lock was dropped: the count is lowered, the claim is given up unless another thread has taken
      the block off the list, and the count is raised again. */
  function Finish(s: Blocks, k: Id): Blocks
    requires k in s.kcbs && s.kcbs[k].refs > 0
  {
    var kcb := s.kcbs[k];
    var index := if kcb.index == Claimed then Listed else kcb.index;
    var t := s.(converting := s.converting - multiset{k});
    if kcb.refs - 1 < MAX_REFERENCES then Settle(t.(users := t.users + multiset{k}), k, kcb.(index := index))
    else SetKcb(t, k, kcb.(refs := kcb.refs - 1, index := index))
  }

  /** One reference less on the block; direct says whether a block that is not used any more is cleaned up at once. */
  function Drop(s: Blocks, k: Id, direct: bool): Blocks
    requires k in s.kcbs && s.kcbs[k].refs > 0
  {
    var kcb := s.kcbs[k];
    if kcb.refs > 1 then SetKcb(s, k, kcb.(refs := kcb.refs - 1))
    else if direct then Free(s, k)
    else SetKcb(s, k, kcb.(refs := 0, index := Listed)).(lru := [k] + s.lru, elements := s.elements + 1)
  }

  /** The test of the close worker: the entry goes back to the front of the list. */
  predicate PutBack(kcb: Kcb) {
    kcb.refs > 0 || kcb.index != Listed
  }

  /** One turn of CmpDelayCloseWorker. */
  function CloseOldest(s: Blocks): Blocks
    requires s.lru != [] && s.lru[|s.lru| - 1] in s.kcbs
  {
    var n := |s.lru| - 1;
    var k := s.lru[n];
    if PutBack(s.kcbs[k]) then s.(lru := [k] + s.lru[..n])
    else Free(s, k).(lru := s.lru[..n], elements := if s.elements > 0 then s.elements - 1 else 0)
  }

  function Step(s: Blocks, e: Event): Blocks
    requires Enabled(s, e)
  {
    match e
    case Create(k, parent) => SetKcb(s, k, Kcb(parent, 1, Off)).(users := s.users - ParentSet(parent) + multiset{k})
    case Reference(k) => Refer(s, k)
    case Claim(k) =>
      var kcb := s.kcbs[k];
      SetKcb(s, k, kcb.(refs := kcb.refs + 1, index := Claimed)).(converting := s.converting + multiset{k})
    case Converted(k) => Finish(s, k)
    case Dereference(k, direct) => Drop(s.(users := s.users - multiset{k}), k, direct)
    case GiveBack(k, direct) => Drop(s.(owed := s.owed - multiset{k}), k, direct)
    case Lose(k) => s.(owed := s.owed - multiset{k}, lost := s.lost + multiset{k})
    case CloseTail => CloseOldest(s)
    case Evict(k) => Free(Settle(s, k, s.kcbs[k]), k)
  }

  // ----- the invariant

  function ChildrenOf(kcbs: map<Id, Kcb>, k: Id): set<Id> {
    set c | c in kcbs && kcbs[c].parent == Some(k)
  }

  /** All references to a block. */
  function References(s: Blocks, k: Id): nat {
    s.users[k] + s.converting[k] + |ChildrenOf(s.kcbs, k)| + s.owed[k] + s.lost[k]
  }

  /** The count is that of users, converting threads, children, and references owed or lost; a block is listed while it
      is unused or claimed; and whoever has claimed a listed block is still waiting. */
  ghost predicate KcbOk(s: Blocks, k: Id) {
    if k in s.kcbs then
      var kcb := s.kcbs[k];
      && kcb.refs == References(s, k) && kcb.refs <= MAX_REFERENCES
      && multiset(s.lru)[k] == One(kcb.index != Off)
      && (kcb.refs == 0 <==> kcb.index == Listed)
      && (kcb.index == Claimed ==> s.converting[k] > 0)
    else
      References(s, k) == 0 && multiset(s.lru)[k] == 0
  }

  ghost predicate Inv(s: Blocks) {
    s.elements == |s.lru| && forall k :: KcbOk(s, k)
  }

  lemma SettleCounts(s: Blocks, k: Id, kcb: Kcb, l: Id)
    requires s.elements == |s.lru| && multiset(s.lru)[k] == One(kcb.index != Off)
    ensures var t := Settle(s, k, kcb);
      && t.elements == |t.lru| && multiset(t.lru)[l] == multiset(s.lru)[l] - One(l == k && kcb.index == Listed)
  {
    RemoveCounts(s.lru, k, l);
    RemoveCounts(s.lru, k, k);
    assert k in s.lru <==> k in multiset(s.lru);
  }

  lemma SameChildren(kcbs: map<Id, Kcb>, k: Id, kcb: Kcb, l: Id)
    requires k in kcbs && kcb.parent == kcbs[k].parent
    ensures ChildrenOf(kcbs[k := kcb], l) == ChildrenOf(kcbs, l)
  {
  }

  lemma MoreChildren(kcbs: map<Id, Kcb>, k: Id, kcb: Kcb, l: Id)
    requires k !in kcbs
    ensures |ChildrenOf(kcbs[k := kcb], l)| == |ChildrenOf(kcbs, l)| + One(kcb.parent == Some(l))
  {
    assert ChildrenOf(kcbs[k := kcb], l) ==
      if kcb.parent == Some(l) then ChildrenOf(kcbs, l) + {k} else ChildrenOf(kcbs, l);
  }

  lemma FewerChildren(kcbs: map<Id, Kcb>, k: Id, l: Id)
    requires k in kcbs
    ensures |ChildrenOf(kcbs, l)| == |ChildrenOf(kcbs - {k}, l)| + One(kcbs[k].parent == Some(l))
  {
    assert (kcbs - {k})[k := kcbs[k]] == kcbs;
    MoreChildren(kcbs - {k}, k, kcbs[k], l);
  }

  lemma ReferKeeps(s: Blocks, k: Id)
    requires Inv(s) && k in s.kcbs
    ensures Inv(Refer(s, k))
  {
    assert KcbOk(s, k);
    var kcb := s.kcbs[k];
    if kcb.refs < MAX_REFERENCES {
      forall l
        ensures KcbOk(Refer(s, k), l)
      {
        assert KcbOk(s, l);
        SettleCounts(s.(users := s.users + multiset{k}), k, kcb.(refs := kcb.refs + 1), l);
        SameChildren(s.kcbs, k, Refer(s, k).kcbs[k], l);
      }
      SettleCounts(s.(users := s.users + multiset{k}), k, kcb.(refs := kcb.refs + 1), k);
    }
  }

  /** What a thread that has converted leaves behind. */
  lemma FinishAs(s: Blocks, k: Id)
    requires Inv(s) && k in s.converting
    ensures k in s.kcbs && s.kcbs[k].refs > 0
    ensures var t := Finish(s, k);
      && t == s.(kcbs := t.kcbs, lru := t.lru, elements := |t.lru|, users := t.users, converting := t.converting)
      && t.kcbs == s.kcbs[k := s.kcbs[k].(index := Off)]
      && t.users == s.users + multiset{k} && t.converting == s.converting - multiset{k}
      && t.lru == if s.kcbs[k].index == Claimed then Remove(s.lru, k) else s.lru
  {
    assert KcbOk(s, k);
    RemoveCounts(s.lru, k, k);
    assert k in s.lru <==> k in multiset(s.lru);
  }

  /** A thread that has converted never finds the count full, and the block leaves the list if it was still on it. */
  lemma FinishKeeps(s: Blocks, k: Id)
    requires Inv(s) && k in s.converting
    ensures k in s.kcbs && s.kcbs[k].refs > 0 && Inv(Finish(s, k))
    ensures Finish(s, k).kcbs[k] == s.kcbs[k].(index := Off) && Finish(s, k).users == s.users + multiset{k}
  {
    FinishAs(s, k);
    assert KcbOk(s, k);
    forall l
      ensures KcbOk(Finish(s, k), l)
    {
      FinishOk(s, Finish(s, k), k, l);
    }
  }

  lemma FinishOk(s: Blocks, t: Blocks, k: Id, l: Id)
    requires KcbOk(s, k) && KcbOk(s, l) && k in s.kcbs && k in s.converting
    requires t.kcbs == s.kcbs[k := s.kcbs[k].(index := Off)] && t.owed == s.owed && t.lost == s.lost
    requires t.users == s.users + multiset{k} && t.converting == s.converting - multiset{k}
    requires t.lru == if s.kcbs[k].index == Claimed then Remove(s.lru, k) else s.lru
    ensures KcbOk(t, l)
  {
    RemoveCounts(s.lru, k, l);
    assert k in s.lru <==> k in multiset(s.lru);
    SameChildren(s.kcbs, k, t.kcbs[k], l);
  }

  /** One reference of those that are counted is dropped. */
  lemma DropKeeps(s: Blocks, t: Blocks, k: Id, direct: bool)
    requires Inv(s) && k in s.kcbs && t == s.(users := t.users, owed := t.owed)
    requires forall l :: References(s, l) == References(t, l) + One(l == k)
    ensures t.kcbs[k].refs > 0 && Inv(Drop(t, k, direct))
    ensures s.kcbs[k].refs == 1 ==> s.kcbs[k].index == Off
  {
    assert KcbOk(s, k);
    forall l
      ensures KcbOk(Drop(t, k, direct), l)
    {
      assert References(s, l) == References(t, l) + One(l == k);
      DropOk(s, t, k, direct, l);
    }
  }

  lemma DropOk(s: Blocks, t: Blocks, k: Id, direct: bool, l: Id)
    requires KcbOk(s, k) && KcbOk(s, l) && k in s.kcbs && s.kcbs[k].refs > 0
    requires t == s.(users := t.users, owed := t.owed)
    requires References(s, l) == References(t, l) + One(l == k)
    ensures KcbOk(Drop(t, k, direct), l)
  {
    var kcb := s.kcbs[k];
    FewerChildren(s.kcbs, k, l);
    SameChildren(s.kcbs, k, kcb.(refs := kcb.refs - 1), l);
    SameChildren(s.kcbs, k, kcb.(refs := 0, index := Listed), l);
  }

  lemma FreeOk(s: Blocks, k: Id, l: Id)
    requires KcbOk(s, k) && KcbOk(s, l) && k in s.kcbs && s.kcbs[k].refs == 0
    ensures References(Free(s, k), l) == References(s, l)
  {
    FewerChildren(s.kcbs, k, l);
  }

  lemma CloseKeeps(s: Blocks)
    requires Inv(s) && s.lru != []
    ensures s.lru[|s.lru| - 1] in s.kcbs && Inv(CloseOldest(s))
    ensures PutBack(s.kcbs[s.lru[|s.lru| - 1]]) <==> s.lru[|s.lru| - 1] in s.converting
  {
    var n := |s.lru| - 1;
    var k := s.lru[n];
    assert s.lru == s.lru[..n] + [k];
    assert k in multiset(s.lru);
    assert KcbOk(s, k);
    var t := CloseOldest(s);
    forall l
      ensures KcbOk(t, l)
    {
      assert KcbOk(s, l);
      if !PutBack(s.kcbs[k]) {
        FreeOk(s, k, l);
      }
      assert multiset(s.lru)[l] == multiset(s.lru[..n])[l] + multiset([k])[l];
      assert multiset([k] + s.lru[..n])[l] == multiset([k])[l] + multiset(s.lru[..n])[l];
    }
  }

  lemma EvictKeeps(s: Blocks, k: Id)
    requires Inv(s) && Enabled(s, Evict(k))
    ensures Inv(Step(s, Evict(k)))
  {
    var t := Step(s, Evict(k));
    assert KcbOk(s, k);
    forall l
      ensures KcbOk(t, l)
    {
      assert KcbOk(s, l);
      SettleCounts(s, k, s.kcbs[k], l);
      SettleFree(s, k, l);
    }
    SettleCounts(s, k, s.kcbs[k], k);
  }

  lemma SettleFree(s: Blocks, k: Id, l: Id)
    requires KcbOk(s, k) && KcbOk(s, l) && k in s.kcbs && s.kcbs[k].refs == 0
    ensures References(Free(Settle(s, k, s.kcbs[k]), k), l) == References(s, l)
  {
    var t := Settle(s, k, s.kcbs[k]);
    assert t.kcbs - {k} == s.kcbs - {k};
    FreeOk(s, k, l);
  }

  lemma CreateKeeps(s: Blocks, k: Id, parent: Option<Id>)
    requires Inv(s) && Enabled(s, Create(k, parent))
    ensures Inv(Step(s, Create(k, parent)))
  {
    var t := Step(s, Create(k, parent));
    assert KcbOk(s, k);
    forall l
      ensures KcbOk(t, l)
    {
      assert KcbOk(s, l);
      MoreChildren(s.kcbs, k, Kcb(parent, 1, Off), l);
    }
  }

  lemma ClaimKeeps(s: Blocks, k: Id)
    requires Inv(s) && Enabled(s, Claim(k))
    ensures Inv(Step(s, Claim(k)))
  {
    var t := Step(s, Claim(k));
    assert KcbOk(s, k);
    forall l
      ensures KcbOk(t, l)
    {
      assert KcbOk(s, l);
      SameChildren(s.kcbs, k, t.kcbs[k], l);
    }
  }

  lemma LoseKeeps(s: Blocks, k: Id)
    requires Inv(s) && Enabled(s, Lose(k))
    ensures Inv(Step(s, Lose(k)))
  {
    forall l
      ensures KcbOk(Step(s, Lose(k)), l)
    {
      assert KcbOk(s, l);
    }
  }

  lemma StepKeeps(s: Blocks, e: Event)
    requires Inv(s) && Enabled(s, e)
    ensures Inv(Step(s, e))
  {
    match e
    case Create(k, parent) => CreateKeeps(s, k, parent);
    case Reference(k) => ReferKeeps(s, k);
    case Claim(k) => ClaimKeeps(s, k);
    case Converted(k) => FinishKeeps(s, k);
    case Dereference(k, direct) => DropKeeps(s, s.(users := s.users - multiset{k}), k, direct);
    case GiveBack(k, direct) => DropKeeps(s, s.(owed := s.owed - multiset{k}), k, direct);
    case Lose(k) => LoseKeeps(s, k);
    case CloseTail => CloseKeeps(s);
    case Evict(k) => EvictKeeps(s, k);
  }

  // ----- runs

  function Start(): Blocks {
    Blocks(map[], [], 0, multiset{}, multiset{}, multiset{}, multiset{})
  }

  /** Every run: any events in any order, those that are not enabled left out. */
  function After(es: seq<Event>): Blocks {
    if es == [] then Start()
    else
      var s, e := After(es[..|es| - 1]), es[|es| - 1];
      if Enabled(s, e) then Step(s, e) else s
  }

  lemma {:induction false} RunsKeep(es: seq<Event>)
    ensures Inv(After(es))
  {
    if es == [] {
      assert forall k :: ChildrenOf(map[], k) == {};
    } else {
      RunsKeep(es[..|es| - 1]);
      var s, e := After(es[..|es| - 1]), es[|es| - 1];
      if Enabled(s, e) {
        StepKeeps(s, e);
      }
    }
  }

  /** Reference conservation in every run, whoever converts a lock: a block's count is its users, the threads that
      convert for it, its live children, and the references owed and lost; its parent is there; and when nobody converts
      for it, it is unused exactly if it is on the list. Nothing refers to a block that was freed. */
  lemma CountedInEveryRun(es: seq<Event>, k: Id)
    ensures var s := After(es);
      && (k in s.kcbs ==>
            && s.kcbs[k].refs == References(s, k)
            && (s.kcbs[k].parent.Some? ==> s.kcbs[k].parent.value in s.kcbs)
            && (s.converting[k] == 0 ==> (s.kcbs[k].refs == 0 <==> k in s.lru)))
      && (k !in s.kcbs ==> References(s, k) == 0 && k !in s.lru)
  {
    RunsKeep(es);
    var s := After(es);
    assert KcbOk(s, k);
    assert k in s.lru <==> k in multiset(s.lru);
    if k in s.kcbs && s.kcbs[k].parent.Some? {
      var p := s.kcbs[k].parent.value;
      assert KcbOk(s, p) && k in ChildrenOf(s.kcbs, p);
    }
  }

  /** What the routines assert on the way holds in every run: a thread that has converted finds the block claimed or off
      the list, and a block whose last reference goes is off the list. */
  lemma AssertionsHold(es: seq<Event>, k: Id)
    ensures var s := After(es);
      && (k in s.converting ==> k in s.kcbs && s.kcbs[k].refs <= MAX_REFERENCES && s.kcbs[k].index != Listed)
      && (k in s.users && k in s.kcbs && s.kcbs[k].refs == 1 ==> s.kcbs[k].index == Off)
  {
    RunsKeep(es);
    assert KcbOk(After(es), k);
  }

  /** In every run the close worker puts the oldest entry back exactly when a thread is converting its lock to reference
      that block; otherwise it frees a block that nobody uses. */
  lemma PutBackExactly(es: seq<Event>)
    requires After(es).lru != []
    ensures var s := After(es);
      var k := s.lru[|s.lru| - 1];
      && k in s.kcbs && (PutBack(s.kcbs[k]) <==> k in s.converting)
      && (k in s.converting ==> k in CloseOldest(s).lru && CloseOldest(s).kcbs == s.kcbs)
      && (k !in s.converting ==> References(s, k) == 0 && CloseOldest(s).kcbs == s.kcbs - {k})
  {
    RunsKeep(es);
    var s := After(es);
    CloseKeeps(s);
    assert KcbOk(s, s.lru[|s.lru| - 1]);
  }

  // ----- who has what

  /** The last reference of the block goes. */
  predicate LastGoes(s: Blocks, e: Event, k: Id) {
    (e.Dereference? || e.GiveBack?) && e.kcb == k && k in s.kcbs && s.kcbs[k].refs == 1
  }

  /** The oldest entry of the list. */
  predicate Oldest(s: Blocks, k: Id) {
    s.lru != [] && s.lru[|s.lru| - 1] == k
  }

  /** The step frees the block: a last reference that calls for it, an eviction, or the close worker, which frees the
      oldest unless a thread converts its lock for it. */
  predicate Frees(s: Blocks, e: Event, k: Id) {
    || (LastGoes(s, e, k) && e.direct)
    || e == Evict(k)
    || (e == CloseTail && Oldest(s, k) && k !in s.converting)
  }

  /** The references that come and go with a step, for block k, and what becomes of the block. */
  ghost predicate Recorded(s: Blocks, t: Blocks, e: Event, k: Id) {
    && t.users[k] + One(e.Dereference? && e.kcb == k) + One(e.Create? && e.parent == Some(k)) ==
         s.users[k] + One((e.Create? || e == Converted(k)) && e.kcb == k)
         + One(e == Reference(k) && k in s.kcbs && s.kcbs[k].refs < MAX_REFERENCES)
    && t.converting[k] + One(e == Converted(k)) == s.converting[k] + One(e == Claim(k))
    && t.lost[k] == s.lost[k] + One(e == Lose(k))
    && (k in t.kcbs <==> (k in s.kcbs && !Frees(s, e, k)) || (e.Create? && e.kcb == k))
    && (k in s.kcbs && k in t.kcbs ==> t.kcbs[k].parent == s.kcbs[k].parent)
    && (e.Create? && e.kcb == k ==> t.kcbs[k].parent == e.parent)
  }

  /** The list is changed at its front and where a block leaves it, and nowhere else. */
  ghost predicate Relisted(s: Blocks, t: Blocks, e: Event) {
    match e
    case Dereference(k, direct) => t.lru == if LastGoes(s, e, k) && !direct then [k] + s.lru else s.lru
    case GiveBack(k, direct) => t.lru == if LastGoes(s, e, k) && !direct then [k] + s.lru else s.lru
    case Reference(k) => t.lru == if k in s.kcbs && s.kcbs[k].index == Listed then Remove(s.lru, k) else s.lru
    case Converted(k) => t.lru == Remove(s.lru, k)
    case Evict(k) => t.lru == Remove(s.lru, k)
    case CloseTail =>
      s.lru != [] && var k, rest := s.lru[|s.lru| - 1], s.lru[..|s.lru| - 1];
        t.lru == if k in s.converting then [k] + rest else rest
    case _ => t.lru == s.lru
  }

  lemma {:induction false} NothingThere(q: seq<Id>, k: Id)
    requires k !in q
    ensures Remove(q, k) == q
  {
    if q != [] {
      NothingThere(q[1..], k);
    }
  }

  lemma DereferenceRecords(s: Blocks, e: Event, k: Id)
    requires Enabled(s, e) && e.Dereference?
    ensures Recorded(s, Step(s, e), e, k) && Relisted(s, Step(s, e), e)
  {
  }

  lemma GiveBackRecords(s: Blocks, e: Event, k: Id)
    requires Enabled(s, e) && e.GiveBack?
    ensures Recorded(s, Step(s, e), e, k) && Relisted(s, Step(s, e), e)
  {
  }

  lemma FinishRecords(s: Blocks, l: Id, k: Id)
    requires Inv(s) && Enabled(s, Converted(l))
    ensures Recorded(s, Step(s, Converted(l)), Converted(l), k) && Relisted(s, Step(s, Converted(l)), Converted(l))
  {
    FinishAs(s, l);
    assert KcbOk(s, l) && (l in s.lru <==> l in multiset(s.lru));
    FinishedRecords(s, Step(s, Converted(l)), l, k);
  }

  lemma FinishedRecords(s: Blocks, t: Blocks, l: Id, k: Id)
    requires l in s.kcbs && l in s.converting && s.kcbs[l].index != Listed && (s.kcbs[l].index == Off ==> l !in s.lru)
    requires t.kcbs == s.kcbs[l := s.kcbs[l].(index := Off)] && t.lost == s.lost
    requires t.users == s.users + multiset{l} && t.converting == s.converting - multiset{l}
    requires t.lru == if s.kcbs[l].index == Claimed then Remove(s.lru, l) else s.lru
    ensures Recorded(s, t, Converted(l), k) && Relisted(s, t, Converted(l))
  {
    if s.kcbs[l].index == Off {
      NothingThere(s.lru, l);
    }
  }

  lemma ReferRecords(s: Blocks, l: Id, k: Id)
    requires Inv(s) && Enabled(s, Reference(l))
    ensures Recorded(s, Step(s, Reference(l)), Reference(l), k) && Relisted(s, Step(s, Reference(l)), Reference(l))
  {
    assert KcbOk(s, l);
  }

  lemma CloseRecords(s: Blocks, k: Id)
    requires Inv(s) && Enabled(s, CloseTail)
    ensures Recorded(s, Step(s, CloseTail), CloseTail, k) && Relisted(s, Step(s, CloseTail), CloseTail)
  {
    CloseKeeps(s);
  }

  lemma EvictRecords(s: Blocks, l: Id, k: Id)
    requires Inv(s) && Enabled(s, Evict(l))
    ensures Recorded(s, Step(s, Evict(l)), Evict(l), k) && Relisted(s, Step(s, Evict(l)), Evict(l))
  {
    assert KcbOk(s, l);
  }

  lemma CreateRecords(s: Blocks, e: Event, k: Id)
    requires Enabled(s, e) && e.Create?
    ensures Recorded(s, Step(s, e), e, k) && Relisted(s, Step(s, e), e)
  {
  }

  lemma ClaimRecords(s: Blocks, l: Id, k: Id)
    requires Enabled(s, Claim(l))
    ensures Recorded(s, Step(s, Claim(l)), Claim(l), k) && Relisted(s, Step(s, Claim(l)), Claim(l))
  {
  }

  lemma LoseRecords(s: Blocks, l: Id, k: Id)
    requires Enabled(s, Lose(l))
    ensures Recorded(s, Step(s, Lose(l)), Lose(l), k) && Relisted(s, Step(s, Lose(l)), Lose(l))
  {
  }

  /** In every run each event changes exactly these references, frees exactly these blocks and keeps the order of the
      list; what is owed then follows from the count of references. */
  lemma EveryRunRecords(es: seq<Event>, e: Event, k: Id)
    requires Enabled(After(es), e)
    ensures Recorded(After(es), After(es + [e]), e, k) && Relisted(After(es), After(es + [e]), e)
  {
    var s := After(es);
    RunsKeep(es);
    assert (es + [e])[..|es|] == es;
    match e
    case Dereference(_, _) => DereferenceRecords(s, e, k);
    case GiveBack(_, _) => GiveBackRecords(s, e, k);
    case Converted(l) => FinishRecords(s, l, k);
    case Reference(l) => ReferRecords(s, l, k);
    case CloseTail => CloseRecords(s, k);
    case Evict(l) => EvictRecords(s, l, k);
    case Create(_, _) => CreateRecords(s, e, k);
    case Claim(l) => ClaimRecords(s, l, k);
    case Lose(l) => LoseRecords(s, l, k);
  }

  // ----- the branch is taken

  ghost predicate Reaches(es: seq<Event>, s: Blocks) {
    After(es) == s
  }

  /** Some run leads to the state. */
  ghost predicate Reachable(s: Blocks) {
    exists es :: Reaches(es, s)
  }

  lemma ReachNext(s: Blocks, e: Event)
    requires Reachable(s) && Enabled(s, e)
    ensures Reachable(Step(s, e))
  {
    var es :| Reaches(es, s);
    assert (es + [e])[..|es|] == es;
    assert Reaches(es + [e], Step(s, e));
  }

  lemma OpenOne(s: Blocks, k: Id)
    requires k !in s.kcbs
    ensures Enabled(s, Create(k, None))
    ensures Step(s, Create(k, None)) == s.(kcbs := s.kcbs[k := Kcb(None, 1, Off)], users := s.users + multiset{k})
  {
    assert s.users - multiset{} == s.users;
  }

  lemma CloseOne(s: Blocks, u: Blocks, k: Id)
    requires k !in s.kcbs && u == s.(kcbs := s.kcbs[k := Kcb(None, 1, Off)], users := s.users + multiset{k})
    ensures Enabled(u, Dereference(k, false))
    ensures Step(u, Dereference(k, false)) ==
      s.(kcbs := s.kcbs[k := Kcb(None, 0, Listed)], lru := [k] + s.lru, elements := s.elements + 1)
  {
    assert u.users - multiset{k} == s.users;
  }

  /** n blocks, opened and closed one after the other. */
  function FilledState(n: nat): Blocks {
    if n == 0 then Start()
    else
      var s := FilledState(n - 1);
      s.(kcbs := s.kcbs[n - 1 := Kcb(None, 0, Listed)], lru := [n - 1] + s.lru, elements := s.elements + 1)
  }

  /** They are all unused and listed, block 0 the oldest. */
  ghost predicate FilledTo(s: Blocks, n: nat) {
    && s.elements == |s.lru| == n && (n > 0 ==> s.lru[n - 1] == 0)
    && (forall k :: k in s.kcbs <==> 0 <= k < n) && (forall k :: k in s.kcbs ==> s.kcbs[k] == Kcb(None, 0, Listed))
  }

  lemma {:induction false} FilledWell(n: nat)
    ensures FilledTo(FilledState(n), n)
  {
    if n > 0 {
      FilledWell(n - 1);
    }
  }

  lemma OneMoreFilled(n: nat, s: Blocks)
    requires Reachable(s) && s == FilledState(n) && FilledTo(s, n)
    ensures Reachable(FilledState(n + 1))
  {
    OpenOne(s, n);
    ReachNext(s, Create(n, None));
    var u := Step(s, Create(n, None));
    CloseOne(s, u, n);
    ReachNext(u, Dereference(n, false));
  }

  lemma {:induction false} Filled(n: nat)
    ensures Reachable(FilledState(n))
  {
    if n == 0 {
      assert Reaches([], FilledState(n));
    } else {
      Filled(n - 1);
      FilledWell(n - 1);
      OneMoreFilled(n - 1, FilledState(n - 1));
    }
  }

  lemma OldestClaimed(s: Blocks, n: nat)
    requires FilledTo(s, n) && n > SIZE
    ensures Enabled(s, Claim(0)) && var t := Step(s, Claim(0));
      Enabled(t, CloseTail) && PutBack(t.kcbs[t.lru[|t.lru| - 1]]) && Step(t, CloseTail).lru[0] == 0
  {
  }

  /** Too many blocks on the list, and a thread that converts its lock for the oldest: the worker puts it back. */
  lemma PutBackHappens(n: nat)
    requires n > SIZE
    ensures var s := FilledState(n);
      && Enabled(s, Claim(0)) && var t := Step(s, Claim(0));
         Reachable(t) && Enabled(t, CloseTail) && PutBack(t.kcbs[t.lru[|t.lru| - 1]])
  {
    Filled(n);
    FilledWell(n);
    OldestClaimed(FilledState(n), n);
    ReachNext(FilledState(n), Claim(0));
  }
}
