/** What the operations on key control blocks do to the blocks, field by field, ntoskrnl/config/cmkcbncb.c and
    ntoskrnl/config/cmapi.c. */
module KcbEffects {
  import opened HashChains
  import opened Lists
  import opened NameHash
  import opened Options
  import opened KcbState
  import opened KcbSteps

  /** The key's chain, with k in front of what was there; the other chains are as they were. */
  ghost predicate FirstInChain(s: Kcbs, t: Kcbs, k: Id, convKey: nat) {
    forall index :: Chain(t.table, index) ==
      if index == HashIndex(convKey) then [k] + Chain(s.table, index) else Chain(s.table, index)
  }

  /** k with one reference more: it is in use, and what waited with it on the delayed-close list keeps its order. */
  ghost predicate Referenced(s: Kcbs, t: Kcbs, k: Id) {
    && k in s.kcbs && k in t.kcbs
    && t.kcbs[k].refs == s.kcbs[k].refs + 1 && !t.kcbs[k].delayed
    && t.lru == (if s.kcbs[k].delayed then Remove(s.lru, k) else s.lru)
  }

  ghost predicate SameContent(a: Kcb, b: Kcb) {
    && a.key == b.key && a.parent == b.parent && a.totalLevels == b.totalLevels && a.delete == b.delete
    && a.symLink == b.symLink
  }

  ghost predicate SameFlags(a: Kcb, b: Kcb) {
    a.noDelayClose == b.noDelayClose && a.fake == b.fake
  }

  /** All blocks except k and l are as they were. */
  ghost predicate OthersSame(s: Kcbs, t: Kcbs, k: Id, l: Option<Id>) {
    forall m :: m != k && Some(m) != l ==> Untouched(s, t, m)
  }

  /** A block as it is made: used once, not deleted, and a level below its parent. */
  ghost predicate Fresh(b: Kcb, parent: Option<Id>, level: nat, symLink: bool, fake: bool, frozen: bool) {
    && b.parent == parent && b.totalLevels == level + 1 && b.refs == 1 && !b.delete && !b.delayed
    && b.symLink == symLink && b.fake == fake && (b.noDelayClose <==> frozen && !symLink)
  }

  ghost function LevelOf(s: Kcbs, parent: Option<Id>): nat {
    if parent.Some? then Level(s, parent.value) else 0
  }

  /** The new block k hangs below its parent, which has one reference more for it. */
  ghost predicate Made(s: Kcbs, t: Kcbs, key: Key, parent: Option<Id>, symLink: bool, fake: bool, frozen: bool, k: Id) {
    && t.kcbs.Keys == s.kcbs.Keys + {k} && t.kcbs[k].key == key
    && Fresh(t.kcbs[k], parent, LevelOf(s, parent), symLink, fake, frozen)
    && (parent.Some? ==> var p := parent.value;
          Referenced(s, t, p) && SameContent(s.kcbs[p], t.kcbs[p]) && SameFlags(s.kcbs[p], t.kcbs[p]))
    && OthersSame(s, t, k, parent) && FirstInChain(s, t, k, key.convKey)
    && (parent.None? ==> t.lru == s.lru) && t.deferred == s.deferred && t.lost == s.lost
  }

  /** The block f of an open or unused key is used once more; a fake key becomes real, a frozen hive is remembered. */
  ghost predicate UsedAgain(s: Kcbs, t: Kcbs, fake: bool, frozen: bool, f: Id) {
    && Referenced(s, t, f) && SameContent(s.kcbs[f], t.kcbs[f])
    && (t.kcbs[f].fake <==> s.kcbs[f].fake && fake)
    && (t.kcbs[f].noDelayClose <==>
          (frozen && !s.kcbs[f].symLink) || (s.kcbs[f].noDelayClose && (s.kcbs[f].fake ==> fake)))
    && OthersSame(s, t, f, None) && t.table == s.table && t.deferred == s.deferred && t.lost == s.lost
  }

  /** A reference taken changes the block's count and what follows from it. */
  ghost predicate TakenOnce(s: Kcbs, t: Kcbs, k: Id) {
    && Referenced(s, t, k) && SameContent(s.kcbs[k], t.kcbs[k]) && SameFlags(s.kcbs[k], t.kcbs[k])
    && OthersSame(s, t, k, None) && t.table == s.table && t.deferred == s.deferred && t.lost == s.lost
  }

  lemma IncrementUses(s: Kcbs, k: Id)
    requires CanReference(s, k) && (s.kcbs[k].delayed ==> s.elements > 0)
    ensures var t := Increment(s, k);
      && Referenced(s, t, k) && SameContent(s.kcbs[k], t.kcbs[k]) && SameFlags(s.kcbs[k], t.kcbs[k])
      && t.kcbs == s.kcbs[k := t.kcbs[k]] && t.table == s.table && t.deferred == s.deferred && t.lost == s.lost
  {
  }

  lemma TakeUses(s: Kcbs, k: Id)
    requires Inv(s, multiset{}) && CanReference(s, k)
    ensures TakenOnce(s, Take(s, k), k)
  {
    assert KcbOk(s, multiset{}, k) && (k in s.lru <==> k in multiset(s.lru));
    IncrementUses(s, k);
    assert Take(s, k) == Hold(Increment(s, k), k);
  }

  lemma OpenMakes(s: Kcbs, r: Request, k: Id)
    requires k !in s.kcbs
    ensures var t := Open(s, r, k);
      && t.kcbs == s.kcbs[k := t.kcbs[k]] && t.kcbs[k].key == r.key
      && Fresh(t.kcbs[k], r.parent, LevelOf(s, r.parent), r.symLink, r.fake, r.frozen)
      && FirstInChain(s, t, k, r.key.convKey) && t.lru == s.lru && t.deferred == s.deferred && t.lost == s.lost
  {
  }

  lemma MadeBelow(s: Kcbs, u: Kcbs, t: Kcbs, r: Request, k: Id)
    requires k !in s.kcbs && r.parent.Some? && r.parent.value in s.kcbs
    requires var p := r.parent.value;
      && Referenced(s, u, p) && SameContent(s.kcbs[p], u.kcbs[p]) && SameFlags(s.kcbs[p], u.kcbs[p])
      && u.kcbs == s.kcbs[p := u.kcbs[p]] && u.table == s.table && u.deferred == s.deferred && u.lost == s.lost
    requires k in t.kcbs && t.kcbs == u.kcbs[k := t.kcbs[k]] && t.kcbs[k].key == r.key
    requires Fresh(t.kcbs[k], r.parent, LevelOf(u, r.parent), r.symLink, r.fake, r.frozen)
    requires FirstInChain(u, t, k, r.key.convKey) && t.lru == u.lru && t.deferred == u.deferred && t.lost == u.lost
    ensures Made(s, t, r.key, r.parent, r.symLink, r.fake, r.frozen, k)
  {
  }

  /** Whatever is asked for, a new block is the one that was asked for. */
  lemma CreateMakes(s: Kcbs, r: Request, k: Id, hold: bool, shortage: Shortage)
    requires Inv(s, multiset{}) && k !in s.kcbs && (r.parent.Some? ==> r.parent.value in s.kcbs)
    requires Create(s, r, k, hold, shortage).1 == Opened(k)
    ensures Made(s, Create(s, r, k, hold, shortage).0, r.key, r.parent, r.symLink, r.fake, r.frozen, k)
  {
    var t := Create(s, r, k, hold, shortage).0;
    if r.parent.Some? {
      var p := r.parent.value;
      var u := Increment(s, p);
      IncrementUses(s, p);
      OpenMakes(u, r, k);
      assert t == Open(u, r, k);
      MadeBelow(s, u, t, r, k);
    } else {
      OpenMakes(s, r, k);
      assert t == Open(s, r, k);
    }
  }

  /** A key that has a block gets this block, used once more. */
  lemma CreateReuses(s: Kcbs, r: Request, k: Id, hold: bool, shortage: Shortage, f: Id)
    requires Inv(s, multiset{}) && k !in s.kcbs && (r.parent.Some? ==> r.parent.value in s.kcbs)
    requires f != k && Create(s, r, k, hold, shortage).1 == Opened(f)
    ensures Matches(s, r.key, f) && UsedAgain(s, Create(s, r, k, hold, shortage).0, r.fake, r.frozen, f)
  {
    var t := Create(s, r, k, hold, shortage).0;
    TakeUses(s, f);
    assert t == Refresh(Take(s, f), f, r.fake, r.frozen);
  }

  /** The reference to the parent is taken and given back when there is no memory for the name. */
  predicate NameMissing(s: Kcbs, r: Request) {
    CanStart(r) && !r.nameMemory && r.parent.Some? && RoomBelow(s, r.parent)
  }

  /** Either nothing has changed, or an unused parent of a key without a name was first among the unused ones again, or
      was freed like any block whose last reference goes. */
  ghost predicate NotOpened(s: Kcbs, t: Kcbs, r: Request, hold: bool, shortage: Shortage) {
    t == s || (NameMissing(s, r) && s.kcbs[r.parent.value].delayed && var p := r.parent.value;
      && (p in t.kcbs <==> !DirectDelete(s.kcbs[p], hold) && p !in shortage.items)
      && (p in t.kcbs ==> t.kcbs == s.kcbs && t.lru == [p] + Remove(s.lru, p)))
  }

  lemma CreateFails(s: Kcbs, r: Request, k: Id, hold: bool, shortage: Shortage)
    requires Inv(s, multiset{}) && k !in s.kcbs && (r.parent.Some? ==> r.parent.value in s.kcbs)
    requires !Create(s, r, k, hold, shortage).1.Opened?
    ensures NotOpened(s, Create(s, r, k, hold, shortage).0, r, hold, shortage)
  {
    var t := Create(s, r, k, hold, shortage).0;
    if t != s {
      var p := r.parent.value;
      var u := Increment(s, p);
      IncrementKeeps(s, multiset{}, p);
      assert multiset{} + multiset{p} == multiset{p} && multiset{p} - multiset{p} == multiset{};
      assert t == Release(u, multiset{p}, p, false, hold, shortage);
      GivenBack(s, u, t, p, hold, shortage);
    }
  }

  lemma GivenBack(s: Kcbs, u: Kcbs, t: Kcbs, p: Id, hold: bool, shortage: Shortage)
    requires Inv(s, multiset{}) && CanReference(s, p) && (s.kcbs[p].delayed ==> s.elements > 0)
    requires u == Increment(s, p) && Inv(u, multiset{p}) && t == Release(u, multiset{p}, p, false, hold, shortage)
    ensures !s.kcbs[p].delayed ==> t == s
    ensures s.kcbs[p].delayed ==>
      && (p in t.kcbs <==> !DirectDelete(s.kcbs[p], hold) && p !in shortage.items)
      && (p in t.kcbs ==> t.kcbs == s.kcbs && t.lru == [p] + Remove(s.lru, p))
  {
    assert KcbOk(s, multiset{}, p);
    if s.kcbs[p].delayed {
      LastReference(u, multiset{p}, p, false, hold, shortage);
      DelayedAgain(s, p);
      assert p in t.kcbs ==> t == Delay(u, p);
    } else {
      TakenAndGiven(s, p);
      assert t == Decrement(u, p);
    }
  }

  lemma DelayedAgain(s: Kcbs, p: Id)
    requires CanReference(s, p) && s.kcbs[p].delayed && s.kcbs[p].refs == 0 && s.elements > 0
    ensures Delay(Increment(s, p), p).kcbs == s.kcbs
  {
  }

  lemma TakenAndGiven(s: Kcbs, p: Id)
    requires CanReference(s, p) && !s.kcbs[p].delayed
    ensures p in Increment(s, p).kcbs && Increment(s, p).kcbs[p].refs > 0 && Decrement(Increment(s, p), p) == s
  {
    assert Decrement(Increment(s, p), p).kcbs == s.kcbs;
  }

  /** Which key is meant, and what the answer has to be. */
  ghost predicate AnsweredAs(s: Kcbs, answer: Answer, key: Key, parent: Option<Id>, canStart: bool, nameMemory: bool,
                             k: Id) {
    && (!canStart ==> answer == Nothing)
    && (forall f :: canStart && Matches(s, key, f) ==> answer == if CanReference(s, f) then Opened(f) else Nothing)
    && (canStart && (forall f :: !Matches(s, key, f)) ==>
          answer ==
            if nameMemory then (if RoomBelow(s, parent) then Opened(k) else Nothing)
            else if parent.None? then Stopped else Nothing)
  }

  /** What came of opening a key: the answer and the blocks afterwards. */
  ghost predicate OpenedAs(s: Kcbs, t: Kcbs, answer: Answer, r: Request, k: Id, hold: bool, shortage: Shortage) {
    match answer
    case Opened(f) =>
      if f == k then Made(s, t, r.key, r.parent, r.symLink, r.fake, r.frozen, k)
      else Matches(s, r.key, f) && UsedAgain(s, t, r.fake, r.frozen, f)
    case _ => NotOpened(s, t, r, hold, shortage)
  }

  lemma CreateOpens(s: Kcbs, r: Request, k: Id, hold: bool, shortage: Shortage)
    requires Inv(s, multiset{}) && k !in s.kcbs && (r.parent.Some? ==> r.parent.value in s.kcbs)
    ensures var (t, answer) := Create(s, r, k, hold, shortage); OpenedAs(s, t, answer, r, k, hold, shortage)
    ensures var (_, answer) := Create(s, r, k, hold, shortage);
      AnsweredAs(s, answer, r.key, r.parent, CanStart(r), r.nameMemory, k)
  {
    var (_, answer) := Create(s, r, k, hold, shortage);
    match answer
    case Opened(f) =>
      if f == k {
        CreateMakes(s, r, k, hold, shortage);
      } else {
        CreateReuses(s, r, k, hold, shortage, f);
      }
    case _ => CreateFails(s, r, k, hold, shortage);
  }

  /** A deleted key is marked, forgets its cell and is not found again; every other block and chain stays. */
  lemma DeleteMarks(s: Kcbs, k: Id)
    requires Inv(s, multiset{}) && k in s.holders && k in s.kcbs
    ensures var t := Delete(s, k);
      if s.kcbs[k].parent.None? || s.kcbs[k].delete then t == s
      else Marked(s, t, k) && Lookup(t, s.kcbs[k].key) == None
  {
    if s.kcbs[k].parent.Some? && !s.kcbs[k].delete {
      var t := Delete(s, k);
      forall f
        ensures !Matches(t, s.kcbs[k].key, f)
      {
        assert OneBlock(s, k, f);
      }
      var index := HashIndex(s.kcbs[k].key.convKey);
      assert Hashed(t, k, index);
      assert k in Chain(t.table, index) <==> k in multiset(Chain(t.table, index));
    }
  }

  ghost predicate Marked(s: Kcbs, t: Kcbs, k: Id)
    requires k in s.kcbs
  {
    var index := HashIndex(s.kcbs[k].key.convKey);
    && k in t.kcbs && t.kcbs[k].delete && t.kcbs[k].key.cell == HCELL_NIL
    && t.kcbs[k] == s.kcbs[k].(delete := true, key := t.kcbs[k].key)
    && t.kcbs[k].key.hive == s.kcbs[k].key.hive && t.kcbs[k].key.convKey == s.kcbs[k].key.convKey
    && OthersSame(s, t, k, None) && t == s.(kcbs := t.kcbs, table := t.table)
    && (forall i :: i != index ==> Chain(t.table, i) == Chain(s.table, i))
    && Chain(t.table, index) == Remove(Chain(s.table, index), k) && k !in Chain(t.table, index)
  }

  // ----- the workers

  /** Neither worker is concerned. */
  ghost predicate SameWork(s: Kcbs, t: Kcbs) {
    && t.closeArmed == s.closeArmed && t.elements <= s.elements
    && t.derefArmed == s.derefArmed && t.deferred == s.deferred
  }

  lemma SameWorkArmed(s: Kcbs, u: Kcbs, t: Kcbs)
    requires Inv(s, multiset{}) && SameWork(s, u) && (t == u || ArmedInTime(u, t) || SameWork(u, t))
    ensures ArmedInTime(s, t)
  {
  }

  lemma IncrementSameWork(s: Kcbs, k: Id)
    requires k in s.kcbs && (s.kcbs[k].delayed ==> s.elements > 0)
    ensures SameWork(s, Increment(s, k))
  {
  }

  lemma OpenSameWork(s: Kcbs, r: Request, k: Id)
    ensures SameWork(s, Open(s, r, k))
  {
  }

  lemma CreateArmed(s: Kcbs, r: Request, k: Id, hold: bool, shortage: Shortage)
    requires Inv(s, multiset{}) && k !in s.kcbs && (r.parent.Some? ==> r.parent.value in s.kcbs)
    ensures ArmedInTime(s, Create(s, r, k, hold, shortage).0)
  {
    if CanStart(r) && Lookup(s, r.key).None? {
      CreateNewArmed(s, r, k, hold, shortage);
    } else {
      ArmedStill(s, multiset{});
    }
  }

  lemma CreateNewArmed(s: Kcbs, r: Request, k: Id, hold: bool, shortage: Shortage)
    requires Inv(s, multiset{}) && k !in s.kcbs && (r.parent.Some? ==> r.parent.value in s.kcbs)
    requires forall f :: !Matches(s, r.key, f)
    ensures ArmedInTime(s, CreateNew(s, r, k, hold, shortage).0)
  {
    ArmedStill(s, multiset{});
    if r.parent.None? {
      OpenSameWork(s, r, k);
      SameWorkArmed(s, s, if r.nameMemory then Open(s, r, k) else s);
    } else if RoomBelow(s, r.parent) {
      BelowArmed(s, r, k, hold, shortage);
    }
  }

  lemma BelowArmed(s: Kcbs, r: Request, k: Id, hold: bool, shortage: Shortage)
    requires Inv(s, multiset{}) && k !in s.kcbs && r.parent.Some? && CanReference(s, r.parent.value)
    requires Level(s, r.parent.value) + 1 < MAX_LEVELS && forall f :: !Matches(s, r.key, f)
    ensures ArmedInTime(s, OpenBelow(s, r, k, hold, shortage))
  {
    var p := r.parent.value;
    IncrementKeeps(s, multiset{}, p);
    assert multiset{} + multiset{p} == multiset{p};
    var u := Increment(s, p);
    IncrementSameWork(s, p);
    OpenSameWork(u, r, k);
    SameWorkArmed(s, u, OpenBelow(s, r, k, hold, shortage));
  }

  lemma StepArmed(s: Kcbs, e: Event)
    requires Inv(s, multiset{}) && Enabled(s, e)
    ensures ArmedBy(s, Step(s, e), e)
  {
    match e
    case CreateBlock(r, k, hold, shortage) => CreateArmed(s, r, k, hold, shortage);
    case _ =>
  }

  /** A worker is set going by an event that leaves it work to do, and stops when it has none. */
  ghost predicate ArmedBy(s: Kcbs, t: Kcbs, e: Event) {
    && (!s.closeArmed && t.closeArmed ==> t.elements > DELAYED_CLOSE_SIZE)
    && (!s.derefArmed && t.derefArmed ==> t.deferred != [])
    && (s.closeArmed && !t.closeArmed ==> e.CloseDone? && t.elements <= DELAYED_CLOSE_SIZE)
    && (s.derefArmed && !t.derefArmed ==> e.RunDereferences? && t.deferred == [])
  }

  /** So it is in every run. */
  lemma WorkersArmedInTime(es: seq<Event>, e: Event)
    ensures ArmedBy(After(es), After(es + [e]), e)
  {
    AfterOneMore(es, e);
    if Enabled(After(es), e) {
      StepArmed(After(es), e);
    }
  }

  // ----- every run

  /** The reference of a holder: the last one leaves the block on the delayed-close list or takes it away, another one
      changes its count. */
  ghost predicate GivenUp(s: Kcbs, t: Kcbs, k: Id, hold: bool, shortage: Shortage) {
    && t.holders == s.holders - multiset{k} && k in s.kcbs
    && (s.kcbs[k].refs == 1 ==>
          && (k in t.kcbs <==>
                && (hold ==> s.kcbs[k].symLink) && !s.kcbs[k].noDelayClose && !s.kcbs[k].delete
                && k !in shortage.items)
          && (k in t.kcbs ==> t.lru == [k] + s.lru && t.kcbs == s.kcbs[k := t.kcbs[k]] && t.kcbs[k].delayed))
    && (s.kcbs[k].refs > 1 ==>
          t.lru == s.lru && k in t.kcbs && t.kcbs == s.kcbs[k := s.kcbs[k].(refs := t.kcbs[k].refs)])
  }

  lemma GiveBackGives(s: Kcbs, k: Id, hold: bool, shortage: Shortage)
    requires Inv(s, multiset{}) && k in s.holders
    ensures GivenUp(s, GiveBack(s, k, hold, shortage), k, hold, shortage)
  {
    UnholdKeeps(s, multiset{}, k);
    assert multiset{} + multiset{k} == multiset{k};
    PendingLive(Unhold(s, k), multiset{k}, k);
    if s.kcbs[k].refs == 1 {
      LastReference(Unhold(s, k), multiset{k}, k, false, hold, shortage);
    } else {
      NotTheLastReference(Unhold(s, k), multiset{k}, k, false, hold, shortage);
    }
  }

  /** The oldest unused block goes, and others lose references at most. */
  ghost predicate ClosedLast(s: Kcbs, t: Kcbs) {
    s.lru != [] && var n := |s.lru| - 1;
      t.lru == s.lru[..n] && OnlyCounts(s.kcbs - {s.lru[n]}, t.kcbs) && t.holders == s.holders
  }

  ghost predicate Opens(s: Kcbs, t: Kcbs, r: Request, k: Id, hold: bool, shortage: Shortage) {
    exists answer ::
      && OpenedAs(s, t, answer, r, k, hold, shortage)
      && AnsweredAs(s, answer, r.key, r.parent, CanStart(r), r.nameMemory, k)
  }

  /** What each event does to the blocks and the lists. */
  ghost predicate DoneBy(s: Kcbs, t: Kcbs, e: Event) {
    match e
    case Reference(k) =>
      if CanReference(s, k) then TakenOnce(s, t, k) && t.holders == s.holders + multiset{k} else t == s
    case Dereference(k, hold, shortage) => GivenUp(s, t, k, hold, shortage)
    case CreateBlock(r, k, hold, shortage) => Opens(s, t, r, k, hold, shortage)
    case DeleteKey(k) =>
      && k in s.kcbs
      && if s.kcbs[k].parent.None? || s.kcbs[k].delete then t == s
         else Marked(s, t, k) && Lookup(t, s.kcbs[k].key) == None
    case EvictEmpty(k, _, _) => k !in t.kcbs && t.deferred == s.deferred && t.lost == s.lost && t.holders == s.holders
    case RunDereferences(_, _) => t.deferred == [] && t.holders == s.holders && t.kcbs.Keys <= s.kcbs.Keys
    case CloseNext(_, _) => ClosedLast(s, t)
    case CloseDone => t == s.(closeArmed := s.elements > DELAYED_CLOSE_SIZE)
  }

  lemma CloseNextCloses(s: Kcbs, hold: bool, shortage: Shortage)
    requires Inv(s, multiset{}) && s.elements > 0
    ensures ClosedLast(s, CloseOldest(s, hold, shortage))
  {
    OldestUnused(s);
  }

  lemma StepDoes(s: Kcbs, e: Event)
    requires Inv(s, multiset{}) && Enabled(s, e)
    ensures DoneBy(s, Step(s, e), e)
  {
    match e
    case Reference(k) =>
      if CanReference(s, k) {
        TakeUses(s, k);
      }
    case Dereference(k, hold, shortage) => GiveBackGives(s, k, hold, shortage);
    case CreateBlock(r, k, hold, shortage) =>
      CreateOpens(s, r, k, hold, shortage);
      var (t, answer) := Create(s, r, k, hold, shortage);
      assert OpenedAs(s, t, answer, r, k, hold, shortage);
    case DeleteKey(k) =>
      assert KcbOk(s, multiset{}, k);
      DeleteMarks(s, k);
    case CloseNext(hold, shortage) => CloseNextCloses(s, hold, shortage);
    case _ =>
  }

  /** In every run each event does just that. */
  lemma EveryRunDoes(es: seq<Event>, e: Event)
    requires Enabled(After(es), e)
    ensures DoneBy(After(es), After(es + [e]), e)
  {
    AfterOneMore(es, e);
    StepDoes(After(es), e);
  }
}
