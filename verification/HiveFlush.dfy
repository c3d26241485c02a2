/** The lazy flusher of registry hives, ntoskrnl/config/cmlazy.c: each call deals with at most seven hives that do not
    carry the current epoch yet, and an epoch ends with the call that reaches the end of the hive list. HvSyncHive
    answers with a BOOLEAN that the caller tests with NT_SUCCESS, which both of its values pass; so a hive whose sync
    failed counts as dealt with, and the error branch is never taken. */
module HiveFlush {
  const HIVES_PER_CALL: nat := 7

  /** synced counts the successful syncs of the hive in the current epoch. */
  datatype Hive = Hive(noLazyFlush: bool, volatile: bool, dirty: nat, flushCount: nat, synced: nat)

  /** failing are the hives whose sync fails if it is tried. */
  datatype Call = Call(force: bool, failing: set<nat>)

  predicate Due(h: Hive, epoch: nat) {
    !h.noLazyFlush && h.flushCount != epoch
  }

  predicate NeedsSync(h: Hive, force: bool) {
    (h.dirty > 0 || force) && !h.volatile
  }

  /** What a call does to a due hive; synced counts the calls of HvSyncHive that did not fail, which for a clean hive
      has nothing to write. */
  function Dealt(h: Hive, epoch: nat, force: bool, fails: bool): Hive {
    if NeedsSync(h, force) && !fails then h.(flushCount := epoch, dirty := 0, synced := h.synced + 1)
    else h.(flushCount := epoch)
  }

  /** The hives after a call, and where it stopped. */
  datatype Outcome = Outcome(hives: seq<Hive>, stop: nat)

  function Walk(hives: seq<Hive>, epoch: nat, c: Call, i: nat, budget: nat): Outcome
    requires i <= |hives|
    decreases |hives| - i
  {
    if i == |hives| || budget == 0 then Outcome(hives, i)
    else if !Due(hives[i], epoch) then Walk(hives, epoch, c, i + 1, budget)
    else Walk(hives[i := Dealt(hives[i], epoch, c.force, i in c.failing)], epoch, c, i + 1, budget - 1)
  }

  /** How many hives in a stretch of the list are due. */
  function DueIn(hives: seq<Hive>, epoch: nat, i: nat, j: nat): nat
    requires i <= j <= |hives|
  {
    if i == j then 0 else DueIn(hives, epoch, i, j - 1) + (if Due(hives[j - 1], epoch) then 1 else 0)
  }

  /** A hive that may be flushed lazily and does not carry the epoch yet gets it; one that is dirty, or any when the
      flush is forced, is synced unless it is volatile or the sync fails, and is then clean. Any other hive stays as it
      is. */
  ghost predicate HandledAs(h: Hive, h': Hive, epoch: nat, force: bool, fails: bool) {
    if h.noLazyFlush || h.flushCount == epoch then h' == h
    else
      && h'.flushCount == epoch && !h'.noLazyFlush && h'.volatile == h.volatile
      && if (h.dirty > 0 || force) && !h.volatile && !fails then h'.dirty == 0 && h'.synced == h.synced + 1
         else h'.dirty == h.dirty && h'.synced == h.synced
  }

  /** A call deals with the due hives from the front of the list, all of them up to where it stops and none beyond; it
      stops at the end of the list or right after its share. */
  ghost predicate Covers(hives: seq<Hive>, epoch: nat, c: Call, i: nat, budget: nat, o: Outcome) {
    && i <= o.stop <= |hives| && |o.hives| == |hives|
    && (forall k :: 0 <= k < |hives| ==>
          if i <= k < o.stop then HandledAs(hives[k], o.hives[k], epoch, c.force, k in c.failing)
          else o.hives[k] == hives[k])
    && DueIn(hives, epoch, i, o.stop) <= budget
    && (o.stop == |hives| || DueIn(hives, epoch, i, o.stop) == budget)
    && (budget == 0 ==> o.stop == i)
    && (DueIn(hives, epoch, i, o.stop) == budget > 0 ==> i < o.stop && Due(hives[o.stop - 1], epoch))
  }

  lemma {:induction false} SameDue(a: seq<Hive>, b: seq<Hive>, epoch: nat, i: nat, j: nat)
    requires |a| == |b| && i <= j <= |a| && forall k :: i <= k < j ==> Due(a[k], epoch) == Due(b[k], epoch)
    ensures DueIn(a, epoch, i, j) == DueIn(b, epoch, i, j)
  {
    if i < j {
      SameDue(a, b, epoch, i, j - 1);
    }
  }

  lemma {:induction false} DueSplits(hives: seq<Hive>, epoch: nat, i: nat, j: nat, k: nat)
    requires i <= j <= k <= |hives|
    ensures DueIn(hives, epoch, i, k) == DueIn(hives, epoch, i, j) + DueIn(hives, epoch, j, k)
  {
    if j < k {
      DueSplits(hives, epoch, i, j, k - 1);
    }
  }

  lemma {:induction false} WalkCovers(hives: seq<Hive>, epoch: nat, c: Call, i: nat, budget: nat)
    requires i <= |hives|
    ensures Covers(hives, epoch, c, i, budget, Walk(hives, epoch, c, i, budget))
    decreases |hives| - i
  {
    var o := Walk(hives, epoch, c, i, budget);
    if i == |hives| || budget == 0 {
    } else if !Due(hives[i], epoch) {
      WalkCovers(hives, epoch, c, i + 1, budget);
      PassedCovers(hives, epoch, c, i, budget, o);
    } else {
      var next := hives[i := Dealt(hives[i], epoch, c.force, i in c.failing)];
      WalkCovers(next, epoch, c, i + 1, budget - 1);
      DealtCovers(hives, next, epoch, c, i, budget, o);
    }
  }

  lemma PassedCovers(hives: seq<Hive>, epoch: nat, c: Call, i: nat, budget: nat, o: Outcome)
    requires i < |hives| && budget > 0 && !Due(hives[i], epoch) && Covers(hives, epoch, c, i + 1, budget, o)
    ensures Covers(hives, epoch, c, i, budget, o)
  {
    DueSplits(hives, epoch, i, i + 1, o.stop);
  }

  lemma DealtCovers(hives: seq<Hive>, next: seq<Hive>, epoch: nat, c: Call, i: nat, budget: nat, o: Outcome)
    requires i < |hives| && budget > 0 && Due(hives[i], epoch)
    requires next == hives[i := Dealt(hives[i], epoch, c.force, i in c.failing)]
    requires Covers(next, epoch, c, i + 1, budget - 1, o)
    ensures Covers(hives, epoch, c, i, budget, o)
  {
    DueSplits(hives, epoch, i, i + 1, o.stop);
    SameDue(hives, next, epoch, i + 1, o.stop);
    assert DueIn(hives, epoch, i, i + 1) == 1;
  }

  class LazyFlusher {
    var hives: seq<Hive>
    var epoch: nat
    const noWrite: bool

    constructor (hives: seq<Hive>, epoch: nat, noWrite: bool)
      ensures this.hives == hives && this.epoch == epoch && this.noWrite == noWrite
    {
      this.hives, this.epoch, this.noWrite := hives, epoch, noWrite;
    }

    /** CmpDoFlushNextHive: more tells the caller to come back. */
    method DoFlushNextHive(c: Call) returns (more: bool)
      modifies this`hives
      ensures noWrite ==> more && hives == old(hives)
      ensures !noWrite ==> exists stop: nat ::
        Covers(old(hives), epoch, c, 0, HIVES_PER_CALL, Outcome(hives, stop)) && (more <==> stop < |hives|)
      ensures !noWrite ==> hives == Walk(old(hives), epoch, c, 0, HIVES_PER_CALL).hives
      ensures !noWrite ==> (more <==> Walk(old(hives), epoch, c, 0, HIVES_PER_CALL).stop < |hives|)
    {
      more := true;
      if noWrite {
        return;
      }
      ghost var o := Walk(hives, epoch, c, 0, HIVES_PER_CALL);
      WalkCovers(hives, epoch, c, 0, HIVES_PER_CALL);
      var i, budget := 0, HIVES_PER_CALL;
      while i < |hives| && budget > 0
        invariant i <= |hives| && |hives| == |o.hives|
        invariant Walk(hives, epoch, c, i, budget) == o
      {
        if Due(hives[i], epoch) {
          budget := budget - 1;
          hives := hives[i := Dealt(hives[i], epoch, c.force, i in c.failing)];
        }
        i := i + 1;
      }
      more := i != |hives|;
      assert o == Outcome(hives, i);
    }

    /** CmpLazyFlushWorker: the epoch, a 32-bit number, ends when there is no more to do. */
    method LazyFlushWorker(c: Call) returns (more: bool)
      requires epoch < 0x1_0000_0000
      modifies this
      ensures Flusher(hives, epoch) == Work(old(Flusher(hives, epoch)), c, noWrite)
      ensures more <==> !Ends(old(Flusher(hives, epoch)), c, noWrite)
      ensures epoch == if more then old(epoch) else (old(epoch) + 1) % 0x1_0000_0000
      ensures noWrite ==> hives == old(hives)
      ensures |hives| == |old(hives)| && forall k :: 0 <= k < |hives| && !noWrite && !more ==>
        exists h :: HandledAs(old(hives)[k], h, old(epoch), c.force, k in c.failing) && hives[k] == h.(synced := 0)
    {
      more := DoFlushNextHive(c);
      WalkCovers(old(hives), old(epoch), c, 0, HIVES_PER_CALL);
      if !more {
        epoch := (epoch + 1) % 0x1_0000_0000;
        hives := NewEpoch(hives);
      }
    }
  }

  // ----- epochs over runs of calls, with writes to hives in between

  datatype Flusher = Flusher(hives: seq<Hive>, epoch: nat)

  datatype Event = Worker(call: Call, noWrite: bool) | Write(hive: nat, dirty: nat)

  /** The counts of syncs start again with each epoch. */
  function NewEpoch(hives: seq<Hive>): (r: seq<Hive>)
    ensures |r| == |hives| && forall k :: 0 <= k < |hives| ==> r[k] == hives[k].(synced := 0)
  {
    seq(|hives|, k requires 0 <= k < |hives| => hives[k].(synced := 0))
  }

  function Flushed(s: Flusher, c: Call): Outcome {
    Walk(s.hives, s.epoch, c, 0, HIVES_PER_CALL)
  }

  predicate Ends(s: Flusher, c: Call, noWrite: bool) {
    !noWrite && Flushed(s, c).stop >= |s.hives|
  }

  function Work(s: Flusher, c: Call, noWrite: bool): Flusher {
    if noWrite then s
    else if Ends(s, c, noWrite) then Flusher(NewEpoch(Flushed(s, c).hives), (s.epoch + 1) % 0x1_0000_0000)
    else s.(hives := Flushed(s, c).hives)
  }

  function Step(s: Flusher, e: Event): Flusher {
    match e
    case Worker(c, noWrite) => Work(s, c, noWrite)
    case Write(k, dirty) => if k < |s.hives| then s.(hives := s.hives[k := s.hives[k].(dirty := dirty)]) else s
  }

  function After(s: Flusher, es: seq<Event>): Flusher {
    if es == [] then s else Step(After(s, es[..|es| - 1]), es[|es| - 1])
  }

  ghost predicate HiveOk(s: Flusher, k: nat) {
    k < |s.hives| ==> s.hives[k].synced <= 1 && (Due(s.hives[k], s.epoch) ==> s.hives[k].synced == 0)
  }

  ghost predicate Inv(s: Flusher) {
    forall k :: HiveOk(s, k)
  }

  lemma StepKeeps(s: Flusher, e: Event)
    requires Inv(s)
    ensures Inv(Step(s, e)) && |Step(s, e).hives| == |s.hives|
  {
    var t := Step(s, e);
    if e.Worker? {
      WalkCovers(s.hives, s.epoch, e.call, 0, HIVES_PER_CALL);
    }
    forall k
      ensures HiveOk(t, k)
    {
      assert HiveOk(s, k);
    }
  }

  /** Whatever fails and whatever is written, no hive is synced twice in an epoch. */
  lemma {:induction false} RunsKeep(s: Flusher, es: seq<Event>)
    requires Inv(s)
    ensures Inv(After(s, es)) && |After(s, es).hives| == |s.hives|
  {
    if es != [] {
      RunsKeep(s, es[..|es| - 1]);
      StepKeeps(After(s, es[..|es| - 1]), es[|es| - 1]);
    }
  }

  // ----- one epoch from its first call to its last

  ghost predicate EndsAt(s: Flusher, es: seq<Event>, m: nat) {
    m < |es| && es[m].Worker? && Ends(After(s, es[..m]), es[m].call, es[m].noWrite)
  }

  /** Event e is a call that deals with hive k. */
  predicate Deals(s: Flusher, e: Event, k: nat) {
    e.Worker? && !e.noWrite && k < |s.hives| && Due(s.hives[k], s.epoch) && k < Flushed(s, e.call).stop
  }

  /** It finds that the hive needs a sync, and the sync succeeds. */
  predicate Syncs(s: Flusher, e: Event, k: nat) {
    Deals(s, e, k) && NeedsSync(s.hives[k], e.call.force) && k !in e.call.failing
  }

  ghost predicate DealsAt(s: Flusher, es: seq<Event>, m: nat, k: nat) {
    m < |es| && Deals(After(s, es[..m]), es[m], k)
  }

  /** Event m is the only one of es that deals with hive k, and h has been synced just if that call did it. */
  ghost predicate DealtOnce(s: Flusher, es: seq<Event>, m: nat, k: nat, h: Hive) {
    && DealsAt(s, es, m, k) && (forall j :: DealsAt(s, es, j, k) ==> j == m)
    && h.synced == if Syncs(After(s, es[..m]), es[m], k) then 1 else 0
  }

  ghost predicate NotDealt(s: Flusher, es: seq<Event>, k: nat) {
    forall m :: !DealsAt(s, es, m, k)
  }

  ghost predicate DealtByOne(s: Flusher, es: seq<Event>, k: nat, h: Hive) {
    exists m :: DealtOnce(s, es, m, k, h)
  }

  lemma SamePast(s: Flusher, es: seq<Event>, e: Event, m: nat, k: nat)
    requires m < |es|
    ensures EndsAt(s, es + [e], m) == EndsAt(s, es, m) && DealsAt(s, es + [e], m, k) == DealsAt(s, es, m, k)
    ensures (es + [e])[..m] == es[..m] && (es + [e])[m] == es[m]
  {
    assert (es + [e])[..m] == es[..m] && (es + [e])[m] == es[m];
  }

  lemma NowDealt(s: Flusher, es: seq<Event>, e: Event, k: nat, h: Hive)
    requires NotDealt(s, es, k) && Deals(After(s, es), e, k)
    requires h.synced == if Syncs(After(s, es), e, k) then 1 else 0
    ensures DealtByOne(s, es + [e], k, h)
  {
    var all, n := es + [e], |es|;
    assert all[..n] == es && all[n] == e;
    forall m: nat | DealsAt(s, all, m, k)
      ensures m == n
    {
      if m < n {
        SamePast(s, es, e, m, k);
      }
    }
    assert DealtOnce(s, all, n, k, h);
  }

  lemma StillDealt(s: Flusher, es: seq<Event>, e: Event, k: nat, h: Hive, h': Hive)
    requires DealtByOne(s, es, k, h) && !Deals(After(s, es), e, k) && h'.synced == h.synced
    ensures DealtByOne(s, es + [e], k, h')
  {
    var all, n := es + [e], |es|;
    assert all[..n] == es && all[n] == e;
    var m :| DealtOnce(s, es, m, k, h);
    SamePast(s, es, e, m, k);
    forall j: nat | DealsAt(s, all, j, k)
      ensures j == m
    {
      if j < n {
        SamePast(s, es, e, j, k);
      }
    }
    assert DealtOnce(s, all, m, k, h');
  }

  lemma StillNotDealt(s: Flusher, es: seq<Event>, e: Event, k: nat)
    requires NotDealt(s, es, k) && !Deals(After(s, es), e, k)
    ensures NotDealt(s, es + [e], k)
  {
    var all, n := es + [e], |es|;
    assert all[..n] == es && all[n] == e;
    forall m: nat
      ensures !DealsAt(s, all, m, k)
    {
      if m < n {
        SamePast(s, es, e, m, k);
      }
    }
  }

  /** What has become of hive k, due when the epoch began, after events that did not end the epoch. */
  ghost predicate History(s: Flusher, es: seq<Event>, t: Flusher, k: nat) {
    && t.epoch == s.epoch && |t.hives| == |s.hives| && k < |t.hives| && !t.hives[k].noLazyFlush
    && if Due(t.hives[k], t.epoch) then t.hives[k].synced == 0 && NotDealt(s, es, k)
      else DealtByOne(s, es, k, t.hives[k])
  }

  lemma {:induction false} EpochHistory(s: Flusher, es: seq<Event>, k: nat)
    requires Inv(s) && k < |s.hives| && Due(s.hives[k], s.epoch) && forall m :: !EndsAt(s, es, m)
    ensures History(s, es, After(s, es), k)
  {
    if es == [] {
      assert HiveOk(s, k);
    } else {
      var past, e := es[..|es| - 1], es[|es| - 1];
      assert es == past + [e];
      forall m: nat
        ensures !EndsAt(s, past, m)
      {
        assert !EndsAt(s, es, m);
        if m < |past| {
          SamePast(s, past, e, m, k);
        }
      }
      EpochHistory(s, past, k);
      assert !EndsAt(s, es, |past|);
      NextEvent(s, past, After(s, past), e, k);
    }
  }

  lemma NextEvent(s: Flusher, past: seq<Event>, t: Flusher, e: Event, k: nat)
    requires t == After(s, past) && History(s, past, t, k) && !(e.Worker? && Ends(t, e.call, e.noWrite))
    ensures History(s, past + [e], Step(t, e), k)
  {
    var u := Step(t, e);
    if e.Worker? {
      WalkCovers(t.hives, t.epoch, e.call, 0, HIVES_PER_CALL);
    }
    if !Due(t.hives[k], t.epoch) {
      StillDealt(s, past, e, k, t.hives[k], u.hives[k]);
    } else if Deals(t, e, k) {
      NowDealt(s, past, e, k, u.hives[k]);
    } else {
      StillNotDealt(s, past, e, k);
    }
  }

  /** When a call ends an epoch, every hive that was due when the epoch began has been dealt with by exactly one call
      since, so a failed sync is not retried; it has been synced, once, exactly if that call found it in need of a sync
      and the sync did not fail; and it is due again in the next epoch. */
  lemma EpochComplete(s: Flusher, es: seq<Event>, c: Call, k: nat)
    requires Inv(s) && k < |s.hives| && Due(s.hives[k], s.epoch) && s.epoch < 0x1_0000_0000
    requires (forall m :: !EndsAt(s, es, m)) && Ends(After(s, es), c, false)
    ensures |Flushed(After(s, es), c).hives| == |s.hives|
    ensures var h := Flushed(After(s, es), c).hives[k];
      h.flushCount == s.epoch && exists m :: DealtOnce(s, es + [Worker(c, false)], m, k, h)
    ensures var next := Work(After(s, es), c, false); |next.hives| == |s.hives| && Due(next.hives[k], next.epoch)
  {
    EpochHistory(s, es, k);
    LastCall(s, es, After(s, es), c, k);
  }

  lemma LastCall(s: Flusher, es: seq<Event>, t: Flusher, c: Call, k: nat)
    requires t == After(s, es) && History(s, es, t, k) && Ends(t, c, false) && t.epoch < 0x1_0000_0000
    ensures |Flushed(t, c).hives| == |s.hives| && Flushed(t, c).hives[k].flushCount == t.epoch
    ensures DealtByOne(s, es + [Worker(c, false)], k, Flushed(t, c).hives[k])
    ensures var next := Work(t, c, false); |next.hives| == |s.hives| && Due(next.hives[k], next.epoch)
  {
    WalkCovers(t.hives, t.epoch, c, 0, HIVES_PER_CALL);
    var h := Flushed(t, c).hives[k];
    if Due(t.hives[k], t.epoch) {
      NowDealt(s, es, Worker(c, false), k, h);
    } else {
      StillDealt(s, es, Worker(c, false), k, t.hives[k], h);
    }
  }

  /** A dirty hive whose sync fails: the epoch ends all the same, with the hive stamped and still dirty. */
  lemma FailedSyncPassesForDone()
    ensures var s, c := Flusher([Hive(false, false, 1, 0, 0)], 1), Call(false, {0});
      Ends(s, c, false) && Work(s, c, false) == Flusher([Hive(false, false, 1, 1, 0)], 2)
  {
    var s, c := Flusher([Hive(false, false, 1, 0, 0)], 1), Call(false, {0});
    var dealt := s.hives[0 := Dealt(s.hives[0], 1, false, true)];
    assert Walk(dealt, 1, c, 1, 6) == Outcome(dealt, 1);
    assert Flushed(s, c) == Outcome(dealt, 1);
    assert NewEpoch(dealt) == [Hive(false, false, 1, 1, 0)];
  }

  // ----- how long an epoch takes

  function Workers(es: seq<Event>): nat {
    if es == [] then 0 else Workers(es[..|es| - 1]) + (if es[|es| - 1].Worker? then 1 else 0)
  }

  lemma {:induction false} DueAtMost(hives: seq<Hive>, epoch: nat, i: nat, j: nat)
    requires i <= j <= |hives|
    ensures DueIn(hives, epoch, i, j) <= j - i
  {
    if i < j {
      DueAtMost(hives, epoch, i, j - 1);
    }
  }

  lemma {:induction false} NoneDue(hives: seq<Hive>, epoch: nat, i: nat, j: nat)
    requires i <= j <= |hives| && forall k :: i <= k < j ==> !Due(hives[k], epoch)
    ensures DueIn(hives, epoch, i, j) == 0
  {
    if i < j {
      NoneDue(hives, epoch, i, j - 1);
    }
  }

  function AllDue(s: Flusher): nat {
    DueIn(s.hives, s.epoch, 0, |s.hives|)
  }

  /** A call that does not end the epoch takes its full share off what is due. */
  lemma FullShare(s: Flusher, c: Call)
    requires !Ends(s, c, false)
    ensures var t := Work(s, c, false);
      t.epoch == s.epoch && |t.hives| == |s.hives| && AllDue(t) + HIVES_PER_CALL == AllDue(s)
  {
    var t, o, n := Work(s, c, false), Flushed(s, c), |s.hives|;
    WalkCovers(s.hives, s.epoch, c, 0, HIVES_PER_CALL);
    DueSplits(s.hives, s.epoch, 0, o.stop, n);
    DueSplits(t.hives, s.epoch, 0, o.stop, n);
    NoneDue(t.hives, s.epoch, 0, o.stop);
    SameDue(s.hives, t.hives, s.epoch, o.stop, n);
  }

  /** A call while writing is switched off does nothing. */
  predicate Writes(e: Event) {
    e.Worker? ==> !e.noWrite
  }

  lemma {:induction false} DueShrinks(s: Flusher, es: seq<Event>)
    requires forall m :: 0 <= m < |es| ==> Writes(es[m])
    requires forall m :: !EndsAt(s, es, m)
    ensures var t := After(s, es);
      t.epoch == s.epoch && |t.hives| == |s.hives| && AllDue(t) + HIVES_PER_CALL * Workers(es) == AllDue(s)
  {
    if es != [] {
      var n := |es| - 1;
      forall m: nat
        ensures !EndsAt(s, es[..n], m)
      {
        assert !EndsAt(s, es, m);
        assert m < n ==> es[..n][..m] == es[..m];
      }
      DueShrinks(s, es[..n]);
      var t := After(s, es[..n]);
      assert !EndsAt(s, es, n);
      if es[n].Worker? {
        FullShare(t, es[n].call);
      } else {
        SameDue(t.hives, After(s, es).hives, t.epoch, 0, |t.hives|);
      }
    }
  }

  /** An epoch ends within n/7 + 1 calls, whichever syncs fail and whatever is written to the hives in between. */
  lemma EpochEnds(s: Flusher, es: seq<Event>)
    requires forall m :: 0 <= m < |es| ==> Writes(es[m])
    requires Workers(es) >= |s.hives| / HIVES_PER_CALL + 1
    ensures exists m :: EndsAt(s, es, m)
  {
    if forall m :: !EndsAt(s, es, m) {
      DueShrinks(s, es);
      DueAtMost(s.hives, s.epoch, 0, |s.hives|);
    }
  }

  /** A call ends the epoch exactly when fewer hives than its share are due, or exactly its share and the last hive of
      the list among them. */
  lemma EndsExactly(s: Flusher, c: Call)
    ensures Ends(s, c, false) <==>
      AllDue(s) < HIVES_PER_CALL || (AllDue(s) == HIVES_PER_CALL && Due(s.hives[|s.hives| - 1], s.epoch))
  {
    var o, n := Flushed(s, c), |s.hives|;
    WalkCovers(s.hives, s.epoch, c, 0, HIVES_PER_CALL);
    DueSplits(s.hives, s.epoch, 0, o.stop, n);
  }
}
