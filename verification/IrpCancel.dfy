/** The protocol between queueing, dequeueing and cancelling an IRP, media/doc/irp cancel boilerplate.c, in every
    interleaving. A driver owns the queue and its lock; any number of cancellers may call IoCancelIrp, which sets the
    cancel flag and then exchanges the cancel routine for nothing. The two sides meet in that exchange only. */
module IrpCancel {
  import opened CancelRing
  import opened Lists
  import opened Options

  /** Where the driver is with an IRP; the first four steps after Fresh and Taken are under the lock. */
  datatype Driver = Fresh | SetRoutine | CheckFlag | Exchange | Insert | Listed | Taken | Finishing | Finished | Left

  /** Where the cancel routine is. */
  datatype Canceller = Away | Called | Unlinked | Cancelled

  /** IoStatus, once it is set. */
  datatype Status = Unset | Pending | Success | CancelledStatus

  datatype Irp = Irp(cancel: bool, routine: bool, driver: Driver, canceller: Canceller, status: Status, completed: nat)

  /** queue is the order of the IRPs in the list; the code sees the links only. */
  datatype World = World(irps: map<Node, Irp>, links: Links, queue: seq<Node>, lock: Option<Node>)

  datatype Event =
    | Arrive(irp: Node)
    | QueueLock(irp: Node)
    | QueueSet(irp: Node)
    | QueueCheck(irp: Node)
    | QueueExchange(irp: Node)
    | QueueInsert(irp: Node)
    | Dequeue
    | DequeueExchange(irp: Node)
    | Complete(irp: Node)
    | SetFlag(irp: Node)
    | CancelExchange(irp: Node)
    | CancelUnlink(irp: Node)
    | CancelComplete(irp: Node)

  predicate IrpAt(w: World, i: Node, driver: Driver) {
    i in w.irps && w.irps[i].driver == driver
  }

  predicate Enabled(w: World, e: Event) {
    match e
    case Arrive(i) => i != 0 && i !in w.irps
    case QueueLock(i) => IrpAt(w, i, Fresh) && w.lock.None?
    case QueueSet(i) => IrpAt(w, i, SetRoutine)
    case QueueCheck(i) => IrpAt(w, i, CheckFlag)
    case QueueExchange(i) => IrpAt(w, i, Exchange)
    case QueueInsert(i) => IrpAt(w, i, Insert)
    case Dequeue => w.lock.None? && Flink(w.links, 0) != 0 && Flink(w.links, 0) in w.irps
    case DequeueExchange(i) => IrpAt(w, i, Taken)
    case Complete(i) => IrpAt(w, i, Finishing)
    case SetFlag(i) => i in w.irps
    case CancelExchange(i) => i in w.irps && w.irps[i].cancel
    case CancelUnlink(i) => i in w.irps && w.irps[i].canceller == Called && w.lock.None?
    case CancelComplete(i) => i in w.irps && w.irps[i].canceller == Unlinked
  }

  function Set(w: World, i: Node, irp: Irp): World {
    w.(irps := w.irps[i := irp])
  }

  /** The driver has taken the cancel routine back: it lets the lock go and completes the IRP. */
  function Won(w: World, i: Node, status: Status): World
    requires i in w.irps
  {
    Set(w, i, w.irps[i].(routine := false, driver := Finishing, status := status)).(lock := None)
  }

  function CancelledIrp(irp: Irp): Irp {
    irp.(canceller := Cancelled, status := CancelledStatus, completed := irp.completed + 1)
  }

  function Step(w: World, e: Event): World
    requires Enabled(w, e)
  {
    match e
    case Arrive(i) => Set(w, i, Irp(false, false, Fresh, Away, Unset, 0))
    case QueueLock(i) => Set(w, i, w.irps[i].(driver := SetRoutine)).(lock := Some(i))
    case QueueSet(i) => Set(w, i, w.irps[i].(routine := true, driver := CheckFlag))
    case QueueCheck(i) => Set(w, i, w.irps[i].(driver := if w.irps[i].cancel then Exchange else Insert))
    case QueueExchange(i) =>
      if w.irps[i].routine then Won(w, i, CancelledStatus) else Set(w, i, w.irps[i].(driver := Insert))
    case QueueInsert(i) =>
      Set(w, i, w.irps[i].(driver := Listed, status := Pending)).(links := InsertTail(w.links, i),
        queue := w.queue + [i], lock := None)
    case Dequeue =>
      var i := Flink(w.links, 0);
      Set(w, i, w.irps[i].(driver := Taken)).(links := RemoveEntry(w.links, i), queue := Remove(w.queue, i),
        lock := Some(i))
    case DequeueExchange(i) =>
      if w.irps[i].routine then Won(w, i, Success)
      else Set(w, i, w.irps[i].(driver := Left)).(links := SelfLink(w.links, i), lock := None)
    case Complete(i) => Set(w, i, w.irps[i].(driver := Finished, completed := w.irps[i].completed + 1))
    case SetFlag(i) => Set(w, i, w.irps[i].(cancel := true))
    case CancelExchange(i) =>
      if w.irps[i].routine then Set(w, i, w.irps[i].(routine := false, canceller := Called)) else w
    case CancelUnlink(i) =>
      Set(w, i, w.irps[i].(canceller := Unlinked, driver := Left)).(links := RemoveEntry(w.links, i),
        queue := Remove(w.queue, i))
    case CancelComplete(i) => Set(w, i, CancelledIrp(w.irps[i]))
  }

  predicate Locked(d: Driver) {
    d == SetRoutine || d == CheckFlag || d == Exchange || d == Insert || d == Taken
  }

  /** Between setting the routine and taking it back, exactly one side has it. */
  predicate Contended(d: Driver) {
    d == CheckFlag || d == Exchange || d == Insert || d == Listed || d == Taken
  }

  /** An IRP is completed as cancelled only if it was cancelled, by its cancel routine always so. */
  predicate StatusOk(irp: Irp) {
    && (irp.canceller != Away || irp.status == CancelledStatus || irp.driver == Exchange ==> irp.cancel)
    && (irp.driver == Finishing || irp.driver == Finished ==> irp.status == Success || irp.status == CancelledStatus)
    && (irp.canceller == Cancelled ==> irp.status == CancelledStatus)
    && (irp.driver == Listed || irp.driver == Taken ==> irp.status == Pending)
  }

  ghost predicate IrpOk(w: World, i: Node) {
    && (w.lock == Some(i) <==> i in w.irps && Locked(w.irps[i].driver))
    && multiset(w.queue)[i] == One(i in w.irps && w.irps[i].driver == Listed)
    && (i in w.irps ==>
          var irp := w.irps[i];
          && i != 0
          && (Contended(irp.driver) ==> if irp.routine then irp.canceller == Away else irp.canceller == Called)
          && (!Contended(irp.driver) ==> !irp.routine)
          && (!Contended(irp.driver) && irp.driver != Left ==> irp.canceller == Away)
          && (irp.driver == Left ==> irp.canceller != Away && (irp.canceller == Called ==> SelfLinked(w.links, i)))
          && irp.completed == One(irp.driver == Finished) + One(irp.canceller == Cancelled)
          && StatusOk(irp))
  }

  ghost predicate Inv(w: World) {
    Ring(w.links, w.queue) && forall i :: IrpOk(w, i)
  }

  lemma Queued(w: World, i: Node)
    requires Inv(w)
    ensures i in w.queue <==> i in w.irps && w.irps[i].driver == Listed
  {
    assert IrpOk(w, i);
    assert i in w.queue <==> i in multiset(w.queue);
  }

  /** Steps of one IRP that leave the list alone. */
  lemma LocalKeeps(w: World, w': World, i: Node)
    requires Inv(w) && w'.links == w.links && w'.queue == w.queue && IrpOk(w', i) && i in w'.irps
    requires w'.irps == w.irps[i := w'.irps[i]]
    requires w'.lock == w.lock || (w.lock.None? && w'.lock == Some(i)) || (w.lock == Some(i) && w'.lock.None?)
    ensures Inv(w')
  {
    forall j
      ensures IrpOk(w', j)
    {
      assert IrpOk(w, j);
    }
  }

  ghost function PlaceOf(q: seq<Node>, i: Node): (k: nat)
    requires i in q
    ensures k < |q| && q[k] == i && forall j :: 0 <= j < k ==> q[j] != i
  {
    if q[0] == i then 0 else PlaceOf(q[1..], i) + 1
  }

  lemma InsertKeeps(w: World, i: Node)
    requires Inv(w) && Enabled(w, QueueInsert(i))
    ensures Inv(Step(w, QueueInsert(i)))
  {
    var w' := Step(w, QueueInsert(i));
    assert IrpOk(w, i);
    Queued(w, i);
    InsertKeepsRing(w.links, w.queue, i);
    forall j
      ensures IrpOk(w', j)
    {
      assert IrpOk(w, j);
      Queued(w, j);
      if j in w.irps && w.irps[j].driver == Left && SelfLinked(w.links, j) {
        OutsideUntouched(w.links, w.queue, i, j);
      }
    }
  }

  lemma HeadIsFirst(w: World)
    requires Inv(w) && Flink(w.links, 0) != 0
    ensures w.queue != [] && Flink(w.links, 0) == w.queue[0] && IrpAt(w, w.queue[0], Listed)
  {
    assert Linked(w.links, w.queue, 0);
    Queued(w, Flink(w.links, 0));
    assert w.queue != [] ==> w.queue[0] in w.queue;
  }

  /** Taking an IRP out of the list, by either side. */
  lemma UnlinkKeepsList(w: World, i: Node)
    requires Inv(w) && i in w.queue
    ensures Ring(RemoveEntry(w.links, i), Remove(w.queue, i))
    ensures forall j :: multiset(Remove(w.queue, i))[j] == multiset(w.queue)[j] - One(i == j)
    ensures forall j :: j in w.irps && w.irps[j].driver == Left && SelfLinked(w.links, j) ==>
      SelfLinked(RemoveEntry(w.links, i), j)
  {
    var k := PlaceOf(w.queue, i);
    RemoveAt(w.queue, i, k);
    RemoveKeepsRing(w.links, w.queue, k);
    forall j
      ensures multiset(Remove(w.queue, i))[j] == multiset(w.queue)[j] - One(i == j)
      ensures j in w.irps && w.irps[j].driver == Left && SelfLinked(w.links, j) ==>
        SelfLinked(RemoveEntry(w.links, i), j)
    {
      RemoveCounts(w.queue, i, j);
      assert IrpOk(w, j);
      Queued(w, j);
      if j in w.irps && w.irps[j].driver == Left && SelfLinked(w.links, j) {
        OutsideUntouched(w.links, w.queue, i, j);
      }
    }
  }

  lemma DequeueKeeps(w: World)
    requires Inv(w) && Enabled(w, Dequeue)
    ensures Inv(Step(w, Dequeue))
  {
    var w', i := Step(w, Dequeue), Flink(w.links, 0);
    HeadIsFirst(w);
    UnlinkKeepsList(w, i);
    forall j
      ensures IrpOk(w', j)
    {
      assert IrpOk(w, j) && IrpOk(w, i);
    }
  }

  lemma LostRaceKeeps(w: World, i: Node)
    requires Inv(w) && IrpAt(w, i, Taken) && !w.irps[i].routine
    ensures Inv(Step(w, DequeueExchange(i)))
  {
    var w' := Step(w, DequeueExchange(i));
    assert IrpOk(w, i);
    Queued(w, i);
    SelfLinkKeepsRing(w.links, w.queue, i);
    forall j
      ensures IrpOk(w', j)
    {
      assert IrpOk(w, j);
      Queued(w, j);
      if j != i && j in w.irps && w.irps[j].driver == Left && SelfLinked(w.links, j) {
        OutsideUntouched(w.links, w.queue, i, j);
      }
    }
  }

  lemma CancelListedKeeps(w: World, i: Node)
    requires Inv(w) && Enabled(w, CancelUnlink(i)) && w.irps[i].driver == Listed
    ensures Inv(Step(w, CancelUnlink(i)))
  {
    var w' := Step(w, CancelUnlink(i));
    Queued(w, i);
    UnlinkKeepsList(w, i);
    forall j
      ensures IrpOk(w', j)
    {
      assert IrpOk(w, j);
    }
  }

  lemma CancelLeftKeeps(w: World, w': World, i: Node)
    requires Inv(w) && i in w.irps && w.irps[i].driver == Left && w.irps[i].canceller == Called && w.lock.None?
    requires w' ==
      World(w.irps[i := w.irps[i].(canceller := Unlinked)], RemoveEntry(w.links, i), Remove(w.queue, i), None)
    ensures Inv(w')
  {
    assert IrpOk(w, i);
    Queued(w, i);
    RemoveSelfLinked(w.links, w.queue, i);
    NotThere(w.queue, i);
    forall j
      ensures IrpOk(w', j)
    {
      assert IrpOk(w, j);
      OthersStay(w.links, i, j);
    }
  }

  lemma OthersStay(l: Links, i: Node, j: Node)
    requires SelfLinked(l, i)
    ensures Flink(RemoveEntry(l, i), j) == Flink(l, j) && Blink(RemoveEntry(l, i), j) == Blink(l, j)
  {
  }

  /** The cancel routine finds its IRP in the list, or linked to itself. */
  lemma CancelUnlinkKeeps(w: World, i: Node)
    requires Inv(w) && Enabled(w, CancelUnlink(i))
    ensures Inv(Step(w, CancelUnlink(i)))
  {
    assert IrpOk(w, i);
    if w.irps[i].driver == Listed {
      CancelListedKeeps(w, i);
    } else {
      CancelLeftKeeps(w, Step(w, CancelUnlink(i)), i);
    }
  }

  lemma {:induction false} NotThere(q: seq<Node>, i: Node)
    requires i !in q
    ensures Remove(q, i) == q
  {
    if q != [] {
      NotThere(q[1..], i);
    }
  }

  lemma ArriveKeeps(w: World, i: Node)
    requires Inv(w) && i != 0 && i !in w.irps
    ensures Inv(Set(w, i, Irp(false, false, Fresh, Away, Unset, 0)))
  {
    assert IrpOk(w, i);
    LocalKeeps(w, Set(w, i, Irp(false, false, Fresh, Away, Unset, 0)), i);
  }

  lemma QueueLockKeeps(w: World, i: Node)
    requires Inv(w) && IrpAt(w, i, Fresh) && w.lock.None?
    ensures Inv(Set(w, i, w.irps[i].(driver := SetRoutine)).(lock := Some(i)))
  {
    assert IrpOk(w, i);
    LocalKeeps(w, Set(w, i, w.irps[i].(driver := SetRoutine)).(lock := Some(i)), i);
  }

  lemma QueueSetKeeps(w: World, i: Node)
    requires Inv(w) && IrpAt(w, i, SetRoutine)
    ensures Inv(Set(w, i, w.irps[i].(routine := true, driver := CheckFlag)))
  {
    assert IrpOk(w, i);
    LocalKeeps(w, Set(w, i, w.irps[i].(routine := true, driver := CheckFlag)), i);
  }

  /** The driver goes on under the lock, with the cancel routine where it is. */
  lemma QueueOnKeeps(w: World, i: Node, next: Driver)
    requires Inv(w) && (IrpAt(w, i, CheckFlag) || IrpAt(w, i, Exchange)) && (next == Exchange || next == Insert)
    requires next == Exchange ==> w.irps[i].cancel
    ensures Inv(Set(w, i, w.irps[i].(driver := next)))
  {
    assert IrpOk(w, i);
    LocalKeeps(w, Set(w, i, w.irps[i].(driver := next)), i);
  }

  /** The driver wins the exchange, so the IRP is its own. */
  lemma WonKeeps(w: World, i: Node, status: Status)
    requires Inv(w) && (IrpAt(w, i, Exchange) || IrpAt(w, i, Taken)) && w.irps[i].routine
    requires status == if w.irps[i].driver == Exchange then CancelledStatus else Success
    ensures Inv(Won(w, i, status))
  {
    assert IrpOk(w, i);
    LocalKeeps(w, Won(w, i, status), i);
  }

  lemma CompleteKeeps(w: World, i: Node)
    requires Inv(w) && IrpAt(w, i, Finishing)
    ensures Inv(Set(w, i, w.irps[i].(driver := Finished, completed := w.irps[i].completed + 1)))
  {
    assert IrpOk(w, i);
    LocalKeeps(w, Set(w, i, w.irps[i].(driver := Finished, completed := w.irps[i].completed + 1)), i);
  }

  lemma SetFlagKeeps(w: World, i: Node)
    requires Inv(w) && i in w.irps
    ensures Inv(Set(w, i, w.irps[i].(cancel := true)))
  {
    assert IrpOk(w, i);
    LocalKeeps(w, Set(w, i, w.irps[i].(cancel := true)), i);
  }

  /** The canceller wins the exchange. */
  lemma CancelWonKeeps(w: World, i: Node)
    requires Inv(w) && i in w.irps && w.irps[i].cancel && w.irps[i].routine
    ensures Inv(Set(w, i, w.irps[i].(routine := false, canceller := Called)))
  {
    assert IrpOk(w, i);
    LocalKeeps(w, Set(w, i, w.irps[i].(routine := false, canceller := Called)), i);
  }

  lemma CancelCompleteKeeps(w: World, i: Node)
    requires Inv(w) && i in w.irps && w.irps[i].canceller == Unlinked
    ensures Inv(Set(w, i, CancelledIrp(w.irps[i])))
  {
    assert IrpOk(w, i);
    LocalKeeps(w, Set(w, i, CancelledIrp(w.irps[i])), i);
  }

  lemma StepKeeps(w: World, e: Event)
    requires Inv(w) && Enabled(w, e)
    ensures Inv(Step(w, e))
  {
    match e
    case Arrive(i) => ArriveKeeps(w, i);
    case QueueLock(i) => QueueLockKeeps(w, i);
    case QueueSet(i) => QueueSetKeeps(w, i);
    case QueueCheck(i) => QueueOnKeeps(w, i, if w.irps[i].cancel then Exchange else Insert);
    case QueueExchange(i) =>
      if w.irps[i].routine {
        WonKeeps(w, i, CancelledStatus);
      } else {
        QueueOnKeeps(w, i, Insert);
      }
    case QueueInsert(i) => InsertKeeps(w, i);
    case Dequeue => DequeueKeeps(w);
    case DequeueExchange(i) =>
      if w.irps[i].routine {
        WonKeeps(w, i, Success);
      } else {
        LostRaceKeeps(w, i);
      }
    case Complete(i) => CompleteKeeps(w, i);
    case SetFlag(i) => SetFlagKeeps(w, i);
    case CancelExchange(i) =>
      if w.irps[i].routine {
        CancelWonKeeps(w, i);
      }
    case CancelUnlink(i) => CancelUnlinkKeeps(w, i);
    case CancelComplete(i) => CancelCompleteKeeps(w, i);
  }

  // ----- every run

  function Start(): World {
    World(map[], Links(map[], map[]), [], None)
  }

  /** Any events in any order, those that are not enabled left out. */
  function After(es: seq<Event>): World {
    if es == [] then Start()
    else
      var w := After(es[..|es| - 1]);
      if Enabled(w, es[|es| - 1]) then Step(w, es[|es| - 1]) else w
  }

  lemma {:induction false} RunsKeep(es: seq<Event>)
    ensures Inv(After(es))
  {
    if es != [] {
      RunsKeep(es[..|es| - 1]);
      var w := After(es[..|es| - 1]);
      if Enabled(w, es[|es| - 1]) {
        StepKeeps(w, es[|es| - 1]);
      }
    }
  }

  predicate Settled(irp: Irp) {
    irp.driver == Finished || irp.canceller == Cancelled
  }

  /** In every run each IRP is completed at most once, and once exactly when one side is through with it. */
  lemma CompletedOnce(es: seq<Event>, i: Node)
    requires i in After(es).irps
    ensures var irp := After(es).irps[i]; irp.completed <= 1 && (irp.completed == 1 <==> Settled(irp))
  {
    RunsKeep(es);
    assert IrpOk(After(es), i);
  }

  /** One of the two sides of an IRP can go on. */
  predicate HasStep(w: World, i: Node) {
    || Enabled(w, QueueLock(i)) || Enabled(w, QueueSet(i)) || Enabled(w, QueueCheck(i)) || Enabled(w, QueueExchange(i))
    || Enabled(w, QueueInsert(i)) || Enabled(w, DequeueExchange(i)) || Enabled(w, Complete(i))
    || Enabled(w, CancelUnlink(i)) || Enabled(w, CancelComplete(i))
  }

  lemma QuietOrListed(es: seq<Event>, i: Node)
    requires i in After(es).irps && forall j :: !HasStep(After(es), j)
    ensures var irp := After(es).irps[i];
      irp.completed == 1 || (irp.driver == Listed && irp.routine && irp.completed == 0)
  {
    var w := After(es);
    RunsKeep(es);
    if w.lock.Some? {
      HolderGoesOn(w, w.lock.value);
    }
    CompletedOnce(es, i);
    if w.irps[i].completed == 0 {
      SomethingLeft(w, i);
    }
  }

  /** Whoever has the lock has a step. */
  lemma HolderGoesOn(w: World, i: Node)
    requires IrpOk(w, i) && w.lock == Some(i)
    ensures HasStep(w, i)
  {
    match w.irps[i].driver
    case SetRoutine => assert Enabled(w, QueueSet(i));
    case CheckFlag => assert Enabled(w, QueueCheck(i));
    case Exchange => assert Enabled(w, QueueExchange(i));
    case Insert => assert Enabled(w, QueueInsert(i));
    case Taken => assert Enabled(w, DequeueExchange(i));
    case _ =>
  }

  lemma SomethingLeft(w: World, i: Node)
    requires IrpOk(w, i) && i in w.irps && w.irps[i].completed == 0 && (w.lock.None? || w.lock == Some(i))
    ensures (w.irps[i].driver == Listed && w.irps[i].routine) || HasStep(w, i)
  {
    var irp := w.irps[i];
    match irp.driver
    case Fresh => assert Enabled(w, QueueLock(i));
    case SetRoutine => assert Enabled(w, QueueSet(i));
    case CheckFlag => assert Enabled(w, QueueCheck(i));
    case Exchange => assert Enabled(w, QueueExchange(i));
    case Insert => assert Enabled(w, QueueInsert(i));
    case Taken => assert Enabled(w, DequeueExchange(i));
    case Finishing => assert Enabled(w, Complete(i));
    case Listed => assert irp.routine || Enabled(w, CancelUnlink(i));
    case Left => assert Enabled(w, CancelUnlink(i)) || Enabled(w, CancelComplete(i));
    case Finished =>
  }

  /** In every run the links form one ring through exactly the queued IRPs. */
  lemma ListWellFormed(es: seq<Event>, i: Node)
    ensures var w := After(es);
      Ring(w.links, w.queue) && (i in w.queue <==> i in w.irps && w.irps[i].driver == Listed)
  {
    RunsKeep(es);
    Queued(After(es), i);
  }

  // ----- a cancelled IRP does not wait

  lemma AfterOneMore(es: seq<Event>, e: Event)
    ensures After(es + [e]) == if Enabled(After(es), e) then Step(After(es), e) else After(es)
  {
    assert (es + [e])[..|es|] == es;
  }

  /** The IRP has been through IoCancelIrp's exchange: its flag is set, and the driver has its routine at most between
      setting it and looking at the flag. */
  predicate Exchanged(w: World, i: Node) {
    && i in w.irps && w.irps[i].cancel
    && (w.irps[i].routine ==> w.irps[i].driver == CheckFlag || w.irps[i].driver == Exchange)
  }

  lemma ExchangedStays(w: World, e: Event, i: Node)
    requires Inv(w) && Enabled(w, e) && Exchanged(w, i)
    ensures Exchanged(Step(w, e), i)
  {
    assert IrpOk(w, i);
    if e.Dequeue? {
      HeadIsFirst(w);
    }
  }

  lemma {:induction false} ExchangedSince(es: seq<Event>, m: nat, i: Node)
    requires m < |es| && es[m] == CancelExchange(i) && Enabled(After(es[..m]), es[m])
    ensures Exchanged(After(es), i)
  {
    var past, e := es[..|es| - 1], es[|es| - 1];
    RunsKeep(past);
    if m < |past| {
      assert past[..m] == es[..m];
      ExchangedSince(past, m, i);
      if Enabled(After(past), e) {
        ExchangedStays(After(past), e, i);
      }
    } else {
      assert IrpOk(After(past), i);
    }
  }

  /** In every run, an IRP whose cancellation has been through the exchange, however early, never waits in the queue
      with its routine set afterwards. */
  lemma CancelledNeverWaits(es: seq<Event>, m: nat, i: Node)
    requires m < |es| && es[m] == CancelExchange(i) && Enabled(After(es[..m]), es[m])
    ensures i in After(es).irps && !(After(es).irps[i].driver == Listed && After(es).irps[i].routine)
  {
    ExchangedSince(es, m, i);
  }

  /** IRP i has been through the exchange of IoCancelIrp. */
  ghost predicate WasCancelled(es: seq<Event>, i: Node) {
    exists m :: CancelsAt(es, m, i)
  }

  predicate CancelsAt(es: seq<Event>, m: nat, i: Node) {
    m < |es| && es[m] == CancelExchange(i) && Enabled(After(es[..m]), es[m])
  }

  /** Exactly once: when no side of any IRP can go on, every IRP has been completed once, or waits in the queue with its
      cancel routine set and no cancellation has been through the exchange. */
  lemma QuietMeansCompleted(es: seq<Event>, i: Node)
    requires i in After(es).irps && forall j :: !HasStep(After(es), j)
    ensures var irp := After(es).irps[i];
      irp.completed == 1 || (irp.driver == Listed && irp.routine && irp.completed == 0 && !WasCancelled(es, i))
  {
    QuietOrListed(es, i);
    if WasCancelled(es, i) {
      var m: nat :| CancelsAt(es, m, i);
      CancelledNeverWaits(es, m, i);
    }
  }

  /** What an IRP is completed with: cancelled only if somebody cancelled it, and always so by its cancel routine;
      otherwise with success. */
  lemma CompletedAs(es: seq<Event>, i: Node)
    requires i in After(es).irps && After(es).irps[i].completed == 1
    ensures var irp := After(es).irps[i];
      && (irp.status == Success || (irp.status == CancelledStatus && irp.cancel))
      && (irp.canceller == Cancelled ==> irp.status == CancelledStatus)
  {
    RunsKeep(es);
    assert IrpOk(After(es), i);
  }

  /** Whoever takes the routine out has the IRP, and its status says who; a driver that finds it gone leaves the IRP to
      the canceller, in the queue or linked to itself. */
  lemma WhoGetsTheRoutine(es: seq<Event>, i: Node, e: Event)
    requires e == QueueExchange(i) || e == DequeueExchange(i) || e == CancelExchange(i)
    requires Enabled(After(es), e)
    ensures var w, w' := After(es), Step(After(es), e);
      var irp, irp' := w.irps[i], w'.irps[i];
      if irp.routine then
        && !irp'.routine && (e.CancelExchange? <==> irp'.canceller == Called)
        && (e.QueueExchange? ==> irp'.driver == Finishing && irp'.status == CancelledStatus && w'.lock.None?)
        && (e.DequeueExchange? ==> irp'.driver == Finishing && irp'.status == Success && w'.lock.None?)
      else
        && (e.CancelExchange? ==> w' == w)
        && (e.QueueExchange? ==> irp' == irp.(driver := Insert) && irp.canceller == Called)
        && (e.DequeueExchange? ==> irp'.driver == Left && irp.canceller == Called && SelfLinked(w'.links, i))
  {
    RunsKeep(es);
    assert IrpOk(After(es), i);
  }

  /** The queue is first in, first out, and cancellation takes out the one that is cancelled. */
  lemma QueueOrder(es: seq<Event>, e: Event)
    requires Enabled(After(es), e)
    ensures var w, w' := After(es), After(es + [e]);
      if e.QueueInsert? then w'.queue == w.queue + [e.irp]
      else if e.Dequeue? then w.queue != [] && w'.queue == w.queue[1..] && IrpAt(w', w.queue[0], Taken)
      else w'.queue == if e.CancelUnlink? then Remove(w.queue, e.irp) else w.queue
  {
    RunsKeep(es);
    AfterOneMore(es, e);
    if e.Dequeue? {
      HeadIsFirst(After(es));
    }
  }

  /** IoCancelIrp sets the flag, which stays set. */
  lemma FlagStays(es: seq<Event>, e: Event, i: Node)
    requires i in After(es).irps && (After(es).irps[i].cancel || e == SetFlag(i))
    ensures var w := After(es + [e]); i in w.irps && w.irps[i].cancel
  {
    AfterOneMore(es, e);
  }

  // ----- and quiet comes

  function DriverLeft(d: Driver): nat {
    match d
    case Fresh => 9
    case SetRoutine => 8
    case CheckFlag => 7
    case Exchange => 6
    case Insert => 5
    case Listed => 4
    case Taken => 3
    case Finishing => 2
    case Finished => 0
    case Left => 0
  }

  function CancellerLeft(c: Canceller): nat {
    match c
    case Away => 3
    case Called => 2
    case Unlinked => 1
    case Cancelled => 0
  }

  const STEPS_PER_IRP: nat := 12

  /** What an IRP still has before it. */
  function StepsLeft(w: World, i: Node): nat {
    if i in w.irps then DriverLeft(w.irps[i].driver) + CancellerLeft(w.irps[i].canceller) else STEPS_PER_IRP
  }

  /** The step moves IRP i on; its arrival, the cancel flag and an exchange that finds nothing do not. */
  predicate Moves(w: World, e: Event, i: Node) {
    match e
    case Arrive(_) => false
    case SetFlag(_) => false
    case CancelExchange(j) => i == j && j in w.irps && w.irps[j].routine
    case Dequeue => i == Flink(w.links, 0)
    case _ => e.irp == i
  }

  /** The IRP a step is about. */
  function Subject(w: World, e: Event): Node {
    if e.Dequeue? then Flink(w.links, 0) else e.irp
  }

  lemma OthersWait(w: World, e: Event, i: Node)
    requires Enabled(w, e) && i != Subject(w, e)
    ensures StepsLeft(Step(w, e), i) == StepsLeft(w, i)
  {
  }

  lemma SubjectMoves(w: World, e: Event, i: Node)
    requires IrpOk(w, i) && Enabled(w, e) && i == Subject(w, e) && (e.Dequeue? ==> IrpAt(w, i, Listed))
    ensures StepsLeft(Step(w, e), i) <= StepsLeft(w, i)
    ensures Moves(w, e, i) ==> StepsLeft(Step(w, e), i) < StepsLeft(w, i)
  {
  }

  lemma MoveShrinks(w: World, e: Event, i: Node)
    requires Inv(w) && Enabled(w, e)
    ensures StepsLeft(Step(w, e), i) <= StepsLeft(w, i)
    ensures Moves(w, e, i) ==> StepsLeft(Step(w, e), i) < StepsLeft(w, i)
  {
    if e.Dequeue? {
      HeadIsFirst(w);
    }
    if i == Subject(w, e) {
      assert IrpOk(w, i);
      SubjectMoves(w, e, i);
    } else {
      OthersWait(w, e, i);
    }
  }

  /** How often IRP i moves in a run. */
  function MovesIn(es: seq<Event>, i: Node): nat {
    if es == [] then 0
    else
      var w, e := After(es[..|es| - 1]), es[|es| - 1];
      MovesIn(es[..|es| - 1], i) + (if Enabled(w, e) && Moves(w, e, i) then 1 else 0)
  }

  /** In every run an IRP takes at most twelve steps, so the steps left to all IRPs run out. */
  lemma {:induction false} BoundedSteps(es: seq<Event>, i: Node)
    ensures MovesIn(es, i) + StepsLeft(After(es), i) <= STEPS_PER_IRP
  {
    if es != [] {
      var past, e := es[..|es| - 1], es[|es| - 1];
      BoundedSteps(past, i);
      RunsKeep(past);
      if Enabled(After(past), e) {
        MoveShrinks(After(past), e, i);
      }
    }
  }

  /** The steps of an IRP that HasStep speaks of. */
  predicate SideStep(e: Event, i: Node) {
    || e == QueueLock(i) || e == QueueSet(i) || e == QueueCheck(i) || e == QueueExchange(i) || e == QueueInsert(i)
    || e == DequeueExchange(i) || e == Complete(i) || e == CancelUnlink(i) || e == CancelComplete(i)
  }

  /** Every side step moves its IRP and so uses up one of the steps left to it. */
  lemma SideStepMoves(w: World, i: Node, e: Event)
    requires Inv(w) && SideStep(e, i) && Enabled(w, e)
    ensures Moves(w, e, i) && StepsLeft(Step(w, e), i) < StepsLeft(w, i)
  {
    MoveShrinks(w, e, i);
  }

  lemma SideStepExists(w: World, i: Node)
    requires HasStep(w, i)
    ensures exists e :: SideStep(e, i) && Enabled(w, e)
  {
    var es :=
      [QueueLock(i), QueueSet(i), QueueCheck(i), QueueExchange(i), QueueInsert(i), DequeueExchange(i), Complete(i),
               CancelUnlink(i), CancelComplete(i)];
    assert forall n :: 0 <= n < |es| ==> SideStep(es[n], i);
  }

  /** An IRP that can go on has taken fewer than twelve steps, so one that has taken twelve is at rest. */
  lemma StepsRunOut(es: seq<Event>, i: Node)
    ensures HasStep(After(es), i) ==> MovesIn(es, i) < STEPS_PER_IRP
  {
    var w := After(es);
    if HasStep(w, i) {
      RunsKeep(es);
      SideStepExists(w, i);
      var e :| SideStep(e, i) && Enabled(w, e);
      SideStepMoves(w, i, e);
      BoundedSteps(es, i);
    }
  }
}
