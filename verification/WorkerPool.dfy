/** The cache manager's worker pool, ntoskrnl/cc/lazywrite.c, as interleaved steps: posting an item, a
    worker taking the queue lock, and a worker finishing an item. Every step is one hold of
    LockQueueWorkQueueLock or the work done between two of them; any thread may post at any time. */
module WorkerPool {
  import opened Lists
  import opened Options

  datatype Job = ReadAhead | WriteBehind | LazyScan | SetDone

  /** A work item; ticket is its place in the order of all posts. */
  datatype Item = Item(job: Job, ticket: nat)

  /** Where a worker thread is: parked, about to take the lock (with its DropThrottle), or on an item. */
  datatype Worker = Parked | AtLock(dropThrottle: bool) | Handling(item: Item)

  datatype Pool = Pool(
    express: seq<Item>,
    regular: seq<Item>,
    idle: seq<nat>,
    active: nat,
    throttle: bool,
    workers: seq<Worker>,
    posted: seq<Item>,
    done: seq<Item>)

  datatype Event = Post(job: Job, toExpress: bool) | Take(worker: nat) | Finish(worker: nat)

  predicate Enabled(p: Pool, e: Event) {
    match e
    case Post(_, _) => true
    case Take(w) => w < |p.workers| && p.workers[w].AtLock?
    case Finish(w) => w < |p.workers| && p.workers[w].Handling?
  }

  /** CcPostWorkQueue: queue the item; start an idle worker unless throttled. */
  function PostStep(p: Pool, f: Job, toExpress: bool): Pool {
    var item := Item(f, |p.posted|);
    var q := p.(express := if toExpress then p.express + [item] else p.express,
                regular := if toExpress then p.regular else p.regular + [item],
                posted := p.posted + [item]);
    if p.throttle || p.idle == [] || p.idle[0] >= |p.workers| then q
    else q.(idle := p.idle[1..], active := p.active + 1, workers := p.workers[p.idle[0] := AtLock(false)])
  }

  /** CcWorkerThread, the end: the worker is available again. */
  function Park(p: Pool, w: nat): Pool
    requires w < |p.workers| && p.active > 0
  {
    p.(idle := p.idle + [w], active := p.active - 1, workers := p.workers[w := Parked])
  }

  /** CcWorkerThread, one hold of the queue lock. */
  function TakeStep(p: Pool, w: nat): Pool
    requires Enabled(p, Take(w)) && p.active > 0
  {
    var q := if p.workers[w].dropThrottle then p.(throttle := false) else p;
    if p.express == [] && p.regular == [] then Park(q, w)
    else if Head(p).job == SetDone && p.active > 1 then Park(q.(throttle := true), w)
    else Fetch(q, w)
  }

  /** The item a worker looks at: the express queue goes first. */
  function Head(p: Pool): Item
    requires p.express != [] || p.regular != []
  {
    if p.express != [] then p.express[0] else p.regular[0]
  }

  /** The worker takes the item off its queue. */
  function Fetch(p: Pool, w: nat): Pool
    requires w < |p.workers| && (p.express != [] || p.regular != [])
  {
    if p.express != [] then p.(express := p.express[1..], workers := p.workers[w := Handling(Head(p))])
    else p.(regular := p.regular[1..], workers := p.workers[w := Handling(Head(p))])
  }

  function FinishStep(p: Pool, w: nat): Pool
    requires Enabled(p, Finish(w))
  {
    var item := p.workers[w].item;
    p.(done := p.done + [item], workers := p.workers[w := AtLock(item.job == SetDone)])
  }

  function Step(p: Pool, e: Event): Pool
    requires Enabled(p, e) && (e.Take? ==> p.active > 0)
  {
    match e
    case Post(f, toExpress) => PostStep(p, f, toExpress)
    case Take(w) => TakeStep(p, w)
    case Finish(w) => FinishStep(p, w)
  }

  /** CcInitializeCacheManager: every worker starts out idle. */
  function Initial(size: nat): Pool {
    Pool([], [], seq(size, i => i), 0, false, seq(size, i => Parked), [], [])
  }

  // ----- counting workers and items

  function Has(w: Worker, item: Item): nat {
    if w == Handling(item) then 1 else 0
  }

  /** How many of the first n workers are not parked. */
  function Running(ws: seq<Worker>, n: nat): nat
    requires n <= |ws|
  {
    if n == 0 then 0 else Running(ws, n - 1) + One(!ws[n - 1].Parked?)
  }

  /** How many of the first n workers are on the item. */
  function InHand(ws: seq<Worker>, n: nat, item: Item): nat
    requires n <= |ws|
  {
    if n == 0 then 0 else InHand(ws, n - 1, item) + Has(ws[n - 1], item)
  }

  lemma {:induction false} RunningChanges(ws: seq<Worker>, w: nat, x: Worker, n: nat)
    requires w < |ws| && n <= |ws|
    ensures Running(ws[w := x], n) == Running(ws, n) + (if w < n then One(!x.Parked?) - One(!ws[w].Parked?) else 0)
  {
    if n > 0 {
      RunningChanges(ws, w, x, n - 1);
    }
  }

  lemma {:induction false} InHandChanges(ws: seq<Worker>, w: nat, x: Worker, n: nat, item: Item)
    requires w < |ws| && n <= |ws|
    ensures InHand(ws[w := x], n, item) == InHand(ws, n, item) + (if w < n then Has(x, item) - Has(ws[w], item) else 0)
  {
    if n > 0 {
      InHandChanges(ws, w, x, n - 1, item);
    }
  }

  lemma {:induction false} RunningAtLeast(ws: seq<Worker>, n: nat, w: nat)
    requires w < n <= |ws| && !ws[w].Parked?
    ensures Running(ws, n) >= 1
    ensures forall v :: 0 <= v < n && v != w && !ws[v].Parked? ==> Running(ws, n) >= 2
  {
    if w < n - 1 {
      RunningAtLeast(ws, n - 1, w);
    } else {
      forall v | 0 <= v < n - 1 && !ws[v].Parked?
        ensures Running(ws, n) >= 2
      {
        RunningAtLeast(ws, n - 1, v);
      }
    }
  }

  lemma {:induction false} InNoHand(ws: seq<Worker>, n: nat, item: Item)
    requires n <= |ws| && forall v :: 0 <= v < n ==> !ws[v].Handling?
    ensures InHand(ws, n, item) == 0
  {
    if n > 0 {
      InNoHand(ws, n - 1, item);
    }
  }

  // ----- the invariant

  /** active counts the workers that are not parked, and the idle list holds parked workers once each. */
  ghost predicate CountedIn(idle: seq<nat>, active: nat, ws: seq<Worker>) {
    && active == Running(ws, |ws|)
    && |idle| + active == |ws|
    && (forall i :: 0 <= i < |idle| ==> idle[i] < |ws| && ws[idle[i]].Parked?)
    && Distinct(idle)
  }

  ghost predicate Counted(p: Pool) {
    CountedIn(p.idle, p.active, p.workers)
  }

  /** In how many places an item is. */
  function Places(p: Pool, item: Item): nat {
    multiset(p.express)[item] + multiset(p.regular)[item]
    + InHand(p.workers, |p.workers|, item) + multiset(p.done)[item]
  }

  /** Every posted item is in exactly one place: a queue, a worker's hands, or done. */
  ghost predicate Conserved(p: Pool) {
    Numbered(p.posted) && forall item :: PlacedAsPosted(p, item)
  }

  ghost predicate PlacedAsPosted(p: Pool, item: Item) {
    multiset(p.posted)[item] == Places(p, item)
  }

  ghost predicate Numbered(posted: seq<Item>) {
    forall t :: 0 <= t < |posted| ==> posted[t].ticket == t
  }

  ghost predicate Earlier(q: seq<Item>, i: nat, j: nat)
    requires i < |q| && j < |q|
  {
    q[i].ticket < q[j].ticket
  }

  /** A queue holds its items in the order of their posts, all posted before ticket n. */
  ghost predicate InOrder(q: seq<Item>, n: nat) {
    && (forall i, j :: 0 <= i < j < |q| ==> Earlier(q, i, j))
    && (forall i :: 0 <= i < |q| ==> q[i].ticket < n)
  }

  ghost predicate Fifo(p: Pool) {
    InOrder(p.express, |p.posted|) && InOrder(p.regular, |p.posted|)
  }

  ghost predicate Waiting(q: seq<Item>) {
    exists i :: 0 <= i < |q| && q[i].job == SetDone
  }

  /** The worker will drop the throttle the next time it takes the lock. */
  predicate Dropping(w: Worker) {
    w == AtLock(true) || (w.Handling? && w.item.job == SetDone)
  }

  /** A throttled pool has a SetDone queued or a worker on the way to drop the throttle. */
  ghost predicate Throttled(p: Pool) {
    p.throttle ==>
      Waiting(p.express) || Waiting(p.regular) || exists w :: 0 <= w < |p.workers| && Dropping(p.workers[w])
  }

  /** Work is never left without a worker, and neither is a throttled pool. */
  ghost predicate Attended(p: Pool) {
    |p.workers| > 0 && (p.express != [] || p.regular != [] || p.throttle) ==> p.active > 0
  }

  ghost predicate Inv(p: Pool) {
    Counted(p) && Conserved(p) && Fifo(p) && Throttled(p) && Attended(p)
  }

  // ----- every step keeps it

  lemma InitialInv(size: nat)
    ensures Inv(Initial(size))
  {
    var p := Initial(size);
    AllParked(p.workers, size);
    forall item
      ensures PlacedAsPosted(p, item)
    {
      InNoHand(p.workers, size, item);
    }
  }

  lemma {:induction false} AllParked(ws: seq<Worker>, n: nat)
    requires n <= |ws| && forall w :: 0 <= w < n ==> ws[w].Parked?
    ensures Running(ws, n) == 0
  {
    if n > 0 {
      AllParked(ws, n - 1);
    }
  }

  lemma AppendInOrder(q: seq<Item>, item: Item)
    requires InOrder(q, item.ticket)
    ensures InOrder(q + [item], item.ticket + 1)
  {
    var r := q + [item];
    forall i, j | 0 <= i < j < |r|
      ensures Earlier(r, i, j)
    {
      assert j < |q| ==> Earlier(q, i, j);
    }
  }

  lemma RestInOrder(q: seq<Item>, n: nat)
    requires q != [] && InOrder(q, n)
    ensures InOrder(q[1..], n)
  {
    var r := q[1..];
    forall i, j | 0 <= i < j < |r|
      ensures Earlier(r, i, j)
    {
      assert Earlier(q, i + 1, j + 1);
    }
  }

  lemma FifoAfter(p: Pool, e: Event)
    requires Fifo(p) && Enabled(p, e) && (e.Take? ==> p.active > 0)
    ensures Fifo(Step(p, e))
  {
    match e
    case Post(f, toExpress) =>
      AppendInOrder(p.express, Item(f, |p.posted|));
      AppendInOrder(p.regular, Item(f, |p.posted|));
    case Take(w) =>
      if p.express != [] {
        RestInOrder(p.express, |p.posted|);
      } else if p.regular != [] {
        RestInOrder(p.regular, |p.posted|);
      }
    case Finish(w) =>
  }

  lemma SpawnCounted(idle: seq<nat>, active: nat, ws: seq<Worker>)
    requires CountedIn(idle, active, ws) && idle != []
    ensures CountedIn(idle[1..], active + 1, ws[idle[0] := AtLock(false)])
  {
    RunningChanges(ws, idle[0], AtLock(false), |ws|);
    var rest := idle[1..];
    forall i | 0 <= i < |rest|
      ensures rest[i] != idle[0]
    {
      assert Apart(idle, 0, i + 1);
    }
    forall i, j | 0 <= i < j < |rest|
      ensures Apart(rest, i, j)
    {
      assert Apart(idle, i + 1, j + 1);
    }
  }

  lemma ParkCounted(idle: seq<nat>, active: nat, ws: seq<Worker>, w: nat)
    requires CountedIn(idle, active, ws) && w < |ws| && !ws[w].Parked?
    ensures active > 0 && CountedIn(idle + [w], active - 1, ws[w := Parked])
  {
    RunningAtLeast(ws, |ws|, w);
    RunningChanges(ws, w, Parked, |ws|);
    var more := idle + [w];
    forall i, j | 0 <= i < j < |more|
      ensures Apart(more, i, j)
    {
      assert j < |idle| ==> Apart(idle, i, j);
    }
  }

  lemma GoOnCounted(idle: seq<nat>, active: nat, ws: seq<Worker>, w: nat, x: Worker)
    requires CountedIn(idle, active, ws) && w < |ws| && !ws[w].Parked? && !x.Parked?
    ensures CountedIn(idle, active, ws[w := x])
  {
    RunningChanges(ws, w, x, |ws|);
  }

  lemma CountedAfter(p: Pool, e: Event)
    requires Counted(p) && Enabled(p, e)
    ensures e.Take? ==> p.active > 0
    ensures Counted(Step(p, e))
  {
    match e
    case Post(f, toExpress) =>
      if p.idle != [] {
        SpawnCounted(p.idle, p.active, p.workers);
      }
    case Take(w) =>
      ParkCounted(p.idle, p.active, p.workers, w);
      if p.express != [] || p.regular != [] {
        GoOnCounted(p.idle, p.active, p.workers, w, Handling(Head(p)));
      }
    case Finish(w) =>
      GoOnCounted(p.idle, p.active, p.workers, w, AtLock(p.workers[w].item.job == SetDone));
  }

  lemma PlacesAfterPost(p: Pool, f: Job, toExpress: bool, item: Item)
    requires Counted(p)
    ensures Places(PostStep(p, f, toExpress), item) + multiset(p.posted)[item]
         == Places(p, item) + multiset(PostStep(p, f, toExpress).posted)[item]
  {
    if p.idle != [] {
      InHandChanges(p.workers, p.idle[0], AtLock(false), |p.workers|, item);
    }
  }

  lemma CountHead(q: seq<Item>, item: Item)
    requires q != []
    ensures multiset(q)[item] == multiset(q[1..])[item] + Has(Handling(q[0]), item)
  {
    assert q == [q[0]] + q[1..];
  }

  lemma PlacesAfterPark(p: Pool, w: nat, item: Item)
    requires Enabled(p, Take(w)) && p.active > 0
    ensures Places(Park(p, w), item) == Places(p, item)
  {
    InHandChanges(p.workers, w, Parked, |p.workers|, item);
  }

  lemma PlacesAfterFetch(p: Pool, w: nat, item: Item)
    requires Enabled(p, Take(w)) && (p.express != [] || p.regular != [])
    ensures Places(Fetch(p, w), item) == Places(p, item)
  {
    InHandChanges(p.workers, w, Handling(Head(p)), |p.workers|, item);
    CountHead(if p.express != [] then p.express else p.regular, item);
  }

  lemma PlacesAfterTake(p: Pool, w: nat, item: Item)
    requires Enabled(p, Take(w)) && p.active > 0
    ensures Places(TakeStep(p, w), item) == Places(p, item)
  {
    var q := if p.workers[w].dropThrottle then p.(throttle := false) else p;
    assert Places(q, item) == Places(p, item) == Places(q.(throttle := true), item);
    if p.express == [] && p.regular == [] {
      PlacesAfterPark(q, w, item);
    } else if Head(p).job == SetDone && p.active > 1 {
      PlacesAfterPark(q.(throttle := true), w, item);
    } else {
      PlacesAfterFetch(q, w, item);
    }
  }

  lemma PlacesAfterFinish(p: Pool, w: nat, item: Item)
    requires Enabled(p, Finish(w))
    ensures Places(FinishStep(p, w), item) == Places(p, item)
  {
    InHandChanges(p.workers, w, FinishStep(p, w).workers[w], |p.workers|, item);
  }

  lemma ConservedAfter(p: Pool, e: Event)
    requires Counted(p) && Conserved(p) && Enabled(p, e) && (e.Take? ==> p.active > 0)
    ensures Conserved(Step(p, e))
  {
    forall item
      ensures PlacedAsPosted(Step(p, e), item)
    {
      PlacedAfter(p, e, item);
    }
  }

  lemma PlacedAfter(p: Pool, e: Event, item: Item)
    requires Counted(p) && PlacedAsPosted(p, item) && Enabled(p, e) && (e.Take? ==> p.active > 0)
    ensures PlacedAsPosted(Step(p, e), item)
  {
    PlacesAfter(p, e, item);
  }

  lemma PlacesAfter(p: Pool, e: Event, item: Item)
    requires Counted(p) && Enabled(p, e) && (e.Take? ==> p.active > 0)
    ensures Places(Step(p, e), item) + multiset(p.posted)[item]
         == Places(p, item) + multiset(Step(p, e).posted)[item]
  {
    match e
    case Post(f, toExpress) => PlacesAfterPost(p, f, toExpress, item);
    case Take(w) => PlacesAfterTake(p, w, item);
    case Finish(w) => PlacesAfterFinish(p, w, item);
  }

  lemma ThrottledAfterPost(p: Pool, f: Job, toExpress: bool)
    requires Counted(p) && Throttled(p)
    ensures Throttled(PostStep(p, f, toExpress))
  {
    var q := PostStep(p, f, toExpress);
    if q.throttle {
      if Waiting(p.express) {
        var i :| 0 <= i < |p.express| && p.express[i].job == SetDone;
        assert q.express[i].job == SetDone;
      } else if Waiting(p.regular) {
        var i :| 0 <= i < |p.regular| && p.regular[i].job == SetDone;
        assert q.regular[i].job == SetDone;
      }
    }
  }

  lemma ThrottledAfterTake(p: Pool, w: nat)
    requires Throttled(p) && Enabled(p, Take(w)) && p.active > 0
    ensures Throttled(TakeStep(p, w))
  {
    var q := TakeStep(p, w);
    if p.throttle && exists v :: 0 <= v < |p.workers| && Dropping(p.workers[v]) {
      var v :| 0 <= v < |p.workers| && Dropping(p.workers[v]);
      assert v != w ==> Dropping(q.workers[v]);
    }
    if q.workers[w].Handling? {
      StillWaiting(p.express);
      StillWaiting(p.regular);
      assert Head(p).job == SetDone ==> Dropping(q.workers[w]);
    } else if p.express != [] {
      assert q.express[0] == Head(p);
    } else if p.regular != [] {
      assert q.regular[0] == Head(p);
    }
  }

  lemma StillWaiting(q: seq<Item>)
    ensures Waiting(q) ==> q[0].job == SetDone || Waiting(q[1..])
  {
    if Waiting(q) && q[0].job != SetDone {
      var i :| 0 <= i < |q| && q[i].job == SetDone;
      assert q[1..][i - 1].job == SetDone;
    }
  }

  lemma ThrottledAfterFinish(p: Pool, w: nat)
    requires Throttled(p) && Enabled(p, Finish(w))
    ensures Throttled(FinishStep(p, w))
  {
    var q := FinishStep(p, w);
    if exists v :: 0 <= v < |p.workers| && Dropping(p.workers[v]) {
      var v :| 0 <= v < |p.workers| && Dropping(p.workers[v]);
      assert Dropping(q.workers[v]);
    }
  }

  lemma AttendedAfter(p: Pool, e: Event)
    requires Counted(p) && Throttled(p) && Attended(p) && Enabled(p, e) && (e.Take? ==> p.active > 0)
    ensures Attended(Step(p, e))
  {
    match e
    case Post(f, toExpress) =>
    case Take(w) =>
      var q := TakeStep(p, w);
      if p.express == [] && p.regular == [] && q.throttle {
        var v :| 0 <= v < |p.workers| && Dropping(p.workers[v]);
        RunningAtLeast(p.workers, |p.workers|, w);
        assert v != w && !p.workers[v].Parked?;
      }
    case Finish(w) =>
      RunningAtLeast(p.workers, |p.workers|, w);
  }

  /** Every step keeps the invariant. */
  lemma StepKeeps(p: Pool, e: Event)
    requires Inv(p) && Enabled(p, e)
    ensures e.Take? ==> p.active > 0
    ensures Inv(Step(p, e))
  {
    CountedAfter(p, e);
    ConservedAfter(p, e);
    FifoAfter(p, e);
    AttendedAfter(p, e);
    match e
    case Post(f, toExpress) => ThrottledAfterPost(p, f, toExpress);
    case Take(w) => ThrottledAfterTake(p, w);
    case Finish(w) => ThrottledAfterFinish(p, w);
    assert Conserved(Step(p, e));
  }

  // ----- whole runs

  ghost predicate Runs(p: Pool, es: seq<Event>)
    decreases |es|
  {
    es == [] || (Enabled(p, es[0]) && (es[0].Take? ==> p.active > 0) && Runs(Step(p, es[0]), es[1..]))
  }

  ghost function After(p: Pool, es: seq<Event>): Pool
    requires Runs(p, es)
    decreases |es|
  {
    if es == [] then p else After(Step(p, es[0]), es[1..])
  }

  /** In every interleaving, from the initial state or any other that satisfies it, the invariant holds:
      workers are counted, items are conserved, and work or a throttle is never left unattended. */
  lemma {:induction false} RunKeeps(p: Pool, es: seq<Event>)
    requires Inv(p) && Runs(p, es)
    ensures Inv(After(p, es)) && |After(p, es).workers| == |p.workers|
    decreases |es|
  {
    if es != [] {
      StepKeeps(p, es[0]);
      RunKeeps(Step(p, es[0]), es[1..]);
    }
  }

  lemma {:induction false} PostedOnce(posted: seq<Item>, t: nat, n: nat)
    requires Numbered(posted) && t < |posted| && n <= |posted|
    ensures multiset(posted[..n])[posted[t]] == if t < n then 1 else 0
  {
    if n > 0 {
      PostedOnce(posted, t, n - 1);
      assert posted[..n] == posted[..n - 1] + [posted[n - 1]];
    }
  }

  /** Each posted item is in exactly one place. */
  lemma OnePlace(p: Pool, t: nat)
    requires Conserved(p) && t < |p.posted|
    ensures Places(p, p.posted[t]) == 1
  {
    PostedOnce(p.posted, t, |p.posted|);
    assert p.posted[..|p.posted|] == p.posted;
    assert PlacedAsPosted(p, p.posted[t]);
  }

  lemma QueuedIsPosted(p: Pool, item: Item)
    requires Conserved(p) && (item in p.express || item in p.regular)
    ensures item.ticket < |p.posted| && p.posted[item.ticket] == item
  {
    assert PlacedAsPosted(p, item);
    assert item in multiset(p.posted);
  }

  /** Barrier: when a worker takes a SetDone off a queue, everything posted before it has been completely
      handled, except exactly when the SetDone came from the express queue ahead of older regular work. */
  lemma Barrier(p: Pool, w: nat)
    requires Inv(p) && Enabled(p, Take(w)) && p.active > 0
    requires TakeStep(p, w).workers[w].Handling? && TakeStep(p, w).workers[w].item.job == SetDone
    ensures var item := TakeStep(p, w).workers[w].item;
      (forall t :: 0 <= t < item.ticket && t < |p.posted| ==> p.posted[t] in p.done) <==>
      (p.express == [] || p.regular == [] || p.regular[0].ticket > item.ticket)
  {
    var item := Head(p);
    QueuedIsPosted(p, item);
    if p.regular != [] {
      QueuedIsPosted(p, p.regular[0]);
      OnePlace(p, p.regular[0].ticket);
    }
    if p.express == [] || p.regular == [] || p.regular[0].ticket > item.ticket {
      forall t | 0 <= t < item.ticket
        ensures p.posted[t] in p.done
      {
        EarlierIsDone(p, w, t);
      }
    } else {
      OnePlace(p, item.ticket);
      assert p.posted[p.regular[0].ticket] !in p.done;
    }
  }

  lemma EarlierIsDone(p: Pool, w: nat, t: nat)
    requires Inv(p) && Enabled(p, Take(w)) && p.active == 1 && (p.express != [] || p.regular != [])
    requires t < Head(p).ticket && t < |p.posted|
    requires p.express == [] || p.regular == [] || p.regular[0].ticket > Head(p).ticket
    ensures p.posted[t] in p.done
  {
    RunningAtLeast(p.workers, |p.workers|, w);
    InNoHand(p.workers, |p.workers|, p.posted[t]);
    NotQueued(p.express, p.posted[t], |p.posted|);
    NotQueued(p.regular, p.posted[t], |p.posted|);
    OnePlace(p, t);
  }

  lemma NotQueued(q: seq<Item>, item: Item, n: nat)
    requires InOrder(q, n) && (q != [] ==> item.ticket < q[0].ticket)
    ensures item !in q
  {
    forall i | 0 <= i < |q|
      ensures q[i] != item
    {
      assert i > 0 ==> Earlier(q, 0, i);
    }
  }

  /** As the source posts them: SetDone items go to the regular queue. */
  predicate AsPosted(e: Event) {
    e.Post? && e.job == SetDone ==> !e.toExpress
  }

  ghost predicate NoExpressBarrier(p: Pool) {
    forall i :: 0 <= i < |p.express| ==> p.express[i].job != SetDone
  }

  lemma {:induction false} RunKeepsExpress(p: Pool, es: seq<Event>)
    requires NoExpressBarrier(p) && Runs(p, es) && forall i :: 0 <= i < |es| ==> AsPosted(es[i])
    ensures NoExpressBarrier(After(p, es))
    decreases |es|
  {
    if es != [] {
      assert AsPosted(es[0]);
      RunKeepsExpress(Step(p, es[0]), es[1..]);
    }
  }

  /** In every run of the pool, when a worker takes a SetDone, every item posted before it is done. */
  lemma BarrierInEveryRun(size: nat, es: seq<Event>, w: nat)
    requires Runs(Initial(size), es) && forall i :: 0 <= i < |es| ==> AsPosted(es[i])
    requires var p := After(Initial(size), es);
      Enabled(p, Take(w)) && p.active > 0 && TakeStep(p, w).workers[w].Handling?
    ensures var p := After(Initial(size), es);
      var item := TakeStep(p, w).workers[w].item;
      item.job == SetDone ==> forall t :: 0 <= t < item.ticket && t < |p.posted| ==> p.posted[t] in p.done
  {
    var p := After(Initial(size), es);
    InitialInv(size);
    RunKeeps(Initial(size), es);
    RunKeepsExpress(Initial(size), es);
    if TakeStep(p, w).workers[w].item.job == SetDone {
      Barrier(p, w);
    }
  }

  // ----- which queue an item waits in

  function SentBy(e: Event): seq<bool> {
    if e.Post? then [e.toExpress] else []
  }

  /** For each post of a run, whether it was to the express queue. */
  function Sent(es: seq<Event>): seq<bool> {
    if es == [] then [] else SentBy(es[0]) + Sent(es[1..])
  }

  /** Every item of the queue was posted to it. */
  ghost predicate AllSent(q: seq<Item>, sent: seq<bool>, toExpress: bool) {
    forall i :: 0 <= i < |q| ==> q[i].ticket < |sent| && sent[q[i].ticket] == toExpress
  }

  ghost predicate QueuedAsSent(p: Pool, sent: seq<bool>) {
    |sent| == |p.posted| && AllSent(p.express, sent, true) && AllSent(p.regular, sent, false)
  }

  lemma StillSent(q: seq<Item>, sent: seq<bool>, toExpress: bool, more: seq<bool>)
    requires AllSent(q, sent, toExpress)
    ensures AllSent(q, sent + more, toExpress) && (q != [] ==> AllSent(q[1..], sent, toExpress))
  {
  }

  lemma StepKeepsQueues(p: Pool, e: Event, sent: seq<bool>)
    requires QueuedAsSent(p, sent) && Enabled(p, e) && (e.Take? ==> p.active > 0)
    ensures QueuedAsSent(Step(p, e), sent + SentBy(e))
  {
    StillSent(p.express, sent, true, SentBy(e));
    StillSent(p.regular, sent, false, SentBy(e));
    assert !e.Post? ==> sent + SentBy(e) == sent;
  }

  lemma {:induction false} RunKeepsQueues(p: Pool, es: seq<Event>, sent: seq<bool>, all: seq<bool>)
    requires QueuedAsSent(p, sent) && Runs(p, es) && all == sent + Sent(es)
    ensures QueuedAsSent(After(p, es), all)
    decreases |es|
  {
    if es != [] {
      StepKeepsQueues(p, es[0], sent);
      RunKeepsQueues(Step(p, es[0]), es[1..], sent + SentBy(es[0]), all);
    }
  }

  /** In every run, an item waits in the queue it was posted to, and one from the regular queue is taken only when the
      express queue is empty. */
  lemma ExpressFirst(size: nat, es: seq<Event>, w: nat)
    requires Runs(Initial(size), es)
    requires var p := After(Initial(size), es);
      Enabled(p, Take(w)) && p.active > 0 && TakeStep(p, w).workers[w].Handling?
    ensures var p := After(Initial(size), es);
      var item := TakeStep(p, w).workers[w].item;
      && QueuedAsSent(p, Sent(es)) && item.ticket < |Sent(es)|
      && (if Sent(es)[item.ticket] then item in p.express else item in p.regular && p.express == [])
  {
    var p := After(Initial(size), es);
    RunKeepsQueues(Initial(size), es, [], Sent(es));
    assert p.express != [] ==> p.express[0] in p.express;
    assert p.regular != [] ==> p.regular[0] in p.regular;
  }

  // ----- the pool drains

  function Weight(w: Worker): nat {
    match w
    case Parked => 0
    case AtLock(_) => 1
    case Handling(_) => 2
  }

  function Load(ws: seq<Worker>, n: nat): nat
    requires n <= |ws|
  {
    if n == 0 then 0 else Load(ws, n - 1) + Weight(ws[n - 1])
  }

  function Measure(p: Pool): nat {
    2 * |p.express| + 2 * |p.regular| + Load(p.workers, |p.workers|)
  }

  lemma {:induction false} LoadChanges(ws: seq<Worker>, w: nat, x: Worker, n: nat)
    requires w < |ws| && n <= |ws|
    ensures Load(ws[w := x], n) == Load(ws, n) + (if w < n then Weight(x) - Weight(ws[w]) else 0)
  {
    if n > 0 {
      LoadChanges(ws, w, x, n - 1);
    }
  }

  lemma WorkerStepShrinks(p: Pool, e: Event)
    requires !e.Post? && Enabled(p, e) && (e.Take? ==> p.active > 0)
    ensures Measure(Step(p, e)) < Measure(p)
  {
    LoadChanges(p.workers, e.worker, Step(p, e).workers[e.worker], |p.workers|);
  }

  /** Without new posts, the workers stop after a bounded number of steps. */
  lemma {:induction false} RunsShrink(p: Pool, es: seq<Event>)
    requires Runs(p, es) && forall i :: 0 <= i < |es| ==> !es[i].Post?
    ensures |es| + Measure(After(p, es)) <= Measure(p)
    decreases |es|
  {
    if es != [] {
      WorkerStepShrinks(p, es[0]);
      RunsShrink(Step(p, es[0]), es[1..]);
    }
  }

  /** When no worker can move, every item ever posted has been handled, exactly once, and the throttle is off. */
  lemma QuietMeansDone(p: Pool)
    requires Inv(p) && |p.workers| > 0
    requires forall w :: 0 <= w < |p.workers| ==> !Enabled(p, Take(w)) && !Enabled(p, Finish(w))
    ensures p.express == [] && p.regular == [] && !p.throttle
    ensures multiset(p.done) == multiset(p.posted)
  {
    forall w | 0 <= w < |p.workers|
      ensures p.workers[w].Parked?
    {
      assert !Enabled(p, Take(w)) && !Enabled(p, Finish(w));
    }
    AllParked(p.workers, |p.workers|);
    forall item
      ensures multiset(p.done)[item] == multiset(p.posted)[item]
    {
      InNoHand(p.workers, |p.workers|, item);
      assert PlacedAsPosted(p, item);
    }
  }

  /** A SetDone comes next while another worker is still active. */
  ghost predicate MustStop(express: seq<Item>, regular: seq<Item>, active: nat) {
    active > 1 && if express != [] then express[0].job == SetDone else regular != [] && regular[0].job == SetDone
  }

  /** The queues, counters and threads as the source holds them: fields changed under the queue lock.
      Each method is one step of the protocol above. */
  class WorkQueues {
    var express: seq<Item>
    var regular: seq<Item>
    var idle: seq<nat>
    var active: nat
    var throttle: bool
    var workers: seq<Worker>
    ghost var posted: seq<Item>
    ghost var done: seq<Item>

    ghost function State(): Pool
      reads this
    {
      Pool(express, regular, idle, active, throttle, workers, posted, done)
    }

    ghost predicate Valid()
      reads this
    {
      Inv(State())
    }

    constructor (size: nat)
      ensures Valid() && State() == Initial(size)
    {
      express, regular, active, throttle := [], [], 0, false;
      idle := seq(size, i => i);
      workers := seq(size, i => Parked);
      posted, done := [], [];
      new;
      InitialInv(size);
    }

    /** CcPostWorkQueue: the item goes behind everything posted before it, and a worker is there to get to it. */
    method PostWorkQueue(item: Item, toExpress: bool)
      requires Valid() && item.ticket == |posted|
      modifies this
      ensures Valid() && State() == PostStep(old(State()), item.job, toExpress)
      ensures posted == old(posted) + [item] && done == old(done) && Places(State(), item) == 1
      ensures |workers| > 0 ==> active > 0
      ensures express == if toExpress then old(express) + [item] else old(express)
      ensures regular == if toExpress then old(regular) else old(regular) + [item]
      ensures throttle == old(throttle)
      ensures throttle || old(idle) == [] ==> workers == old(workers) && idle == old(idle) && active == old(active)
      ensures !throttle && old(idle) != [] ==>
        && old(idle)[0] < |workers| && workers == old(workers)[old(idle)[0] := AtLock(false)]
        && idle == old(idle)[1..] && active == old(active) + 1
    {
      ghost var p := State();
      StepKeeps(p, Post(item.job, toExpress));
      assert idle != [] ==> idle[0] < |workers|;
      EnterQueue(item, toExpress);
      OnePlace(State(), item.ticket);
    }

    /** The code under the lock. */
    method EnterQueue(item: Item, toExpress: bool)
      requires item.ticket == |posted| && (idle != [] ==> idle[0] < |workers|)
      modifies this
      ensures State() == PostStep(old(State()), item.job, toExpress)
    {
      if toExpress {
        express := express + [item];
      } else {
        regular := regular + [item];
      }
      posted := posted + [item];
      if !throttle && idle != [] {
        var spawn := idle[0];
        idle := idle[1..];
        active := active + 1;
        workers := workers[spawn := AtLock(false)];
      }
    }

    /** CcWorkerThread, from taking the lock to releasing it: an item to handle, or none and the thread parks. A SetDone
        is only handed out when everything posted before it is done, unless it overtook older regular work on the
        express queue; and no work is left behind without a worker. */
    method LookForWork(w: nat) returns (work: Option<Item>)
      requires Valid() && w < |workers| && workers[w].AtLock?
      modifies this
      ensures old(active) > 0 && Valid() && State() == TakeStep(old(State()), w)
      ensures work == if workers[w].Handling? then Some(workers[w].item) else None
      ensures work.Some? && work.value.job == SetDone ==>
        ((forall t :: 0 <= t < work.value.ticket && t < |posted| ==> posted[t] in done) <==>
         old(express == [] || regular == []) || old(regular)[0].ticket > work.value.ticket)
      ensures work.None? && (express != [] || regular != [] || throttle) ==> active > 0
      ensures work.Some? && old(express) != [] ==>
        work.value == old(express)[0] && express == old(express)[1..] && regular == old(regular)
      ensures work.Some? && old(express) == [] ==>
        old(regular) != [] && work.value == old(regular)[0] && regular == old(regular)[1..] && express == []
      ensures work.None? ==> express == old(express) && regular == old(regular)
      ensures work.None? <==> old(express == [] && regular == []) || old(MustStop(express, regular, active))
      ensures throttle <==>
        old(MustStop(express, regular, active)) || (old(throttle) && !old(workers)[w].dropThrottle)
      ensures work.Some? ==> idle == old(idle) && active == old(active) && workers == old(workers)[w := workers[w]]
      ensures work.None? ==>
        idle == old(idle) + [w] && active == old(active) - 1 && workers == old(workers)[w := Parked]
      ensures posted == old(posted) && done == old(done)
    {
      ghost var p := State();
      StepKeeps(p, Take(w));
      work := TakeWork(w);
      if work.Some? && work.value.job == SetDone {
        Barrier(p, w);
      }
    }

    /** The code under the lock. */
    method TakeWork(w: nat) returns (work: Option<Item>)
      requires w < |workers| && workers[w].AtLock? && active > 0
      modifies this
      ensures State() == TakeStep(old(State()), w)
      ensures work == if workers[w].Handling? then Some(workers[w].item) else None
    {
      if workers[w].dropThrottle {
        throttle := false;
      }
      if express != [] || regular != [] {
        var item := if express != [] then express[0] else regular[0];
        if item.job == SetDone && active > 1 {
          throttle := true;
        } else {
          if express != [] {
            express := express[1..];
          } else {
            regular := regular[1..];
          }
          workers := workers[w := Handling(item)];
          return Some(item);
        }
      }
      idle := idle + [w];
      active := active - 1;
      workers := workers[w := Parked];
      work := None;
    }

    /** CcWorkerThread, after the item is handled, which it never was before; a SetDone also makes the thread drop the
        throttle. */
    method FinishWork(w: nat)
      requires Valid() && w < |workers| && workers[w].Handling?
      modifies this
      ensures Valid() && State() == FinishStep(old(State()), w)
      ensures old(workers)[w].item !in old(done) && multiset(done)[old(workers)[w].item] == 1
      ensures done == old(done) + [old(workers)[w].item] && posted == old(posted)
      ensures workers == old(workers)[w := AtLock(old(workers)[w].item.job == SetDone)]
      ensures express == old(express) && regular == old(regular) && throttle == old(throttle)
      ensures idle == old(idle) && active == old(active)
    {
      ghost var p := State();
      StepKeeps(p, Finish(w));
      var item := workers[w].item;
      HandledOnce(p, w);
      done := done + [item];
      workers := workers[w := AtLock(item.job == SetDone)];
      assert State() == FinishStep(p, w);
    }
  }

  /** What a worker has in its hands is not done yet. */
  lemma HandledOnce(p: Pool, w: nat)
    requires Inv(p) && Enabled(p, Finish(w))
    ensures p.workers[w].item !in p.done && multiset(p.done)[p.workers[w].item] == 0
  {
    var item := p.workers[w].item;
    InHandAtLeast(p.workers, |p.workers|, w, item);
    assert PlacedAsPosted(p, item);
    assert item in multiset(p.posted);
    OnePlace(p, item.ticket);
  }

  lemma {:induction false} InHandAtLeast(ws: seq<Worker>, n: nat, w: nat, item: Item)
    requires w < n <= |ws| && ws[w] == Handling(item)
    ensures InHand(ws, n, item) >= 1
  {
    if w < n - 1 {
      InHandAtLeast(ws, n - 1, w, item);
    }
  }
}
