/** Registry callbacks, ntoskrnl/config/cmhook.c, as a state machine over any number of concurrent activities. An
    activity is one call of CmiCallRegisteredCallbacks or CmUnRegisterCallback; a call made from inside a callback is an
    activity of its own. The list mutex is dropped while a callback runs. */
module Callbacks {
  import opened Lists
  import opened Options

  type Address = nat
  type Registration = nat
  type Activity = nat

  /** reg numbers the registrations in time; an entry's address, which is its cookie, can be used again after it is
      freed. */
  datatype Entry = Entry(reg: Registration, rundown: nat, pending: bool, linked: bool)

  /** Walking holds the mutex; Running is inside a callback, or waiting for the mutex after it. called lists the
      registrations called so far. */
  datatype Act =
    | Walking(at: Option<Address>, called: seq<Registration>)
    | Running(entry: Address, called: seq<Registration>)
    | Waiting(entry: Address)
    | Drained(entry: Address)
    | Unlinked(entry: Address)

  /** next is the number of the next registration; gone are the registrations whose unregister call succeeded. */
  datatype Hooks = Hooks(
    mem: map<Address, Entry>,
    list: seq<Address>,
    mutex: Option<Activity>,
    acts: map<Activity, Act>,
    next: Registration,
    gone: seq<Registration>)

  datatype Event =
    | Register(entry: Address)
    | Begin(act: Activity)
    | Look(act: Activity)
    | Return(act: Activity, success: bool)
    | End(act: Activity)
    | Unregister(act: Activity, cookie: Address)
    | Drain(act: Activity)
    | Unlink(act: Activity)
    | Free(act: Activity)

  function First(list: seq<Address>): Option<Address> {
    if list == [] then None else Some(list[0])
  }

  /** The entry after a; nothing after the last one. */
  function Next(list: seq<Address>, a: Address): Option<Address> {
    if list == [] then None else if list[0] == a then First(list[1..]) else Next(list[1..], a)
  }

  /** What must hold for a step to happen: an activity is at that point of its code, and the mutex is free when the step
      takes it. */
  predicate Enabled(s: Hooks, e: Event) {
    match e
    case Register(a) => a !in s.mem && s.mutex.None?
    case Begin(t) => t !in s.acts && s.mutex.None?
    case Look(t) => t in s.acts && s.acts[t].Walking? && s.acts[t].at.Some? && s.acts[t].at.value in s.mem
    case Return(t, _) => t in s.acts && s.acts[t].Running? && s.acts[t].entry in s.mem
      && s.mem[s.acts[t].entry].rundown > 0 && s.mutex.None?
    case End(t) => t in s.acts && s.acts[t].Walking? && s.acts[t].at.None?
    case Unregister(t, _) => t !in s.acts && s.mutex.None?
    case Drain(t) =>
      t in s.acts && s.acts[t].Waiting? && s.acts[t].entry in s.mem && s.mem[s.acts[t].entry].rundown == 0
    case Unlink(t) => t in s.acts && s.acts[t].Drained? && s.acts[t].entry in s.mem && s.mutex.None?
    case Free(t) => t in s.acts && s.acts[t].Unlinked? && s.acts[t].entry in s.mem
  }

  function SetAct(s: Hooks, t: Activity, act: Act): Hooks {
    s.(acts := s.acts[t := act])
  }

  function SetEntry(s: Hooks, a: Address, entry: Entry): Hooks {
    s.(mem := s.mem[a := entry])
  }

  function Registered(s: Hooks, a: Address): Hooks {
    SetEntry(s, a, Entry(s.next, 0, false, true)).(list := s.list + [a], next := s.next + 1)
  }

  /** The walk looks at an entry: it runs the callback, without the mutex, or passes the entry by. */
  function Looked(s: Hooks, t: Activity, a: Address, called: seq<Registration>): Hooks
    requires a in s.mem
  {
    var entry := s.mem[a];
    if entry.pending then SetAct(s, t, Walking(Next(s.list, a), called))
    else
      var entered := SetEntry(s, a, entry.(rundown := entry.rundown + 1));
      SetAct(entered, t, Running(a, called + [entry.reg])).(mutex := None)
  }

  /** The callback is back: the mutex is taken before the rundown protection is released. */
  function Returned(s: Hooks, t: Activity, a: Address, called: seq<Registration>, success: bool): Hooks
    requires a in s.mem && s.mem[a].rundown > 0
  {
    var s' := SetEntry(s, a, s.mem[a].(rundown := s.mem[a].rundown - 1));
    if success then SetAct(s', t, Walking(Next(s.list, a), called)).(mutex := Some(t))
    else s'.(acts := s.acts - {t})
  }

  function Unregistered(s: Hooks, t: Activity, a: Address): Hooks {
    if a in s.list && a in s.mem && !s.mem[a].pending then
      SetAct(SetEntry(s, a, s.mem[a].(pending := true)), t, Waiting(a))
    else s
  }

  function Step(s: Hooks, e: Event): Hooks
    requires Enabled(s, e)
  {
    match e
    case Register(a) => Registered(s, a)
    case Begin(t) => SetAct(s, t, Walking(First(s.list), [])).(mutex := Some(t))
    case Look(t) => Looked(s, t, s.acts[t].at.value, s.acts[t].called)
    case Return(t, success) => Returned(s, t, s.acts[t].entry, s.acts[t].called, success)
    case End(t) => s.(acts := s.acts - {t}, mutex := None)
    case Unregister(t, cookie) => Unregistered(s, t, cookie)
    case Drain(t) => SetAct(s, t, Drained(s.acts[t].entry))
    case Unlink(t) =>
      var a := s.acts[t].entry;
      SetAct(SetEntry(s, a, s.mem[a].(linked := false)), t, Unlinked(a)).(list := Remove(s.list, a))
    case Free(t) =>
      var a := s.acts[t].entry;
      s.(mem := s.mem - {a}, acts := s.acts - {t}, gone := s.gone + [s.mem[a].reg])
  }

  // ----- the invariant

  predicate Live(s: Hooks, a: Address) {
    a in s.mem && s.mem[a].linked
  }

  function Runners(acts: map<Activity, Act>, a: Address): set<Activity> {
    set t | t in acts && acts[t].Running? && acts[t].entry == a
  }

  predicate Removing(act: Act, a: Address) {
    (act.Waiting? || act.Drained? || act.Unlinked?) && act.entry == a
  }

  /** The rundown count is the number of activities inside the callback; nobody is inside a freed one. */
  ghost predicate EntryOk(s: Hooks, a: Address) {
    && multiset(s.list)[a] == One(Live(s, a))
    && (a in s.mem ==> s.mem[a].rundown == |Runners(s.acts, a)| && s.mem[a].reg < s.next && s.mem[a].reg !in s.gone)
    && (a !in s.mem ==> Runners(s.acts, a) == {})
  }

  ghost predicate ActOk(s: Hooks, t: Activity) {
    && (s.mutex == Some(t) <==> t in s.acts && s.acts[t].Walking?)
    && (t in s.acts ==>
          match s.acts[t]
          case Walking(at, _) => at.Some? ==> Live(s, at.value)
          case Running(a, _) => Live(s, a)
          case Waiting(a) => Live(s, a) && s.mem[a].pending
          case Drained(a) => Live(s, a) && s.mem[a].pending && s.mem[a].rundown == 0
          case Unlinked(a) => a in s.mem && !s.mem[a].linked && s.mem[a].pending && s.mem[a].rundown == 0)
  }

  /** At most one unregister call works on an entry. */
  ghost predicate Sole(s: Hooks, t: Activity, u: Activity, a: Address) {
    t in s.acts && u in s.acts && Removing(s.acts[t], a) && Removing(s.acts[u], a) ==> t == u
  }

  ghost predicate OneEntry(s: Hooks, a: Address, b: Address) {
    a in s.mem && b in s.mem && s.mem[a].reg == s.mem[b].reg ==> a == b
  }

  /** The list is in the order of registration. */
  ghost predicate InOrder(s: Hooks, i: nat, j: nat) {
    i < j < |s.list| && s.list[i] in s.mem && s.list[j] in s.mem ==> s.mem[s.list[i]].reg < s.mem[s.list[j]].reg
  }

  ghost predicate Differ(rs: seq<Registration>, i: nat, j: nat) {
    i < j < |rs| ==> rs[i] != rs[j]
  }

  ghost predicate Once(rs: seq<Registration>, below: nat) {
    (forall i, j :: Differ(rs, i, j)) && forall i :: 0 <= i < |rs| ==> rs[i] < below
  }

  predicate Calling(s: Hooks, t: Activity) {
    t in s.acts && (s.acts[t].Walking? || s.acts[t].Running?)
  }

  /** How far a walk has come: it is done with the registrations below. */
  function Progress(s: Hooks, t: Activity): nat
    requires Calling(s, t)
  {
    match s.acts[t]
    case Running(a, _) => if a in s.mem then s.mem[a].reg + 1 else 0
    case Walking(at, _) => if at.None? then s.next else if at.value in s.mem then s.mem[at.value].reg else 0
    case _ => 0
  }

  /** A registration the walk is done with was called, unless it is being unregistered. */
  ghost predicate Called(s: Hooks, t: Activity, a: Address) {
    Calling(s, t) && Live(s, a) && s.mem[a].reg < Progress(s, t) && !s.mem[a].pending ==>
      s.mem[a].reg in s.acts[t].called
  }

  ghost predicate CalledOnce(s: Hooks, t: Activity) {
    Calling(s, t) ==> Once(s.acts[t].called, Progress(s, t))
  }

  ghost predicate Inv(s: Hooks) {
    && (forall a :: EntryOk(s, a))
    && (forall t :: ActOk(s, t))
    && (forall t, u, a :: Sole(s, t, u, a))
    && (forall a, b :: OneEntry(s, a, b))
    && (forall i, j :: InOrder(s, i, j))
    && (forall t, a :: Called(s, t, a))
    && (forall t :: CalledOnce(s, t))
    && Once(s.gone, s.next)
  }

  // ----- list and sets

  lemma Without(a: set<Activity>, t: Activity)
    ensures |a| == |a - {t}| + One(t in a)
  {
    if t in a {
      assert a == (a - {t}) + {t};
    } else {
      assert a == a - {t};
    }
  }

  ghost predicate SameOthers(acts: map<Activity, Act>, acts': map<Activity, Act>, t: Activity) {
    acts - {t} == acts' - {t}
  }

  lemma RunnersAfter(acts: map<Activity, Act>, acts': map<Activity, Act>, t: Activity, a: Address)
    requires SameOthers(acts, acts', t)
    ensures |Runners(acts', a)| + One(t in Runners(acts, a)) == |Runners(acts, a)| + One(t in Runners(acts', a))
  {
    forall u | u != t
      ensures u in Runners(acts, a) <==> u in Runners(acts', a)
    {
      assert u in acts - {t} <==> u in acts' - {t};
      assert u in acts ==> (acts - {t})[u] == (acts' - {t})[u];
    }
    assert Runners(acts', a) - {t} == Runners(acts, a) - {t};
    Without(Runners(acts, a), t);
    Without(Runners(acts', a), t);
  }

  lemma {:induction false} NextAt(list: seq<Address>, i: nat)
    requires i < |list| && forall j :: 0 <= j < i ==> list[j] != list[i]
    ensures Next(list, list[i]) == if i + 1 < |list| then Some(list[i + 1]) else None
  {
    if i > 0 {
      NextAt(list[1..], i - 1);
    }
  }

  ghost predicate Linear(s: Hooks) {
    (forall a :: EntryOk(s, a)) && (forall a, b :: OneEntry(s, a, b)) && (forall i, j :: InOrder(s, i, j))
  }

  lemma LiveListed(s: Hooks, a: Address)
    requires Linear(s)
    ensures a in s.list <==> Live(s, a)
  {
    assert EntryOk(s, a);
    assert a in s.list <==> a in multiset(s.list);
  }

  /** The next entry of the list is the next registration in time. */
  lemma NextInTime(s: Hooks, a: Address, c: Address)
    requires Linear(s) && Live(s, a) && Live(s, c)
    ensures match Next(s.list, a)
      case None => s.mem[c].reg <= s.mem[a].reg
      case Some(b) =>
        Live(s, b) && s.mem[b].reg > s.mem[a].reg && (s.mem[c].reg <= s.mem[a].reg || s.mem[c].reg >= s.mem[b].reg)
  {
    LiveListed(s, a);
    LiveListed(s, c);
    var i :| 0 <= i < |s.list| && s.list[i] == a;
    var k :| 0 <= k < |s.list| && s.list[k] == c;
    forall j | 0 <= j < i
      ensures s.list[j] != a
    {
      LiveListed(s, s.list[j]);
      assert InOrder(s, j, i);
    }
    NextAt(s.list, i);
    assert InOrder(s, k, i);
    if i + 1 < |s.list| {
      LiveListed(s, s.list[i + 1]);
      assert InOrder(s, i, i + 1);
      assert InOrder(s, i + 1, k);
    }
  }

  lemma FirstInTime(s: Hooks, c: Address)
    requires Linear(s) && Live(s, c)
    ensures First(s.list).Some? && Live(s, s.list[0]) && s.mem[s.list[0]].reg <= s.mem[c].reg
  {
    LiveListed(s, c);
    var k :| 0 <= k < |s.list| && s.list[k] == c;
    LiveListed(s, s.list[0]);
    assert InOrder(s, 0, k);
  }

  // ----- every step keeps the invariant

  /** A walk starts. */
  lemma BeginKeeps(s: Hooks, t: Activity)
    requires Inv(s) && Enabled(s, Begin(t))
    ensures Inv(Step(s, Begin(t)))
  {
    var s' := Step(s, Begin(t));
    forall a
      ensures EntryOk(s', a)
    {
      assert EntryOk(s, a);
      assert s.acts - {t} == s'.acts - {t};
      RunnersAfter(s.acts, s'.acts, t, a);
    }
    forall u
      ensures ActOk(s', u) && CalledOnce(s', u)
    {
      assert ActOk(s, u) && CalledOnce(s, u);
      if u == t && s.list != [] {
        LiveListed(s, s.list[0]);
      }
    }
    forall u, v, a
      ensures Sole(s', u, v, a)
    {
      assert Sole(s, u, v, a);
    }
    forall u, a
      ensures Called(s', u, a)
    {
      assert Called(s, u, a);
      if u == t && Live(s, a) {
        FirstInTime(s, a);
      }
    }
    SameOrder(s, s');
  }

  /** Changes that leave addresses, registrations and the list alone. */
  lemma SameOrder(s: Hooks, s': Hooks)
    requires s'.list == s.list && s'.mem.Keys == s.mem.Keys && forall a :: a in s.mem ==> s'.mem[a].reg == s.mem[a].reg
    requires (forall a, b :: OneEntry(s, a, b)) && (forall i, j :: InOrder(s, i, j))
    ensures (forall a, b :: OneEntry(s', a, b)) && (forall i, j :: InOrder(s', i, j))
  {
    forall a, b
      ensures OneEntry(s', a, b)
    {
      assert OneEntry(s, a, b);
    }
    forall i, j
      ensures InOrder(s', i, j)
    {
      assert InOrder(s, i, j);
    }
  }

  /** A walk at entry a goes on to the next one. */
  lemma PassKeeps(s: Hooks, s': Hooks, t: Activity, a: Address)
    requires Inv(s) && Live(s, a) && t in s.acts && s.acts[t].Walking?
    requires s' == SetAct(s, t, Walking(Next(s.list, a), s.acts[t].called))
    requires s.acts[t].at == Some(a) && s.mem[a].pending
    ensures Inv(s')
  {
    assert EntryOk(s, a);
    NextInTime(s, a, a);
    forall c
      ensures EntryOk(s', c)
    {
      assert EntryOk(s, c);
      assert s.acts - {t} == s'.acts - {t};
      RunnersAfter(s.acts, s'.acts, t, c);
    }
    forall u
      ensures ActOk(s', u)
    {
      assert ActOk(s, u);
    }
    LookedOnce(s, t, a);
    forall u
      ensures CalledOnce(s', u)
    {
      assert CalledOnce(s, u);
    }
    forall u, v, c
      ensures Sole(s', u, v, c)
    {
      assert Sole(s, u, v, c);
    }
    forall u, c
      ensures Called(s', u, c)
    {
      assert Called(s, u, c);
      if u == t && Live(s, c) {
        NextInTime(s, a, c);
        assert OneEntry(s, a, c);
      }
    }
    SameOrder(s, s');
  }

  /** A walk at entry a goes into its callback. */
  lemma RunKeeps(s: Hooks, t: Activity, a: Address)
    requires Inv(s) && Live(s, a) && t in s.acts && s.acts[t].Walking? && s.acts[t].at == Some(a) && !s.mem[a].pending
    ensures Inv(Looked(s, t, a, s.acts[t].called))
  {
    var s' := Looked(s, t, a, s.acts[t].called);
    forall c
      ensures EntryOk(s', c)
    {
      assert EntryOk(s, c);
      assert s.acts - {t} == s'.acts - {t};
      RunnersAfter(s.acts, s'.acts, t, c);
    }
    forall u
      ensures ActOk(s', u)
    {
      assert ActOk(s, u) && ActOk(s, t);
    }
    LookedOnce(s, t, a);
    forall u
      ensures CalledOnce(s', u)
    {
      assert CalledOnce(s, u);
    }
    forall u, v, c
      ensures Sole(s', u, v, c)
    {
      assert Sole(s, u, v, c);
    }
    forall u, c
      ensures Called(s', u, c)
    {
      assert Called(s, u, c);
      assert OneEntry(s, a, c);
    }
    SameOrder(s, s');
  }

  lemma LookedOnce(s: Hooks, t: Activity, a: Address)
    requires Calling(s, t) && s.acts[t].Walking? && s.acts[t].at == Some(a) && a in s.mem && CalledOnce(s, t)
    ensures Once(s.acts[t].called + [s.mem[a].reg], s.mem[a].reg + 1)
    ensures forall n :: n >= s.mem[a].reg ==> Once(s.acts[t].called, n)
  {
    var called := s.acts[t].called;
    forall i, j
      ensures Differ(called + [s.mem[a].reg], i, j)
    {
      assert Differ(called, i, j);
    }
  }

  /** A callback is back, and its walk goes on or ends. */
  lemma ReturnKeeps(s: Hooks, t: Activity, a: Address, success: bool)
    requires Inv(s) && t in s.acts && s.acts[t].Running? && s.acts[t].entry == a && Enabled(s, Return(t, success))
    ensures var s' := Returned(s, t, a, s.acts[t].called, success);
      && Inv(s') && (success <==> t in s'.acts) && s'.mutex == (if success then Some(t) else None)
      && (success ==> s'.acts[t] == Walking(Next(s.list, a), s.acts[t].called))
  {
    var s' := Returned(s, t, a, s.acts[t].called, success);
    assert ActOk(s, t) && EntryOk(s, a);
    NextInTime(s, a, a);
    forall c
      ensures EntryOk(s', c)
    {
      assert EntryOk(s, c);
      assert s.acts - {t} == s'.acts - {t};
      RunnersAfter(s.acts, s'.acts, t, c);
    }
    forall u
      ensures ActOk(s', u)
    {
      assert ActOk(s, u);
    }
    forall u
      ensures CalledOnce(s', u)
    {
      assert CalledOnce(s, u);
    }
    forall u, v, c
      ensures Sole(s', u, v, c)
    {
      assert Sole(s, u, v, c);
    }
    forall u, c
      ensures Called(s', u, c)
    {
      assert Called(s, u, c);
      if u == t && Live(s, c) {
        NextInTime(s, a, c);
        assert OneEntry(s, a, c);
      }
    }
    SameOrder(s, s');
  }

  /** A walk has reached the end of the list. */
  lemma EndKeeps(s: Hooks, t: Activity)
    requires Inv(s) && Enabled(s, End(t))
    ensures Inv(Step(s, End(t)))
  {
    var s' := Step(s, End(t));
    forall c
      ensures EntryOk(s', c)
    {
      assert EntryOk(s, c);
      assert s.acts - {t} == s'.acts - {t};
      RunnersAfter(s.acts, s'.acts, t, c);
    }
    forall u
      ensures ActOk(s', u) && CalledOnce(s', u)
    {
      assert ActOk(s, u) && ActOk(s, t) && CalledOnce(s, u);
    }
    forall u, v, c
      ensures Sole(s', u, v, c)
    {
      assert Sole(s, u, v, c);
    }
    forall u, c
      ensures Called(s', u, c)
    {
      assert Called(s, u, c);
    }
    SameOrder(s, s');
  }

  lemma RegisterKeeps(s: Hooks, a: Address)
    requires Inv(s) && Enabled(s, Register(a))
    ensures Inv(Registered(s, a))
  {
    var s' := Registered(s, a);
    assert EntryOk(s, a);
    forall c
      ensures EntryOk(s', c)
    {
      assert EntryOk(s, c);
    }
    forall u
      ensures ActOk(s', u) && CalledOnce(s', u)
    {
      assert ActOk(s, u) && CalledOnce(s, u);
    }
    forall u, v, c
      ensures Sole(s', u, v, c)
    {
      assert Sole(s, u, v, c);
    }
    forall u, c
      ensures Called(s', u, c)
    {
      assert Called(s, u, c) && ActOk(s, u);
      if Calling(s, u) && s.acts[u].Running? {
        assert EntryOk(s, s.acts[u].entry);
      }
    }
    forall c, d
      ensures OneEntry(s', c, d)
    {
      assert OneEntry(s, c, d) && EntryOk(s, c) && EntryOk(s, d);
    }
    forall i: nat, j: nat
      ensures InOrder(s', i, j)
    {
      assert InOrder(s, i, j);
      if i < j == |s.list| {
        assert EntryOk(s, s.list[i]) && s.list[i] in multiset(s.list);
      } else if i < j < |s.list| {
        LiveListed(s, s.list[i]);
        LiveListed(s, s.list[j]);
      }
    }
  }

  /** An unregister call finds its entry and marks it. */
  lemma UnregisterKeeps(s: Hooks, t: Activity, a: Address)
    requires Inv(s) && Enabled(s, Unregister(t, a))
    ensures Inv(Unregistered(s, t, a))
  {
    var s' := Unregistered(s, t, a);
    LiveListed(s, a);
    if s' != s {
      forall c
        ensures EntryOk(s', c)
      {
        assert EntryOk(s, c);
        assert s.acts - {t} == s'.acts - {t};
        RunnersAfter(s.acts, s'.acts, t, c);
      }
      forall u
        ensures ActOk(s', u) && CalledOnce(s', u)
      {
        assert ActOk(s, u) && CalledOnce(s, u);
      }
      forall u, v, c
        ensures Sole(s', u, v, c)
      {
        assert Sole(s, u, v, c) && ActOk(s, u) && ActOk(s, v);
      }
      forall u, c
        ensures Called(s', u, c)
      {
        assert Called(s, u, c);
      }
      SameOrder(s, s');
    }
  }

  lemma DrainKeeps(s: Hooks, t: Activity)
    requires Inv(s) && Enabled(s, Drain(t))
    ensures Inv(Step(s, Drain(t)))
  {
    var s' := Step(s, Drain(t));
    forall c
      ensures EntryOk(s', c)
    {
      assert EntryOk(s, c);
      assert s.acts - {t} == s'.acts - {t};
      RunnersAfter(s.acts, s'.acts, t, c);
    }
    forall u
      ensures ActOk(s', u) && CalledOnce(s', u)
    {
      assert ActOk(s, u) && CalledOnce(s, u);
    }
    forall u, v, c
      ensures Sole(s', u, v, c)
    {
      assert Sole(s, u, v, c);
    }
    forall u, c
      ensures Called(s', u, c)
    {
      assert Called(s, u, c);
    }
    SameOrder(s, s');
  }

  lemma NobodyInside(s: Hooks, a: Address, u: Activity)
    requires EntryOk(s, a) && a in s.mem && s.mem[a].rundown == 0
    ensures !(u in s.acts && s.acts[u].Running? && s.acts[u].entry == a)
  {
    assert u in s.acts && s.acts[u].Running? && s.acts[u].entry == a ==> u in Runners(s.acts, a);
  }

  /** The list without its entry at place k. */
  ghost predicate Spot(list: seq<Address>, a: Address, k: nat) {
    && k < |list| && list[k] == a && |Remove(list, a)| == |list| - 1
    && forall i :: 0 <= i < |list| - 1 ==> Remove(list, a)[i] == list[if i < k then i else i + 1]
  }

  lemma ListWithout(s: Hooks, a: Address)
    requires Linear(s) && Live(s, a)
    ensures exists k :: Spot(s.list, a, k)
  {
    LiveListed(s, a);
    var k :| 0 <= k < |s.list| && s.list[k] == a;
    forall j | 0 <= j < k
      ensures s.list[j] != a
    {
      LiveListed(s, s.list[j]);
      assert InOrder(s, j, k);
    }
    RemoveAt(s.list, a, k);
    assert Spot(s.list, a, k);
  }

  lemma OrderWithout(s: Hooks, s': Hooks, a: Address)
    requires Linear(s) && Live(s, a) && s'.list == Remove(s.list, a)
    requires forall c :: c in s'.mem ==> c in s.mem && s'.mem[c].reg == s.mem[c].reg
    ensures (forall i, j :: InOrder(s', i, j)) && (forall c, d :: OneEntry(s', c, d))
  {
    ListWithout(s, a);
    var k :| Spot(s.list, a, k);
    forall i: nat, j: nat
      ensures InOrder(s', i, j)
    {
      assert InOrder(s, if i < k then i else i + 1, if j < k then j else j + 1);
    }
    forall c, d
      ensures OneEntry(s', c, d)
    {
      assert OneEntry(s, c, d);
    }
  }

  lemma UnlinkKeeps(s: Hooks, t: Activity)
    requires Inv(s) && Enabled(s, Unlink(t))
    ensures Inv(Step(s, Unlink(t)))
  {
    var s', a := Step(s, Unlink(t)), s.acts[t].entry;
    assert ActOk(s, t) && EntryOk(s, a);
    LiveListed(s, a);
    forall c
      ensures EntryOk(s', c)
    {
      assert EntryOk(s, c);
      RemoveCounts(s.list, a, c);
      assert s.acts - {t} == s'.acts - {t};
      RunnersAfter(s.acts, s'.acts, t, c);
    }
    forall u
      ensures ActOk(s', u) && CalledOnce(s', u)
    {
      assert ActOk(s, u) && CalledOnce(s, u) && Sole(s, t, u, a);
      NobodyInside(s, a, u);
    }
    forall u, v, c
      ensures Sole(s', u, v, c)
    {
      assert Sole(s, u, v, c);
    }
    forall u, c
      ensures Called(s', u, c)
    {
      assert Called(s, u, c);
    }
    OrderWithout(s, s', a);
  }

  lemma FreeKeeps(s: Hooks, t: Activity)
    requires Inv(s) && Enabled(s, Free(t))
    ensures Inv(Step(s, Free(t)))
  {
    var s', a := Step(s, Free(t)), s.acts[t].entry;
    assert ActOk(s, t) && EntryOk(s, a);
    forall c
      ensures EntryOk(s', c)
    {
      assert EntryOk(s, c) && OneEntry(s, a, c);
      assert s.acts - {t} == s'.acts - {t};
      RunnersAfter(s.acts, s'.acts, t, c);
    }
    forall u
      ensures ActOk(s', u) && CalledOnce(s', u)
    {
      assert ActOk(s, u) && CalledOnce(s, u) && Sole(s, t, u, a);
      NobodyInside(s, a, u);
    }
    forall u, v, c
      ensures Sole(s', u, v, c)
    {
      assert Sole(s, u, v, c);
    }
    forall u, c
      ensures Called(s', u, c)
    {
      assert Called(s, u, c) && ActOk(s, u);
      NobodyInside(s, a, u);
    }
    FreeOrder(s, s', a);
    forall i, j
      ensures Differ(s'.gone, i, j)
    {
      assert Differ(s.gone, i, j);
    }
  }

  lemma FreeOrder(s: Hooks, s': Hooks, a: Address)
    requires (forall i, j :: InOrder(s, i, j)) && (forall c, d :: OneEntry(s, c, d)) && s'.list == s.list
    requires s'.mem == s.mem - {a}
    ensures (forall i, j :: InOrder(s', i, j)) && (forall c, d :: OneEntry(s', c, d))
  {
    forall i, j
      ensures InOrder(s', i, j)
    {
      assert InOrder(s, i, j);
    }
    forall c, d
      ensures OneEntry(s', c, d)
    {
      assert OneEntry(s, c, d);
    }
  }

  lemma StepKeeps(s: Hooks, e: Event)
    requires Inv(s) && Enabled(s, e)
    ensures Inv(Step(s, e))
  {
    match e
    case Register(a) => RegisterKeeps(s, a);
    case Begin(t) => BeginKeeps(s, t);
    case Look(t) =>
      assert ActOk(s, t);
      if s.mem[s.acts[t].at.value].pending {
        PassKeeps(s, Step(s, e), t, s.acts[t].at.value);
      } else {
        RunKeeps(s, t, s.acts[t].at.value);
      }
    case Return(t, success) => ReturnKeeps(s, t, s.acts[t].entry, success);
    case End(t) => EndKeeps(s, t);
    case Unregister(t, cookie) => UnregisterKeeps(s, t, cookie);
    case Drain(t) => DrainKeeps(s, t);
    case Unlink(t) => UnlinkKeeps(s, t);
    case Free(t) => FreeKeeps(s, t);
  }

  // ----- every run

  function Start(): Hooks {
    Hooks(map[], [], None, map[], 0, [])
  }

  /** Any events in any order, those that are not enabled left out. */
  function After(es: seq<Event>): Hooks {
    if es == [] then Start()
    else
      var s := After(es[..|es| - 1]);
      if Enabled(s, es[|es| - 1]) then Step(s, es[|es| - 1]) else s
  }

  lemma {:induction false} RunsKeep(es: seq<Event>)
    ensures Inv(After(es))
  {
    if es == [] {
      assert forall a :: Runners(map[], a) == {};
    } else {
      RunsKeep(es[..|es| - 1]);
      var s := After(es[..|es| - 1]);
      if Enabled(s, es[|es| - 1]) {
        StepKeeps(s, es[|es| - 1]);
      }
    }
  }

  /** Whatever a walk stands on or runs is in memory and in the list, so its next pointer leads to an entry of the list
      or to the end. */
  lemma WalksOnLiveEntries(es: seq<Event>, t: Activity)
    requires Calling(After(es), t)
    ensures var s := After(es);
      match s.acts[t]
      case Running(a, _) =>
        Live(s, a) && a in s.list && s.mem[a].rundown > 0 && (Next(s.list, a).Some? ==> Live(s, Next(s.list, a).value))
      case Walking(at, _) => at.Some? ==> Live(s, at.value) && at.value in s.list
      case _ => false
  {
    var s := After(es);
    RunsKeep(es);
    assert ActOk(s, t);
    match s.acts[t]
    case Running(a, _) =>
      LiveListed(s, a);
      NextInTime(s, a, a);
      assert EntryOk(s, a) && t in Runners(s.acts, a);
    case Walking(at, _) =>
      if at.Some? {
        LiveListed(s, at.value);
      }
    case _ =>
  }

  /** An unregister call works on allocated memory until it frees it, and takes out of the list an entry that is there
      and idle. */
  lemma UnregistersLiveEntries(es: seq<Event>, t: Activity)
    requires var s := After(es); t in s.acts && !Calling(s, t)
    ensures var s, a := After(es), After(es).acts[t].entry;
      a in s.mem && s.mem[a].pending && (a in s.list <==> !s.acts[t].Unlinked?)
        && (!s.acts[t].Waiting? ==> Runners(s.acts, a) == {})
  {
    var s := After(es);
    RunsKeep(es);
    assert ActOk(s, t) && EntryOk(s, s.acts[t].entry);
    LiveListed(s, s.acts[t].entry);
  }

  lemma {:induction false} GoneGrows(es: seq<Event>, n: nat)
    requires n <= |es|
    ensures After(es[..n]).gone <= After(es).gone
  {
    if n == |es| {
      assert es[..n] == es;
    } else {
      assert es[..|es| - 1][..n] == es[..n];
      GoneGrows(es[..|es| - 1], n);
    }
  }

  /** Once an unregister call has returned successfully, its callback does not run in any continuation of the run. */
  lemma NeverRunsAgain(es: seq<Event>, n: nat, r: Registration, t: Activity)
    requires n <= |es| && r in After(es[..n]).gone
    ensures var s := After(es); t in s.acts && s.acts[t].Running? ==>
      s.acts[t].entry in s.mem && s.mem[s.acts[t].entry].reg != r
    ensures forall a :: a in After(es).mem ==> After(es).mem[a].reg != r
  {
    var s := After(es);
    RunsKeep(es);
    GoneGrows(es, n);
    assert r in s.gone;
    assert ActOk(s, t);
    forall a | a in s.mem
      ensures s.mem[a].reg != r
    {
      assert EntryOk(s, a);
    }
  }

  /** No registration is unregistered twice with success. */
  lemma UnregisteredOnce(es: seq<Event>, i: nat, j: nat)
    requires i < j < |After(es).gone|
    ensures After(es).gone[i] != After(es).gone[j]
  {
    RunsKeep(es);
    assert Differ(After(es).gone, i, j);
  }

  // ----- what the steps of a walk do

  lemma AfterOneMore(es: seq<Event>, e: Event)
    ensures After(es + [e]) == if Enabled(After(es), e) then Step(After(es), e) else After(es)
  {
    assert (es + [e])[..|es|] == es;
  }

  /** at is the first registration from r on, or the end when there is none. */
  ghost predicate FirstFrom(s: Hooks, r: Registration, at: Option<Address>) {
    match at
    case None => forall c :: Live(s, c) ==> s.mem[c].reg < r
    case Some(b) =>
      && Live(s, b) && s.mem[b].reg >= r
      && (forall c :: Live(s, c) ==> s.mem[c].reg < r || s.mem[c].reg >= s.mem[b].reg)
  }

  lemma NextIsFirst(s: Hooks, a: Address)
    requires Linear(s) && Live(s, a)
    ensures FirstFrom(s, s.mem[a].reg + 1, Next(s.list, a))
  {
    NextInTime(s, a, a);
    forall c | Live(s, c)
      ensures match Next(s.list, a)
        case None => s.mem[c].reg < s.mem[a].reg + 1
        case Some(b) => s.mem[c].reg < s.mem[a].reg + 1 || s.mem[c].reg >= s.mem[b].reg
    {
      NextInTime(s, a, c);
    }
  }

  lemma BeginIsFirst(s: Hooks)
    requires Linear(s)
    ensures FirstFrom(s, 0, First(s.list))
  {
    if s.list != [] {
      LiveListed(s, s.list[0]);
    }
    forall c | Live(s, c)
      ensures s.list != [] && s.mem[c].reg >= s.mem[s.list[0]].reg
    {
      FirstInTime(s, c);
    }
  }

  /** A walk starts at the oldest registration, with the mutex. */
  lemma WalkBegins(es: seq<Event>, t: Activity)
    requires Enabled(After(es), Begin(t))
    ensures var s, s' := After(es), After(es + [Begin(t)]);
      && t in s'.acts && s'.acts[t].Walking? && s'.acts[t].called == [] && FirstFrom(s, 0, s'.acts[t].at)
      && s' == s.(acts := s.acts[t := s'.acts[t]], mutex := Some(t))
  {
    RunsKeep(es);
    AfterOneMore(es, Begin(t));
    BeginIsFirst(After(es));
  }

  /** At an entry that is not being unregistered, the walk calls its callback without the mutex and inside its rundown
      protection; at any other it goes on to the next registration and keeps the mutex. */
  lemma WalkLooks(es: seq<Event>, t: Activity)
    requires Enabled(After(es), Look(t))
    ensures var s, s' := After(es), After(es + [Look(t)]);
      var a, called := s.acts[t].at.value, s.acts[t].called;
      if s.mem[a].pending then
        && t in s'.acts && s'.acts[t].Walking? && s'.acts[t].called == called
        && FirstFrom(s, s.mem[a].reg + 1, s'.acts[t].at) && s' == s.(acts := s.acts[t := s'.acts[t]])
      else
        && s'.mem == s.mem[a := s.mem[a].(rundown := s.mem[a].rundown + 1)]
        && s' == s.(acts := s.acts[t := Running(a, called + [s.mem[a].reg])], mutex := None, mem := s'.mem)
  {
    var s := After(es);
    RunsKeep(es);
    AfterOneMore(es, Look(t));
    assert ActOk(s, t);
    NextIsFirst(s, s.acts[t].at.value);
  }

  /** After a callback that succeeded the walk goes on, with the mutex, at the next registration; after one that failed
      it is over and the mutex is free. */
  lemma WalkGoesOn(es: seq<Event>, t: Activity, success: bool)
    requires Enabled(After(es), Return(t, success))
    ensures var s, s' := After(es), After(es + [Return(t, success)]);
      var a, called := s.acts[t].entry, s.acts[t].called;
      && s'.mem == s.mem[a := s.mem[a].(rundown := s.mem[a].rundown - 1)]
      && s' == s.(acts := s'.acts, mutex := s'.mutex, mem := s'.mem)
      && if success then
           && t in s'.acts && s'.acts[t].Walking? && s'.acts[t].called == called
           && FirstFrom(s, s.mem[a].reg + 1, s'.acts[t].at)
           && s'.acts == s.acts[t := s'.acts[t]] && s'.mutex == Some(t)
         else s'.acts == s.acts - {t} && s'.mutex == None
  {
    var s := After(es);
    RunsKeep(es);
    AfterOneMore(es, Return(t, success));
    assert ActOk(s, t);
    NextIsFirst(s, s.acts[t].entry);
  }

  /** A walk is over only at the end of the list, or after a callback that failed. */
  lemma WalkEnds(es: seq<Event>, e: Event, t: Activity)
    requires Calling(After(es), t) && !Calling(After(es + [e]), t)
    ensures Enabled(After(es), e) && (e == End(t) || e == Return(t, false)) && After(es + [e]).mutex == None
  {
    AfterOneMore(es, e);
  }

  /** A walk that is over and was not stopped by a callback that failed has called every callback that is registered
      then and not being unregistered, and none twice. */
  lemma WalkIsComplete(es: seq<Event>, e: Event, t: Activity, a: Address)
    requires Calling(After(es), t) && !Calling(After(es + [e]), t) && e != Return(t, false)
    ensures var s := After(es);
      && (Live(s, a) && !s.mem[a].pending ==> s.mem[a].reg in s.acts[t].called)
      && forall i, j :: 0 <= i < j < |s.acts[t].called| ==> s.acts[t].called[i] != s.acts[t].called[j]
  {
    var s := After(es);
    RunsKeep(es);
    WalkEnds(es, e, t);
    assert Called(s, t, a) && EntryOk(s, a) && CalledOnce(s, t);
    forall i, j | 0 <= i < j < |s.acts[t].called|
      ensures s.acts[t].called[i] != s.acts[t].called[j]
    {
      assert Differ(s.acts[t].called, i, j);
    }
  }

  /** Between its beginning and its end, a walk calls callbacks only by its own looks. */
  lemma CalledByLooks(es: seq<Event>, e: Event, t: Activity)
    requires var s, s' := After(es), After(es + [e]); Calling(s, t) && Calling(s', t)
    ensures var called, called' := After(es).acts[t].called, After(es + [e]).acts[t].called;
      called' == called || (e == Look(t) && |called'| == |called| + 1 && called <= called')
  {
    AfterOneMore(es, e);
  }

  /** An unregister call finds its entry exactly when it is registered and nobody else is unregistering it; then new
      walks pass it by. Otherwise nothing changes. */
  lemma UnregisterFinds(es: seq<Event>, t: Activity, cookie: Address)
    requires Enabled(After(es), Unregister(t, cookie))
    ensures var s, s' := After(es), After(es + [Unregister(t, cookie)]);
      if Live(s, cookie) && !s.mem[cookie].pending then
        s' == s.(acts := s.acts[t := Waiting(cookie)], mem := s.mem[cookie := s.mem[cookie].(pending := true)])
      else s' == s
  {
    RunsKeep(es);
    AfterOneMore(es, Unregister(t, cookie));
    LiveListed(After(es), cookie);
  }

  /** It goes on when nobody is inside the callback any more, and then unlinks and frees the entry and succeeds. */
  lemma UnregisterGoesOn(es: seq<Event>, t: Activity, e: Event)
    requires Enabled(After(es), e) && (e == Drain(t) || e == Unlink(t) || e == Free(t))
    ensures var s, s' := After(es), After(es + [e]);
      var a := s.acts[t].entry;
      && Runners(s.acts, a) == {}
      && (e == Drain(t) ==> s' == s.(acts := s.acts[t := Drained(a)]))
      && (e == Unlink(t) ==> t in s'.acts && s'.acts[t] == Unlinked(a) && a in s.list && a !in s'.list && a in s'.mem)
      && (e == Free(t) ==> t !in s'.acts && a !in s'.mem && s'.gone == s.gone + [s.mem[a].reg])
  {
    var s, s' := After(es), After(es + [e]);
    RunsKeep(es);
    RunsKeep(es + [e]);
    AfterOneMore(es, e);
    var a := s.acts[t].entry;
    assert ActOk(s, t) && EntryOk(s, a);
    LiveListed(s, a);
    LiveListed(s', a);
  }

  /** A new registration comes last. */
  lemma RegisteredLast(es: seq<Event>, a: Address)
    requires Enabled(After(es), Register(a))
    ensures var s, s' := After(es), After(es + [Register(a)]);
      && Live(s', a) && !s'.mem[a].pending && s'.mem[a].rundown == 0 && s'.list == s.list + [a]
      && (forall c :: Live(s, c) ==> c in s'.mem && s'.mem[c] == s.mem[c] && s.mem[c].reg < s'.mem[a].reg)
  {
    var s := After(es);
    RunsKeep(es);
    AfterOneMore(es, Register(a));
    forall c | Live(s, c)
      ensures s.mem[c].reg < s.next
    {
      assert EntryOk(s, c);
    }
  }

  // ----- nobody is stuck

  predicate ByActivity(e: Event) {
    !e.Register? && !e.Begin? && !e.Unregister?
  }

  /** In every run, as long as anything is going on, some activity can take its next step: no deadlock. */
  lemma SomebodyMoves(es: seq<Event>, t: Activity)
    requires t in After(es).acts
    ensures exists e :: ByActivity(e) && Enabled(After(es), e)
  {
    var s := After(es);
    RunsKeep(es);
    if s.mutex.Some? {
      var u := s.mutex.value;
      assert ActOk(s, u);
      if s.acts[u].at.Some? {
        assert ByActivity(Look(u)) && Enabled(s, Look(u));
      } else {
        assert ByActivity(End(u)) && Enabled(s, End(u));
      }
    } else {
      FreeToMove(s, t);
    }
  }

  lemma ReturnsFrom(s: Hooks, t: Activity)
    requires Inv(s) && t in s.acts && s.acts[t].Running? && s.mutex.None?
    ensures Enabled(s, Return(t, true))
  {
    assert ActOk(s, t) && EntryOk(s, s.acts[t].entry);
    assert t in Runners(s.acts, s.acts[t].entry);
  }

  lemma FreeToMove(s: Hooks, t: Activity)
    requires Inv(s) && t in s.acts && s.mutex.None?
    ensures exists e :: ByActivity(e) && Enabled(s, e)
  {
    assert ActOk(s, t);
    match s.acts[t]
    case Running(a, _) =>
      ReturnsFrom(s, t);
      assert ByActivity(Return(t, true));
    case Waiting(a) =>
      assert EntryOk(s, a);
      if s.mem[a].rundown == 0 {
        assert ByActivity(Drain(t)) && Enabled(s, Drain(t));
      } else {
        var u :| u in Runners(s.acts, a);
        ReturnsFrom(s, u);
        assert ByActivity(Return(u, true));
      }
    case Drained(_) => assert ByActivity(Unlink(t)) && Enabled(s, Unlink(t));
    case Unlinked(_) => assert ByActivity(Free(t)) && Enabled(s, Free(t));
    case Walking(_, _) =>
  }

  // ----- a walk is bounded

  /** How much of the list is left from a on. */
  function Rest(list: seq<Address>, a: Address): nat {
    if list == [] then 0 else if list[0] == a then |list| else Rest(list[1..], a)
  }

  lemma {:induction false} RestAt(list: seq<Address>, i: nat)
    requires i < |list| && forall j :: 0 <= j < i ==> list[j] != list[i]
    ensures Rest(list, list[i]) == |list| - i
  {
    if i > 0 {
      RestAt(list[1..], i - 1);
    }
  }

  lemma {:induction false} RestWithout(list: seq<Address>, a: Address, b: Address)
    requires a != b
    ensures Rest(Remove(list, b), a) <= Rest(list, a)
  {
    if list != [] && list[0] != b && list[0] != a {
      RestWithout(list[1..], a, b);
      assert Remove(list, b)[1..] == Remove(list[1..], b);
    } else if list != [] && list[0] == a {
      RemoveCounts(list, b, b);
      assert Remove(list, b)[0] == a;
    }
  }

  lemma {:induction false} RestBefore(list: seq<Address>, a: Address, b: Address)
    ensures Rest(list + [b], a) <= Rest(list, a) + 1
  {
    if list != [] && list[0] != a {
      RestBefore(list[1..], a, b);
      assert (list + [b])[1..] == list[1..] + [b];
    }
  }

  lemma RestOfNext(s: Hooks, a: Address)
    requires Linear(s) && Live(s, a)
    ensures Rest(s.list, a) > 0
    ensures match Next(s.list, a) case None => true case Some(b) => Rest(s.list, b) == Rest(s.list, a) - 1
  {
    LiveListed(s, a);
    var i :| 0 <= i < |s.list| && s.list[i] == a;
    Unrepeated(s, i);
    NextAt(s.list, i);
    RestAt(s.list, i);
    if i + 1 < |s.list| {
      Unrepeated(s, i + 1);
      RestAt(s.list, i + 1);
    }
  }

  lemma Unrepeated(s: Hooks, i: nat)
    requires Linear(s) && i < |s.list|
    ensures forall j :: 0 <= j < i ==> s.list[j] != s.list[i]
  {
    LiveListed(s, s.list[i]);
    forall j | 0 <= j < i
      ensures s.list[j] != s.list[i]
    {
      LiveListed(s, s.list[j]);
      assert InOrder(s, j, i);
    }
  }

  /** A bound on the steps an activity still takes. */
  function StepsLeft(s: Hooks, t: Activity): nat
    requires t in s.acts
  {
    match s.acts[t]
    case Walking(at, _) => if at.Some? then 2 * Rest(s.list, at.value) + 1 else 1
    case Running(a, _) => 2 * Rest(s.list, a)
    case Waiting(_) => 3
    case Drained(_) => 2
    case Unlinked(_) => 1
  }

  predicate Own(e: Event, t: Activity) {
    ByActivity(e) && e.act == t
  }

  lemma OwnStepShrinks(s: Hooks, e: Event, t: Activity)
    requires Inv(s) && Enabled(s, e) && Own(e, t) && t in s.acts && t in Step(s, e).acts
    ensures StepsLeft(Step(s, e), t) < StepsLeft(s, t)
  {
    assert ActOk(s, t);
    if e.Look? {
      RestOfNext(s, s.acts[t].at.value);
    } else if e.Return? {
      RestOfNext(s, s.acts[t].entry);
    }
  }

  /** Where a walk is. */
  function Spotted(act: Act): Option<Address> {
    match act
    case Walking(at, _) => at
    case _ => Some(act.entry)
  }

  lemma OtherStep(s: Hooks, e: Event, t: Activity)
    requires Inv(s) && Enabled(s, e) && !Own(e, t) && t in s.acts
    ensures t in Step(s, e).acts && Step(s, e).acts[t] == s.acts[t]
    ensures StepsLeft(Step(s, e), t) <= StepsLeft(s, t) + (if e.Register? then 2 else 0)
  {
    assert ActOk(s, t);
    var at := Spotted(s.acts[t]);
    if e.Register? && at.Some? {
      RestBefore(s.list, at.value, e.entry);
    } else if e.Unlink? && at.Some? && Calling(s, t) {
      var a := s.acts[e.act].entry;
      assert ActOk(s, e.act) && EntryOk(s, a);
      NobodyInside(s, a, t);
      assert s.mutex.None?;
      RestWithout(s.list, at.value, a);
    }
  }

  /** In every run, each step of an activity brings it closer to its end, and only a new registration, by at most two
      steps, takes it further away; whatever else happens. */
  lemma BoundedWalks(es: seq<Event>, e: Event, t: Activity)
    requires Enabled(After(es), e) && t in After(es).acts
    ensures var s, s' := After(es), After(es + [e]);
      if Own(e, t) then t in s'.acts ==> StepsLeft(s', t) < StepsLeft(s, t)
      else t in s'.acts && StepsLeft(s', t) <= StepsLeft(s, t) + (if e.Register? then 2 else 0)
  {
    var s := After(es);
    RunsKeep(es);
    AfterOneMore(es, e);
    if !Own(e, t) {
      OtherStep(s, e, t);
    } else if t in Step(s, e).acts {
      OwnStepShrinks(s, e, t);
    }
  }
}
