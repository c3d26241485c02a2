/** One VACB while threads copy into it and write it back, ntoskrnl/cc/view.c, as interleaved steps. CcRosFlushVacb
    clears the dirty mark, writes, and marks again if the write failed, each under its own hold of the locks;
    CcRosReleaseVacb looks at the mark before it takes the locks to set it. A write carries the bytes of the moment it
    begins and puts them on disk when it ends. References keep the VACB alive and are left out. */
module FlushRace {
  import opened Options

  type Thread = nat

  /** Where a thread is: it has changed the bytes and not looked at the mark yet, is about to set it, has seen it and is
      about to clear it, has cleared it, or is writing the bytes of that version. */
  datatype Phase = Copied | ToMark | ToUnmark | Unmarked | Writing(version: nat)

  /** version counts the changes of the bytes; disk is the version on disk, none after a failed write. */
  datatype Stripe = Stripe(version: nat, disk: Option<nat>, dirty: bool, threads: map<Thread, Phase>)

  datatype Event =
    | Copy(thread: Thread)
    | Check(thread: Thread)
    | Mark(thread: Thread)
    | See(thread: Thread)
    | Unmark(thread: Thread)
    | Begin(thread: Thread)
    | End(thread: Thread, ok: bool)

  predicate Enabled(s: Stripe, e: Event) {
    match e
    case Copy(t) => t !in s.threads
    case Check(t) => t in s.threads && s.threads[t] == Copied
    case Mark(t) => t in s.threads && s.threads[t] == ToMark
    case See(t) => t !in s.threads && s.dirty
    case Unmark(t) => t in s.threads && s.threads[t] == ToUnmark
    case Begin(t) => t in s.threads && s.threads[t] == Unmarked
    case End(t, _) => t in s.threads && s.threads[t].Writing?
  }

  /** An assertion of CcRosMarkDirtyVacb or CcRosUnmarkDirtyVacb fails. */
  predicate Fails(s: Stripe, e: Event) {
    (e.Mark? && s.dirty) || (e.Unmark? && !s.dirty)
  }

  function Put(s: Stripe, t: Thread, p: Phase): Stripe {
    s.(threads := s.threads[t := p])
  }

  function Leave(s: Stripe, t: Thread): Stripe {
    s.(threads := s.threads - {t})
  }

  function Step(s: Stripe, e: Event): Stripe
    requires Enabled(s, e)
  {
    match e
    case Copy(t) => Put(s.(version := s.version + 1), t, Copied)
    case Check(t) => if s.dirty then Leave(s, t) else Put(s, t, ToMark)
    case Mark(t) => Leave(s.(dirty := true), t)
    case See(t) => Put(s, t, ToUnmark)
    case Unmark(t) => Put(s.(dirty := false), t, Unmarked)
    case Begin(t) => Put(s, t, Writing(s.version))
    case End(t, ok) => if ok then Leave(s.(disk := Some(s.threads[t].version)), t) else Put(s.(disk := None), t, ToMark)
  }

  // ----- nothing is forgotten

  /** The thread will set the mark or write the newest bytes. */
  predicate Covers(s: Stripe, t: Thread) {
    t in s.threads && !s.threads[t].ToUnmark? && (s.threads[t].Writing? ==> s.threads[t].version == s.version)
  }

  ghost predicate SomeoneCovers(s: Stripe) {
    exists t :: Covers(s, t)
  }

  /** The newest bytes are on disk, or marked dirty, or on their way to one of both. */
  ghost predicate Covered(s: Stripe) {
    s.disk == Some(s.version) || s.dirty || SomeoneCovers(s)
  }

  /** A write of older bytes ends after the newest ones were written. */
  ghost predicate Overtaken(s: Stripe, e: Event) {
    && e.End? && e.ok && Enabled(s, e) && s.threads[e.thread].version != s.version
    && !s.dirty && !SomeoneCovers(s)
  }

  lemma CoversStill(s: Stripe, e: Event, t: Thread)
    requires Enabled(s, e) && Covers(s, t) && !e.Copy?
    ensures t != e.thread ==> Covers(Step(s, e), t)
    ensures t == e.thread ==> Covered(Step(s, e))
  {
    var s' := Step(s, e);
    if t == e.thread && !s'.dirty && s'.disk != Some(s'.version) {
      assert Covers(s', t);
    }
  }

  lemma NobodyNew(s: Stripe, e: Event)
    requires Overtaken(s, e)
    ensures !SomeoneCovers(Step(s, e))
  {
    forall t
      ensures !Covers(Step(s, e), t)
    {
      assert !Covers(s, t);
    }
  }

  /** Every step keeps the newest bytes covered, if and only if it does not end such a write. */
  lemma StepKeeps(s: Stripe, e: Event)
    requires Covered(s) && Enabled(s, e)
    ensures Covered(Step(s, e)) <==> !Overtaken(s, e)
  {
    var s' := Step(s, e);
    if Overtaken(s, e) {
      NobodyNew(s, e);
    } else if e.Copy? {
      assert Covers(s', e.thread);
    } else if SomeoneCovers(s) {
      var t :| Covers(s, t);
      CoversStill(s, e, t);
      assert Covers(s', t) || Covered(s');
    } else if e.Unmark? || (e.End? && !e.ok) {
      assert Covers(s', e.thread);
    }
  }

  // ----- runs

  function After(es: seq<Event>): Stripe {
    if es == [] then Stripe(0, Some(0), false, map[])
    else
      var s, e := After(es[..|es| - 1]), es[|es| - 1];
      if Enabled(s, e) then Step(s, e) else s
  }

  lemma AfterNext(es: seq<Event>, n: nat)
    requires n < |es|
    ensures var s, e := After(es[..n]), es[n]; After(es[..n + 1]) == if Enabled(s, e) then Step(s, e) else s
  {
    assert es[..n + 1][..n] == es[..n];
  }

  ghost predicate OvertakenAt(es: seq<Event>, n: nat) {
    n < |es| && Overtaken(After(es[..n]), es[n])
  }

  lemma {:induction false} RunsKeep(es: seq<Event>, m: nat)
    requires m <= |es| && forall n :: 0 <= n < m ==> !OvertakenAt(es, n)
    ensures Covered(After(es[..m]))
  {
    if m > 0 {
      RunsKeep(es, m - 1);
      AfterNext(es, m - 1);
      assert !OvertakenAt(es, m - 1);
      if Enabled(After(es[..m - 1]), es[m - 1]) {
        StepKeeps(After(es[..m - 1]), es[m - 1]);
      }
    }
  }

  /** No change is lost in a run in which no write is overtaken: once all threads are through, a clean stripe is on disk
      as it is in memory. */
  lemma NeverLost(es: seq<Event>)
    requires After(es).threads == map[] && !After(es).dirty && forall n :: 0 <= n < |es| ==> !OvertakenAt(es, n)
    ensures After(es).disk == Some(After(es).version)
  {
    RunsKeep(es, |es|);
    assert es[..|es|] == es;
    assert forall t :: !Covers(After(es), t);
  }

  // ----- when a write is overtaken

  ghost predicate Known(s: Stripe) {
    && (s.disk.Some? ==> s.disk.value <= s.version)
    && (forall t :: t in s.threads && s.threads[t].Writing? ==> s.threads[t].version <= s.version)
  }

  lemma {:induction false} AllKnown(es: seq<Event>, m: nat)
    requires m <= |es|
    ensures Known(After(es[..m]))
  {
    if m > 0 {
      AllKnown(es, m - 1);
      AfterNext(es, m - 1);
      if Enabled(After(es[..m - 1]), es[m - 1]) {
        KnownNext(After(es[..m - 1]), es[m - 1]);
      }
    }
  }

  lemma KnownNext(s: Stripe, e: Event)
    requires Known(s) && Enabled(s, e)
    ensures Known(Step(s, e))
  {
  }

  predicate WritesAt(es: seq<Event>, k: nat, m: nat, j: nat, v: nat) {
    && k <= j < m <= |es| && Enabled(After(es[..j]), es[j]) && es[j].End? && es[j].ok
    && After(es[..j]).threads[es[j].thread] == Writing(v)
  }

  /** A version that has come to disk since step k was written since. */
  lemma {:induction false} WrittenSince(es: seq<Event>, k: nat, m: nat, v: nat)
    requires k <= m <= |es| && After(es[..k]).disk != Some(v) && After(es[..m]).disk == Some(v)
    ensures exists j :: WritesAt(es, k, m, j, v)
    decreases m
  {
    var n := m - 1;
    if After(es[..n]).disk == Some(v) {
      WrittenSince(es, k, n, v);
      var j: nat :| WritesAt(es, k, n, j, v);
      assert WritesAt(es, k, m, j, v);
    } else {
      AfterNext(es, n);
      assert WritesAt(es, k, m, n, v);
    }
  }

  predicate BeginsAt(es: seq<Event>, k: nat, m: nat, i: nat, t: Thread) {
    k <= i < m <= |es| && es[i] == Begin(t) && Enabled(After(es[..i]), es[i])
  }

  lemma {:induction false} BegunSince(es: seq<Event>, k: nat, m: nat, t: Thread, v: nat)
    requires k <= m <= |es| && t in After(es[..m]).threads && After(es[..m]).threads[t] == Writing(v)
    requires !(t in After(es[..k]).threads && After(es[..k]).threads[t] == Writing(v))
    ensures exists i :: BeginsAt(es, k, m, i, t)
    decreases m
  {
    var n := m - 1;
    var s := After(es[..n]);
    if t in s.threads && s.threads[t] == Writing(v) {
      BegunSince(es, k, n, t, v);
      var i: nat :| BeginsAt(es, k, n, i, t);
      assert BeginsAt(es, k, m, i, t);
    } else {
      AfterNext(es, n);
      assert BeginsAt(es, k, m, n, t);
    }
  }

  /** Thread u writes the stripe back, from step i to step j, after step k. */
  predicate WriteInside(es: seq<Event>, k: nat, i: nat, j: nat, u: Thread) {
    && k < i < j < |es| && es[i] == Begin(u) && Enabled(After(es[..i]), es[i])
    && es[j] == End(u, true) && Enabled(After(es[..j]), es[j])
  }

  /** A write is overtaken only if a write by another thread has both begun and ended while it was under way. */
  lemma OvertakenInside(es: seq<Event>, k: nat, t: Thread)
    requires k < |es| && es[k] == Begin(t) && Enabled(After(es[..k]), es[k])
    requires t in After(es).threads && After(es).threads[t] == Writing(After(es[..k]).version)
    requires Covered(After(es)) && Overtaken(After(es), End(t, true))
    ensures exists i, j, u :: WriteInside(es, k, i, j, u)
  {
    var v := After(es).version;
    assert es[..|es|] == es;
    AllKnown(es, k + 1);
    AllKnown(es, |es|);
    AfterNext(es, k);
    WrittenSince(es, k + 1, |es|, v);
    var j: nat :| WritesAt(es, k + 1, |es|, j, v);
    var u := es[j].thread;
    BegunSince(es, k + 1, j, u, v);
    var i: nat :| BeginsAt(es, k + 1, j, i, u);
    assert WriteInside(es, k, i, j, u);
  }

  // ----- when the assertions hold

  predicate MarksAt(es: seq<Event>, j: nat) {
    j < |es| && es[j].Mark? && Enabled(After(es[..j]), es[j])
  }

  predicate UnmarksAt(es: seq<Event>, j: nat) {
    j < |es| && es[j].Unmark? && Enabled(After(es[..j]), es[j])
  }

  /** After k steps and before m, step j sets the mark, and none clears it after that. */
  ghost predicate MarkStands(es: seq<Event>, k: nat, m: nat, j: nat) {
    k <= j < m <= |es| && MarksAt(es, j) && forall i :: j < i < m ==> !UnmarksAt(es, i)
  }

  ghost predicate ClearStands(es: seq<Event>, k: nat, m: nat, j: nat) {
    k <= j < m <= |es| && UnmarksAt(es, j) && forall i :: j < i < m ==> !MarksAt(es, i)
  }

  ghost predicate MarkedSince(es: seq<Event>, k: nat, m: nat) {
    exists j :: MarkStands(es, k, m, j)
  }

  ghost predicate ClearedSince(es: seq<Event>, k: nat, m: nat) {
    exists j :: ClearStands(es, k, m, j)
  }

  lemma NextMark(es: seq<Event>, n: nat)
    requires n < |es|
    ensures After(es[..n + 1]).dirty ==
      if MarksAt(es, n) then true else if UnmarksAt(es, n) then false else After(es[..n]).dirty
  {
    AfterNext(es, n);
  }

  lemma MarkedOneMore(es: seq<Event>, k: nat, n: nat)
    requires k <= n < |es|
    ensures MarkedSince(es, k, n + 1) <==> MarksAt(es, n) || (MarkedSince(es, k, n) && !UnmarksAt(es, n))
  {
    if MarksAt(es, n) {
      assert MarkStands(es, k, n + 1, n);
    } else if MarkedSince(es, k, n) && !UnmarksAt(es, n) {
      var j: nat :| MarkStands(es, k, n, j);
      assert MarkStands(es, k, n + 1, j);
    } else if MarkedSince(es, k, n + 1) {
      var j: nat :| MarkStands(es, k, n + 1, j);
      assert MarkStands(es, k, n, j) && !UnmarksAt(es, n);
    }
  }

  lemma ClearedOneMore(es: seq<Event>, k: nat, n: nat)
    requires k <= n < |es|
    ensures ClearedSince(es, k, n + 1) <==> UnmarksAt(es, n) || (ClearedSince(es, k, n) && !MarksAt(es, n))
  {
    if UnmarksAt(es, n) {
      assert ClearStands(es, k, n + 1, n);
    } else if ClearedSince(es, k, n) && !MarksAt(es, n) {
      var j: nat :| ClearStands(es, k, n, j);
      assert ClearStands(es, k, n + 1, j);
    } else if ClearedSince(es, k, n + 1) {
      var j: nat :| ClearStands(es, k, n + 1, j);
      assert ClearStands(es, k, n, j) && !MarksAt(es, n);
    }
  }

  lemma {:induction false} DirtySince(es: seq<Event>, k: nat, m: nat)
    requires k <= m <= |es|
    ensures !After(es[..k]).dirty ==> (After(es[..m]).dirty <==> MarkedSince(es, k, m))
    ensures After(es[..k]).dirty ==> (!After(es[..m]).dirty <==> ClearedSince(es, k, m))
    decreases m
  {
    if k < m {
      DirtySince(es, k, m - 1);
      NextMark(es, m - 1);
      MarkedOneMore(es, k, m - 1);
      ClearedOneMore(es, k, m - 1);
    }
  }

  /** A thread that is to set the mark, after it looked at the mark and went on or cleared the mark itself in step k,
      fails the assertion if and only if another thread has set the mark since and none has cleared it after that. */
  lemma MarkFails(es: seq<Event>, k: nat, t: Thread)
    requires k < |es| && (es[k] == Check(t) || es[k] == Unmark(t)) && Enabled(After(es[..k]), es[k])
    requires t in After(es[..k + 1]).threads && Enabled(After(es), Mark(t))
    ensures Fails(After(es), Mark(t)) <==> MarkedSince(es, k + 1, |es|)
  {
    AfterNext(es, k);
    DirtySince(es, k + 1, |es|);
    assert es[..|es|] == es;
  }

  /** A thread that is to clear the mark it saw in step k fails the assertion if and only if another thread has cleared
      it since and none has set it after that. */
  lemma UnmarkFails(es: seq<Event>, k: nat, t: Thread)
    requires k < |es| && es[k] == See(t) && Enabled(After(es[..k]), es[k]) && Enabled(After(es), Unmark(t))
    ensures Fails(After(es), Unmark(t)) <==> ClearedSince(es, k + 1, |es|)
  {
    AfterNext(es, k);
    DirtySince(es, k + 1, |es|);
    assert es[..|es|] == es;
  }

  // ----- runs in which it goes wrong

  lemma Then(es: seq<Event>, s: Stripe, e: Event, t: Stripe)
    requires After(es) == s && Enabled(s, e) && Step(s, e) == t
    ensures After(es + [e]) == t
  {
    assert (es + [e])[..|es|] == es;
  }

  lemma ThreeMore(es: seq<Event>, s: Stripe, e: Event, f: Event, g: Event, t: Stripe)
    requires After(es) == s && Enabled(s, e) && Enabled(Step(s, e), f) && Enabled(Step(Step(s, e), f), g)
    requires Step(Step(Step(s, e), f), g) == t
    ensures After(es + [e, f, g]) == t
  {
    var a := Step(s, e);
    var b := Step(a, f);
    Then(es, s, e, a);
    Then(es + [e], a, f, b);
    Then(es + [e] + [f], b, g, t);
    assert es + [e, f, g] == es + [e] + [f] + [g];
  }

  /** A thread changes the bytes of a clean stripe and marks it. */
  function Change(t: Thread): seq<Event> {
    [Copy(t), Check(t), Mark(t)]
  }

  lemma Changed(es: seq<Event>, s: Stripe, t: Thread)
    requires After(es) == s && t !in s.threads && !s.dirty
    ensures After(es + Change(t)) == s.(version := s.version + 1, dirty := true)
  {
    assert s.threads[t := Copied][t := ToMark] - {t} == s.threads;
    ThreeMore(es, s, Copy(t), Check(t), Mark(t), s.(version := s.version + 1, dirty := true));
  }

  /** A thread takes the mark off a dirty stripe and begins to write. */
  function WriteOut(t: Thread): seq<Event> {
    [See(t), Unmark(t), Begin(t)]
  }

  lemma WritingOut(es: seq<Event>, s: Stripe, t: Thread)
    requires After(es) == s && t !in s.threads && s.dirty
    ensures After(es + WriteOut(t)) == s.(dirty := false, threads := s.threads[t := Writing(s.version)])
  {
    assert s.threads[t := ToUnmark][t := Unmarked][t := Writing(s.version)] == s.threads[t := Writing(s.version)];
    ThreeMore(es, s, See(t), Unmark(t), Begin(t), s.(dirty := false, threads := s.threads[t := Writing(s.version)]));
  }

  function Halfway(): seq<Event> {
    [] + Change(0) + WriteOut(1) + Change(2)
  }

  lemma ChangedWhileWriting()
    ensures After(Halfway()) == Stripe(2, Some(0), true, map[1 := Writing(1)])
  {
    var s := Stripe(1, Some(0), true, map[]);
    var a := Stripe(1, Some(0), false, map[1 := Writing(1)]);
    Changed([], After([]), 0);
    WritingOut([] + Change(0), s, 1);
    assert s.threads[1 := Writing(1)] == a.threads;
    Changed([] + Change(0) + WriteOut(1), a, 2);
  }

  /** A copy during a write that then fails: marking the stripe again meets the mark of the copy. */
  lemma MarkedTwice()
    ensures var es := Halfway() + [End(1, false)]; Enabled(After(es), Mark(1)) && Fails(After(es), Mark(1))
  {
    ChangedWhileWriting();
    var s := After(Halfway());
    Then(Halfway(), s, End(1, false), Step(s, End(1, false)));
  }

  /** A write that begins later and ends earlier: afterwards the stripe is clean, nobody is at work on it, and the disk
      holds the older bytes. */
  lemma NewerBytesLost()
    ensures var s := After(Halfway() + WriteOut(3) + [End(3, true)] + [End(1, true)]);
      s.threads == map[] && !s.dirty && s.disk == Some(1) && s.version == 2
  {
    ChangedWhileWriting();
    var s := After(Halfway());
    WritingOut(Halfway(), s, 3);
    var a := s.(dirty := false, threads := s.threads[3 := Writing(2)]);
    var b := Stripe(2, Some(2), false, map[1 := Writing(1)]);
    assert a.threads - {3} == b.threads && b.threads - {1} == map[];
    Then(Halfway() + WriteOut(3), a, End(3, true), b);
    Then(Halfway() + WriteOut(3) + [End(3, true)], b, End(1, true), Stripe(2, Some(1), false, map[]));
  }
}
