/** What the lazy writer and the trimmer leave behind, CcRosFlushDirtyPages and CcRosTrimCache of ntoskrnl/cc/view.c:
    which stripes are written back, in what order, and which files are left alone. */
module CacheWriteBack {
  import opened Lists
  import opened VacbLists
  import opened CacheState
  import opened CacheContent
  import opened CacheTransfer
  import opened CacheSteps

  /** Everything about file f is as it was: its bytes on disk, its shared cache map and its VACBs. */
  ghost predicate LeftAlone(c: Cache, c': Cache, f: nat) {
    && (f in c.disk <==> f in c'.disk) && (f in c.disk ==> c'.disk[f] == c.disk[f])
    && (f in c.files <==> f in c'.files) && (f in c.files ==> c'.files[f] == c.files[f])
    && (forall v :: v in c.views && v.file == f ==> v in c'.views && c'.views[v] == c.views[v])
  }

  /** One stripe was written back: it leaves the dirty list, or goes to its end when the write failed, and the other
      files are left alone. */
  ghost predicate OneFlushed(c: Cache, c': Cache, v: Vacb, outcome: WriteOutcome) {
    && c'.dirty == Remove(c.dirty, v) + (if Cleans(outcome) then [] else [v])
    && OthersAlone(c, c', v.file)
    && c'.views.Keys == c.views.Keys && c'.holders == c.holders && SameFlags(c, c')
    && c'.totalDirtyPages + PAGES_PER_VACB * One(Cleans(outcome)) == c.totalDirtyPages
    && (!Cleans(outcome) ==> SameRefs(c.views, c'.views))
  }

  ghost predicate OthersAlone(c: Cache, c': Cache, f: nat) {
    forall g :: g != f ==> LeftAlone(c, c', g)
  }

  lemma FlushesOne(c: Cache, v: Vacb, outcome: WriteOutcome)
    requires CanUnmark(c, v) && CanTransfer(c, v) && OutcomeOk(outcome)
    ensures var c' := Flush(c, v, outcome);
      && c'.dirty == Remove(c.dirty, v) + (if Cleans(outcome) then [] else [v]) && OthersAlone(c, c', v.file)
  {
  }

  lemma HoldDropAlone(c: Cache, c': Cache, v: Vacb)
    requires v in c.views && v in c'.views && c'.views[v].refs > 1 && OthersAlone(Hold(c, v), c', v.file)
    ensures OthersAlone(c, Drop(c', v), v.file)
  {
    forall g | g != v.file
      ensures LeftAlone(c, Drop(c', v), g)
    {
      assert LeftAlone(Hold(c, v), c', g);
    }
  }

  lemma FlushesHeld(c: Cache, v: Vacb, outcome: WriteOutcome)
    requires v in c.views && c.views[v].dirty && c.views[v].refs >= 2 && OutcomeOk(outcome)
    requires CanUnmark(Hold(c, v), v) && CanTransfer(Hold(c, v), v)
    ensures OneFlushed(c, Drop(Flush(Hold(c, v), v, outcome), v), v, outcome)
  {
    FlushesOne(Hold(c, v), v, outcome);
    FlushBooks(Hold(c, v), v, outcome);
    FlushHeld(c, v, outcome);
    HoldDropAlone(c, Flush(Hold(c, v), v, outcome), v);
  }

  /** The lazy writer does not touch temporary files and files that asked for no write-behind; nobody touches a file
      whose owner does not let it be locked. */
  predicate Skips(files: map<nat, File>, f: nat, lazy: bool, lockable: set<nat>) {
    f in files ==> f !in lockable || (lazy && (files[f].temporary || files[f].writeBehindDisabled))
  }

  /** The dirty list without its first n stripes that are not skipped. */
  function Kept(q: seq<Vacb>, files: map<nat, File>, lazy: bool, lockable: set<nat>, n: nat): seq<Vacb> {
    if q == [] then []
    else if Skips(files, q[0].file, lazy, lockable) then [q[0]] + Kept(q[1..], files, lazy, lockable, n)
    else if n == 0 then q
    else Kept(q[1..], files, lazy, lockable, n - 1)
  }

  lemma {:induction false} KeptAll(q: seq<Vacb>, files: map<nat, File>, lazy: bool, lockable: set<nat>)
    ensures Kept(q, files, lazy, lockable, 0) == q
  {
    if q != [] {
      KeptAll(q[1..], files, lazy, lockable);
    }
  }

  /** One more is written back: the first that is not skipped. */
  lemma {:induction false} KeptLess(q: seq<Vacb>, files: map<nat, File>, lazy: bool, lockable: set<nat>, n: nat, i: nat)
    requires var k := Kept(q, files, lazy, lockable, n);
      && i < |k| && !Skips(files, k[i].file, lazy, lockable)
      && forall j :: 0 <= j < i ==> Skips(files, k[j].file, lazy, lockable)
    ensures var k := Kept(q, files, lazy, lockable, n); Remove(k, k[i]) == Kept(q, files, lazy, lockable, n + 1)
  {
    var k := Kept(q, files, lazy, lockable, n);
    if Skips(files, q[0].file, lazy, lockable) {
      var rest := Kept(q[1..], files, lazy, lockable, n);
      assert k[0] == q[0] && k[1..] == rest;
      assert forall j :: 0 <= j < i - 1 ==> rest[j] == k[j + 1];
      KeptLess(q[1..], files, lazy, lockable, n, i - 1);
    } else if n == 0 {
      KeptAll(q[1..], files, lazy, lockable);
    } else {
      KeptLess(q[1..], files, lazy, lockable, n - 1, i);
    }
  }

  ghost predicate SkippedAlone(c: Cache, c': Cache, lazy: bool, lockable: set<nat>) {
    forall f :: Skips(c.files, f, lazy, lockable) ==> LeftAlone(c, c', f)
  }

  /** How the write number i ends; once the outcomes are used up every write succeeds. */
  function Ends(outcomes: seq<WriteOutcome>, i: nat): WriteOutcome {
    if i < |outcomes| then outcomes[i] else Written
  }

  /** How many of the first n writes are counted: all but those that failed for good. A write to protected media is
      counted although it cleans nothing. */
  function CountedOf(outcomes: seq<WriteOutcome>, n: nat): nat {
    if n == 0 then 0 else CountedOf(outcomes, n - 1) + One(!Ends(outcomes, n - 1).WriteFailed?)
  }

  function CleanedOf(outcomes: seq<WriteOutcome>, n: nat): nat {
    if n == 0 then 0
    else
      var outcome := Ends(outcomes, n - 1);
      CleanedOf(outcomes, n - 1) + One(outcome.Written? || outcome.WriteEnd?)
  }

  lemma {:induction false} AllCounted(n: nat)
    ensures CountedOf([], n) == CleanedOf([], n) == n
  {
    if n > 0 {
      AllCounted(n - 1);
    }
  }

  /** How far the loop has come after so many writes: the skipped files are left alone, the count and the dirty pages
      are what the writes make of them, and without failures the stripes written back are the first of the others. */
  ghost predicate WrittenBack(c: Cache, c': Cache, lazy: bool, lockable: set<nat>, outcomes: seq<WriteOutcome>,
                              writes: nat, count: nat) {
    && c'.views.Keys == c.views.Keys && c'.holders == c.holders && SameFlags(c, c')
    && SkippedAlone(c, c', lazy, lockable)
    && count == PAGES_PER_VACB * CountedOf(outcomes, writes)
    && c'.totalDirtyPages + PAGES_PER_VACB * CleanedOf(outcomes, writes) == c.totalDirtyPages
    && (outcomes == [] ==> c'.dirty == Kept(c.dirty, c.files, lazy, lockable, writes))
    && (count == 0 ==> SameRefs(c.views, c'.views))
  }

  lemma NothingWritten(c: Cache, lazy: bool, lockable: set<nat>, outcomes: seq<WriteOutcome>)
    ensures WrittenBack(c, c, lazy, lockable, outcomes, 0, 0)
  {
    KeptAll(c.dirty, c.files, lazy, lockable);
  }

  /** The first i entries of the dirty list are skipped. */
  ghost predicate AllSkipped(c: Cache, dirty: seq<Vacb>, lazy: bool, lockable: set<nat>, i: nat) {
    i <= |dirty| && forall j :: 0 <= j < i ==> Skips(c.files, dirty[j].file, lazy, lockable)
  }

  lemma SkippedStill(c: Cache, c': Cache, c'': Cache, lazy: bool, lockable: set<nat>, f: nat)
    requires SkippedAlone(c, c', lazy, lockable) && OthersAlone(c', c'', f) && !Skips(c.files, f, lazy, lockable)
    requires c'.views.Keys == c.views.Keys
    ensures SkippedAlone(c, c'', lazy, lockable)
  {
    forall g | Skips(c.files, g, lazy, lockable)
      ensures LeftAlone(c, c'', g)
    {
      assert LeftAlone(c, c', g) && LeftAlone(c', c'', g);
    }
  }

  lemma WritesOneMore(c: Cache, c': Cache, c'': Cache, lazy: bool, lockable: set<nat>, outcomes: seq<WriteOutcome>,
                      writes: nat, count: nat, i: nat)
    requires WrittenBack(c, c', lazy, lockable, outcomes, writes, count)
    requires AllSkipped(c, c'.dirty, lazy, lockable, i)
    requires i < |c'.dirty| && !Skips(c.files, c'.dirty[i].file, lazy, lockable)
    requires OneFlushed(c', c'', c'.dirty[i], Ends(outcomes, writes))
    ensures var count' := if Ends(outcomes, writes).WriteFailed? then count else count + PAGES_PER_VACB;
      WrittenBack(c, c'', lazy, lockable, outcomes, writes + 1, count')
  {
    SkippedStill(c, c', c'', lazy, lockable, c'.dirty[i].file);
    if outcomes == [] {
      KeptLess(c.dirty, c.files, lazy, lockable, writes, i);
    }
  }

  /** The flags of the files decide, and nobody changes them. */
  lemma SkipsSame(c: Cache, c': Cache, f: nat, lazy: bool, lockable: set<nat>)
    requires SameFlags(c, c')
    ensures Skips(c'.files, f, lazy, lockable) == Skips(c.files, f, lazy, lockable)
  {
  }

  /** What the loop has done, and what readers see of it. */
  ghost predicate FlushedLike(c: Cache, c': Cache, was: bool, astray: bool, lazy: bool, lockable: set<nat>,
                              outcomes: seq<WriteOutcome>, writes: nat, count: nat) {
    && WrittenBack(c, c', lazy, lockable, outcomes, writes, count)
    && Quiet(c, c', was, astray, outcomes)
  }

  ghost predicate Quiet(c: Cache, c': Cache, was: bool, astray: bool, outcomes: seq<WriteOutcome>) {
    && Unseen(c, c', astray) && (was ==> astray)
    && ((forall i :: 0 <= i < |outcomes| ==> !outcomes[i].WriteEnd?) ==> astray == was)
  }

  lemma FlushedLikeMore(c: Cache, c': Cache, c'': Cache, was: bool, astray: bool, astray': bool,
                        outcomes: seq<WriteOutcome>, outcome: WriteOutcome)
    requires Quiet(c, c', was, astray, outcomes) && Unseen(c', c'', astray') && (astray ==> astray')
    requires (!outcome.WriteEnd? ==> astray' == astray) && exists i: nat :: outcome == Ends(outcomes, i)
    ensures Quiet(c, c'', was, astray', outcomes)
  {
  }

  /** A walk along the whole dirty list that met skipped stripes only has met every dirty stripe. */
  lemma DirtyLeft(c: Cache, c': Cache, detached: set<Vacb>, lazy: bool, lockable: set<nat>, i: nat, whole: bool)
    requires Inv(c', detached) && SameFlags(c, c') && (whole ==> i == |c'.dirty|)
    requires AllSkipped(c, c'.dirty, lazy, lockable, i)
    ensures forall v :: whole && v in c'.views && c'.views[v].dirty ==>
      v.file in c.files && Skips(c.files, v.file, lazy, lockable)
  {
    forall v | whole && v in c'.views && c'.views[v].dirty
      ensures v.file in c.files && Skips(c.files, v.file, lazy, lockable)
    {
      DirtyListed(c', detached, v);
      var j :| 0 <= j < |c'.dirty| && c'.dirty[j] == v;
    }
  }

  // ----- trimming

  function Lesser(a: nat, b: nat): nat {
    if a < b then a else b
  }

  /** The VACBs with no reference but their own. */
  ghost function Unused(views: map<Vacb, View>): set<Vacb> {
    set v | v in views && views[v].refs < 2
  }

  /** The VACBs of a free list are those nobody uses. */
  ghost predicate Detached(views: map<Vacb, View>, list: seq<Vacb>) {
    && (forall v :: v in list ==> v in views && views[v].refs == 1)
    && (forall v :: v in views && v !in list ==> views[v].refs >= 2)
  }

  lemma DetachedStill(c: Cache, list: seq<Vacb>)
    requires Inv(c, SetOf(list))
    ensures forall v :: v in list ==> v in c.views && c.views[v].refs == 1
  {
    forall v | v in list
      ensures v in c.views && c.views[v].refs == 1
    {
      assert VacbOk(c, v, SetOf(list));
    }
  }

  /** What a trim reports: the pages of the unused VACBs, and those of the ones that went after a write-back of so many
      pages, never more than the target. */
  function Reported(target: nat, unused: nat, gone: nat, flushed: nat): nat
    requires unused <= gone
  {
    var first := Lesser(target, PAGES_PER_VACB * unused);
    first + Lesser(Lesser(target - first, flushed), PAGES_PER_VACB * (gone - unused))
  }

  lemma {:induction false} AsMany(s: seq<Vacb>)
    requires Distinct(s)
    ensures |SetOf(s)| == |s|
  {
    if s != [] {
      var n := |s| - 1;
      forall i, j | 0 <= i < j < n
        ensures Apart(s[..n], i, j)
      {
        assert Apart(s, i, j);
      }
      AsMany(s[..n]);
      NotBefore(s, n);
      assert SetOf(s) == SetOf(s[..n]) + {s[n]};
    }
  }

  lemma UnusedListed(views: map<Vacb, View>, freeList: seq<Vacb>)
    requires Distinct(freeList) && Detached(views, freeList)
    ensures |Unused(views)| == |freeList|
  {
    assert Unused(views) == SetOf(freeList);
    AsMany(freeList);
  }

  lemma GoneCounted(before: map<Vacb, View>, kept: map<Vacb, View>, after: map<Vacb, View>, freeList: seq<Vacb>)
    requires Distinct(freeList) && kept.Keys == before.Keys && after == kept - SetOf(freeList)
    requires forall v :: v in freeList ==> v in kept
    ensures |before| - |after| == |freeList|
  {
    AsMany(freeList);
    assert after.Keys == before.Keys - SetOf(freeList);
    assert |after| == |after.Keys| && |before| == |before.Keys|;
  }
}
