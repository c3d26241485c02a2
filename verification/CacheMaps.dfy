/** The life of shared and private cache maps, ntoskrnl/cc/view.c: a file has a shared map while it is open, a handle a
    private map, the first of them inside the shared map. Each step is one hold of the master lock, or the look at the
    file's map that an initialisation takes without it. The routines drop the lock between the last close and the
    beginning of the deletion, and during the write-back of the deletion, so that any other steps may come in between. A
    shared map is told from later ones of the same file by its serial number, as a pointer to it would be. A step that
    uses a map that is gone is a fault; what it does to the memory is not modelled. */
module CacheMaps {
  import opened Lists
  import opened Options

  /** A file object that has the file open. */
  datatype Handle = Handle(id: nat, file: nat)

  /** A pointer to a shared cache map. */
  datatype Ref = Ref(file: nat, serial: nat)

  /** A shared cache map; embedded says whether the private map inside it is in use. */
  datatype Shared = Shared(serial: nat, openCount: nat, embedded: bool)

  /** privates says of each private map whether it is the embedded one; references are those of CcRosReferenceCache;
      closers are the threads between a last close and their deletion, deleters those that are writing back; looks are
      the serial numbers, if any, that initialisations have seen which do not have the lock yet. */
  datatype Maps = Maps(
    maps: map<nat, Shared>,
    privates: map<Handle, bool>,
    references: multiset<nat>,
    closers: multiset<Ref>,
    deleters: multiset<Ref>,
    looks: map<Handle, Option<nat>>,
    created: nat)

  datatype Event =
    | Look(handle: Handle)
    | Initialize(handle: Handle, sharedMemory: bool, privateMemory: bool)
    | Release(handle: Handle)
    | ReferenceCache(file: nat)
    | DereferenceCache(file: nat)
    | RemoveIfClosed(file: nat)
    | BeginDelete(shared: Ref)
    | FinishDelete(shared: Ref)

  predicate Live(s: Maps, c: Ref) {
    c.file in s.maps && s.maps[c.file].serial == c.serial
  }

  function RefTo(s: Maps, f: nat): Ref
    requires f in s.maps
  {
    Ref(f, s.maps[f].serial)
  }

  /** What the code demands of its callers: a file that is referenced is open, and only what was taken is given back. */
  predicate Enabled(s: Maps, e: Event) {
    match e
    case Look(h) => h !in s.looks
    case Initialize(h, _, _) => h in s.looks
    case Release(_) => true
    case ReferenceCache(f) => f in s.maps && s.maps[f].openCount != 0
    case DereferenceCache(f) => f in s.maps && f in s.references
    case RemoveIfClosed(_) => true
    case BeginDelete(c) => c in s.closers
    case FinishDelete(c) => c in s.deleters
  }

  function SetCount(s: Maps, f: nat, count: nat): Maps
    requires f in s.maps
  {
    s.(maps := s.maps[f := s.maps[f].(openCount := count)])
  }

  /** CcRosRemoveIfClosed finds a map to delete. */
  predicate Finds(s: Maps, f: nat) {
    f in s.maps && s.maps[f].openCount == 0
  }

  /** CcRosDeleteFileCache up to its write-back. */
  function StartDelete(s: Maps, c: Ref): Maps
    requires Live(s, c)
  {
    SetCount(s, c.file, s.maps[c.file].openCount + 1).(deleters := s.deleters + multiset{c})
  }

  /** The rest of it: the map goes unless it was opened again. */
  function EndDelete(s: Maps, c: Ref): Maps
    requires Live(s, c)
  {
    var count := s.maps[c.file].openCount;
    var t := s.(deleters := s.deleters - multiset{c});
    if count <= 1 then t.(maps := t.maps - {c.file}) else SetCount(t, c.file, count - 1)
  }

  /** One opening less; the last one leaves a closer, which drops the lock before it begins the deletion. */
  function Close(s: Maps, f: nat): Maps
    requires f in s.maps
  {
    var count := s.maps[f].openCount;
    if count == 0 then s
    else if count == 1 then SetCount(s, f, 0).(closers := s.closers + multiset{RefTo(s, f)})
    else SetCount(s, f, count - 1)
  }

  /** CcRosInitializeFileCache cannot have a private map for the handle. */
  predicate NoPrivateMap(s: Maps, h: Handle, privateMemory: bool) {
    h !in s.privates && h.file in s.maps && s.maps[h.file].embedded && !privateMemory
  }

  /** An initialisation that has seen no map and finds one under the lock takes it for its own when it has to give
      up. */
  predicate Kills(s: Maps, e: Event) {
    && e.Initialize? && e.handle in s.looks && s.looks[e.handle].None? && e.sharedMemory
    && NoPrivateMap(s, e.handle, e.privateMemory)
  }

  /** The step uses a map that is gone. */
  predicate Stale(s: Maps, e: Event) {
    match e
    case Initialize(h, _, _) => h in s.looks && s.looks[h].Some? && !Live(s, Ref(h.file, s.looks[h].value))
    case BeginDelete(c) => !Live(s, c)
    case FinishDelete(c) => !Live(s, c)
    case _ => false
  }

  function AddPrivate(s: Maps, h: Handle): Maps
    requires h.file in s.maps
  {
    var m := s.maps[h.file];
    s.(maps := s.maps[h.file := Shared(m.serial, m.openCount + 1, true)], privates := s.privates[h := !m.embedded])
  }

  function NewMap(s: Maps, f: nat): Maps {
    s.(maps := s.maps[f := Shared(s.created, 0, false)], created := s.created + 1)
  }

  /** CcRosInitializeFileCache under the lock, with a map that is there: made now, found, or seen before. */
  function Init(s: Maps, h: Handle, sawNone: bool, privateMemory: bool): Maps
    requires sawNone || h.file in s.maps
  {
    var t := if h.file in s.maps then s else NewMap(s, h.file);
    if h in t.privates then t
    else if NoPrivateMap(t, h, privateMemory) then (if sawNone then t.(maps := t.maps - {h.file}) else t)
    else AddPrivate(t, h)
  }

  /** CcRosReleaseFileCache, its private map. */
  function DropPrivate(s: Maps, h: Handle): Maps
    requires h in s.privates && h.file in s.maps
  {
    var m := s.maps[h.file];
    s.(maps := s.maps[h.file := m.(embedded := m.embedded && !s.privates[h])], privates := s.privates - {h})
  }

  function Step(s: Maps, e: Event): Maps
    requires Enabled(s, e)
  {
    match e
    case Look(h) => s.(looks := s.looks[h := if h.file in s.maps then Some(s.maps[h.file].serial) else None])
    case Initialize(h, sharedMemory, privateMemory) =>
      var t := s.(looks := s.looks - {h});
      if Stale(s, e) || (s.looks[h].None? && !sharedMemory) then t
      else Init(t, h, s.looks[h].None?, privateMemory)
    case Release(h) => if h.file in s.maps && h in s.privates then Close(DropPrivate(s, h), h.file) else s
    case ReferenceCache(f) =>
      SetCount(s, f, s.maps[f].openCount + 1).(references := s.references + multiset{f})
    case DereferenceCache(f) => Close(s.(references := s.references - multiset{f}), f)
    case RemoveIfClosed(f) => if Finds(s, f) then StartDelete(s, RefTo(s, f)) else s
    case BeginDelete(c) =>
      var t := s.(closers := s.closers - multiset{c});
      if Live(s, c) then StartDelete(t, c) else t
    case FinishDelete(c) => if Live(s, c) then EndDelete(s, c) else s.(deleters := s.deleters - multiset{c})
  }

  // ----- the invariant

  function HandlesOf(privates: map<Handle, bool>, f: nat): set<Handle> {
    set h | h in privates && h.file == f
  }

  function InsideOf(privates: map<Handle, bool>, f: nat): set<Handle> {
    set h | h in privates && h.file == f && privates[h]
  }

  /** The handles, references and deletions that have the map open. */
  function Openings(s: Maps, c: Ref): nat {
    |HandlesOf(s.privates, c.file)| + s.references[c.file] + s.deleters[c]
  }

  /** A map's count is that of its openings, one with a count of zero has a closer of that very map, and the embedded
      private map is the one of at most one handle; a file without a map is open for nobody. */
  ghost predicate MapOk(s: Maps, f: nat) {
    if f in s.maps then
      var m := s.maps[f];
      && m.serial < s.created && m.openCount == Openings(s, RefTo(s, f))
      && |InsideOf(s.privates, f)| == One(m.embedded)
      && (m.openCount == 0 ==> RefTo(s, f) in s.closers)
    else HandlesOf(s.privates, f) == {} && s.references[f] == 0
  }

  /** Pointers are to maps that were made, and a deletion under way is of a map that is there. */
  ghost predicate RefOk(s: Maps, c: Ref) {
    (c in s.closers ==> c.serial < s.created) && (c in s.deleters ==> Live(s, c))
  }

  ghost predicate LookOk(s: Maps, h: Handle) {
    h in s.looks && s.looks[h].Some? ==> s.looks[h].value < s.created
  }

  ghost predicate Inv(s: Maps) {
    (forall f :: MapOk(s, f)) && (forall c :: RefOk(s, c)) && (forall h :: LookOk(s, h))
  }

  lemma MorePrivates(privates: map<Handle, bool>, h: Handle, inside: bool, f: nat)
    requires h !in privates
    ensures |HandlesOf(privates[h := inside], f)| == |HandlesOf(privates, f)| + One(h.file == f)
    ensures |InsideOf(privates[h := inside], f)| == |InsideOf(privates, f)| + One(h.file == f && inside)
  {
    var p := privates[h := inside];
    assert HandlesOf(p, f) == if h.file == f then HandlesOf(privates, f) + {h} else HandlesOf(privates, f);
    assert InsideOf(p, f) == if h.file == f && inside then InsideOf(privates, f) + {h} else InsideOf(privates, f);
  }

  lemma FewerPrivates(privates: map<Handle, bool>, h: Handle, f: nat)
    requires h in privates
    ensures |HandlesOf(privates, f)| == |HandlesOf(privates - {h}, f)| + One(h.file == f)
    ensures |InsideOf(privates, f)| == |InsideOf(privates - {h}, f)| + One(h.file == f && privates[h])
  {
    var p := privates - {h};
    assert p[h := privates[h]] == privates;
    MorePrivates(p, h, privates[h], f);
  }

  lemma NobodyInside(privates: map<Handle, bool>, f: nat)
    requires HandlesOf(privates, f) == {}
    ensures |HandlesOf(privates, f)| == |InsideOf(privates, f)| == 0
  {
    assert InsideOf(privates, f) <= HandlesOf(privates, f);
  }

  /** A change of the map of file f alone, with its openings in step. */
  ghost predicate Changed(s: Maps, t: Maps, f: nat) {
    && f in t.maps && t.created >= s.created && t.maps[f].serial < t.created
    && t.maps == s.maps[f := t.maps[f]]
    && t.maps[f].openCount == Openings(t, RefTo(t, f)) && |InsideOf(t.privates, f)| == One(t.maps[f].embedded)
    && (t.maps[f].openCount == 0 ==> RefTo(t, f) in t.closers)
    && (f in s.maps ==> t.maps[f].serial == s.maps[f].serial)
  }

  /** Nothing else is touched. */
  ghost predicate Elsewhere(s: Maps, t: Maps, f: nat, g: nat) {
    g != f ==>
      && |InsideOf(t.privates, g)| == |InsideOf(s.privates, g)|
      && (HandlesOf(t.privates, g) == {} <==> HandlesOf(s.privates, g) == {})
      && |HandlesOf(t.privates, g)| == |HandlesOf(s.privates, g)| && t.references[g] == s.references[g]
      && (g in s.maps ==> t.deleters[RefTo(s, g)] == s.deleters[RefTo(s, g)])
      && (g in s.maps && RefTo(s, g) in s.closers ==> RefTo(s, g) in t.closers)
  }

  lemma ChangedKeeps(s: Maps, t: Maps, f: nat)
    requires Inv(s) && Changed(s, t, f) && forall g :: Elsewhere(s, t, f, g)
    requires forall c :: c in t.closers ==> c in s.closers || c == RefTo(t, f)
    requires forall c :: c in t.deleters ==> c in s.deleters || c == RefTo(t, f)
    requires forall h :: h in t.looks ==> h in s.looks && t.looks[h] == s.looks[h]
    ensures Inv(t)
  {
    forall g
      ensures MapOk(t, g)
    {
      assert MapOk(s, g) && Elsewhere(s, t, f, g);
    }
    forall c
      ensures RefOk(t, c)
    {
      assert RefOk(s, c);
    }
    forall h
      ensures LookOk(t, h)
    {
      assert LookOk(s, h);
    }
  }

  // ----- each step

  lemma NewSerial(s: Maps, f: nat)
    requires Inv(s)
    ensures s.deleters[Ref(f, s.created)] == 0
  {
    assert RefOk(s, Ref(f, s.created)) && MapOk(s, f);
  }

  lemma AddPrivateKeeps(s: Maps, t: Maps, h: Handle)
    requires Inv(s) && h !in s.privates && h.file in t.maps
    requires t == if h.file in s.maps then s else NewMap(s, h.file)
    ensures Inv(AddPrivate(t, h))
  {
    var u := AddPrivate(t, h);
    assert MapOk(s, h.file);
    NewSerial(s, h.file);
    if h.file !in s.maps {
      NobodyInside(s.privates, h.file);
    }
    MorePrivates(s.privates, h, !t.maps[h.file].embedded, h.file);
    forall g
      ensures Elsewhere(s, u, h.file, g)
    {
      MorePrivates(s.privates, h, !t.maps[h.file].embedded, g);
      assert g != h.file ==> HandlesOf(u.privates, g) == HandlesOf(s.privates, g);
    }
    ChangedKeeps(s, u, h.file);
  }

  /** A newly made shared map has its embedded private map to give, so that only somebody else's map can lack one. */
  lemma InitKeeps(s: Maps, h: Handle, sawNone: bool, privateMemory: bool)
    requires Inv(s) && (sawNone || h.file in s.maps)
    ensures Inv(Init(s, h, sawNone, privateMemory)) <==> !(sawNone && NoPrivateMap(s, h, privateMemory))
  {
    assert MapOk(s, h.file);
    assert h in s.privates ==> h in HandlesOf(s.privates, h.file);
    if sawNone && NoPrivateMap(s, h, privateMemory) {
      var inside :| inside in InsideOf(s.privates, h.file);
      assert inside in HandlesOf(s.privates, h.file);
      assert !MapOk(Init(s, h, sawNone, privateMemory), h.file);
    } else if h !in s.privates && !NoPrivateMap(s, h, privateMemory) {
      AddPrivateKeeps(s, if h.file in s.maps then s else NewMap(s, h.file), h);
    }
  }

  lemma LooksKeep(s: Maps, t: Maps)
    requires Inv(s) && t == s.(looks := t.looks) && forall h :: LookOk(t, h)
    ensures Inv(t)
  {
    forall f
      ensures MapOk(t, f)
    {
      assert MapOk(s, f);
    }
    forall c
      ensures RefOk(t, c)
    {
      assert RefOk(s, c);
    }
  }

  lemma InitializeKeeps(s: Maps, e: Event)
    requires Inv(s) && Enabled(s, e) && e.Initialize?
    ensures Inv(Step(s, e)) <==> !Kills(s, e)
  {
    var h := e.handle;
    var t := s.(looks := s.looks - {h});
    forall g
      ensures LookOk(t, g)
    {
      assert LookOk(s, g);
    }
    LooksKeep(s, t);
    assert LookOk(s, h);
    if !Stale(s, e) && (s.looks[h].Some? || e.sharedMemory) {
      InitKeeps(t, h, s.looks[h].None?, e.privateMemory);
    }
  }

  lemma LookKeeps(s: Maps, h: Handle)
    requires Inv(s) && Enabled(s, Look(h))
    ensures Inv(Step(s, Look(h)))
  {
    var t := Step(s, Look(h));
    assert MapOk(s, h.file);
    forall g
      ensures LookOk(t, g)
    {
      assert LookOk(s, g);
    }
    LooksKeep(s, t);
  }

  /** Closing one of the openings that are counted. */
  lemma CloseKeeps(s: Maps, t: Maps, f: nat)
    requires Inv(s) && f in s.maps && f in t.maps
    requires t == s.(maps := t.maps, privates := t.privates, references := t.references)
    requires t.maps == s.maps[f := s.maps[f].(embedded := t.maps[f].embedded)] && (forall g :: Elsewhere(s, t, f, g))
    requires Openings(s, RefTo(s, f)) == Openings(t, RefTo(t, f)) + 1
    requires |InsideOf(t.privates, f)| == One(t.maps[f].embedded)
    ensures Inv(Close(t, f))
  {
    var u := Close(t, f);
    assert MapOk(s, f);
    assert RefTo(u, f) == RefTo(s, f);
    forall g
      ensures Elsewhere(s, u, f, g)
    {
      assert Elsewhere(s, t, f, g);
    }
    ChangedKeeps(s, u, f);
  }

  lemma ReleaseKeeps(s: Maps, h: Handle)
    requires Inv(s)
    ensures Inv(Step(s, Release(h)))
  {
    if h.file in s.maps && h in s.privates {
      var t := DropPrivate(s, h);
      forall g
        ensures Elsewhere(s, t, h.file, g)
      {
        FewerPrivates(s.privates, h, g);
        assert g != h.file ==> HandlesOf(t.privates, g) == HandlesOf(s.privates, g);
      }
      FewerPrivates(s.privates, h, h.file);
      assert MapOk(s, h.file);
      CloseKeeps(s, t, h.file);
    }
  }

  lemma DereferenceKeeps(s: Maps, f: nat)
    requires Inv(s) && Enabled(s, DereferenceCache(f))
    ensures Inv(Step(s, DereferenceCache(f)))
  {
    assert MapOk(s, f);
    var t := s.(references := s.references - multiset{f});
    assert t.maps == s.maps[f := s.maps[f].(embedded := t.maps[f].embedded)];
    CloseKeeps(s, t, f);
  }

  lemma ReferenceKeeps(s: Maps, f: nat)
    requires Inv(s) && Enabled(s, ReferenceCache(f))
    ensures Inv(Step(s, ReferenceCache(f)))
  {
    assert MapOk(s, f);
    ChangedKeeps(s, Step(s, ReferenceCache(f)), f);
  }

  lemma StartKeeps(s: Maps, t: Maps, c: Ref)
    requires Inv(s) && Live(s, c) && t == s.(closers := t.closers)
    requires forall d :: d in t.closers ==> d in s.closers
    requires forall d :: d in s.closers && d != c ==> d in t.closers
    ensures Inv(StartDelete(t, c))
  {
    var u := StartDelete(t, c);
    assert MapOk(s, c.file);
    ChangedKeeps(s, u, c.file);
  }

  lemma BeginKeeps(s: Maps, c: Ref)
    requires Inv(s) && c in s.closers
    ensures Inv(Step(s, BeginDelete(c)))
  {
    var t := s.(closers := s.closers - multiset{c});
    if Live(s, c) {
      StartKeeps(s, t, c);
    } else {
      forall f
        ensures MapOk(t, f)
      {
        assert MapOk(s, f);
      }
      forall d
        ensures RefOk(t, d)
      {
        assert RefOk(s, d);
      }
      assert forall h :: LookOk(s, h) ==> LookOk(t, h);
    }
  }

  lemma FinishKeeps(s: Maps, c: Ref)
    requires Inv(s) && c in s.deleters
    ensures Live(s, c) && Inv(Step(s, FinishDelete(c)))
  {
    assert RefOk(s, c) && MapOk(s, c.file);
    var t := Step(s, FinishDelete(c));
    if s.maps[c.file].openCount > 1 {
      ChangedKeeps(s, t, c.file);
    } else {
      RemovalKeeps(s, t, c);
    }
  }

  /** The last opening was that deletion. */
  lemma RemovalKeeps(s: Maps, t: Maps, c: Ref)
    requires Inv(s) && Live(s, c) && c in s.deleters && s.maps[c.file].openCount == 1
    requires t == s.(deleters := s.deleters - multiset{c}, maps := s.maps - {c.file})
    ensures Inv(t)
  {
    assert MapOk(s, c.file);
    assert |HandlesOf(s.privates, c.file)| == 0 && s.references[c.file] == 0 && s.deleters[c] == 1;
    forall f
      ensures MapOk(t, f)
    {
      assert MapOk(s, f);
    }
    forall d
      ensures RefOk(t, d)
    {
      assert RefOk(s, d);
    }
    assert forall h :: LookOk(s, h) ==> LookOk(t, h);
  }

  /** Every step keeps all this, if and only if it is not an initialisation that saw no map, found another thread's
      under the lock, and has no memory for its private map. */
  lemma StepKeeps(s: Maps, e: Event)
    requires Inv(s) && Enabled(s, e)
    ensures Inv(Step(s, e)) <==> !Kills(s, e)
  {
    match e
    case Look(h) => LookKeeps(s, h);
    case Initialize(_, _, _) => InitializeKeeps(s, e);
    case Release(h) => ReleaseKeeps(s, h);
    case ReferenceCache(f) => ReferenceKeeps(s, f);
    case DereferenceCache(f) => DereferenceKeeps(s, f);
    case RemoveIfClosed(f) =>
      if Finds(s, f) {
        StartKeeps(s, s, RefTo(s, f));
      }
    case BeginDelete(c) => BeginKeeps(s, c);
    case FinishDelete(c) => FinishKeeps(s, c);
  }

  // ----- runs

  /** Every run: any steps in any order, those that are not enabled left out. */
  function After(es: seq<Event>): Maps {
    if es == [] then Maps(map[], map[], multiset{}, multiset{}, multiset{}, map[], 0)
    else
      var s, e := After(es[..|es| - 1]), es[|es| - 1];
      if Enabled(s, e) then Step(s, e) else s
  }

  predicate FaultAt(es: seq<Event>, n: nat) {
    n < |es| && Enabled(After(es[..n]), es[n]) && (Kills(After(es[..n]), es[n]) || Stale(After(es[..n]), es[n]))
  }

  /** No step of the run has used a map that is gone, or removed one that is not its own. */
  ghost predicate Sound(es: seq<Event>) {
    forall n :: !FaultAt(es, n)
  }

  lemma PastSound(es: seq<Event>, k: nat)
    requires Sound(es) && k <= |es|
    ensures Sound(es[..k])
  {
    forall n: nat
      ensures !FaultAt(es[..k], n)
    {
      assert !FaultAt(es, n);
      if n < k {
        assert es[..k][..n] == es[..n];
      }
    }
  }

  lemma {:induction false} RunsKeep(es: seq<Event>)
    requires Sound(es)
    ensures Inv(After(es))
  {
    if es == [] {
      assert forall f :: HandlesOf(map[], f) == {} && InsideOf(map[], f) == {};
    } else {
      var past, e := es[..|es| - 1], es[|es| - 1];
      PastSound(es, |es| - 1);
      RunsKeep(past);
      assert !FaultAt(es, |es| - 1);
      if Enabled(After(past), e) {
        StepKeeps(After(past), e);
      }
    }
  }

  /** In every run without a fault so far, whoever has a file open finds its map, whose count is that of all openings. A
      map that nobody has open is there only while a closer of that very map is on its way to delete it, and only such
      a map is found by CcRosRemoveIfClosed. */
  lemma CachedWhileOpen(es: seq<Event>, f: nat)
    requires Sound(es)
    ensures var s := After(es);
      && ((exists h :: h in s.privates && h.file == f) || f in s.references ==> f in s.maps)
      && (forall c :: c in s.deleters ==> Live(s, c))
      && (f in s.maps ==>
            && s.maps[f].openCount == Openings(s, RefTo(s, f))
            && (Openings(s, RefTo(s, f)) == 0 ==> RefTo(s, f) in s.closers))
      && (Finds(s, f) <==> f in s.maps && Openings(s, RefTo(s, f)) == 0)
  {
    RunsKeep(es);
    OpenOnes(After(es), f);
  }

  lemma OpenOnes(s: Maps, f: nat)
    requires Inv(s)
    ensures (exists h :: h in s.privates && h.file == f) || f in s.references ==> f in s.maps
    ensures forall c :: c in s.deleters ==> Live(s, c)
    ensures f in s.maps ==>
      && s.maps[f].openCount == Openings(s, RefTo(s, f))
      && (Openings(s, RefTo(s, f)) == 0 ==> RefTo(s, f) in s.closers)
  {
    assert MapOk(s, f);
    forall c | c in s.deleters
      ensures Live(s, c)
    {
      assert RefOk(s, c);
    }
    forall h | h in s.privates && h.file == f
      ensures f in s.maps
    {
      assert h in HandlesOf(s.privates, f);
    }
  }

  // ----- when a map goes

  /** The step ends the deletion of the map, and nobody else has it open. */
  predicate Finishes(s: Maps, e: Event, c: Ref) {
    Enabled(s, e) && e == FinishDelete(c) && Live(s, c) && s.maps[c.file].openCount <= 1
  }

  predicate Removes(s: Maps, e: Event, c: Ref) {
    Finishes(s, e, c) || (Enabled(s, e) && Kills(s, e) && e.handle.file == c.file && Live(s, c))
  }

  /** A map goes by these steps only, and does not come back. */
  lemma GoesOnly(s: Maps, e: Event, c: Ref)
    requires Enabled(s, e) && c.serial < s.created
    ensures c.serial < Step(s, e).created && (Live(Step(s, e), c) <==> Live(s, c) && !Removes(s, e, c))
  {
    match e
    case Initialize(_, _, _) => InitializeGoes(s, e, c);
    case FinishDelete(_) => FinishGoes(s, e, c);
    case Release(_) => ClosedStays(s, e, c);
    case DereferenceCache(_) => ClosedStays(s, e, c);
    case _ => OthersStay(s, e, c);
  }

  lemma InitializeGoes(s: Maps, e: Event, c: Ref)
    requires Enabled(s, e) && c.serial < s.created && e.Initialize?
    ensures c.serial < Step(s, e).created && (Live(Step(s, e), c) <==> Live(s, c) && !Removes(s, e, c))
  {
  }

  lemma FinishGoes(s: Maps, e: Event, c: Ref)
    requires Enabled(s, e) && c.serial < s.created && e.FinishDelete?
    ensures c.serial < Step(s, e).created && (Live(Step(s, e), c) <==> Live(s, c) && !Removes(s, e, c))
  {
  }

  lemma OthersStay(s: Maps, e: Event, c: Ref)
    requires Enabled(s, e) && (e.Look? || e.ReferenceCache? || e.RemoveIfClosed? || e.BeginDelete?)
    ensures Step(s, e).created == s.created && (Live(Step(s, e), c) <==> Live(s, c)) && !Removes(s, e, c)
  {
    match e
    case Look(_) =>
    case ReferenceCache(f) => CountedStays(s, f, s.maps[f].openCount + 1, c);
    case RemoveIfClosed(f) => if Finds(s, f) { CountedStays(s, f, s.maps[f].openCount + 1, c); }
    case BeginDelete(d) => if Live(s, d) { CountedStays(s, d.file, s.maps[d.file].openCount + 1, c); }
  }

  lemma CountedStays(s: Maps, f: nat, count: nat, c: Ref)
    requires f in s.maps
    ensures SetCount(s, f, count).created == s.created && (Live(SetCount(s, f, count), c) <==> Live(s, c))
  {
  }

  lemma ClosedStays(s: Maps, e: Event, c: Ref)
    requires Enabled(s, e) && (e.Release? || e.DereferenceCache?)
    ensures Step(s, e).created == s.created && (Live(Step(s, e), c) <==> Live(s, c)) && !Removes(s, e, c)
  {
    if e.DereferenceCache? {
      CloseStays(s.(references := s.references - multiset{e.file}), e.file, c);
    } else if e.handle.file in s.maps && e.handle in s.privates {
      var t := DropPrivate(s, e.handle);
      assert Live(t, c) <==> Live(s, c);
      CloseStays(t, e.handle.file, c);
    }
  }

  lemma CloseStays(s: Maps, f: nat, c: Ref)
    requires f in s.maps
    ensures Close(s, f).created == s.created && (Live(Close(s, f), c) <==> Live(s, c))
  {
  }

  predicate RemovesAt(es: seq<Event>, k: nat, j: nat, c: Ref) {
    k <= j < |es| && Removes(After(es[..j]), es[j], c)
  }

  predicate FinishesAfter(es: seq<Event>, k: nat, j: nat, c: Ref) {
    k < j < |es| && Finishes(After(es[..j]), es[j], c)
  }

  /** One of the steps from k on removes the map. */
  ghost predicate RemovedSince(es: seq<Event>, k: nat, c: Ref) {
    exists j :: RemovesAt(es, k, j, c)
  }

  /** One of the steps after step k ends a deletion of the map that nobody else has open. */
  ghost predicate FinishedAfter(es: seq<Event>, k: nat, c: Ref) {
    exists j :: FinishesAfter(es, k, j, c)
  }

  /** One of the steps from k to m begins a deletion of the map. */
  ghost predicate BegunFrom(es: seq<Event>, k: nat, m: nat, c: Ref) {
    exists i :: BeginsAt(es, k, m, i, c)
  }

  lemma AfterLast(es: seq<Event>, n: nat)
    requires |es| == n + 1
    ensures After(es) == if Enabled(After(es[..n]), es[n]) then Step(After(es[..n]), es[n]) else After(es[..n])
  {
  }

  lemma RemovedBefore(es: seq<Event>, n: nat, k: nat, j: nat, c: Ref)
    requires |es| == n + 1
    ensures RemovesAt(es, k, j, c) <==>
      RemovesAt(es[..n], k, j, c) || (j == n && k <= n && Removes(After(es[..n]), es[n], c))
  {
    if j < n {
      assert es[..n][..j] == es[..j] && es[..n][j] == es[j];
    }
  }

  /** A map that was there after k steps is there if and only if none of the later ones removed it. */
  lemma {:induction false} GoneSince(es: seq<Event>, k: nat, c: Ref)
    requires k <= |es| && Live(After(es[..k]), c) && c.serial < After(es[..k]).created
    ensures c.serial < After(es).created
    ensures !Live(After(es), c) <==> RemovedSince(es, k, c)
    decreases |es|
  {
    if k == |es| {
      assert es[..k] == es;
    } else {
      var n := |es| - 1;
      assert es[..n][..k] == es[..k];
      GoneSince(es[..n], k, c);
      GoneStep(es, n, k, c, After(es[..n]));
    }
  }

  lemma GoneStep(es: seq<Event>, n: nat, k: nat, c: Ref, s: Maps)
    requires |es| == n + 1 && k <= n && s == After(es[..n]) && c.serial < s.created
    requires !Live(s, c) <==> RemovedSince(es[..n], k, c)
    ensures c.serial < After(es).created
    ensures !Live(After(es), c) <==> RemovedSince(es, k, c)
  {
    AfterLast(es, n);
    if Enabled(s, es[n]) {
      GoesOnly(s, es[n], c);
    }
    RemovedOneMore(es, n, k, c);
  }

  lemma RemovedOneMore(es: seq<Event>, n: nat, k: nat, c: Ref)
    requires |es| == n + 1 && k <= n
    ensures RemovedSince(es, k, c) <==> RemovedSince(es[..n], k, c) || Removes(After(es[..n]), es[n], c)
  {
    RemovedBefore(es, n, k, n, c);
    if RemovedSince(es[..n], k, c) {
      var j: nat :| RemovesAt(es[..n], k, j, c);
      RemovedBefore(es, n, k, j, c);
    }
    if RemovedSince(es, k, c) {
      var j: nat :| RemovesAt(es, k, j, c);
      RemovedBefore(es, n, k, j, c);
    }
  }

  lemma RemovalFinishes(es: seq<Event>, k: nat, j: nat, c: Ref)
    requires !FaultAt(es, j)
    ensures RemovesAt(es, k + 1, j, c) <==> FinishesAfter(es, k, j, c)
  {
  }

  /** In a run without a fault it went by a finished deletion. */
  lemma FinishedSince(es: seq<Event>, k: nat, c: Ref)
    requires Sound(es) && k < |es| && Live(After(es[..k + 1]), c)
    ensures !Live(After(es), c) <==> FinishedAfter(es, k, c)
  {
    MadeBefore(es, k + 1, c);
    GoneSince(es, k + 1, c);
    if j: nat :| FinishesAfter(es, k, j, c) {
      RemovalFinishes(es, k, j, c);
    }
    if RemovedSince(es, k + 1, c) {
      var j: nat :| RemovesAt(es, k + 1, j, c);
      RemovalFinishes(es, k, j, c);
    }
  }

  lemma MadeBefore(es: seq<Event>, k: nat, c: Ref)
    requires Sound(es) && k <= |es| && Live(After(es[..k]), c)
    ensures c.serial < After(es[..k]).created
  {
    PastSound(es, k);
    RunsKeep(es[..k]);
    assert MapOk(After(es[..k]), c.file);
  }

  // ----- deletions that find their map gone

  /** A deletion of the map begins. */
  predicate Begins(s: Maps, e: Event, c: Ref) {
    && Enabled(s, e) && Live(s, c)
    && (e == BeginDelete(c) || (e == RemoveIfClosed(c.file) && Finds(s, c.file)))
  }

  predicate BeginsAt(es: seq<Event>, k: nat, m: nat, i: nat, c: Ref) {
    k <= i < m <= |es| && Begins(After(es[..i]), es[i], c)
  }

  lemma DeleterBegan(s: Maps, e: Event, c: Ref)
    requires Enabled(s, e) && c !in s.deleters && c in Step(s, e).deleters
    ensures Begins(s, e, c)
  {
    if !e.BeginDelete? && !e.RemoveIfClosed? {
      NoDeleter(s, e, c);
    }
  }

  lemma NoDeleter(s: Maps, e: Event, c: Ref)
    requires Enabled(s, e) && c !in s.deleters && !e.BeginDelete? && !e.RemoveIfClosed?
    ensures c !in Step(s, e).deleters
  {
  }

  /** A deletion that is under way after m steps, and was not after k, has begun in between. */
  lemma {:induction false} BegunBetween(es: seq<Event>, k: nat, m: nat, c: Ref)
    requires k <= m <= |es| && c !in After(es[..k]).deleters && c in After(es[..m]).deleters
    ensures BegunFrom(es, k, m, c)
    decreases m
  {
    var n := m - 1;
    if c in After(es[..n]).deleters {
      BegunBetween(es, k, n, c);
      BegunStill(es, k, n, m, c);
    } else {
      BegunStep(es, k, n, c, After(es[..n]));
    }
  }

  lemma BegunStill(es: seq<Event>, k: nat, n: nat, m: nat, c: Ref)
    requires n <= m <= |es| && BegunFrom(es, k, n, c)
    ensures BegunFrom(es, k, m, c)
  {
    var i: nat :| BeginsAt(es, k, n, i, c);
    assert BeginsAt(es, k, m, i, c);
  }

  lemma BegunStep(es: seq<Event>, k: nat, n: nat, c: Ref, s: Maps)
    requires k <= n < |es| && s == After(es[..n]) && c !in s.deleters && c in After(es[..n + 1]).deleters
    ensures BegunFrom(es, k, n + 1, c)
  {
    AfterNext(es, n);
    DeleterBegan(s, es[n], c);
    assert BeginsAt(es, k, n + 1, n, c);
  }

  lemma AfterNext(es: seq<Event>, n: nat)
    requires n < |es|
    ensures var s, e := After(es[..n]), es[n]; After(es[..n + 1]) == if Enabled(s, e) then Step(s, e) else s
  {
    assert es[..n + 1][..n] == es[..n];
  }

  /** The last close of the map: it leaves a closer. */
  predicate LastClose(s: Maps, e: Event, c: Ref) {
    && Enabled(s, e) && Live(s, c) && Live(Step(s, e), c)
    && s.maps[c.file].openCount > 0 && Step(s, e).maps[c.file].openCount == 0
  }

  /** Another deletion of the map begins at step i and ends at step j, after step k. */
  predicate DeletedInside(es: seq<Event>, k: nat, i: nat, j: nat, c: Ref) {
    k < i < j < |es| && Begins(After(es[..i]), es[i], c) && Finishes(After(es[..j]), es[j], c)
  }

  ghost predicate DeletedWithin(es: seq<Event>, k: nat, c: Ref) {
    exists i, j :: DeletedInside(es, k, i, j, c)
  }

  /** A thread that closes a map as the last one and then goes to delete it finds it gone, if and only if in between
      another deletion of that map has both begun and ended. */
  lemma DeletionFindsGone(es: seq<Event>, k: nat, c: Ref)
    requires Sound(es) && k < |es| && LastClose(After(es[..k]), es[k], c)
    ensures Stale(After(es), BeginDelete(c)) <==> DeletedWithin(es, k, c)
  {
    NotBegunYet(es, k, c);
    FinishedSince(es, k, c);
    if DeletedWithin(es, k, c) {
      var i: nat, j: nat :| DeletedInside(es, k, i, j, c);
      assert FinishesAfter(es, k, j, c);
    }
    if !Live(After(es), c) {
      var j: nat :| FinishesAfter(es, k, j, c);
      BegunInside(es, k, j, c);
    }
  }

  lemma NotBegunYet(es: seq<Event>, k: nat, c: Ref)
    requires Sound(es) && k < |es| && LastClose(After(es[..k]), es[k], c)
    ensures Live(After(es[..k + 1]), c) && c !in After(es[..k + 1]).deleters
  {
    var past := es[..k + 1];
    assert past[..k] == es[..k] && past[k] == es[k];
    AfterLast(past, k);
    PastSound(es, k + 1);
    RunsKeep(past);
    assert MapOk(After(past), c.file);
  }

  lemma BegunInside(es: seq<Event>, k: nat, j: nat, c: Ref)
    requires k < |es| && c !in After(es[..k + 1]).deleters && FinishesAfter(es, k, j, c)
    ensures DeletedWithin(es, k, c)
  {
    BegunBetween(es, k + 1, j, c);
    var i: nat :| BeginsAt(es, k + 1, j, i, c);
    assert DeletedInside(es, k, i, j, c);
  }

  /** An initialisation that saw a map without the lock uses one that is gone, if and only if a deletion of that map has
      ended since. */
  lemma LookFindsGone(es: seq<Event>, k: nat, h: Handle, c: Ref, sharedMemory: bool, privateMemory: bool)
    requires Sound(es) && k < |es| && es[k] == Look(h) && Enabled(After(es[..k]), es[k])
    requires c.file == h.file && Live(After(es[..k]), c)
    requires h in After(es).looks && After(es).looks[h] == Some(c.serial)
    ensures Stale(After(es), Initialize(h, sharedMemory, privateMemory)) <==> FinishedAfter(es, k, c)
  {
    var past := es[..k + 1];
    assert past[..k] == es[..k] && past[k] == es[k];
    AfterLast(past, k);
    FinishedSince(es, k, c);
  }

  /** The failure path never removes a map that it made: whenever it removes one, others have that map open. */
  lemma KilledWasOpen(es: seq<Event>, e: Event)
    requires Sound(es) && Enabled(After(es), e) && Kills(After(es), e)
    ensures var s, f := After(es), e.handle.file;
      && f in s.maps && s.maps[f].openCount > 0 && f !in Step(s, e).maps
      && exists h :: h in Step(s, e).privates && h.file == f && h != e.handle
  {
    RunsKeep(es);
    var s, f := After(es), e.handle.file;
    assert MapOk(s, f);
    var h :| h in InsideOf(s.privates, f);
    assert h in HandlesOf(s.privates, f);
    assert h in Step(s, e).privates && h.file == f && h != e.handle;
  }

  // ----- who has what

  /** The initialisation succeeds and gives the handle a private map: the one inside the shared map if it is free. */
  predicate Opens(s: Maps, e: Event, h: Handle) {
    && e.Initialize? && e.handle == h && h in s.looks && h !in s.privates && (s.looks[h].Some? || e.sharedMemory)
    && (h.file in s.maps && s.maps[h.file].embedded ==> e.privateMemory)
  }

  /** The handle or the reference that goes is the last that has the map open. */
  predicate ClosesLast(s: Maps, e: Event, c: Ref) {
    && Live(s, c) && s.maps[c.file].openCount == 1
    && (e == DereferenceCache(c.file) || (e.Release? && e.handle.file == c.file && e.handle in s.privates))
  }

  /** What a step without a fault does to the handles, the references, the threads on their way to delete a map and
      those that are deleting one. */
  ghost predicate Recorded(s: Maps, t: Maps, e: Event, h: Handle, c: Ref) {
    && (h in t.privates <==> (h in s.privates && e != Release(h)) || Opens(s, e, h))
    && (Opens(s, e, h) ==> (t.privates[h] <==> !(h.file in s.maps && s.maps[h.file].embedded)))
    && t.references[c.file] + One(e == DereferenceCache(c.file)) ==
         s.references[c.file] + One(e == ReferenceCache(c.file))
    && t.closers[c] + One(e == BeginDelete(c)) == s.closers[c] + One(ClosesLast(s, e, c))
    && t.deleters[c] + One(e == FinishDelete(c)) == s.deleters[c] + One(Begins(s, e, c))
    && (h in t.looks <==> e == Look(h) || (h in s.looks && !(e.Initialize? && e.handle == h)))
    && (e == Look(h) ==> t.looks[h] == if h.file in s.maps then Some(s.maps[h.file].serial) else None)
    && (h.file !in s.maps ==> (h.file in t.maps <==> e.Initialize? && e.handle.file == h.file && Opens(s, e, e.handle)))
  }

  lemma InitializeRecords(s: Maps, e: Event, h: Handle, c: Ref)
    requires Inv(s) && Enabled(s, e) && e.Initialize? && !Kills(s, e) && !Stale(s, e)
    ensures Recorded(s, Step(s, e), e, h, c)
  {
    var g := e.handle;
    assert MapOk(s, g.file);
    assert g in s.privates ==> g in HandlesOf(s.privates, g.file);
  }

  lemma ReleaseRecords(s: Maps, g: Handle, h: Handle, c: Ref)
    requires Inv(s)
    ensures Recorded(s, Step(s, Release(g)), Release(g), h, c)
  {
    assert MapOk(s, g.file);
    assert g in s.privates ==> g in HandlesOf(s.privates, g.file);
  }

  lemma DereferenceRecords(s: Maps, f: nat, h: Handle, c: Ref)
    requires Inv(s) && Enabled(s, DereferenceCache(f))
    ensures Recorded(s, Step(s, DereferenceCache(f)), DereferenceCache(f), h, c)
  {
    assert MapOk(s, f);
  }

  lemma BeginRecords(s: Maps, e: Event, h: Handle, c: Ref)
    requires Enabled(s, e) && !Stale(s, e) && (e.RemoveIfClosed? || e.BeginDelete?)
    ensures Recorded(s, Step(s, e), e, h, c)
  {
  }

  lemma FinishRecords(s: Maps, d: Ref, h: Handle, c: Ref)
    requires Enabled(s, FinishDelete(d)) && Live(s, d)
    ensures Recorded(s, Step(s, FinishDelete(d)), FinishDelete(d), h, c)
  {
  }

  lemma ReferenceRecords(s: Maps, f: nat, h: Handle, c: Ref)
    requires Enabled(s, ReferenceCache(f))
    ensures Recorded(s, Step(s, ReferenceCache(f)), ReferenceCache(f), h, c)
  {
  }

  lemma LookRecords(s: Maps, g: Handle, h: Handle, c: Ref)
    requires Enabled(s, Look(g))
    ensures Recorded(s, Step(s, Look(g)), Look(g), h, c)
  {
  }

  lemma StepRecords(s: Maps, e: Event, h: Handle, c: Ref)
    requires Inv(s) && Enabled(s, e) && !Kills(s, e) && !Stale(s, e)
    ensures Recorded(s, Step(s, e), e, h, c)
  {
    match e
    case Initialize(_, _, _) => InitializeRecords(s, e, h, c);
    case Release(g) => ReleaseRecords(s, g, h, c);
    case DereferenceCache(f) => DereferenceRecords(s, f, h, c);
    case RemoveIfClosed(_) => BeginRecords(s, e, h, c);
    case BeginDelete(_) => BeginRecords(s, e, h, c);
    case FinishDelete(d) => FinishRecords(s, d, h, c);
    case ReferenceCache(f) => ReferenceRecords(s, f, h, c);
    case Look(g) => LookRecords(s, g, h, c);
  }

  /** So it is in every run: a handle has a private map from the initialisation that succeeds to its release, every last
      close sends exactly one thread to delete the map, and a file gets a map only by an initialisation that
      succeeds. */
  lemma EveryRunRecords(es: seq<Event>, e: Event, h: Handle, c: Ref)
    requires Sound(es) && Enabled(After(es), e) && !Kills(After(es), e) && !Stale(After(es), e)
    ensures Recorded(After(es), After(es + [e]), e, h, c)
  {
    RunsKeep(es);
    assert (es + [e])[..|es|] == es;
    StepRecords(After(es), e, h, c);
  }

  // ----- runs with a fault

  const FIRST := Handle(0, 0)
  const SECOND := Handle(1, 0)
  const SHARED := Ref(0, 0)

  lemma Then(es: seq<Event>, s: Maps, e: Event, t: Maps)
    requires Sound(es) && After(es) == s && Enabled(s, e) && !Kills(s, e) && !Stale(s, e) && Step(s, e) == t
    ensures Sound(es + [e]) && After(es + [e]) == t
  {
    assert (es + [e])[..|es|] == es;
    forall n: nat
      ensures !FaultAt(es + [e], n)
    {
      assert !FaultAt(es, n);
      if n < |es| {
        assert (es + [e])[..n] == es[..n];
      }
    }
  }

  /** One file with the map SHARED of the given count and use. */
  function OneMap(openCount: nat, privates: map<Handle, bool>, closers: multiset<Ref>, deleters: multiset<Ref>,
                  looks: map<Handle, Option<nat>>): Maps {
    Maps(map[0 := Shared(0, openCount, privates != map[])], privates, multiset{}, closers, deleters, looks, 1)
  }

  function NoMap(closers: multiset<Ref>, looks: map<Handle, Option<nat>>): Maps {
    Maps(map[], map[], multiset{}, closers, multiset{}, looks, 1)
  }

  function Opened(): seq<Event> {
    [] + [Look(FIRST)] + [Initialize(FIRST, true, true)]
  }

  lemma OpenedOnce()
    ensures Sound(Opened()) && After(Opened()) == OneMap(1, map[FIRST := true], multiset{}, multiset{}, map[])
  {
    var s := Maps(map[], map[], multiset{}, multiset{}, multiset{}, map[FIRST := None], 0);
    assert s.looks - {FIRST} == map[];
    Then([], After([]), Look(FIRST), s);
    Then([] + [Look(FIRST)], s, Initialize(FIRST, true, true),
         OneMap(1, map[FIRST := true], multiset{}, multiset{}, map[]));
  }

  function Closed(): seq<Event> {
    Opened() + [Release(FIRST)]
  }

  lemma ClosedOnce()
    ensures Sound(Closed()) && LastClose(After(Opened()), Release(FIRST), SHARED)
    ensures After(Closed()) == OneMap(0, map[], multiset{SHARED}, multiset{}, map[])
  {
    OpenedOnce();
    assert map[FIRST := true] - {FIRST} == map[] && multiset{} + multiset{SHARED} == multiset{SHARED};
    Then(Opened(), After(Opened()), Release(FIRST), OneMap(0, map[], multiset{SHARED}, multiset{}, map[]));
  }

  lemma RemovedWhileClosed(es: seq<Event>)
    requires Sound(es) && After(es) == OneMap(0, map[], multiset{SHARED}, multiset{}, map[])
    ensures var es' := es + [RemoveIfClosed(0)] + [FinishDelete(SHARED)];
      Sound(es') && After(es') == NoMap(multiset{SHARED}, map[])
  {
    var s := OneMap(1, map[], multiset{SHARED}, multiset{SHARED}, map[]);
    assert multiset{} + multiset{SHARED} == multiset{SHARED} && multiset{SHARED} - multiset{SHARED} == multiset{};
    Then(es, After(es), RemoveIfClosed(0), s);
    assert s.maps - {0} == map[];
    Then(es + [RemoveIfClosed(0)], s, FinishDelete(SHARED), NoMap(multiset{SHARED}, map[]));
  }

  /** Between a last close and its deletion CcRosRemoveIfClosed deletes the map: the closer finds it gone. */
  lemma DeletedTwice()
    ensures var es := Closed() + [RemoveIfClosed(0)] + [FinishDelete(SHARED)];
      Sound(es) && Enabled(After(es), BeginDelete(SHARED)) && Stale(After(es), BeginDelete(SHARED))
  {
    ClosedOnce();
    RemovedWhileClosed(Closed());
    assert SHARED in multiset{SHARED};
  }

  lemma ReopenedAndClosed(es: seq<Event>)
    requires Sound(es) && After(es) == OneMap(0, map[], multiset{SHARED}, multiset{}, map[])
    ensures var es' := es + [Look(SECOND)] + [Initialize(SECOND, true, true)] + [Release(SECOND)];
      Sound(es') && After(es') == OneMap(0, map[], multiset{SHARED, SHARED}, multiset{}, map[])
  {
    var s := OneMap(0, map[], multiset{SHARED}, multiset{}, map[SECOND := Some(0)]);
    var t := OneMap(1, map[SECOND := true], multiset{SHARED}, multiset{}, map[]);
    Then(es, After(es), Look(SECOND), s);
    assert s.looks - {SECOND} == map[] && t.privates - {SECOND} == map[];
    Then(es + [Look(SECOND)], s, Initialize(SECOND, true, true), t);
    assert multiset{SHARED} + multiset{SHARED} == multiset{SHARED, SHARED};
    Then(es + [Look(SECOND)] + [Initialize(SECOND, true, true)], t, Release(SECOND),
         OneMap(0, map[], multiset{SHARED, SHARED}, multiset{}, map[]));
  }

  lemma DeletedByOne(es: seq<Event>, closers: multiset<Ref>, looks: map<Handle, Option<nat>>)
    requires Sound(es) && After(es) == OneMap(0, map[], closers + multiset{SHARED}, multiset{}, looks)
    ensures var es' := es + [BeginDelete(SHARED)] + [FinishDelete(SHARED)];
      Sound(es') && After(es') == NoMap(closers, looks)
  {
    var s := OneMap(1, map[], closers, multiset{SHARED}, looks);
    assert closers + multiset{SHARED} - multiset{SHARED} == closers;
    assert multiset{} + multiset{SHARED} == multiset{SHARED} && multiset{SHARED} - multiset{SHARED} == multiset{};
    Then(es, After(es), BeginDelete(SHARED), s);
    assert s.maps - {0} == map[];
    Then(es + [BeginDelete(SHARED)], s, FinishDelete(SHARED), NoMap(closers, looks));
  }

  function Reopened(): seq<Event> {
    Closed() + [Look(SECOND)] + [Initialize(SECOND, true, true)] + [Release(SECOND)]
  }

  /** A second handle opens and closes the file in between: there are two closers, and the later one finds the map
      gone. */
  lemma ClosedTwice()
    ensures var es := Reopened() + [BeginDelete(SHARED)] + [FinishDelete(SHARED)];
      Sound(es) && Enabled(After(es), BeginDelete(SHARED)) && Stale(After(es), BeginDelete(SHARED))
  {
    ClosedOnce();
    ReopenedAndClosed(Closed());
    assert multiset{SHARED} + multiset{SHARED} == multiset{SHARED, SHARED};
    DeletedByOne(Reopened(), multiset{SHARED}, map[]);
    assert SHARED in multiset{SHARED};
  }

  /** A handle looks at the map, which is then closed and deleted before the handle has the lock. */
  lemma LookedTooEarly()
    ensures var es := Opened() + [Look(SECOND)] + [Release(FIRST)] + [BeginDelete(SHARED)] + [FinishDelete(SHARED)];
      && Sound(es) && Enabled(After(es), Initialize(SECOND, true, true))
      && Stale(After(es), Initialize(SECOND, true, true))
  {
    OpenedOnce();
    var looks := map[SECOND := Some(0)];
    var s := OneMap(1, map[FIRST := true], multiset{}, multiset{}, looks);
    Then(Opened(), After(Opened()), Look(SECOND), s);
    assert s.privates - {FIRST} == map[] && multiset{} + multiset{SHARED} == multiset{SHARED};
    Then(Opened() + [Look(SECOND)], s, Release(FIRST), OneMap(0, map[], multiset{SHARED}, multiset{}, looks));
    DeletedByOne(Opened() + [Look(SECOND)] + [Release(FIRST)], multiset{}, looks);
  }

  /** Two handles open a file at the same time; the second finds the first one's map and no memory for its own private
      map. The first is left with a private map of a shared map that is gone. */
  lemma RaceLost()
    ensures var es := [] + [Look(FIRST)] + [Look(SECOND)] + [Initialize(FIRST, true, true)];
      var e := Initialize(SECOND, true, false);
      && Sound(es) && Enabled(After(es), e) && Kills(After(es), e)
      && FIRST in Step(After(es), e).privates && Step(After(es), e).maps == map[]
  {
    var looks: map<Handle, Option<nat>> := map[FIRST := None, SECOND := None];
    var a := Maps(map[], map[], multiset{}, multiset{}, multiset{}, map[FIRST := None], 0);
    var b := a.(looks := looks);
    var c := OneMap(1, map[FIRST := true], multiset{}, multiset{}, map[SECOND := None]);
    Then([], After([]), Look(FIRST), a);
    Then([] + [Look(FIRST)], a, Look(SECOND), b);
    assert looks - {FIRST} == map[SECOND := None];
    Then([] + [Look(FIRST)] + [Look(SECOND)], b, Initialize(FIRST, true, true), c);
    assert c.maps - {0} == map[];
  }
}
