/** What single steps of the cache manager's routines do to the cache, ntoskrnl/cc/view.c, ntoskrnl/cc/copy.c and
    ntoskrnl/cc/fs.c: the lemmas behind the methods of CacheManager. */
module CacheSteps {
  import opened Lists
  import opened Options
  import opened VacbLists
  import opened CacheState
  import opened CacheContent
  import opened CacheTransfer
  import opened CacheCopy
  import opened CacheRanges

  datatype Failure = InvalidParameter | InsufficientResources | ReadError | InvalidUserBuffer

  datatype GetResult = Got(vacb: Vacb) | Failed(reason: Failure)

  datatype CopyStatus = Copied | Raised(reason: Failure) | Unavailable

  /** What the rest of the system answers while one stripe is copied: the memory a new VACB gets, whether its mapping
      fits, and how a read from disk ends. */
  datatype Environment = Environment(memory: seq<Byte>, firstFits: bool, secondFits: bool, read: ReadOutcome)

  predicate EnvironmentOk(e: Environment) {
    |e.memory| == VACB_MAPPING_GRANULARITY && ReadOk(e.read)
  }

  /** Memory, mapping and disk allow the copy to go on. */
  predicate Kind(e: Environment) {
    e.firstFits && !e.read.ReadFailed?
  }

  /** What a stripe of a copy fails for: it lies outside the section, its mapping does not fit, or it has to be read and
      the read fails. */
  ghost predicate Because(reason: Failure, section: nat, position: nat, mustRead: bool, e: Environment) {
    match reason
    case InvalidParameter => RoundDown(position) >= section
    case InsufficientResources => RoundDown(position) < section && !e.firstFits
    case ReadError => RoundDown(position) < section && mustRead && e.read.ReadFailed?
    case InvalidUserBuffer => false
  }

  /** A stripe that is written as a whole need not be read. */
  predicate MustRead(op: Operation, position: nat, left: nat) {
    op == Read || position % VACB_MAPPING_GRANULARITY != 0 || left < VACB_MAPPING_GRANULARITY
  }

  /** The same for a whole copy, which also fails where the caller's buffer ends. */
  ghost predicate Explained(reason: Failure, section: nat, offset: nat, op: Operation, length: nat, accessible: nat,
                            copied: nat, e: Environment) {
    if reason == InvalidUserBuffer then op != Zero && copied == accessible < length
    else
      && copied <= length
      && Because(reason, section, offset + copied, MustRead(op, offset + copied, length - copied), e)
  }

  /** The last byte copied lies in a stripe of the section. */
  predicate WithinSection(section: nat, offset: nat, copied: nat) {
    copied > 0 ==> RoundDown(offset + copied - 1) < section
  }

  /** A position whose stripe is cached lies inside the section. */
  lemma CachedWithin(c: Cache, v: Vacb, start: nat)
    requires Inv(c, {}) && v in c.views && Covers(v, RoundDown(start))
    ensures v.file in c.files && RoundDown(start) < c.files[v.file].section
  {
    assert VacbOk(c, v, {});
    CoversBase(v, RoundDown(start));
  }

  /** Why no VACB could be had for a position. */
  lemma FailedBecause(reason: Failure, section: nat, start: nat, mustRead: bool, e: Environment)
    requires reason == (if RoundDown(start) >= section then InvalidParameter else InsufficientResources)
    requires RoundDown(start) < section ==> !e.firstFits
    ensures Because(reason, section, start, mustRead, e)
  {
  }

  lemma SameStripe(section: nat, start: nat, n: nat)
    requires RoundDown(start) < section && 0 < n <= VACB_MAPPING_GRANULARITY - start % VACB_MAPPING_GRANULARITY
    ensures RoundDown(start + n - 1) < section
  {
    assert RoundDown(start + n - 1) == RoundDown(start);
  }

  /** The bytes an operation has put into the file. */
  function Transferred(op: Operation, input: seq<Byte>, copied: nat): seq<Byte>
    requires copied <= |input|
  {
    match op
    case Read => []
    case Write => input[..copied]
    case Zero => Zeros(copied)
  }

  /** output is the file from offset on, as far as the section goes. */
  ghost predicate Shows(output: seq<Byte>, file: seq<Byte>, offset: nat) {
    forall i :: 0 <= i < |output| && offset + i < |file| ==> output[i] == file[offset + i]
  }

  /** The invariant, with coherence as long as nothing has gone astray. */
  ghost predicate Good(c: Cache, detached: set<Vacb>, astray: bool) {
    Inv(c, detached) && (astray || Coherent(c, detached))
  }

  /** Readers see no difference, as long as nothing has gone astray. */
  ghost predicate Unseen(c: Cache, c': Cache, astray: bool) {
    SameSections(c, c') && (astray || Flat(c') == Flat(c))
  }

  /** A mapping succeeds at once, or after a retry that follows only if some unused VACB could be freed. */
  ghost predicate Fits(views: map<Vacb, View>, firstFits: bool, secondFits: bool) {
    firstFits || (secondFits && exists v :: v in views && views[v].refs < 2)
  }

  /** The early exit of the lookup loop misses nothing. */
  lemma LookupMiss(list: seq<Vacb>, f: nat, i: nat, offset: nat)
    requires Sorted(list) && AllOf(list, f) && i <= |list|
    requires forall j :: 0 <= j < i ==> !Covers(list[j], offset)
    requires i < |list| ==> list[i].offset > offset
    ensures Find(list, RoundDown(offset)) == None
  {
    forall j | 0 <= j < |list|
      ensures list[j].offset != RoundDown(offset)
    {
      CoversBase(list[j], offset);
      assert i < j ==> Below(list, i, j);
    }
  }

  /** Behind a stripe that begins at or behind the end of the range, none meets the range. */
  lemma NoneBehind(list: seq<Vacb>, i: nat, offset: nat, length: nat)
    requires Sorted(list) && i < |list| && list[i].offset >= offset + length
    ensures forall j :: i <= j < |list| ==> !Meets(list[j], offset, length)
  {
    forall j | i <= j < |list|
      ensures !Meets(list[j], offset, length)
    {
      assert i < j ==> Below(list, i, j);
    }
  }

  lemma HoldContent(c: Cache, v: Vacb, detached: set<Vacb>, astray: bool)
    requires Good(c, detached, astray) && v in c.views && v !in detached
    ensures Good(Hold(c, v), detached, astray) && Flat(Hold(c, v)) == Flat(c)
  {
    HoldKeeps(c, v, detached);
    SameDataKeeps(c, Hold(c, v), detached);
    SameFlat(c, Hold(c, v));
  }

  ghost function SetOf(s: seq<Vacb>): set<Vacb> {
    set v | v in s
  }

  lemma NotBefore(s: seq<Vacb>, i: nat)
    requires Distinct(s) && i < |s|
    ensures s[i] !in SetOf(s[..i])
  {
    forall j | 0 <= j < i
      ensures s[..i][j] != s[i]
    {
      assert Apart(s, j, i);
    }
  }

  /** A list that holds v exactly once holds it at one position only. */
  lemma CountedOnce(s: seq<Vacb>, i: nat, j: nat)
    requires i < j < |s| && multiset(s)[s[j]] == 1
    ensures s[i] != s[j]
  {
    assert s == s[..j] + [s[j]] + s[j + 1..];
    assert s[..j][i] == s[i];
    assert s[i] in multiset(s[..j]);
  }

  lemma LruOnce(c: Cache, detached: set<Vacb>, i: nat, j: nat)
    requires Inv(c, detached) && i < j < |c.lru|
    ensures c.lru[i] != c.lru[j] && c.lru[j] in c.views && c.lru[j] !in detached
  {
    assert c.lru[j] in multiset(c.lru);
    assert VacbOk(c, c.lru[j], detached);
    CountedOnce(c.lru, i, j);
  }

  lemma LruListed(c: Cache, detached: set<Vacb>, v: Vacb)
    requires Inv(c, detached)
    ensures v in c.lru <==> v in c.views && v !in detached
  {
    assert VacbOk(c, v, detached);
    assert v in c.lru <==> v in multiset(c.lru);
  }

  lemma LruDiffers(c: Cache, detached: set<Vacb>, i: nat)
    requires Inv(c, detached) && i < |c.lru|
    ensures c.lru[i] in c.views && c.lru[i] !in detached
    ensures forall j :: i < j < |c.lru| ==> c.lru[j] != c.lru[i]
  {
    LruListed(c, detached, c.lru[i]);
    forall j | i < j < |c.lru|
      ensures c.lru[j] != c.lru[i]
    {
      LruOnce(c, detached, i, j);
    }
  }

  /** Everything but lists and views is the same. */
  ghost predicate SameBooks(c: Cache, c': Cache) {
    c'.dirty == c.dirty && c'.totalDirtyPages == c.totalDirtyPages && c'.disk == c.disk && c'.holders == c.holders
  }

  lemma DirtyListed(c: Cache, detached: set<Vacb>, v: Vacb)
    requires Inv(c, detached)
    ensures v in c.dirty <==> v in c.views && c.views[v].dirty
    ensures v in c.dirty ==> v.file in c.files && v !in detached && c.views[v].refs >= 2
  {
    assert VacbOk(c, v, detached);
    assert v in c.dirty <==> v in multiset(c.dirty);
  }

  ghost predicate SameFlags(c: Cache, c': Cache) {
    && c'.files.Keys == c.files.Keys
    && forall f :: f in c.files ==>
         c'.files[f].temporary == c.files[f].temporary
           && c'.files[f].writeBehindDisabled == c.files[f].writeBehindDisabled
  }

  ghost predicate SameRefs(views: map<Vacb, View>, views': map<Vacb, View>) {
    views'.Keys == views.Keys && forall v :: v in views ==> views'[v].refs == views[v].refs
  }

  /** Two references taken and given back leave no trace. */
  lemma HoldThenDrop(c: Cache, v: Vacb)
    requires v in c.views && c.views[v].refs > 0
    ensures Drop(Hold(c, v), v) == c
  {
    assert c.views[v := c.views[v]] == c.views;
    assert c.holders + multiset{v} - multiset{v} == c.holders;
  }

  /** A write-back between taking and giving back a reference. */
  lemma FlushHeld(c: Cache, v: Vacb, outcome: WriteOutcome)
    requires v in c.views && c.views[v].dirty && OutcomeOk(outcome)
    requires CanUnmark(Hold(c, v), v) && CanTransfer(Hold(c, v), v)
    requires c.views[v].refs >= 2
    ensures var c' := Drop(Flush(Hold(c, v), v, outcome), v);
      && c'.views.Keys == c.views.Keys && c'.holders == c.holders && SameFlags(c, c')
      && c'.totalDirtyPages + PAGES_PER_VACB * One(Cleans(outcome)) == c.totalDirtyPages
      && (!Cleans(outcome) ==> SameRefs(c.views, c'.views))
  {
    FlushBooks(Hold(c, v), v, outcome);
    assert c.holders + multiset{v} - multiset{v} == c.holders;
  }

  lemma FlushBooks(c: Cache, v: Vacb, outcome: WriteOutcome)
    requires CanUnmark(c, v) && CanTransfer(c, v) && OutcomeOk(outcome)
    ensures var c' := Flush(c, v, outcome);
      && c'.views.Keys == c.views.Keys && c'.holders == c.holders && SameFlags(c, c')
      && (forall w :: w in c.views && w != v ==> c'.views[w] == c.views[w])
      && c'.views[v].refs == c.views[v].refs - One(Cleans(outcome))
      && c'.totalDirtyPages == c.totalDirtyPages - PAGES_PER_VACB * One(Cleans(outcome))
  {
  }

  /** The whole turn on one stripe, as a change of state: it lays over the file what it should, unless a stripe that had
      to be read has not arrived. */
  lemma ChunkReleased(c: Cache, c': Cache, v: Vacb, op: Operation, start: nat, n: nat, bytes: seq<Byte>, r: ReadOutcome,
                      astray: bool)
    requires Good(c, {}, astray) && CanTransfer(c, v) && v in c.holders && c.views[v].refs > 1 && ReadOk(r)
    requires v.offset <= start && start + n <= v.offset + VACB_MAPPING_GRANULARITY && |bytes| <= n
    requires c' == Release(SetData(c, v, ChunkData(c, v, op, start, n, bytes, r)), v, true, op != Read, false)
    ensures var astray' := astray || Strays(c, v, op, n, r);
      && Good(c', {}, astray') && SameSections(c, c') && c'.views.Keys == c.views.Keys
      && c'.holders == c.holders - multiset{v}
      && (!astray' ==> Wrote(c, c', v.file, start, Laid(c, v, op, n, bytes)))
  {
    ReleaseStores(c, v, ChunkData(c, v, op, start, n, bytes, r), op != Read);
    if !astray && !Strays(c, v, op, n, r) {
      ChunkContent(c, c', v, op, start, n, bytes, r);
    }
  }

  /** The copy works on a stripe that was read up to an end of file and is not what the file holds. */
  ghost predicate Strays(c: Cache, v: Vacb, op: Operation, n: nat, r: ReadOutcome)
    requires CanTransfer(c, v) && ReadOk(r)
  {
    NeedsRead(c, v, op, n) && !Arrived(c, v, r)
  }

  /** The part of the stripe that a chunk works on, afterwards. */
  function ChunkPart(c: Cache, v: Vacb, op: Operation, start: nat, n: nat, bytes: seq<Byte>,
                     r: ReadOutcome): (part: seq<Byte>)
    requires CanTransfer(c, v) && ReadOk(r)
    requires v.offset <= start && start + n <= v.offset + VACB_MAPPING_GRANULARITY && |bytes| <= n
    ensures |part| == n
  {
    ChunkData(c, v, op, start, n, bytes, r)[start - v.offset..start - v.offset + n]
  }

  /** A turn on one stripe that has arrived, for the readers of the file. */
  lemma StripeTurned(c: Cache, c': Cache, v: Vacb, op: Operation, start: nat, n: nat, bytes: seq<Byte>, r: ReadOutcome,
                     data: seq<Byte>)
    requires Inv(c, {}) && CanTransfer(c, v) && ReadOk(r) && !Strays(c, v, op, n, r)
    requires v.offset <= start && start + n <= v.offset + VACB_MAPPING_GRANULARITY && |bytes| <= n
    requires Wrote(c, c', v.file, start, Laid(c, v, op, n, bytes))
    requires data == ChunkPart(c, v, op, start, n, bytes, r)
    ensures Turned(Flat(c), Flat(c'), v.file, start, op, bytes, Foreign(c.views[v], op, n, bytes))
    ensures op == Read ==> Shows(data, Flat(c)[v.file], start)
  {
    WroteFlat(c, c', v.file, start, Laid(c, v, op, n, bytes));
    if op == Read {
      ReadsStripe(c, v, op, n, start, r, data);
    }
  }

  lemma ReadsStripe(c: Cache, v: Vacb, op: Operation, n: nat, start: nat, r: ReadOutcome, data: seq<Byte>)
    requires Inv(c, {}) && CanTransfer(c, v) && op == Read && ReadOk(r) && !Strays(c, v, op, n, r)
    requires v.offset <= start && start + n <= v.offset + VACB_MAPPING_GRANULARITY
    requires data == ChunkBase(c, v, op, n, r)[start - v.offset..start - v.offset + n]
    ensures Shows(data, Flat(c)[v.file], start)
  {
    var base, file := ChunkBase(c, v, op, n, r), Flat(c)[v.file];
    forall k | 0 <= k < |base| && v.offset + k < |file|
      ensures base[k] == file[v.offset + k]
    {
      ChunkBaseReads(c, v, op, n, r, k);
      assert file[v.offset + k] == ByteAt(c, v.file, v.offset + k);
    }
    PartShows(base, file, v.offset, start - v.offset, n);
  }

  /** A part of what shows the file shows the file. */
  lemma PartShows(base: seq<Byte>, file: seq<Byte>, at: nat, skip: nat, n: nat)
    requires skip + n <= |base| && Shows(base, file, at)
    ensures Shows(base[skip..skip + n], file, at + skip)
  {
    var part := base[skip..skip + n];
    forall i | 0 <= i < |part| && at + skip + i < |file|
      ensures part[i] == file[at + skip + i]
    {
      assert base[skip + i] == file[at + (skip + i)];
    }
  }

  /** Reading changes nothing, so a longer read goes on where the shorter one stopped. */
  lemma ReadOn(flat: map<nat, seq<Byte>>, now: map<nat, seq<Byte>>, f: nat, offset: nat, output: seq<Byte>, start: nat,
               data: seq<Byte>, m: nat)
    requires f in flat && now == flat[f := Patch(flat[f], offset, [])]
    requires Shows(output, flat[f], offset) && start == offset + |output| && Shows(data, now[f], start) && m <= |data|
    ensures Shows(output + data[..m], flat[f], offset)
  {
    PatchNothing(flat[f], offset);
  }

  /** The bytes the caller's buffer yields for a stripe. */
  function Fetched(op: Operation, input: seq<Byte>, copied: nat, m: nat): (bytes: seq<Byte>)
    requires copied + m <= |input|
    ensures |bytes| <= m
    ensures op != Read ==> |bytes| == m
  {
    match op
    case Read => []
    case Write => input[copied..copied + m]
    case Zero => Zeros(m)
  }

  lemma Accumulate(flat: map<nat, seq<Byte>>, f: nat, offset: nat, op: Operation, input: seq<Byte>, copied: nat, m: nat,
                   foreign: seq<Byte>)
    requires f in flat && copied + m <= |input| && (op == Read ==> foreign == [])
    ensures var t := Transferred(op, input, copied);
      var now := flat[f := Patch(flat[f], offset, t)];
      flat[f := Patch(flat[f], offset, Transferred(op, input, copied + m) + foreign)]
      == now[f := Patch(now[f], offset + copied, if op == Read then [] else Fetched(op, input, copied, m) + foreign)]
  {
    var t := Transferred(op, input, copied);
    if op == Read {
      PatchNothing(flat[f], offset);
      PatchNothing(flat[f], offset + copied);
    } else {
      PatchTwice(flat[f], offset, t, Fetched(op, input, copied, m) + foreign);
      assert t + (Fetched(op, input, copied, m) + foreign) == Transferred(op, input, copied + m) + foreign;
    }
  }

  /** How far a copy has come: the file is patched with what was transferred, and perhaps with foreign bytes behind it,
      and a reader has seen the file. */
  ghost predicate CopiedSoFar(flat: map<nat, seq<Byte>>, now: map<nat, seq<Byte>>, f: nat, offset: nat, op: Operation,
                              input: seq<Byte>, copied: nat, output: seq<Byte>, foreign: seq<Byte>) {
    && f in flat && copied <= |input|
    && now == flat[f := Patch(flat[f], offset, Transferred(op, input, copied) + foreign)]
    && (op == Read ==> |output| == copied && Shows(output, flat[f], offset))
  }

  /** Where a copy stands: how far it came, what a reader has, what a torn write left behind, and why it stopped. */
  datatype Progress = Progress(copied: nat, output: seq<Byte>, foreign: seq<Byte>, failure: Option<Failure>)

  ghost predicate Underway(flat: map<nat, seq<Byte>>, now: map<nat, seq<Byte>>, astray: bool, f: nat, offset: nat,
                           op: Operation, input: seq<Byte>, accessible: nat, p: Progress) {
    && p.copied <= |input| && (op == Read ==> |p.output| == p.copied)
    && (!astray ==> CopiedSoFar(flat, now, f, offset, op, input, p.copied, p.output, p.foreign))
    && (p.foreign != [] ==> op == Write && accessible < |input| && p.failure == Some(InvalidUserBuffer))
    && (p.failure.None? ==> op == Zero || accessible >= p.copied)
  }

  /** After a turn that was to copy n bytes and could touch m of the caller's. */
  function Next(p: Progress, n: nat, m: nat, failure: Option<Failure>, output: seq<Byte>,
                foreign: seq<Byte>): Progress {
    if failure.Some? then Progress(p.copied, output, foreign, failure)
    else Progress(p.copied + m, output, foreign, if m < n then Some(InvalidUserBuffer) else None)
  }

  /** Why a copy stopped at p, or that it may go on. */
  ghost predicate Justified(section: nat, offset: nat, op: Operation, length: nat, accessible: nat, p: Progress,
                            e: Environment) {
    if p.failure.Some? then Explained(p.failure.value, section, offset, op, length, accessible, p.copied, e)
    else WithinSection(section, offset, p.copied)
  }

  /** Neither the caller's buffer nor the section ends before the copy. */
  predicate Reachable(section: nat, offset: nat, op: Operation, input: seq<Byte>, accessible: nat) {
    (op == Zero || accessible >= |input|) && offset + |input| <= section
  }

  /** What one turn of a copy has done that was to copy n bytes, of which the caller's buffer yields m. */
  ghost predicate TurnDone(flat: map<nat, seq<Byte>>, now: map<nat, seq<Byte>>, astray: bool, f: nat, offset: nat,
                           op: Operation, input: seq<Byte>, copied: nat, n: nat, m: nat, section: nat, e: Environment,
                           failure: Option<Failure>, output: seq<Byte>, foreign: seq<Byte>) {
    var so := if failure.None? then copied + m else copied;
    && (op == Read ==> |output| == so)
    && (!astray ==> CopiedSoFar(flat, now, f, offset, op, input, so, output, foreign))
    && (failure.Some? ==> foreign == []) && (foreign != [] ==> op != Read && m < n)
    && (Kind(e) && offset + copied < section ==> failure.None?)
    && if failure.None? then RoundDown(offset + copied) < section
       else Because(failure.value, section, offset + copied, op == Read || n < VACB_MAPPING_GRANULARITY, e)
  }

  /** Where the copy stands after it. */
  ghost predicate Advanced(flat: map<nat, seq<Byte>>, now: map<nat, seq<Byte>>, astray: bool, f: nat, offset: nat,
                           op: Operation, input: seq<Byte>, accessible: nat, section: nat, e: Environment, p: Progress,
                           p': Progress) {
    && Underway(flat, now, astray, f, offset, op, input, accessible, p')
    && p'.copied >= p.copied && (p'.failure.None? ==> p'.copied > p.copied)
    && (Kind(e) && Reachable(section, offset, op, input, accessible) ==> p'.failure.None?)
    && Justified(section, offset, op, |input|, accessible, p', e)
  }

  lemma TurnAdvances(flat: map<nat, seq<Byte>>, now: map<nat, seq<Byte>>, astray: bool, f: nat, offset: nat,
                     op: Operation, input: seq<Byte>, accessible: nat, section: nat, e: Environment, p: Progress,
                     n: nat, m: nat, failure: Option<Failure>, output: seq<Byte>, foreign: seq<Byte>)
    requires p.copied + n <= |input| && p.failure.None? && (op == Zero || accessible >= p.copied)
    requires 0 < n <= VACB_MAPPING_GRANULARITY - (offset + p.copied) % VACB_MAPPING_GRANULARITY
    requires m == if op == Zero || accessible >= p.copied + n then n else accessible - p.copied
    requires op == Read || n < VACB_MAPPING_GRANULARITY ==> MustRead(op, offset + p.copied, |input| - p.copied)
    requires TurnDone(flat, now, astray, f, offset, op, input, p.copied, n, m, section, e, failure, output, foreign)
    ensures Advanced(flat, now, astray, f, offset, op, input, accessible, section, e, p,
                     Next(p, n, m, failure, output, foreign))
  {
    if failure.None? {
      SameStripe(section, offset + p.copied, n);
    }
  }

  lemma CopyBegins(flat: map<nat, seq<Byte>>, f: nat, offset: nat, op: Operation, input: seq<Byte>)
    requires f in flat
    ensures CopiedSoFar(flat, flat, f, offset, op, input, 0, [], [])
  {
    PatchNothing(flat[f], offset);
    assert Transferred(op, input, 0) + [] == [];
    assert flat[f := flat[f]] == flat;
  }

  lemma CopyGoesOn(flat: map<nat, seq<Byte>>, now: map<nat, seq<Byte>>, now': map<nat, seq<Byte>>, f: nat, offset: nat,
                   op: Operation, input: seq<Byte>, copied: nat, output: seq<Byte>, m: nat, data: seq<Byte>,
                   foreign: seq<Byte>)
    requires CopiedSoFar(flat, now, f, offset, op, input, copied, output, []) && copied + m <= |input|
    requires op == Read ==> foreign == []
    requires now' ==
      now[f := Patch(now[f], offset + copied, if op == Read then [] else Fetched(op, input, copied, m) + foreign)]
    requires op == Read ==> m <= |data| && Shows(data, now[f], offset + copied)
    ensures var output' := if op == Read then output + data[..m] else output;
      CopiedSoFar(flat, now', f, offset, op, input, copied + m, output', foreign)
  {
    assert Transferred(op, input, copied) + [] == Transferred(op, input, copied);
    Accumulate(flat, f, offset, op, input, copied, m, foreign);
    if op == Read {
      assert Transferred(op, input, copied) == [];
      ReadOn(flat, now, f, offset, output, offset + copied, data, m);
    }
  }

  /** How much of a copy with so many bytes to go fits into the stripe of position start. */
  function ChunkLength(start: nat, left: nat): nat {
    var room := VACB_MAPPING_GRANULARITY - start % VACB_MAPPING_GRANULARITY;
    if left < room then left else room
  }

  lemma StripeHolds(v: Vacb, start: nat, n: nat)
    requires v.offset % VACB_MAPPING_GRANULARITY == 0 && Covers(v, RoundDown(start))
    requires n <= VACB_MAPPING_GRANULARITY - start % VACB_MAPPING_GRANULARITY
    ensures v.offset <= start && start + n <= v.offset + VACB_MAPPING_GRANULARITY
  {
    CoversBase(v, RoundDown(start));
  }

  /** A turn on one stripe lays its bytes over the file, and the foreign ones behind them. */
  ghost predicate Turned(flat: map<nat, seq<Byte>>, flat': map<nat, seq<Byte>>, f: nat, start: nat, op: Operation,
                         bytes: seq<Byte>, foreign: seq<Byte>) {
    f in flat && flat' == flat[f := Patch(flat[f], start, if op == Read then [] else bytes + foreign)]
  }

  /** Only a write that the caller's buffer cut short leaves foreign bytes. */
  predicate ForeignOk(op: Operation, failure: Option<Failure>, n: nat, bytes: seq<Byte>, foreign: seq<Byte>) {
    foreign != [] ==> failure.None? && op != Read && |bytes| < n
  }

  ghost predicate SameLists(c: Cache, c': Cache) {
    SameSections(c, c') && forall f :: f in c.files ==> c'.files[f].list == c.files[f].list
  }

  /** The same VACBs on the same lists, with the same dirty marks. */
  ghost predicate SameDirty(c: Cache, c': Cache) {
    SameLists(c, c') && c'.views.Keys == c.views.Keys && forall v :: v in c.views ==>
      c'.views[v].dirty == c.views[v].dirty
  }

  lemma ReleaseIsDrop(c: Cache, v: Vacb)
    requires v in c.views && v.file in c.files && c.views[v].refs > 1
    ensures Release(c, v, c.views[v].valid, false, false) == Drop(c, v)
  {
    assert c.views[v := c.views[v]] == c.views;
  }

  /** The turn of a flush in which it looks at the stripe. */
  function TurnOf(v: Vacb, offset: nat): nat {
    if v.offset < RoundDown(offset) then 0 else (v.offset - RoundDown(offset)) / VACB_MAPPING_GRANULARITY
  }

  /** The write of the stripe, at its turn among the first k of a flush of file f, passes for success. */
  predicate WrittenIn(f: nat, offset: nat, k: nat, outcomes: nat -> WriteOutcome, v: Vacb) {
    v.file == f && VisitedIn(v, offset, k) && Cleans(outcomes(TurnOf(v, offset)))
  }

  /** After k turns of a flush, a stripe is clean if it was or if its own write passed for success. */
  ghost predicate CleanedTo(was: map<Vacb, View>, now: map<Vacb, View>, f: nat, offset: nat, k: nat,
                            outcomes: nat -> WriteOutcome, v: Vacb) {
    v in was && v in now && now[v].dirty == (was[v].dirty && !WrittenIn(f, offset, k, outcomes, v))
  }

  ghost predicate CleanedAll(was: map<Vacb, View>, now: map<Vacb, View>, f: nat, offset: nat, k: nat,
                             outcomes: nat -> WriteOutcome) {
    forall v :: v in now ==> CleanedTo(was, now, f, offset, k, outcomes, v)
  }

  /** One turn has found the VACB r, if any, and its write ended with the outcome. */
  ghost predicate CleanedAt(before: map<Vacb, View>, after: map<Vacb, View>, r: Option<Vacb>, outcome: WriteOutcome) {
    forall v :: v in after ==> v in before && after[v].dirty == (before[v].dirty && !(Cleans(outcome) && r == Some(v)))
  }

  /** Every dirty stripe that the first k turns of a flush look at is written. */
  ghost predicate AllWritten(was: map<Vacb, View>, f: nat, offset: nat, k: nat, outcomes: nat -> WriteOutcome) {
    forall v :: v in was && was[v].dirty && v.file == f && VisitedIn(v, offset, k) ==>
      WrittenIn(f, offset, k, outcomes, v)
  }

  /** What k turns of a flush have made of the cache: nothing for readers, unless something has gone astray. */
  ghost predicate FlushedSoFar(c: Cache, c': Cache, was: bool, astray: bool, f: nat, offset: nat, k: nat,
                               outcomes: nat -> WriteOutcome, ok: bool) {
    && Unseen(c, c', astray) && c'.holders == c.holders && c'.views.Keys == c.views.Keys && SameLists(c, c')
    && (was ==> astray) && ((forall k :: !outcomes(k).WriteEnd?) ==> astray == was)
    && CleanedAll(c.views, c'.views, f, offset, k, outcomes) && (ok <==> AllWritten(c.views, f, offset, k, outcomes))
  }

  /** What one turn of a flush makes of the cache. */
  ghost predicate StripeFlushed(c: Cache, c': Cache, was: bool, astray: bool, f: nat, position: nat,
                                outcome: WriteOutcome)
    requires f in c.files
  {
    && Unseen(c, c', astray) && c'.holders == c.holders && c'.views.Keys == c.views.Keys && SameLists(c, c')
    && (was ==> astray) && (!outcome.WriteEnd? ==> astray == was)
    && CleanedAt(c.views, c'.views, Find(c.files[f].list, RoundDown(position)), outcome)
  }

  /** The stripe was found and held, written back if dirty, and released. */
  lemma FoundFlushed(c: Cache, held: Cache, c': Cache, was: bool, astray: bool, f: nat, position: nat, v: Vacb,
                     outcome: WriteOutcome)
    requires f in c.files && Find(c.files[f].list, RoundDown(position)) == Some(v) && v in c.views
    requires SameDirty(c, held) && Flat(held) == Flat(c) && held.holders == c.holders + multiset{v}
    requires Unseen(held, c', astray) && c'.holders == held.holders - multiset{v} && c'.views.Keys == held.views.Keys
    requires SameLists(held, c') && (was ==> astray) && (!outcome.WriteEnd? ==> astray == was)
    requires forall w :: w in c'.views ==>
      c'.views[w].dirty == (held.views[w].dirty && !(Cleans(outcome) && w == v))
    ensures StripeFlushed(c, c', was, astray, f, position, outcome)
  {
    assert c.holders + multiset{v} - multiset{v} == c.holders;
  }

  /** There is a dirty stripe to write at the position. */
  ghost predicate DirtyAt(c: Cache, f: nat, position: nat)
    requires f in c.files
  {
    var r := Find(c.files[f].list, RoundDown(position));
    r.Some? && r.value in c.views && c.views[r.value].dirty
  }

  lemma FoundAt(c: Cache, f: nat, position: nat, v: Vacb)
    requires Inv(c, {}) && f in c.files && v in c.views
    ensures v.offset % VACB_MAPPING_GRANULARITY == 0
    ensures Find(c.files[f].list, RoundDown(position)) == Some(v) <==> v.file == f && v.offset == RoundDown(position)
  {
    assert VacbOk(c, v, {}) && FileOk(c, f);
    if v.file == f && v.offset == RoundDown(position) {
      FindListed(c.files[f].list, v);
    }
  }

  lemma StripeStep(v: Vacb, offset: nat, k: nat)
    requires v.offset % VACB_MAPPING_GRANULARITY == 0
    ensures VisitedIn(v, offset, k + 1) <==>
      VisitedIn(v, offset, k) || v.offset == RoundDown(offset + k * VACB_MAPPING_GRANULARITY)
    ensures VisitedIn(v, offset, k) ==> v.offset != RoundDown(offset + k * VACB_MAPPING_GRANULARITY)
    ensures v.offset == RoundDown(offset + k * VACB_MAPPING_GRANULARITY) ==> TurnOf(v, offset) == k
  {
  }

  /** What is left of a flush after k turns. */
  function Rest(length: nat, k: nat): nat {
    if length > k * VACB_MAPPING_GRANULARITY then length - k * VACB_MAPPING_GRANULARITY else 0
  }

  lemma RestStep(length: nat, k: nat)
    requires Rest(length, k) > 0
    ensures Rest(length, k + 1) ==
      if Rest(length, k) < VACB_MAPPING_GRANULARITY then 0 else Rest(length, k) - VACB_MAPPING_GRANULARITY
    ensures Rest(length, k + 1) == 0 ==> k + 1 == Turns(length)
  {
  }

  /** One more turn of a flush. */
  lemma CleanedOneMore(c: Cache, before: map<Vacb, View>, after: map<Vacb, View>, f: nat, offset: nat, k: nat,
                       outcomes: nat -> WriteOutcome)
    requires Inv(c, {}) && f in c.files && before.Keys == c.views.Keys == after.Keys
    requires CleanedAll(c.views, before, f, offset, k, outcomes)
    requires var r := Find(c.files[f].list, RoundDown(offset + k * VACB_MAPPING_GRANULARITY));
      CleanedAt(before, after, r, outcomes(k))
    ensures CleanedAll(c.views, after, f, offset, k + 1, outcomes)
  {
    forall v | v in after
      ensures CleanedTo(c.views, after, f, offset, k + 1, outcomes, v)
    {
      assert CleanedTo(c.views, before, f, offset, k, outcomes, v);
      FoundAt(c, f, offset + k * VACB_MAPPING_GRANULARITY, v);
      StripeStep(v, offset, k);
    }
  }

  lemma WrittenOneMore(c: Cache, c': Cache, f: nat, offset: nat, k: nat, outcomes: nat -> WriteOutcome)
    requires Inv(c, {}) && f in c.files && SameLists(c, c') && c'.views.Keys == c.views.Keys
    requires CleanedAll(c.views, c'.views, f, offset, k, outcomes)
    ensures AllWritten(c.views, f, offset, k + 1, outcomes) <==>
      && AllWritten(c.views, f, offset, k, outcomes)
      && (DirtyAt(c', f, offset + k * VACB_MAPPING_GRANULARITY) ==> Cleans(outcomes(k)))
  {
    var position := offset + k * VACB_MAPPING_GRANULARITY;
    forall v | v in c.views
      ensures Find(c.files[f].list, RoundDown(position)) == Some(v) <==> v.file == f && v.offset == RoundDown(position)
      ensures v.file == f ==>
        (VisitedIn(v, offset, k + 1) <==> VisitedIn(v, offset, k) || v.offset == RoundDown(position))
      ensures v.file == f && v.offset == RoundDown(position) ==>
        TurnOf(v, offset) == k && !VisitedIn(v, offset, k) && c'.views[v].dirty == c.views[v].dirty
    {
      FoundAt(c, f, position, v);
      StripeStep(v, offset, k);
      assert CleanedTo(c.views, c'.views, f, offset, k, outcomes, v);
    }
  }

  lemma FlushBegins(c: Cache, astray: bool, f: nat, offset: nat, outcomes: nat -> WriteOutcome)
    ensures FlushedSoFar(c, c, astray, astray, f, offset, 0, outcomes, true)
  {
  }

  lemma FlushedOneMore(c: Cache, before: Cache, after: Cache, was: bool, astray: bool, astray': bool, f: nat,
                       offset: nat, k: nat, outcomes: nat -> WriteOutcome, ok: bool)
    requires Inv(c, {}) && f in before.files && FlushedSoFar(c, before, was, astray, f, offset, k, outcomes, ok)
    requires StripeFlushed(before, after, astray, astray', f, offset + k * VACB_MAPPING_GRANULARITY, outcomes(k))
    ensures f in after.files
    ensures var done := Cleans(outcomes(k)) || !DirtyAt(before, f, offset + k * VACB_MAPPING_GRANULARITY);
      FlushedSoFar(c, after, was, astray', f, offset, k + 1, outcomes, ok && done)
  {
    CleanedOneMore(c, before.views, after.views, f, offset, k, outcomes);
    WrittenOneMore(c, before, f, offset, k, outcomes);
  }

  function PurgeEnd(start: nat, length: nat): Option<nat> {
    if length == 0 then None else Some(start + length)
  }

  /** More references than the VACB's own and that of a dirty mark: it cannot be purged. */
  predicate InUse(view: View) {
    (view.refs > 1 && !view.dirty) || (view.refs > 2 && view.dirty)
  }

  lemma AllListed(c: Cache, f: nat)
    requires Inv(c, {}) && f in c.files
    ensures forall v :: v in c.files[f].list ==> v in c.views && v.file == f
    ensures forall v :: v in c.views && v.file == f ==> v in c.files[f].list
    ensures Sorted(c.files[f].list) && AllOf(c.files[f].list, f)
  {
    assert FileOk(c, f);
    forall v | v in c.files[f].list
      ensures v in c.views && v.file == f
    {
      assert VacbOk(c, v, {});
    }
    forall v | v in c.views && v.file == f
      ensures v in c.files[f].list
    {
      assert VacbOk(c, v, {});
    }
  }

  /** A purge of file f that has taken the VACBs in gone off the lists. */
  ghost predicate Purged(c: Cache, c': Cache, f: nat, gone: seq<Vacb>, astray: bool) {
    && Good(c', SetOf(gone), astray) && Distinct(gone)
    && AllDroppedToDisk(c, c', SetOf(gone))
    && c'.views.Keys == c.views.Keys
    && (forall v :: v in c.views && v !in gone ==> c'.views[v] == c.views[v])
    && (forall v :: v in gone ==> v in c.views && v.file == f)
  }

  /** The holders of the VACBs in gone are forgotten, and each VACB they held is left behind with their references. */
  ghost predicate LeftBehind(holders: multiset<Vacb>, holders': multiset<Vacb>, leaked: map<Vacb, nat>,
                             leaked': map<Vacb, nat>, gone: seq<Vacb>) {
    && (forall v :: holders'[v] == if v in gone then 0 else holders[v])
    && (forall v :: v in leaked' <==> v in leaked || (v in gone && v in holders))
    && (forall v :: v in leaked' ==> leaked'[v] == if v in gone && v in holders then holders[v] else leaked[v])
  }

  lemma LeftOneMore(h: multiset<Vacb>, h1: multiset<Vacb>, h2: multiset<Vacb>, lost: map<Vacb, nat>,
                    lost1: map<Vacb, nat>, lost2: map<Vacb, nat>, v: Vacb, gone: seq<Vacb>)
    requires LeftBehind(h, h1, lost, lost1, gone) && v !in gone
    requires h2 == h1[v := 0] && lost2 == if v in h1 then lost1[v := h1[v]] else lost1
    ensures LeftBehind(h, h2, lost, lost2, [v] + gone)
  {
    assert h1[v] == h[v];
  }

  /** After a purge of a whole file the VACBs of the other files are left. */
  lemma OthersStay(c: Cache, purged: Cache, c': Cache, f: nat, gone: seq<Vacb>, astray: bool)
    requires Purged(c, purged, f, gone, astray) && forall v :: v in purged.views ==> (v in gone <==> v.file == f)
    requires c'.views == purged.views - SetOf(gone) && c'.files == purged.files && c'.disk == purged.disk
    ensures c'.files.Keys == c.files.Keys && c'.disk == c.disk
    ensures forall v :: v in c'.views <==> v in c.views && v.file != f
  {
    forall v
      ensures v in c'.views <==> v in c.views && v.file != f
    {
      assert v in c'.views <==> v in purged.views && v !in gone;
    }
  }

  /** The same for all VACBs of file f. */
  ghost predicate FileLeft(holders: multiset<Vacb>, holders': multiset<Vacb>, leaked: map<Vacb, nat>,
                           leaked': map<Vacb, nat>, f: nat) {
    && (forall v :: holders'[v] == if v.file == f then 0 else holders[v])
    && (forall v :: v in leaked' <==> v in leaked || (v.file == f && v in holders))
    && (forall v :: v in leaked' ==> leaked'[v] == if v.file == f && v in holders then holders[v] else leaked[v])
  }

  /** Whoever holds a VACB of the file holds one that is gone. */
  lemma HeldListed(c: Cache, holders': multiset<Vacb>, leaked: map<Vacb, nat>, leaked': map<Vacb, nat>, f: nat,
                   gone: seq<Vacb>)
    requires Inv(c, {}) && forall v :: v in c.views ==> (v in gone <==> v.file == f)
    requires forall v :: v in gone ==> v in c.views
    requires LeftBehind(c.holders, holders', leaked, leaked', gone)
    ensures FileLeft(c.holders, holders', leaked, leaked', f)
  {
    forall v
      ensures v in c.holders ==> (v in gone <==> v.file == f)
    {
      assert VacbOk(c, v, {});
    }
    forall v
      ensures holders'[v] == if v.file == f then 0 else c.holders[v]
    {
      assert v in c.holders <==> c.holders[v] > 0;
      assert v in gone ==> v.file == f;
    }
  }

  lemma OneMoreGone(v: Vacb, gone: seq<Vacb>)
    requires Distinct(gone) && v !in gone
    ensures SetOf([v] + gone) == SetOf(gone) + {v} && Distinct([v] + gone)
  {
    DistinctConcat([v], gone);
  }

  /** One more VACB off the lists, after its holders were forgotten. */
  lemma PurgedOneMore(c: Cache, c1: Cache, c2: Cache, c3: Cache, f: nat, gone: seq<Vacb>, v: Vacb, astray: bool)
    requires Purged(c, c1, f, gone, astray) && v in c.views && v.file == f && v !in gone
    requires Good(c2, SetOf(gone), astray) && SameData(c1, c2)
    requires forall w :: w in c1.views && w != v ==> c2.views[w] == c1.views[w]
    requires Inv(c3, SetOf(gone) + {v}) && DroppedAs(c2, c3, v)
    ensures Purged(c, c3, f, [v] + gone, astray)
  {
    SameDataKeeps(c1, c2, {});
    SameFlat(c1, c2);
    DroppedFlat(c, c1, c2, SetOf(gone));
    DropOneMore(c, c2, c3, SetOf(gone), v);
    OneMoreGone(v, gone);
  }

  lemma NothingDropped(c: Cache)
    ensures AllDroppedToDisk(c, c, {})
  {
    forall f, i | f in c.files && 0 <= i < c.files[f].section
      ensures DroppedToDisk(c, c, {}, f, i)
    {
    }
  }

  /** A view the purge of a range is about; a length of zero stands for the rest of the file. The view must end before
      the range does. */
  predicate InRange(section: nat, v: Vacb, start: nat, length: nat) {
    && start <= v.offset
    && (length > 0 ==> v.offset + VACB_MAPPING_GRANULARITY < start + length || section < start + length)
  }

  /** The purge stops at v, which is in use, after all views of the range in front of it. */
  ghost predicate StopsAt(views: map<Vacb, View>, f: nat, section: nat, start: nat, length: nat, v: Vacb,
                          gone: seq<Vacb>) {
    && v in views && v.file == f && views[v].refs > 1 + One(views[v].dirty) && InRange(section, v, start, length)
    && forall w :: w in views ==> (w in gone <==> w.file == f && start <= w.offset < v.offset)
  }

  ghost predicate StoppedAt(was: map<Vacb, View>, views: map<Vacb, View>, f: nat, section: nat, start: nat, length: nat,
                            v: Vacb) {
    && v in views && v.file == f && views[v].refs > 1 + One(views[v].dirty) && InRange(section, v, start, length)
    && forall w :: w in was ==> (w !in views <==> w.file == f && start <= w.offset < v.offset)
  }

  lemma PurgeStopped(views: map<Vacb, View>, list: seq<Vacb>, f: nat, section: nat, start: nat, length: nat, i: nat,
                     gone: seq<Vacb>)
    requires Sorted(list) && AllOf(list, f) && i < |list| && list[i] in views && InUse(views[list[i]])
    requires Purgeable(section, list[i], start, PurgeEnd(start, length))
    requires forall w :: w in views ==> (w in list <==> w.file == f)
    requires forall j :: 0 <= j < i ==>
      (list[j] in gone <==> Purgeable(section, list[j], start, PurgeEnd(start, length)))
    requires forall j :: i <= j < |list| ==> list[j] !in gone
    requires forall w :: w in gone ==> w.file == f
    ensures StopsAt(views, f, section, start, length, list[i], gone)
  {
    assert list[i] in list;
    forall w | w in views
      ensures w in gone <==> w.file == f && start <= w.offset < list[i].offset
    {
      if w.file == f {
        var j :| 0 <= j < |list| && list[j] == w;
        assert i < j ==> Below(list, i, j);
        assert j < i ==> Below(list, j, i);
      }
    }
  }

  lemma NotLater(c: Cache, f: nat, i: nat)
    requires Inv(c, {}) && f in c.files && i < |c.files[f].list|
    ensures forall j :: i < j < |c.files[f].list| ==> c.files[f].list[j] != c.files[f].list[i]
  {
    assert FileOk(c, f);
    forall j | i < j < |c.files[f].list|
      ensures c.files[f].list[j] != c.files[f].list[i]
    {
      assert Below(c.files[f].list, i, j);
    }
  }

  /** Because the list is sorted, nothing behind the entry where a purge stops could have been purged. */
  lemma PurgeReached(list: seq<Vacb>, f: nat, section: nat, start: nat, end: Option<nat>, i: nat, gone: seq<Vacb>,
                     v: Vacb)
    requires Sorted(list) && AllOf(list, f) && i <= |list| && (v in list <==> v.file == f)
    requires forall j :: 0 <= j < i ==> (list[j] in gone <==> Purgeable(section, list[j], start, end))
    requires forall j :: i <= j < |list| ==> list[j] !in gone
    requires forall w :: w in gone ==> w.file == f
    requires i < |list| ==> list[i].offset >= start && !Purgeable(section, list[i], start, end)
    ensures v in gone <==> v.file == f && Purgeable(section, v, start, end)
  {
    if v in list {
      var j :| 0 <= j < |list| && list[j] == v;
      assert i < j ==> Below(list, i, j);
    }
  }

  function LessMapped(c: Cache, v: Vacb): Cache
    requires v in c.views && c.views[v].mapped > 0 && c.views[v].refs > 0
  {
    var view := c.views[v];
    SetView(c, v, view.(mapped := view.mapped - 1, refs := view.refs - One(view.mapped == 1)))
  }

  lemma LessMappedKeeps(c: Cache, v: Vacb, astray: bool)
    requires Good(c, {}, astray) && v in c.holders && v in c.views && c.views[v].mapped > 0
    ensures c.views[v].refs > 2 && v.file in c.files && Good(LessMapped(c, v), {}, astray)
    ensures SameSections(c, LessMapped(c, v)) && Flat(LessMapped(c, v)) == Flat(c)
  {
    assert VacbOk(c, v, {});
    var view := c.views[v];
    ViewKeeps(c, v, view.(mapped := view.mapped - 1, refs := view.refs - One(view.mapped == 1)), c.holders, {});
    SameDataKeeps(c, LessMapped(c, v), {});
    SameFlat(c, LessMapped(c, v));
  }

  /** Releasing a VACB as valid as it is, perhaps with a dirty mark. A dirty mark on a stripe that is not valid breaks
      the rule that dirty data is valid. */
  lemma MarkedRelease(c: Cache, v: Vacb, dirty: bool, astray: bool)
    requires Good(c, {}, astray) && v in c.holders
    ensures v in c.views && v.file in c.files && c.views[v].refs > 1
    ensures var c' := Release(c, v, c.views[v].valid, dirty, false);
      && Good(c', {}, astray || (dirty && !c.views[v].valid)) && SameSections(c, c') && Flat(c') == Flat(c)
  {
    DropKeeps(c, v, {});
    assert VacbOk(c, v, {});
    ReleaseKeeps(c, v, c.views[v].valid, dirty, false);
    ReleaseFrame(c, v, dirty);
    MarkedGood(c, Release(c, v, c.views[v].valid, dirty, false), v, dirty, astray);
  }

  /** Giving a mapping back and releasing the VACB, as CcRosUnmapVacb does. */
  lemma UnmapReleases(c: Cache, v: Vacb, dirty: bool, astray: bool)
    requires Good(c, {}, astray) && v in c.holders && v in c.views && c.views[v].mapped > 0
    ensures c.views[v].refs > 2 && v.file in c.files && Inv(LessMapped(c, v), {})
    ensures var c' := Release(LessMapped(c, v), v, c.views[v].valid, dirty, false);
      && Good(c', {}, astray || (dirty && !c.views[v].valid)) && SameSections(c, c') && Flat(c') == Flat(c)
      && c'.views.Keys == c.views.Keys && c'.holders == c.holders - multiset{v}
      && c'.views[v].mapped == c.views[v].mapped - 1 && c'.views[v].dirty == (c.views[v].dirty || dirty)
  {
    LessMappedKeeps(c, v, astray);
    MarkedRelease(LessMapped(c, v), v, dirty, astray);
  }

  /** c' is c with perhaps a dirty mark on v. */
  ghost predicate MarkedAs(c: Cache, c': Cache, v: Vacb, dirty: bool) {
    && c'.disk == c.disk && c'.views.Keys == c.views.Keys && SameSections(c, c') && v in c.views
    && (forall f :: f in c.files ==> c'.files[f].list == c.files[f].list)
    && (forall w :: w in c.views && w != v ==> c'.views[w] == c.views[w])
    && c'.views[v].data == c.views[v].data && c'.views[v].valid == c.views[v].valid
    && c'.views[v].dirty == (dirty || c.views[v].dirty)
  }

  lemma ReleaseFrame(c: Cache, v: Vacb, dirty: bool)
    requires v in c.views && v.file in c.files && c.views[v].refs > 1
    ensures MarkedAs(c, Release(c, v, c.views[v].valid, dirty, false), v, dirty)
  {
  }

  lemma MarkedGood(c: Cache, c': Cache, v: Vacb, dirty: bool, astray: bool)
    requires Good(c, {}, astray) && Inv(c', {}) && MarkedAs(c, c', v, dirty)
    ensures Good(c', {}, astray || (dirty && !c.views[v].valid)) && Flat(c') == Flat(c)
  {
    SameBytes(c, c');
    if !dirty || c.views[v].valid {
      SameDataKeeps(c, c', {});
    }
  }

  /** The same data in the same places reads the same, whatever is marked dirty. */
  lemma SameBytes(c: Cache, c': Cache)
    requires c'.disk == c.disk && c'.views.Keys == c.views.Keys && SameSections(c, c')
    requires forall f :: f in c.files ==> c'.files[f].list == c.files[f].list
    requires forall v :: v in c.views ==> c'.views[v].data == c.views[v].data && c'.views[v].valid == c.views[v].valid
    ensures Flat(c') == Flat(c)
  {
    forall f, i | f in c.files && 0 <= i < c.files[f].section
      ensures SameByte(c, c', f, i)
    {
    }
    SameFlat(c, c');
  }

  /** The references of outstanding holders go with a VACB that is left behind. */
  function Disown(c: Cache, v: Vacb): Cache
    requires v in c.views && c.views[v].refs >= c.holders[v]
  {
    SetView(c, v, c.views[v].(refs := c.views[v].refs - c.holders[v])).(holders := c.holders[v := 0])
  }

  lemma DisownKeeps(c: Cache, v: Vacb, detached: set<Vacb>, astray: bool)
    requires Good(c, detached, astray) && v in c.views && v !in detached
    ensures c.views[v].refs > c.holders[v] && Good(Disown(c, v), detached, astray) && SameData(c, Disown(c, v))
  {
    assert VacbOk(c, v, detached);
    var view := c.views[v];
    ViewKeeps(c, v, view.(refs := view.refs - c.holders[v]), c.holders[v := 0], detached);
    SameDataKeeps(c, Disown(c, v), detached);
  }

  /** No stripe of the file at or beyond the file size is dirty. */
  ghost predicate DirtyBelow(views: map<Vacb, View>, f: nat, fileSize: nat) {
    forall v :: v in views && v.file == f && views[v].dirty ==> v.offset < fileSize
  }

  lemma FlushedToDisk(c: Cache, c': Cache, f: nat, fileSize: nat, outcomes: nat -> WriteOutcome)
    requires Inv(c, {}) && Good(c', {}, false) && Flat(c') == Flat(c) && c'.views.Keys == c.views.Keys
    requires f in c'.files && f in c.files
    requires c'.files[f].section == c.files[f].section
    requires CleanedAll(c.views, c'.views, f, 0, Turns(fileSize), outcomes)
    requires AllWritten(c.views, f, 0, Turns(fileSize), outcomes)
    requires DirtyBelow(c.views, f, fileSize)
    ensures f in c'.disk && |c'.disk[f]| >= c.files[f].section && c'.disk[f][..c.files[f].section] == Flat(c)[f]
  {
    forall v | v in c'.views && v.file == f
      ensures !c'.views[v].dirty
    {
      assert VacbOk(c, v, {}) && CleanedTo(c.views, c'.views, f, 0, Turns(fileSize), outcomes, v);
      assert v.offset < fileSize ==> VisitedIn(v, 0, Turns(fileSize));
    }
    assert FileOk(c', f);
    forall i | 0 <= i < c.files[f].section
      ensures c'.disk[f][i] == Flat(c)[f][i]
    {
      CleanIsOnDisk(c', f, i);
      assert Flat(c')[f][i] == ByteAt(c', f, i);
    }
  }
}
