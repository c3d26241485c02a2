/** The VACB lists of ntoskrnl/cc/view.c as sequences: unlinking an entry, the per-file list sorted by
    file offset, and counting the entries of one file. */
module VacbLists {
  import opened Lists
  import opened Options

  const PAGE_SIZE: nat := 0x1000
  const VACB_MAPPING_GRANULARITY: nat := 0x40000
  const PAGES_PER_VACB: nat := 0x40 // VACB_MAPPING_GRANULARITY / PAGE_SIZE

  /** A VACB by identity, with the two fields that never change: the file and the offset it maps. */
  datatype Vacb = Vacb(serial: nat, file: nat, offset: nat)

  function RoundDown(offset: nat): nat {
    offset - offset % VACB_MAPPING_GRANULARITY
  }

  /** IsPointInRange of the VACB's stripe. */
  predicate Covers(v: Vacb, offset: nat) {
    v.offset <= offset < v.offset + VACB_MAPPING_GRANULARITY
  }

  /** How many of the entries belong to the file. */
  function OfFile(s: seq<Vacb>, f: nat): nat {
    if s == [] then 0 else (if s[0].file == f then 1 else 0) + OfFile(s[1..], f)
  }

  lemma {:induction false} OfFileRemove(s: seq<Vacb>, v: Vacb, f: nat)
    ensures OfFile(Remove(s, v), f) == OfFile(s, f) - (if v in s && v.file == f then 1 else 0)
  {
    if s != [] && s[0] != v {
      OfFileRemove(s[1..], v, f);
    }
  }

  lemma {:induction false} OfFileAppend(s: seq<Vacb>, v: Vacb, f: nat)
    ensures OfFile(s + [v], f) == OfFile(s, f) + (if v.file == f then 1 else 0)
  {
    if s == [] {
      assert s + [v] == [v];
    } else {
      assert (s + [v])[1..] == s[1..] + [v];
      OfFileAppend(s[1..], v, f);
    }
  }

  /** How many of the entries belong to one of the files. */
  function OfFiles(s: seq<Vacb>, fs: set<nat>): nat {
    if s == [] then 0 else (if s[0].file in fs then 1 else 0) + OfFiles(s[1..], fs)
  }

  lemma {:induction false} OfFilesSplit(s: seq<Vacb>, fs: set<nat>, f: nat)
    requires f in fs
    ensures OfFiles(s, fs) == OfFiles(s, fs - {f}) + OfFile(s, f)
  {
    if s != [] {
      OfFilesSplit(s[1..], fs, f);
    }
  }

  lemma {:induction false} OfFilesAll(s: seq<Vacb>, fs: set<nat>)
    requires forall v :: v in s ==> v.file in fs
    ensures OfFiles(s, fs) == |s|
  {
    if s != [] {
      OfFilesAll(s[1..], fs);
    }
  }

  // ----- the sorted list of one file

  ghost predicate Below(s: seq<Vacb>, i: nat, j: nat)
    requires i < |s| && j < |s|
  {
    s[i].offset < s[j].offset
  }

  /** Strictly sorted, so that no stripe is listed twice. */
  ghost predicate Sorted(s: seq<Vacb>) {
    forall i, j :: 0 <= i < j < |s| ==> Below(s, i, j)
  }

  ghost predicate AllOf(s: seq<Vacb>, f: nat) {
    forall v :: v in s ==> v.file == f && v.offset % VACB_MAPPING_GRANULARITY == 0
  }

  lemma SortedOnce(s: seq<Vacb>, v: Vacb, w: Vacb)
    requires Sorted(s) && v in s && w in s && v.offset == w.offset
    ensures v == w
  {
    var i :| 0 <= i < |s| && s[i] == v;
    var j :| 0 <= j < |s| && s[j] == w;
    assert i < j ==> Below(s, i, j);
    assert j < i ==> Below(s, j, i);
  }

  lemma SortedTail(s: seq<Vacb>)
    requires Sorted(s) && s != []
    ensures Sorted(s[1..]) && forall v :: v in s[1..] ==> s[0].offset < v.offset
  {
    var r := s[1..];
    forall i, j | 0 <= i < j < |r|
      ensures Below(r, i, j)
    {
      assert Below(s, i + 1, j + 1);
    }
    forall v | v in r
      ensures s[0].offset < v.offset
    {
      var i :| 0 <= i < |r| && r[i] == v;
      assert Below(s, 0, i + 1);
    }
  }

  lemma SortedCons(v: Vacb, r: seq<Vacb>)
    requires Sorted(r) && forall w :: w in r ==> v.offset < w.offset
    ensures Sorted([v] + r)
  {
    var s := [v] + r;
    forall i, j | 0 <= i < j < |s|
      ensures Below(s, i, j)
    {
      if i == 0 {
        assert s[j] in r;
      } else {
        assert Below(r, i - 1, j - 1);
      }
    }
  }

  lemma {:induction false} RemoveSorted(s: seq<Vacb>, v: Vacb)
    requires Sorted(s)
    ensures Sorted(Remove(s, v))
    ensures forall w :: w in Remove(s, v) <==> w in s && w != v
  {
    if s != [] {
      SortedTail(s);
      if s[0] != v {
        RemoveSorted(s[1..], v);
        SortedCons(s[0], Remove(s[1..], v));
      }
    }
  }

  /** The list with a new VACB put behind the last one of a smaller offset. */
  function Insert(s: seq<Vacb>, v: Vacb): seq<Vacb> {
    if s == [] || s[0].offset > v.offset then [v] + s else [s[0]] + Insert(s[1..], v)
  }

  lemma {:induction false} InsertSorted(s: seq<Vacb>, v: Vacb)
    requires Sorted(s) && forall w :: w in s ==> w.offset != v.offset
    ensures Sorted(Insert(s, v))
    ensures forall w :: w in Insert(s, v) <==> w in s || w == v
  {
    if s != [] {
      SortedTail(s);
      if s[0].offset > v.offset {
        SortedCons(v, s);
      } else {
        InsertSorted(s[1..], v);
        SortedCons(s[0], Insert(s[1..], v));
      }
    }
  }

  lemma {:induction false} InsertAt(s: seq<Vacb>, v: Vacb, i: nat)
    requires i <= |s| && (forall j :: 0 <= j < i ==> s[j].offset < v.offset) && (i < |s| ==> s[i].offset > v.offset)
    ensures Insert(s, v) == s[..i] + [v] + s[i..]
  {
    if i > 0 {
      InsertAt(s[1..], v, i - 1);
      assert s[..i] == [s[0]] + s[1..][..i - 1];
    }
  }

  // ----- exhaustive search and the early exit of CcRosLookupVacb

  /** The VACB of the stripe that starts at base, searched without regard to order. */
  function Find(s: seq<Vacb>, base: nat): (r: Option<Vacb>)
    ensures r.Some? ==> r.value in s && r.value.offset == base
    ensures r.None? ==> forall v :: v in s ==> v.offset != base
  {
    if s == [] then None else if s[0].offset == base then Some(s[0]) else Find(s[1..], base)
  }

  lemma FindListed(s: seq<Vacb>, v: Vacb)
    requires Sorted(s) && v in s
    ensures Find(s, v.offset) == Some(v)
  {
    SortedOnce(s, v, Find(s, v.offset).value);
  }

  lemma FindOnly(s: seq<Vacb>, s': seq<Vacb>, base: nat)
    requires Sorted(s) && Sorted(s')
    requires forall v: Vacb :: v.offset == base ==> (v in s <==> v in s')
    ensures Find(s, base) == Find(s', base)
  {
    if Find(s, base).Some? {
      FindListed(s', Find(s, base).value);
    }
  }

  lemma CoversBase(v: Vacb, offset: nat)
    requires v.offset % VACB_MAPPING_GRANULARITY == 0
    ensures Covers(v, offset) <==> v.offset == RoundDown(offset)
  {
  }
}
