/** The name control blocks in their hash table and the keys that use them, ntoskrnl/config/cmkcbncb.c. */
module NameTable {
  import opened HashChains
  import opened Lists
  import opened NameBlocks
  import opened NameHash
  import opened Options

  type User = nat

  /** Who uses which block, and for which name. */
  datatype Use = Use(block: Id, name: seq<Wchar>)

  /** made says for which name each block was made. */
  datatype Names = Names(blocks: map<Id, Ncb>, table: map<nat, seq<Id>>, users: map<User, Use>, made: map<Id,
    seq<Wchar>>)

  function UsersOf(users: map<User, Use>, b: Id): set<User> {
    set u | u in users && users[u].block == b
  }

  /** A block is what its name makes, is counted once for each user, and has users. */
  ghost predicate BlockOk(up: Wchar -> Wchar, s: Names, b: Id) {
    b in s.blocks ==>
      var ncb := s.blocks[b];
      && b in s.made && ncb == NewBlock(up, s.made[b]).(refs := ncb.refs)
      && ncb.refs == |UsersOf(s.users, b)| && 0 < ncb.refs <= 0xFFFF
  }

  /** A key uses the block that was made for its name, or one that accepted it. */
  ghost predicate UserOk(up: Wchar -> Wchar, s: Names, u: User) {
    u in s.users ==>
      var use := s.users[u];
      && use.block in s.blocks && use.block in s.made
      && (use.name == s.made[use.block] || Accepts(up, use.name, s.blocks[use.block]))
  }

  ghost predicate Listed(s: Names, b: Id, index: nat) {
    multiset(Chain(s.table, index))[b] == One(b in s.blocks && index == HashIndex(s.blocks[b].convKey))
  }

  predicate SameTame(up: Wchar -> Wchar, a: seq<Wchar>, b: seq<Wchar>) {
    Tame(up, a) && Tame(up, b) && Upcased(up, a) == Upcased(up, b)
  }

  /** No two blocks are made for names that are equal after case mapping. */
  ghost predicate NamedOnce(up: Wchar -> Wchar, s: Names, a: Id, b: Id) {
    a in s.blocks && b in s.blocks && a in s.made && b in s.made && SameTame(up, s.made[a], s.made[b]) ==> a == b
  }

  ghost predicate Inv(up: Wchar -> Wchar, s: Names) {
    && (forall b :: BlockOk(up, s, b))
    && (forall u :: UserOk(up, s, u))
    && (forall b, index :: Listed(s, b, index))
    && (forall a, b :: NamedOnce(up, s, a, b))
  }

  /** Every name in use, and every name a block was made for, has only characters with which interning works. */
  ghost predicate AllTame(up: Wchar -> Wchar, s: Names) {
    && (forall u :: u in s.users ==> Tame(up, s.users[u].name))
    && (forall b :: b in s.blocks && b in s.made ==> Tame(up, s.made[b]))
  }

  /** A user's name and the name its block was made for are equal after case mapping. */
  lemma UsersMatch(up: Wchar -> Wchar, s: Names, u: User)
    requires Inv(up, s) && AllTame(up, s) && u in s.users
    ensures var use := s.users[u];
      use.block in s.blocks && use.block in s.made && Upcased(up, use.name) == Upcased(up, s.made[use.block])
  {
    var use := s.users[u];
    assert UserOk(up, s, u) && BlockOk(up, s, use.block);
    AcceptsExactly(up, use.name, s.made[use.block]);
    SameAccept(up, use.name, s.blocks[use.block], NewBlock(up, s.made[use.block]));
  }

  /** Two keys share a name block exactly when their names are equal after case mapping. */
  lemma SharedExactly(up: Wchar -> Wchar, s: Names, u: User, v: User)
    requires Inv(up, s) && AllTame(up, s) && u in s.users && v in s.users
    ensures s.users[u].block == s.users[v].block <==> Upcased(up, s.users[u].name) == Upcased(up, s.users[v].name)
  {
    UsersMatch(up, s, u);
    UsersMatch(up, s, v);
    assert NamedOnce(up, s, s.users[u].block, s.users[v].block);
  }

  /** A block's count is the number of keys with its name, and no block is kept without one. */
  lemma CountsItsUsers(up: Wchar -> Wchar, s: Names, b: Id)
    requires Inv(up, s) && b in s.blocks
    ensures b in s.made && s.blocks[b].refs == |UsersOf(s.users, b)|
    ensures exists u :: u in s.users && s.users[u].block == b
    ensures AllTame(up, s) ==>
      s.blocks[b].refs == |set u | u in s.users && Upcased(up, s.users[u].name) == Upcased(up, s.made[b])|
  {
    assert BlockOk(up, s, b);
    var u :| u in UsersOf(s.users, b);
    if AllTame(up, s) {
      forall u | u in s.users
        ensures s.users[u].block == b <==> Upcased(up, s.users[u].name) == Upcased(up, s.made[b])
      {
        UsersMatch(up, s, u);
        assert NamedOnce(up, s, s.users[u].block, b);
      }
      assert (set u | u in s.users && Upcased(up, s.users[u].name) == Upcased(up, s.made[b])) == UsersOf(s.users, b);
    }
  }

  /** A name with a character that does not survive being stored gets a second block when it is entered again. */
  lemma SameNameTwice(up: Wchar -> Wchar, u: User, v: User, a: Id, b: Id)
    requires up(0xFF) == 0x178 && up(0x78) == 0x58 && u != v && a != b
    ensures var s := Add(up, Names(map[], map[], map[], map[]), u, [0xFF], a);
      (forall c :: c in s.blocks ==> !Accepts(up, [0xFF], s.blocks[c]))
      && var t := Add(up, s, v, [0xFF], b); t.users[u].name == t.users[v].name && t.users[u].block != t.users[v].block
  {
    TruncationLosesAName(up);
  }

  // ----- changes of the table

  /** One more user for a block that is there. */
  function Share(s: Names, u: User, name: seq<Wchar>, b: Id): Names
    requires b in s.blocks
  {
    s.(blocks := s.blocks[b := s.blocks[b].(refs := s.blocks[b].refs + 1)], users := s.users[u := Use(b, name)])
  }

  /** A new block at the front of its chain. */
  function Add(up: Wchar -> Wchar, s: Names, u: User, name: seq<Wchar>, b: Id): Names {
    var ncb := NewBlock(up, name);
    var index := HashIndex(ncb.convKey);
    Names(s.blocks[b := ncb], s.table[index := [b] + Chain(s.table, index)], s.users[u := Use(b, name)],
      s.made[b := name])
  }

  /** A user goes, and with the last one the block. */
  function Leave(s: Names, u: User): Names
    requires u in s.users && s.users[u].block in s.blocks && s.blocks[s.users[u].block].refs > 0
  {
    var b := s.users[u].block;
    var ncb := s.blocks[b];
    var index := HashIndex(ncb.convKey);
    if ncb.refs == 1 then
      Names(s.blocks - {b}, s.table[index := Remove(Chain(s.table, index), b)], s.users - {u}, s.made)
    else
      s.(blocks := s.blocks[b := ncb.(refs := ncb.refs - 1)], users := s.users - {u})
  }

  lemma MoreUsers(users: map<User, Use>, u: User, use: Use, b: Id)
    requires u !in users
    ensures |UsersOf(users[u := use], b)| == |UsersOf(users, b)| + One(use.block == b)
  {
    if use.block == b {
      assert UsersOf(users[u := use], b) == UsersOf(users, b) + {u};
    } else {
      assert UsersOf(users[u := use], b) == UsersOf(users, b);
    }
  }

  lemma FewerUsers(users: map<User, Use>, u: User, b: Id)
    requires u in users
    ensures |UsersOf(users - {u}, b)| + One(users[u].block == b) == |UsersOf(users, b)|
  {
    if users[u].block == b {
      assert UsersOf(users, b) == UsersOf(users - {u}, b) + {u};
    } else {
      assert UsersOf(users, b) == UsersOf(users - {u}, b);
    }
  }

  lemma ShareKeeps(up: Wchar -> Wchar, s: Names, u: User, name: seq<Wchar>, b: Id)
    requires Inv(up, s) && u !in s.users && b in s.blocks && Accepts(up, name, s.blocks[b]) && s.blocks[b].refs < 0xFFFF
    ensures Inv(up, Share(s, u, name, b))
  {
    var t := Share(s, u, name, b);
    forall a
      ensures BlockOk(up, t, a)
    {
      MoreUsers(s.users, u, Use(b, name), a);
      assert BlockOk(up, s, a);
    }
    forall v
      ensures UserOk(up, t, v)
    {
      assert UserOk(up, s, v) && BlockOk(up, s, b);
    }
    SameTable(up, s, t, b);
  }

  lemma SameTable(up: Wchar -> Wchar, s: Names, t: Names, b: Id)
    requires b in s.blocks && b in t.blocks && t.blocks == s.blocks[b := t.blocks[b]] && t.table == s.table
    requires t.made == s.made && t.blocks[b].convKey == s.blocks[b].convKey
    requires (forall a, index :: Listed(s, a, index)) && (forall a, c :: NamedOnce(up, s, a, c))
    ensures (forall a, index :: Listed(t, a, index)) && (forall a, c :: NamedOnce(up, t, a, c))
  {
    forall a, index
      ensures Listed(t, a, index)
    {
      assert Listed(s, a, index);
    }
    forall a, c
      ensures NamedOnce(up, t, a, c)
    {
      assert NamedOnce(up, s, a, c);
    }
  }

  lemma AddKeeps(up: Wchar -> Wchar, s: Names, u: User, name: seq<Wchar>, b: Id)
    requires Inv(up, s) && u !in s.users && b !in s.blocks && forall a :: a in s.blocks ==>
      !Accepts(up, name, s.blocks[a])
    ensures Inv(up, Add(up, s, u, name, b))
  {
    var t := Add(up, s, u, name, b);
    forall a
      ensures BlockOk(up, t, a)
    {
      MoreUsers(s.users, u, Use(b, name), a);
      NoUsers(up, s, b);
      assert BlockOk(up, s, a);
    }
    forall v
      ensures UserOk(up, t, v)
    {
      assert UserOk(up, s, v);
    }
    forall a, index
      ensures Listed(t, a, index)
    {
      assert Listed(s, a, index);
    }
    forall a, c
      ensures NamedOnce(up, t, a, c)
    {
      assert NamedOnce(up, s, a, c);
      NewName(up, s, name, a);
      NewName(up, s, name, c);
    }
  }

  /** No block that refused the name was made for an equal one. */
  lemma NewName(up: Wchar -> Wchar, s: Names, name: seq<Wchar>, a: Id)
    requires BlockOk(up, s, a) && (a in s.blocks ==> !Accepts(up, name, s.blocks[a]))
    ensures a in s.blocks ==> !SameTame(up, name, s.made[a])
  {
    if a in s.blocks && SameTame(up, name, s.made[a]) {
      AcceptsExactly(up, name, s.made[a]);
      SameAccept(up, name, s.blocks[a], NewBlock(up, s.made[a]));
    }
  }

  lemma NoUsers(up: Wchar -> Wchar, s: Names, b: Id)
    requires (forall u :: UserOk(up, s, u)) && b !in s.blocks
    ensures UsersOf(s.users, b) == {}
  {
    forall u | u in s.users
      ensures s.users[u].block != b
    {
      assert UserOk(up, s, u);
    }
  }

  lemma LeaveReady(up: Wchar -> Wchar, s: Names, u: User)
    requires Inv(up, s) && u in s.users
    ensures var b := s.users[u].block;
      b in s.blocks && s.blocks[b].refs > 0 && b in Chain(s.table, HashIndex(s.blocks[b].convKey))
  {
    assert UserOk(up, s, u);
    var b := s.users[u].block;
    assert BlockOk(up, s, b);
    var index := HashIndex(s.blocks[b].convKey);
    assert Listed(s, b, index);
    assert b in multiset(Chain(s.table, index));
  }

  lemma LeaveKeeps(up: Wchar -> Wchar, s: Names, u: User)
    requires Inv(up, s) && u in s.users
    ensures s.users[u].block in s.blocks && s.blocks[s.users[u].block].refs > 0 && Inv(up, Leave(s, u))
  {
    LeaveReady(up, s, u);
    var t, b := Leave(s, u), s.users[u].block;
    assert BlockOk(up, s, b);
    FewerUsers(s.users, u, b);
    forall a
      ensures BlockOk(up, t, a)
    {
      FewerUsers(s.users, u, a);
      assert BlockOk(up, s, a);
    }
    forall v
      ensures UserOk(up, t, v)
    {
      assert UserOk(up, s, v);
      assert v in t.users && s.users[v].block == b ==> v in UsersOf(s.users - {u}, b);
    }
    if s.blocks[b].refs == 1 {
      forall a, index
        ensures Listed(t, a, index)
      {
        assert Listed(s, a, index) && Listed(s, b, index);
        RemoveCounts(Chain(s.table, HashIndex(s.blocks[b].convKey)), b, a);
      }
      forall a, c
        ensures NamedOnce(up, t, a, c)
      {
        assert NamedOnce(up, s, a, c);
      }
    } else {
      SameTable(up, s, t, b);
    }
  }

  // ----- the routines

  /** The block that is made for a name: its characters in upper case, one byte each if none of them is wide. */
  ghost predicate StoredAs(up: Wchar -> Wchar, name: seq<Wchar>, b: Ncb) {
    && b.refs == 1 && b.convKey == ConvKey(up, 0, name) && |b.name| == |name|
    && (b.compressed <==> forall i :: 0 <= i < |name| ==> name[i] <= 0xFF)
    && b.length == (if b.compressed then |name| else 2 * |name|)
    && (forall i :: 0 <= i < |name| ==> b.name[i] == if b.compressed then up(name[i]) % 0x100 else up(name[i]))
  }

  lemma NewStored(up: Wchar -> Wchar, name: seq<Wchar>)
    ensures StoredAs(up, name, NewBlock(up, name))
  {
    assert AllNarrow(name) <==> forall i :: 0 <= i < |name| ==> name[i] <= 0xFF by {
      assert forall i :: 0 <= i < |name| ==> (Narrow(name[i]) <==> name[i] <= 0xFF);
    }
  }

  class NameCache {
    const up: Wchar -> Wchar
    var blocks: map<Id, Ncb>
    var table: map<nat, seq<Id>>
    ghost var users: map<User, Use>
    ghost var made: map<Id, seq<Wchar>>

    ghost function State(): Names
      reads this
    {
      Names(blocks, table, users, made)
    }

    ghost predicate Valid()
      reads this
    {
      Inv(up, State())
    }

    constructor (up: Wchar -> Wchar)
      ensures Valid() && AllTame(up, State()) && State() == Names(map[], map[], map[], map[]) && this.up == up
    {
      this.up := up;
      blocks, table, users, made := map[], map[], map[], map[];
    }

    /** The search: one chain is enough. */
    method Search(name: seq<Wchar>, convKey: nat, length: nat) returns (found: Option<Id>)
      requires Valid() && convKey == ConvKey(up, 0, name) && length == LengthOf(name)
      ensures found.Some? ==> found.value in blocks && Accepts(up, name, blocks[found.value])
      ensures found.None? ==> forall b :: b in blocks ==> !Accepts(up, name, blocks[b])
    {
      var chain := Chain(table, HashIndex(convKey));
      var i := 0;
      while i < |chain|
        invariant i <= |chain|
        invariant forall j :: 0 <= j < i ==> chain[j] in blocks && !Accepts(up, name, blocks[chain[j]])
      {
        var b := chain[i];
        EntryOk(up, State(), b, HashIndex(convKey));
        var same := TestEntry(up, name, convKey, length, blocks[b]);
        if same {
          return Some(b);
        }
        i := i + 1;
      }
      found := None;
      forall b | b in blocks
        ensures !Accepts(up, name, blocks[b])
      {
        if Accepts(up, name, blocks[b]) {
          NotElsewhere(up, State(), b);
        }
      }
    }

    /** The part of CmpGetNameControlBlock that makes a new block. */
    method AddBlock(u: User, name: seq<Wchar>, b: Id, narrow: bool, convKey: nat, length: nat)
      requires convKey == ConvKey(up, 0, name) && length == LengthOf(name) && narrow == AllNarrow(name)
      modifies this`blocks, this`table, this`users, this`made
      ensures State() == Add(up, old(State()), u, name, b)
    {
      var stored := CopyName(up, name, narrow);
      assert stored == NewBlock(up, name).name;
      blocks := blocks[b := Ncb(narrow, 1, convKey, length, stored)];
      var index := HashIndex(convKey);
      table := table[index := [b] + Chain(table, index)];
      users := users[u := Use(b, name)];
      made := made[b := name];
    }

    /** CmpGetNameControlBlock for user u; allotted is the block that would be allocated. Like the code, it demands that
        a block does not reach 64K users. */
    method GetNameControlBlock(u: User, name: seq<Wchar>, allotted: Id, memory: bool) returns (got: Option<Id>)
      requires Valid() && u !in users && allotted !in blocks
      requires forall b :: b in blocks && Accepts(up, name, blocks[b]) ==> blocks[b].refs < 0xFFFF
      modifies this`blocks, this`table, this`users, this`made
      ensures Valid()
      ensures got.Some? ==> users == old(users)[u := Use(got.value, name)]
      ensures got.None? ==> State() == old(State())
      ensures got.None? <==> !memory && forall b :: b in old(blocks) ==> !Accepts(up, name, old(blocks)[b])
      ensures got == Some(allotted) <==> memory && forall b :: b in old(blocks) ==> !Accepts(up, name, old(blocks)[b])
      ensures got.Some? && got.value != allotted ==>
        got.value in old(blocks) && Accepts(up, name, old(blocks)[got.value])
      ensures old(AllTame(up, State())) && Tame(up, name) ==> AllTame(up, State())
      ensures got == Some(allotted) ==>
        && allotted in blocks && blocks == old(blocks)[allotted := blocks[allotted]]
        && StoredAs(up, name, blocks[allotted])
      ensures got.Some? && got.value != allotted ==>
        blocks == old(blocks)[got.value := old(blocks)[got.value].(refs := old(blocks)[got.value].refs + 1)]
    {
      var convKey := ComputeConvKey(up, 0, name);
      var narrow, length := Measure(name);
      got := Search(name, convKey, length);
      ghost var s := State();
      if got.Some? {
        var b := got.value;
        ShareKeeps(up, s, u, name, b);
        blocks := blocks[b := blocks[b].(refs := blocks[b].refs + 1)];
        users := users[u := Use(b, name)];
        assert State() == Share(s, u, name, b);
      } else if memory {
        AddKeeps(up, s, u, name, allotted);
        AddBlock(u, name, allotted, narrow, convKey, length);
        NewStored(up, name);
        got := Some(allotted);
      }
    }

    /** CmpDereferenceNameControlBlockWithLock for user u: the last user takes the block along. */
    method DereferenceNameControlBlock(ghost u: User, b: Id)
      requires Valid() && u in users && users[u].block == b
      modifies this`blocks, this`table, this`users, this`made
      ensures Valid() && users == old(users) - {u} && (old(AllTame(up, State())) ==> AllTame(up, State()))
      ensures b in blocks <==> exists v :: v in users && users[v].block == b
      ensures blocks - {b} == old(blocks) - {b}
      ensures b in blocks ==> b in old(blocks) && blocks[b] == old(blocks)[b].(refs := blocks[b].refs)
    {
      ghost var s := State();
      LeaveReady(up, s, u);
      LeaveKeeps(up, s, u);
      if blocks[b].refs - 1 == 0 {
        var index := HashIndex(blocks[b].convKey);
        var rest := Unlink(Chain(table, index), b);
        table := table[index := rest];
        blocks := blocks - {b};
      } else {
        blocks := blocks[b := blocks[b].(refs := blocks[b].refs - 1)];
      }
      users := users - {u};
      assert State() == Leave(s, u);
      BlockHasUser(up, State(), b);
    }
  }

  method CopyName(up: Wchar -> Wchar, name: seq<Wchar>, narrow: bool) returns (stored: seq<Wchar>)
    ensures |stored| == |name| && forall i :: 0 <= i < |name| ==> stored[i] == StoredChar(up, narrow, name[i])
  {
    stored := [];
    for i := 0 to |name|
      invariant |stored| == i && forall j :: 0 <= j < i ==> stored[j] == StoredChar(up, narrow, name[j])
    {
      stored := stored + [if narrow then up(name[i]) % 0x100 else up(name[i])];
    }
  }

  lemma BlockHasUser(up: Wchar -> Wchar, s: Names, b: Id)
    requires Inv(up, s)
    ensures b in s.blocks <==> exists v :: v in s.users && s.users[v].block == b
  {
    if b in s.blocks {
      CountsItsUsers(up, s, b);
    } else {
      NoUsers(up, s, b);
      assert forall v :: v in s.users && s.users[v].block == b ==> v in UsersOf(s.users, b);
    }
  }

  lemma EntryOk(up: Wchar -> Wchar, s: Names, b: Id, index: nat)
    requires Inv(up, s) && b in Chain(s.table, index)
    ensures b in s.blocks && Sized(s.blocks[b])
  {
    assert Listed(s, b, index) && b in multiset(Chain(s.table, index));
    assert BlockOk(up, s, b);
  }

  lemma SameAccept(up: Wchar -> Wchar, name: seq<Wchar>, b: Ncb, c: Ncb)
    requires b == c.(refs := b.refs)
    ensures Accepts(up, name, b) <==> Accepts(up, name, c)
  {
  }

  /** A block is in the chain of its hash, which is that of every name it accepts. */
  lemma NotElsewhere(up: Wchar -> Wchar, s: Names, b: Id)
    requires Inv(up, s) && b in s.blocks
    ensures b in Chain(s.table, HashIndex(s.blocks[b].convKey))
  {
    var index := HashIndex(s.blocks[b].convKey);
    assert Listed(s, b, index);
    assert b in multiset(Chain(s.table, index));
  }
}
