/** The path of a key: printed back to front from its chain of name blocks, ntoskrnl/config/cmapi.c, and taken apart
    again name by name, ntoskrnl/config/cmparse.c. */
module KeyPath {
  import opened NameBlocks
  import opened NameHash
  import opened Options

  /** The bytes a name takes in a path. */
  function NameBytes(b: Ncb): nat {
    if b.compressed then 2 * b.length else b.length
  }

  /** The names of a chain of keys, from the root down. */
  function Names(chain: seq<Ncb>): (r: seq<seq<Wchar>>)
    ensures |r| == |chain| && forall i :: 0 <= i < |chain| ==> r[i] == chain[i].name
  {
    seq(|chain|, i requires 0 <= i < |chain| => chain[i].name)
  }

  function Path(names: seq<seq<Wchar>>): seq<Wchar> {
    if names == [] then [] else [SEPARATOR] + names[0] + Path(names[1..])
  }

  lemma {:induction false} PathSplits(a: seq<seq<Wchar>>, b: seq<seq<Wchar>>)
    ensures Path(a + b) == Path(a) + Path(b)
  {
    if a == [] {
      assert a + b == b;
    } else {
      PathSplits(a[1..], b);
      assert (a + b)[1..] == a[1..] + b;
    }
  }

  lemma PathLast(names: seq<seq<Wchar>>, i: nat)
    requires i < |names|
    ensures Path(names[..i + 1]) == Path(names[..i]) + [SEPARATOR] + names[i]
  {
    assert names[..i + 1] == names[..i] + [names[i]];
    PathSplits(names[..i], [names[i]]);
    assert Path([names[i]]) == [SEPARATOR] + names[i] + Path([]);
  }

  lemma PathFirst(names: seq<seq<Wchar>>, i: nat)
    requires i < |names|
    ensures Path(names[i..]) == [SEPARATOR] + names[i] + Path(names[i + 1..])
  {
    assert names[i..][1..] == names[i + 1..];
  }

  // ----- the printer

  datatype Status = Success | BufferTooSmall | BufferOverflow

  /** The size of the header before the name. */
  const HEADER: nat := 4

  /** The first pass, from the key up to the root. */
  method Measure(chain: seq<Ncb>) returns (needed: nat)
    requires forall i :: 0 <= i < |chain| ==> Sized(chain[i])
    ensures needed == 2 * |Path(Names(chain))|
  {
    needed := 0;
    var i := |chain|;
    ghost var names := Names(chain);
    while i > 0
      invariant 0 <= i <= |chain| && needed == 2 * |Path(names[i..])|
    {
      i := i - 1;
      PathFirst(names, i);
      needed := needed + NameBytes(chain[i]) + 2;
    }
    assert names[0..] == names;
  }

  /** CmpCopyCompressedName, or the plain copy of an uncompressed name. */
  method CopyName(buffer: array<Wchar>, at: nat, name: seq<Wchar>)
    requires at + |name| <= buffer.Length
    modifies buffer
    ensures buffer[..at] == old(buffer[..at]) && buffer[at..at + |name|] == name
    ensures buffer[at + |name|..] == old(buffer[at + |name|..])
  {
    for i := 0 to |name|
      invariant forall j :: 0 <= j < i ==> buffer[at + j] == name[j]
      invariant forall j :: 0 <= j < buffer.Length && !(at <= j < at + i) ==> buffer[j] == old(buffer[j])
    {
      buffer[at + i] := name[i];
    }
  }

  /** CmpQueryNameInformation. length is the size the caller gives, with room for its name part in buffer. The second
      pass fills exactly the length that the first one computed. */
  method QueryNameInformation(chain: seq<Ncb>, length: nat, buffer: array<Wchar>)
    returns (status: Status, resultLength: nat, nameLength: Option<nat>)
    requires forall i :: 0 <= i < |chain| ==> Sized(chain[i])
    requires length <= HEADER + 2 * buffer.Length + 1
    modifies buffer
    ensures resultLength == HEADER + 2 * |Path(Names(chain))|
    ensures status == BufferTooSmall <==> length < HEADER
    ensures status == BufferOverflow <==> HEADER <= length < resultLength
    ensures status == BufferTooSmall ==> nameLength == None
    ensures status != BufferTooSmall ==> nameLength == Some(2 * |Path(Names(chain))|)
    ensures status == Success ==>
      2 * |Path(Names(chain))| <= 2 * buffer.Length && buffer[..|Path(Names(chain))|] == Path(Names(chain))
    ensures status == Success ==> buffer[|Path(Names(chain))|..] == old(buffer[|Path(Names(chain))|..])
    ensures status != Success ==> buffer[..] == old(buffer[..])
  {
    var needed := Measure(chain);
    resultLength := HEADER + needed;
    if length < HEADER {
      return BufferTooSmall, resultLength, None;
    }
    if length < resultLength {
      return BufferOverflow, resultLength, Some(needed);
    }
    var written := Fill(chain, needed, buffer);
    status, nameLength := Success, Some(written);
  }

  /** The second pass, again from the key up to the root, so from the end of the path to its start. */
  method Fill(chain: seq<Ncb>, needed: nat, buffer: array<Wchar>) returns (written: nat)
    requires forall i :: 0 <= i < |chain| ==> Sized(chain[i])
    requires needed == 2 * |Path(Names(chain))| && needed <= 2 * buffer.Length
    modifies buffer
    ensures written == needed && buffer[..needed / 2] == Path(Names(chain))
    ensures buffer[needed / 2..] == old(buffer[needed / 2..])
  {
    ghost var names, end := Names(chain), needed / 2;
    var left := needed;
    written := 0;
    var i := |chain|;
    assert names[..i] == names && buffer[end..end] == [] == Path(names[i..]);
    while i > 0
      invariant 0 <= i <= |chain| && left == 2 * |Path(names[..i])| && left <= needed && written == needed - left
      invariant buffer[left / 2..end] == Path(names[i..])
      invariant buffer[end..] == old(buffer[end..])
    {
      i := i - 1;
      var bytes := PrependName(buffer, left, chain, i, end);
      left := left - bytes;
      written := written + bytes;
    }
  }

  /** One turn of the second pass, for the path from here down. */
  method PrependName(buffer: array<Wchar>, left: nat, chain: seq<Ncb>, i: nat, ghost end: nat) returns (bytes: nat)
    requires i < |chain| && Sized(chain[i]) && left == 2 * |Path(Names(chain)[..i + 1])|
    requires left <= 2 * end <= 2 * buffer.Length
    requires buffer[left / 2..end] == Path(Names(chain)[i + 1..])
    modifies buffer
    ensures bytes <= left && left - bytes == 2 * |Path(Names(chain)[..i])|
    ensures buffer[(left - bytes) / 2..end] == Path(Names(chain)[i..])
    ensures buffer[end..] == old(buffer[end..])
  {
    PathLast(Names(chain), i);
    PathFirst(Names(chain), i);
    bytes := PrintName(buffer, left, chain[i], end);
  }

  /** The name ends where the path so far begins. */
  method PrintName(buffer: array<Wchar>, left: nat, b: Ncb, ghost end: nat) returns (bytes: nat)
    requires Sized(b) && 2 * |b.name| + 2 <= left <= 2 * end <= 2 * buffer.Length
    modifies buffer
    ensures bytes == 2 * |b.name| + 2
    ensures buffer[(left - bytes) / 2..end] == [SEPARATOR] + b.name + old(buffer[left / 2..end])
    ensures buffer[end..] == old(buffer[end..])
  {
    bytes := NameBytes(b) + 2;
    var at := (left - bytes) / 2;
    assert at + 1 == (left - NameBytes(b)) / 2 && left / 2 == at + 1 + |b.name|;
    PlaceName(buffer, at, b.name, end);
  }

  method PlaceName(buffer: array<Wchar>, at: nat, name: seq<Wchar>, ghost end: nat)
    requires at + 1 + |name| <= end <= buffer.Length
    modifies buffer
    ensures buffer[at..end] == [SEPARATOR] + name + old(buffer[at + 1 + |name|..end])
    ensures buffer[end..] == old(buffer[end..])
  {
    ghost var before := buffer[..];
    CopyName(buffer, at + 1, name);
    ghost var copied := buffer[..];
    buffer[at] := SEPARATOR;
    Placed(before, copied, buffer[..], at, name, end);
  }

  /** A name and its separator in front of what is there. */
  lemma Placed(before: seq<Wchar>, copied: seq<Wchar>, after: seq<Wchar>, at: nat, name: seq<Wchar>, end: nat)
    requires at + 1 + |name| <= end <= |before| == |copied| == |after|
    requires copied[at + 1..at + 1 + |name|] == name && copied[at + 1 + |name|..] == before[at + 1 + |name|..]
    requires after == copied[at := SEPARATOR]
    ensures after[at..end] == [SEPARATOR] + name + before[at + 1 + |name|..end]
    ensures after[end..] == before[end..]
  {
    var n := at + 1 + |name|;
    assert after[at..end] == [SEPARATOR] + after[at + 1..n] + after[n..end];
    assert after[at + 1..n] == copied[at + 1..n];
    assert after[n..] == copied[n..] == before[n..];
    assert after[n..end] == after[n..][..end - n] == before[n..end];
    assert after[end..] == after[n..][end - n..] == before[end..];
  }

  // ----- the tokenizer

  /** The characters up to the next separator. */
  function Word(r: seq<Wchar>): (w: seq<Wchar>)
    ensures w <= r && (forall i :: 0 <= i < |w| ==> w[i] != SEPARATOR) && (|w| < |r| ==> r[|w|] == SEPARATOR)
  {
    if r == [] || r[0] == SEPARATOR then [] else [r[0]] + Word(r[1..])
  }

  datatype Token = Token(name: Option<seq<Wchar>>, rest: seq<Wchar>, last: bool, valid: bool)

  const MAX_NAME_BYTES: nat := 512

  /** One name off the front of a path; a path that starts with a zero character counts as empty. */
  function NextName(r: seq<Wchar>): Token {
    if r == [] || r[0] == 0 then Token(None, r, true, true)
    else
      var w := Word(Stripped(r));
      var rest := Stripped(r)[|w|..];
      Token(Some(w), rest, rest == [], 2 * |w| <= MAX_NAME_BYTES)
  }

  /** r is n separators, a name without any, and a rest that is empty or goes on with one. */
  ghost predicate Splits(r: seq<Wchar>, n: nat, name: seq<Wchar>, rest: seq<Wchar>) {
    && n <= |r| && r == r[..n] + name + rest && (forall i :: 0 <= i < n ==> r[i] == SEPARATOR)
    && Separable(name) && (rest != [] ==> name != [] && rest[0] == SEPARATOR)
  }

  lemma {:induction false} StrippedAt(r: seq<Wchar>)
    ensures |Stripped(r)| <= |r| && r[|r| - |Stripped(r)|..] == Stripped(r)
    ensures forall i :: 0 <= i < |r| - |Stripped(r)| ==> r[i] == SEPARATOR
    ensures Stripped(r) != [] ==> Stripped(r)[0] != SEPARATOR
    decreases |r|
  {
    if r != [] && r[0] == SEPARATOR {
      StrippedAt(r[1..]);
      assert r == [r[0]] + r[1..];
    }
  }

  /** What a path gives, whatever it looks like: nothing when it is empty or starts with a zero character, otherwise the
      name behind its leading separators, up to the next one. */
  lemma NextNameSplits(r: seq<Wchar>)
    ensures var t := NextName(r);
      if r == [] || r[0] == 0 then t == Token(None, r, true, true)
      else
        && t.name.Some? && (exists n :: Splits(r, n, t.name.value, t.rest))
        && (t.last <==> t.rest == []) && (t.valid <==> |t.name.value| <= 256)
  {
    if r != [] && r[0] != 0 {
      var t, s := NextName(r), Stripped(r);
      var n := |r| - |s|;
      StrippedAt(r);
      assert r == r[..n] + s && s == t.name.value + t.rest;
      assert r == r[..n] + t.name.value + t.rest;
      assert Splits(r, n, t.name.value, t.rest);
    }
  }

  /** There is only one such split. */
  lemma SplitsOnce(r: seq<Wchar>, n: nat, name: seq<Wchar>, rest: seq<Wchar>, n': nat, name': seq<Wchar>,
                   rest': seq<Wchar>)
    requires Splits(r, n, name, rest) && Splits(r, n', name', rest')
    ensures name == name' && rest == rest'
  {
    SameStart(r, n, name, rest, n', name', rest');
    SameStart(r, n', name', rest', n, name, rest);
    assert name + rest == r[n..] == name' + rest';
    SameEnd(name, rest, name', rest');
    SameEnd(name', rest', name, rest);
    assert (name + rest)[..|name|] == name && (name' + rest')[..|name'|] == name';
    assert (name + rest)[|name|..] == rest && (name' + rest')[|name'|..] == rest';
  }

  lemma SameStart(r: seq<Wchar>, n: nat, name: seq<Wchar>, rest: seq<Wchar>, n': nat, name': seq<Wchar>,
                  rest': seq<Wchar>)
    requires Splits(r, n, name, rest) && Splits(r, n', name', rest')
    ensures n <= n'
  {
    assert r[n'..] == name' + rest';
    assert n' < |r| ==> r[n'] == (name' + rest')[0];
  }

  lemma SameEnd(name: seq<Wchar>, rest: seq<Wchar>, name': seq<Wchar>, rest': seq<Wchar>)
    requires name + rest == name' + rest' && Separable(name) && (rest' != [] ==> rest'[0] == SEPARATOR)
    ensures |name| <= |name'|
  {
    var whole := name + rest;
    assert forall i :: 0 <= i < |name| ==> whole[i] == name[i];
    assert |name'| < |whole| ==> whole[|name'|] == (name' + rest')[|name'|] == rest'[0];
  }

  /** CmpGetNextName. */
  method GetNextName(remaining: seq<Wchar>) returns (t: Token)
    ensures t == NextName(remaining)
    ensures remaining == [] || remaining[0] == 0 ==> t == Token(None, remaining, true, true)
    ensures remaining != [] && remaining[0] != 0 ==>
      t.name.Some? && exists n :: Splits(remaining, n, t.name.value, t.rest)
  {
    t := TakeName(remaining);
    NextNameSplits(remaining);
  }

  method TakeName(remaining: seq<Wchar>) returns (t: Token)
    ensures t == NextName(remaining)
  {
    if remaining == [] || remaining[0] == 0 {
      return Token(None, remaining, true, true);
    }
    var rest := remaining;
    while rest != [] && rest[0] == SEPARATOR
      invariant Stripped(rest) == Stripped(remaining)
      decreases |rest|
    {
      rest := rest[1..];
    }
    var name: seq<Wchar> := [];
    while rest != [] && rest[0] != SEPARATOR
      invariant name + Word(rest) == Word(Stripped(remaining)) && name + rest == Stripped(remaining)
      decreases |rest|
    {
      WordMore(rest);
      name, rest := name + [rest[0]], rest[1..];
    }
    assert Word(rest) == [];
    assert name == Word(Stripped(remaining)) && rest == Stripped(remaining)[|name|..];
    t := Token(Some(name), rest, rest == [], 2 * |name| <= MAX_NAME_BYTES);
  }

  lemma WordMore(r: seq<Wchar>)
    requires r != [] && r[0] != SEPARATOR
    ensures Word(r) == [r[0]] + Word(r[1..]) && r == [r[0]] + r[1..]
  {
  }

  lemma {:induction false} StrippedShorter(r: seq<Wchar>)
    ensures |Stripped(r)| <= |r| && (Stripped(r) != [] ==> Stripped(r)[0] != SEPARATOR)
    decreases |r|
  {
    if r != [] && r[0] == SEPARATOR {
      StrippedShorter(r[1..]);
    }
  }

  lemma RestShorter(r: seq<Wchar>)
    requires !NextName(r).last
    ensures |NextName(r).rest| < |r| && NextName(r).name.Some? && NextName(r).rest[0] == SEPARATOR
  {
    StrippedShorter(r);
    assert |Word(Stripped(r))| > 0;
  }

  /** The names a path gives until the last one is reached. */
  function Tokens(r: seq<Wchar>): seq<seq<Wchar>>
    decreases |r|
  {
    var t := NextName(r);
    if t.name.None? then []
    else if t.last then [t.name.value]
    else
      RestShorter(r);
      [t.name.value] + Tokens(t.rest)
  }

  // ----- the round trip

  predicate Separable(name: seq<Wchar>) {
    forall i :: 0 <= i < |name| ==> name[i] != SEPARATOR
  }

  /** The chains whose path can be taken apart again. */
  ghost predicate Clean(names: seq<seq<Wchar>>) {
    forall i :: 0 <= i < |names| ==> Separable(names[i]) && (i + 1 < |names| ==> names[i] != [])
  }

  lemma {:induction false} WordOf(name: seq<Wchar>, rest: seq<Wchar>)
    requires Separable(name) && (rest != [] ==> rest[0] == SEPARATOR)
    ensures Word(name + rest) == name
  {
    if name != [] {
      assert (name + rest)[1..] == name[1..] + rest;
      WordOf(name[1..], rest);
    } else {
      assert name + rest == rest;
    }
  }

  lemma FirstStripped(names: seq<seq<Wchar>>)
    requires names != [] && Separable(names[0]) && (|names| > 1 ==> names[0] != [])
    ensures Path(names) != [] && Stripped(Path(names)) == names[0] + Path(names[1..])
    ensures var rest := Path(names[1..]); (rest == [] <==> |names| == 1) && (rest != [] ==> rest[0] == SEPARATOR)
  {
    var rest := Path(names[1..]);
    var r := names[0] + rest;
    if names[0] != [] {
      assert r[0] == names[0][0];
    } else {
      assert r == rest == [];
    }
    StrippedOnce(r);
    assert Path(names) == [SEPARATOR] + r;
  }

  lemma StrippedOnce(r: seq<Wchar>)
    requires r != [] ==> r[0] != SEPARATOR
    ensures Stripped([SEPARATOR] + r) == r
  {
    assert ([SEPARATOR] + r)[1..] == r;
  }

  /** The first name of a path, and what is left. */
  lemma FirstName(names: seq<seq<Wchar>>)
    requires names != [] && Separable(names[0]) && (|names| > 1 ==> names[0] != [])
    ensures NextName(Path(names)) ==
      Token(Some(names[0]), Path(names[1..]), |names| == 1, 2 * |names[0]| <= MAX_NAME_BYTES)
  {
    var rest := Path(names[1..]);
    FirstStripped(names);
    WordOf(names[0], rest);
    assert (names[0] + rest)[|names[0]|..] == rest;
  }

  lemma {:induction false} TokensOfPath(names: seq<seq<Wchar>>)
    requires names != [] && Clean(names)
    ensures Tokens(Path(names)) == names
    decreases |names|, 1
  {
    FirstName(names);
    TokensFrom(Path(names), names);
  }

  /** When the first name is right, so are the others. */
  lemma {:induction false} TokensFrom(r: seq<Wchar>, names: seq<seq<Wchar>>)
    requires names != [] && Clean(names) && NextName(r).name == Some(names[0])
    requires NextName(r).rest == Path(names[1..]) && NextName(r).last == (|names| == 1)
    ensures Tokens(r) == names
    decreases |names|, 0
  {
    TokensStep(r, names[0], Path(names[1..]), |names| == 1);
    if |names| > 1 {
      CleanRest(names);
      TokensOfPath(names[1..]);
      assert names == [names[0]] + names[1..];
    } else {
      assert names == [names[0]];
    }
  }

  lemma CleanRest(names: seq<seq<Wchar>>)
    requires names != [] && Clean(names)
    ensures Clean(names[1..])
  {
    var rest := names[1..];
    forall i | 0 <= i < |rest|
      ensures Separable(rest[i]) && (i + 1 < |rest| ==> rest[i] != [])
    {
      assert rest[i] == names[i + 1];
    }
  }

  lemma TokensStep(r: seq<Wchar>, name: seq<Wchar>, rest: seq<Wchar>, last: bool)
    requires NextName(r).name == Some(name) && NextName(r).rest == rest && NextName(r).last == last
    ensures Tokens(r) == if last then [name] else [name] + Tokens(rest)
  {
  }

  /** Whatever path is taken apart, the names have no separators and only the last one can be empty. */
  lemma {:induction false} TokensClean(r: seq<Wchar>)
    ensures Clean(Tokens(r))
    decreases |r|
  {
    var t := NextName(r);
    if !t.last {
      RestShorter(r);
      TokensClean(t.rest);
      StrippedShorter(r);
      CleanMore(t.name.value, Tokens(t.rest));
    }
  }

  lemma CleanMore(name: seq<Wchar>, more: seq<seq<Wchar>>)
    requires Separable(name) && name != [] && Clean(more)
    ensures Clean([name] + more)
  {
    forall i | 0 <= i < 1 + |more|
      ensures Separable(([name] + more)[i]) && (i < |more| ==> ([name] + more)[i] != [])
    {
      if i > 0 {
        assert Separable(more[i - 1]) && (i < |more| ==> more[i - 1] != []);
      }
    }
  }

  /** Printing a chain's path and taking it apart gives the chain's names back exactly when no name contains a separator
      and none but the last is empty. */
  lemma RoundTrip(names: seq<seq<Wchar>>)
    requires names != []
    ensures Tokens(Path(names)) == names <==> Clean(names)
  {
    if Clean(names) {
      TokensOfPath(names);
    }
    TokensClean(Path(names));
  }

  // ----- paths that do not start with a separator

  /** The names below a key that is already open, as CmpWalkPath gets them. */
  function Relative(names: seq<seq<Wchar>>): seq<Wchar>
    requires names != []
  {
    names[0] + Path(names[1..])
  }

  lemma FirstOfRelative(names: seq<seq<Wchar>>)
    requires names != [] && Separable(names[0]) && names[0] != [] && names[0][0] != 0
    ensures NextName(Relative(names)) ==
      Token(Some(names[0]), Path(names[1..]), |names| == 1, 2 * |names[0]| <= MAX_NAME_BYTES)
  {
    var r, rest := Relative(names), Path(names[1..]);
    assert r[0] == names[0][0];
    assert rest == [] <==> |names| == 1;
    WordOf(names[0], rest);
    assert r[|names[0]|..] == rest;
  }

  lemma RelativeTokens(names: seq<seq<Wchar>>)
    requires names != [] && Clean(names) && names[0] != [] && names[0][0] != 0
    ensures Tokens(Relative(names)) == names
  {
    FirstOfRelative(names);
    TokensFrom(Relative(names), names);
  }

  lemma NoFirstName(names: seq<seq<Wchar>>)
    requires names != [] && (names[0] == [] || names[0][0] == 0)
    ensures Tokens(Relative(names)) == [] || !Clean(names)
  {
    var r := Relative(names);
    if names[0] != [] {
      assert r[0] == 0;
    } else if |names| == 1 {
      assert r == [];
    } else {
      assert !(Separable(names[0]) && (0 + 1 < |names| ==> names[0] != []));
    }
  }

  /** They come back too, exactly when moreover the first one is there and does not start with a zero character. */
  lemma RelativeRoundTrip(names: seq<seq<Wchar>>)
    requires names != []
    ensures Tokens(Relative(names)) == names <==> Clean(names) && names[0] != [] && names[0][0] != 0
  {
    TokensClean(Relative(names));
    if names[0] == [] || names[0][0] == 0 {
      NoFirstName(names);
    } else if Clean(names) {
      RelativeTokens(names);
    }
  }

  /** What the call after the last name reports. */
  function Ending(r: seq<Wchar>): Token
    decreases |r|
  {
    var t := NextName(r);
    if t.last then NextName(t.rest)
    else
      RestShorter(r);
      Ending(t.rest)
  }

  lemma {:induction false} EndMarker(names: seq<seq<Wchar>>)
    requires names != [] && Clean(names)
    ensures Ending(Path(names)) == Token(None, [], true, true)
    decreases |names|
  {
    FirstName(names);
    if |names| > 1 {
      EndMarker(names[1..]);
    }
  }
}
