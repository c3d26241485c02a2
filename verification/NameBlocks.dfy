/** The table of shared key names, ntoskrnl/config/cmkcbncb.c with the comparison of sdk/lib/cmlib/cmname.c. A name made
    of 8-bit characters only is stored compressed, one byte a character. */
module NameBlocks {
  import opened NameHash

  /** A name control block; a compressed name holds bytes. */
  datatype Ncb = Ncb(compressed: bool, refs: nat, convKey: nat, length: nat, name: seq<Wchar>)

  predicate Narrow(c: Wchar) {
    c <= 0xFF
  }

  predicate AllNarrow(name: seq<Wchar>) {
    forall i :: 0 <= i < |name| ==> Narrow(name[i])
  }

  function Upcased(up: Wchar -> Wchar, name: seq<Wchar>): (r: seq<Wchar>)
    ensures |r| == |name| && forall i :: 0 <= i < |name| ==> r[i] == up(name[i])
  {
    seq(|name|, i requires 0 <= i < |name| => up(name[i]))
  }

  /** NameLength: characters of a compressed name, bytes of any other. */
  function LengthOf(name: seq<Wchar>): nat {
    if AllNarrow(name) then |name| else 2 * |name|
  }

  /** What is stored for a character: the case-mapped character, cut to a byte in a compressed name. */
  function StoredChar(up: Wchar -> Wchar, compressed: bool, c: Wchar): Wchar {
    if compressed then up(c) % 0x100 else up(c)
  }

  /** The block made for a name. */
  function NewBlock(up: Wchar -> Wchar, name: seq<Wchar>): (b: Ncb) {
    var narrow := AllNarrow(name);
    Ncb(narrow, 1, ConvKey(up, 0, name), LengthOf(name),
      seq(|name|, i requires 0 <= i < |name| => StoredChar(up, narrow, name[i])))
  }

  /** How a character of a name is compared with a stored one. */
  predicate SameChar(up: Wchar -> Wchar, compressed: bool, c: Wchar, stored: Wchar) {
    (compressed && c == stored) || up(c) == up(stored)
  }

  /** The names compare equal, as far as the comparison goes: it walks the stored characters. */
  predicate SameName(up: Wchar -> Wchar, name: seq<Wchar>, b: Ncb) {
    && (b.compressed ==> |name| == |b.name|)
    && |b.name| <= |name|
    && forall i :: 0 <= i < |b.name| ==> SameChar(up, b.compressed, name[i], b.name[i])
  }

  predicate Accepts(up: Wchar -> Wchar, name: seq<Wchar>, b: Ncb) {
    b.convKey == ConvKey(up, 0, name) && b.length == LengthOf(name) && SameName(up, name, b)
  }

  /** The lengths a block can have. */
  predicate Sized(b: Ncb) {
    b.length == if b.compressed then |b.name| else 2 * |b.name|
  }

  // ----- the comparisons

  /** The names agree in case-mapped characters up to place k and differ there. */
  predicate DifferAt(up: Wchar -> Wchar, a: seq<Wchar>, b: seq<Wchar>, k: nat) {
    && k < |a| && k < |b| && up(a[k]) != up(b[k])
    && forall i :: 0 <= i < k ==> up(a[i]) == up(b[i])
  }

  /** CmpCompareCompressedName: the difference of the first characters that differ after case mapping, and that of the
      lengths where there are none; zero means equal. */
  method CompareCompressed(up: Wchar -> Wchar, name: seq<Wchar>, stored: seq<Wchar>) returns (result: int)
    ensures result == 0 <==>
      |name| == |stored| && forall i :: 0 <= i < |name| ==> SameChar(up, true, name[i], stored[i])
    ensures forall k: nat | DifferAt(up, name, stored, k) :: result == up(name[k]) - up(stored[k])
    ensures (forall k: nat :: !DifferAt(up, name, stored, k)) ==> result == |name| - |stored|
  {
    var i := 0;
    while i < |name| && i < |stored|
      invariant i <= |name| && i <= |stored|
      invariant forall j :: 0 <= j < i ==> SameChar(up, true, name[j], stored[j])
    {
      if name[i] != stored[i] {
        result := up(name[i]) - up(stored[i]);
        if result != 0 {
          assert !SameChar(up, true, name[i], stored[i]);
          assert DifferAt(up, name, stored, i);
          assert forall k: nat :: DifferAt(up, name, stored, k) ==> !(k < i) && !(i < k);
          return;
        }
      }
      i := i + 1;
    }
    result := |name| - |stored|;
  }

  /** The comparison with an uncompressed name never reads past the end of the name, whichever kind the name is. */
  method CompareWide(up: Wchar -> Wchar, name: seq<Wchar>, b: Ncb) returns (same: bool)
    requires !b.compressed && Sized(b) && b.length == LengthOf(name)
    ensures same <==> SameName(up, name, b)
  {
    var i := 0;
    while i < |b.name|
      invariant i <= |b.name| <= |name|
      invariant forall j :: 0 <= j < i ==> SameChar(up, false, name[j], b.name[j])
    {
      if up(name[i]) != up(b.name[i]) {
        assert !SameChar(up, false, name[i], b.name[i]);
        return false;
      }
      i := i + 1;
    }
    same := true;
  }

  /** The test at one entry of the chain. */
  method TestEntry(up: Wchar -> Wchar, name: seq<Wchar>, convKey: nat, length: nat, b: Ncb) returns (same: bool)
    requires convKey == ConvKey(up, 0, name) && length == LengthOf(name) && Sized(b)
    ensures same <==> Accepts(up, name, b)
  {
    if convKey != b.convKey || length != b.length {
      return false;
    }
    if b.compressed {
      var result := CompareCompressed(up, name, b.name);
      same := result == 0;
    } else {
      same := CompareWide(up, name, b);
    }
  }

  /** The two loops that look at a name before the table is searched. */
  method Measure(name: seq<Wchar>) returns (narrow: bool, length: nat)
    ensures narrow <==> AllNarrow(name)
    ensures length == LengthOf(name)
  {
    narrow, length := true, |name|;
    var i := 0;
    while i < |name| && narrow
      invariant i <= |name|
      invariant narrow ==> length == |name| && forall j :: 0 <= j < i ==> Narrow(name[j])
      invariant !narrow ==> length == 2 * |name| && !AllNarrow(name)
      decreases |name| - i, narrow
    {
      if name[i] > 0xFF {
        assert !Narrow(name[i]);
        narrow, length := false, 2 * |name|;
      } else {
        i := i + 1;
      }
    }
  }

  // ----- when interning works

  /** A character whose stored form still compares equal to it. */
  predicate Stable(up: Wchar -> Wchar, compressed: bool, c: Wchar) {
    SameChar(up, compressed, c, StoredChar(up, compressed, c))
  }

  /** A name is found again in the block made for it exactly when each of its characters survives being stored. */
  lemma FoundAgain(up: Wchar -> Wchar, name: seq<Wchar>)
    ensures Accepts(up, name, NewBlock(up, name)) <==>
      forall i :: 0 <= i < |name| ==> Stable(up, AllNarrow(name), name[i])
  {
    var b := NewBlock(up, name);
    assert forall i :: 0 <= i < |name| ==>
      (SameChar(up, b.compressed, name[i], b.name[i]) <==> Stable(up, AllNarrow(name), name[i]));
  }

  /** With the case mapping that takes the letter y with diaeresis to its capital outside the 8-bit range, that letter
      is not found again. */
  lemma TruncationLosesAName(up: Wchar -> Wchar)
    requires up(0xFF) == 0x178 && up(0x78) == 0x58
    ensures !Accepts(up, [0xFF], NewBlock(up, [0xFF]))
  {
    FoundAgain(up, [0xFF]);
    assert !Stable(up, true, [0xFF][0]);
  }

  /** A character with which interning works: it is mapped no further when mapped twice, stays 8-bit or wide, and does
      not turn into or from the separator. */
  predicate TameChar(up: Wchar -> Wchar, c: Wchar) {
    up(up(c)) == up(c) && (Narrow(up(c)) <==> Narrow(c)) && (up(c) == SEPARATOR <==> c == SEPARATOR)
  }

  predicate Tame(up: Wchar -> Wchar, name: seq<Wchar>) {
    forall i :: 0 <= i < |name| ==> TameChar(up, name[i])
  }

  /** A block made for a name of such characters accepts exactly those of these names that are equal to it after case
      mapping, whatever the mapping does to other characters. */
  lemma AcceptsExactly(up: Wchar -> Wchar, name: seq<Wchar>, made: seq<Wchar>)
    requires Tame(up, name) && Tame(up, made)
    ensures Accepts(up, name, NewBlock(up, made)) <==> Upcased(up, name) == Upcased(up, made)
  {
    if Upcased(up, name) == Upcased(up, made) {
      AcceptsEqual(up, name, made);
    } else if Accepts(up, name, NewBlock(up, made)) {
      OnlyEqualAccepted(up, name, made);
    }
  }

  lemma AcceptsEqual(up: Wchar -> Wchar, name: seq<Wchar>, made: seq<Wchar>)
    requires Tame(up, name) && Tame(up, made) && Upcased(up, name) == Upcased(up, made)
    ensures Accepts(up, name, NewBlock(up, made))
  {
    var b := NewBlock(up, made);
    forall i | 0 <= i < |name|
      ensures up(name[i]) == up(made[i]) && Narrow(name[i]) == Narrow(made[i])
      ensures (name[i] == SEPARATOR <==> made[i] == SEPARATOR) && SameChar(up, b.compressed, name[i], b.name[i])
    {
      assert up(name[i]) == Upcased(up, name)[i] == Upcased(up, made)[i] == up(made[i]);
      assert TameChar(up, name[i]) && TameChar(up, made[i]);
    }
    assert AllNarrow(name) == AllNarrow(made);
    SameHash(up, up, 0, name, made, |name|);
  }

  /** An 8-bit name of twice the length is compared with half of its characters only, but never with success. */
  lemma OnlyEqualAccepted(up: Wchar -> Wchar, name: seq<Wchar>, made: seq<Wchar>)
    requires Tame(up, name) && Tame(up, made) && Accepts(up, name, NewBlock(up, made))
    ensures Upcased(up, name) == Upcased(up, made)
  {
    var b := NewBlock(up, made);
    forall i | 0 <= i < |made|
      ensures up(name[i]) == up(made[i]) && Narrow(name[i]) == Narrow(made[i])
    {
      assert SameChar(up, b.compressed, name[i], b.name[i]) && TameChar(up, name[i]) && TameChar(up, made[i]);
    }
    if !AllNarrow(made) {
      var i :| 0 <= i < |made| && !Narrow(made[i]);
      assert !Narrow(name[i]);
    }
    assert |name| == |made|;
  }
}
