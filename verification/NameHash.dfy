/** Hashing of registry names, ntoskrnl/config/cmkcbncb.c and ntoskrnl/include/internal/cm_x.h. The case mapping up
    stands for RtlUpcaseUnicodeChar. */
module NameHash {
  type Wchar = c: nat | c < 0x1_0000

  const SEPARATOR: Wchar := 0x5C

  /** GET_HASH_INDEX, in 32-bit arithmetic. */
  function HashIndex(convKey: nat): nat {
    ((314159269 * convKey) % 0x1_0000_0000) % 1000000007 % 2048
  }

  function HashStep(up: Wchar -> Wchar, h: nat, c: Wchar): nat {
    if c == SEPARATOR then h else (37 * h + up(c)) % 0x1_0000_0000
  }

  /** The hash of the first n characters, on top of the hash of what comes before. */
  function HashPrefix(up: Wchar -> Wchar, seed: nat, name: seq<Wchar>, n: nat): nat
    requires n <= |name|
  {
    if n == 0 then seed else HashStep(up, HashPrefix(up, seed, name, n - 1), name[n - 1])
  }

  function ConvKey(up: Wchar -> Wchar, seed: nat, name: seq<Wchar>): nat {
    HashPrefix(up, seed, name, |name|)
  }

  method ComputeConvKey(up: Wchar -> Wchar, seed: nat, name: seq<Wchar>) returns (h: nat)
    ensures h == ConvKey(up, seed, name)
  {
    h := seed;
    for i := 0 to |name|
      invariant h == HashPrefix(up, seed, name, i)
    {
      if name[i] != SEPARATOR {
        h := (37 * h + up(name[i])) % 0x1_0000_0000;
      }
    }
  }

  /** Leading separators do not belong to a key's name. */
  function Stripped(name: seq<Wchar>): seq<Wchar> {
    if name != [] && name[0] == SEPARATOR then Stripped(name[1..]) else name
  }

  method StripSeparators(name: seq<Wchar>) returns (rest: seq<Wchar>)
    ensures rest == Stripped(name)
  {
    rest := name;
    while rest != [] && rest[0] == SEPARATOR
      invariant Stripped(rest) == Stripped(name)
      decreases |rest|
    {
      rest := rest[1..];
    }
  }

  /** They do not change the hash either. */
  lemma {:induction false} StrippedHash(up: Wchar -> Wchar, seed: nat, name: seq<Wchar>)
    ensures ConvKey(up, seed, Stripped(name)) == ConvKey(up, seed, name)
    decreases |name|
  {
    if name != [] && name[0] == SEPARATOR {
      StrippedHash(up, seed, name[1..]);
      assert name == [name[0]] + name[1..];
      KeyHash(up, seed, [name[0]], name[1..]);
      assert HashPrefix(up, seed, [name[0]], 0) == seed;
    }
  }

  /** The hash of a key, computed from its parent's hash and its own name, is the hash of the whole path; separators do
      not count. */
  lemma KeyHash(up: Wchar -> Wchar, seed: nat, path: seq<Wchar>, name: seq<Wchar>)
    ensures ConvKey(up, seed, path + name) == ConvKey(up, ConvKey(up, seed, path), name)
    ensures ConvKey(up, seed, path + [SEPARATOR] + name) == ConvKey(up, seed, path + name)
  {
    HashOfPath(up, seed, path, name, |name|);
    HashOfPath(up, seed, path + [SEPARATOR], name, |name|);
    HashOfPath(up, seed, path, [SEPARATOR], 1);
  }

  lemma {:induction false} HashOfPath(up: Wchar -> Wchar, seed: nat, path: seq<Wchar>, name: seq<Wchar>, n: nat)
    requires n <= |name|
    ensures HashPrefix(up, seed, path + name, |path| + n) == HashPrefix(up, ConvKey(up, seed, path), name, n)
  {
    if n > 0 {
      HashOfPath(up, seed, path, name, n - 1);
    } else {
      SameHash(up, up, seed, path, path + name, |path|);
    }
  }

  /** Names that agree after case mapping, separators included, hash alike. */
  lemma {:induction false} SameHash(up: Wchar -> Wchar, up': Wchar -> Wchar, seed: nat, a: seq<Wchar>, b: seq<Wchar>,
                                    n: nat)
    requires n <= |a| && n <= |b| && forall i :: 0 <= i < n ==>
      up(a[i]) == up'(b[i]) && (a[i] == SEPARATOR <==> b[i] == SEPARATOR)
    ensures HashPrefix(up, seed, a, n) == HashPrefix(up', seed, b, n)
  {
    if n > 0 {
      SameHash(up, up', seed, a, b, n - 1);
    }
  }

  function Power(n: nat): nat {
    if n == 0 then 1 else 37 * Power(n - 1)
  }

  /** The characters of a name as the digits of a number to the base 37, the first one the most significant. */
  function Digits(up: Wchar -> Wchar, name: seq<Wchar>): nat {
    if name == [] then 0 else up(name[0]) * Power(|name| - 1) + Digits(up, name[1..])
  }

  /** The hash of a name without separators is that number on top of the seed, in 32 bits. */
  lemma {:induction false} HashOfDigits(up: Wchar -> Wchar, seed: nat, name: seq<Wchar>)
    requires seed < 0x1_0000_0000 && SEPARATOR !in name
    ensures ConvKey(up, seed, name) == (seed * Power(|name|) + Digits(up, name)) % 0x1_0000_0000
    decreases |name|
  {
    if name != [] {
      var c, rest := name[0], name[1..];
      var h := (37 * seed + up(c)) % 0x1_0000_0000;
      assert name == [c] + rest;
      KeyHash(up, seed, [c], rest);
      assert ConvKey(up, seed, [c]) == HashStep(up, HashPrefix(up, seed, [c], 0), c) == h;
      HashOfDigits(up, h, rest);
      ModuloInside(37 * seed + up(c), Power(|rest|), Digits(up, rest));
      Distribute(seed, up(c), Power(|rest|));
    }
  }

  lemma ModuloInside(a: nat, b: nat, c: nat)
    ensures (a % 0x1_0000_0000 * b + c) % 0x1_0000_0000 == (a * b + c) % 0x1_0000_0000
  {
    var q, r := a / 0x1_0000_0000, a % 0x1_0000_0000;
    assert a * b == 0x1_0000_0000 * (q * b) + r * b;
  }

  lemma Distribute(seed: nat, c: nat, p: nat)
    ensures (37 * seed + c) * p == seed * (37 * p) + c * p
  {
  }
}
