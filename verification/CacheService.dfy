/** Any run of the cache, seen from its callers: for every sequence of requests the cache answers as a flat array of
    bytes per file would, however the disk, the memory manager and the callers' buffers fail, until a disk transfer that
    ended at the end of the file leaves other bytes than it should. */
module CacheService {
  import opened CacheState
  import opened CacheContent
  import opened CacheTransfer
  import opened CacheCopy
  import opened CacheSteps
  import opened CacheManager

  datatype Request =
    | ReadRange(f: nat, offset: nat, length: nat, accessible: nat, wait: bool)
    | WriteRange(f: nat, offset: nat, bytes: seq<Byte>, accessible: nat, wait: bool)
    | ZeroRange(f: nat, offset: nat, length: nat, wait: bool)
    | WriteBack(target: nat, lazy: bool, lockable: set<nat>, outcomes: seq<WriteOutcome>)
    | FlushRange(f: nat, offset: nat, length: nat, results: nat -> WriteOutcome)
    | Trim(target: nat, lockable: set<nat>, outcomes: seq<WriteOutcome>)
    | Prune

  /** How much was copied, what a read saw, and what a write that the caller's buffer cut short left behind
      its bytes. */
  datatype Reply = Reply(copied: nat, output: seq<Byte>, foreign: seq<Byte>)

  ghost predicate Sensible(r: Request, flat: map<nat, seq<Byte>>) {
    match r
    case ReadRange(f, _, _, _, _) => f in flat
    case WriteRange(f, _, _, _, _) => f in flat
    case ZeroRange(f, _, _, _) => f in flat
    case WriteBack(_, _, _, outcomes) => forall i :: 0 <= i < |outcomes| ==> OutcomeOk(outcomes[i])
    case FlushRange(f, _, _, results) => f in flat && forall k :: OutcomeOk(results(k))
    case Trim(_, _, outcomes) => forall i :: 0 <= i < |outcomes| ==> OutcomeOk(outcomes[i])
    case Prune => true
  }

  /** No write-back of the request ends at the end of the file. */
  ghost predicate Calm(r: Request) {
    match r
    case WriteBack(_, _, _, outcomes) => forall i :: 0 <= i < |outcomes| ==> !outcomes[i].WriteEnd?
    case FlushRange(_, _, _, results) => forall k :: !results(k).WriteEnd?
    case Trim(_, _, outcomes) => forall i :: 0 <= i < |outcomes| ==> !outcomes[i].WriteEnd?
    case _ => true
  }

  /** What a flat file would have answered. */
  ghost predicate Answers(flat: map<nat, seq<Byte>>, r: Request, reply: Reply)
    requires Sensible(r, flat)
  {
    match r
    case ReadRange(f, offset, length, _, _) =>
      |reply.output| == reply.copied <= length && Shows(reply.output, flat[f], offset)
    case WriteRange(_, _, bytes, accessible, _) =>
      reply.copied <= |bytes| && (reply.foreign != [] ==> accessible < |bytes|)
    case ZeroRange(_, _, length, _) => reply.copied <= length
    case _ => true
  }

  /** The whole range was served; a cache does so when it may wait, memory, mappings and disk reads last and the range
      lies inside the section. */
  ghost predicate Whole(flat: map<nat, seq<Byte>>, r: Request, reply: Reply)
    requires Sensible(r, flat)
  {
    match r
    case ReadRange(f, offset, length, accessible, wait) =>
      wait && length <= accessible && offset + length <= |flat[f]| ==> reply.copied == length
    case WriteRange(f, offset, bytes, accessible, wait) =>
      wait && |bytes| <= accessible && offset + |bytes| <= |flat[f]| ==> reply.copied == |bytes|
    case ZeroRange(f, offset, length, wait) => wait && offset + length <= |flat[f]| ==> reply.copied == length
    case _ => true
  }

  /** What happens to flat files: writes patch the bytes they report, with the foreign ones behind them, and nothing
      else changes anything. */
  ghost function Effect(flat: map<nat, seq<Byte>>, r: Request, reply: Reply): map<nat, seq<Byte>>
    requires Sensible(r, flat) && Answers(flat, r, reply)
  {
    match r
    case WriteRange(f, offset, bytes, _, _) => flat[f := Patch(flat[f], offset, bytes[..reply.copied] + reply.foreign)]
    case ZeroRange(f, offset, _, _) => flat[f := Patch(flat[f], offset, seq(reply.copied, _ => 0))]
    case _ => flat
  }

  /** The replies are those of flat files that start as flat and end as last, and with enough resources they are
      whole. */
  ghost predicate Explains(flat: map<nat, seq<Byte>>, requests: seq<Request>, replies: seq<Reply>,
                           last: map<nat, seq<Byte>>, kind: bool)
    decreases |requests|
  {
    && |replies| == |requests|
    && if requests == [] then last == flat
       else
         && Sensible(requests[0], flat) && Answers(flat, requests[0], replies[0])
           && (kind ==> Whole(flat, requests[0], replies[0]))
         && Explains(Effect(flat, requests[0], replies[0]), requests[1..], replies[1..], last, kind)
  }

  /** What serving one request leaves behind. */
  ghost predicate Served(flat: map<nat, seq<Byte>>, now: map<nat, seq<Byte>>, r: Request, reply: Reply)
    requires Sensible(r, flat)
  {
    Answers(flat, r, reply) && now == Effect(flat, r, reply)
  }

  method ServeOne(cc: Cc, r: Request, env: nat -> Environment) returns (reply: Reply)
    requires cc.Valid() && Sensible(r, Flat(cc.State())) && forall k :: EnvironmentOk(env(k))
    modifies cc
    ensures cc.Valid() && cc.holders == old(cc.holders) && SameSections(old(cc.State()), cc.State())
    ensures (old(cc.astray) ==> cc.astray)
    ensures (Calm(r) && (forall k :: !env(k).read.ReadEnd?) ==> cc.astray == old(cc.astray))
    ensures !cc.astray ==> Served(old(Flat(cc.State())), Flat(cc.State()), r, reply)
    ensures !cc.astray && (forall k :: Kind(env(k))) ==> Whole(old(Flat(cc.State())), r, reply)
  {
    match r {
      case ReadRange(_, _, _, _, _) => reply := ServeRead(cc, r, env);
      case WriteRange(_, _, _, _, _) => reply := ServeWrite(cc, r, env);
      case ZeroRange(_, _, _, _) => reply := ServeZero(cc, r, env);
      case WriteBack(target, lazy, lockable, outcomes) =>
        var count, _ := cc.FlushDirtyPages(target, lazy, lockable, outcomes, {});
        assert cc.Fresh();
        reply := Reply(0, [], []);
      case FlushRange(f, offset, length, results) =>
        var ok := cc.FlushCache(f, offset, length, results);
        reply := Reply(0, [], []);
      case Trim(target, lockable, outcomes) =>
        var freed, _ := cc.TrimCache(target, lockable, outcomes);
        reply := Reply(0, [], []);
      case Prune =>
        var freed := cc.FreeUnusedVacb();
        reply := Reply(0, [], []);
    }
  }

  method ServeRead(cc: Cc, r: Request, env: nat -> Environment) returns (reply: Reply)
    requires cc.Valid() && r.ReadRange? && Sensible(r, Flat(cc.State())) && forall k :: EnvironmentOk(env(k))
    modifies cc
    ensures cc.Valid() && cc.holders == old(cc.holders) && SameSections(old(cc.State()), cc.State())
    ensures (old(cc.astray) ==> cc.astray) && ((forall k :: !env(k).read.ReadEnd?) ==> cc.astray == old(cc.astray))
    ensures !cc.astray ==> Served(old(Flat(cc.State())), Flat(cc.State()), r, reply)
    ensures !cc.astray && (forall k :: Kind(env(k))) ==> Whole(old(Flat(cc.State())), r, reply)
  {
    ghost var flat := Flat(cc.State());
    var _, copied, output, _ :=
      cc.CopyData(r.f, r.offset, r.length, Read, Zeros(r.length), r.accessible, r.wait, env);
    PatchNothing(flat[r.f], r.offset);
    assert flat[r.f := flat[r.f]] == flat;
    reply := Reply(copied, output, []);
  }

  method ServeWrite(cc: Cc, r: Request, env: nat -> Environment) returns (reply: Reply)
    requires cc.Valid() && r.WriteRange? && Sensible(r, Flat(cc.State())) && forall k :: EnvironmentOk(env(k))
    modifies cc
    ensures cc.Valid() && cc.holders == old(cc.holders) && SameSections(old(cc.State()), cc.State())
    ensures (old(cc.astray) ==> cc.astray) && ((forall k :: !env(k).read.ReadEnd?) ==> cc.astray == old(cc.astray))
    ensures !cc.astray ==> Served(old(Flat(cc.State())), Flat(cc.State()), r, reply)
    ensures !cc.astray && (forall k :: Kind(env(k))) ==> Whole(old(Flat(cc.State())), r, reply)
  {
    var _, copied, _, foreign :=
      cc.CopyData(r.f, r.offset, |r.bytes|, Write, r.bytes, r.accessible, r.wait, env);
    reply := Reply(copied, [], foreign);
  }

  method ServeZero(cc: Cc, r: Request, env: nat -> Environment) returns (reply: Reply)
    requires cc.Valid() && r.ZeroRange? && Sensible(r, Flat(cc.State())) && forall k :: EnvironmentOk(env(k))
    modifies cc
    ensures cc.Valid() && cc.holders == old(cc.holders) && SameSections(old(cc.State()), cc.State())
    ensures (old(cc.astray) ==> cc.astray) && ((forall k :: !env(k).read.ReadEnd?) ==> cc.astray == old(cc.astray))
    ensures !cc.astray ==> Served(old(Flat(cc.State())), Flat(cc.State()), r, reply)
    ensures !cc.astray && (forall k :: Kind(env(k))) ==> Whole(old(Flat(cc.State())), r, reply)
  {
    var _, copied, _, _ := cc.CopyData(r.f, r.offset, r.length, Zero, Zeros(r.length), 0, r.wait, env);
    assert Zeros(copied) + [] == seq(copied, _ => 0);
    reply := Reply(copied, [], []);
  }

  /** Cache coherence over every run in which nothing has gone astray, and that nothing does so without a transfer that
      ends at the end of the file. */
  method Serve(cc: Cc, requests: seq<Request>, env: (nat, nat) -> Environment,
               ghost kind: bool) returns (replies: seq<Reply>)
    requires cc.Valid() && forall i, k :: EnvironmentOk(env(i, k)) && (kind ==> Kind(env(i, k)))
    requires forall i :: 0 <= i < |requests| ==> Sensible(requests[i], Flat(cc.State()))
    modifies cc
    ensures cc.Valid() && cc.holders == old(cc.holders)
    ensures (old(cc.astray) ==> cc.astray)
    ensures (forall i :: 0 <= i < |requests| ==> Calm(requests[i])) && (forall i, k :: !env(i, k).read.ReadEnd?) ==>
      cc.astray == old(cc.astray)
    ensures !cc.astray ==> Explains(old(Flat(cc.State())), requests, replies, Flat(cc.State()), kind)
    decreases |requests|
  {
    if requests == [] {
      return [];
    }
    var first := ServeOne(cc, requests[0], (k: nat) => env(0, k));
    var rest := Serve(cc, requests[1..], (i: nat, k: nat) => env(i + 1, k), kind);
    replies := [first] + rest;
  }
}
