/** One Redis node and the repository bound to it.

    `MemberRepository`, `MemberRedisServer1Repository` and
    `MemberRedisServer3Repository` (and the server-2 repository the facade
    uses) are copies of one design that differ only in the template they are
    bound to and in the names of the pipelined methods (`setByPipeline` /
    `getByPipeline` in `MemberRepository`, `setUsingPipeline` /
    `getUsingPipeline` in the others). `CacheNode` is that design once; each
    instance stands for one repository together with the key space of its
    Redis node. */
module CacheStore {
  import opened Outcomes
  import opened Domain
  import Codec
  import Per

  datatype TimeUnit = Milliseconds | Seconds

  /** The expiry the node records for an accepted write of `expireTime` in
      `unit` (only accepted writes, whose `expireTime` is positive, use it). */
  function TtlMs(expireTime: int, unit: TimeUnit): nat
  {
    if expireTime <= 0 then 0
    else match unit
      case Milliseconds => expireTime
      case Seconds => expireTime * 1000
  }

  datatype Expiry = Persistent | ExpiresIn(ms: nat)

  /** What the node holds under one key: the stored text and its remaining TTL. */
  datatype Entry = Entry(value: string, expiry: Expiry)

  type Store = map<string, Entry>

  /** What the environment decides for one read: the PER draw `ln(U)` and
      whether the backend throws instead of answering. One fault stands for
      both backend calls of a read (`getExpire`, then `get`), and it is raised
      before the PER test. */
  datatype CallEnv = CallEnv(lnDraw: Per.LogDraw, fault: Option<ErrorKind>)

  /** A pipelined write whose `at`-th `set` throws `kind`. */
  datatype PipelineFault = PipelineFault(at: nat, kind: ErrorKind)

  /** `getExpire(key, MILLISECONDS)`: -2 for a missing key, -1 for a key
      without expiry, the remaining milliseconds otherwise. */
  function GetExpireMs(s: Store, key: string): (ms: int)
    ensures ms == -2 <==> key !in s
    ensures ms == -1 <==> key in s && s[key].expiry.Persistent?
    ensures ms >= 0 <==> key in s && s[key].expiry.ExpiresIn?
    ensures key in s && s[key].expiry.ExpiresIn? ==> ms == s[key].expiry.ms
  {
    if key !in s then -2
    else match s[key].expiry
      case Persistent => -1
      case ExpiresIn(ms) => ms
  }

  /** `shouldRefreshKey(key)` with its default window of 3000 ms. */
  function ShouldRefreshKey(s: Store, key: string, lnDraw: Per.LogDraw): (r: bool)
    ensures r ==> key in s && s[key].expiry.ExpiresIn?
    ensures key in s && s[key].expiry == ExpiresIn(0) ==> r
  {
    Per.ShouldRefresh(GetExpireMs(s, key), Per.DefaultExpireTimeGapMs, Per.DefaultBeta, lnDraw)
  }

  /** `get(key, Member::class.java)`: null when the PER test fires, null when
      the stored text is absent or blank, the decoded member otherwise. */
  function Lookup(s: Store, key: string, env: CallEnv): Outcome<Option<Member>>
  {
    if env.fault.Some? then Thrown(env.fault.value)
    else if ShouldRefreshKey(s, key, env.lnDraw) then Done(None)
    else if key !in s || Codec.IsBlank(s[key].value) then Done(None)
    else match Codec.Decode(s[key].value)
      case Some(m) => Done(Some(m))
      case None => Thrown(DecodeFailure)
  }

  /** The exception a single `set` raises, if any: the backend's own failure,
      or Redis refusing a non-positive expire time. */
  function SetError(expireTime: int, fault: Option<ErrorKind>): Option<ErrorKind>
  {
    if fault.Some? then fault
    else if expireTime <= 0 then Some(OtherBackendFailure)
    else None
  }

  /** The node after an accepted `set(key, m, ...)`. */
  function Put(s: Store, key: string, m: Member, ttlMs: nat): Store
  {
    s[key := Entry(Codec.Encode(m), ExpiresIn(ttlMs))]
  }

  /** The node after `set` has been applied to each pair in list order. */
  function PutAll(s: Store, pairs: seq<(string, Member)>, ttlMs: nat): Store
  {
    if |pairs| == 0 then s
    else
      var last := pairs[|pairs| - 1];
      Put(PutAll(s, pairs[..|pairs| - 1], ttlMs), last.0, last.1, ttlMs)
  }

  /** The value of the last pair listed under `key`, if any. */
  function LastFor(pairs: seq<(string, Member)>, key: string): Option<Member>
  {
    if |pairs| == 0 then None
    else if pairs[|pairs| - 1].0 == key then Some(pairs[|pairs| - 1].1)
    else LastFor(pairs[..|pairs| - 1], key)
  }

  /** The fault, if any, that the `i`-th `set` of a pipelined write meets. */
  function FaultAt(fault: Option<PipelineFault>, i: nat): Option<ErrorKind>
  {
    if fault.Some? && fault.value.at == i then Some(fault.value.kind) else None
  }

  /** How many pairs of a pipelined write of `n` pairs are applied before the
      first `set` that throws; `n` when none throws. */
  function PipelineStop(n: nat, expireTime: int, fault: Option<PipelineFault>): (stop: nat)
    ensures stop <= n
    ensures forall i :: 0 <= i < stop ==> SetError(expireTime, FaultAt(fault, i)).None?
    ensures stop < n ==> SetError(expireTime, FaultAt(fault, stop)).Some?
  {
    if expireTime <= 0 then 0
    else if fault.Some? && fault.value.at < n then fault.value.at
    else n
  }

  /** The exception a pipelined write of `n` pairs raises, if any. */
  function PipelineError(n: nat, expireTime: int, fault: Option<PipelineFault>): Option<ErrorKind>
  {
    var stop := PipelineStop(n, expireTime, fault);
    if stop < n then SetError(expireTime, FaultAt(fault, stop)) else None
  }

  /** The possible answers of a pipelined read: one `get` result per key in
      key order, or the exception of some key whose `get` threw (`awaitAll`
      reports whichever failure it meets first). */
  predicate BulkRead(s: Store, keys: seq<string>, envs: seq<CallEnv>, r: Outcome<seq<Option<Member>>>)
    requires |envs| == |keys|
  {
    match r
    case Done(values) =>
      |values| == |keys| && forall j :: 0 <= j < |keys| ==> Lookup(s, keys[j], envs[j]) == Done(values[j])
    case Thrown(k) =>
      exists j :: 0 <= j < |keys| && Lookup(s, keys[j], envs[j]) == Thrown(k)
  }

  class CacheNode {
    var entries: Store

    constructor (initial: Store)
      ensures entries == initial
    {
      entries := initial;
    }

    /** `set(key, value, expireTime, timeUnit)`: stores the encoded member
        under `key` with its TTL and touches no other key; a failing call
        changes nothing. */
    method Set(key: string, value: Member, expireTime: int, unit: TimeUnit, fault: Option<ErrorKind>)
      returns (r: Outcome<()>)
      modifies this
      ensures r.Thrown? <==> SetError(expireTime, fault).Some?
      ensures r.Thrown? ==> r.error == SetError(expireTime, fault).value
      ensures entries == if r.Done? then Put(old(entries), key, value, TtlMs(expireTime, unit)) else old(entries)
    {
      var error := SetError(expireTime, fault);
      if error.Some? {
        r := Thrown(error.value);
      } else {
        entries := Put(entries, key, value, TtlMs(expireTime, unit));
        r := Done(());
      }
    }

    /** `setUsingPipeline` / `setByPipeline`: `set` on each pair in list
        order; the first `set` that throws ends the walk, leaving the pairs
        before it applied. */
    method SetUsingPipeline(pairs: seq<(string, Member)>, expireTime: int, unit: TimeUnit,
                            fault: Option<PipelineFault>)
      returns (r: Outcome<()>)
      modifies this
      ensures entries == PutAll(old(entries), pairs[..PipelineStop(|pairs|, expireTime, fault)],
                                TtlMs(expireTime, unit))
      ensures r.Done? <==> PipelineError(|pairs|, expireTime, fault).None?
      ensures r.Thrown? ==> r.error == PipelineError(|pairs|, expireTime, fault).value
    {
      var stop := PipelineStop(|pairs|, expireTime, fault);
      var i := 0;
      while i < |pairs|
        invariant 0 <= i <= stop
        invariant entries == PutAll(old(entries), pairs[..i], TtlMs(expireTime, unit))
      {
        ghost var before := entries;
        var o := Set(pairs[i].0, pairs[i].1, expireTime, unit, FaultAt(fault, i));
        if o.Thrown? {
          assert i == stop;
          r := o;
          return;
        }
        assert i < stop;
        assert pairs[..i + 1][..i] == pairs[..i] && pairs[..i + 1][i] == pairs[i];
        assert entries == Put(before, pairs[i].0, pairs[i].1, TtlMs(expireTime, unit));
        i := i + 1;
      }
      assert pairs[..i] == pairs;
      r := Done(());
    }

    /** `get(key, Member::class.java)` on this node; reads change nothing. */
    method Get(key: string, env: CallEnv) returns (r: Outcome<Option<Member>>)
      ensures r == Lookup(entries, key, env)
    {
      if env.fault.Some? {
        return Thrown(env.fault.value);
      }
      if ShouldRefreshKey(entries, key, env.lnDraw) {
        return Done(None);
      }
      if key !in entries || Codec.IsBlank(entries[key].value) {
        return Done(None);
      }
      var decoded := Codec.Decode(entries[key].value);
      if decoded.None? {
        return Thrown(DecodeFailure);
      }
      r := Done(Some(decoded.value));
    }

    /** `getUsingCoroutine`: the suspendable wrapper of `get`. */
    method GetUsingCoroutine(key: string, env: CallEnv) returns (r: Outcome<Option<Member>>)
      ensures r == Lookup(entries, key, env)
    {
      r := Get(key, env);
    }

    /** `getUsingPipeline` / `getByPipeline`: one `get` per key, the results
        collected in key order; the read fails if any key's `get` fails. */
    method GetUsingPipeline(keys: seq<string>, envs: seq<CallEnv>) returns (r: Outcome<seq<Option<Member>>>)
      requires |envs| == |keys|
      ensures BulkRead(entries, keys, envs, r)
    {
      var values: seq<Option<Member>> := [];
      var failure: Option<ErrorKind> := None;
      for i := 0 to |keys|
        invariant |values| == i
        invariant failure.None? ==>
          forall j :: 0 <= j < i ==> Lookup(entries, keys[j], envs[j]) == Done(values[j])
        invariant failure.Some? ==>
          exists j :: 0 <= j < i && Lookup(entries, keys[j], envs[j]) == Thrown(failure.value)
      {
        var o := GetUsingCoroutine(keys[i], envs[i]);
        match o
        case Done(v) =>
          values := values + [v];
        case Thrown(k) =>
          values := values + [None];
          if failure.None? {
            failure := Some(k);
          }
      }
      if failure.Some? {
        r := Thrown(failure.value);
      } else {
        r := Done(values);
      }
    }
  }

  /** What `set` stored, an undisturbed `get` of the same key returns. */
  lemma SetThenGet(s: Store, key: string, m: Member, ttlMs: nat, env: CallEnv)
    requires env.fault.None? && !ShouldRefreshKey(Put(s, key, m, ttlMs), key, env.lnDraw)
    ensures Lookup(Put(s, key, m, ttlMs), key, env) == Done(Some(m))
  {
    Codec.DecodeEncode(m);
    Codec.EncodeNotBlank(m);
  }

  /** A member written with a 60-second TTL is read back unchanged unless the
      draw is extreme: the PER test fires only when `ln(U) <= -20`. */
  lemma SetSixtySecondsThenGet(s: Store, key: string, m: Member, env: CallEnv)
    requires env.fault.None? && env.lnDraw > -20.0
    ensures Lookup(Put(s, key, m, TtlMs(60, Seconds)), key, env) == Done(Some(m))
  {
    var after := Put(s, key, m, TtlMs(60, Seconds));
    assert GetExpireMs(after, key) == 60000;
    Per.PenaltyIsProduct(Per.DefaultExpireTimeGapMs, Per.DefaultBeta, env.lnDraw);
    assert !ShouldRefreshKey(after, key, env.lnDraw);
    SetThenGet(s, key, m, TtlMs(60, Seconds), env);
  }

  /** A key that was never written reads as null. */
  lemma NeverWrittenReadsNull(s: Store, key: string, env: CallEnv)
    requires key !in s && env.fault.None?
    ensures Lookup(s, key, env) == Done(None)
  {
  }

  /** A key with 0 ms left reads as null without its value being fetched. */
  lemma ExpiringKeyReadsNull(s: Store, key: string, env: CallEnv)
    requires key in s && s[key].expiry == ExpiresIn(0) && env.fault.None?
    ensures Lookup(s, key, env) == Done(None)
  {
  }

  /** Whenever the PER test fires, the read is null, whatever is stored. */
  lemma RefreshReadsNull(s: Store, key: string, env: CallEnv)
    requires env.fault.None? && ShouldRefreshKey(s, key, env.lnDraw)
    ensures Lookup(s, key, env) == Done(None)
  {
  }

  /** `LastFor` finds the last pair with the key, and finds one whenever the
      key is listed. */
  lemma {:induction false} LastForIsLast(pairs: seq<(string, Member)>, key: string)
    ensures LastFor(pairs, key).Some? <==> exists i :: 0 <= i < |pairs| && pairs[i].0 == key
    ensures LastFor(pairs, key).Some? ==>
      exists i :: 0 <= i < |pairs| && pairs[i] == (key, LastFor(pairs, key).value)
                  && forall j :: i < j < |pairs| ==> pairs[j].0 != key
  {
    if |pairs| > 0 {
      var init := pairs[..|pairs| - 1];
      LastForIsLast(init, key);
      if pairs[|pairs| - 1].0 != key {
        forall i | 0 <= i < |init| ensures init[i] == pairs[i] { }
        if LastFor(pairs, key).Some? {
          var i :| 0 <= i < |init| && init[i] == (key, LastFor(init, key).value)
                   && forall j :: i < j < |init| ==> init[j].0 != key;
          assert pairs[i] == (key, LastFor(pairs, key).value);
        }
        if exists i :: 0 <= i < |pairs| && pairs[i].0 == key {
          var i :| 0 <= i < |pairs| && pairs[i].0 == key;
          assert init[i].0 == key;
        }
      }
    }
  }

  /** A pipelined write leaves every listed key holding its last listed
      value with the new TTL, and every unlisted key as it was. */
  lemma {:induction false} PutAllAt(s: Store, pairs: seq<(string, Member)>, ttlMs: nat, key: string)
    ensures LastFor(pairs, key).Some? ==>
      key in PutAll(s, pairs, ttlMs)
      && PutAll(s, pairs, ttlMs)[key] == Entry(Codec.Encode(LastFor(pairs, key).value), ExpiresIn(ttlMs))
    ensures LastFor(pairs, key).None? ==>
      (key in PutAll(s, pairs, ttlMs) <==> key in s)
      && (key in s ==> PutAll(s, pairs, ttlMs)[key] == s[key])
  {
    if |pairs| > 0 {
      PutAllAt(s, pairs[..|pairs| - 1], ttlMs, key);
    }
  }

  /** After a pipelined write, every listed key reads back the member last
      listed for it (when its read is undisturbed). */
  lemma PipelineReadBack(s: Store, pairs: seq<(string, Member)>, ttlMs: nat, i: nat, env: CallEnv)
    requires i < |pairs|
    requires env.fault.None? && !ShouldRefreshKey(PutAll(s, pairs, ttlMs), pairs[i].0, env.lnDraw)
    ensures LastFor(pairs, pairs[i].0).Some?
    ensures Lookup(PutAll(s, pairs, ttlMs), pairs[i].0, env) == Done(LastFor(pairs, pairs[i].0))
  {
    var key := pairs[i].0;
    LastForIsLast(pairs, key);
    PutAllAt(s, pairs, ttlMs, key);
    var m := LastFor(pairs, key).value;
    Codec.DecodeEncode(m);
    Codec.EncodeNotBlank(m);
  }

  /** A pipelined write with a positive expire time and no backend failure
      applies every pair and raises nothing. */
  lemma PipelineWithoutFaultAppliesAll(n: nat, expireTime: int)
    requires expireTime > 0
    ensures PipelineStop(n, expireTime, None) == n
    ensures PipelineError(n, expireTime, None).None?
  {
  }

  /** A pipelined read succeeds exactly when every key's `get` succeeds, and
      then answers one result per key, in key order. */
  lemma BulkReadDoneIff(s: Store, keys: seq<string>, envs: seq<CallEnv>, r: Outcome<seq<Option<Member>>>)
    requires |envs| == |keys| && BulkRead(s, keys, envs, r)
    ensures r.Done? <==> forall j :: 0 <= j < |keys| ==> Lookup(s, keys[j], envs[j]).Done?
    ensures r.Done? ==> |r.value| == |keys|
  {
    if r.Thrown? {
      var j :| 0 <= j < |keys| && Lookup(s, keys[j], envs[j]) == Thrown(r.error);
    }
  }
}
