/** `MemberService`: cache-aside reads and writes of members over one
    `MemberRepository`. A read that misses answers with the member "retrieved
    from the database" and writes it back to the cache from a coroutine
    launched inside the request's `runBlocking` block. */
module Service {
  import opened Outcomes
  import opened Domain
  import opened CacheStore
  import opened RedisConfig
  import Codec
  import Facade

  const RdbmsName: string := "member name retrieved from rdbms"

  /** A Kotlin `Int`. */
  type int32 = x: int | -0x8000_0000 <= x < 0x8000_0000

  /** Kotlin `Int` arithmetic: the exact result reduced into 32 bits. */
  function Wrap32(x: int): (r: int32)
    ensures (r - x) % 0x1_0000_0000 == 0
    ensures -0x8000_0000 <= x < 0x8000_0000 ==> r == x
  {
    (x + 0x8000_0000) % 0x1_0000_0000 - 0x8000_0000
  }

  datatype CreateMemberCacheDto = CreateMemberCacheDto(id: int64, name: string)
  datatype CreateMemberCacheResultDto = CreateMemberCacheResultDto(memberId: int64)
  datatype FindMemberCacheResultDto = FindMemberCacheResultDto(memberId: int64, name: string)

  /** `(1..100).map { it.toLong() }`: the ids the database is pretended to hold. */
  function CatalogIds(): (ids: seq<int64>)
    ensures |ids| == 100
    ensures forall i :: 0 <= i < 100 ==> ids[i] == i + 1
  {
    seq(100, i requires 0 <= i < 100 => (i + 1) as int64)
  }

  /** `CatalogIds().slice(start until (start + count))`: an empty range
      (`end <= start`) gives no ids; a non-empty range must lie inside the
      list, otherwise `subList` throws. */
  function SliceIds(start: int32, count: int32): (r: Outcome<seq<int64>>)
    ensures Wrap32(start + count) <= start ==> r == Done([])
    ensures start < Wrap32(start + count) ==>
      (r.Done? <==> 0 <= start && start + count <= 100)
    ensures r.Thrown? ==> r.error == SliceOutOfRange
    ensures r.Done? ==> forall i :: 0 <= i < |r.value| ==> r.value[i] == start + i + 1
    ensures r.Done? && r.value != [] ==> |r.value| == count
  {
    var end := Wrap32(start + count);
    if end <= start then Done([])
    else if start < 0 || end > 100 then Thrown(SliceOutOfRange)
    else Done(CatalogIds()[start..end])
  }

  /** `filterNotNull()`. */
  function FilterNotNull(xs: seq<Option<Member>>): (hits: seq<Member>)
    ensures |hits| <= |xs|
  {
    if |xs| == 0 then []
    else if xs[0].Some? then [xs[0].value] + FilterNotNull(xs[1..])
    else FilterNotNull(xs[1..])
  }

  /** The `(key, member)` list `setByPipeline` builds from its dtos. */
  function DtoPairs(dtos: seq<CreateMemberCacheDto>): (pairs: seq<(string, Member)>)
    ensures |pairs| == |dtos|
    ensures forall i :: 0 <= i < |dtos| ==>
      pairs[i] == (MemberKey(dtos[i].id), Member(dtos[i].id, dtos[i].name))
  {
    seq(|dtos|, i requires 0 <= i < |dtos| => (MemberKey(dtos[i].id), Create(dtos[i].id, dtos[i].name)))
  }

  /** The `(key, member)` list a missed bulk read writes back: every id with
      the database's name. */
  function RdbmsPairs(ids: seq<int64>): (pairs: seq<(string, Member)>)
    ensures |pairs| == |ids|
    ensures forall i :: 0 <= i < |ids| ==> pairs[i] == (MemberKey(ids[i]), Member(ids[i], RdbmsName))
  {
    seq(|ids|, i requires 0 <= i < |ids| => (MemberKey(ids[i]), Create(ids[i], RdbmsName)))
  }

  /** One result per id, all carrying `name`. */
  function Named(ids: seq<int64>, name: string): (rs: seq<FindMemberCacheResultDto>)
    ensures |rs| == |ids|
    ensures forall i :: 0 <= i < |ids| ==> rs[i] == FindMemberCacheResultDto(ids[i], name)
  {
    seq(|ids|, i requires 0 <= i < |ids| => FindMemberCacheResultDto(ids[i], name))
  }

  /** One result per cached member, carrying that member's own id and name. */
  function Found(hits: seq<Member>): (rs: seq<FindMemberCacheResultDto>)
    ensures |rs| == |hits|
    ensures forall i :: 0 <= i < |hits| ==> rs[i] == FindMemberCacheResultDto(hits[i].id, hits[i].name)
  {
    seq(|hits|, i requires 0 <= i < |hits| => FindMemberCacheResultDto(hits[i].id, hits[i].name))
  }

  /** `keysAndValues.map { FindMemberCacheResultDto(it.second.id, it.second.name) }`. */
  function Answers(pairs: seq<(string, Member)>): (rs: seq<FindMemberCacheResultDto>)
    ensures |rs| == |pairs|
  {
    seq(|pairs|, i requires 0 <= i < |pairs| => FindMemberCacheResultDto(pairs[i].1.id, pairs[i].1.name))
  }

  /** The node holds each decodable value under the key of its own member:
      what `set` and `setByPipeline` keep true when every key they are given
      comes from `getMemberKey` of the member's id. */
  ghost predicate Consistent(s: Store)
  {
    forall key :: key in s && Codec.Decode(s[key].value).Some? ==>
      key == MemberKey(Codec.Decode(s[key].value).value.id)
  }

  // ---- get ----

  /** The answer of `get(id)` as written: a hit answers with the cached
      member, a caught read failure with a sentinel name, a miss with the
      database's member once the launched write-back has finished; since
      `runBlocking` waits for that child and rethrows its failure, a failing
      write-back fails the whole call. */
  function GetAnswer(s: Store, id: int64, env: CallEnv, writeFault: Option<ErrorKind>): Outcome<FindMemberCacheResultDto>
  {
    match Lookup(s, MemberKey(id), env)
    case Done(Some(m)) => Done(FindMemberCacheResultDto(m.id, m.name))
    case Thrown(ConnectionFailure) => Done(FindMemberCacheResultDto(id, Facade.ConnectionFailureName))
    case Thrown(QueryTimeout) => Done(FindMemberCacheResultDto(id, Facade.QueryTimeoutName))
    case Thrown(k) => Thrown(k)
    case Done(None) =>
      var e := SetError(MemberExpireSeconds, writeFault);
      if e.Some? then Thrown(e.value) else Done(FindMemberCacheResultDto(id, RdbmsName))
  }

  /** The node after `get(id)`: only a miss writes, and only a write that
      succeeds changes the node. */
  function GetStore(s: Store, id: int64, env: CallEnv, writeFault: Option<ErrorKind>): Store
  {
    if Lookup(s, MemberKey(id), env) == Done(None) && SetError(MemberExpireSeconds, writeFault).None?
    then Put(s, MemberKey(id), Member(id, RdbmsName), Facade.MemberTtlMs)
    else s
  }

  /** The answer of `get(id)` with the write-back detached from the request,
      so that its failure is only logged. */
  function GetAnswerDetached(s: Store, id: int64, env: CallEnv): Outcome<FindMemberCacheResultDto>
  {
    match Lookup(s, MemberKey(id), env)
    case Done(Some(m)) => Done(FindMemberCacheResultDto(m.id, m.name))
    case Thrown(ConnectionFailure) => Done(FindMemberCacheResultDto(id, Facade.ConnectionFailureName))
    case Thrown(QueryTimeout) => Done(FindMemberCacheResultDto(id, Facade.QueryTimeoutName))
    case Thrown(k) => Thrown(k)
    case Done(None) => Done(FindMemberCacheResultDto(id, RdbmsName))
  }

  // ---- getByPipeline ----

  /** The answer of `getByPipeline` as written, for the sliced `ids` and the
      pipelined read's outcome `o`: all cached members when exactly `count`
      of them were found, otherwise the database's member for every id once
      the launched bulk write-back has finished (whose failure, as for `get`,
      fails the call). */
  function BulkAnswer(ids: seq<int64>, count: int, o: Outcome<seq<Option<Member>>>, writeFault: Option<PipelineFault>)
    : Outcome<seq<FindMemberCacheResultDto>>
  {
    match o
    case Thrown(ConnectionFailure) => Done(Named(ids, Facade.ConnectionFailureName))
    case Thrown(QueryTimeout) => Done(Named(ids, Facade.QueryTimeoutName))
    case Thrown(k) => Thrown(k)
    case Done(values) =>
      var hits := FilterNotNull(values);
      if |hits| == count then Done(Found(hits))
      else
        var e := PipelineError(|ids|, MemberExpireSeconds, writeFault);
        if e.Some? then Thrown(e.value) else Done(Named(ids, RdbmsName))
  }

  /** The node after `getByPipeline`: only the miss path writes, and the
      pipelined write applies the pairs before its first failure. */
  function BulkStore(s: Store, ids: seq<int64>, count: int, o: Outcome<seq<Option<Member>>>, writeFault: Option<PipelineFault>): Store
  {
    if o.Done? && |FilterNotNull(o.value)| != count
    then Facade.PipelinedPut(s, RdbmsPairs(ids), writeFault)
    else s
  }

  /** The answer of `getByPipeline` with the bulk write-back detached. */
  function BulkAnswerDetached(ids: seq<int64>, count: int, o: Outcome<seq<Option<Member>>>)
    : Outcome<seq<FindMemberCacheResultDto>>
  {
    match o
    case Thrown(ConnectionFailure) => Done(Named(ids, Facade.ConnectionFailureName))
    case Thrown(QueryTimeout) => Done(Named(ids, Facade.QueryTimeoutName))
    case Thrown(k) => Thrown(k)
    case Done(values) =>
      var hits := FilterNotNull(values);
      if |hits| == count then Done(Found(hits)) else Done(Named(ids, RdbmsName))
  }

  class MemberService {
    const memberRepository: CacheNode

    /** Every value on the node sits under its own member's key. */
    ghost predicate Valid()
      reads memberRepository
    {
      Consistent(memberRepository.entries)
    }

    constructor (repository: CacheNode)
      ensures memberRepository == repository
    {
      memberRepository := repository;
    }

    /** `set(id, name)`: caches the member for `RedisExpireTime.MEMBER`
        seconds; a connection failure or a timeout is logged and the id is
        returned all the same. */
    method Set(id: int64, name: string, fault: Option<ErrorKind>) returns (r: Outcome<CreateMemberCacheResultDto>)
      modifies memberRepository
      ensures r.Done? <==> Swallowed(fault)
      ensures r.Done? ==> r.value.memberId == id
      ensures r.Thrown? ==> r.error == fault.value
      ensures memberRepository.entries ==
        if fault.None? then Put(old(memberRepository.entries), MemberKey(id), Member(id, name), Facade.MemberTtlMs)
        else old(memberRepository.entries)
      ensures old(Valid()) ==> Valid()
    {
      var key := MemberKey(id);
      var value := Create(id, name);
      ghost var before := memberRepository.entries;
      var o := memberRepository.Set(key, value, MemberExpireSeconds, Seconds, fault);
      if o.Done? && Consistent(before) {
        ConsistentPut(before, value, Facade.MemberTtlMs);
      }
      if o.Thrown? && !Absorbed(o.error) {
        return Thrown(o.error);
      }
      r := Done(CreateMemberCacheResultDto(id));
    }

    /** `setByPipeline(dtos)`: caches every dto's member through one
        pipelined write; a connection failure or a timeout is logged and
        every dto's id is returned all the same, in dto order. */
    method SetByPipeline(dtos: seq<CreateMemberCacheDto>, fault: Option<PipelineFault>)
      returns (r: Outcome<seq<CreateMemberCacheResultDto>>)
      modifies memberRepository
      ensures r.Done? <==> Swallowed(PipelineError(|dtos|, MemberExpireSeconds, fault))
      ensures r.Done? ==> |r.value| == |dtos| && forall i :: 0 <= i < |dtos| ==> r.value[i].memberId == dtos[i].id
      ensures r.Thrown? ==> Some(r.error) == PipelineError(|dtos|, MemberExpireSeconds, fault)
      ensures memberRepository.entries == Facade.PipelinedPut(old(memberRepository.entries), DtoPairs(dtos), fault)
      ensures old(Valid()) ==> Valid()
    {
      var pairs := DtoPairs(dtos);
      ghost var before := memberRepository.entries;
      var o := memberRepository.SetUsingPipeline(pairs, MemberExpireSeconds, Seconds, fault);
      if Consistent(before) {
        ghost var applied := pairs[..PipelineStop(|pairs|, MemberExpireSeconds, fault)];
        assert forall i :: 0 <= i < |applied| ==> applied[i] == pairs[i];
        ConsistentPutAll(before, applied, Facade.MemberTtlMs);
      }
      if o.Thrown? && !Absorbed(o.error) {
        return Thrown(o.error);
      }
      var results := seq(|dtos|, i requires 0 <= i < |dtos| => CreateMemberCacheResultDto(dtos[i].id));
      r := Done(results);
    }

    /** `setMemberCache(key, value)`: the write-back `get` launches. */
    method SetMemberCache(key: string, value: Member, fault: Option<ErrorKind>) returns (r: Outcome<()>)
      modifies memberRepository
      ensures r.Thrown? <==> fault.Some?
      ensures r.Thrown? ==> r.error == fault.value
      ensures memberRepository.entries ==
        if r.Done? then Put(old(memberRepository.entries), key, value, Facade.MemberTtlMs)
        else old(memberRepository.entries)
    {
      r := memberRepository.Set(key, value, MemberExpireSeconds, Seconds, fault);
    }

    /** `setMemberCaches(keysAndValues)`: the bulk write-back
        `getByPipeline` launches. */
    method SetMemberCaches(pairs: seq<(string, Member)>, fault: Option<PipelineFault>) returns (r: Outcome<()>)
      modifies memberRepository
      ensures r.Done? <==> PipelineError(|pairs|, MemberExpireSeconds, fault).None?
      ensures r.Thrown? ==> r.error == PipelineError(|pairs|, MemberExpireSeconds, fault).value
      ensures memberRepository.entries == Facade.PipelinedPut(old(memberRepository.entries), pairs, fault)
    {
      r := memberRepository.SetUsingPipeline(pairs, MemberExpireSeconds, Seconds, fault);
    }

    /** `get(id)`, as written. */
    method Get(id: int64, env: CallEnv, writeFault: Option<ErrorKind>) returns (r: Outcome<FindMemberCacheResultDto>)
      modifies memberRepository
      ensures r == GetAnswer(old(memberRepository.entries), id, env, writeFault)
      ensures memberRepository.entries == GetStore(old(memberRepository.entries), id, env, writeFault)
      ensures old(Valid()) ==> Valid()
    {
      if Valid() {
        GetKeepsConsistent(memberRepository.entries, id, env, writeFault);
      }
      var key := MemberKey(id);
      var cached := memberRepository.Get(key, env);
      if cached.Done? && cached.value.Some? {
        return Done(FindMemberCacheResultDto(cached.value.value.id, cached.value.value.name));
      }
      if cached == Thrown(ConnectionFailure) {
        return Done(FindMemberCacheResultDto(id, Facade.ConnectionFailureName));
      }
      if cached == Thrown(QueryTimeout) {
        return Done(FindMemberCacheResultDto(id, Facade.QueryTimeoutName));
      }
      if cached.Thrown? {
        return Thrown(cached.error);
      }
      var value := Create(id, RdbmsName);
      // `runBlocking` joins the launched write-back and rethrows its failure.
      var written := SetMemberCache(key, value, writeFault);
      if written.Thrown? {
        return Thrown(written.error);
      }
      r := Done(FindMemberCacheResultDto(value.id, value.name));
    }

    /** `get(id)` with the write-back detached from the request. */
    method GetDetachingWriteBack(id: int64, env: CallEnv, writeFault: Option<ErrorKind>)
      returns (r: Outcome<FindMemberCacheResultDto>)
      modifies memberRepository
      ensures r == GetAnswerDetached(old(memberRepository.entries), id, env)
      ensures memberRepository.entries == GetStore(old(memberRepository.entries), id, env, writeFault)
      ensures old(Valid()) ==> Valid()
    {
      if Valid() {
        GetKeepsConsistent(memberRepository.entries, id, env, writeFault);
      }
      var key := MemberKey(id);
      var cached := memberRepository.Get(key, env);
      if cached.Done? && cached.value.Some? {
        return Done(FindMemberCacheResultDto(cached.value.value.id, cached.value.value.name));
      }
      if cached == Thrown(ConnectionFailure) {
        return Done(FindMemberCacheResultDto(id, Facade.ConnectionFailureName));
      }
      if cached == Thrown(QueryTimeout) {
        return Done(FindMemberCacheResultDto(id, Facade.QueryTimeoutName));
      }
      if cached.Thrown? {
        return Thrown(cached.error);
      }
      var value := Create(id, RdbmsName);
      var written := SetMemberCache(key, value, writeFault);
      r := Done(FindMemberCacheResultDto(value.id, value.name));
    }

    /** `getByPipeline(start, count)`, as written. Which failing key the
        pipelined read reports is left open, so the answer is stated for
        some outcome `o` the read may give. */
    method GetByPipeline(start: int32, count: int32, envs: seq<CallEnv>, writeFault: Option<PipelineFault>)
      returns (r: Outcome<seq<FindMemberCacheResultDto>>)
      requires SliceIds(start, count).Done? ==> |envs| == |SliceIds(start, count).value|
      modifies memberRepository
      ensures SliceIds(start, count).Thrown? ==>
        r == Thrown(SliceOutOfRange) && memberRepository.entries == old(memberRepository.entries)
      ensures SliceIds(start, count).Done? ==>
        var ids := SliceIds(start, count).value;
        exists o :: BulkRead(old(memberRepository.entries), MemberKeys(ids), envs, o)
          && r == BulkAnswer(ids, count, o, writeFault)
          && memberRepository.entries == BulkStore(old(memberRepository.entries), ids, count, o, writeFault)
      ensures old(Valid()) ==> Valid()
    {
      var slice := SliceIds(start, count);
      if slice.Thrown? {
        return Thrown(slice.error);
      }
      var ids := slice.value;
      var o := memberRepository.GetUsingPipeline(MemberKeys(ids), envs);
      r := AnswerBulkRead(ids, count, o, writeFault);
    }

    /** The rest of `getByPipeline` once the pipelined read has given `o`:
        the catch clauses, the all-or-nothing test on `count`, and the
        joined bulk write-back on a miss. */
    method AnswerBulkRead(ids: seq<int64>, count: int32, o: Outcome<seq<Option<Member>>>, writeFault: Option<PipelineFault>)
      returns (r: Outcome<seq<FindMemberCacheResultDto>>)
      modifies memberRepository
      ensures r == BulkAnswer(ids, count, o, writeFault)
      ensures memberRepository.entries == BulkStore(old(memberRepository.entries), ids, count, o, writeFault)
      ensures old(Valid()) ==> Valid()
    {
      if Valid() {
        BulkKeepsConsistent(memberRepository.entries, ids, count, o, writeFault);
      }
      if o == Thrown(ConnectionFailure) {
        return Done(Named(ids, Facade.ConnectionFailureName));
      }
      if o == Thrown(QueryTimeout) {
        return Done(Named(ids, Facade.QueryTimeoutName));
      }
      if o.Thrown? {
        return Thrown(o.error);
      }
      var hits := FilterNotNull(o.value);
      if |hits| == count {
        return Done(Found(hits));
      }
      var pairs := RdbmsPairs(ids);
      // `runBlocking` joins the launched bulk write-back and rethrows its failure.
      var written := SetMemberCaches(pairs, writeFault);
      if written.Thrown? {
        return Thrown(written.error);
      }
      r := Done(Answers(pairs));
      AnswersOfRdbmsPairs(ids);
    }
  }

  // ---- lemmas ----

  /** Answering from the database list gives each id with the database's
      name, in id order. */
  lemma AnswersOfRdbmsPairs(ids: seq<int64>)
    ensures Answers(RdbmsPairs(ids)) == Named(ids, RdbmsName)
  {
    var pairs := RdbmsPairs(ids);
    assert forall i :: 0 <= i < |ids| ==> Answers(pairs)[i] == Named(ids, RdbmsName)[i];
  }

  /** A read hit decodes what the node holds under the key. */
  lemma LookupHitDecodes(s: Store, key: string, env: CallEnv, m: Member)
    requires Lookup(s, key, env) == Done(Some(m))
    ensures key in s && Codec.Decode(s[key].value) == Some(m)
  {
  }

  /** Caching a member under its own key keeps the node consistent. */
  lemma ConsistentPut(s: Store, m: Member, ttlMs: nat)
    requires Consistent(s)
    ensures Consistent(Put(s, MemberKey(m.id), m, ttlMs))
  {
    Codec.DecodeEncode(m);
  }

  /** So does caching a list of members, each under its own key. */
  lemma {:induction false} ConsistentPutAll(s: Store, pairs: seq<(string, Member)>, ttlMs: nat)
    requires Consistent(s)
    requires forall i :: 0 <= i < |pairs| ==> pairs[i].0 == MemberKey(pairs[i].1.id)
    ensures Consistent(PutAll(s, pairs, ttlMs))
  {
    if |pairs| > 0 {
      ConsistentPutAll(s, pairs[..|pairs| - 1], ttlMs);
      ConsistentPut(PutAll(s, pairs[..|pairs| - 1], ttlMs), pairs[|pairs| - 1].1, ttlMs);
    }
  }

  /** On a consistent node a hit is the member whose key was read. */
  lemma ConsistentHit(s: Store, id: int64, env: CallEnv, m: Member)
    requires Consistent(s)
    requires Lookup(s, MemberKey(id), env) == Done(Some(m))
    ensures m.id == id
  {
    LookupHitDecodes(s, MemberKey(id), env, m);
    MemberKeyInjective(id, m.id);
  }

  /** So every answer of `get(id)` on a consistent node carries the
      requested id. */
  lemma GetAnswersRequestedId(s: Store, id: int64, env: CallEnv, writeFault: Option<ErrorKind>)
    requires Consistent(s)
    ensures GetAnswer(s, id, env, writeFault).Done? ==> GetAnswer(s, id, env, writeFault).value.memberId == id
  {
    match Lookup(s, MemberKey(id), env)
    case Done(Some(m)) =>
      ConsistentHit(s, id, env, m);
    case Done(None) =>
    case Thrown(k) =>
  }

  /** And `get` keeps a consistent node consistent. */
  lemma GetKeepsConsistent(s: Store, id: int64, env: CallEnv, writeFault: Option<ErrorKind>)
    requires Consistent(s)
    ensures Consistent(GetStore(s, id, env, writeFault))
  {
    if Lookup(s, MemberKey(id), env) == Done(None) {
      ConsistentPut(s, Member(id, RdbmsName), Facade.MemberTtlMs);
    }
  }

  /** A hit answers with the cached member and writes nothing. */
  lemma GetHit(s: Store, id: int64, env: CallEnv, writeFault: Option<ErrorKind>, m: Member)
    requires Lookup(s, MemberKey(id), env) == Done(Some(m))
    ensures GetAnswer(s, id, env, writeFault) == Done(FindMemberCacheResultDto(m.id, m.name))
    ensures GetStore(s, id, env, writeFault) == s
  {
  }

  /** A connection failure or a timeout of the read answers with the
      requested id and the matching sentinel name, and writes nothing. */
  lemma GetCaughtReadFailure(s: Store, id: int64, env: CallEnv, writeFault: Option<ErrorKind>)
    requires env.fault.Some? && Absorbed(env.fault.value)
    ensures GetAnswer(s, id, env, writeFault) == Done(FindMemberCacheResultDto(id,
      if env.fault.value == ConnectionFailure then Facade.ConnectionFailureName else Facade.QueryTimeoutName))
    ensures GetStore(s, id, env, writeFault) == s
  {
  }

  /** Cache-aside: a miss whose write-back succeeds answers with the
      database's member and caches exactly that member under its key, so
      an undisturbed read that follows hits it. */
  lemma GetMissWritesBack(s: Store, id: int64, env: CallEnv, next: CallEnv)
    requires Lookup(s, MemberKey(id), env) == Done(None)
    requires next.fault.None?
    requires !ShouldRefreshKey(GetStore(s, id, env, None), MemberKey(id), next.lnDraw)
    ensures GetAnswer(s, id, env, None) == Done(FindMemberCacheResultDto(id, RdbmsName))
    ensures GetStore(s, id, env, None) == Put(s, MemberKey(id), Member(id, RdbmsName), Facade.MemberTtlMs)
    ensures Lookup(GetStore(s, id, env, None), MemberKey(id), next) == Done(Some(Member(id, RdbmsName)))
  {
    SetThenGet(s, MemberKey(id), Member(id, RdbmsName), Facade.MemberTtlMs, next);
  }

  /** As written, a failing write-back fails the read: on an empty node with
      a healthy read and a refused write, `get(1)` throws the connection
      failure it was meant to absorb. */
  lemma WriteBackFailureReachesCaller()
    ensures GetAnswer(map[], 1, CallEnv(0.0, None), Some(ConnectionFailure)) == Thrown(ConnectionFailure)
  {
    assert GetExpireMs(map[], MemberKey(1)) == -2;
  }

  /** With the write-back detached, `get` fails only when the read itself
      fails with a kind it does not catch, and otherwise agrees with the
      code as written whenever the write-back succeeds. */
  lemma DetachedGetFailsOnlyOnRead(s: Store, id: int64, env: CallEnv)
    ensures GetAnswerDetached(s, id, env).Thrown? <==>
      Lookup(s, MemberKey(id), env).Thrown? && !Absorbed(Lookup(s, MemberKey(id), env).error)
    ensures GetAnswerDetached(s, id, env).Thrown? ==>
      GetAnswerDetached(s, id, env).error == Lookup(s, MemberKey(id), env).error
    ensures GetAnswerDetached(s, id, env) == GetAnswer(s, id, env, None)
  {
  }

  /** `filterNotNull` keeps every element exactly when none is null, and
      then keeps them in order. */
  lemma {:induction false} FilterNotNullFull(xs: seq<Option<Member>>)
    ensures |FilterNotNull(xs)| == |xs| <==> forall i :: 0 <= i < |xs| ==> xs[i].Some?
    ensures |FilterNotNull(xs)| == |xs| ==> forall i :: 0 <= i < |xs| ==> FilterNotNull(xs)[i] == xs[i].value
  {
    if |xs| > 0 {
      FilterNotNullFull(xs[1..]);
      assert forall i :: 1 <= i < |xs| ==> xs[i] == xs[1..][i - 1];
    }
  }

  /** The slice gives exactly `count` ids, `start + 1 .. start + count`,
      when `0 <= start` and `start + count <= 100` with `count > 0`. */
  lemma SliceInRange(start: int32, count: int32)
    requires 0 <= start && 0 < count && start + count <= 100
    ensures SliceIds(start, count).Done?
    ensures |SliceIds(start, count).value| == count
    ensures forall i :: 0 <= i < count ==> SliceIds(start, count).value[i] == start + i + 1
  {
  }

  /** All or nothing: when the read answers one value per requested id and
      `count` ids were requested, the cached members are returned exactly
      when none is missing; otherwise every id gets the database's member
      and the whole list is written back. */
  lemma BulkAllOrNothing(s: Store, ids: seq<int64>, values: seq<Option<Member>>, writeFault: Option<PipelineFault>)
    requires |values| == |ids|
    ensures (forall i :: 0 <= i < |values| ==> values[i].Some?) <==> |FilterNotNull(values)| == |ids|
    ensures (forall i :: 0 <= i < |values| ==> values[i].Some?) ==>
      var r := BulkAnswer(ids, |ids|, Done(values), writeFault);
      && BulkStore(s, ids, |ids|, Done(values), writeFault) == s
      && r.Done? && |r.value| == |ids|
      && forall i :: 0 <= i < |ids| ==> r.value[i] == FindMemberCacheResultDto(values[i].value.id, values[i].value.name)
    ensures (exists i :: 0 <= i < |values| && values[i].None?) ==>
      var r := BulkAnswer(ids, |ids|, Done(values), writeFault);
      && BulkStore(s, ids, |ids|, Done(values), writeFault) == Facade.PipelinedPut(s, RdbmsPairs(ids), writeFault)
      && (r.Thrown? || r == Done(Named(ids, RdbmsName)))
  {
    FilterNotNullFull(values);
    if |FilterNotNull(values)| == |ids| {
      BulkHitAnswer(s, ids, values, writeFault);
    } else {
      BulkMissAnswer(s, ids, values, writeFault);
    }
  }

  lemma BulkHitAnswer(s: Store, ids: seq<int64>, values: seq<Option<Member>>, writeFault: Option<PipelineFault>)
    requires |values| == |ids| && |FilterNotNull(values)| == |ids|
    requires forall i :: 0 <= i < |values| ==> values[i].Some? && FilterNotNull(values)[i] == values[i].value
    ensures var r := BulkAnswer(ids, |ids|, Done(values), writeFault);
      && BulkStore(s, ids, |ids|, Done(values), writeFault) == s
      && r == Done(Found(FilterNotNull(values)))
      && forall i :: 0 <= i < |ids| ==> r.value[i] == FindMemberCacheResultDto(values[i].value.id, values[i].value.name)
  {
  }

  /** A miss answers the database's member for every id unless the bulk
      write-back throws, which it does exactly when the pipeline fails. */
  lemma BulkMissAnswer(s: Store, ids: seq<int64>, values: seq<Option<Member>>, writeFault: Option<PipelineFault>)
    requires |FilterNotNull(values)| != |ids|
    ensures var r := BulkAnswer(ids, |ids|, Done(values), writeFault);
      var e := PipelineError(|ids|, MemberExpireSeconds, writeFault);
      && (r.Thrown? <==> e.Some?)
      && (r.Thrown? ==> r.error == e.value)
      && (r.Done? ==> r == Done(Named(ids, RdbmsName)))
    ensures BulkStore(s, ids, |ids|, Done(values), writeFault) == Facade.PipelinedPut(s, RdbmsPairs(ids), writeFault)
  {
    BulkMissStore(s, ids, values, writeFault);
  }

  /** And the node after a miss is the node after the pipelined write-back
      of the database list. */
  lemma BulkMissStore(s: Store, ids: seq<int64>, values: seq<Option<Member>>, writeFault: Option<PipelineFault>)
    requires |FilterNotNull(values)| != |ids|
    ensures BulkStore(s, ids, |ids|, Done(values), writeFault) == Facade.PipelinedPut(s, RdbmsPairs(ids), writeFault)
  {
    var o: Outcome<seq<Option<Member>>> := Done(values);
    assert o.Done? && |FilterNotNull(o.value)| != |ids|;
  }

  /** The miss path of `getByPipeline` when its write-back succeeds: the
      database's member for every id, and every one of them cached. */
  lemma BulkMissWritesBack(s: Store, ids: seq<int64>, values: seq<Option<Member>>, k: nat, next: CallEnv)
    requires |values| == |ids| && k < |ids|
    requires exists i :: 0 <= i < |values| && values[i].None?
    requires next.fault.None?
    requires !ShouldRefreshKey(BulkStore(s, ids, |ids|, Done(values), None), MemberKey(ids[k]), next.lnDraw)
    ensures BulkAnswer(ids, |ids|, Done(values), None) == Done(Named(ids, RdbmsName))
    ensures Lookup(BulkStore(s, ids, |ids|, Done(values), None), MemberKey(ids[k]), next)
            == Done(Some(Member(ids[k], RdbmsName)))
  {
    FilterNotNullFull(values);
    BulkMissAnswer(s, ids, values, None);
    PipelineWithoutFaultAppliesAll(|ids|, MemberExpireSeconds);
    RdbmsReadBack(s, ids, k, next);
  }

  /** After a complete pipelined write of the database list, an undisturbed
      read of any requested id finds that id's database member. */
  lemma RdbmsReadBack(s: Store, ids: seq<int64>, k: nat, next: CallEnv)
    requires k < |ids| && next.fault.None?
    requires !ShouldRefreshKey(Facade.PipelinedPut(s, RdbmsPairs(ids), None), MemberKey(ids[k]), next.lnDraw)
    ensures Lookup(Facade.PipelinedPut(s, RdbmsPairs(ids), None), MemberKey(ids[k]), next)
            == Done(Some(Member(ids[k], RdbmsName)))
  {
    var pairs := RdbmsPairs(ids);
    PipelineWithoutFaultAppliesAll(|pairs|, MemberExpireSeconds);
    assert pairs[..|pairs|] == pairs;
    assert Facade.PipelinedPut(s, pairs, None) == PutAll(s, pairs, Facade.MemberTtlMs);
    PipelineReadBack(s, pairs, Facade.MemberTtlMs, k, next);
    LastForOfOwnKeys(ids, k);
  }

  /** In the database list every id appears once, so the last pair under
      an id's key is that id's. */
  lemma LastForOfOwnKeys(ids: seq<int64>, k: nat)
    requires k < |ids|
    ensures LastFor(RdbmsPairs(ids), MemberKey(ids[k])) == Some(Member(ids[k], RdbmsName))
  {
    var pairs := RdbmsPairs(ids);
    LastForIsLast(pairs, MemberKey(ids[k]));
    var m := LastFor(pairs, MemberKey(ids[k])).value;
    var j :| 0 <= j < |pairs| && pairs[j] == (MemberKey(ids[k]), m);
    MemberKeyInjective(ids[j], ids[k]);
  }

  /** Every answer of `getByPipeline` has one entry per sliced id, in id
      order, when the node is consistent; the node stays consistent. */
  lemma BulkAnswerInIdOrder(s: Store, start: int32, count: int32, envs: seq<CallEnv>,
                            o: Outcome<seq<Option<Member>>>, writeFault: Option<PipelineFault>)
    requires Consistent(s)
    requires SliceIds(start, count).Done?
    requires |envs| == |SliceIds(start, count).value|
    requires BulkRead(s, MemberKeys(SliceIds(start, count).value), envs, o)
    ensures var ids := SliceIds(start, count).value;
      var r := BulkAnswer(ids, count, o, writeFault);
      r.Done? ==> |r.value| == |ids| && forall i :: 0 <= i < |ids| ==> r.value[i].memberId == ids[i]
    ensures Consistent(BulkStore(s, SliceIds(start, count).value, count, o, writeFault))
  {
    var ids := SliceIds(start, count).value;
    if o.Done? && |FilterNotNull(o.value)| == count {
      var values := o.value;
      FilterNotNullFull(values);
      assert |ids| == count;
      HitsAreRequested(s, ids, envs, values);
      BulkHitAnswer(s, ids, values, writeFault);
    }
    BulkKeepsConsistent(s, ids, count, o, writeFault);
  }

  /** On a consistent node, a pipelined read with no missing value found
      exactly the requested members. */
  lemma HitsAreRequested(s: Store, ids: seq<int64>, envs: seq<CallEnv>, values: seq<Option<Member>>)
    requires Consistent(s)
    requires |envs| == |ids| && |values| == |ids|
    requires forall j :: 0 <= j < |ids| ==> Lookup(s, MemberKeys(ids)[j], envs[j]) == Done(values[j])
    requires forall j :: 0 <= j < |ids| ==> values[j].Some?
    ensures forall j :: 0 <= j < |ids| ==> values[j].value.id == ids[j]
  {
    forall j | 0 <= j < |ids|
      ensures values[j].value.id == ids[j]
    {
      assert Lookup(s, MemberKey(ids[j]), envs[j]) == Done(values[j]);
      ConsistentHit(s, ids[j], envs[j], values[j].value);
    }
  }

  /** The bulk write-back keeps the node consistent. */
  lemma BulkKeepsConsistent(s: Store, ids: seq<int64>, count: int, o: Outcome<seq<Option<Member>>>, writeFault: Option<PipelineFault>)
    requires Consistent(s)
    ensures Consistent(BulkStore(s, ids, count, o, writeFault))
  {
    if o.Done? && |FilterNotNull(o.value)| != count {
      PipelinedRdbmsKeepsConsistent(s, ids, writeFault);
    }
  }

  /** Whatever prefix of the database list the pipelined write applies,
      each member lands under its own key. */
  lemma PipelinedRdbmsKeepsConsistent(s: Store, ids: seq<int64>, writeFault: Option<PipelineFault>)
    requires Consistent(s)
    ensures Consistent(Facade.PipelinedPut(s, RdbmsPairs(ids), writeFault))
  {
    var pairs := RdbmsPairs(ids);
    var applied := pairs[..PipelineStop(|pairs|, MemberExpireSeconds, writeFault)];
    assert forall i :: 0 <= i < |applied| ==> applied[i] == pairs[i];
    ConsistentPutAll(s, applied, Facade.MemberTtlMs);
  }

  /** As written, a failing bulk write-back fails the read: requesting ids
      1 and 2 from an empty node, the refused write-back's connection failure
      reaches the caller. */
  lemma BulkWriteBackFailureReachesCaller()
    ensures BulkAnswer([1, 2], 2, Done([None, None]), Some(PipelineFault(0, ConnectionFailure)))
            == Thrown(ConnectionFailure)
  {
    assert FilterNotNull([None, None]) == [];
  }

  /** With the bulk write-back detached, `getByPipeline` fails only when the
      read fails with a kind it does not catch, and otherwise agrees with the
      code as written whenever the write-back succeeds. */
  lemma DetachedBulkFailsOnlyOnRead(ids: seq<int64>, count: int, o: Outcome<seq<Option<Member>>>)
    ensures BulkAnswerDetached(ids, count, o).Thrown? <==> o.Thrown? && !Absorbed(o.error)
    ensures BulkAnswerDetached(ids, count, o) == BulkAnswer(ids, count, o, None)
  {
  }
}
