# Member cache over Redis: a Dafny model

This project models the caching core of `redis-config-example`, a Spring Boot
service that caches `Member` records in Redis. The modelled core has five
parts:

- **Single-node repositories.** `MemberRepository`, `MemberRedisServer1Repository`
  and `MemberRedisServer3Repository` store a member as JSON under a key with a
  TTL. Each read first runs a probabilistic early-expiration test (PER) on the
  key's remaining TTL. The pipelined variants write or read a whole list.
- **The PER score** of `AbstractRedisServerRepository`:
  `remaining - |delta * beta * ln(U)|`.
- **The replicating facade** `MemberFacadeRedisRepositoryImpl`. A write is
  launched in the background and goes to servers 1, 2 and 3 in turn. A read goes
  to one randomly chosen server. Connection failures and timeouts become
  placeholder members.
- **The cache-aside `MemberService`.** It reads through `MemberRepository`. On a
  miss it answers with the database's member and writes that member back.
- **`Member`**, a value with an id and a name.

Modules, one per file:

| file | module | models |
|---|---|---|
| `outcomes.dfy` | `Outcomes` | `Option`, exceptions as `Outcome` (`Done` / `Thrown(kind)`), the two kinds the code catches |
| `member.dfy` | `Domain` | `Member`, `Member.create`, `Member.equals` |
| `codec.dfy` | `Codec` | a canonical JSON text for a member (`{"id":…,"name":"…"}`) and its parser, plus Kotlin's `isBlank` |
| `redis_config.dfy` | `RedisConfig` | stand-ins for `RedisKey.getMemberKey` and `RedisExpireTime.MEMBER` |
| `per.dfy` | `Per` | the PER score and the refresh test |
| `cache_store.dfy` | `CacheStore` | one Redis node with its repository, as the class `CacheNode` |
| `facade.dfy` | `Facade` | the replicating facade, as the class `FanOutRepository` |
| `service.dfy` | `Service` | `MemberService`, as the class `MemberService` |

How the outside world is modelled:

- **Backend failures are inputs.**
  - A read receives a `CallEnv`: the draw `ln(Math.random())` and an optional
    failure of that call.
  - A `set` receives an optional failure.
  - A pipelined write receives an optional `PipelineFault(at, kind)`. The pairs
    before `at` are applied, then `set` throws.
- **Redis refuses a non-positive expire time.** A `set` with one fails with
  `OtherBackendFailure`.
- **The random node index** is any value of `(1..nodes.size).random() - 1`,
  chosen with `:|`.
- **Kotlin `Int` addition wraps.** `Service.Wrap32` does this in
  `start + count`.

The model follows the code as written; in particular:

- **Fan-out order.** The facade does not start one task per node. It launches
  one coroutine that writes server 1, then 2, then 3. That coroutine catches only
  connection failures and timeouts. Any other failure ends it, and the later
  servers are not written (`Facade.UncaughtFailureAborts`).
- **Blocking write-back.** The service's write-back is not fire-and-forget. It is
  launched inside `runBlocking`, so the request waits for it and fails if it
  fails (see Findings).
- **Negative TTL.** A key whose remaining TTL is negative is not treated as
  absent straight away. The PER test is skipped and the stored value is still
  read. A key without expiry (-1) is therefore served normally.
- **Which repository the service uses.** The service shown reads and writes
  `MemberRepository`, a single node, not the facade.

## Model

| member | source | states |
|---|---|---|
| Domain.Create | src/main/kotlin/com/example/redisconfiguration/domain/Member.kt:25-27 | the created member carries exactly the given id and name |
| Domain.Equals | src/main/kotlin/com/example/redisconfiguration/domain/Member.kt:18-22 | `equals` holds exactly when the other reference is a `Member` with the same id and name; null and foreign objects are never equal |
| Domain.CreateEqualsIff | src/main/kotlin/com/example/redisconfiguration/domain/Member.kt:18-27 | two created members are equal iff their ids and names agree |
| Domain.EqualsIsEquivalence | src/main/kotlin/com/example/redisconfiguration/domain/Member.kt:18-22 | `equals` is reflexive, symmetric and transitive, and false for null and non-members |
| Codec.DecodeEncode | src/main/kotlin/com/example/redisconfiguration/repository/MemberRepository.kt:22-48 | the text `set` stores for a member parses back to that same member on `get` |
| Codec.EncodeNotBlank | src/main/kotlin/com/example/redisconfiguration/repository/MemberRepository.kt:43-46 | a stored member is never blank, so `get` never mistakes it for an empty value |
| Codec.ParseShowInt | src/main/kotlin/com/example/redisconfiguration/repository/MemberRepository.kt:23 | the decimal text of any id, negative ones included, parses back to that id and leaves the text after it untouched |
| Codec.UnescapeEscape | src/main/kotlin/com/example/redisconfiguration/repository/MemberRepository.kt:23 | an escaped name followed by its closing quote reads back as that name, leaving what follows the quote untouched |
| RedisConfig.MemberKeyInjective | src/main/kotlin/com/example/redisconfiguration/service/MemberService.kt:28 | distinct member ids never share a cache key |
| RedisConfig.MemberKeys | src/main/kotlin/com/example/redisconfiguration/service/MemberService.kt:90 | one key per id, in id order, each the id's own member key |
| Per.PerScore | src/main/kotlin/com/example/redisconfiguration/repository/AbstractRedisServerRepository.kt:18-20 | the score never exceeds the remaining TTL, so PER only ever shortens an entry's life; a non-positive TTL gives a non-positive score |
| Per.PenaltyIsProduct | src/main/kotlin/com/example/redisconfiguration/repository/AbstractRedisServerRepository.kt:19 | for non-negative `delta` and `beta` the subtracted penalty is `delta * beta * -ln(U)` |
| Per.ScoreAntitoneInBeta | src/main/kotlin/com/example/redisconfiguration/repository/AbstractRedisServerRepository.kt:13-20 | a larger `beta` never raises the score: recomputation becomes more eager, as the documentation of `beta` says |
| Per.ScoreAntitoneInDelta | src/main/kotlin/com/example/redisconfiguration/repository/AbstractRedisServerRepository.kt:8-20 | a wider recompute window `delta` never raises the score |
| Per.RefreshAntitoneInRemaining | src/main/kotlin/com/example/redisconfiguration/repository/MemberRepository.kt:67-71 | for one draw, a key that refreshes at some remaining TTL also refreshes at every smaller non-negative TTL |
| Per.ZeroRemainingAlwaysRefreshes | src/main/kotlin/com/example/redisconfiguration/repository/MemberRepository.kt:67-71 | a key with 0 ms left refreshes whatever the draw |
| Per.NegativeRemainingNeverRefreshes | src/main/kotlin/com/example/redisconfiguration/repository/MemberRepository.kt:68-69 | a missing key (-2) or a key without expiry (-1) never refreshes |
| Per.ShortTtlRefreshDependsOnDraw | src/test/kotlin/com/example/redisconfiguration/repository/MemberRepositoryTest.kt:74-90 | with 100 ms left and the default window, some draws refresh and some do not, so the "near expiry reads null" expectation holds only by chance |
| CacheStore.GetExpireMs | src/main/kotlin/com/example/redisconfiguration/repository/MemberRepository.kt:68 | `getExpire` is -2 iff the key is missing, -1 iff it has no expiry, and otherwise the remaining milliseconds |
| CacheStore.ShouldRefreshKey | src/main/kotlin/com/example/redisconfiguration/repository/MemberRepository.kt:67-71 | only a present key with a TTL can refresh, and one with 0 ms left always does |
| CacheStore.PipelineStop | src/main/kotlin/com/example/redisconfiguration/repository/MemberRepository.kt:26-33 | the number of pairs a pipelined write applies: every `set` before it succeeds and, when it is short of the list, the `set` at it fails |
| CacheStore.CacheNode.Set | src/main/kotlin/com/example/redisconfiguration/repository/MemberRedisServer1Repository.kt:24-26 | it throws exactly when the backend fails or the expire time is not positive; on success only `key` changes, to the encoded member with its TTL; on failure nothing changes |
| CacheStore.CacheNode.SetUsingPipeline | src/main/kotlin/com/example/redisconfiguration/repository/MemberRedisServer3Repository.kt:26-33 | the node ends holding the pairs before the first failing `set` applied in list order, and the call throws exactly that `set`'s exception |
| CacheStore.CacheNode.Get | src/main/kotlin/com/example/redisconfiguration/repository/MemberRepository.kt:35-49 | the answer is the read specification `Lookup`: a backend failure throws; a PER refresh, a missing key or a blank value reads null; otherwise the decoded member, or a decode failure |
| CacheStore.CacheNode.GetUsingCoroutine | src/main/kotlin/com/example/redisconfiguration/repository/MemberRedisServer1Repository.kt:70 | the same answer as `get` |
| CacheStore.CacheNode.GetUsingPipeline | src/main/kotlin/com/example/redisconfiguration/repository/MemberRedisServer1Repository.kt:53-68 | one `get` result per key in key order, or the exception of some key whose `get` threw |
| CacheStore.SetThenGet | src/test/kotlin/com/example/redisconfiguration/repository/MemberRepositoryTest.kt:39-57 | after `set`, an undisturbed `get` of the key returns the member written |
| CacheStore.SetSixtySecondsThenGet | src/test/kotlin/com/example/redisconfiguration/repository/MemberRepositoryTest.kt:39-57 | with a 60 s TTL the read back succeeds for every draw with `ln(U) > -20` |
| CacheStore.NeverWrittenReadsNull | src/test/kotlin/com/example/redisconfiguration/repository/MemberRepositoryTest.kt:60-72 | a key never written reads null |
| CacheStore.ExpiringKeyReadsNull | src/main/kotlin/com/example/redisconfiguration/repository/MemberRepository.kt:36-39 | a key with 0 ms left reads null |
| CacheStore.RefreshReadsNull | src/main/kotlin/com/example/redisconfiguration/repository/MemberRepository.kt:36-39 | whenever the PER test fires, the read is null whatever is stored |
| CacheStore.PutAllAt | src/main/kotlin/com/example/redisconfiguration/repository/MemberRepository.kt:26-33 | after a pipelined write each listed key holds its last listed member and the new TTL; every other key is untouched |
| CacheStore.LastForIsLast | src/main/kotlin/com/example/redisconfiguration/repository/MemberRepository.kt:26-33 | a key listed in a pipelined write has a last listed member, which is the member of the last pair under that key |
| CacheStore.PipelineReadBack | src/test/kotlin/com/example/redisconfiguration/repository/MemberRepositoryTest.kt:94-146 | after a pipelined write every listed key reads back the member last listed for it |
| CacheStore.PipelineWithoutFaultAppliesAll | src/main/kotlin/com/example/redisconfiguration/repository/MemberRepository.kt:26-33 | with a positive expire time and no failure, every pair is applied and nothing is thrown |
| CacheStore.BulkReadDoneIff | src/main/kotlin/com/example/redisconfiguration/repository/MemberRepository.kt:51-65 | a pipelined read succeeds iff every key's `get` succeeds, and then gives one result per key |
| Facade.SetWith | src/main/kotlin/com/example/redisconfiguration/repository/MemberFacadeRedisRepositoryImpl.kt:126-134 | a connection failure or timeout of the wrapped write is swallowed; any other exception escapes unchanged |
| Facade.KeyedCopies | src/main/kotlin/com/example/redisconfiguration/repository/MemberFacadeRedisRepositoryImpl.kt:78-80 | one pair per member, in order, keyed by the member's own id and holding an equal copy |
| Facade.Fallback | src/main/kotlin/com/example/redisconfiguration/repository/MemberFacadeRedisRepositoryImpl.kt:149-155 | a connection failure or timeout becomes a placeholder with the requested id and the matching sentinel name; any answer passes through; no caught kind ever surfaces |
| Facade.BulkFallback | src/main/kotlin/com/example/redisconfiguration/repository/MemberFacadeRedisRepositoryImpl.kt:171-177 | a connection failure or timeout becomes one placeholder per requested id, in id order, each named with the matching sentinel (`redis connection failure fallback` or `query timeout fallback`); any answer passes through |
| Facade.FanOutRepository.constructor | src/main/kotlin/com/example/redisconfiguration/repository/MemberFacadeRedisRepositoryImpl.kt:17-22 | the facade holds the three given repositories and the configured node count |
| Facade.FanOutRepository.GetNodeIndex | src/main/kotlin/com/example/redisconfiguration/repository/MemberFacadeRedisRepositoryImpl.kt:180 | an index in `[0, nodes.size)`, or an exception when no node is configured |
| Facade.FanOutRepository.SetMemberCache | src/main/kotlin/com/example/redisconfiguration/repository/MemberFacadeRedisRepositoryImpl.kt:27-75 | the nodes end as `Facade.FanOutSet` gives them (each node reached by the job and not failing holds the member), and the job's escaping exception is the first uncaught one |
| Facade.FanOutRepository.SetMembersCache | src/main/kotlin/com/example/redisconfiguration/repository/MemberFacadeRedisRepositoryImpl.kt:77-124 | the same for the pipelined write of the keyed copies |
| Facade.FanOutRepository.GetMemberCache | src/main/kotlin/com/example/redisconfiguration/repository/MemberFacadeRedisRepositoryImpl.kt:136-156 | the answer is some configured node's read with the fallback applied; an index past server 3 throws; no node configured throws |
| Facade.FanOutRepository.GetMembersCache | src/main/kotlin/com/example/redisconfiguration/repository/MemberFacadeRedisRepositoryImpl.kt:158-178 | the answer is some configured node's pipelined read with the bulk fallback applied |
| Facade.EscapingIsFirst | src/main/kotlin/com/example/redisconfiguration/repository/MemberFacadeRedisRepositoryImpl.kt:32-36 | the job runs to the end iff every write's failure is caught; otherwise it ends with the first uncaught failure, every earlier one having been caught |
| Facade.EscapingOfThree | src/main/kotlin/com/example/redisconfiguration/repository/MemberFacadeRedisRepositoryImpl.kt:84-88 | over three servers the escaping exception is server 1's, else server 2's, else server 3's uncaught failure |
| Facade.WriteIsolation | src/test/kotlin/com/example/redisconfiguration/repository/MemberFacadeRepositoryTests.kt:64-105 | when every failure is caught, each non-failing node holds the member, each failing node is unchanged, and nothing escapes |
| Facade.UncaughtFailureAborts | src/main/kotlin/com/example/redisconfiguration/repository/MemberFacadeRedisRepositoryImpl.kt:32-36 | an uncaught failure on a node leaves that node and every later node unchanged, and is what escapes |
| Facade.FanOutReadBack | src/test/kotlin/com/example/redisconfiguration/repository/MemberFacadeRepositoryTests.kt:35-62 | after a fan-out whose failures were caught, every non-failing node serves the member |
| Facade.SecondNodeTimeoutScenario | src/test/kotlin/com/example/redisconfiguration/repository/MemberFacadeRepositoryTests.kt:107-149 | server 2 timing out leaves servers 1 and 3 holding the member, server 2 unchanged, nothing escaping |
| Facade.BulkWriteIsolation | src/test/kotlin/com/example/redisconfiguration/repository/MemberFacadeRepositoryTests.kt:185-223 | after a bulk fan-out whose failures were caught, every non-failing node serves every listed member under its own key |
| Facade.ReadManyShape | src/main/kotlin/com/example/redisconfiguration/repository/MemberFacadeRedisRepositoryImpl.kt:158-178 | whichever node serves a bulk read, an answer has one entry per id and an exception is never a caught kind |
| Service.Wrap32 | src/main/kotlin/com/example/redisconfiguration/service/MemberService.kt:89 | `start + count` as a Kotlin `Int`: congruent to the exact sum mod 2^32, and equal to it when it fits |
| Service.SliceIds | src/main/kotlin/com/example/redisconfiguration/service/MemberService.kt:89 | an empty range gives no ids; a non-empty range succeeds iff `0 <= start` and `start + count <= 100`, otherwise throws; the ids are `start + 1, start + 2, …`, and a non-empty slice has `count` of them |
| Service.DtoPairs | src/main/kotlin/com/example/redisconfiguration/service/MemberService.kt:48-50 | one `(key, member)` pair per dto, in order, keyed by the dto's id |
| Service.RdbmsPairs | src/main/kotlin/com/example/redisconfiguration/service/MemberService.kt:107-112 | one pair per id, in order, holding that id with the database's name under its own key |
| Service.MemberService.constructor | src/main/kotlin/com/example/redisconfiguration/service/MemberService.kt:21-23 | the service holds the given repository |
| Service.MemberService.Set | src/main/kotlin/com/example/redisconfiguration/service/MemberService.kt:27-45 | answers the requested id exactly when the write succeeds or fails with a caught kind; otherwise rethrows; the node gains exactly that member on success; key consistency is kept |
| Service.MemberService.SetByPipeline | src/main/kotlin/com/example/redisconfiguration/service/MemberService.kt:47-65 | answers one id per dto in dto order unless an uncaught failure escapes; the node holds the pairs applied before the first failure; key consistency is kept |
| Service.MemberService.SetMemberCache | src/main/kotlin/com/example/redisconfiguration/service/MemberService.kt:119-121 | a 60-second `set` of the member under the key: it throws iff the backend fails |
| Service.MemberService.SetMemberCaches | src/main/kotlin/com/example/redisconfiguration/service/MemberService.kt:123-129 | a 60-second pipelined write of the list |
| Service.MemberService.Get | src/main/kotlin/com/example/redisconfiguration/service/MemberService.kt:67-86 | the answer is `Service.GetAnswer` and the new node `Service.GetStore` of the old node, with the write-back joined by `runBlocking`; key consistency is kept |
| Service.MemberService.GetDetachingWriteBack | src/main/kotlin/com/example/redisconfiguration/service/MemberService.kt:67-86 | the same read with the write-back detached: the node changes as before, the answer never depends on the write-back; key consistency is kept |
| Service.MemberService.GetByPipeline | src/main/kotlin/com/example/redisconfiguration/service/MemberService.kt:88-117 | a bad slice throws and writes nothing; otherwise the answer is `Service.BulkAnswer` and the new node `Service.BulkStore` for some outcome of the pipelined read; key consistency is kept |
| Service.MemberService.AnswerBulkRead | src/main/kotlin/com/example/redisconfiguration/service/MemberService.kt:92-116 | after the pipelined read, the answer is `Service.BulkAnswer` and the new node `Service.BulkStore`: the catch clauses, the all-or-nothing test and the joined write-back; key consistency is kept |
| Service.ConsistentPut | src/main/kotlin/com/example/redisconfiguration/service/MemberService.kt:28-37 | caching a member under its own key keeps every stored member under its own key |
| Service.ConsistentPutAll | src/main/kotlin/com/example/redisconfiguration/service/MemberService.kt:47-57 | so does a pipelined write of pairs each keyed by its member's id |
| Service.ConsistentHit | src/main/kotlin/com/example/redisconfiguration/service/MemberService.kt:70-72 | on a consistent node a hit for an id is the member with that id |
| Service.GetAnswersRequestedId | src/main/kotlin/com/example/redisconfiguration/service/MemberService.kt:67-86 | on a consistent node every answer of `get(id)` carries `id` |
| Service.GetKeepsConsistent | src/main/kotlin/com/example/redisconfiguration/service/MemberService.kt:81-83 | `get` keeps a consistent node consistent: its write-back caches the database's member under that member's own key |
| Service.GetHit | src/main/kotlin/com/example/redisconfiguration/service/MemberService.kt:70-72 | a hit answers with the cached member's id and name and writes nothing |
| Service.GetCaughtReadFailure | src/main/kotlin/com/example/redisconfiguration/service/MemberService.kt:73-79 | a connection failure or timeout answers the requested id with the matching sentinel name and writes nothing |
| Service.GetMissWritesBack | src/main/kotlin/com/example/redisconfiguration/service/MemberService.kt:81-85 | a miss answers `(id, "member name retrieved from rdbms")` and caches exactly that member under its key, so an undisturbed read that follows hits it |
| Service.WriteBackFailureReachesCaller | src/main/kotlin/com/example/redisconfiguration/service/MemberService.kt:83 | as written, `get(1)` on an empty node with a failing write-back throws that connection failure |
| Service.DetachedGetFailsOnlyOnRead | src/main/kotlin/com/example/redisconfiguration/service/MemberService.kt:67-86 | with the write-back detached, `get` throws iff the read throws an uncaught kind, and agrees with the code whenever the write-back succeeds |
| Service.FilterNotNullFull | src/main/kotlin/com/example/redisconfiguration/service/MemberService.kt:93-96 | `filterNotNull` keeps every element iff none is null, and then keeps them in order |
| Service.FilterNotNull | src/main/kotlin/com/example/redisconfiguration/service/MemberService.kt:94 | `filterNotNull` never lengthens the list |
| Service.SliceInRange | src/main/kotlin/com/example/redisconfiguration/service/MemberService.kt:89-90 | for `0 <= start`, `count > 0`, `start + count <= 100` the ids are exactly `start + 1 .. start + count` |
| Service.BulkAllOrNothing | src/main/kotlin/com/example/redisconfiguration/service/MemberService.kt:92-116 | the cached members are returned iff none is missing, and then in order and with no write; otherwise the whole range is written back and answered from the database, or the write-back's failure is thrown |
| Service.BulkHitAnswer | src/main/kotlin/com/example/redisconfiguration/service/MemberService.kt:96-97 | when every value was found, the answer is the cached members in key order and nothing is written |
| Service.BulkMissAnswer | src/main/kotlin/com/example/redisconfiguration/service/MemberService.kt:107-116 | when a value is missing, the call throws exactly when the bulk write-back throws, with its exception, and otherwise answers the database's member for every id |
| Service.BulkMissStore | src/main/kotlin/com/example/redisconfiguration/service/MemberService.kt:107-114 | when a value is missing, the node is the one the pipelined write-back of the database list leaves |
| Service.AnswersOfRdbmsPairs | src/main/kotlin/com/example/redisconfiguration/service/MemberService.kt:107-116 | answering from the database list gives each requested id with the database's name, in id order |
| Service.BulkMissWritesBack | src/main/kotlin/com/example/redisconfiguration/service/MemberService.kt:107-116 | a bulk miss with a succeeding write-back answers the database's member for every id and caches each one under its key |
| Service.RdbmsReadBack | src/main/kotlin/com/example/redisconfiguration/service/MemberService.kt:107-114 | after the whole database list is written, an undisturbed read of any requested id finds that id's database member |
| Service.LastForOfOwnKeys | src/main/kotlin/com/example/redisconfiguration/service/MemberService.kt:107-112 | in the database list each id's key is listed only with that id's member |
| Service.BulkAnswerInIdOrder | src/main/kotlin/com/example/redisconfiguration/service/MemberService.kt:96-116 | on a consistent node every answer of `getByPipeline` has one entry per sliced id, in id order, and the node stays consistent |
| Service.HitsAreRequested | src/main/kotlin/com/example/redisconfiguration/service/MemberService.kt:92-97 | on a consistent node, a pipelined read that found every value found exactly the requested members, in key order |
| Service.BulkKeepsConsistent | src/main/kotlin/com/example/redisconfiguration/service/MemberService.kt:107-114 | `getByPipeline` keeps a consistent node consistent, however far its write-back gets |
| Service.PipelinedRdbmsKeepsConsistent | src/main/kotlin/com/example/redisconfiguration/service/MemberService.kt:107-114 | any prefix of the database list that the pipeline applies lands each member under its own key |
| Service.BulkWriteBackFailureReachesCaller | src/main/kotlin/com/example/redisconfiguration/service/MemberService.kt:114 | as written, a bulk miss whose write-back fails throws that connection failure |
| Service.DetachedBulkFailsOnlyOnRead | src/main/kotlin/com/example/redisconfiguration/service/MemberService.kt:107-116 | with the bulk write-back detached, `getByPipeline` throws iff the read throws an uncaught kind, and agrees with the code whenever the write-back succeeds |

## Left out

- **JSON format.** Jackson's JSON is modelled by one canonical text per member. Other spellings of the same object are not modelled: whitespace, field order, unknown fields, numbers written as strings. Every Jackson parse error becomes `DecodeFailure`. Jackson reads a stored `null` as a null member, so the source treats it as a miss, while the model's `Lookup` reports `DecodeFailure`; no write path of the service stores that text.
- **Other `Member` members.** `Member.hashCode` and `Member.toString` are not modelled; no modelled operation uses them.
- **Floating point.** The PER score is computed over the reals. The `Float` rounding of `delta * beta`, the `Double` result and the `<= 0.0f` comparison are not modelled.
- **Zero draw.** `Math.random()` can return 0.0, giving `ln = -infinity`. The model has no infinite draw; any very negative draw stands for it, and it refreshes the same way.
- **Random distributions.** Neither the uniform distribution of the PER draw nor that of the node index is modelled. The draw and the index are inputs or nondeterministic choices, so every property holds for all of them. Probabilities are not stated.
- **Clock.** Time does not pass. A stored entry keeps the TTL it was written with, and a read sees that snapshot. Physical expiry and eviction are not modelled.
- **TTL width.** `TimeUnit.toMillis` saturates at 64 bits; the model converts without overflow.
- **Logging.** `logger` calls have no effect on state or results and are not modelled.
- **Coroutine concurrency.** The `async` reads of a pipelined read are modelled one after the other, in key order. A job launched by the facade is modelled as running to completion within the call. Interleavings with other requests are not modelled.
- CacheStore.CacheNode.GetUsingPipeline: when several keys fail, `awaitAll` reports one of them; the model only states that the exception is some failing key's.
- **One fault per read.** A `get` makes two backend calls, `getExpire` for the PER test and then the value read. The model gives the read a single optional failure, raised before the PER test. Every outcome of the two calls is still reachable: a failure of either call throws that failure. The model does not distinguish which of the two calls failed.
- **Pipelining.** The connection binding and deferred replies of `executePipelined` are not modelled. Each command inside a pipeline acts immediately, and a failing `set` stops the walk.
- **Server 2.** `MemberRedisServer2Repository` is not part of this model. It is taken to behave like servers 1 and 3.
- **Key and TTL constants.** `RedisKey` and `RedisExpireTime` are not part of this model. The key is spelled `member:<id>`, and the model relies only on distinct ids giving distinct keys. The TTL is 60 seconds, and the model relies only on it being positive.
- **Exception types.** Spring exception types other than connection failure and timeout are merged into a few error kinds. The text of exception messages is not modelled.
- Facade.FanOutRepository.GetMemberCache: states that the answer is that of some configured node, not which node.
- Facade.FanOutRepository.SetMemberCache: the launched job runs inside the call and its escaping exception is returned. In Kotlin the caller returns at once, and the exception goes to the coroutine's uncaught-exception handler.
- Service.MemberService.GetByPipeline: states the answer for some outcome of the pipelined read, because the read itself only fixes it up to which failing key is reported.
- Service.BulkAnswerInIdOrder: id order is proved only for nodes where every stored member sits under its own member's key. The service keeps that invariant itself (`MemberService.Valid`), but a node written by other code need not satisfy it.

## Findings

| source | as written | input that shows it | evidently intended | confidence | as-written member | corrected member |
|---|---|---|---|---|---|---|
| src/main/kotlin/com/example/redisconfiguration/service/MemberService.kt:83 | the cache write-back is launched as a child of `runBlocking`, which waits for it and rethrows its failure | `get(1)` on an empty cache, read succeeds, write-back `set` throws `RedisConnectionFailureException` | the miss answers `(1, "member name retrieved from rdbms")`; a write-back failure is logged like the read's own connection failures | medium, not executed | Service.WriteBackFailureReachesCaller | Service.DetachedGetFailsOnlyOnRead |
| src/main/kotlin/com/example/redisconfiguration/service/MemberService.kt:114 | the bulk write-back is launched as a child of `runBlocking`, which waits for it and rethrows its failure | `getByPipeline(0, 2)` with both ids missing, the pipelined write-back's first `set` throws `RedisConnectionFailureException` | the miss answers the database's members for ids 1 and 2; the write-back failure does not reach the caller | medium, not executed | Service.BulkWriteBackFailureReachesCaller | Service.DetachedBulkFailsOnlyOnRead |
