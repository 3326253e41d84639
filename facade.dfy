/** `MemberFacadeRedisRepositoryImpl`: one logical member cache replicated on
    three Redis nodes. Writes go to every node, one after the other, inside
    a launched coroutine; a read is served by one node picked at random. */
module Facade {
  import opened Outcomes
  import opened Domain
  import opened CacheStore
  import RedisConfig

  const ConnectionFailureName: string := "redis connection failure fallback"
  const QueryTimeoutName: string := "query timeout fallback"

  /** Every facade write uses `RedisExpireTime.MEMBER` seconds. */
  const MemberTtlMs: nat := TtlMs(RedisConfig.MemberExpireSeconds, Seconds)

  /** `setWith { ... }`: a connection failure or a timeout of the wrapped
      write is caught; any other exception escapes. */
  function SetWith(o: Outcome<()>): (escaped: Option<ErrorKind>)
    ensures escaped.None? <==> (o.Done? || Absorbed(o.error))
    ensures escaped.Some? ==> o == Thrown(escaped.value)
  {
    if o.Thrown? && !Absorbed(o.error) then Some(o.error) else None
  }

  /** The launched job gets as far as node `i`: no write before it let an
      exception escape. */
  predicate Reaches(errors: seq<Option<ErrorKind>>, i: nat)
    requires i <= |errors|
  {
    forall j :: 0 <= j < i ==> Swallowed(errors[j])
  }

  /** The exception that ends the launched job, if any. Kotlin hands it to the
      coroutine's uncaught-exception handler; the caller never sees it. */
  function Escaping(errors: seq<Option<ErrorKind>>): Option<ErrorKind>
  {
    if |errors| == 0 then None
    else if !Swallowed(errors[0]) then errors[0]
    else Escaping(errors[1..])
  }

  /** The node stores after the job launched by `setMemberCache`, when node
      `i`'s `set` meets `faults[i]`. */
  function FanOutSet(stores: seq<Store>, key: string, m: Member, faults: seq<Option<ErrorKind>>): seq<Store>
    requires |faults| == |stores|
  {
    seq(|stores|, i requires 0 <= i < |stores| =>
      if Reaches(faults, i) && faults[i].None? then Put(stores[i], key, m, MemberTtlMs) else stores[i])
  }

  /** What each node's pipelined write raises, for `n` pairs. */
  function PipelineErrors(n: nat, faults: seq<Option<PipelineFault>>): (errors: seq<Option<ErrorKind>>)
    ensures |errors| == |faults|
  {
    seq(|faults|, i requires 0 <= i < |faults| => PipelineError(n, RedisConfig.MemberExpireSeconds, faults[i]))
  }

  /** One node's store after its pipelined write of `pairs` meets `fault`. */
  function PipelinedPut(store: Store, pairs: seq<(string, Member)>, fault: Option<PipelineFault>): Store
  {
    PutAll(store, pairs[..PipelineStop(|pairs|, RedisConfig.MemberExpireSeconds, fault)], MemberTtlMs)
  }

  /** The node stores after the job launched by `setMembersCache`. */
  function FanOutSetAll(stores: seq<Store>, pairs: seq<(string, Member)>, faults: seq<Option<PipelineFault>>): seq<Store>
    requires |faults| == |stores|
  {
    seq(|stores|, i requires 0 <= i < |stores| =>
      if Reaches(PipelineErrors(|pairs|, faults), i) then PipelinedPut(stores[i], pairs, faults[i]) else stores[i])
  }

  /** The `(key, copy)` list `setMembersCache` builds: each copy is created
      afresh and equals its input member by value. */
  function KeyedCopies(values: seq<Member>): (pairs: seq<(string, Member)>)
    ensures |pairs| == |values|
    ensures forall i :: 0 <= i < |values| ==> pairs[i] == (RedisConfig.MemberKey(values[i].id), values[i])
  {
    seq(|values|, i requires 0 <= i < |values| =>
      (RedisConfig.MemberKey(values[i].id), Create(values[i].id, values[i].name)))
  }

  /** The catch clauses of `getMemberCache`: a connection failure or a timeout
      becomes a placeholder member carrying the requested id. */
  function Fallback(id: int64, o: Outcome<Option<Member>>): (r: Outcome<Option<Member>>)
    ensures r.Thrown? ==> !Absorbed(r.error) && r == o
    ensures o.Done? ==> r == o
    ensures o == Thrown(ConnectionFailure) ==> r == Done(Some(Member(id, ConnectionFailureName)))
    ensures o == Thrown(QueryTimeout) ==> r == Done(Some(Member(id, QueryTimeoutName)))
  {
    match o
    case Thrown(ConnectionFailure) => Done(Some(Create(id, ConnectionFailureName)))
    case Thrown(QueryTimeout) => Done(Some(Create(id, QueryTimeoutName)))
    case _ => o
  }

  /** `ids.map { Member.create(id = it, name = name) }`. */
  function Placeholders(ids: seq<int64>, name: string): (ms: seq<Option<Member>>)
    ensures |ms| == |ids|
    ensures forall i :: 0 <= i < |ids| ==> ms[i] == Some(Member(ids[i], name))
  {
    seq(|ids|, i requires 0 <= i < |ids| => Some(Create(ids[i], name)))
  }

  /** The catch clauses of `getMembersCache`: one placeholder per requested
      id, in the order requested. */
  function BulkFallback(ids: seq<int64>, o: Outcome<seq<Option<Member>>>): (r: Outcome<seq<Option<Member>>>)
    ensures r.Thrown? ==> !Absorbed(r.error) && r == o
    ensures o.Done? ==> r == o
    ensures o.Thrown? && Absorbed(o.error) ==>
      r.Done? && |r.value| == |ids|
      && forall i :: 0 <= i < |ids| ==>
           r.value[i] == Some(Member(ids[i], if o.error == ConnectionFailure then ConnectionFailureName else QueryTimeoutName))
  {
    match o
    case Thrown(ConnectionFailure) => Done(Placeholders(ids, ConnectionFailureName))
    case Thrown(QueryTimeout) => Done(Placeholders(ids, QueryTimeoutName))
    case _ => o
  }

  class FanOutRepository {
    const node1: CacheNode
    const node2: CacheNode
    const node3: CacheNode
    /** `redisServers.nodes.size`, the configured number of nodes. */
    const nodeCount: nat

    /** The three repositories are distinct beans over distinct nodes. */
    ghost predicate Valid()
    {
      node1 != node2 && node1 != node3 && node2 != node3
    }

    constructor (server1: CacheNode, server2: CacheNode, server3: CacheNode, configuredNodes: nat)
      requires server1 != server2 && server1 != server3 && server2 != server3
      ensures Valid()
      ensures node1 == server1 && node2 == server2 && node3 == server3 && nodeCount == configuredNodes
    {
      node1, node2, node3 := server1, server2, server3;
      nodeCount := configuredNodes;
    }

    function Stores(): (stores: seq<Store>)
      reads node1, node2, node3
      ensures |stores| == 3
    {
      [node1.entries, node2.entries, node3.entries]
    }

    /** `getNodeIndex()`: `(1..nodes.size).random() - 1`, a uniformly random
        index, here any index; an empty range throws. */
    method GetNodeIndex() returns (r: Outcome<int>)
      ensures nodeCount == 0 ==> r == Thrown(EmptyRandomRange)
      ensures nodeCount > 0 ==> r.Done? && 0 <= r.value < nodeCount
    {
      if nodeCount == 0 {
        return Thrown(EmptyRandomRange);
      }
      var pick :| 1 <= pick <= nodeCount;
      r := Done(pick - 1);
    }

    /** `setMemberCache(value)`: the launched job writes the member to server
        1, then 2, then 3, each write wrapped by `setWith`. Returns the
        exception that ended the job early, if any. */
    method SetMemberCache(value: Member, faults: seq<Option<ErrorKind>>) returns (escaped: Option<ErrorKind>)
      requires Valid() && |faults| == 3
      modifies node1, node2, node3
      ensures Stores() == FanOutSet(old(Stores()), RedisConfig.MemberKey(value.id), value, faults)
      ensures escaped == Escaping(faults)
    {
      var key := RedisConfig.MemberKey(value.id);
      ghost var before := Stores();
      ghost var target := FanOutSet(before, key, value, faults);
      EscapingOfThree(faults);
      var o := node1.Set(key, value, RedisConfig.MemberExpireSeconds, Seconds, faults[0]);
      escaped := SetWith(o);
      if escaped.Some? {
        return;
      }
      o := node2.Set(key, value, RedisConfig.MemberExpireSeconds, Seconds, faults[1]);
      escaped := SetWith(o);
      if escaped.Some? {
        return;
      }
      o := node3.Set(key, value, RedisConfig.MemberExpireSeconds, Seconds, faults[2]);
      escaped := SetWith(o);
    }

    /** `setMembersCache(values)`: builds the `(key, copy)` list once, then
        the launched job hands the whole list to each server's pipelined
        write in turn, each wrapped by `setWith`. */
    method SetMembersCache(values: seq<Member>, faults: seq<Option<PipelineFault>>) returns (escaped: Option<ErrorKind>)
      requires Valid() && |faults| == 3
      modifies node1, node2, node3
      ensures Stores() == FanOutSetAll(old(Stores()), KeyedCopies(values), faults)
      ensures escaped == Escaping(PipelineErrors(|values|, faults))
    {
      var pairs := KeyedCopies(values);
      ghost var errors := PipelineErrors(|pairs|, faults);
      ghost var before := Stores();
      ghost var update := seq(3, i requires 0 <= i < 3 => PipelinedPut(before[i], pairs, faults[i]));
      EscapingOfThree(errors);
      FanOutSetAllOfThree(before, pairs, faults);
      var o := node1.SetUsingPipeline(pairs, RedisConfig.MemberExpireSeconds, Seconds, faults[0]);
      assert node1.entries == update[0];
      escaped := SetWith(o);
      assert o.Done? <==> errors[0].None?;
      if escaped.Some? {
        assert Stores() == [update[0], before[1], before[2]];
        return;
      }
      o := node2.SetUsingPipeline(pairs, RedisConfig.MemberExpireSeconds, Seconds, faults[1]);
      assert node2.entries == update[1];
      escaped := SetWith(o);
      assert o.Done? <==> errors[1].None?;
      if escaped.Some? {
        assert Stores() == [update[0], update[1], before[2]];
        return;
      }
      o := node3.SetUsingPipeline(pairs, RedisConfig.MemberExpireSeconds, Seconds, faults[2]);
      assert node3.entries == update[2];
      escaped := SetWith(o);
      assert o.Done? <==> errors[2].None?;
      assert Stores() == [update[0], update[1], update[2]];
    }

    /** A read of member `id` served by node index `i`. */
    function ReadOneVia(i: nat, id: int64, env: CallEnv): Outcome<Option<Member>>
      reads node1, node2, node3
    {
      if i < 3 then Fallback(id, Lookup(Stores()[i], RedisConfig.MemberKey(id), env))
      else Thrown(NoSuchNode)
    }

    /** The possible answers of a bulk read served by node index `i`. */
    ghost predicate ReadManyVia(i: nat, ids: seq<int64>, envs: seq<CallEnv>, r: Outcome<seq<Option<Member>>>)
      requires |envs| == |ids|
      reads node1, node2, node3
    {
      if i < 3 then exists o :: BulkRead(Stores()[i], RedisConfig.MemberKeys(ids), envs, o) && r == BulkFallback(ids, o)
      else r == Thrown(NoSuchNode)
    }

    /** `getMemberCache(id)`: reads the member from the one node the random
        index selects; an index past the third node throws. */
    method GetMemberCache(id: int64, env: CallEnv) returns (r: Outcome<Option<Member>>)
      ensures nodeCount == 0 ==> r == Thrown(EmptyRandomRange)
      ensures nodeCount > 0 ==> exists i :: 0 <= i < nodeCount && r == ReadOneVia(i, id, env)
    {
      var key := RedisConfig.MemberKey(id);
      var index := GetNodeIndex();
      if index.Thrown? {
        return Thrown(index.error);
      }
      var o: Outcome<Option<Member>>;
      if index.value == 0 {
        o := node1.Get(key, env);
      } else if index.value == 1 {
        o := node2.Get(key, env);
      } else if index.value == 2 {
        o := node3.Get(key, env);
      } else {
        o := Thrown(NoSuchNode);
      }
      r := Fallback(id, o);
      assert r == ReadOneVia(index.value, id, env);
    }

    /** `getMembersCache(ids)`: the whole batch is read from the one node the
        random index selects, through its pipelined read. */
    method GetMembersCache(ids: seq<int64>, envs: seq<CallEnv>) returns (r: Outcome<seq<Option<Member>>>)
      requires |envs| == |ids|
      ensures nodeCount == 0 ==> r == Thrown(EmptyRandomRange)
      ensures nodeCount > 0 ==> exists i :: 0 <= i < nodeCount && ReadManyVia(i, ids, envs, r)
    {
      var keys := RedisConfig.MemberKeys(ids);
      var index := GetNodeIndex();
      if index.Thrown? {
        return Thrown(index.error);
      }
      var o: Outcome<seq<Option<Member>>>;
      if index.value == 0 {
        o := node1.GetUsingPipeline(keys, envs);
      } else if index.value == 1 {
        o := node2.GetUsingPipeline(keys, envs);
      } else if index.value == 2 {
        o := node3.GetUsingPipeline(keys, envs);
      } else {
        o := Thrown(NoSuchNode);
      }
      r := BulkFallback(ids, o);
      assert ReadManyVia(index.value, ids, envs, r);
    }
  }

  /** The job runs to the end exactly when every write's failure is caught,
      and otherwise ends with the first exception that escapes, after which
      no later node is written. */
  lemma {:induction false} EscapingIsFirst(errors: seq<Option<ErrorKind>>)
    ensures Escaping(errors).None? <==> Reaches(errors, |errors|)
    ensures Escaping(errors).Some? ==>
      exists j :: 0 <= j < |errors| && errors[j] == Escaping(errors)
                  && !Absorbed(errors[j].value) && Reaches(errors, j)
  {
    if |errors| > 0 {
      EscapingIsFirst(errors[1..]);
      if Swallowed(errors[0]) && Escaping(errors).Some? {
        var j :| 0 <= j < |errors[1..]| && errors[1..][j] == Escaping(errors[1..])
                 && !Absorbed(errors[1..][j].value) && Reaches(errors[1..], j);
        assert errors[j + 1] == Escaping(errors) && Reaches(errors, j + 1);
      }
      if Swallowed(errors[0]) && Escaping(errors).None? {
        assert forall j :: 1 <= j < |errors| ==> errors[j] == errors[1..][j - 1];
      }
    }
  }

  /** The job over three nodes stops at the first of them whose failure is
      not caught. */
  lemma EscapingOfThree(errors: seq<Option<ErrorKind>>)
    requires |errors| == 3
    ensures Escaping(errors) ==
      if !Swallowed(errors[0]) then errors[0]
      else if !Swallowed(errors[1]) then errors[1]
      else if !Swallowed(errors[2]) then errors[2]
      else None
  {
    var rest1 := errors[1..];
    var rest2 := rest1[1..];
    assert rest1[0] == errors[1] && rest2[0] == errors[2];
    assert Escaping(rest2[1..]) == None;
    assert Escaping(rest2) == if !Swallowed(errors[2]) then errors[2] else None;
  }

  /** The stores after a pipelined fan-out over three nodes, node by node. */
  lemma FanOutSetAllOfThree(stores: seq<Store>, pairs: seq<(string, Member)>, faults: seq<Option<PipelineFault>>)
    requires |stores| == 3 && |faults| == 3
    ensures var errors := PipelineErrors(|pairs|, faults);
      FanOutSetAll(stores, pairs, faults) ==
      [ PipelinedPut(stores[0], pairs, faults[0]),
        if Swallowed(errors[0]) then PipelinedPut(stores[1], pairs, faults[1]) else stores[1],
        if Swallowed(errors[0]) && Swallowed(errors[1]) then PipelinedPut(stores[2], pairs, faults[2]) else stores[2] ]
  {
    var errors := PipelineErrors(|pairs|, faults);
    var after := FanOutSetAll(stores, pairs, faults);
    assert Reaches(errors, 0);
    assert Reaches(errors, 1) <==> Swallowed(errors[0]);
    assert Reaches(errors, 2) <==> Swallowed(errors[0]) && Swallowed(errors[1]);
    assert after[0] == PipelinedPut(stores[0], pairs, faults[0]);
  }

  /** Failure isolation: when every node's write either succeeds or fails
      with a caught kind, every node without a fault holds the member and a
      failed node is unchanged. */
  lemma WriteIsolation(stores: seq<Store>, key: string, m: Member, faults: seq<Option<ErrorKind>>, i: nat)
    requires |faults| == |stores| && i < |stores|
    requires forall j :: 0 <= j < |faults| ==> Swallowed(faults[j])
    ensures faults[i].None? ==> FanOutSet(stores, key, m, faults)[i] == Put(stores[i], key, m, MemberTtlMs)
    ensures faults[i].Some? ==> FanOutSet(stores, key, m, faults)[i] == stores[i]
    ensures Escaping(faults).None?
  {
    EscapingIsFirst(faults);
  }

  /** A non-caught failure on node `j` stops the job: every later node is
      left as it was and the failure is what escapes. */
  lemma UncaughtFailureAborts(stores: seq<Store>, key: string, m: Member, faults: seq<Option<ErrorKind>>, j: nat)
    requires |faults| == |stores| && j < |stores|
    requires !Swallowed(faults[j]) && Reaches(faults, j)
    ensures forall i :: j <= i < |stores| ==> FanOutSet(stores, key, m, faults)[i] == stores[i]
    ensures Escaping(faults) == faults[j]
  {
    EscapingIsFirst(faults);
  }

  /** After a fan-out write whose failures were all caught, a node that did
      not fail serves the written member on an undisturbed read. */
  lemma FanOutReadBack(stores: seq<Store>, m: Member, faults: seq<Option<ErrorKind>>, i: nat, env: CallEnv)
    requires |faults| == |stores| && i < |stores|
    requires forall j :: 0 <= j < |faults| ==> Swallowed(faults[j])
    requires faults[i].None? && env.fault.None?
    requires !ShouldRefreshKey(FanOutSet(stores, RedisConfig.MemberKey(m.id), m, faults)[i], RedisConfig.MemberKey(m.id), env.lnDraw)
    ensures Lookup(FanOutSet(stores, RedisConfig.MemberKey(m.id), m, faults)[i], RedisConfig.MemberKey(m.id), env) == Done(Some(m))
  {
    var key := RedisConfig.MemberKey(m.id);
    WriteIsolation(stores, key, m, faults, i);
    SetThenGet(stores[i], key, m, MemberTtlMs, env);
  }

  /** Server 2 times out while servers 1 and 3 answer: both of them hold the
      member, server 2 is unchanged and nothing escapes. */
  lemma SecondNodeTimeoutScenario(stores: seq<Store>, m: Member)
    requires |stores| == 3
    ensures var after := FanOutSet(stores, RedisConfig.MemberKey(m.id), m, [None, Some(QueryTimeout), None]);
      && after[0] == Put(stores[0], RedisConfig.MemberKey(m.id), m, MemberTtlMs)
      && after[1] == stores[1]
      && after[2] == Put(stores[2], RedisConfig.MemberKey(m.id), m, MemberTtlMs)
      && Escaping([None, Some(QueryTimeout), None]).None?
  {
    var faults: seq<Option<ErrorKind>> := [None, Some(QueryTimeout), None];
    WriteIsolation(stores, RedisConfig.MemberKey(m.id), m, faults, 0);
    WriteIsolation(stores, RedisConfig.MemberKey(m.id), m, faults, 1);
    WriteIsolation(stores, RedisConfig.MemberKey(m.id), m, faults, 2);
  }

  /** Bulk failure isolation: when every node's pipelined write either
      succeeds or fails with a caught kind, each node without a fault holds
      every listed member, each under its own key. */
  lemma BulkWriteIsolation(stores: seq<Store>, values: seq<Member>, faults: seq<Option<PipelineFault>>, i: nat, k: nat, env: CallEnv)
    requires |faults| == |stores| && i < |stores| && k < |values|
    requires forall j :: 0 <= j < |faults| ==> Swallowed(PipelineErrors(|values|, faults)[j])
    requires faults[i].None? && env.fault.None?
    requires !ShouldRefreshKey(FanOutSetAll(stores, KeyedCopies(values), faults)[i],
                               RedisConfig.MemberKey(values[k].id), env.lnDraw)
    ensures Lookup(FanOutSetAll(stores, KeyedCopies(values), faults)[i], RedisConfig.MemberKey(values[k].id), env)
            == Done(LastFor(KeyedCopies(values), RedisConfig.MemberKey(values[k].id)))
    ensures LastFor(KeyedCopies(values), RedisConfig.MemberKey(values[k].id)).Some?
  {
    var pairs := KeyedCopies(values);
    PipelineWithoutFaultAppliesAll(|pairs|, RedisConfig.MemberExpireSeconds);
    assert pairs[..|pairs|] == pairs;
    assert FanOutSetAll(stores, pairs, faults)[i] == PutAll(stores[i], pairs, MemberTtlMs);
    PipelineReadBack(stores[i], pairs, MemberTtlMs, k, env);
  }

  /** Whatever node serves it, a bulk read that answers gives one result
      per requested id, and a placeholder answer carries the requested ids in
      order. */
  lemma ReadManyShape(repo: FanOutRepository, i: nat, ids: seq<int64>, envs: seq<CallEnv>, r: Outcome<seq<Option<Member>>>)
    requires |envs| == |ids| && repo.ReadManyVia(i, ids, envs, r)
    ensures r.Done? ==> |r.value| == |ids|
    ensures r.Thrown? ==> !Absorbed(r.error)
  {
    if i < 3 {
      var o :| BulkRead(repo.Stores()[i], RedisConfig.MemberKeys(ids), envs, o) && r == BulkFallback(ids, o);
    }
  }
}
