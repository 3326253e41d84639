/** Stand-ins for `RedisKey.getMemberKey` and `RedisExpireTime.MEMBER`, whose
    definitions are not part of this model. The key is some text determined
    by the id; the model spells it "member:<id>" and relies only on distinct
    ids giving distinct keys. The TTL is some positive number of seconds. */
module RedisConfig {
  import opened Domain
  import Codec

  const MemberExpireSeconds: nat := 60

  function MemberKey(id: int64): string
  {
    "member:" + Codec.ShowInt(id)
  }

  /** `ids.map { RedisKey.getMemberKey(id = it) }`. */
  function MemberKeys(ids: seq<int64>): (keys: seq<string>)
    ensures |keys| == |ids|
    ensures forall i :: 0 <= i < |ids| ==> keys[i] == MemberKey(ids[i])
  {
    seq(|ids|, i requires 0 <= i < |ids| => MemberKey(ids[i]))
  }

  /** Distinct ids never share a cache key. */
  lemma MemberKeyInjective(a: int64, b: int64)
    requires MemberKey(a) == MemberKey(b)
    ensures a == b
  {
    assert MemberKey(a)[7..] == Codec.ShowInt(a);
    assert MemberKey(b)[7..] == Codec.ShowInt(b);
    Codec.ParseShowInt(a, []);
    Codec.ParseShowInt(b, []);
    assert Codec.ShowInt(a) + [] == Codec.ShowInt(a);
    assert Codec.ShowInt(b) + [] == Codec.ShowInt(b);
  }
}
