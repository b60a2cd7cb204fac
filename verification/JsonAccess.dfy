/** Field access on JSON values. */
module JsonAccess {
  import opened Bytes
  import opened JsonParser

  /** First member with the key. */
  function Get(j: Json, key: seq<Byte>): Option<Json> {
    if j.JObj? then FirstOf(j.members, key) else None
  }

  function FirstOf(ms: seq<Member>, key: seq<Byte>): Option<Json> {
    if ms == [] then None else if ms[0].key == key then Some(ms[0].val) else FirstOf(ms[1..], key)
  }

  function StrOf(j: Json, key: seq<Byte>): Option<seq<Byte>> {
    var v := Get(j, key);
    if v.Some? && v.value.JStr? then Some(v.value.s) else None
  }

  /** `v` stands under the first member of `j` with the key. */
  predicate IsMember(j: Json, key: seq<Byte>, v: Json) {
    j.JObj?
    && exists k :: 0 <= k < |j.members| && j.members[k] == Member(key, v)
                   && forall i :: 0 <= i < k ==> j.members[i].key != key
  }

  predicate Lacks(j: Json, key: seq<Byte>) {
    j.JObj? ==> forall k :: 0 <= k < |j.members| ==> j.members[k].key != key
  }

  lemma {:induction false} FirstOfIs(ms: seq<Member>, key: seq<Byte>, v: Json)
    ensures FirstOf(ms, key) == Some(v) <==> IsMember(JObj(ms), key, v)
    ensures FirstOf(ms, key) == None <==> Lacks(JObj(ms), key)
    decreases |ms|
  {
    if ms != [] {
      FirstOfIs(ms[1..], key, v);
      if ms[0].key != key {
        forall k | 1 <= k < |ms| ensures ms[k] == ms[1..][k - 1] {}
        if IsMember(JObj(ms), key, v) {
          var k :| 0 <= k < |ms| && ms[k] == Member(key, v) && forall i :: 0 <= i < k ==> ms[i].key != key;
          assert ms[1..][k - 1] == Member(key, v);
          assert IsMember(JObj(ms[1..]), key, v);
        }
        if IsMember(JObj(ms[1..]), key, v) {
          var k :| 0 <= k < |ms[1..]| && ms[1..][k] == Member(key, v)
                   && forall i :: 0 <= i < k ==> ms[1..][i].key != key;
          assert ms[k + 1] == Member(key, v);
        }
      }
    }
  }

  /** Access finds the first member with the key, if there is one. */
  lemma GetIsFirst(j: Json, key: seq<Byte>, v: Json)
    ensures Get(j, key) == Some(v) <==> IsMember(j, key, v)
  {
    if j.JObj? { FirstOfIs(j.members, key, v); }
  }

  lemma GetLacks(j: Json, key: seq<Byte>)
    ensures Get(j, key) == None <==> Lacks(j, key)
  {
    if j.JObj? { FirstOfIs(j.members, key, JNull); }
  }

  lemma StrOfIs(j: Json, key: seq<Byte>, s: seq<Byte>)
    ensures StrOf(j, key) == Some(s) <==> IsMember(j, key, JStr(s))
  {
    GetIsFirst(j, key, JStr(s));
  }
}
