/**
  The shared key-value store the authorizer talks to (Redis in the original
  system), reduced to the four calls the charge protocol makes. Each call is one
  atomic step on an immutable map; connection handling and expiry are not part
  of this model.
 */
module KeyValue {
  import opened Wrappers

  /** A stored value: an integer (a balance) or an opaque text (a lock token). */
  datatype Value = Num(n: int) | Token(text: string)

  type Store = map<string, Value>

  /** `GET key`: the value under `key`, if any. */
  function Get(s: Store, k: string): (v: Option<Value>)
    ensures v.Some? <==> k in s
    ensures v.Some? ==> v.value == s[k]
  {
    if k in s then Some(s[k]) else None
  }

  /** True when `s` and `t` hold the same entry (or none) for every key outside `keys`. */
  ghost predicate AgreeExcept(s: Store, t: Store, keys: set<string>) {
    forall k :: k !in keys ==> Get(s, k) == Get(t, k)
  }

  /** `SET key value`: unconditional overwrite. */
  function Set(s: Store, k: string, v: Value): (r: Store)
    ensures Get(r, k) == Some(v)
    ensures AgreeExcept(s, r, {k})
  {
    s[k := v]
  }

  /** The reply of `SET key value NX` together with the store after it. */
  datatype NxReply = NxReply(written: bool, store: Store)

  /** `SET key value NX`: writes only when `key` is absent, and says whether it wrote. */
  function SetIfAbsent(s: Store, k: string, v: Value): (r: NxReply)
    ensures r.written <==> Get(s, k) == None
    ensures r.written ==> Get(r.store, k) == Some(v) && AgreeExcept(s, r.store, {k})
    ensures !r.written ==> r.store == s
  {
    if k in s then NxReply(false, s) else NxReply(true, Set(s, k, v))
  }

  /** `DEL key`: removes `key`, whether or not it was present. */
  function Del(s: Store, k: string): (r: Store)
    ensures Get(r, k) == None
    ensures AgreeExcept(s, r, {k})
  {
    s - {k}
  }

  /** Taking a free key with set-if-absent and deleting it again gives back the store. */
  lemma SetIfAbsentThenDel(s: Store, k: string, v: Value)
    requires Get(s, k) == None
    ensures SetIfAbsent(s, k, v).written
    ensures Del(SetIfAbsent(s, k, v).store, k) == s
  {
  }

  /** Two stores that answer every GET alike are the same store. */
  lemma GetExtensional(s: Store, t: Store)
    requires forall k :: Get(s, k) == Get(t, k)
    ensures s == t
  {
    assert s.Keys == t.Keys by {
      forall k ensures k in s <==> k in t {
        assert Get(s, k) == Get(t, k);
      }
    }
    forall k | k in s ensures s[k] == t[k] {
      assert Get(s, k) == Get(t, k);
    }
  }
}
