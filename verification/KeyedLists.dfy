/** Lists of reference-counted elements searched by key, as every level of the daemon's flow tree is kept. */
module KeyedLists {
  import opened Options

  datatype Elem<K, V> = Elem(key: K, ref: int, body: V)

  /** The index of the first element with the key, or the length of the list. */
  function Find<K(==), V>(list: seq<Elem<K, V>>, k: K): (i: nat)
    ensures i <= |list|
    ensures i < |list| ==> list[i].key == k
    ensures forall j | 0 <= j < i :: list[j].key != k
  {
    if list == [] || list[0].key == k then 0 else 1 + Find(list[1..], k)
  }

  /** The loop that every level of the tree is searched with. */
  method FindElem<K(==), V>(list: seq<Elem<K, V>>, k: K) returns (i: nat)
    ensures i == Find(list, k)
  {
    i := 0;
    while i < |list| && list[i].key != k
      invariant i <= |list| && forall j | 0 <= j < i :: list[j].key != k
    {
      i := i + 1;
    }
  }

  function Get<K(==), V>(list: seq<Elem<K, V>>, k: K): (r: Option<Elem<K, V>>)
  {
    var i := Find(list, k);
    if i < |list| then Some(list[i]) else None
  }

  /** Replace the element with the key of e, or append e. */
  function Put<K(==), V>(list: seq<Elem<K, V>>, e: Elem<K, V>): (r: seq<Elem<K, V>>)
  {
    var i := Find(list, e.key);
    if i < |list| then list[i := e] else list + [e]
  }

  /** Unlink the element with the key. */
  function Del<K(==), V>(list: seq<Elem<K, V>>, k: K): (r: seq<Elem<K, V>>)
  {
    var i := Find(list, k);
    if i < |list| then list[..i] + list[i + 1..] else list
  }

  predicate Distinct<K(==), V>(list: seq<Elem<K, V>>)
  {
    forall i, j | 0 <= i < j < |list| :: list[i].key != list[j].key
  }

  function RefOf<K(==), V>(list: seq<Elem<K, V>>, k: K): (r: int)
  {
    match Get(list, k)
    case None => 0
    case Some(e) => e.ref
  }

  lemma GetPut<K, V>(list: seq<Elem<K, V>>, e: Elem<K, V>, k: K)
    ensures Get(Put(list, e), k) == if k == e.key then Some(e) else Get(list, k)
  {
    var i, p := Find(list, e.key), Put(list, e);
    if k == e.key {
      assert p[i] == e && Find(p, k) == i;
    } else {
      var j := Find(list, k);
      if j < |list| {
        assert p[j] == list[j] && Find(p, k) == j;
      } else {
        assert forall n | 0 <= n < |p| :: p[n].key != k;
      }
    }
  }

  lemma PutKeepsDistinct<K, V>(list: seq<Elem<K, V>>, e: Elem<K, V>)
    requires Distinct(list)
    ensures Distinct(Put(list, e))
  {
  }

  lemma PutMembers<K, V>(list: seq<Elem<K, V>>, e: Elem<K, V>, x: Elem<K, V>)
    requires Distinct(list)
    ensures x in Put(list, e) <==> x == e || (x in list && x.key != e.key)
  {
    var i, p := Find(list, e.key), Put(list, e);
    assert p[i] == e;
    if x in list && x.key != e.key {
      var j :| 0 <= j < |list| && list[j] == x;
      assert p[j] == x;
    }
  }

  lemma DelMembers<K, V>(list: seq<Elem<K, V>>, k: K, x: Elem<K, V>)
    requires Distinct(list)
    ensures x in Del(list, k) <==> x in list && x.key != k
  {
    var i, d := Find(list, k), Del(list, k);
    if i < |list| && x in list && x.key != k {
      var j :| 0 <= j < |list| && list[j] == x;
      assert d[if j < i then j else j - 1] == x;
    }
  }

  lemma DelKeepsDistinct<K, V>(list: seq<Elem<K, V>>, k: K)
    requires Distinct(list)
    ensures Distinct(Del(list, k))
  {
  }

  /** In a list without repeated keys, membership and lookup agree. */
  lemma GetIsMember<K, V>(list: seq<Elem<K, V>>, k: K)
    ensures Get(list, k).Some? ==> Get(list, k).value in list && Get(list, k).value.key == k
    ensures Get(list, k).None? <==> forall x | x in list :: x.key != k
  {
  }

  lemma MemberIsGet<K, V>(list: seq<Elem<K, V>>, x: Elem<K, V>)
    requires Distinct(list) && x in list
    ensures Get(list, x.key) == Some(x)
  {
  }

  lemma GetDel<K, V>(list: seq<Elem<K, V>>, k: K, n: K)
    requires Distinct(list)
    ensures Get(Del(list, k), n) == if n == k then None else Get(list, n)
  {
    DelKeepsDistinct(list, k);
    var r := Get(Del(list, k), n);
    GetIsMember(Del(list, k), n);
    GetIsMember(list, n);
    if r.Some? {
      DelMembers(list, k, r.value);
      MemberIsGet(list, r.value);
    } else if n != k && Get(list, n).Some? {
      DelMembers(list, k, Get(list, n).value);
    }
  }

  /** What `del_flow` does to one element: drop a reference, and unlink the element when that was the last one. */
  function Release<K(==), V>(list: seq<Elem<K, V>>, e: Elem<K, V>, childless: bool): (r: seq<Elem<K, V>>)
  {
    if childless && e.ref <= 0 then Del(list, e.key) else Put(list, e)
  }

  lemma GetRelease<K, V>(list: seq<Elem<K, V>>, e: Elem<K, V>, childless: bool, n: K)
    requires Distinct(list)
    ensures Distinct(Release(list, e, childless))
    ensures Get(Release(list, e, childless), n) ==
            if n != e.key then Get(list, n) else if childless && e.ref <= 0 then None else Some(e)
  {
    GetDel(list, e.key, n);
    GetPut(list, e, n);
    DelKeepsDistinct(list, e.key);
    PutKeepsDistinct(list, e);
  }

  /** A list of referenced elements is empty unless some key has a reference. */
  lemma SomeReference<K(!new), V>(list: seq<Elem<K, V>>)
    requires forall x | x in list :: x.ref > 0
    ensures list == [] || exists k :: RefOf(list, k) > 0
  {
    if list != [] {
      assert list[0] in list && RefOf(list, list[0].key) == list[0].ref;
    }
  }
}
