/** The many-to-one template of eager loading: the key index, and loadProxy of
    backend/ent/account_query.go. */
module ManyToOne {
  import opened Wrappers
  import opened AccountEntity
  import opened EagerLoad

  // ----- the key index -----

  /** The distinct keys in the order of their first occurrence. */
  function DistinctKeys(keys: seq<Option<int>>): seq<int> {
    if keys == [] then []
    else
      var n := |keys| - 1;
      var rest := DistinctKeys(keys[..n]);
      if keys[n].None? || keys[n].value in rest then rest else rest + [keys[n].value]
  }

  /** The positions that carry key k, in order. */
  function PositionsOf(keys: seq<Option<int>>, k: int): (ps: seq<nat>)
    ensures forall p :: p in ps <==> 0 <= p < |keys| && keys[p] == Some(k)
  {
    if keys == [] then []
    else
      var n := |keys| - 1;
      PositionsOf(keys[..n], k) + if keys[n] == Some(k) then [n] else []
  }

  lemma {:induction false} DistinctKeysExactly(keys: seq<Option<int>>, k: int)
    ensures k in DistinctKeys(keys) <==> Some(k) in keys
  {
    if keys != [] {
      var n := |keys| - 1;
      assert keys == keys[..n] + [keys[n]];
      DistinctKeysExactly(keys[..n], k);
    }
  }

  ghost predicate Distinct(ids: seq<int>) {
    forall i, j :: 0 <= i < j < |ids| ==> ids[i] != ids[j]
  }

  lemma {:induction false} DistinctKeysDistinct(keys: seq<Option<int>>)
    ensures Distinct(DistinctKeys(keys))
  {
    if keys != [] {
      var rest := DistinctKeys(keys[..|keys| - 1]);
      DistinctKeysDistinct(keys[..|keys| - 1]);
      assert forall i :: 0 <= i < |rest| ==> rest[i] in rest;
    }
  }

  /** The position at which a key first occurs. */
  ghost predicate FirstAt(keys: seq<Option<int>>, k: int, p: nat) {
    p < |keys| && keys[p] == Some(k) && forall i :: 0 <= i < p ==> keys[i] != Some(k)
  }

  /** The distinct keys come in the order of their first occurrences. */
  lemma {:induction false} DistinctKeysInOrder(keys: seq<Option<int>>, i: nat, j: nat, p: nat, q: nat)
    requires i < j < |DistinctKeys(keys)|
    requires FirstAt(keys, DistinctKeys(keys)[i], p) && FirstAt(keys, DistinctKeys(keys)[j], q)
    ensures p < q
  {
    var n := |keys| - 1;
    var pre := keys[..n];
    var rest := DistinctKeys(pre);
    assert keys == pre + [keys[n]];
    DistinctKeysDistinct(keys);
    DistinctKeysExactly(pre, DistinctKeys(keys)[i]);
    assert rest[i] in rest && rest[i] == DistinctKeys(keys)[i];
    FirstAtKept(pre, keys[n], DistinctKeys(keys)[i], p);
    if j < |rest| {
      assert rest[j] in rest;
      DistinctKeysExactly(pre, rest[j]);
      FirstAtKept(pre, keys[n], rest[j], q);
      DistinctKeysInOrder(pre, i, j, p, q);
    } else {
      DistinctKeysExactly(pre, DistinctKeys(keys)[j]);
      assert forall t :: 0 <= t < n ==> keys[t] == pre[t] && pre[t] in pre;
    }
  }

  lemma FirstAtKept(pre: seq<Option<int>>, key: Option<int>, k: int, p: nat)
    requires Some(k) in pre && FirstAt(pre + [key], k, p)
    ensures FirstAt(pre, k, p)
  {
    var i :| 0 <= i < |pre| && pre[i] == Some(k);
    var all := pre + [key];
    assert all[i] == Some(k) && forall j :: 0 <= j < |pre| ==> all[j] == pre[j];
  }

  lemma {:induction false} NoPositions(keys: seq<Option<int>>, k: int)
    requires Some(k) !in keys
    ensures PositionsOf(keys, k) == []
  {
    if keys != [] {
      var n := |keys| - 1;
      assert keys == keys[..n] + [keys[n]];
      NoPositions(keys[..n], k);
    }
  }

  /** The opening loop: each non-nil key is asked for once, and its bucket lists its nodes. */
  method IndexKeys(keys: seq<Option<int>>) returns (ids: seq<int>, buckets: map<int, seq<nat>>)
    ensures ids == DistinctKeys(keys)
    ensures forall k :: k in buckets <==> k in ids
    ensures forall k :: k in buckets ==> buckets[k] == PositionsOf(keys, k)
  {
    ids, buckets := [], map[];
    for i := 0 to |keys|
      invariant ids == DistinctKeys(keys[..i])
      invariant forall k :: k in buckets <==> k in ids
      invariant forall k :: k in buckets ==> buckets[k] == PositionsOf(keys[..i], k)
    {
      assert keys[..i + 1][..i] == keys[..i];
      if keys[i].None? {
        continue;
      }
      var fk := keys[i].value;
      DistinctKeysExactly(keys[..i], fk);
      if fk !in buckets {
        NoPositions(keys[..i], fk);
        ids := ids + [fk];
        buckets := buckets[fk := []];
      }
      buckets := buckets[fk := buckets[fk] + [i]];
    }
    assert keys[..|keys|] == keys;
  }

  function CountKeyed(keys: seq<Option<int>>): nat {
    if keys == [] then 0 else CountKeyed(keys[..|keys| - 1]) + if keys[|keys| - 1].Some? then 1 else 0
  }

  /** The total size of the buckets of the given keys. */
  function BucketTotal(keys: seq<Option<int>>, ids: seq<int>): nat {
    if ids == [] then 0 else |PositionsOf(keys, ids[0])| + BucketTotal(keys, ids[1..])
  }

  lemma {:induction false} BucketTotalSnoc(keys: seq<Option<int>>, key: Option<int>, ids: seq<int>)
    requires Distinct(ids)
    ensures BucketTotal(keys + [key], ids) == BucketTotal(keys, ids) + if key.Some? && key.value in ids then 1 else 0
  {
    if ids != [] {
      assert (keys + [key])[..|keys|] == keys;
      assert ids == [ids[0]] + ids[1..];
      BucketTotalSnoc(keys, key, ids[1..]);
    }
  }

  lemma {:induction false} BucketTotalConcat(keys: seq<Option<int>>, a: seq<int>, b: seq<int>)
    ensures BucketTotal(keys, a + b) == BucketTotal(keys, a) + BucketTotal(keys, b)
  {
    if a == [] {
      assert a + b == b;
    } else {
      assert (a + b)[1..] == a[1..] + b;
      BucketTotalConcat(keys, a[1..], b);
    }
  }

  /** The buckets partition the nodes that have a key: each is in the bucket of its key and in no other, and
      together the buckets hold as many nodes as have a key, so none twice. */
  lemma BucketsPartition(keys: seq<Option<int>>)
    ensures forall p :: 0 <= p < |keys| && keys[p].Some? ==>
                          keys[p].value in DistinctKeys(keys) && p in PositionsOf(keys, keys[p].value)
    ensures forall p, k, l :: p in PositionsOf(keys, k) && p in PositionsOf(keys, l) ==> k == l
    ensures BucketTotal(keys, DistinctKeys(keys)) == CountKeyed(keys)
  {
    hide DistinctKeys, PositionsOf, BucketTotal, CountKeyed;
    BucketsAddUp(keys);
    forall p | 0 <= p < |keys| && keys[p].Some? ensures keys[p].value in DistinctKeys(keys) {
      DistinctKeysExactly(keys, keys[p].value);
    }
  }

  lemma {:induction false} BucketsAddUp(keys: seq<Option<int>>)
    ensures BucketTotal(keys, DistinctKeys(keys)) == CountKeyed(keys)
  {
    if keys != [] {
      var n := |keys| - 1;
      var pre, key := keys[..n], keys[n];
      var ids := DistinctKeys(pre);
      assert keys == pre + [key];
      BucketsAddUp(pre);
      DistinctKeysDistinct(pre);
      BucketTotalSnoc(pre, key, ids);
      if key.Some? && key.value !in ids {
        DistinctKeysExactly(pre, key.value);
        BucketTotalConcat(keys, ids, [key.value]);
        NewBucket(pre, key.value);
      }
    }
  }

  lemma NewBucket(pre: seq<Option<int>>, k: int)
    requires Some(k) !in pre
    ensures BucketTotal(pre + [Some(k)], [k]) == 1
  {
    var keys := pre + [Some(k)];
    assert keys[..|pre|] == pre;
    NoPositions(pre, k);
    assert [k][1..] == [];
  }

  // ----- loadProxy -----

  function KeysOf(nodes: seq<Account>): (keys: seq<Option<int>>)
    reads nodes
    ensures |keys| == |nodes|
    ensures forall i :: 0 <= i < |nodes| ==> keys[i] == nodes[i].cols.optInts.proxyId
  {
    seq(|nodes|, i requires 0 <= i < |nodes| reads nodes => nodes[i].cols.optInts.proxyId)
  }

  /** The last neighbour with the key, or what was there before. */
  function Neighbour<T>(neighbors: seq<T>, id: T -> int, key: Option<int>, before: Option<T>): Option<T> {
    if neighbors == [] then before
    else
      var n := |neighbors| - 1;
      if Some(id(neighbors[n])) == key then Some(neighbors[n]) else Neighbour(neighbors[..n], id, key, before)
  }

  lemma NeighbourOfNone<T>(id: T -> int)
    ensures forall key, before :: Neighbour<T>([], id, key, before) == before
  {
  }

  lemma NeighbourSnoc<T>(pre: seq<T>, n: T, id: T -> int)
    ensures forall key, before ::
              Neighbour(pre + [n], id, key, before) == if Some(id(n)) == key then Some(n) else Neighbour(pre, id, key, before)
  {
    assert (pre + [n])[..|pre|] == pre;
  }

  const PROXY_ID: Proxy -> int := (p: Proxy) => p.id

  /** A node listed twice carries the same key. */
  ghost predicate SameKeys(nodes: seq<Account>, keys: seq<Option<int>>) {
    |nodes| == |keys| && forall i, j :: 0 <= i < |nodes| && 0 <= j < |nodes| && nodes[i] == nodes[j] ==> keys[i] == keys[j]
  }

  lemma KeysAreSame(nodes: seq<Account>)
    ensures SameKeys(nodes, KeysOf(nodes))
  {
  }

  /** One neighbour goes to every node in its bucket, that is, to every node that carries its key. */
  method AssignProxy(nodes: seq<Account>, ghost keys: seq<Option<int>>, bucket: seq<nat>, proxy: Proxy)
    requires SameKeys(nodes, keys) && bucket == PositionsOf(keys, proxy.id)
    modifies nodes
    ensures forall n :: n in nodes ==> n.cols == old(n.cols) && n.selectValues == old(n.selectValues)
    ensures forall i :: 0 <= i < |nodes| ==>
              nodes[i].edges == if keys[i] == Some(proxy.id) then old(nodes[i].edges).(proxy := Some(proxy)) else old(nodes[i].edges)
  {
    hide PositionsOf;
    forall q | 0 <= q < |bucket| ensures bucket[q] < |nodes| && keys[bucket[q]] == Some(proxy.id) {
      assert bucket[q] in PositionsOf(keys, proxy.id);
    }
    for t := 0 to |bucket|
      invariant forall n :: n in nodes ==> n.cols == old(n.cols) && n.selectValues == old(n.selectValues)
      invariant forall i :: 0 <= i < |nodes| ==>
                  || nodes[i].edges == old(nodes[i].edges)
                  || (keys[i] == Some(proxy.id) && nodes[i].edges == old(nodes[i].edges).(proxy := Some(proxy)))
      invariant forall q :: 0 <= q < t ==> nodes[bucket[q]].edges.proxy == Some(proxy)
    {
      var node := nodes[bucket[t]];
      node.edges := node.edges.(proxy := Some(proxy));
    }
    forall i | 0 <= i < |nodes| && keys[i] == Some(proxy.id) ensures nodes[i].edges.proxy == Some(proxy) {
      assert i in PositionsOf(keys, proxy.id);
    }
  }

  /** The closing loop: every neighbour goes to its bucket, or stops the call if nobody asked for it. */
  method DistributeProxies(nodes: seq<Account>, ghost keys: seq<Option<int>>, buckets: map<int, seq<nat>>, proxies: seq<Proxy>)
    returns (err: Option<LoadError>)
    requires SameKeys(nodes, keys)
    requires forall k :: k in buckets ==> buckets[k] == PositionsOf(keys, k)
    modifies nodes
    ensures forall n :: n in nodes ==> n.cols == old(n.cols) && n.selectValues == old(n.selectValues)
    ensures err.None? <==> forall p :: p in proxies ==> p.id in buckets
    ensures err.None? ==> forall i :: 0 <= i < |nodes| ==>
              nodes[i].edges == old(nodes[i].edges).(proxy := Neighbour(proxies, PROXY_ID, keys[i], old(nodes[i].edges.proxy)))
  {
    hide Neighbour, PositionsOf, SameKeys;
    NeighbourOfNone(PROXY_ID);
    assert |nodes| == |keys| by { SameKeysLength(nodes, keys); }
    for j := 0 to |proxies|
      invariant forall n :: n in nodes ==> n.cols == old(n.cols) && n.selectValues == old(n.selectValues)
      invariant forall q :: 0 <= q < j ==> proxies[q].id in buckets
      invariant forall i :: 0 <= i < |nodes| ==>
                  nodes[i].edges == old(nodes[i].edges).(proxy := Neighbour(proxies[..j], PROXY_ID, keys[i], old(nodes[i].edges.proxy)))
    {
      assert proxies[..j + 1] == proxies[..j] + [proxies[j]];
      var n := proxies[j];
      NeighbourSnoc(proxies[..j], n, PROXY_ID);
      if n.id !in buckets {
        return Some(UnexpectedNode(n.id));
      }
      AssignProxy(nodes, keys, buckets[n.id], n);
    }
    assert proxies[..|proxies|] == proxies;
    return None;
  }

  lemma SameKeysLength(nodes: seq<Account>, keys: seq<Option<int>>)
    requires SameKeys(nodes, keys)
    ensures |nodes| == |keys|
  {
  }

  /** loadProxy. Nothing is asked when no account has a proxy key; otherwise each distinct key is asked
      for once, in first-occurrence order. The call fails exactly when a proxy that nobody asked for
      comes back; otherwise every account gets the (last) proxy returned under its key and an account
      without a match keeps what it had. */
  method LoadProxy(nodes: seq<Account>, query: Query<Proxy>) returns (asked: Option<seq<int>>, err: Option<LoadError>)
    modifies nodes
    ensures forall n :: n in nodes ==> n.cols == old(n.cols) && n.selectValues == old(n.selectValues)
    ensures var keys := old(KeysOf(nodes));
            var ids := DistinctKeys(keys);
            if ids == [] then
              asked.None? && err.None? && forall n :: n in nodes ==> n.edges == old(n.edges)
            else
              && asked == Some(ids)
              && match query(ids)
                 case Err(e) => err == Some(e) && forall n :: n in nodes ==> n.edges == old(n.edges)
                 case Ok(proxies) =>
                   && (err.None? <==> forall p :: p in proxies ==> p.id in ids)
                   && (err.None? ==> forall i :: 0 <= i < |nodes| ==>
                         nodes[i].edges == old(nodes[i].edges).(proxy := Neighbour(proxies, PROXY_ID, keys[i], old(nodes[i].edges.proxy))))
  {
    hide DistinctKeys, PositionsOf, Neighbour, SameKeys;
    var keys := KeysOf(nodes);
    assert SameKeys(nodes, keys) by { KeysAreSame(nodes); }
    var ids, buckets := IndexKeys(keys);
    if |ids| == 0 {
      return None, None;
    }
    asked := Some(ids);
    var answer := query(ids);
    if answer.Err? {
      return asked, Some(answer.error);
    }
    err := DistributeProxies(nodes, keys, buckets, answer.value);
  }

  /** If several neighbours have the key, the last one stays. */
  lemma {:induction false} LastNeighbourStays<T>(neighbors: seq<T>, id: T -> int, key: Option<int>, before: Option<T>, k: nat)
    requires k < |neighbors| && Some(id(neighbors[k])) == key
    requires forall i :: k < i < |neighbors| ==> Some(id(neighbors[i])) != key
    ensures Neighbour(neighbors, id, key, before) == Some(neighbors[k])
  {
    var n := |neighbors| - 1;
    if k < n {
      LastNeighbourStays(neighbors[..n], id, key, before, k);
    }
  }

  /** A node ends with a neighbour exactly when one with its key was returned (or one was there before). */
  lemma {:induction false} NeighbourExactly<T>(neighbors: seq<T>, id: T -> int, key: Option<int>, before: Option<T>)
    ensures Neighbour(neighbors, id, key, before).Some? <==> before.Some? || exists n :: n in neighbors && Some(id(n)) == key
    ensures before.None? && Neighbour(neighbors, id, key, before).Some? ==>
              Neighbour(neighbors, id, key, before).value in neighbors && Some(id(Neighbour(neighbors, id, key, before).value)) == key
  {
    if neighbors != [] {
      var n := |neighbors| - 1;
      assert neighbors == neighbors[..n] + [neighbors[n]];
      NeighbourExactly(neighbors[..n], id, key, before);
    }
  }
}
