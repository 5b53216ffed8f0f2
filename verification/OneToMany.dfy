/** The one-to-many template of eager loading: loadUsageLogs and loadAccountGroups of
    backend/ent/account_query.go. */
module OneToMany {
  import opened Wrappers
  import opened AccountEntity
  import opened EagerLoad

  /** The children with the given foreign key, in the order in which they were returned. */
  ghost function ChildrenOf<T>(children: seq<T>, fk: T -> int, id: int): seq<T> {
    if children == [] then []
    else
      var n := |children| - 1;
      ChildrenOf(children[..n], fk, id) + if fk(children[n]) == id then [children[n]] else []
  }

  const LOG_FK: UsageLog -> int := (l: UsageLog) => l.accountId
  const MEMBERSHIP_FK: AccountGroup -> int := (m: AccountGroup) => m.accountId

  /** The children a node has received, given the first children and the index. */
  ghost function Received<T>(children: seq<T>, fk: T -> int, byId: map<int, Account>, n: Account): seq<T> {
    if children == [] then []
    else
      var k := |children| - 1;
      Received(children[..k], fk, byId, n) + if At(byId, fk(children[k])) == n then [children[k]] else []
  }

  lemma ReceivedNone<T>(fk: T -> int, byId: map<int, Account>, n: Account)
    ensures Received<T>([], fk, byId, n) == []
  {
  }

  lemma ReceivedSnoc<T>(children: seq<T>, child: T, fk: T -> int, byId: map<int, Account>, n: Account)
    ensures Received(children + [child], fk, byId, n) ==
            Received(children, fk, byId, n) + if At(byId, fk(child)) == n then [child] else []
  {
    assert (children + [child])[..|children|] == children;
  }

  lemma {:induction false} ReceivedIsChildren<T>(children: seq<T>, fk: T -> int, nodes: seq<Account>, ids: seq<int>, byId: map<int, Account>, i: nat)
    requires Consistent(nodes, ids) && ById(nodes, ids, byId) && i < |nodes|
    ensures Received(children, fk, byId, nodes[i]) == if Holds(nodes, ids, i) then ChildrenOf(children, fk, ids[i]) else []
  {
    hide Consistent, ById, Holds, At;
    if children != [] {
      var k := |children| - 1;
      ReceivedIsChildren(children[..k], fk, nodes, ids, byId, i);
      IndexSends(nodes, ids, byId, fk(children[k]), i);
    }
  }

  lemma IndexedNodes(nodes: seq<Account>, ids: seq<int>, byId: map<int, Account>)
    requires Consistent(nodes, ids) && ById(nodes, ids, byId)
    ensures forall k :: k in byId <==> k in ids
    ensures forall k :: k in byId ==> byId[k] in nodes
  {
    forall k | k in byId ensures byId[k] in nodes {
      var i :| 0 <= i < |ids| && ids[i] == k;
      HolderExactly(nodes, ids, byId, i);
    }
  }

  method InitUsageLogs(nodes: seq<Account>)
    modifies nodes
    ensures forall n :: n in nodes ==> n.cols == old(n.cols) && n.selectValues == old(n.selectValues)
    ensures forall n :: n in nodes ==> n.edges == old(n.edges).(usageLogs := [])
  {
    for i := 0 to |nodes|
      invariant forall n :: n in nodes ==> n.cols == old(n.cols) && n.selectValues == old(n.selectValues)
      invariant forall n :: n in nodes ==> n.edges == old(n.edges) || n.edges == old(n.edges).(usageLogs := [])
      invariant forall j :: 0 <= j < i ==> nodes[j].edges.usageLogs == []
    {
      nodes[i].edges := nodes[i].edges.(usageLogs := []);
    }
  }

  method DistributeUsageLogs(nodes: seq<Account>, byId: map<int, Account>, logs: seq<UsageLog>) returns (err: Option<LoadError>)
    requires forall k :: k in byId ==> byId[k] in nodes
    requires forall n :: n in nodes ==> n.edges.usageLogs == []
    modifies nodes
    ensures forall n :: n in nodes ==> n.cols == old(n.cols) && n.selectValues == old(n.selectValues)
    ensures forall n :: n in nodes ==> n.edges == old(n.edges).(usageLogs := n.edges.usageLogs)
    ensures err.None? <==> forall c :: c in logs ==> c.accountId in byId
    ensures err.None? ==> forall n :: n in nodes ==> n.edges.usageLogs == Received(logs, LOG_FK, byId, n)
  {
    hide Received;
    forall n | n in nodes ensures Received(logs[..0], LOG_FK, byId, n) == [] {
      ReceivedNone(LOG_FK, byId, n);
    }
    for k := 0 to |logs|
      invariant forall n :: n in nodes ==> n.cols == old(n.cols) && n.selectValues == old(n.selectValues)
      invariant forall n :: n in nodes ==> n.edges == old(n.edges).(usageLogs := n.edges.usageLogs)
      invariant forall j :: 0 <= j < k ==> logs[j].accountId in byId
      invariant forall n :: n in nodes ==> n.edges.usageLogs == Received(logs[..k], LOG_FK, byId, n)
    {
      assert logs[..k + 1] == logs[..k] + [logs[k]];
      var child := logs[k];
      forall n | n in nodes
        ensures Received(logs[..k + 1], LOG_FK, byId, n) ==
                Received(logs[..k], LOG_FK, byId, n) + if At(byId, child.accountId) == n then [child] else []
      {
        ReceivedSnoc(logs[..k], child, LOG_FK, byId, n);
      }
      if child.accountId !in byId {
        return Some(UnexpectedNode(child.id));
      }
      var node := byId[child.accountId];
      node.edges := node.edges.(usageLogs := node.edges.usageLogs + [child]);
    }
    assert logs[..|logs|] == logs;
    return None;
  }

  /** loadUsageLogs. It succeeds exactly when every child belongs to one of the accounts; then each
      account that is the last with its ID has exactly its children in the order returned. */
  method LoadUsageLogs(nodes: seq<Account>, query: Query<UsageLog>) returns (err: Option<LoadError>)
    modifies nodes
    ensures forall n :: n in nodes ==> n.cols == old(n.cols) && n.selectValues == old(n.selectValues)
    ensures forall n :: n in nodes ==> n.edges == old(n.edges).(usageLogs := n.edges.usageLogs)
    ensures var ids := old(IdsOf(nodes));
            match query(ids)
            case Err(e) => err == Some(e)
            case Ok(logs) =>
              && (err.None? <==> forall c :: c in logs ==> c.accountId in ids)
              && (err.None? ==> forall i :: 0 <= i < |nodes| ==>
                                  nodes[i].edges.usageLogs == if Holds(nodes, ids, i) then ChildrenOf(logs, LOG_FK, ids[i]) else [])
  {
    hide ById, Consistent, Holds, ChildrenOf, Received, IdsOf;
    var ids, byId := IndexById(nodes);
    IndexedNodes(nodes, ids, byId);
    InitUsageLogs(nodes);
    var answer := query(ids);
    if answer.Err? {
      return Some(answer.error);
    }
    err := DistributeUsageLogs(nodes, byId, answer.value);
    forall i | 0 <= i < |nodes|
      ensures Received(answer.value, LOG_FK, byId, nodes[i]) ==
              if Holds(nodes, ids, i) then ChildrenOf(answer.value, LOG_FK, ids[i]) else []
    {
      ReceivedIsChildren(answer.value, LOG_FK, nodes, ids, byId, i);
    }
  }

  method InitAccountGroups(nodes: seq<Account>)
    modifies nodes
    ensures forall n :: n in nodes ==> n.cols == old(n.cols) && n.selectValues == old(n.selectValues)
    ensures forall n :: n in nodes ==> n.edges == old(n.edges).(accountGroups := [])
  {
    for i := 0 to |nodes|
      invariant forall n :: n in nodes ==> n.cols == old(n.cols) && n.selectValues == old(n.selectValues)
      invariant forall n :: n in nodes ==> n.edges == old(n.edges) || n.edges == old(n.edges).(accountGroups := [])
      invariant forall j :: 0 <= j < i ==> nodes[j].edges.accountGroups == []
    {
      nodes[i].edges := nodes[i].edges.(accountGroups := []);
    }
  }

  method DistributeAccountGroups(nodes: seq<Account>, byId: map<int, Account>, rows: seq<AccountGroup>) returns (err: Option<LoadError>)
    requires forall k :: k in byId ==> byId[k] in nodes
    requires forall n :: n in nodes ==> n.edges.accountGroups == []
    modifies nodes
    ensures forall n :: n in nodes ==> n.cols == old(n.cols) && n.selectValues == old(n.selectValues)
    ensures forall n :: n in nodes ==> n.edges == old(n.edges).(accountGroups := n.edges.accountGroups)
    ensures err.None? <==> forall c :: c in rows ==> c.accountId in byId
    ensures err.None? ==> forall n :: n in nodes ==> n.edges.accountGroups == Received(rows, MEMBERSHIP_FK, byId, n)
  {
    hide Received;
    forall n | n in nodes ensures Received(rows[..0], MEMBERSHIP_FK, byId, n) == [] {
      ReceivedNone(MEMBERSHIP_FK, byId, n);
    }
    for k := 0 to |rows|
      invariant forall n :: n in nodes ==> n.cols == old(n.cols) && n.selectValues == old(n.selectValues)
      invariant forall n :: n in nodes ==> n.edges == old(n.edges).(accountGroups := n.edges.accountGroups)
      invariant forall j :: 0 <= j < k ==> rows[j].accountId in byId
      invariant forall n :: n in nodes ==> n.edges.accountGroups == Received(rows[..k], MEMBERSHIP_FK, byId, n)
    {
      assert rows[..k + 1] == rows[..k] + [rows[k]];
      var child := rows[k];
      forall n | n in nodes
        ensures Received(rows[..k + 1], MEMBERSHIP_FK, byId, n) ==
                Received(rows[..k], MEMBERSHIP_FK, byId, n) + if At(byId, child.accountId) == n then [child] else []
      {
        ReceivedSnoc(rows[..k], child, MEMBERSHIP_FK, byId, n);
      }
      if child.accountId !in byId {
        return Some(UnexpectedNode(child.groupId));
      }
      var node := byId[child.accountId];
      node.edges := node.edges.(accountGroups := node.edges.accountGroups + [child]);
    }
    assert rows[..|rows|] == rows;
    return None;
  }

  /** loadAccountGroups: the same over the membership rows. */
  method LoadAccountGroups(nodes: seq<Account>, query: Query<AccountGroup>) returns (err: Option<LoadError>)
    modifies nodes
    ensures forall n :: n in nodes ==> n.cols == old(n.cols) && n.selectValues == old(n.selectValues)
    ensures forall n :: n in nodes ==> n.edges == old(n.edges).(accountGroups := n.edges.accountGroups)
    ensures var ids := old(IdsOf(nodes));
            match query(ids)
            case Err(e) => err == Some(e)
            case Ok(rows) =>
              && (err.None? <==> forall c :: c in rows ==> c.accountId in ids)
              && (err.None? ==> forall i :: 0 <= i < |nodes| ==>
                                  nodes[i].edges.accountGroups == if Holds(nodes, ids, i) then ChildrenOf(rows, MEMBERSHIP_FK, ids[i]) else [])
  {
    hide ById, Consistent, Holds, ChildrenOf, Received, IdsOf;
    var ids, byId := IndexById(nodes);
    IndexedNodes(nodes, ids, byId);
    InitAccountGroups(nodes);
    var answer := query(ids);
    if answer.Err? {
      return Some(answer.error);
    }
    err := DistributeAccountGroups(nodes, byId, answer.value);
    forall i | 0 <= i < |nodes|
      ensures Received(answer.value, MEMBERSHIP_FK, byId, nodes[i]) ==
              if Holds(nodes, ids, i) then ChildrenOf(answer.value, MEMBERSHIP_FK, ids[i]) else []
    {
      ReceivedIsChildren(answer.value, MEMBERSHIP_FK, nodes, ids, byId, i);
    }
  }

  // ----- conservation -----

  ghost function ChildTotal<T>(children: seq<T>, fk: T -> int, ids: seq<int>): nat {
    if ids == [] then 0 else |ChildrenOf(children, fk, ids[0])| + ChildTotal(children, fk, ids[1..])
  }

  lemma {:induction false} ChildTotalSnoc<T>(children: seq<T>, child: T, fk: T -> int, ids: seq<int>)
    requires forall i, j :: 0 <= i < j < |ids| ==> ids[i] != ids[j]
    ensures ChildTotal(children + [child], fk, ids) == ChildTotal(children, fk, ids) + if fk(child) in ids then 1 else 0
  {
    if ids != [] {
      assert (children + [child])[..|children|] == children;
      assert ids == [ids[0]] + ids[1..];
      ChildTotalSnoc(children, child, fk, ids[1..]);
    }
  }

  /** Conservation: with distinct IDs, the lists handed out hold as many children as were returned. */
  lemma {:induction false} ChildrenConserved<T>(children: seq<T>, fk: T -> int, ids: seq<int>)
    requires forall i, j :: 0 <= i < j < |ids| ==> ids[i] != ids[j]
    requires forall c :: c in children ==> fk(c) in ids
    ensures ChildTotal(children, fk, ids) == |children|
  {
    if children == [] {
      NoChildren(fk, ids);
    } else {
      var n := |children| - 1;
      assert children == children[..n] + [children[n]];
      ChildrenConserved(children[..n], fk, ids);
      ChildTotalSnoc(children[..n], children[n], fk, ids);
    }
  }

  lemma {:induction false} NoChildren<T>(fk: T -> int, ids: seq<int>)
    ensures ChildTotal<T>([], fk, ids) == 0
  {
    if ids != [] {
      NoChildren(fk, ids[1..]);
    }
  }

  /** The lists keep the order in which the children came: the list for one answer after another is the list for
      the one after the list for the other. */
  lemma {:induction false} ChildrenInOrder<T>(a: seq<T>, b: seq<T>, fk: T -> int, id: int)
    ensures ChildrenOf(a + b, fk, id) == ChildrenOf(a, fk, id) + ChildrenOf(b, fk, id)
    decreases |b|
  {
    if b == [] {
      assert a + b == a;
    } else {
      var n := |b| - 1;
      assert a + b == (a + b[..n]) + [b[n]] && b == b[..n] + [b[n]];
      ChildrenInOrder(a, b[..n], fk, id);
      ChildrenSnoc(a + b[..n], b[n], fk, id);
      ChildrenSnoc(b[..n], b[n], fk, id);
    }
  }

  lemma ChildrenSnoc<T>(children: seq<T>, c: T, fk: T -> int, id: int)
    ensures ChildrenOf(children + [c], fk, id) == ChildrenOf(children, fk, id) + if fk(c) == id then [c] else []
  {
    assert (children + [c])[..|children|] == children;
  }

  /** Every child is in the list of its own parent and in no other. */
  lemma {:induction false} ChildInOneList<T>(children: seq<T>, fk: T -> int, id: int, c: T)
    ensures c in ChildrenOf(children, fk, id) <==> c in children && fk(c) == id
  {
    if children != [] {
      var n := |children| - 1;
      assert children == children[..n] + [children[n]];
      ChildInOneList(children[..n], fk, id, c);
    }
  }
}
