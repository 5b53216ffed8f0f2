/** Several many-to-one edges on one node: loadUser, loadInvitee, loadPaymentOrder and the loads of sqlAll in
    backend/ent/commissionlog_query.go. Two of the edges lead to the same table and two keys are nullable. */
module CommissionLoad {
  import opened Wrappers
  import opened EagerLoad
  import opened ManyToOne

  /** A row of the users or the payment_orders table. */
  datatype Target = Target(id: int, payload: string)

  const TARGET_ID: Target -> int := (t: Target) => t.id

  datatype Edge = UserEdge | InviteeEdge | PaymentOrderEdge

  datatype LogEdges = LogEdges(user: Option<Target>, invitee: Option<Target>, paymentOrder: Option<Target>) {
    function Get(e: Edge): Option<Target> {
      match e
      case UserEdge => user
      case InviteeEdge => invitee
      case PaymentOrderEdge => paymentOrder
    }

    function Set(e: Edge, t: Option<Target>): (r: LogEdges)
      ensures forall d :: r.Get(d) == if d == e then t else Get(d)
    {
      match e
      case UserEdge => this.(user := t)
      case InviteeEdge => this.(invitee := t)
      case PaymentOrderEdge => this.(paymentOrder := t)
    }
  }

  class CommissionLog {
    const userId: int
    const inviteeId: Option<int>
    const orderId: Option<int>
    var edges: LogEdges

    constructor (userId: int, inviteeId: Option<int>, orderId: Option<int>)
      ensures this.userId == userId && this.inviteeId == inviteeId && this.orderId == orderId
      ensures edges == LogEdges(None, None, None)
    {
      this.userId, this.inviteeId, this.orderId := userId, inviteeId, orderId;
      edges := LogEdges(None, None, None);
    }

    /** The foreign key behind an edge; the user is required, the other two may be nil. */
    function Key(e: Edge): Option<int> {
      match e
      case UserEdge => Some(userId)
      case InviteeEdge => inviteeId
      case PaymentOrderEdge => orderId
    }
  }

  function KeysOf(nodes: seq<CommissionLog>, e: Edge): (keys: seq<Option<int>>)
    ensures |keys| == |nodes|
    ensures forall i :: 0 <= i < |nodes| ==> keys[i] == nodes[i].Key(e)
  {
    seq(|nodes|, i requires 0 <= i < |nodes| => nodes[i].Key(e))
  }

  /** One neighbour goes to every node that carries its key. */
  method AssignTarget(e: Edge, nodes: seq<CommissionLog>, bucket: seq<nat>, target: Target)
    requires bucket == PositionsOf(KeysOf(nodes, e), target.id)
    modifies nodes
    ensures forall n :: n in nodes ==>
              n.edges == if n.Key(e) == Some(target.id) then old(n.edges).Set(e, Some(target)) else old(n.edges)
  {
    hide PositionsOf, CommissionLog.Key;
    ghost var keys := KeysOf(nodes, e);
    forall q | 0 <= q < |bucket| ensures bucket[q] < |nodes| && nodes[bucket[q]].Key(e) == Some(target.id) {
      assert bucket[q] in PositionsOf(keys, target.id);
    }
    for t := 0 to |bucket|
      invariant forall n :: n in nodes ==>
                  || n.edges == old(n.edges)
                  || (n.Key(e) == Some(target.id) && n.edges == old(n.edges).Set(e, Some(target)))
      invariant forall q :: 0 <= q < t ==> nodes[bucket[q]].edges == old(nodes[bucket[q]].edges).Set(e, Some(target))
    {
      var node := nodes[bucket[t]];
      SetTwice(old(node.edges), e, Some(target));
      node.edges := node.edges.Set(e, Some(target));
    }
    forall n | n in nodes && n.Key(e) == Some(target.id) ensures n.edges == old(n.edges).Set(e, Some(target)) {
      var i :| 0 <= i < |nodes| && nodes[i] == n;
      assert i in PositionsOf(keys, target.id);
    }
  }

  lemma SetTwice(edges: LogEdges, e: Edge, t: Option<Target>)
    ensures edges.Set(e, t).Set(e, t) == edges.Set(e, t)
  {
  }

  /** The neighbour that edge e of a log with this key ends with, given the answers. */
  function LoadedTarget(answers: Result<seq<Target>, LoadError>, key: Option<int>, before: Option<Target>): Option<Target> {
    if answers.Ok? then Neighbour(answers.value, TARGET_ID, key, before) else before
  }

  /** The answer to the one query of edge e; an edge without any key is not queried. */
  function Answer(nodes: seq<CommissionLog>, e: Edge, query: Query<Target>): Result<seq<Target>, LoadError> {
    var ids := DistinctKeys(KeysOf(nodes, e));
    if ids == [] then Ok([]) else query(ids)
  }

  ghost predicate Proper(nodes: seq<CommissionLog>, e: Edge, query: Query<Target>) {
    var answer := Answer(nodes, e, query);
    answer.Ok? && forall t :: t in answer.value ==> t.id in DistinctKeys(KeysOf(nodes, e))
  }

  /** loadUser, loadInvitee, loadPaymentOrder: only their own edge changes. */
  method Load(e: Edge, nodes: seq<CommissionLog>, query: Query<Target>) returns (err: Option<LoadError>)
    modifies nodes
    ensures err.None? <==> Proper(nodes, e, query)
    ensures err.None? ==> forall n :: n in nodes ==>
              n.edges == old(n.edges).Set(e, LoadedTarget(Answer(nodes, e, query), n.Key(e), old(n.edges.Get(e))))
  {
    hide Neighbour, PositionsOf, DistinctKeys, LogEdges.Set;
    NeighbourOfNone(TARGET_ID);
    SetKeeps(e);
    ghost var keys := KeysOf(nodes, e);
    var ids, buckets := IndexKeys(KeysOf(nodes, e));
    if |ids| == 0 {
      return None;
    }
    var answer := query(ids);
    if answer.Err? {
      return Some(answer.error);
    }
    var targets := answer.value;
    for j := 0 to |targets|
      invariant forall q :: 0 <= q < j ==> targets[q].id in ids
      invariant forall n :: n in nodes ==>
                  n.edges == old(n.edges).Set(e, Neighbour(targets[..j], TARGET_ID, n.Key(e), old(n.edges.Get(e))))
    {
      assert targets[..j + 1] == targets[..j] + [targets[j]];
      var t := targets[j];
      NeighbourSnoc(targets[..j], t, TARGET_ID);
      if t.id !in buckets {
        return Some(UnexpectedNode(t.id));
      }
      AssignTarget(e, nodes, buckets[t.id], t);
    }
    assert targets[..|targets|] == targets;
    return None;
  }

  lemma SetKeeps(e: Edge)
    ensures forall edges: LogEdges, t, u :: edges.Set(e, t).Set(e, u) == edges.Set(e, u)
    ensures forall edges: LogEdges :: edges.Set(e, edges.Get(e)) == edges
  {
  }

  /** Loading the requested edges one after the other, in any order: if it succeeds, every requested edge
      of every log holds what its own query returned under its own key, and every other edge is as it
      was. Nothing depends on the order, so the loads commute; sqlAll uses user, invitee, order. */
  method LoadAll(order: seq<Edge>, nodes: seq<CommissionLog>, query: Edge -> Query<Target>) returns (err: Option<LoadError>)
    requires forall i, j :: 0 <= i < j < |order| ==> order[i] != order[j]
    requires forall n :: n in nodes ==> n.edges == LogEdges(None, None, None)
    modifies nodes
    ensures err.None? <==> forall e :: e in order ==> Proper(nodes, e, query(e))
    ensures err.None? ==> forall n, e :: n in nodes ==>
              n.edges.Get(e) == if e in order then LoadedTarget(Answer(nodes, e, query(e)), n.Key(e), None) else None
    ensures err.None? && UserEdge in order ==> forall n :: n in nodes ==>
              n.edges.user == LoadedTarget(Answer(nodes, UserEdge, query(UserEdge)), Some(n.userId), None)
    ensures err.None? && InviteeEdge in order ==> forall n :: n in nodes ==>
              n.edges.invitee == LoadedTarget(Answer(nodes, InviteeEdge, query(InviteeEdge)), n.inviteeId, None)
    ensures err.None? && PaymentOrderEdge in order ==> forall n :: n in nodes ==>
              n.edges.paymentOrder == LoadedTarget(Answer(nodes, PaymentOrderEdge, query(PaymentOrderEdge)), n.orderId, None)
  {
    hide Answer, LoadedTarget, Proper, CommissionLog.Key, LogEdges.Set;
    for i := 0 to |order|
      invariant forall e :: e in order[..i] ==> Proper(nodes, e, query(e))
      invariant forall n, e :: n in nodes ==>
                  n.edges.Get(e) == if e in order[..i] then LoadedTarget(Answer(nodes, e, query(e)), n.Key(e), None) else None
    {
      assert order[..i + 1] == order[..i] + [order[i]];
      assert order[i] !in order[..i];
      err := Load(order[i], nodes, query(order[i]));
      if err.Some? {
        return;
      }
    }
    assert order[..|order|] == order;
    forall n | n in nodes
      ensures n.Key(UserEdge) == Some(n.userId) && n.edges.user == n.edges.Get(UserEdge)
      ensures n.Key(InviteeEdge) == n.inviteeId && n.edges.invitee == n.edges.Get(InviteeEdge)
      ensures n.Key(PaymentOrderEdge) == n.orderId && n.edges.paymentOrder == n.edges.Get(PaymentOrderEdge)
    {
      OwnKeys(n);
    }
    return None;
  }

  lemma OwnKeys(n: CommissionLog)
    ensures n.Key(UserEdge) == Some(n.userId) && n.edges.user == n.edges.Get(UserEdge)
    ensures n.Key(InviteeEdge) == n.inviteeId && n.edges.invitee == n.edges.Get(InviteeEdge)
    ensures n.Key(PaymentOrderEdge) == n.orderId && n.edges.paymentOrder == n.edges.Get(PaymentOrderEdge)
  {
  }

  /** When the queries return only what was asked for, a log has the target of an edge exactly when one with
      its key was returned. */
  lemma LoadedExactly(targets: seq<Target>, key: Option<int>)
    ensures LoadedTarget(Ok(targets), key, None).Some? <==> exists t :: t in targets && Some(t.id) == key
    ensures LoadedTarget(Ok(targets), key, None).Some? ==> Some(LoadedTarget(Ok(targets), key, None).value.id) == key
  {
    NeighbourExactly(targets, TARGET_ID, key, None);
  }
}
