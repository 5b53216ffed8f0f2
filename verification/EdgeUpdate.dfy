/** Updating the edges of an account: the edge part of AccountMutation in backend/ent/mutation.go and the
    edge specs that sqlSave of backend/ent/account_update.go emits. The groups and usage-log edges hold a
    set of IDs; the proxy edge holds at most one. */
module EdgeUpdate {
  import opened Wrappers
  import opened Runs

  // ----- edge specs -----

  datatype EdgeName = Groups | Proxy | UsageLogs

  /** One edge of an update spec; a clear spec without nodes clears the whole edge. */
  datatype EdgeSpec = EdgeSpec(edge: EdgeName, nodes: seq<int>)

  datatype EdgeSpecs = EdgeSpecs(clear: seq<EdgeSpec>, add: seq<EdgeSpec>) {
    function Then(next: EdgeSpecs): EdgeSpecs {
      EdgeSpecs(clear + next.clear, add + next.add)
    }

    ghost predicate Only(e: EdgeName) {
      (forall i :: 0 <= i < |clear| ==> clear[i].edge == e) && (forall i :: 0 <= i < |add| ==> add[i].edge == e)
    }
  }

  function Ids(ids: seq<int>): set<int> {
    set x | x in ids
  }

  /** Specs without the order of their nodes, which is that of a walk over a Go map. */
  function Shape(specs: seq<EdgeSpec>): (shape: seq<(EdgeName, set<int>)>)
    ensures |shape| == |specs| && forall i :: 0 <= i < |specs| ==> shape[i] == (specs[i].edge, Ids(specs[i].nodes))
  {
    seq(|specs|, i requires 0 <= i < |specs| => (specs[i].edge, Ids(specs[i].nodes)))
  }

  lemma ShapeConcat(a: seq<EdgeSpec>, b: seq<EdgeSpec>)
    ensures Shape(a + b) == Shape(a) + Shape(b)
  {
    hide Shape;
  }

  /** What the clear specs leave of the links of set edge e. */
  function Cleared(clear: seq<EdgeSpec>, e: EdgeName, links: set<int>): set<int> {
    if clear == [] then links
    else
      var n := |clear| - 1;
      var before := Cleared(clear[..n], e, links);
      if clear[n].edge != e then before else if clear[n].nodes == [] then {} else before - Ids(clear[n].nodes)
  }

  function Added(add: seq<EdgeSpec>, e: EdgeName, links: set<int>): set<int> {
    if add == [] then links
    else
      var n := |add| - 1;
      var before := Added(add[..n], e, links);
      if add[n].edge != e then before else before + Ids(add[n].nodes)
  }

  /** The database's reading of the specs for a set edge: every clear, then every add. */
  function Applied(specs: EdgeSpecs, e: EdgeName, links: set<int>): set<int> {
    Added(specs.add, e, Cleared(specs.clear, e, links))
  }

  /** The foreign key after the specs: a clear of the proxy edge makes it NULL, an add stores its node. */
  function AppliedKey(specs: EdgeSpecs, key: Option<int>): Option<int> {
    KeyAdded(specs.add, if exists s :: s in specs.clear && s.edge == Proxy then None else key)
  }

  function KeyAdded(add: seq<EdgeSpec>, key: Option<int>): Option<int> {
    if add == [] then key
    else
      var s := add[|add| - 1];
      if s.edge == Proxy && s.nodes != [] then Some(s.nodes[0]) else KeyAdded(add[..|add| - 1], key)
  }

  lemma {:induction false} OthersSkipped(specs: seq<EdgeSpec>, more: seq<EdgeSpec>, e: EdgeName)
    requires forall i :: 0 <= i < |more| ==> more[i].edge != e
    ensures forall links :: Cleared(specs + more, e, links) == Cleared(specs, e, links)
    ensures forall links :: Added(specs + more, e, links) == Added(specs, e, links)
    ensures e == Proxy ==> forall key :: KeyAdded(specs + more, key) == KeyAdded(specs, key)
    decreases |more|
  {
    if more == [] {
      assert specs + more == specs;
    } else {
      var n := |more| - 1;
      assert (specs + more)[..|specs + more| - 1] == specs + more[..n];
      assert (specs + more)[|specs + more| - 1] == more[n];
      OthersSkipped(specs, more[..n], e);
    }
  }

  lemma {:induction false} OthersFirst(others: seq<EdgeSpec>, specs: seq<EdgeSpec>, e: EdgeName)
    requires forall i :: 0 <= i < |others| ==> others[i].edge != e
    ensures forall links :: Cleared(others + specs, e, links) == Cleared(specs, e, links)
    ensures forall links :: Added(others + specs, e, links) == Added(specs, e, links)
    ensures e == Proxy ==> forall key :: KeyAdded(others + specs, key) == KeyAdded(specs, key)
    decreases |specs|
  {
    if specs == [] {
      assert [] + others == others + specs;
      OthersSkipped([], others, e);
    } else {
      var n := |specs| - 1;
      assert (others + specs)[..|others + specs| - 1] == others + specs[..n];
      assert (others + specs)[|others + specs| - 1] == specs[n];
      OthersFirst(others, specs[..n], e);
    }
  }

  /** Specs of different edges in one update do not disturb each other. */
  lemma EdgesApart(groups: EdgeSpecs, proxy: EdgeSpecs, logs: EdgeSpecs)
    requires groups.Only(Groups) && proxy.Only(Proxy) && logs.Only(UsageLogs)
    ensures var all := groups.Then(proxy).Then(logs);
            && (forall links :: Applied(all, Groups, links) == Applied(groups, Groups, links))
            && (forall links :: Applied(all, UsageLogs, links) == Applied(logs, UsageLogs, links))
            && (forall key :: AppliedKey(all, key) == AppliedKey(proxy, key))
  {
    hide Cleared, Added, KeyAdded;
    OthersSkipped(groups.clear, proxy.clear, Groups);
    OthersSkipped(groups.clear + proxy.clear, logs.clear, Groups);
    OthersSkipped(groups.add, proxy.add, Groups);
    OthersSkipped(groups.add + proxy.add, logs.add, Groups);
    OthersFirst(groups.clear + proxy.clear, logs.clear, UsageLogs);
    OthersFirst(groups.add + proxy.add, logs.add, UsageLogs);
    OthersFirst(groups.add, proxy.add, Proxy);
    OthersSkipped(groups.add + proxy.add, logs.add, Proxy);
    var all := groups.Then(proxy).Then(logs);
    assert (exists s :: s in all.clear && s.edge == Proxy) <==> (exists s :: s in proxy.clear && s.edge == Proxy);
  }

  lemma SingleSpecs()
    ensures forall e, links :: Cleared([], e, links) == links && Added([], e, links) == links
    ensures forall s: EdgeSpec, links :: Cleared([s], s.edge, links) == if s.nodes == [] then {} else links - Ids(s.nodes)
    ensures forall s: EdgeSpec, links :: Added([s], s.edge, links) == links + Ids(s.nodes)
    ensures forall key :: KeyAdded([], key) == key
    ensures forall s: EdgeSpec, key :: s.edge == Proxy && s.nodes != [] ==> KeyAdded([s], key) == Some(s.nodes[0])
  {
    forall s: EdgeSpec, links: set<int>
      ensures Cleared([s], s.edge, links) == if s.nodes == [] then {} else links - Ids(s.nodes)
      ensures Added([s], s.edge, links) == links + Ids(s.nodes)
    {
      assert [s][..0] == [];
    }
  }

  lemma Inhabited(s: set<int>)
    ensures s == {} || exists x :: x in s
  {
    if forall x :: x !in s {
      assert s == {};
    }
  }

  /** The keys of a Go map, in whatever order it is walked. */
  method Listed(s: set<int>) returns (ids: seq<int>)
    ensures Ids(ids) == s && (ids == [] <==> s == {})
  {
    var rest := s;
    ids := [];
    while rest != {}
      invariant rest <= s && Ids(ids) == s - rest
      decreases rest
    {
      Inhabited(rest);
      var x :| x in rest;
      assert Ids(ids + [x]) == Ids(ids) + {x};
      ids, rest := ids + [x], rest - {x};
    }
    assert ids != [] ==> ids[0] in Ids(ids);
  }

  // ----- set edges: groups and usage logs -----

  /** What the mutation records for one set edge. */
  datatype SetEdge = SetEdge(added: set<int>, removed: set<int>, cleared: bool)

  const UNTOUCHED := SetEdge({}, {}, false)

  /** A call on the builder or, for Reset, on the mutation. */
  datatype Op = Add(ids: seq<int>) | Remove(ids: seq<int>) | Clear | Reset

  function Step(s: SetEdge, op: Op): SetEdge {
    match op
    case Add(ids) => s.(added := s.added + Ids(ids))
    case Remove(ids) => s.(added := s.added - Ids(ids), removed := s.removed + Ids(ids))
    case Clear => s.(cleared := true)
    case Reset => UNTOUCHED
  }

  /** The links after saving what was recorded: what was neither cleared nor removed, and what was added. */
  function Effect(s: SetEdge, links: set<int>): set<int> {
    (if s.cleared then {} else links - s.removed) + s.added
  }

  function ClearsFor(s: SetEdge, e: EdgeName): seq<(EdgeName, set<int>)> {
    if s.cleared then [(e, {})] else if s.removed != {} then [(e, s.removed)] else []
  }

  function AddsFor(s: SetEdge, e: EdgeName): seq<(EdgeName, set<int>)> {
    if s.added != {} then [(e, s.added)] else []
  }

  class EdgeMutation {
    var state: SetEdge

    constructor ()
      ensures state == UNTOUCHED
    {
      state := UNTOUCHED;
    }

    /** AddGroupIDs, AddUsageLogIDs: a save now also links the IDs, whatever happened to them before. */
    method AddIDs(ids: seq<int>)
      modifies this
      ensures state == Step(old(state), Add(ids))
      ensures forall links :: Effect(state, links) == old(Effect(state, links)) + Ids(ids)
    {
      for i := 0 to |ids|
        invariant state == Step(old(state), Add(ids[..i]))
      {
        assert ids[..i + 1] == ids[..i] + [ids[i]];
        state := state.(added := state.added + {ids[i]});
      }
      assert ids[..|ids|] == ids;
    }

    /** RemoveGroupIDs, RemoveUsageLogIDs: a save now leaves none of the IDs linked. */
    method RemoveIDs(ids: seq<int>)
      modifies this
      ensures state == Step(old(state), Remove(ids))
      ensures forall links :: Effect(state, links) == old(Effect(state, links)) - Ids(ids)
    {
      for i := 0 to |ids|
        invariant state == Step(old(state), Remove(ids[..i]))
      {
        assert ids[..i + 1] == ids[..i] + [ids[i]];
        state := state.(added := state.added - {ids[i]}, removed := state.removed + {ids[i]});
      }
      assert ids[..|ids|] == ids;
    }

    /** ClearGroups, ClearUsageLogs: a save now keeps no link, but still adds what was added before. */
    method ClearEdge()
      modifies this
      ensures state == Step(old(state), Clear)
      ensures forall links :: Effect(state, links) == old(state).added
    {
      state := state.(cleared := true);
    }

    /** ResetGroups, ResetUsageLogs: a save now changes nothing. */
    method ResetEdge()
      modifies this
      ensures state == Step(old(state), Reset)
      ensures forall links :: Effect(state, links) == links
    {
      state := UNTOUCHED;
    }

    method Call(op: Op)
      modifies this
      ensures state == Step(old(state), op)
    {
      match op {
        case Add(ids) => AddIDs(ids);
        case Remove(ids) => RemoveIDs(ids);
        case Clear => ClearEdge();
        case Reset => ResetEdge();
      }
    }

    /** The specs that sqlSave emits for this edge. */
    method Emit(e: EdgeName) returns (specs: EdgeSpecs)
      ensures specs.Only(e)
      ensures Shape(specs.clear) == ClearsFor(state, e) && Shape(specs.add) == AddsFor(state, e)
      ensures forall links :: Applied(specs, e, links) == Effect(state, links)
    {
      specs := EdgeSpecs([], []);
      if state.cleared {
        specs := specs.(clear := [EdgeSpec(e, [])]);
      }
      var removed := Listed(state.removed);
      if |removed| > 0 && !state.cleared {
        specs := specs.(clear := [EdgeSpec(e, removed)]);
      }
      var added := Listed(state.added);
      if |added| > 0 {
        specs := specs.(add := [EdgeSpec(e, added)]);
      }
      assert Ids([]) == {};
      hide Cleared, Added, Ids;
      SingleSpecs();
    }
  }

  // ----- whole runs of calls on a set edge -----

  /** The mutation after a run of calls. */
  function Run(ops: seq<Op>): SetEdge {
    if ops == [] then UNTOUCHED else Step(Run(ops[..|ops| - 1]), ops[|ops| - 1])
  }

  /** The links after saving the run; SaveRun shows that the emitted specs leave exactly these. */
  function Saved(ops: seq<Op>, links: set<int>): set<int> {
    Effect(Run(ops), links)
  }

  /** What the calls mean one after the other: each acts on the links the previous one left. */
  function InSequence(ops: seq<Op>, links: set<int>): set<int> {
    if ops == [] then links
    else
      var before := InSequence(ops[..|ops| - 1], links);
      match ops[|ops| - 1]
      case Add(ids) => before + Ids(ids)
      case Remove(ids) => before - Ids(ids)
      case Clear => {}
      case Reset => links
  }

  /** The IDs that were added before a clear and not mentioned since. */
  function Stale(ops: seq<Op>): set<int> {
    if ops == [] then {}
    else
      var pre := ops[..|ops| - 1];
      match ops[|ops| - 1]
      case Add(ids) => Stale(pre) - Ids(ids)
      case Remove(ids) => Stale(pre) - Ids(ids)
      case Clear => Run(pre).added
      case Reset => {}
  }

  /** For every run of calls and all links, saving gives the sequential meaning plus exactly the stale
      IDs, and no stale ID is in the sequential meaning. */
  lemma {:induction false} SavedIsSequentialPlusStale(ops: seq<Op>, links: set<int>)
    ensures Saved(ops, links) == InSequence(ops, links) + Stale(ops)
    ensures InSequence(ops, links) !! Stale(ops)
    ensures Stale(ops) <= Run(ops).added
  {
    if ops != [] {
      SavedIsSequentialPlusStale(ops[..|ops| - 1], links);
    }
  }

  predicate Mentions(op: Op, x: int) {
    match op
    case Add(ids) => x in ids
    case Remove(ids) => x in ids
    case Clear => false
    case Reset => true
  }

  /** x was added by the call at a, cleared by the call at c, and not mentioned or reset after a. */
  ghost predicate AddedThenCleared(ops: seq<Op>, x: int, a: int, c: int) {
    && 0 <= a < c < |ops|
    && ops[a].Add? && x in ops[a].ids
    && ops[c] == Clear
    && forall i :: a < i < |ops| ==> !Mentions(ops[i], x)
  }

  /** x was added by the call at a and not mentioned or reset after it. */
  ghost predicate LastAdded(ops: seq<Op>, x: int, a: int) {
    0 <= a < |ops| && ops[a].Add? && x in ops[a].ids && forall i :: a < i < |ops| ==> !Mentions(ops[i], x)
  }

  lemma {:induction false} AddedExactly(ops: seq<Op>, x: int)
    ensures x in Run(ops).added <==> exists a :: LastAdded(ops, x, a)
  {
    if ops != [] {
      var n := |ops| - 1;
      var pre := ops[..n];
      assert forall i :: 0 <= i < n ==> pre[i] == ops[i];
      AddedExactly(pre, x);
      if a :| LastAdded(pre, x, a) && !Mentions(ops[n], x) {
        assert LastAdded(ops, x, a);
      }
      if a :| LastAdded(ops, x, a) && a < n {
        assert LastAdded(pre, x, a);
      }
      if ops[n].Add? && x in ops[n].ids {
        assert LastAdded(ops, x, n);
      }
    }
  }

  lemma {:induction false} StaleExactly(ops: seq<Op>, x: int)
    ensures x in Stale(ops) <==> exists a, c :: AddedThenCleared(ops, x, a, c)
  {
    if ops != [] {
      var n := |ops| - 1;
      var pre := ops[..n];
      StaleExactly(pre, x);
      if ops[n].Clear? {
        AddedExactly(pre, x);
        ClearMakesStale(pre, ops, x);
      } else {
        StaleGoesOn(pre, ops[n], ops, x);
      }
    }
  }

  lemma ClearMakesStale(pre: seq<Op>, ops: seq<Op>, x: int)
    requires ops == pre + [Clear]
    ensures (exists a, c :: AddedThenCleared(ops, x, a, c)) <==> exists a :: LastAdded(pre, x, a)
  {
    assert forall i :: 0 <= i < |pre| ==> pre[i] == ops[i];
    if a :| LastAdded(pre, x, a) {
      assert AddedThenCleared(ops, x, a, |pre|);
    }
    if a, c :| AddedThenCleared(ops, x, a, c) {
      assert LastAdded(pre, x, a);
    }
  }

  lemma StaleGoesOn(pre: seq<Op>, op: Op, ops: seq<Op>, x: int)
    requires ops == pre + [op] && !op.Clear?
    ensures (exists a, c :: AddedThenCleared(ops, x, a, c)) <==>
            !Mentions(op, x) && exists a, c :: AddedThenCleared(pre, x, a, c)
  {
    assert forall i :: 0 <= i < |pre| ==> pre[i] == ops[i];
    if a, c :| AddedThenCleared(pre, x, a, c) && !Mentions(op, x) {
      assert AddedThenCleared(ops, x, a, c);
    }
    if a, c :| AddedThenCleared(ops, x, a, c) {
      assert ops[|pre|] == op;
      assert AddedThenCleared(pre, x, a, c);
    }
  }

  /** A run of calls means what it says if and only if no ID is added, then the edge cleared, and the ID
      not mentioned again: a clear does not take back an earlier add. */
  lemma SequentialExactly(ops: seq<Op>, links: set<int>)
    ensures Saved(ops, links) == InSequence(ops, links) <==> !exists x, a, c :: AddedThenCleared(ops, x, a, c)
  {
    hide Stale, Saved, InSequence, AddedThenCleared;
    SavedIsSequentialPlusStale(ops, links);
    if x, a, c :| AddedThenCleared(ops, x, a, c) {
      StaleExactly(ops, x);
      assert x in Saved(ops, links);
    } else {
      forall x: int ensures x !in Stale(ops) {
        StaleExactly(ops, x);
      }
    }
  }

  /** Clearing after adding does not take the added ID back. */
  lemma ClearAfterAdd(x: int, links: set<int>)
    ensures var ops := [Add([x]), Clear]; InSequence(ops, links) == {} && Saved(ops, links) == {x}
  {
    var ops := [Add([x]), Clear];
    assert ops[..1] == [Add([x])] && [Add([x])][..0] == [];
    assert Run(ops[..1]) == Step(UNTOUCHED, Add([x]));
    assert Run(ops) == Step(Step(UNTOUCHED, Add([x])), Clear);
    assert Ids([x]) == {x};
  }

  // ----- the unique edge: proxy -----

  datatype ProxyEdge = ProxyEdge(proxy: Option<int>, clearedEdge: bool, clearedField: bool)

  const PROXY_UNTOUCHED := ProxyEdge(None, false, false)

  /** A call on the builder or, for the two resets, on the mutation. */
  datatype ProxyOp = SetProxyID(id: int) | ClearProxyID | ClearProxy | ResetProxyID | ResetProxy

  function ProxyStep(s: ProxyEdge, op: ProxyOp): ProxyEdge {
    match op
    case SetProxyID(id) => s.(proxy := Some(id))
    case ClearProxyID => s.(proxy := None, clearedField := true)
    case ClearProxy => s.(clearedEdge := true, clearedField := true)
    case ResetProxyID => s.(proxy := None, clearedField := false)
    case ResetProxy => s.(proxy := None, clearedEdge := false)
  }

  /** The foreign key after saving what was recorded. */
  function ProxyEffect(s: ProxyEdge, key: Option<int>): Option<int> {
    if s.proxy.Some? then s.proxy else if s.clearedField || s.clearedEdge then None else key
  }

  function KeyClearsFor(s: ProxyEdge): seq<EdgeSpec> {
    if s.clearedField || s.clearedEdge then [EdgeSpec(Proxy, [])] else []
  }

  function KeyAddsFor(s: ProxyEdge): seq<EdgeSpec> {
    if s.proxy.Some? then [EdgeSpec(Proxy, [s.proxy.value])] else []
  }

  class ProxyMutation {
    var proxy: Option<int>
    var clearedProxy: bool
    var clearedFields: set<string>

    const PROXY_ID := "proxy_id"

    ghost function State(): ProxyEdge
      reads this
    {
      ProxyEdge(proxy, clearedProxy, PROXY_ID in clearedFields)
    }

    constructor ()
      ensures State() == PROXY_UNTOUCHED
    {
      proxy, clearedProxy, clearedFields := None, false, {};
    }

    method Call(op: ProxyOp)
      modifies this
      ensures State() == ProxyStep(old(State()), op)
    {
      match op {
        case SetProxyID(id) => proxy := Some(id);
        case ClearProxyID => proxy, clearedFields := None, clearedFields + {PROXY_ID};
        case ClearProxy => clearedProxy, clearedFields := true, clearedFields + {PROXY_ID};
        case ResetProxyID => proxy, clearedFields := None, clearedFields - {PROXY_ID};
        case ResetProxy => proxy, clearedProxy := None, false;
      }
    }

    /** The specs that sqlSave emits for the proxy edge. */
    method Emit() returns (specs: EdgeSpecs)
      ensures specs == EdgeSpecs(KeyClearsFor(State()), KeyAddsFor(State())) && specs.Only(Proxy)
      ensures forall key :: AppliedKey(specs, key) == ProxyEffect(State(), key)
    {
      specs := EdgeSpecs([], []);
      if PROXY_ID in clearedFields || clearedProxy {
        specs := specs.(clear := [EdgeSpec(Proxy, [])]);
        assert specs.clear[0] in specs.clear;
      }
      if proxy.Some? {
        specs := specs.(add := [EdgeSpec(Proxy, [proxy.value])]);
      }
      hide KeyAdded;
      SingleSpecs();
    }
  }

  function ProxyRun(ops: seq<ProxyOp>): ProxyEdge {
    if ops == [] then PROXY_UNTOUCHED else ProxyStep(ProxyRun(ops[..|ops| - 1]), ops[|ops| - 1])
  }

  function ProxySaved(ops: seq<ProxyOp>, key: Option<int>): Option<int> {
    ProxyEffect(ProxyRun(ops), key)
  }

  /** What the last call says; a reset takes everything back. */
  function ProxyInSequence(ops: seq<ProxyOp>, key: Option<int>): Option<int> {
    if ops == [] then key
    else
      match ops[|ops| - 1]
      case SetProxyID(id) => Some(id)
      case ClearProxyID | ClearProxy => None
      case ResetProxyID | ResetProxy => key
  }

  const SETS: ProxyOp -> bool := (op: ProxyOp) => op.SetProxyID?
  const DROPS: ProxyOp -> bool := (op: ProxyOp) => !op.ClearProxy?
  const CLEARS_EDGE: ProxyOp -> bool := (op: ProxyOp) => op.ClearProxy?
  const RESETS_EDGE: ProxyOp -> bool := (op: ProxyOp) => op.ResetProxy?
  const CLEARS_FIELD: ProxyOp -> bool := (op: ProxyOp) => op.ClearProxy? || op.ClearProxyID?
  const RESETS_FIELD: ProxyOp -> bool := (op: ProxyOp) => op.ResetProxyID?

  lemma {:induction false} ProxyRunIsOn(ops: seq<ProxyOp>)
    ensures ProxyRun(ops).proxy.Some? <==> On(ops, SETS, DROPS)
    ensures ProxyRun(ops).clearedEdge <==> On(ops, CLEARS_EDGE, RESETS_EDGE)
    ensures ProxyRun(ops).clearedField <==> On(ops, CLEARS_FIELD, RESETS_FIELD)
  {
    if ops != [] {
      ProxyRunIsOn(ops[..|ops| - 1]);
    }
  }

  /** What a run leaves recorded: a proxy exactly when the last call other than ClearProxy sets one, and
      each of the two cleared marks exactly when a clear is not followed by its own reset. */
  lemma ProxyRunExactly(ops: seq<ProxyOp>)
    ensures ProxyRun(ops).proxy.Some? <==> exists c :: Lasting(ops, SETS, DROPS, c)
    ensures ProxyRun(ops).clearedEdge <==> exists c :: Lasting(ops, CLEARS_EDGE, RESETS_EDGE, c)
    ensures ProxyRun(ops).clearedField <==> exists c :: Lasting(ops, CLEARS_FIELD, RESETS_FIELD, c)
  {
    hide On, Lasting, ProxyRun;
    ProxyRunIsOn(ops);
    OnExactly(ops, SETS, DROPS);
    OnExactly(ops, CLEARS_EDGE, RESETS_EDGE);
    OnExactly(ops, CLEARS_FIELD, RESETS_FIELD);
  }

  /** A SetProxyID is followed by calls of ClearProxy only, and by at least one. */
  ghost predicate SetThenCleared(ops: seq<ProxyOp>, a: int) {
    0 <= a < |ops| - 1 && ops[a].SetProxyID? && forall i :: a < i < |ops| ==> ops[i] == ClearProxy
  }

  /** The run ends with a reset of one kind, and a clear at c was not followed by the reset it needs. */
  ghost predicate ClearOutlivesReset(ops: seq<ProxyOp>, c: int) {
    && ops != []
    && ((ops[|ops| - 1] == ResetProxy && Lasting(ops, CLEARS_FIELD, RESETS_FIELD, c)) ||
        (ops[|ops| - 1] == ResetProxyID && Lasting(ops, CLEARS_EDGE, RESETS_EDGE, c)))
  }

  /** The proxy calls mean what they say if and only if no SetProxyID is followed by ClearProxy only and,
      where the account has a proxy, no clear outlives a closing reset: the edge clear leaves the proxy
      in place, and each reset takes back one of the two marks of a clear. */
  lemma ProxySequentialExactly(ops: seq<ProxyOp>, key: Option<int>)
    ensures ProxySaved(ops, key) == ProxyInSequence(ops, key) <==>
            (!exists a :: SetThenCleared(ops, a)) && (key.Some? ==> !exists c :: ClearOutlivesReset(ops, c))
  {
    ProxyRunExactly(ops);
    if ops != [] {
      var last := ops[|ops| - 1];
      if last == ClearProxy {
        LastIsClear(ops);
      } else {
        NotSetThenCleared(ops);
      }
      hide Lasting, SetThenCleared;
      assert ProxyRun(ops) == ProxyStep(ProxyRun(ops[..|ops| - 1]), last);
      if last == ResetProxy && ProxyRun(ops).clearedField {
        var c :| Lasting(ops, CLEARS_FIELD, RESETS_FIELD, c);
        assert ClearOutlivesReset(ops, c);
      }
      if last == ResetProxyID && ProxyRun(ops).clearedEdge {
        var c :| Lasting(ops, CLEARS_EDGE, RESETS_EDGE, c);
        assert ClearOutlivesReset(ops, c);
      }
    }
  }

  lemma LastIsClear(ops: seq<ProxyOp>)
    requires ops != [] && ops[|ops| - 1] == ClearProxy
    ensures (exists a :: SetThenCleared(ops, a)) <==> exists c :: Lasting(ops, SETS, DROPS, c)
  {
    if c :| Lasting(ops, SETS, DROPS, c) {
      assert SetThenCleared(ops, c);
    }
    if a :| SetThenCleared(ops, a) {
      assert Lasting(ops, SETS, DROPS, a);
    }
  }

  lemma NotSetThenCleared(ops: seq<ProxyOp>)
    requires ops != [] && ops[|ops| - 1] != ClearProxy
    ensures !exists a :: SetThenCleared(ops, a)
  {
  }

  /** The three ways to fail, at their shortest. */
  lemma ProxySurprises(id: int, key: int)
    ensures var ops := [SetProxyID(id), ClearProxy]; ProxyInSequence(ops, Some(key)) == None && ProxySaved(ops, Some(key)) == Some(id)
    ensures var ops := [ClearProxy, ResetProxy]; ProxyInSequence(ops, Some(key)) == Some(key) && ProxySaved(ops, Some(key)) == None
    ensures var ops := [ClearProxy, ResetProxyID]; ProxyInSequence(ops, Some(key)) == Some(key) && ProxySaved(ops, Some(key)) == None
  {
    forall a: ProxyOp, b: ProxyOp ensures ProxyRun([a, b]) == ProxyStep(ProxyStep(PROXY_UNTOUCHED, a), b) {
      assert [a, b][..1] == [a] && [a][..0] == [];
      assert ProxyRun([a]) == ProxyStep(PROXY_UNTOUCHED, a);
    }
  }

  // ----- runs over all three edges -----

  /** A call on the update builder or its mutation. */
  datatype Call = OnGroups(op: Op) | OnUsageLogs(op: Op) | OnProxy(proxyOp: ProxyOp)

  function GroupOps(calls: seq<Call>): seq<Op> {
    if calls == [] then []
    else
      var n := |calls| - 1;
      var before := GroupOps(calls[..n]);
      if calls[n].OnGroups? then before + [calls[n].op] else before
  }

  function UsageLogOps(calls: seq<Call>): seq<Op> {
    if calls == [] then []
    else
      var n := |calls| - 1;
      var before := UsageLogOps(calls[..n]);
      if calls[n].OnUsageLogs? then before + [calls[n].op] else before
  }

  function ProxyOps(calls: seq<Call>): seq<ProxyOp> {
    if calls == [] then []
    else
      var n := |calls| - 1;
      var before := ProxyOps(calls[..n]);
      if calls[n].OnProxy? then before + [calls[n].proxyOp] else before
  }

  lemma RunSnoc(ops: seq<Op>, op: Op)
    ensures Run(ops + [op]) == Step(Run(ops), op)
  {
    assert (ops + [op])[..|ops|] == ops;
  }

  lemma ProxyRunSnoc(ops: seq<ProxyOp>, op: ProxyOp)
    ensures ProxyRun(ops + [op]) == ProxyStep(ProxyRun(ops), op)
  {
    assert (ops + [op])[..|ops|] == ops;
  }

  /** Any calls, in any interleaving, and then the edge part of sqlSave: applied to any account, the
      emitted specs leave on each set edge what its own calls mean in sequence together with exactly its
      stale IDs, and on the proxy edge what ProxySaved says. */
  method SaveRun(calls: seq<Call>) returns (specs: EdgeSpecs)
    ensures forall links :: Applied(specs, Groups, links) == InSequence(GroupOps(calls), links) + Stale(GroupOps(calls))
    ensures forall links :: Applied(specs, UsageLogs, links) == InSequence(UsageLogOps(calls), links) + Stale(UsageLogOps(calls))
    ensures forall key :: AppliedKey(specs, key) == ProxySaved(ProxyOps(calls), key)
  {
    hide Applied, AppliedKey, InSequence, Stale, Effect, ProxyEffect, Run, ProxyRun, Step, ProxyStep;
    var groups := new EdgeMutation();
    var proxy := new ProxyMutation();
    var logs := new EdgeMutation();
    NothingRun();
    for i := 0 to |calls|
      invariant groups.state == Run(GroupOps(calls[..i])) && logs.state == Run(UsageLogOps(calls[..i]))
      invariant proxy.State() == ProxyRun(ProxyOps(calls[..i]))
    {
      assert calls[..i + 1][..i] == calls[..i];
      match calls[i] {
        case OnGroups(op) => RunSnoc(GroupOps(calls[..i]), op); groups.Call(op);
        case OnUsageLogs(op) => RunSnoc(UsageLogOps(calls[..i]), op); logs.Call(op);
        case OnProxy(op) => ProxyRunSnoc(ProxyOps(calls[..i]), op); proxy.Call(op);
      }
    }
    assert calls[..|calls|] == calls;
    var forGroups := groups.Emit(Groups);
    var forProxy := proxy.Emit();
    var forLogs := logs.Emit(UsageLogs);
    EdgesApart(forGroups, forProxy, forLogs);
    forall links: set<int>
      ensures Saved(GroupOps(calls), links) == InSequence(GroupOps(calls), links) + Stale(GroupOps(calls))
      ensures Saved(UsageLogOps(calls), links) == InSequence(UsageLogOps(calls), links) + Stale(UsageLogOps(calls))
    {
      SavedIsSequentialPlusStale(GroupOps(calls), links);
      SavedIsSequentialPlusStale(UsageLogOps(calls), links);
    }
    specs := forGroups.Then(forProxy).Then(forLogs);
  }

  lemma NothingRun()
    ensures Run([]) == UNTOUCHED && ProxyRun([]) == PROXY_UNTOUCHED
  {
  }
}
