/** The many-to-many template of eager loading: loadGroups of backend/ent/account_query.go, and the index by
    ID that the loaders share. A batched query is an oracle from the keys it is given to an error or a
    sequence of rows. */
module EagerLoad {
  import opened Wrappers
  import opened AccountEntity

  datatype LoadError = QueryFailed(tag: string) | UnexpectedNode(id: int) | NilDereference

  type Query<!R> = seq<int> -> Result<seq<R>, LoadError>

  /** A row of the joined query as the loader understands it: the account's key and the group. */
  datatype JoinRow = JoinRow(accountId: int, group: Group)

  // ----- the rows of the joined query -----

  datatype GroupColumn = GroupID | GroupField(name: string)

  /** The columns that a group query reads: the ID first and only once. */
  type GroupColumns = columns: seq<GroupColumn> | columns != [] && columns[0] == GroupID && GroupID !in columns[1..]
    witness [GroupID]

  /** A row in the database: the account key of the join table, the group's ID and its other columns. */
  datatype DbRow = DbRow(accountKey: Option<int>, groupKey: Option<int>, field: string -> Container)

  datatype GroupQuery = GroupQuery(columns: GroupColumns, rows: Query<DbRow>)

  /** What the driver writes into the container of a column. */
  function Cell(row: DbRow, c: GroupColumn): Container {
    match c
    case GroupID => NullInt64(row.groupKey)
    case GroupField(n) => row.field(n)
  }

  function Cells(row: DbRow, columns: seq<GroupColumn>): (values: seq<Container>)
    ensures |values| == |columns| && forall i :: 0 <= i < |columns| ==> values[i] == Cell(row, columns[i])
  {
    seq(|columns|, i requires 0 <= i < |columns| => Cell(row, columns[i]))
  }

  /** The group that its own Assign builds from a row. */
  function ReadGroup(columns: seq<GroupColumn>, values: seq<Container>): Group
    requires |columns| == |values|
    decreases |columns|
  {
    if columns == [] then Group(0, map[])
    else
      var n := |columns| - 1;
      var before := ReadGroup(columns[..n], values[..n]);
      match columns[n]
      case GroupID => before.(id := if values[n].NullInt64? then values[n].i.GetOr(0) else 0)
      case GroupField(name) => before.(fields := before.fields[name := values[n]])
  }

  lemma {:induction false} ReadGroupId(columns: seq<GroupColumn>, values: seq<Container>)
    requires |columns| == |values| && columns != [] && columns[0] == GroupID && GroupID !in columns[1..] && values[0].NullInt64?
    ensures ReadGroup(columns, values).id == values[0].i.GetOr(0)
  {
    var n := |columns| - 1;
    if n > 0 {
      assert columns[n] == columns[1..][n - 1];
      assert columns[..n][1..] == columns[1..][..n - 1];
      ReadGroupId(columns[..n], values[..n]);
    }
  }

  /** A group read from a row holds exactly the columns that were read, each with the row's value, and the ID. */
  lemma {:induction false} ReadGroupExactly(columns: seq<GroupColumn>, row: DbRow, name: string)
    ensures var g := ReadGroup(columns, Cells(row, columns));
            && (name in g.fields <==> GroupField(name) in columns)
            && (name in g.fields ==> g.fields[name] == row.field(name))
            && g.id == if GroupID in columns then row.groupKey.GetOr(0) else 0
  {
    if columns != [] {
      var n := |columns| - 1;
      ReadGroupExactly(columns[..n], row, name);
      assert columns == columns[..n] + [columns[n]];
      assert Cells(row, columns)[..n] == Cells(row, columns[..n]);
    }
  }

  function JoinRowOf(columns: seq<GroupColumn>, row: DbRow): JoinRow {
    JoinRow(row.accountKey.GetOr(0), ReadGroup(columns, Cells(row, columns)))
  }

  function JoinRows(columns: seq<GroupColumn>, rows: seq<DbRow>): (js: seq<JoinRow>)
    ensures |js| == |rows| && forall i :: 0 <= i < |rows| ==> js[i] == JoinRowOf(columns, rows[i])
  {
    seq(|rows|, i requires 0 <= i < |rows| => JoinRowOf(columns, rows[i]))
  }

  /** The answer of a group query, read as join rows. */
  function JoinQuery(g: GroupQuery): Query<JoinRow> {
    (ids: seq<int>) => match g.rows(ids)
      case Err(e) => Err(e)
      case Ok(rows) => Ok(JoinRows(g.columns, rows))
  }

  /** The rewritten ScanValues: a container for the account key in front of those of the group's columns. */
  method ScanJoined(columns: GroupColumns) returns (values: array<Container>)
    ensures fresh(values) && values.Length == 1 + |columns|
    ensures values[0] == NullInt64(None) && values[1] == NullInt64(None)
  {
    values := new Container[1 + |columns|](_ => UnknownType(None));
    values[0] := NullInt64(None);
    for i := 0 to |columns|
      invariant values[0] == NullInt64(None)
      invariant i > 0 ==> values[1] == NullInt64(None)
    {
      if columns[i] == GroupID {
        values[1 + i] := NullInt64(None);
      }
    }
  }

  /** The driver scans a row into the containers: the account key, then the group's columns. */
  method ScanRow(columns: GroupColumns, row: DbRow) returns (values: array<Container>)
    ensures values.Length == 1 + |columns|
    ensures values[0] == NullInt64(row.accountKey) && values[1..] == Cells(row, columns)
  {
    values := ScanJoined(columns);
    values[0] := NullInt64(row.accountKey);
    for i := 0 to |columns|
      invariant values[0] == NullInt64(row.accountKey)
      invariant forall j :: 0 <= j < i ==> values[1 + j] == Cell(row, columns[j])
    {
      values[1 + i] := Cell(row, columns[i]);
    }
    assert values[1..] == Cells(row, columns);
  }

  function IdsOf(nodes: seq<Account>): (ids: seq<int>)
    reads nodes
    ensures |ids| == |nodes|
    ensures forall i :: 0 <= i < |nodes| ==> ids[i] == nodes[i].cols.id
  {
    seq(|nodes|, i requires 0 <= i < |nodes| reads nodes => nodes[i].cols.id)
  }

  /** The index from ID to node; the last of several nodes with one ID is kept. */
  ghost predicate ById(nodes: seq<Account>, ids: seq<int>, byId: map<int, Account>)
    requires |nodes| == |ids|
  {
    && (forall k :: k in byId ==> k in ids)
    && (forall i :: 0 <= i < |ids| ==> ids[i] in byId)
    && (forall i :: 0 <= i < |ids| && LastOfId(ids, i) ==> byId[ids[i]] == nodes[i])
  }

  ghost predicate LastOfId(ids: seq<int>, i: nat)
    requires i < |ids|
  {
    forall j :: i < j < |ids| ==> ids[j] != ids[i]
  }

  /** Each node has one ID (a node listed twice has the same one). */
  ghost predicate Consistent(nodes: seq<Account>, ids: seq<int>) {
    |nodes| == |ids| && forall i, j :: 0 <= i < j < |nodes| && nodes[i] == nodes[j] ==> ids[i] == ids[j]
  }

  /** The node at i receives the children of its ID: it is the last one listed with this ID. */
  ghost predicate Holds(nodes: seq<Account>, ids: seq<int>, i: nat)
    requires |nodes| == |ids| && i < |nodes|
  {
    exists j :: i <= j < |nodes| && nodes[j] == nodes[i] && ids[j] == ids[i] && LastOfId(ids, j)
  }

  // ----- many to many -----

  ghost predicate Seen(rows: seq<JoinRow>, groupId: int) {
    exists r :: r in rows && r.group.id == groupId
  }

  ghost predicate Member(rows: seq<JoinRow>, accountId: int, groupId: int) {
    exists r :: r in rows && r.accountId == accountId && r.group.id == groupId
  }

  /** The groups of the rows, each once, in the order of their first row and as read from it. */
  ghost function FirstSeen(rows: seq<JoinRow>): seq<Group> {
    if rows == [] then []
    else
      var n := |rows| - 1;
      FirstSeen(rows[..n]) + if Seen(rows[..n], rows[n].group.id) then [] else [rows[n].group]
  }

  /** The groups an account has a row with, in first-seen order. */
  ghost function GroupsOf(groups: seq<Group>, rows: seq<JoinRow>, accountId: int): seq<Group> {
    if groups == [] then []
    else
      var n := |groups| - 1;
      GroupsOf(groups[..n], rows, accountId) + if Member(rows, accountId, groups[n].id) then [groups[n]] else []
  }

  ghost function Joined(rows: seq<JoinRow>, accountId: int): seq<Group> {
    GroupsOf(FirstSeen(rows), rows, accountId)
  }

  // ----- loaders -----

  /** The opening loop of the loaders keyed by ID. */
  method IndexById(nodes: seq<Account>) returns (ids: seq<int>, byId: map<int, Account>)
    ensures ids == IdsOf(nodes)
    ensures ById(nodes, ids, byId) && Consistent(nodes, ids)
  {
    hide ById, IdsOf;
    ids, byId := [], map[];
    NothingIndexed();
    for i := 0 to |nodes|
      invariant ids == IdsOf(nodes)[..i]
      invariant ById(nodes[..i], ids, byId)
    {
      assert nodes[..i + 1] == nodes[..i] + [nodes[i]];
      IndexSnoc(nodes[..i], ids, byId, nodes[i], nodes[i].cols.id);
      ids := ids + [nodes[i].cols.id];
      byId := byId[nodes[i].cols.id := nodes[i]];
    }
    assert nodes[..|nodes|] == nodes;
  }

  lemma NothingIndexed()
    ensures ById([], [], map[])
  {
  }

  lemma IndexSnoc(nodes: seq<Account>, ids: seq<int>, byId: map<int, Account>, n: Account, id: int)
    requires |nodes| == |ids| && ById(nodes, ids, byId)
    ensures ById(nodes + [n], ids + [id], byId[id := n])
  {
    var ids' := ids + [id];
    forall i | 0 <= i < |ids| && LastOfId(ids', i) ensures ids[i] != id && LastOfId(ids, i) {
      assert ids'[|ids|] == id && forall j :: 0 <= j < |ids| ==> ids[j] == ids'[j];
    }
  }

  lemma {:induction false} LastWith(ids: seq<int>, i: nat, k: nat) returns (j: nat)
    requires i < k <= |ids|
    ensures i <= j < k && ids[j] == ids[i] && forall p :: j < p < k ==> ids[p] != ids[i]
  {
    if ids[k - 1] == ids[i] {
      j := k - 1;
    } else {
      j := LastWith(ids, i, k - 1);
    }
  }

  /** The index sends an ID to a node exactly when that node holds the ID. */
  lemma HolderExactly(nodes: seq<Account>, ids: seq<int>, byId: map<int, Account>, i: nat)
    requires Consistent(nodes, ids) && ById(nodes, ids, byId) && i < |nodes|
    ensures byId[ids[i]] == nodes[i] <==> Holds(nodes, ids, i)
    ensures byId[ids[i]] in nodes
  {
    var j := LastWith(ids, i, |ids|);
    assert LastOfId(ids, j) && byId[ids[i]] == nodes[j];
    if Holds(nodes, ids, i) {
      var p :| i <= p < |nodes| && nodes[p] == nodes[i] && ids[p] == ids[i] && LastOfId(ids, p);
      assert p == j;
    }
  }

  // ----- loadGroups -----

  function At(byId: map<int, Account>, id: int): Account? {
    if id in byId then byId[id] else null
  }

  /** For each group seen, the nodes its rows point to; null stands for a key that no node has. */
  ghost predicate NodesByGroup(byId: map<int, Account>, rows: seq<JoinRow>, nids: map<int, set<Account?>>) {
    && (forall g :: g in nids ==> Seen(rows, g))
    && (forall r :: r in rows ==> r.group.id in nids && At(byId, r.accountId) in nids[r.group.id])
    && (forall g, a :: g in nids && a in nids[g] ==> exists r :: r in rows && r.group.id == g && At(byId, r.accountId) == a)
  }

  /** The rewritten Assign, row by row: the account key is the first value and the group's ID the second; a
      row whose group is new yields the group, from the columns and values after the first, and every row
      is recorded. */
  method CollectRows(byId: map<int, Account>, columns: GroupColumns, rows: seq<DbRow>)
    returns (neighbors: seq<Group>, nids: map<int, set<Account?>>)
    ensures neighbors == FirstSeen(JoinRows(columns, rows))
    ensures NodesByGroup(byId, JoinRows(columns, rows), nids)
  {
    hide Seen, At, FirstSeen, NodesByGroup, ReadGroup, Cells;
    neighbors, nids := [], map[];
    NothingCollected(byId);
    ghost var js := JoinRows(columns, rows);
    for i := 0 to |rows|
      invariant neighbors == FirstSeen(js[..i])
      invariant NodesByGroup(byId, js[..i], nids)
    {
      assert js[..i + 1] == js[..i] + [js[i]];
      var values := ScanRow(columns, rows[i]);
      assert values[1] == values[1..][0];
      var outValue, inValue := values[0].i.GetOr(0), values[1].i.GetOr(0);
      ReadGroupId(columns, values[1..]);
      FirstSeenSnoc(js[..i], js[i]);
      RowRecorded(byId, js[..i], js[i], nids);
      var node := At(byId, outValue);
      if inValue !in nids {
        assert {} + {node} == {node};
        nids := nids[inValue := {node}];
        neighbors := neighbors + [ReadGroup(columns, values[1..])];
      } else {
        nids := nids[inValue := nids[inValue] + {node}];
      }
    }
    assert js[..|rows|] == js;
  }

  lemma NothingCollected(byId: map<int, Account>)
    ensures FirstSeen([]) == [] && NodesByGroup(byId, [], map[])
  {
  }

  lemma FirstSeenSnoc(pre: seq<JoinRow>, r: JoinRow)
    ensures FirstSeen(pre + [r]) == FirstSeen(pre) + if Seen(pre, r.group.id) then [] else [r.group]
  {
    assert (pre + [r])[..|pre|] == pre;
  }

  lemma RowRecorded(byId: map<int, Account>, pre: seq<JoinRow>, r: JoinRow, nids: map<int, set<Account?>>)
    requires NodesByGroup(byId, pre, nids)
    ensures r.group.id in nids <==> Seen(pre, r.group.id)
    ensures var g := r.group.id;
            NodesByGroup(byId, pre + [r], nids[g := (if g in nids then nids[g] else {}) + {At(byId, r.accountId)}])
  {
    hide At;
    var g, all := r.group.id, pre + [r];
    var nids' := nids[g := (if g in nids then nids[g] else {}) + {At(byId, r.accountId)}];
    assert r in all && forall q :: q in pre ==> q in all;
    forall h | h in nids' ensures Seen(all, h) {
      if h != g {
        assert Seen(pre, h);
      }
    }
    forall h, a | h in nids' && a in nids'[h]
      ensures exists q :: q in all && q.group.id == h && At(byId, q.accountId) == a
    {
      if h in nids && a in nids[h] {
        var q :| q in pre && q.group.id == h && At(byId, q.accountId) == a;
        assert q in all;
      } else {
        assert r in all && r.group.id == h && At(byId, r.accountId) == a;
      }
    }
  }

  /** The groups among these that the recorded rows give to node n. */
  ghost function Given(groups: seq<Group>, nids: map<int, set<Account?>>, n: Account): seq<Group> {
    if groups == [] then []
    else
      var k := |groups| - 1;
      Given(groups[..k], nids, n) + if groups[k].id in nids && n in nids[groups[k].id] then [groups[k]] else []
  }

  /** One neighbour goes to every node of its set, in whatever order the set is walked. */
  method AssignGroup(nodes: seq<Account>, group: Group, targets: set<Account?>) returns (err: Option<LoadError>)
    requires forall a :: a in targets && a != null ==> a in nodes
    modifies nodes
    ensures err == if null in targets then Some(NilDereference) else None
    ensures forall n :: n in nodes ==> n.cols == old(n.cols) && n.selectValues == old(n.selectValues)
    ensures forall n :: n in nodes ==> n.edges == old(n.edges).(groups := n.edges.groups)
    ensures err.None? ==> forall n :: n in nodes ==>
                            n.edges.groups == old(n.edges.groups) + if n in targets then [group] else []
  {
    var rest := targets;
    while rest != {}
      invariant rest <= targets && (null in targets ==> null in rest)
      invariant forall n :: n in nodes ==> n.cols == old(n.cols) && n.selectValues == old(n.selectValues)
      invariant forall n :: n in nodes ==> n.edges == old(n.edges).(groups := n.edges.groups)
      invariant forall n :: n in nodes ==>
                  n.edges.groups == old(n.edges.groups) + if n in targets && n !in rest then [group] else []
      decreases rest
    {
      var kn :| kn in rest;
      if kn == null {
        return Some(NilDereference);
      }
      kn.edges := kn.edges.(groups := kn.edges.groups + [group]);
      rest := rest - {kn};
    }
    return None;
  }

  /** Emptying the edge before it is filled. */
  method InitGroups(nodes: seq<Account>)
    modifies nodes
    ensures forall n :: n in nodes ==> n.cols == old(n.cols) && n.selectValues == old(n.selectValues)
    ensures forall n :: n in nodes ==> n.edges == old(n.edges).(groups := [])
  {
    for i := 0 to |nodes|
      invariant forall n :: n in nodes ==> n.cols == old(n.cols) && n.selectValues == old(n.selectValues)
      invariant forall n :: n in nodes ==> n.edges == old(n.edges) || n.edges == old(n.edges).(groups := [])
      invariant forall j :: 0 <= j < i ==> nodes[j].edges.groups == []
    {
      nodes[i].edges := nodes[i].edges.(groups := []);
    }
  }

  /** The closing loop: the neighbours in order, each to its recorded nodes. */
  method DistributeGroups(nodes: seq<Account>, neighbors: seq<Group>, nids: map<int, set<Account?>>) returns (err: Option<LoadError>)
    requires forall g, a :: g in nids && a in nids[g] && a != null ==> a in nodes
    requires forall n :: n in nodes ==> n.edges.groups == []
    modifies nodes
    ensures forall n :: n in nodes ==> n.cols == old(n.cols) && n.selectValues == old(n.selectValues)
    ensures forall n :: n in nodes ==> n.edges == old(n.edges).(groups := n.edges.groups)
    ensures (forall i :: 0 <= i < |neighbors| ==> neighbors[i].id in nids) ==>
              err == if exists i :: 0 <= i < |neighbors| && null in nids[neighbors[i].id] then Some(NilDereference) else None
    ensures err.None? ==> forall n :: n in nodes ==> n.edges.groups == Given(neighbors, nids, n)
  {
    for i := 0 to |neighbors|
      invariant forall n :: n in nodes ==> n.cols == old(n.cols) && n.selectValues == old(n.selectValues)
      invariant forall n :: n in nodes ==> n.edges == old(n.edges).(groups := n.edges.groups)
      invariant forall n :: n in nodes ==> n.edges.groups == Given(neighbors[..i], nids, n)
      invariant forall j :: 0 <= j < i ==> neighbors[j].id in nids && null !in nids[neighbors[j].id]
    {
      assert neighbors[..i + 1][..i] == neighbors[..i];
      var g := neighbors[i];
      if g.id !in nids {
        return Some(UnexpectedNode(g.id));
      }
      err := AssignGroup(nodes, g, nids[g.id]);
      if err.Some? {
        return;
      }
    }
    assert neighbors[..|neighbors|] == neighbors;
    return None;
  }

  /** loadGroups. It succeeds exactly when every row belongs to one of the accounts; then each account
      that is the last with its ID receives exactly the groups it has a row with, each once, in the
      order in which the groups first appear among all rows, and any other account receives none. */
  method LoadGroups(nodes: seq<Account>, query: GroupQuery) returns (err: Option<LoadError>)
    modifies nodes
    ensures forall n :: n in nodes ==> n.cols == old(n.cols) && n.selectValues == old(n.selectValues)
    ensures forall n :: n in nodes ==> n.edges == old(n.edges).(groups := n.edges.groups)
    ensures var ids := old(IdsOf(nodes));
            match JoinQuery(query)(ids)
            case Err(e) => err == Some(e)
            case Ok(rows) =>
              && err == (if forall r :: r in rows ==> r.accountId in ids then None else Some(NilDereference))
              && (err.None? ==> forall i :: 0 <= i < |nodes| ==>
                                  nodes[i].edges.groups == if Holds(nodes, ids, i) then Joined(rows, ids[i]) else [])
  {
    hide FirstSeen, GroupsOf, NodesByGroup, ById, Consistent, Holds, Given, IdsOf, JoinRows;
    var ids, byId := IndexById(nodes);
    InitGroups(nodes);
    var answer := query.rows(ids);
    if answer.Err? {
      return Some(answer.error);
    }
    var neighbors, nids := CollectRows(byId, query.columns, answer.value);
    ghost var rows := JoinRows(query.columns, answer.value);
    RecordedTargets(nodes, ids, byId, rows, nids);
    err := DistributeGroups(nodes, neighbors, nids);
    forall i | 0 <= i < |nodes|
      ensures Given(neighbors, nids, nodes[i]) == if Holds(nodes, ids, i) then Joined(rows, ids[i]) else []
    {
      GivenIsJoined(nodes, ids, byId, rows, nids, neighbors, i);
    }
  }

  /** What the recorded sets say: every neighbour is there, every target is one of the nodes, and
      null is among the targets exactly when some row belongs to no node. */
  lemma RecordedTargets(nodes: seq<Account>, ids: seq<int>, byId: map<int, Account>, rows: seq<JoinRow>, nids: map<int, set<Account?>>)
    requires Consistent(nodes, ids) && ById(nodes, ids, byId) && NodesByGroup(byId, rows, nids)
    ensures forall g, a :: g in nids && a in nids[g] && a != null ==> a in nodes
    ensures forall i :: 0 <= i < |FirstSeen(rows)| ==> FirstSeen(rows)[i].id in nids
    ensures (exists i :: 0 <= i < |FirstSeen(rows)| && null in nids[FirstSeen(rows)[i].id])
            <==> !(forall r :: r in rows ==> r.accountId in ids)
  {
    hide FirstSeen;
    forall k | k in byId ensures byId[k] in nodes {
      var i :| 0 <= i < |ids| && ids[i] == k;
      hide ById;
      HolderExactly(nodes, ids, byId, i);
    }
    forall i | 0 <= i < |FirstSeen(rows)| ensures FirstSeen(rows)[i].id in nids {
      FirstSeenIsSeen(rows, FirstSeen(rows)[i]);
    }
    if r :| r in rows && r.accountId !in ids {
      var i := SeenIsFirstSeen(rows, r);
      assert At(byId, r.accountId) == null;
    }
  }

  lemma {:induction false} FirstSeenIsSeen(rows: seq<JoinRow>, g: Group)
    requires g in FirstSeen(rows)
    ensures Seen(rows, g.id)
  {
    var n := |rows| - 1;
    if g in FirstSeen(rows[..n]) {
      FirstSeenIsSeen(rows[..n], g);
      var r :| r in rows[..n] && r.group.id == g.id;
      assert r in rows;
    } else {
      assert rows[n] in rows;
    }
  }

  lemma {:induction false} SeenIsFirstSeen(rows: seq<JoinRow>, r: JoinRow) returns (i: nat)
    requires r in rows
    ensures i < |FirstSeen(rows)| && FirstSeen(rows)[i].id == r.group.id
  {
    var n := |rows| - 1;
    if q :| q in rows[..n] && q.group.id == r.group.id {
      i := SeenIsFirstSeen(rows[..n], q);
    } else {
      assert rows == rows[..n] + [rows[n]];
      assert !Seen(rows[..n], r.group.id);
      i := |FirstSeen(rows[..n])|;
    }
  }

  lemma IndexSends(nodes: seq<Account>, ids: seq<int>, byId: map<int, Account>, key: int, i: nat)
    requires Consistent(nodes, ids) && ById(nodes, ids, byId) && i < |nodes|
    ensures At(byId, key) == nodes[i] <==> key == ids[i] && Holds(nodes, ids, i)
  {
    HolderExactly(nodes, ids, byId, i);
    hide Holds;
    if At(byId, key) == nodes[i] {
      var k :| 0 <= k < |ids| && ids[k] == key;
      var j := LastWith(ids, k, |ids|);
      assert LastOfId(ids, j) && byId[ids[j]] == nodes[j] == nodes[i];
      assert ids[i] == ids[j];
    }
  }

  /** A node is among the targets of a group exactly when it holds its ID and has a row with it. */
  lemma TargetExactly(nodes: seq<Account>, ids: seq<int>, byId: map<int, Account>, rows: seq<JoinRow>, nids: map<int, set<Account?>>, g: int, i: nat)
    requires Consistent(nodes, ids) && ById(nodes, ids, byId) && NodesByGroup(byId, rows, nids) && i < |nodes|
    ensures g in nids && nodes[i] in nids[g] <==> Holds(nodes, ids, i) && Member(rows, ids[i], g)
  {
    hide ById, Holds, At;
    forall key: int ensures At(byId, key) == nodes[i] <==> key == ids[i] && Holds(nodes, ids, i) {
      IndexSends(nodes, ids, byId, key, i);
    }
    if g in nids && nodes[i] in nids[g] {
      var r :| r in rows && r.group.id == g && At(byId, r.accountId) == nodes[i];
    }
    if Holds(nodes, ids, i) && Member(rows, ids[i], g) {
      var r :| r in rows && r.accountId == ids[i] && r.group.id == g;
      assert At(byId, r.accountId) == nodes[i];
    }
  }

  lemma {:induction false} GivenIsJoined(nodes: seq<Account>, ids: seq<int>, byId: map<int, Account>, rows: seq<JoinRow>, nids: map<int, set<Account?>>, groups: seq<Group>, i: nat)
    requires Consistent(nodes, ids) && ById(nodes, ids, byId) && NodesByGroup(byId, rows, nids) && i < |nodes|
    ensures Given(groups, nids, nodes[i]) == if Holds(nodes, ids, i) then GroupsOf(groups, rows, ids[i]) else []
  {
    hide Consistent, ById, NodesByGroup, Holds, Member;
    if groups != [] {
      var k := |groups| - 1;
      GivenIsJoined(nodes, ids, byId, rows, nids, groups[..k], i);
      TargetExactly(nodes, ids, byId, rows, nids, groups[k].id, i);
    }
  }

  // ----- what Joined is -----

  ghost predicate DistinctIds(groups: seq<Group>) {
    forall i, j :: 0 <= i < j < |groups| ==> groups[i].id != groups[j].id
  }

  lemma {:induction false} FirstSeenDistinct(rows: seq<JoinRow>)
    ensures DistinctIds(FirstSeen(rows))
  {
    if rows != [] {
      var n := |rows| - 1;
      FirstSeenDistinct(rows[..n]);
      forall g | g in FirstSeen(rows[..n]) ensures Seen(rows[..n], g.id) {
        FirstSeenIsSeen(rows[..n], g);
      }
    }
  }

  lemma {:induction false} GroupsOfExactly(groups: seq<Group>, rows: seq<JoinRow>, accountId: int, g: Group)
    ensures g in GroupsOf(groups, rows, accountId) <==> g in groups && Member(rows, accountId, g.id)
  {
    if groups != [] {
      var n := |groups| - 1;
      assert groups == groups[..n] + [groups[n]];
      GroupsOfExactly(groups[..n], rows, accountId, g);
    }
  }

  lemma {:induction false} GroupsOfDistinct(groups: seq<Group>, rows: seq<JoinRow>, accountId: int)
    requires DistinctIds(groups)
    ensures DistinctIds(GroupsOf(groups, rows, accountId))
  {
    if groups != [] {
      var n := |groups| - 1;
      GroupsOfDistinct(groups[..n], rows, accountId);
      forall g | g in GroupsOf(groups[..n], rows, accountId) ensures g.id != groups[n].id {
        GroupsOfExactly(groups[..n], rows, accountId, g);
        var i :| 0 <= i < n && groups[..n][i] == g;
        assert groups[i] == g;
      }
    }
  }

  /** The loaded list is the nested-loop join without repetition: no group ID occurs twice, and a
      group ID occurs exactly when the account has a row with it. */
  lemma JoinedIsTheJoin(rows: seq<JoinRow>, accountId: int, groupId: int)
    ensures DistinctIds(Joined(rows, accountId))
    ensures (exists g :: g in Joined(rows, accountId) && g.id == groupId) <==> Member(rows, accountId, groupId)
  {
    hide FirstSeen, GroupsOf;
    FirstSeenDistinct(rows);
    GroupsOfDistinct(FirstSeen(rows), rows, accountId);
    if Member(rows, accountId, groupId) {
      var r :| r in rows && r.accountId == accountId && r.group.id == groupId;
      var i := SeenIsFirstSeen(rows, r);
      GroupsOfExactly(FirstSeen(rows), rows, accountId, FirstSeen(rows)[i]);
    }
    if g :| g in Joined(rows, accountId) && g.id == groupId {
      GroupsOfExactly(FirstSeen(rows), rows, accountId, g);
    }
  }

  /** The position of the first row with a group. */
  ghost predicate FirstRow(rows: seq<JoinRow>, groupId: int, k: int) {
    0 <= k < |rows| && rows[k].group.id == groupId && forall i :: 0 <= i < k ==> rows[i].group.id != groupId
  }

  /** The group is as it was read from its first row. */
  ghost predicate FromFirstRow(rows: seq<JoinRow>, g: Group) {
    exists k :: FirstRow(rows, g.id, k) && rows[k].group == g
  }

  /** The first row of one group comes before that of another. */
  ghost predicate Before(rows: seq<JoinRow>, one: int, other: int) {
    forall k, l :: FirstRow(rows, one, k) && FirstRow(rows, other, l) ==> k < l
  }

  /** Groups come in the order of their first rows, each as it was read from that row. */
  ghost predicate InFirstRowOrder(groups: seq<Group>, rows: seq<JoinRow>) {
    && (forall i :: 0 <= i < |groups| ==> FromFirstRow(rows, groups[i]))
    && (forall i, j :: 0 <= i < j < |groups| ==> Before(rows, groups[i].id, groups[j].id))
  }

  /** One more row leaves the first rows of the groups seen before. */
  lemma FirstRowKept(rows: seq<JoinRow>, r: JoinRow, groupId: int, k: int)
    ensures Seen(rows, groupId) ==> (FirstRow(rows + [r], groupId, k) <==> FirstRow(rows, groupId, k))
    ensures !Seen(rows, groupId) ==> (FirstRow(rows + [r], groupId, k) <==> k == |rows| && r.group.id == groupId)
  {
    var all := rows + [r];
    assert forall i :: 0 <= i < |rows| ==> all[i] == rows[i] && rows[i] in rows;
    if Seen(rows, groupId) {
      var q :| q in rows && q.group.id == groupId;
      var i :| 0 <= i < |rows| && rows[i] == q;
      assert all[i].group.id == groupId;
    }
  }

  lemma SeenKeepsOrder(rows: seq<JoinRow>, r: JoinRow, g: Group)
    requires Seen(rows, g.id) && FromFirstRow(rows, g)
    ensures FromFirstRow(rows + [r], g)
    ensures forall h :: Seen(rows, h) && Before(rows, g.id, h) ==> Before(rows + [r], g.id, h)
    ensures !Seen(rows, r.group.id) ==> Before(rows + [r], g.id, r.group.id)
  {
    forall h, k ensures Seen(rows, h) ==> (FirstRow(rows + [r], h, k) <==> FirstRow(rows, h, k))
                ensures !Seen(rows, h) ==> (FirstRow(rows + [r], h, k) <==> k == |rows| && r.group.id == h)
    {
      FirstRowKept(rows, r, h, k);
    }
    hide Seen;
    var k :| FirstRow(rows, g.id, k) && rows[k].group == g;
    assert FirstRow(rows + [r], g.id, k) && (rows + [r])[k] == rows[k];
  }

  lemma NewGroup(rows: seq<JoinRow>, r: JoinRow)
    requires !Seen(rows, r.group.id)
    ensures FromFirstRow(rows + [r], r.group)
  {
    FirstRowKept(rows, r, r.group.id, |rows|);
    assert (rows + [r])[|rows|] == r;
  }

  lemma {:induction false} FirstSeenInOrder(rows: seq<JoinRow>)
    ensures InFirstRowOrder(FirstSeen(rows), rows)
  {
    if rows != [] {
      var n := |rows| - 1;
      var pre, r := rows[..n], rows[n];
      assert rows == pre + [r];
      FirstSeenInOrder(pre);
      var before := FirstSeen(pre);
      forall i | 0 <= i < |before| ensures Seen(pre, before[i].id) {
        FirstSeenIsSeen(pre, before[i]);
      }
      OneMoreInOrder(before, pre, r);
    }
  }

  lemma OneMoreInOrder(before: seq<Group>, pre: seq<JoinRow>, r: JoinRow)
    requires InFirstRowOrder(before, pre) && forall i :: 0 <= i < |before| ==> Seen(pre, before[i].id)
    ensures InFirstRowOrder(before + if Seen(pre, r.group.id) then [] else [r.group], pre + [r])
  {
    hide Seen, Before, FromFirstRow;
    forall i | 0 <= i < |before|
      ensures FromFirstRow(pre + [r], before[i])
      ensures forall h :: Seen(pre, h) && Before(pre, before[i].id, h) ==> Before(pre + [r], before[i].id, h)
      ensures !Seen(pre, r.group.id) ==> Before(pre + [r], before[i].id, r.group.id)
    {
      SeenKeepsOrder(pre, r, before[i]);
    }
    if !Seen(pre, r.group.id) {
      NewGroup(pre, r);
    }
  }

  lemma {:induction false} GroupsOfInOrder(groups: seq<Group>, rows: seq<JoinRow>, accountId: int)
    requires InFirstRowOrder(groups, rows)
    ensures InFirstRowOrder(GroupsOf(groups, rows, accountId), rows)
  {
    hide Member, Before, FromFirstRow;
    if groups != [] {
      var n := |groups| - 1;
      var before := GroupsOf(groups[..n], rows, accountId);
      GroupsOfInOrder(groups[..n], rows, accountId);
      forall i | 0 <= i < |before| ensures Before(rows, before[i].id, groups[n].id) {
        GroupsOfExactly(groups[..n], rows, accountId, before[i]);
        var k :| 0 <= k < n && groups[..n][k] == before[i];
        assert groups[k] == before[i];
      }
    }
  }

  /** The loaded list is in global first-appearance order, each group as read from its first row. */
  lemma JoinedInOrder(rows: seq<JoinRow>, accountId: int)
    ensures InFirstRowOrder(Joined(rows, accountId), rows)
  {
    hide InFirstRowOrder;
    FirstSeenInOrder(rows);
    GroupsOfInOrder(FirstSeen(rows), rows, accountId);
  }

  /** So the set of group IDs an account ends with does not depend on the order or repetition of rows. */
  lemma JoinIgnoresOrder(a: seq<JoinRow>, b: seq<JoinRow>, accountId: int, groupId: int)
    requires forall r :: r in a <==> r in b
    ensures (exists g :: g in Joined(a, accountId) && g.id == groupId) <==> (exists g :: g in Joined(b, accountId) && g.id == groupId)
  {
    hide Joined;
    JoinedIsTheJoin(a, accountId, groupId);
    JoinedIsTheJoin(b, accountId, groupId);
    assert Member(a, accountId, groupId) <==> Member(b, accountId, groupId);
  }
}
