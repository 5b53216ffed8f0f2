/** Running an account query: prepareQuery, the columns of querySpec, and sqlAll of
    backend/ent/account_query.go, from the selected rows to nodes with their requested edges. */
module QueryRun {
  import opened Wrappers
  import opened AccountEntity
  import opened EagerLoad
  import opened ManyToOne
  import opened OneToMany

  const PROXY_KEY: Column := OptIntColumn(FieldProxyID)

  /** account.Columns, in four groups after the ID. */
  const COLUMNS_A: seq<Column> := [
    TimeColumn(FieldCreatedAt), TimeColumn(FieldUpdatedAt), OptTimeColumn(FieldDeletedAt), TextColumn(FieldName),
    OptTextColumn(FieldNotes), TextColumn(FieldPlatform), TextColumn(FieldType)]
  const COLUMNS_B: seq<Column> := [
    JsonColumn(FieldCredentials), JsonColumn(FieldExtra), OptIntColumn(FieldProxyID), IntColumn(FieldConcurrency),
    OptIntColumn(FieldLoadFactor), IntColumn(FieldPriority), FieldRateMultiplier]
  const COLUMNS_C: seq<Column> := [
    TextColumn(FieldStatus), OptTextColumn(FieldErrorMessage), OptTimeColumn(FieldLastUsedAt), OptTimeColumn(FieldExpiresAt),
    BoolColumn(FieldAutoPauseOnExpired), BoolColumn(FieldSchedulable), OptTimeColumn(FieldRateLimitedAt)]
  const COLUMNS_D: seq<Column> := [
    OptTimeColumn(FieldRateLimitResetAt), OptTimeColumn(FieldOverloadUntil), OptTimeColumn(FieldTempUnschedulableUntil),
    OptTextColumn(FieldTempUnschedulableReason), OptTimeColumn(FieldSessionWindowStart), OptTimeColumn(FieldSessionWindowEnd),
    OptTextColumn(FieldSessionWindowStatus)]
  const ALL_COLUMNS: seq<Column> := [FieldID] + (COLUMNS_A + COLUMNS_B + COLUMNS_C + COLUMNS_D)

  /** The selected fields and the requested edges, each edge with the query that loads it. */
  datatype AccountQuery = AccountQuery(
    fields: seq<Column>,
    withGroups: Option<GroupQuery>, withProxy: Option<Query<Proxy>>,
    withUsageLogs: Option<Query<UsageLog>>, withAccountGroups: Option<Query<AccountGroup>>)

  datatype QueryError = InvalidField(c: Column) | RootFailed(tag: string) | EdgeFailed(load: LoadError)

  /** The field check of prepareQuery. */
  method PrepareQuery(fields: seq<Column>) returns (err: Option<QueryError>)
    ensures err.None? <==> forall c :: c in fields ==> !c.Unknown?
    ensures err.Some? ==> exists i :: 0 <= i < |fields| && fields[i].Unknown? && err == Some(InvalidField(fields[i]))
                                      && forall j :: 0 <= j < i ==> !fields[j].Unknown?
  {
    for i := 0 to |fields|
      invariant forall j :: 0 <= j < i ==> !fields[j].Unknown?
    {
      if fields[i].Unknown? {
        return Some(InvalidField(fields[i]));
      }
    }
    return None;
  }

  lemma AllColumnsShape()
    ensures |ALL_COLUMNS| == 29 && ALL_COLUMNS[0] == FieldID && FieldID !in ALL_COLUMNS[1..] && PROXY_KEY in ALL_COLUMNS
  {
    assert FieldID !in COLUMNS_A && FieldID !in COLUMNS_B && FieldID !in COLUMNS_C && FieldID !in COLUMNS_D;
    assert COLUMNS_B[2] == PROXY_KEY;
    assert |COLUMNS_A| == |COLUMNS_B| == |COLUMNS_C| == |COLUMNS_D| == 7;
    hide COLUMNS_A, COLUMNS_B, COLUMNS_C, COLUMNS_D;
    assert ALL_COLUMNS[1..] == COLUMNS_A + COLUMNS_B + COLUMNS_C + COLUMNS_D;
  }

  /** No selection reads every field of the entity. */
  lemma AllColumnsComplete(c: Column)
    requires !c.Unknown?
    ensures c in ALL_COLUMNS
  {
    InSomePart(c);
    hide COLUMNS_A, COLUMNS_B, COLUMNS_C, COLUMNS_D;
  }

  lemma InSomePart(c: Column)
    requires !c.Unknown?
    ensures c == FieldID || c in COLUMNS_A || c in COLUMNS_B || c in COLUMNS_C || c in COLUMNS_D
  {
    match c {
      case FieldID =>
      case FieldRateMultiplier => assert COLUMNS_B[6] == c;
      case TimeColumn(t) => assert c == COLUMNS_A[if t.FieldCreatedAt? then 0 else 1];
      case OptTimeColumn(FieldDeletedAt) => assert c == COLUMNS_A[2];
      case OptTimeColumn(FieldLastUsedAt) => assert c == COLUMNS_C[2];
      case OptTimeColumn(FieldExpiresAt) => assert c == COLUMNS_C[3];
      case OptTimeColumn(FieldRateLimitedAt) => assert c == COLUMNS_C[6];
      case OptTimeColumn(FieldRateLimitResetAt) => assert c == COLUMNS_D[0];
      case OptTimeColumn(FieldOverloadUntil) => assert c == COLUMNS_D[1];
      case OptTimeColumn(FieldTempUnschedulableUntil) => assert c == COLUMNS_D[2];
      case OptTimeColumn(FieldSessionWindowStart) => assert c == COLUMNS_D[4];
      case OptTimeColumn(FieldSessionWindowEnd) => assert c == COLUMNS_D[5];
      case TextColumn(FieldName) => assert c == COLUMNS_A[3];
      case TextColumn(FieldPlatform) => assert c == COLUMNS_A[5];
      case TextColumn(FieldType) => assert c == COLUMNS_A[6];
      case TextColumn(FieldStatus) => assert c == COLUMNS_C[0];
      case OptTextColumn(FieldNotes) => assert c == COLUMNS_A[4];
      case OptTextColumn(FieldErrorMessage) => assert c == COLUMNS_C[1];
      case OptTextColumn(FieldTempUnschedulableReason) => assert c == COLUMNS_D[3];
      case OptTextColumn(FieldSessionWindowStatus) => assert c == COLUMNS_D[6];
      case JsonColumn(j) => assert c == COLUMNS_B[if j.FieldCredentials? then 0 else 1];
      case IntColumn(i) => assert c == COLUMNS_B[if i.FieldConcurrency? then 3 else 5];
      case OptIntColumn(i) => assert c == COLUMNS_B[if i.FieldProxyID? then 2 else 4];
      case BoolColumn(b) => assert c == COLUMNS_C[if b.FieldAutoPauseOnExpired? then 4 else 5];
    }
  }

  /** The listed columns other than the ID, in order and as often as they are listed. */
  function NotID(fields: seq<Column>): (columns: seq<Column>)
    ensures FieldID !in columns
    ensures forall c :: c in columns <==> c in fields && c != FieldID
  {
    if fields == [] then []
    else
      var n := |fields| - 1;
      assert fields == fields[..n] + [fields[n]];
      if fields[n] == FieldID then NotID(fields[..n]) else NotID(fields[..n]) + [fields[n]]
  }

  /** The columns of querySpec: the ID first and only once, then the selected fields in order, then the
      proxy key if the proxy edge was requested and it is not there yet. No selection reads every field. */
  method QueryColumns(fields: seq<Column>, withProxy: bool) returns (columns: seq<Column>)
    ensures columns != [] && columns[0] == FieldID && FieldID !in columns[1..]
    ensures fields == [] ==> columns == ALL_COLUMNS && forall c: Column :: !c.Unknown? ==> c in columns
    ensures fields != [] ==> columns == [FieldID] + NotID(fields) + if withProxy && PROXY_KEY !in fields then [PROXY_KEY] else []
    ensures withProxy ==> PROXY_KEY in columns
  {
    AllColumnsShape();
    hide ALL_COLUMNS;
    forall c: Column | !c.Unknown? ensures c in ALL_COLUMNS {
      AllColumnsComplete(c);
    }
    if |fields| == 0 {
      return ALL_COLUMNS;
    }
    columns := [FieldID];
    for i := 0 to |fields|
      invariant columns == [FieldID] + NotID(fields[..i])
    {
      assert fields[..i + 1][..i] == fields[..i];
      if fields[i] != FieldID {
        columns := columns + [fields[i]];
      }
    }
    assert fields[..|fields|] == fields;
    assert columns[1..] == NotID(fields);
    if withProxy && PROXY_KEY !in columns {
      assert (columns + [PROXY_KEY])[1..] == NotID(fields) + [PROXY_KEY];
      columns := columns + [PROXY_KEY];
    }
  }

  // ----- rows to nodes -----

  /** What the driver scans for column c of a stored account. */
  function RowContainer(codec: JsonCodec, row: AccountCols, c: Column): Container {
    match c
    case FieldID => NullInt64(Some(row.id))
    case FieldRateMultiplier => NullFloat64(Some(row.rateMultiplier))
    case TimeColumn(t) => NullTime(Some(row.times.Get(t)))
    case OptTimeColumn(t) => NullTime(row.optTimes.Get(t))
    case TextColumn(t) => NullString(Some(row.texts.Get(t)))
    case OptTextColumn(t) => NullString(row.optTexts.Get(t))
    case JsonColumn(j) => RawBytes(codec.marshal(row.jsons.Get(j)))
    case IntColumn(i) => NullInt64(Some(row.ints.Get(i)))
    case OptIntColumn(i) => NullInt64(row.optInts.Get(i))
    case BoolColumn(b) => NullBool(Some(row.bools.Get(b)))
    case Unknown(_) => UnknownType(None)
  }

  lemma RowContainerReads(codec: JsonCodec, row: AccountCols, c: Column)
    requires codec.Lossless() && !c.Unknown?
    ensures ReadsAs(codec, c, RowContainer(codec, row, c), Get(row, c))
  {
    if c.JsonColumn? {
      JsonReadsBack(codec, c.json, row.jsons.Get(c.json));
    } else {
      hide ReadsAs;
      ScalarReadsBack(codec, c, RowContainer(codec, row, c), Get(row, c));
    }
  }

  /** A node read from a row agrees with it on the columns that were read and is zero elsewhere. */
  ghost predicate ReadFrom(cols: AccountCols, row: AccountCols, columns: seq<Column>) {
    forall d: Column :: Get(cols, d) == if d in columns then Get(row, d) else Get(ZERO, d)
  }

  /** ScanValues, the driver's scan and the Assign callback of sqlAll for one row; assigning cannot fail. */
  method BuildNode(codec: JsonCodec, columns: seq<Column>, row: AccountCols, loaded: Loaded) returns (node: Account)
    requires codec.Lossless()
    ensures fresh(node) && ReadFrom(node.cols, row, columns) && node.edges == NO_EDGES.(loaded := loaded)
  {
    hide Get, ReadsAs, RowContainer, AbsorbAll, Acceptable;
    var values := ScanValues(columns);
    for i := 0 to |columns|
      invariant forall j :: 0 <= j < i ==> values[j] == RowContainer(codec, row, columns[j])
    {
      values[i] := RowContainer(codec, row, columns[i]);
    }
    node := new Account();
    node.edges := node.edges.(loaded := loaded);
    var scanned := values[..];
    forall i | 0 <= i < |columns| && !columns[i].Unknown? ensures ReadsAs(codec, columns[i], scanned[i], Get(row, columns[i])) {
      RowContainerReads(codec, row, columns[i]);
    }
    forall d: Column
      ensures forall i :: 0 <= i < |columns| ==> Acceptable(codec, columns[i], scanned[i])
      ensures AbsorbAll(codec, d, Get(ZERO, d), columns, scanned) == if d in columns then Get(row, d) else Get(ZERO, d)
    {
      RowReadsBack(codec, columns, scanned, row, d);
    }
    RowReadsBack(codec, columns, scanned, row, FieldID);
    var err := node.AssignValues(codec, columns, scanned);
    assert err.None?;
    assert columns[..|columns|] == columns && scanned[..|columns|] == scanned;
  }

  /** The nodes of the root query: one fresh node per row, in order. */
  method BuildNodes(codec: JsonCodec, columns: seq<Column>, table: seq<AccountCols>, loaded: Loaded) returns (nodes: seq<Account>)
    requires codec.Lossless()
    ensures |nodes| == |table|
    ensures fresh(nodes)
    ensures forall n :: n in nodes ==> n.edges == NO_EDGES.(loaded := loaded)
    ensures forall i, j :: 0 <= i < j < |nodes| ==> nodes[i] != nodes[j]
    ensures forall i :: 0 <= i < |nodes| ==> ReadFrom(nodes[i].cols, table[i], columns)
  {
    hide ReadFrom, JsonCodec.Lossless;
    nodes := [];
    for i := 0 to |table|
      invariant |nodes| == i
      invariant fresh(nodes)
      invariant forall n :: n in nodes ==> n.edges == NO_EDGES.(loaded := loaded)
      invariant forall p, q :: 0 <= p < q < i ==> nodes[p] != nodes[q]
      invariant forall p :: 0 <= p < i ==> ReadFrom(nodes[p].cols, table[p], columns)
    {
      var node := BuildNode(codec, columns, table[i], loaded);
      nodes := nodes + [node];
    }
  }

  // ----- the edges a run must produce, from the rows alone -----

  function TableIds(table: seq<AccountCols>): (ids: seq<int>)
    ensures |ids| == |table| && forall i :: 0 <= i < |table| ==> ids[i] == table[i].id
  {
    seq(|table|, i requires 0 <= i < |table| => table[i].id)
  }

  function TableKeys(table: seq<AccountCols>): (keys: seq<Option<int>>)
    ensures |keys| == |table| && forall i :: 0 <= i < |table| ==> keys[i] == table[i].optInts.proxyId
  {
    seq(|table|, i requires 0 <= i < |table| => table[i].optInts.proxyId)
  }

  /** The answer of an edge query is usable: no error, and only children of the accounts asked about. */
  ghost predicate Answers<R>(query: Option<Query<R>>, ids: seq<int>, fk: R -> int) {
    query.Some? ==> query.value(ids).Ok? && forall r :: r in query.value(ids).value ==> fk(r) in ids
  }

  const ROW_FK: JoinRow -> int := (r: JoinRow) => r.accountId

  /** The group query seen as a query for join rows. */
  function RowsOf(query: Option<GroupQuery>): Option<Query<JoinRow>> {
    if query.None? then None else Some(JoinQuery(query.value))
  }

  ghost function ExpectedGroups(query: Option<Query<JoinRow>>, ids: seq<int>, i: nat): seq<Group>
    requires i < |ids| && Answers(query, ids, ROW_FK)
  {
    if query.Some? && LastOfId(ids, i) then Joined(query.value(ids).value, ids[i]) else []
  }

  ghost function ExpectedChildren<T>(query: Option<Query<T>>, ids: seq<int>, fk: T -> int, i: nat): seq<T>
    requires i < |ids| && Answers(query, ids, fk)
  {
    if query.Some? && LastOfId(ids, i) then ChildrenOf(query.value(ids).value, fk, ids[i]) else []
  }

  ghost predicate ProxyAnswers(query: Option<Query<Proxy>>, keys: seq<Option<int>>) {
    var ids := DistinctKeys(keys);
    query.Some? && ids != [] ==> query.value(ids).Ok? && forall p :: p in query.value(ids).value ==> p.id in ids
  }

  ghost function ExpectedProxy(query: Option<Query<Proxy>>, keys: seq<Option<int>>, i: nat): Option<Proxy>
    requires i < |keys| && ProxyAnswers(query, keys)
  {
    var ids := DistinctKeys(keys);
    if query.Some? && ids != [] then Neighbour(query.value(ids).value, PROXY_ID, keys[i], None) else None
  }

  /** Every requested edge query answers, and only about what it was asked. */
  ghost predicate AllAnswer(q: AccountQuery, table: seq<AccountCols>) {
    var ids := TableIds(table);
    && Answers(RowsOf(q.withGroups), ids, ROW_FK) && ProxyAnswers(q.withProxy, TableKeys(table))
    && Answers(q.withUsageLogs, ids, LOG_FK) && Answers(q.withAccountGroups, ids, MEMBERSHIP_FK)
  }

  function LoadedOf(q: AccountQuery): Loaded {
    Loaded(q.withGroups.Some?, q.withProxy.Some?, q.withUsageLogs.Some?, q.withAccountGroups.Some?)
  }

  /** The edges of the i-th node. They depend on the rows and the edge queries, and on nothing else. */
  ghost function ExpectedEdges(q: AccountQuery, table: seq<AccountCols>, i: nat): AccountEdges
    requires i < |table| && AllAnswer(q, table)
  {
    var ids := TableIds(table);
    AccountEdges(ExpectedGroups(RowsOf(q.withGroups), ids, i), ExpectedProxy(q.withProxy, TableKeys(table), i),
                 ExpectedChildren(q.withUsageLogs, ids, LOG_FK, i), ExpectedChildren(q.withAccountGroups, ids, MEMBERSHIP_FK, i),
                 LoadedOf(q))
  }

  lemma HoldsAlone(nodes: seq<Account>, ids: seq<int>, i: nat)
    requires |nodes| == |ids| && i < |nodes| && forall p, q :: 0 <= p < q < |nodes| ==> nodes[p] != nodes[q]
    ensures Holds(nodes, ids, i) <==> LastOfId(ids, i)
  {
  }

  ghost predicate Separate(nodes: seq<Account>) {
    forall i, j :: 0 <= i < j < |nodes| ==> nodes[i] != nodes[j]
  }

  // ----- the four optional loads of sqlAll -----

  method MaybeGroups(nodes: seq<Account>, query: Option<GroupQuery>, ghost ids: seq<int>) returns (err: Option<LoadError>)
    requires ids == IdsOf(nodes) && Separate(nodes)
    requires forall n :: n in nodes ==> n.edges.groups == []
    modifies nodes
    ensures forall n :: n in nodes ==> n.cols == old(n.cols)
    ensures forall n :: n in nodes ==> n.edges == old(n.edges).(groups := n.edges.groups)
    ensures err.None? <==> Answers(RowsOf(query), ids, ROW_FK)
    ensures err.None? ==> forall i :: 0 <= i < |nodes| ==> nodes[i].edges.groups == ExpectedGroups(RowsOf(query), ids, i)
  {
    hide Holds, Joined, LastOfId, JoinQuery;
    if query.None? {
      return None;
    }
    err := LoadGroups(nodes, query.value);
    forall i | 0 <= i < |nodes| ensures Holds(nodes, ids, i) <==> LastOfId(ids, i) {
      HoldsAlone(nodes, ids, i);
    }
  }

  method MaybeProxy(nodes: seq<Account>, query: Option<Query<Proxy>>, ghost keys: seq<Option<int>>) returns (err: Option<LoadError>)
    requires |keys| == |nodes| && (query.Some? ==> keys == KeysOf(nodes))
    requires forall n :: n in nodes ==> n.edges.proxy.None?
    modifies nodes
    ensures forall n :: n in nodes ==> n.cols == old(n.cols)
    ensures err.None? <==> ProxyAnswers(query, keys)
    ensures err.None? ==> forall i :: 0 <= i < |nodes| ==> nodes[i].edges == old(nodes[i].edges).(proxy := ExpectedProxy(query, keys, i))
  {
    hide Neighbour, DistinctKeys;
    if query.None? {
      return None;
    }
    var _, e := LoadProxy(nodes, query.value);
    err := e;
  }

  method MaybeUsageLogs(nodes: seq<Account>, query: Option<Query<UsageLog>>, ghost ids: seq<int>) returns (err: Option<LoadError>)
    requires ids == IdsOf(nodes) && Separate(nodes)
    requires forall n :: n in nodes ==> n.edges.usageLogs == []
    modifies nodes
    ensures forall n :: n in nodes ==> n.cols == old(n.cols)
    ensures forall n :: n in nodes ==> n.edges == old(n.edges).(usageLogs := n.edges.usageLogs)
    ensures err.None? <==> Answers(query, ids, LOG_FK)
    ensures err.None? ==> forall i :: 0 <= i < |nodes| ==> nodes[i].edges.usageLogs == ExpectedChildren(query, ids, LOG_FK, i)
  {
    hide Holds, ChildrenOf, LastOfId;
    if query.None? {
      return None;
    }
    err := LoadUsageLogs(nodes, query.value);
    forall i | 0 <= i < |nodes| ensures Holds(nodes, ids, i) <==> LastOfId(ids, i) {
      HoldsAlone(nodes, ids, i);
    }
  }

  method MaybeAccountGroups(nodes: seq<Account>, query: Option<Query<AccountGroup>>, ghost ids: seq<int>) returns (err: Option<LoadError>)
    requires ids == IdsOf(nodes) && Separate(nodes)
    requires forall n :: n in nodes ==> n.edges.accountGroups == []
    modifies nodes
    ensures forall n :: n in nodes ==> n.cols == old(n.cols)
    ensures forall n :: n in nodes ==> n.edges == old(n.edges).(accountGroups := n.edges.accountGroups)
    ensures err.None? <==> Answers(query, ids, MEMBERSHIP_FK)
    ensures err.None? ==> forall i :: 0 <= i < |nodes| ==> nodes[i].edges.accountGroups == ExpectedChildren(query, ids, MEMBERSHIP_FK, i)
  {
    hide Holds, ChildrenOf, LastOfId;
    if query.None? {
      return None;
    }
    err := LoadAccountGroups(nodes, query.value);
    forall i | 0 <= i < |nodes| ensures Holds(nodes, ids, i) <==> LastOfId(ids, i) {
      HoldsAlone(nodes, ids, i);
    }
  }

  /** The four loads in the order of sqlAll; none disturbs what another has loaded. */
  method LoadEdges(nodes: seq<Account>, q: AccountQuery, ghost table: seq<AccountCols>) returns (err: Option<LoadError>)
    requires |nodes| == |table| && Separate(nodes)
    requires forall n :: n in nodes ==> n.edges == NO_EDGES.(loaded := LoadedOf(q))
    requires IdsOf(nodes) == TableIds(table) && (q.withProxy.Some? ==> KeysOf(nodes) == TableKeys(table))
    modifies nodes
    ensures forall n :: n in nodes ==> n.cols == old(n.cols)
    ensures err.None? <==> AllAnswer(q, table)
    ensures err.None? ==> forall i :: 0 <= i < |nodes| ==> nodes[i].edges == ExpectedEdges(q, table, i)
  {
    hide Answers, ProxyAnswers, ExpectedGroups, ExpectedChildren, ExpectedProxy, Separate;
    ghost var ids, keys := TableIds(table), TableKeys(table);
    err := MaybeGroups(nodes, q.withGroups, ids);
    if err.Some? {
      return;
    }
    assert q.withProxy.Some? ==> KeysOf(nodes) == keys;
    err := MaybeProxy(nodes, q.withProxy, keys);
    if err.Some? {
      return;
    }
    assert IdsOf(nodes) == ids;
    err := MaybeUsageLogs(nodes, q.withUsageLogs, ids);
    if err.Some? {
      return;
    }
    assert IdsOf(nodes) == ids;
    err := MaybeAccountGroups(nodes, q.withAccountGroups, ids);
  }

  /** sqlAll. The root query returns some rows (or fails); each becomes a fresh node holding the columns
      that were read, always with its ID. The run succeeds exactly when every requested edge query
      answers properly, and then the edges of every node are the expected ones, whatever fields were
      selected. */
  method SqlAll(codec: JsonCodec, q: AccountQuery, root: Result<seq<AccountCols>, string>) returns (r: Result<seq<Account>, QueryError>)
    requires codec.Lossless()
    ensures root.Err? ==> r == Err(RootFailed(root.error))
    ensures root.Ok? ==> (r.Ok? <==> root.value == [] || AllAnswer(q, root.value))
    ensures r.Ok? ==> root.Ok? && |r.value| == |root.value| && Separate(r.value) && fresh(r.value)
    ensures r.Ok? ==> forall i :: 0 <= i < |r.value| ==>
                        && r.value[i].cols.id == root.value[i].id
                        && r.value[i].edges == ExpectedEdges(q, root.value, i)
                        && Selected(r.value[i].cols, root.value[i], q.fields)
  {
    hide AllAnswer, ExpectedEdges, JsonCodec.Lossless, ALL_COLUMNS, Get, Selected, ReadFrom;
    if root.Err? {
      return Err(RootFailed(root.error));
    }
    var table := root.value;
    var columns := QueryColumns(q.fields, q.withProxy.Some?);
    var nodes := BuildNodes(codec, columns, table, LoadedOf(q));
    ReadIds(nodes, table, columns);
    if |nodes| == 0 {
      return Ok(nodes);
    }
    assert forall i :: 0 <= i < |nodes| ==> nodes[i].cols.id == IdsOf(nodes)[i];
    forall i | 0 <= i < |nodes| ensures Selected(nodes[i].cols, table[i], q.fields) {
      ReadSelected(nodes[i].cols, table[i], columns, q.fields);
    }
    var err := LoadEdges(nodes, q, table);
    if err.Some? {
      return Err(EdgeFailed(err.value));
    }
    return Ok(nodes);
  }

  /** The node agrees with its row on every selected field, which is every field when none is selected. */
  ghost predicate Selected(cols: AccountCols, row: AccountCols, fields: seq<Column>) {
    forall c :: fields == [] || c in fields ==> Get(cols, c) == Get(row, c)
  }

  lemma ReadSelected(cols: AccountCols, row: AccountCols, columns: seq<Column>, fields: seq<Column>)
    requires ReadFrom(cols, row, columns)
    requires forall c: Column :: !c.Unknown? && (fields == [] || c in fields) ==> c in columns
    ensures Selected(cols, row, fields)
  {
    hide Get;
    forall c: Column | fields == [] || c in fields ensures Get(cols, c) == Get(row, c) {
      if c.Unknown? {
        UnknownHasNoField(row, c);
        UnknownHasNoField(cols, c);
      }
    }
  }

  lemma ReadIds(nodes: seq<Account>, table: seq<AccountCols>, columns: seq<Column>)
    requires |nodes| == |table| && FieldID in columns
    requires forall i :: 0 <= i < |nodes| ==> ReadFrom(nodes[i].cols, table[i], columns)
    ensures IdsOf(nodes) == TableIds(table)
    ensures PROXY_KEY in columns ==> KeysOf(nodes) == TableKeys(table)
  {
    forall i | 0 <= i < |nodes|
      ensures nodes[i].cols.id == table[i].id
      ensures PROXY_KEY in columns ==> nodes[i].cols.optInts.proxyId == table[i].optInts.proxyId
    {
      assert Get(nodes[i].cols, FieldID) == Get(table[i], FieldID);
      if PROXY_KEY in columns {
        assert Get(nodes[i].cols, PROXY_KEY) == Get(table[i], PROXY_KEY);
      }
    }
  }

  /** What the accessors of the other edges report: not loaded exactly when the edge was not requested, and
      otherwise the loaded list, which may be empty. */
  lemma ListsReported(q: AccountQuery, table: seq<AccountCols>, i: nat)
    requires i < |table| && AllAnswer(q, table)
    ensures var edges, ids := ExpectedEdges(q, table, i), TableIds(table);
            && (edges.GroupsOrErr() == if q.withGroups.None? then Err(NotLoaded) else Ok(ExpectedGroups(RowsOf(q.withGroups), ids, i)))
            && (edges.UsageLogsOrErr() ==
                if q.withUsageLogs.None? then Err(NotLoaded) else Ok(ExpectedChildren(q.withUsageLogs, ids, LOG_FK, i)))
            && (edges.AccountGroupsOrErr() ==
                if q.withAccountGroups.None? then Err(NotLoaded) else Ok(ExpectedChildren(q.withAccountGroups, ids, MEMBERSHIP_FK, i)))
  {
    hide Answers, ProxyAnswers, ExpectedGroups, ExpectedChildren, ExpectedProxy;
  }

  /** What ProxyOrErr then reports: not loaded exactly when the edge was not requested, not found
      exactly when it was requested and no proxy with the account's key came back. */
  lemma ProxyReported(q: AccountQuery, table: seq<AccountCols>, i: nat)
    requires i < |table| && AllAnswer(q, table)
    ensures var report := ExpectedEdges(q, table, i).ProxyOrErr();
            && (report == Err(NotLoaded) <==> q.withProxy.None?)
            && (report.Ok? ==> Some(report.value.id) == table[i].optInts.proxyId)
            && (report == Err(NotFound) <==>
                  q.withProxy.Some? &&
                  forall p :: DistinctKeys(TableKeys(table)) != [] && p in q.withProxy.value(DistinctKeys(TableKeys(table))).value
                              ==> Some(p.id) != table[i].optInts.proxyId)
  {
    hide DistinctKeys, Answers, ExpectedGroups, ExpectedChildren;
    var keys := TableKeys(table);
    var ids := DistinctKeys(keys);
    if q.withProxy.Some? && ids != [] {
      NeighbourExactly(q.withProxy.value(ids).value, PROXY_ID, keys[i], None);
    }
  }
}
