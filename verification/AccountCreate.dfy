/** Creating one account: backend/ent/account_create.go, defaults, check and createSpec, and the
    round trip of a created row through the reader of backend/ent/account.go. */
module AccountCreate {
  import opened Wrappers
  import opened AccountEntity

  /** The fields of AccountMutation; None means not set. Edge IDs are unordered in the source too. */
  datatype MutationFields = MutationFields(
    rateMultiplier: Option<real>,
    times: Times<Option<Time>>, optTimes: OptTimes, texts: Texts<Option<string>>, optTexts: OptTexts,
    jsons: Jsons<Option<JsonMap>>, ints: Ints<Option<int>>, loadFactor: Option<int>, bools: Bools<Option<bool>>,
    groups: set<int>, proxy: Option<int>, usageLogs: set<int>)

  datatype Error =
    | Uninitialized(column: Column) | MissingRequired(column: Column) | ValidatorFailed(column: Column)
    | HookError(tag: string) | DriverError(tag: string)

  /** The package variables of backend/ent/account/account.go. The four function-valued defaults may
      be nil; a validator is the predicate of the values it accepts. */
  datatype Runtime = Runtime(
    createdAt: Option<Time>, updatedAt: Option<Time>, credentials: Option<JsonMap>, extra: Option<JsonMap>,
    concurrency: int, priority: int, rateMultiplier: real, status: string, autoPauseOnExpired: bool, schedulable: bool,
    nameOk: string -> bool, platformOk: string -> bool, typeOk: string -> bool, statusOk: string -> bool,
    sessionWindowStatusOk: string -> bool)
  {
    predicate Initialized() {
      createdAt.Some? && updatedAt.Some? && credentials.Some? && extra.Some?
    }
  }

  function OrElse<T>(set_: Option<T>, default: T): Option<T> {
    if set_.Some? then set_ else Some(default)
  }

  /** defaults: the mutation as it is left, and the error that stopped it if a default is nil. */
  function Defaults(rt: Runtime, m: MutationFields): (MutationFields, Option<Error>) {
    if m.times.createdAt.None? && rt.createdAt.None? then (m, Some(Uninitialized(TimeColumn(FieldCreatedAt)))) else
    var m := m.(times := m.times.(createdAt := OrElse(m.times.createdAt, rt.createdAt.GetOr(0))));
    if m.times.updatedAt.None? && rt.updatedAt.None? then (m, Some(Uninitialized(TimeColumn(FieldUpdatedAt)))) else
    var m := m.(times := m.times.(updatedAt := OrElse(m.times.updatedAt, rt.updatedAt.GetOr(0))));
    if m.jsons.credentials.None? && rt.credentials.None? then (m, Some(Uninitialized(JsonColumn(FieldCredentials)))) else
    var m := m.(jsons := m.jsons.(credentials := OrElse(m.jsons.credentials, rt.credentials.GetOr(None))));
    if m.jsons.extra.None? && rt.extra.None? then (m, Some(Uninitialized(JsonColumn(FieldExtra)))) else
    var m := m.(jsons := m.jsons.(extra := OrElse(m.jsons.extra, rt.extra.GetOr(None))));
    var m := m.(ints := Ints(OrElse(m.ints.concurrency, rt.concurrency), OrElse(m.ints.priority, rt.priority)));
    var m := m.(rateMultiplier := OrElse(m.rateMultiplier, rt.rateMultiplier));
    var m := m.(texts := m.texts.(status := OrElse(m.texts.status, rt.status)));
    (m.(bools := Bools(OrElse(m.bools.autoPauseOnExpired, rt.autoPauseOnExpired), OrElse(m.bools.schedulable, rt.schedulable))), None)
  }

  predicate Rejected(v: Option<string>, ok: string -> bool) {
    v.Some? && !ok(v.value)
  }

  /** check: the first missing required field or rejected value, in the order of the source. */
  function Check(rt: Runtime, m: MutationFields): Option<Error> {
    if m.times.createdAt.None? then Some(MissingRequired(TimeColumn(FieldCreatedAt)))
    else if m.times.updatedAt.None? then Some(MissingRequired(TimeColumn(FieldUpdatedAt)))
    else if m.texts.name.None? then Some(MissingRequired(TextColumn(FieldName)))
    else if Rejected(m.texts.name, rt.nameOk) then Some(ValidatorFailed(TextColumn(FieldName)))
    else if m.texts.platform.None? then Some(MissingRequired(TextColumn(FieldPlatform)))
    else if Rejected(m.texts.platform, rt.platformOk) then Some(ValidatorFailed(TextColumn(FieldPlatform)))
    else if m.texts.typ.None? then Some(MissingRequired(TextColumn(FieldType)))
    else if Rejected(m.texts.typ, rt.typeOk) then Some(ValidatorFailed(TextColumn(FieldType)))
    else if m.jsons.credentials.None? then Some(MissingRequired(JsonColumn(FieldCredentials)))
    else if m.jsons.extra.None? then Some(MissingRequired(JsonColumn(FieldExtra)))
    else if m.ints.concurrency.None? then Some(MissingRequired(IntColumn(FieldConcurrency)))
    else if m.ints.priority.None? then Some(MissingRequired(IntColumn(FieldPriority)))
    else if m.rateMultiplier.None? then Some(MissingRequired(FieldRateMultiplier))
    else if m.texts.status.None? then Some(MissingRequired(TextColumn(FieldStatus)))
    else if Rejected(m.texts.status, rt.statusOk) then Some(ValidatorFailed(TextColumn(FieldStatus)))
    else if m.bools.autoPauseOnExpired.None? then Some(MissingRequired(BoolColumn(FieldAutoPauseOnExpired)))
    else if m.bools.schedulable.None? then Some(MissingRequired(BoolColumn(FieldSchedulable)))
    else if Rejected(m.optTexts.sessionWindowStatus, rt.sessionWindowStatusOk) then
      Some(ValidatorFailed(OptTextColumn(FieldSessionWindowStatus)))
    else None
  }

  // ----- createSpec -----

  datatype Cell = CInt(i: int) | CTime(t: Time) | CText(s: string) | CFloat(f: real) | CBool(b: bool) | CJson(j: JsonMap)

  datatype Relation = M2M | M2O | O2M
  datatype EdgeName = GroupsEdge | ProxyEdge | UsageLogsEdge

  datatype EdgeSpec = EdgeSpec(rel: Relation, edge: EdgeName, nodes: set<int>)

  datatype CreateSpec = CreateSpec(fields: map<Column, Cell>, edges: seq<EdgeSpec>)

  /** The 29 columns of the entity. */
  const KNOWN: set<Column> :=
    {FieldID, FieldRateMultiplier}
    + (set c: TimeCol | true :: TimeColumn(c)) + (set c: OptTimeCol | true :: OptTimeColumn(c))
    + (set c: TextCol | true :: TextColumn(c)) + (set c: OptTextCol | true :: OptTextColumn(c))
    + (set c: JsonCol | true :: JsonColumn(c)) + (set c: IntCol | true :: IntColumn(c))
    + (set c: OptIntCol | true :: OptIntColumn(c)) + (set c: BoolCol | true :: BoolColumn(c))

  lemma KnownColumns(c: Column)
    ensures c in KNOWN <==> !c.Unknown?
  {
  }

  /** The value SetField stores for a column; the ID and the foreign key are not fields. */
  function CellOf(m: MutationFields, c: Column): Option<Cell> {
    match c
    case FieldID => None
    case FieldRateMultiplier => (match m.rateMultiplier case Some(f) => Some(CFloat(f)) case None => None)
    case TimeColumn(t) => (match m.times.Get(t) case Some(v) => Some(CTime(v)) case None => None)
    case OptTimeColumn(t) => (match m.optTimes.Get(t) case Some(v) => Some(CTime(v)) case None => None)
    case TextColumn(t) => (match m.texts.Get(t) case Some(s) => Some(CText(s)) case None => None)
    case OptTextColumn(t) => (match m.optTexts.Get(t) case Some(s) => Some(CText(s)) case None => None)
    case JsonColumn(j) => (match m.jsons.Get(j) case Some(v) => Some(CJson(v)) case None => None)
    case IntColumn(i) => (match m.ints.Get(i) case Some(v) => Some(CInt(v)) case None => None)
    case OptIntColumn(FieldProxyID) => None
    case OptIntColumn(FieldLoadFactor) => (match m.loadFactor case Some(v) => Some(CInt(v)) case None => None)
    case BoolColumn(b) => (match m.bools.Get(b) case Some(v) => Some(CBool(v)) case None => None)
    case Unknown(_) => None
  }

  function NodeOf(m: MutationFields): AccountCols {
    AccountCols(
      0, m.rateMultiplier.GetOr(0.0),
      Times(m.times.createdAt.GetOr(0), m.times.updatedAt.GetOr(0)), m.optTimes,
      Texts(m.texts.name.GetOr(""), m.texts.platform.GetOr(""), m.texts.typ.GetOr(""), m.texts.status.GetOr("")), m.optTexts,
      Jsons(m.jsons.credentials.GetOr(None), m.jsons.extra.GetOr(None)),
      Ints(m.ints.concurrency.GetOr(0), m.ints.priority.GetOr(0)), OptInts(m.proxy, m.loadFactor),
      Bools(m.bools.autoPauseOnExpired.GetOr(false), m.bools.schedulable.GetOr(false)))
  }

  function EdgesOf(m: MutationFields): seq<EdgeSpec> {
    (if m.groups != {} then [EdgeSpec(M2M, GroupsEdge, m.groups)] else []) +
    (if m.proxy.Some? then [EdgeSpec(M2O, ProxyEdge, {m.proxy.value})] else []) +
    (if m.usageLogs != {} then [EdgeSpec(O2M, UsageLogsEdge, m.usageLogs)] else [])
  }

  function SpecOf(m: MutationFields): CreateSpec {
    CreateSpec(map c | c in KNOWN && CellOf(m, c).Some? :: CellOf(m, c).value, EdgesOf(m))
  }

  // ----- the row that an insert stores, and reading it back -----

  /** The foreign key stored in the row: the target of its many-to-one edge. */
  ghost function ForeignKey(edges: seq<EdgeSpec>): Option<int> {
    if exists n :: PointsTo(edges, n) then
      var n :| PointsTo(edges, n);
      Some(n)
    else None
  }

  ghost predicate PointsTo(edges: seq<EdgeSpec>, n: int) {
    exists e :: e in edges && e.rel == M2O && n in e.nodes
  }

  /** What the driver scans from the stored row into the container of column c. A column that the
      spec does not mention is NULL. */
  ghost function Stored(codec: JsonCodec, spec: CreateSpec, id: int, c: Column): Container {
    if c == FieldID then NullInt64(Some(id))
    else if c == OptIntColumn(FieldProxyID) then NullInt64(ForeignKey(spec.edges))
    else if c !in spec.fields then NewContainer(c)
    else
      match spec.fields[c]
      case CInt(i) => NullInt64(Some(i))
      case CTime(t) => NullTime(Some(t))
      case CText(s) => NullString(Some(s))
      case CFloat(f) => NullFloat64(Some(f))
      case CBool(b) => NullBool(Some(b))
      case CJson(j) => RawBytes(codec.marshal(j))
  }

  lemma StoredForeignKey(m: MutationFields)
    ensures ForeignKey(SpecOf(m).edges) == m.proxy
  {
    var edges := EdgesOf(m);
    forall n ensures PointsTo(edges, n) <==> m.proxy == Some(n) {
      if m.proxy == Some(n) {
        assert EdgeSpec(M2O, ProxyEdge, {n}) in edges;
      }
    }
    hide PointsTo, EdgesOf;
    assert m.proxy.Some? ==> PointsTo(edges, m.proxy.value);
    assert SpecOf(m).edges == edges;
  }

  lemma SpecFields(m: MutationFields, c: Column)
    ensures c in SpecOf(m).fields <==> CellOf(m, c).Some?
    ensures c in SpecOf(m).fields ==> SpecOf(m).fields[c] == CellOf(m, c).value
  {
    KnownColumns(c);
  }

  /** The container of a stored column in terms of the mutation. */
  lemma StoredCell(codec: JsonCodec, m: MutationFields, id: int, c: Column)
    requires c != FieldID && c != OptIntColumn(FieldProxyID)
    ensures Stored(codec, SpecOf(m), id, c) ==
            match CellOf(m, c)
            case None => NewContainer(c)
            case Some(CInt(i)) => NullInt64(Some(i))
            case Some(CTime(t)) => NullTime(Some(t))
            case Some(CText(s)) => NullString(Some(s))
            case Some(CFloat(f)) => NullFloat64(Some(f))
            case Some(CBool(b)) => NullBool(Some(b))
            case Some(CJson(j)) => RawBytes(codec.marshal(j))
  {
    hide SpecOf, CellOf;
    SpecFields(m, c);
  }

  /** What check guarantees: every required field is set. */
  lemma CheckedIsComplete(rt: Runtime, m: MutationFields)
    requires Check(rt, m).None?
    ensures m.times.createdAt.Some? && m.times.updatedAt.Some?
    ensures m.texts.name.Some? && m.texts.platform.Some? && m.texts.typ.Some? && m.texts.status.Some?
    ensures m.jsons.credentials.Some? && m.jsons.extra.Some? && m.ints.concurrency.Some? && m.ints.priority.Some?
    ensures m.rateMultiplier.Some? && m.bools.autoPauseOnExpired.Some? && m.bools.schedulable.Some?
  {
  }

  /** What the driver hands back for a column that is not JSON: the value of the node, or NULL when
      the node holds nothing. */
  lemma StoredScalar(codec: JsonCodec, m: MutationFields, id: int, c: Column)
    requires !c.Unknown? && !c.JsonColumn?
    requires c.TimeColumn? || c.TextColumn? || c.IntColumn? || c.BoolColumn? || c == FieldRateMultiplier ==> CellOf(m, c).Some?
    ensures var v, x := Stored(codec, SpecOf(m), id, c), Get(NodeOf(m).(id := id), c);
            SameType(NewContainer(c), v) && (Scanned(c, v) == Some(x) || (Scanned(c, v) == None && x == Get(ZERO, c)))
  {
    hide SpecOf;
    if c == FieldID {
    } else if c == OptIntColumn(FieldProxyID) {
      StoredForeignKey(m);
    } else {
      StoredCell(codec, m, id, c);
      hide Stored;
    }
  }

  /** One stored column reads back as the value the created node holds. Required columns are never
      NULL, by check. */
  lemma StoredColumn(rt: Runtime, codec: JsonCodec, m: MutationFields, id: int, c: Column)
    requires codec.Lossless() && Check(rt, m).None? && !c.Unknown?
    ensures ReadsAs(codec, c, Stored(codec, SpecOf(m), id, c), Get(NodeOf(m).(id := id), c))
  {
    CheckedIsComplete(rt, m);
    hide SpecOf, Check, ReadsAs;
    if c.JsonColumn? {
      StoredCell(codec, m, id, c);
      JsonReadsBack(codec, c.json, m.jsons.Get(c.json).value);
    } else {
      StoredScalar(codec, m, id, c);
      ScalarReadsBack(codec, c, Stored(codec, SpecOf(m), id, c), Get(NodeOf(m).(id := id), c));
    }
  }

  ghost function StoredRow(codec: JsonCodec, spec: CreateSpec, id: int, columns: seq<Column>): (values: seq<Container>)
    ensures |values| == |columns|
    ensures forall i :: 0 <= i < |columns| ==> values[i] == Stored(codec, spec, id, columns[i])
  {
    seq(|columns|, i requires 0 <= i < |columns| => Stored(codec, spec, id, columns[i]))
  }

  /** Create then read: for every accepted mutation and every column list, in any order and with
      repeated or unknown names, reading the stored row into a fresh node rebuilds each listed field
      as createSpec returned it and leaves the others zero. */
  lemma RoundTrip(rt: Runtime, codec: JsonCodec, m: MutationFields, id: int, columns: seq<Column>, d: Column)
    requires codec.Lossless() && Check(rt, m).None?
    ensures var values := StoredRow(codec, SpecOf(m), id, columns);
            && (forall i :: 0 <= i < |columns| ==> Acceptable(codec, columns[i], values[i]))
            && AbsorbAll(codec, d, Get(ZERO, d), columns, values) ==
               if d in columns then Get(NodeOf(m).(id := id), d) else Get(ZERO, d)
  {
    hide Acceptable, Absorb, Stored, Get, NodeOf, SpecOf, Check, ReadsAs;
    var values, node := StoredRow(codec, SpecOf(m), id, columns), NodeOf(m).(id := id);
    forall i | 0 <= i < |columns| && !columns[i].Unknown? ensures ReadsAs(codec, columns[i], values[i], Get(node, columns[i])) {
      StoredColumn(rt, codec, m, id, columns[i]);
    }
    RowReadsBack(codec, columns, values, node, d);
  }
}
