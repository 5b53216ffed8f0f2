/** Saving an update: sqlSave of AccountUpdate and of AccountUpdateOne in backend/ent/account_update.go,
    from the recorded mutation to the field and edge specs handed to the SQL library. */
module AccountUpdate {
  import opened Wrappers
  import opened AccountEntity
  import opened QueryRun
  import AccountCreate
  import BulkAgreement
  import EdgeUpdate

  type Cell = AccountCreate.Cell
  type Runtime = AccountCreate.Runtime

  /** What the mutation records for a column. */
  datatype FieldState = FieldState(value: Option<Cell>, added: Option<Cell>, cleared: bool)

  const UNTOUCHED := FieldState(None, None, false)

  datatype FieldSpecs = FieldSpecs(set_: seq<(Column, Cell)>, add: seq<(Column, Cell)>, clear: seq<Column>)

  datatype UpdateError = Invalid(error: AccountCreate.Error) | MissingID | InvalidSelection(c: Column)

  /** What sqlgraph is given: the columns to read back, the node to update if there is only one, the
      predicates, the fields and the edges. */
  datatype UpdateSpec = UpdateSpec(
    columns: seq<Column>, id: Option<int>, predicates: seq<int>, fields: FieldSpecs, edges: EdgeUpdate.EdgeSpecs)

  class UpdateMutation {
    var id: Option<int>
    var fields: map<Column, FieldState>
    var predicates: seq<int>
    const groups: EdgeUpdate.EdgeMutation
    const proxy: EdgeUpdate.ProxyMutation
    const usageLogs: EdgeUpdate.EdgeMutation

    constructor (groups: EdgeUpdate.EdgeMutation, proxy: EdgeUpdate.ProxyMutation, usageLogs: EdgeUpdate.EdgeMutation)
      ensures id == None && fields == map[] && predicates == []
      ensures this.groups == groups && this.proxy == proxy && this.usageLogs == usageLogs
    {
      this.id, this.fields, this.predicates := None, map[], [];
      this.groups, this.proxy, this.usageLogs := groups, proxy, usageLogs;
    }

    function Field(c: Column): FieldState
      reads this
    {
      if c in fields then fields[c] else UNTOUCHED
    }

    function Text(c: Column): Option<string>
      reads this
    {
      match Field(c).value
      case Some(CText(s)) => Some(s)
      case _ => None
    }

    /** The shape of the edge specs: what is cleared and added on each edge. */
    ghost function Clears(): seq<(EdgeUpdate.EdgeName, set<int>)>
      reads this, groups, proxy, usageLogs
    {
      EdgeUpdate.ClearsFor(groups.state, EdgeUpdate.Groups) + EdgeUpdate.Shape(EdgeUpdate.KeyClearsFor(proxy.State())) +
      EdgeUpdate.ClearsFor(usageLogs.state, EdgeUpdate.UsageLogs)
    }

    ghost function Adds(): seq<(EdgeUpdate.EdgeName, set<int>)>
      reads this, groups, proxy, usageLogs
    {
      EdgeUpdate.AddsFor(groups.state, EdgeUpdate.Groups) + EdgeUpdate.Shape(EdgeUpdate.KeyAddsFor(proxy.State())) +
      EdgeUpdate.AddsFor(usageLogs.state, EdgeUpdate.UsageLogs)
    }
  }

  // ----- fields -----

  /** Columns with an Add method. */
  predicate Numeric(c: Column) {
    c.IntColumn? || c == FieldRateMultiplier || c == OptIntColumn(FieldLoadFactor)
  }

  /** Columns with a Clear method. */
  predicate Nullable(c: Column) {
    c.OptTimeColumn? || c.OptTextColumn? || c == OptIntColumn(FieldLoadFactor)
  }

  /** The columns in the order in which sqlSave visits them; created_at is immutable and proxy_id is an edge. */
  const UPDATE_COLUMNS: seq<Column> := [
    TimeColumn(FieldUpdatedAt), OptTimeColumn(FieldDeletedAt), TextColumn(FieldName), OptTextColumn(FieldNotes),
    TextColumn(FieldPlatform), TextColumn(FieldType), JsonColumn(FieldCredentials), JsonColumn(FieldExtra),
    IntColumn(FieldConcurrency), OptIntColumn(FieldLoadFactor), IntColumn(FieldPriority), FieldRateMultiplier,
    TextColumn(FieldStatus), OptTextColumn(FieldErrorMessage), OptTimeColumn(FieldLastUsedAt), OptTimeColumn(FieldExpiresAt),
    BoolColumn(FieldAutoPauseOnExpired), BoolColumn(FieldSchedulable), OptTimeColumn(FieldRateLimitedAt),
    OptTimeColumn(FieldRateLimitResetAt), OptTimeColumn(FieldOverloadUntil), OptTimeColumn(FieldTempUnschedulableUntil),
    OptTextColumn(FieldTempUnschedulableReason), OptTimeColumn(FieldSessionWindowStart), OptTimeColumn(FieldSessionWindowEnd),
    OptTextColumn(FieldSessionWindowStatus)]

  /** The columns an update can change: all but the ID, the creation time and the proxy key. */
  predicate Updatable(c: Column) {
    !c.Unknown? && c != FieldID && c != TimeColumn(FieldCreatedAt) && c != OptIntColumn(FieldProxyID)
  }

  /** Where sqlSave visits a column. */
  function Position(c: Column): (i: nat)
    requires Updatable(c)
    ensures i < 26
  {
    match c
    case TimeColumn(_) => 0
    case OptTimeColumn(FieldDeletedAt) => 1
    case TextColumn(FieldName) => 2
    case OptTextColumn(FieldNotes) => 3
    case TextColumn(FieldPlatform) => 4
    case TextColumn(FieldType) => 5
    case JsonColumn(FieldCredentials) => 6
    case JsonColumn(FieldExtra) => 7
    case IntColumn(FieldConcurrency) => 8
    case OptIntColumn(_) => 9
    case IntColumn(FieldPriority) => 10
    case FieldRateMultiplier => 11
    case TextColumn(FieldStatus) => 12
    case OptTextColumn(FieldErrorMessage) => 13
    case OptTimeColumn(FieldLastUsedAt) => 14
    case OptTimeColumn(FieldExpiresAt) => 15
    case BoolColumn(FieldAutoPauseOnExpired) => 16
    case BoolColumn(FieldSchedulable) => 17
    case OptTimeColumn(FieldRateLimitedAt) => 18
    case OptTimeColumn(FieldRateLimitResetAt) => 19
    case OptTimeColumn(FieldOverloadUntil) => 20
    case OptTimeColumn(FieldTempUnschedulableUntil) => 21
    case OptTextColumn(FieldTempUnschedulableReason) => 22
    case OptTimeColumn(FieldSessionWindowStart) => 23
    case OptTimeColumn(FieldSessionWindowEnd) => 24
    case OptTextColumn(FieldSessionWindowStatus) => 25
  }

  lemma VisitedAt(c: Column)
    requires Updatable(c)
    ensures |UPDATE_COLUMNS| == 26 && UPDATE_COLUMNS[Position(c)] == c
  {
    EachKind(c);
  }

  /** The kinds of a column, spelled out. */
  lemma EachKind(c: Column)
    ensures c.TimeColumn? ==> c.time.FieldCreatedAt? || c.time.FieldUpdatedAt?
    ensures c.IntColumn? ==> c.int_.FieldConcurrency? || c.int_.FieldPriority?
    ensures c.OptIntColumn? ==> c.optInt.FieldProxyID? || c.optInt.FieldLoadFactor?
    ensures c.OptTextColumn? ==> c.optText.FieldNotes? || c.optText.FieldErrorMessage? || c.optText.FieldTempUnschedulableReason?
                                 || c.optText.FieldSessionWindowStatus?
    ensures c.OptTimeColumn? ==>
              || c.optTime.FieldDeletedAt? || c.optTime.FieldLastUsedAt? || c.optTime.FieldExpiresAt? || c.optTime.FieldRateLimitedAt?
              || c.optTime.FieldRateLimitResetAt? || c.optTime.FieldOverloadUntil? || c.optTime.FieldTempUnschedulableUntil?
              || c.optTime.FieldSessionWindowStart? || c.optTime.FieldSessionWindowEnd?
  {
  }

  lemma VisitsUpdatable(i: nat)
    requires i < |UPDATE_COLUMNS|
    ensures Updatable(UPDATE_COLUMNS[i]) && Position(UPDATE_COLUMNS[i]) == i
  {
  }

  /** sqlSave visits exactly the updatable columns, each once. */
  lemma UpdateColumnsExactly()
    ensures forall c :: c in UPDATE_COLUMNS <==> Updatable(c)
    ensures forall i, j :: 0 <= i < j < |UPDATE_COLUMNS| ==> UPDATE_COLUMNS[i] != UPDATE_COLUMNS[j]
  {
    forall c | Updatable(c) ensures c in UPDATE_COLUMNS {
      VisitedAt(c);
    }
    forall i | 0 <= i < |UPDATE_COLUMNS| ensures Updatable(UPDATE_COLUMNS[i]) && Position(UPDATE_COLUMNS[i]) == i {
      VisitsUpdatable(i);
    }
    hide UPDATE_COLUMNS, Updatable, Position;
  }

  /** What is emitted for one column. */
  function ColumnSpecs(c: Column, s: FieldState): FieldSpecs {
    FieldSpecs(if s.value.Some? then [(c, s.value.value)] else [],
               if Numeric(c) && s.added.Some? then [(c, s.added.value)] else [],
               if Nullable(c) && s.cleared then [c] else [])
  }

  function FieldsOf(m: UpdateMutation, columns: seq<Column>): FieldSpecs
    reads m
  {
    if columns == [] then FieldSpecs([], [], [])
    else
      var n := |columns| - 1;
      var before, last := FieldsOf(m, columns[..n]), ColumnSpecs(columns[n], m.Field(columns[n]));
      FieldSpecs(before.set_ + last.set_, before.add + last.add, before.clear + last.clear)
  }

  /** A column is set, added to or cleared in the spec exactly when the mutation says so. */
  lemma {:induction false} FieldsOfExactly(m: UpdateMutation, columns: seq<Column>, c: Column, v: Cell)
    ensures (c, v) in FieldsOf(m, columns).set_ <==> c in columns && m.Field(c).value == Some(v)
    ensures (c, v) in FieldsOf(m, columns).add <==> c in columns && Numeric(c) && m.Field(c).added == Some(v)
    ensures c in FieldsOf(m, columns).clear <==> c in columns && Nullable(c) && m.Field(c).cleared
  {
    hide Numeric, Nullable, UpdateMutation.Field;
    if columns != [] {
      var n := |columns| - 1;
      assert columns == columns[..n] + [columns[n]];
      FieldsOfExactly(m, columns[..n], c, v);
    }
  }

  const ADDABLE: set<Column> := {
    IntColumn(FieldConcurrency), OptIntColumn(FieldLoadFactor), IntColumn(FieldPriority), FieldRateMultiplier}

  const CLEARABLE: set<Column> := {
    OptTimeColumn(FieldDeletedAt), OptTextColumn(FieldNotes), OptIntColumn(FieldLoadFactor), OptTextColumn(FieldErrorMessage),
    OptTimeColumn(FieldLastUsedAt), OptTimeColumn(FieldExpiresAt), OptTimeColumn(FieldRateLimitedAt),
    OptTimeColumn(FieldRateLimitResetAt), OptTimeColumn(FieldOverloadUntil), OptTimeColumn(FieldTempUnschedulableUntil),
    OptTextColumn(FieldTempUnschedulableReason), OptTimeColumn(FieldSessionWindowStart), OptTimeColumn(FieldSessionWindowEnd),
    OptTextColumn(FieldSessionWindowStatus)}

  lemma KindsExactly(c: Column)
    ensures c in ADDABLE <==> Numeric(c)
    ensures c in CLEARABLE <==> Nullable(c)
    ensures c in ADDABLE + CLEARABLE ==> Updatable(c)
  {
    EachKind(c);
  }

  /** No column is named twice in one list. */
  ghost predicate Once(names: seq<Column>) {
    forall i, j :: 0 <= i < j < |names| ==> names[i] != names[j]
  }

  function Names(pairs: seq<(Column, Cell)>): (names: seq<Column>)
    ensures |names| == |pairs| && forall i :: 0 <= i < |pairs| ==> names[i] == pairs[i].0
  {
    seq(|pairs|, i requires 0 <= i < |pairs| => pairs[i].0)
  }

  /** The specs set, add to and clear exactly what the mutation records, each column at most once in a list. */
  ghost predicate EmitsExactly(specs: FieldSpecs, m: UpdateMutation)
    reads m
  {
    && (forall c, v :: (c, v) in specs.set_ <==> Updatable(c) && m.Field(c).value == Some(v))
    && (forall c, v :: (c, v) in specs.add <==> c in ADDABLE && m.Field(c).added == Some(v))
    && (forall c :: c in specs.clear <==> c in CLEARABLE && m.Field(c).cleared)
    && Once(Names(specs.set_)) && Once(Names(specs.add)) && Once(specs.clear)
  }

  lemma FieldsEmitExactly(m: UpdateMutation)
    ensures EmitsExactly(FieldsOf(m, UPDATE_COLUMNS), m)
  {
    UpdateColumnsExactly();
    hide UPDATE_COLUMNS, FieldsOf, Updatable, Numeric, Nullable, ADDABLE, CLEARABLE, UpdateMutation.Field;
    forall c, v
      ensures (c, v) in FieldsOf(m, UPDATE_COLUMNS).set_ <==> Updatable(c) && m.Field(c).value == Some(v)
      ensures (c, v) in FieldsOf(m, UPDATE_COLUMNS).add <==> c in ADDABLE && m.Field(c).added == Some(v)
      ensures c in FieldsOf(m, UPDATE_COLUMNS).clear <==> c in CLEARABLE && m.Field(c).cleared
    {
      FieldsOfExactly(m, UPDATE_COLUMNS, c, v);
      KindsExactly(c);
    }
    forall c ensures c in FieldsOf(m, UPDATE_COLUMNS).clear <==> c in CLEARABLE && m.Field(c).cleared {
      FieldsOfExactly(m, UPDATE_COLUMNS, c, AccountCreate.CInt(0));
      KindsExactly(c);
    }
    FieldsOnce(m, UPDATE_COLUMNS);
  }

  lemma {:induction false} FieldsOnce(m: UpdateMutation, columns: seq<Column>)
    requires Once(columns)
    ensures var specs := FieldsOf(m, columns); Once(Names(specs.set_)) && Once(Names(specs.add)) && Once(specs.clear)
  {
    if columns != [] {
      var n := |columns| - 1;
      var before := FieldsOf(m, columns[..n]);
      FieldsOnce(m, columns[..n]);
      assert columns[n] !in columns[..n];
      forall i | 0 <= i < |before.set_| ensures before.set_[i].0 != columns[n] {
        FieldsOfExactly(m, columns[..n], before.set_[i].0, before.set_[i].1);
        assert (before.set_[i].0, before.set_[i].1) == before.set_[i];
      }
      forall i | 0 <= i < |before.add| ensures before.add[i].0 != columns[n] {
        FieldsOfExactly(m, columns[..n], before.add[i].0, before.add[i].1);
        assert (before.add[i].0, before.add[i].1) == before.add[i];
      }
      forall i | 0 <= i < |before.clear| ensures before.clear[i] != columns[n] {
        FieldsOfExactly(m, columns[..n], before.clear[i], AccountCreate.CInt(0));
      }
      hide Numeric, Nullable, UpdateMutation.Field;
    }
  }

  /** check of both builders: only values that are set are validated. */
  function UpdateCheck(rt: Runtime, m: UpdateMutation): Option<AccountCreate.Error>
    reads m
  {
    if AccountCreate.Rejected(m.Text(TextColumn(FieldName)), rt.nameOk) then Some(AccountCreate.ValidatorFailed(TextColumn(FieldName)))
    else if AccountCreate.Rejected(m.Text(TextColumn(FieldPlatform)), rt.platformOk) then Some(AccountCreate.ValidatorFailed(TextColumn(FieldPlatform)))
    else if AccountCreate.Rejected(m.Text(TextColumn(FieldType)), rt.typeOk) then Some(AccountCreate.ValidatorFailed(TextColumn(FieldType)))
    else if AccountCreate.Rejected(m.Text(TextColumn(FieldStatus)), rt.statusOk) then Some(AccountCreate.ValidatorFailed(TextColumn(FieldStatus)))
    else if AccountCreate.Rejected(m.Text(OptTextColumn(FieldSessionWindowStatus)), rt.sessionWindowStatusOk) then
      Some(AccountCreate.ValidatorFailed(OptTextColumn(FieldSessionWindowStatus)))
    else None
  }

  /** The validated values of an update. */
  function ValueOf(m: UpdateMutation, v: BulkAgreement.Validated): Option<string>
    reads m
  {
    match v
    case VName => m.Text(TextColumn(FieldName))
    case VPlatform => m.Text(TextColumn(FieldPlatform))
    case VType => m.Text(TextColumn(FieldType))
    case VStatus => m.Text(TextColumn(FieldStatus))
    case VSessionWindowStatus => m.Text(OptTextColumn(FieldSessionWindowStatus))
  }

  /** Every validated value that is set is accepted by its own validator. */
  ghost predicate ValuesAccepted(rt: Runtime, m: UpdateMutation)
    reads m
  {
    forall v :: ValueOf(m, v).Some? ==> BulkAgreement.Accepts(rt, v, ValueOf(m, v).value)
  }

  /** check passes exactly when each of the five validated values is unset or accepted. */
  lemma UpdateChecksExactly(rt: Runtime, m: UpdateMutation)
    ensures UpdateCheck(rt, m).None? <==> ValuesAccepted(rt, m)
  {
    hide UpdateMutation.Text;
    if ValuesAccepted(rt, m) {
      assert ValueOf(m, BulkAgreement.VName).Some? ==> BulkAgreement.Accepts(rt, BulkAgreement.VName, ValueOf(m, BulkAgreement.VName).value);
      assert ValueOf(m, BulkAgreement.VPlatform).Some? ==> BulkAgreement.Accepts(rt, BulkAgreement.VPlatform, ValueOf(m, BulkAgreement.VPlatform).value);
      assert ValueOf(m, BulkAgreement.VType).Some? ==> BulkAgreement.Accepts(rt, BulkAgreement.VType, ValueOf(m, BulkAgreement.VType).value);
      assert ValueOf(m, BulkAgreement.VStatus).Some? ==> BulkAgreement.Accepts(rt, BulkAgreement.VStatus, ValueOf(m, BulkAgreement.VStatus).value);
      assert ValueOf(m, BulkAgreement.VSessionWindowStatus).Some? ==>
          BulkAgreement.Accepts(rt, BulkAgreement.VSessionWindowStatus, ValueOf(m, BulkAgreement.VSessionWindowStatus).value);
    }
  }

  // ----- the two builders -----

  /** The spec carries exactly the predicates, fields and edge changes of the mutation. */
  ghost predicate Carries(spec: UpdateSpec, m: UpdateMutation)
    reads m, m.groups, m.proxy, m.usageLogs
  {
    && spec.predicates == m.predicates
    && spec.fields == FieldsOf(m, UPDATE_COLUMNS) && EmitsExactly(spec.fields, m)
    && EdgeUpdate.Shape(spec.edges.clear) == m.Clears()
    && EdgeUpdate.Shape(spec.edges.add) == m.Adds()
    && (forall links :: EdgeUpdate.Applied(spec.edges, EdgeUpdate.Groups, links) == EdgeUpdate.Effect(m.groups.state, links))
    && (forall links :: EdgeUpdate.Applied(spec.edges, EdgeUpdate.UsageLogs, links) == EdgeUpdate.Effect(m.usageLogs.state, links))
    && (forall key :: EdgeUpdate.AppliedKey(spec.edges, key) == EdgeUpdate.ProxyEffect(m.proxy.State(), key))
  }

  /** The edge part of sqlSave, the same text in both builders. */
  method EmitEdges(m: UpdateMutation) returns (edges: EdgeUpdate.EdgeSpecs)
    ensures EdgeUpdate.Shape(edges.clear) == m.Clears()
    ensures EdgeUpdate.Shape(edges.add) == m.Adds()
    ensures forall links :: EdgeUpdate.Applied(edges, EdgeUpdate.Groups, links) == EdgeUpdate.Effect(m.groups.state, links)
    ensures forall links :: EdgeUpdate.Applied(edges, EdgeUpdate.UsageLogs, links) == EdgeUpdate.Effect(m.usageLogs.state, links)
    ensures forall key :: EdgeUpdate.AppliedKey(edges, key) == EdgeUpdate.ProxyEffect(m.proxy.State(), key)
  {
    hide EdgeUpdate.Applied, EdgeUpdate.AppliedKey, EdgeUpdate.Effect, EdgeUpdate.ProxyEffect, EdgeUpdate.Ids,
      EdgeUpdate.Shape, EdgeUpdate.ClearsFor, EdgeUpdate.AddsFor, EdgeUpdate.KeyClearsFor, EdgeUpdate.KeyAddsFor;
    var groups := m.groups.Emit(EdgeUpdate.Groups);
    var proxy := m.proxy.Emit();
    var logs := m.usageLogs.Emit(EdgeUpdate.UsageLogs);
    EdgeUpdate.EdgesApart(groups, proxy, logs);
    EdgeUpdate.ShapeConcat(groups.clear, proxy.clear);
    EdgeUpdate.ShapeConcat(groups.clear + proxy.clear, logs.clear);
    EdgeUpdate.ShapeConcat(groups.add, proxy.add);
    EdgeUpdate.ShapeConcat(groups.add + proxy.add, logs.add);
    edges := groups.Then(proxy).Then(logs);
  }

  class AccountUpdate {
    const mutation: UpdateMutation

    constructor (mutation: UpdateMutation)
      ensures this.mutation == mutation
    {
      this.mutation := mutation;
    }

    method SqlSave(rt: Runtime) returns (r: Result<UpdateSpec, UpdateError>)
      ensures UpdateCheck(rt, mutation).Some? ==> r == Err(Invalid(UpdateCheck(rt, mutation).value))
      ensures r.Ok? <==> ValuesAccepted(rt, mutation)
      ensures UpdateCheck(rt, mutation).None? ==> r.Ok? && r.value.id.None? && r.value.columns == ALL_COLUMNS && Carries(r.value, mutation)
    {
      hide UpdateCheck, ValuesAccepted, FieldsOf, EmitsExactly, UPDATE_COLUMNS, ALL_COLUMNS, EdgeUpdate.Effect, EdgeUpdate.ProxyEffect;
      UpdateChecksExactly(rt, mutation);
      FieldsEmitExactly(mutation);
      var failed := UpdateCheck(rt, mutation);
      if failed.Some? {
        return Err(Invalid(failed.value));
      }
      var edges := EmitEdges(mutation);
      return Ok(UpdateSpec(ALL_COLUMNS, None, mutation.predicates, FieldsOf(mutation, UPDATE_COLUMNS), edges));
    }
  }

  class AccountUpdateOne {
    const mutation: UpdateMutation
    const fields: seq<Column>

    constructor (mutation: UpdateMutation, fields: seq<Column>)
      ensures this.mutation == mutation && this.fields == fields
    {
      this.mutation, this.fields := mutation, fields;
    }

    /** The columns to read back: every one, or the ID and the selected ones. */
    method NodeColumns() returns (r: Result<seq<Column>, UpdateError>)
      ensures r.Ok? <==> forall c :: c in fields ==> !c.Unknown?
      ensures r.Ok? ==> r.value == if fields == [] then ALL_COLUMNS else [FieldID] + NotID(fields)
      ensures r.Err? ==> exists i :: 0 <= i < |fields| && r.error == InvalidSelection(fields[i]) && fields[i].Unknown?
                                     && forall j :: 0 <= j < i ==> !fields[j].Unknown?
    {
      hide ALL_COLUMNS;
      if |fields| == 0 {
        return Ok(ALL_COLUMNS);
      }
      var columns := [FieldID];
      for i := 0 to |fields|
        invariant forall j :: 0 <= j < i ==> !fields[j].Unknown?
        invariant columns == [FieldID] + NotID(fields[..i])
      {
        assert fields[..i + 1][..i] == fields[..i];
        if fields[i].Unknown? {
          return Err(InvalidSelection(fields[i]));
        }
        if fields[i] != FieldID {
          columns := columns + [fields[i]];
        }
      }
      assert fields[..|fields|] == fields;
      return Ok(columns);
    }

    method SqlSave(rt: Runtime) returns (r: Result<UpdateSpec, UpdateError>)
      ensures UpdateCheck(rt, mutation).Some? ==> r == Err(Invalid(UpdateCheck(rt, mutation).value))
      ensures r.Ok? <==> ValuesAccepted(rt, mutation) && mutation.id.Some? && forall c :: c in fields ==> !c.Unknown?
      ensures UpdateCheck(rt, mutation).None? && mutation.id.None? ==> r == Err(MissingID)
      ensures UpdateCheck(rt, mutation).None? && mutation.id.Some? ==> (r.Ok? <==> forall c :: c in fields ==> !c.Unknown?)
      ensures r.Err? && r.error.InvalidSelection? ==> r.error.c in fields && r.error.c.Unknown?
      ensures r.Ok? ==> r.value.id == mutation.id && Carries(r.value, mutation)
      ensures r.Ok? ==> r.value.columns == if fields == [] then ALL_COLUMNS else [FieldID] + NotID(fields)
    {
      hide UpdateCheck, ValuesAccepted, FieldsOf, EmitsExactly, UPDATE_COLUMNS, ALL_COLUMNS, EdgeUpdate.Effect, EdgeUpdate.ProxyEffect;
      UpdateChecksExactly(rt, mutation);
      FieldsEmitExactly(mutation);
      var failed := UpdateCheck(rt, mutation);
      if failed.Some? {
        return Err(Invalid(failed.value));
      }
      if mutation.id.None? {
        return Err(MissingID);
      }
      var columns := NodeColumns();
      if columns.Err? {
        return Err(columns.error);
      }
      var edges := EmitEdges(mutation);
      return Ok(UpdateSpec(columns.value, mutation.id, mutation.predicates, FieldsOf(mutation, UPDATE_COLUMNS), edges));
    }
  }

  /** One mutation through both builders: AccountUpdateOne emits exactly when AccountUpdate does and it has an
      ID and a proper selection, and then both emit the same predicates and fields and the same edges, up
      to the order of the nodes of an edge. */
  method SaveBoth(rt: Runtime, m: UpdateMutation, selected: seq<Column>)
    returns (many: Result<UpdateSpec, UpdateError>, one: Result<UpdateSpec, UpdateError>)
    ensures one.Ok? <==> many.Ok? && m.id.Some? && forall c :: c in selected ==> !c.Unknown?
    ensures many.Err? ==> one == many
    ensures one.Ok? ==>
              && one.value.predicates == many.value.predicates && one.value.fields == many.value.fields
              && EdgeUpdate.Shape(one.value.edges.clear) == EdgeUpdate.Shape(many.value.edges.clear)
              && EdgeUpdate.Shape(one.value.edges.add) == EdgeUpdate.Shape(many.value.edges.add)
              && (forall links, e :: e != EdgeUpdate.Proxy ==>
                    EdgeUpdate.Applied(one.value.edges, e, links) == EdgeUpdate.Applied(many.value.edges, e, links))
              && (forall key :: EdgeUpdate.AppliedKey(one.value.edges, key) == EdgeUpdate.AppliedKey(many.value.edges, key))
  {
    hide UpdateCheck, ValuesAccepted, FieldsOf, EmitsExactly, UPDATE_COLUMNS, ALL_COLUMNS, EdgeUpdate.Applied, EdgeUpdate.AppliedKey, EdgeUpdate.Effect, EdgeUpdate.ProxyEffect;
    var update := new AccountUpdate(m);
    many := update.SqlSave(rt);
    var updateOne := new AccountUpdateOne(m, selected);
    one := updateOne.SqlSave(rt);
  }
}
