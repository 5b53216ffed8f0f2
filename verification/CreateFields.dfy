/** What a create mutation holds, column by column: SetField and Field of AccountMutation in
    backend/ent/mutation.go, and what defaults and createSpec of backend/ent/account_create.go make of it. */
module CreateFields {
  import opened Wrappers
  import opened AccountEntity
  import opened AccountCreate

  // ----- setting and reading one field of the mutation -----

  /** SetField; None models the error for a value of the wrong type or a name that is no field. */
  function SetField(m: MutationFields, c: Column, v: Cell): Option<MutationFields> {
    match c
    case FieldID | Unknown(_) => None
    case FieldRateMultiplier => if v.CFloat? then Some(m.(rateMultiplier := Some(v.f))) else None
    case TimeColumn(t) => if v.CTime? then Some(m.(times := m.times.Set(t, Some(v.t)))) else None
    case OptTimeColumn(t) => if v.CTime? then Some(m.(optTimes := m.optTimes.Set(t, Some(v.t)))) else None
    case TextColumn(t) => if v.CText? then Some(m.(texts := m.texts.Set(t, Some(v.s)))) else None
    case OptTextColumn(t) => if v.CText? then Some(m.(optTexts := m.optTexts.Set(t, Some(v.s)))) else None
    case JsonColumn(j) => if v.CJson? then Some(m.(jsons := m.jsons.Set(j, Some(v.j)))) else None
    case IntColumn(i) => if v.CInt? then Some(m.(ints := m.ints.Set(i, Some(v.i)))) else None
    case OptIntColumn(FieldProxyID) => if v.CInt? then Some(m.(proxy := Some(v.i))) else None
    case OptIntColumn(FieldLoadFactor) => if v.CInt? then Some(m.(loadFactor := Some(v.i))) else None
    case BoolColumn(b) => if v.CBool? then Some(m.(bools := m.bools.Set(b, Some(v.b)))) else None
  }

  /** Field: the value the mutation holds under a name. The proxy is kept as an edge but is a field by name. */
  function FieldOf(m: MutationFields, c: Column): Option<Cell> {
    if c == OptIntColumn(FieldProxyID) then (match m.proxy case Some(p) => Some(CInt(p)) case None => None)
    else CellOf(m, c)
  }

  /** Setting a field is read back under its own name and leaves every other field and the edges alone. */
  lemma SetThenField(m: MutationFields, c: Column, v: Cell, d: Column)
    requires SetField(m, c, v).Some?
    ensures var m' := SetField(m, c, v).value;
            && FieldOf(m', d) == (if d == c then Some(v) else FieldOf(m, d))
            && m'.groups == m.groups && m'.usageLogs == m.usageLogs
  {
  }

  /** Exactly the columns other than the ID can be set, each to values of its own type. */
  lemma SettableExactly(m: MutationFields, c: Column)
    ensures (exists v :: SetField(m, c, v).Some?) <==> !c.Unknown? && c != FieldID
  {
    match c {
      case FieldRateMultiplier => assert SetField(m, c, CFloat(0.0)).Some?;
      case TimeColumn(_) => assert SetField(m, c, CTime(0)).Some?;
      case OptTimeColumn(_) => assert SetField(m, c, CTime(0)).Some?;
      case TextColumn(_) => assert SetField(m, c, CText("")).Some?;
      case OptTextColumn(_) => assert SetField(m, c, CText("")).Some?;
      case JsonColumn(_) => assert SetField(m, c, CJson(None)).Some?;
      case IntColumn(_) => assert SetField(m, c, CInt(0)).Some?;
      case OptIntColumn(_) => assert SetField(m, c, CInt(0)).Some?;
      case BoolColumn(_) => assert SetField(m, c, CBool(false)).Some?;
      case _ =>
    }
  }

  // ----- defaults -----

  /** The columns that have a default, in the order in which defaults visits them. */
  const DEFAULTED: seq<Column> := [
    TimeColumn(FieldCreatedAt), TimeColumn(FieldUpdatedAt), JsonColumn(FieldCredentials), JsonColumn(FieldExtra),
    IntColumn(FieldConcurrency), IntColumn(FieldPriority), FieldRateMultiplier, TextColumn(FieldStatus),
    BoolColumn(FieldAutoPauseOnExpired), BoolColumn(FieldSchedulable)]

  /** A column's own default; only the first four can be nil. */
  function DefaultOf(rt: Runtime, c: Column): Option<Cell> {
    match c
    case TimeColumn(FieldCreatedAt) => (match rt.createdAt case Some(t) => Some(CTime(t)) case None => None)
    case TimeColumn(FieldUpdatedAt) => (match rt.updatedAt case Some(t) => Some(CTime(t)) case None => None)
    case JsonColumn(FieldCredentials) => (match rt.credentials case Some(j) => Some(CJson(j)) case None => None)
    case JsonColumn(FieldExtra) => (match rt.extra case Some(j) => Some(CJson(j)) case None => None)
    case IntColumn(FieldConcurrency) => Some(CInt(rt.concurrency))
    case IntColumn(FieldPriority) => Some(CInt(rt.priority))
    case FieldRateMultiplier => Some(CFloat(rt.rateMultiplier))
    case TextColumn(FieldStatus) => Some(CText(rt.status))
    case BoolColumn(FieldAutoPauseOnExpired) => Some(CBool(rt.autoPauseOnExpired))
    case BoolColumn(FieldSchedulable) => Some(CBool(rt.schedulable))
    case _ => None
  }

  /** The position, from k on, of the first unset column whose default is nil, or the number of columns. */
  function FirstBlocked(rt: Runtime, m: MutationFields, k: nat): (n: nat)
    requires k <= |DEFAULTED|
    ensures k <= n <= |DEFAULTED|
    ensures forall i :: k <= i < n ==> FieldOf(m, DEFAULTED[i]).Some? || DefaultOf(rt, DEFAULTED[i]).Some?
    ensures n < |DEFAULTED| ==> FieldOf(m, DEFAULTED[n]).None? && DefaultOf(rt, DEFAULTED[n]).None?
    decreases |DEFAULTED| - k
  {
    if k == |DEFAULTED| || (FieldOf(m, DEFAULTED[k]).None? && DefaultOf(rt, DEFAULTED[k]).None?) then k
    else FirstBlocked(rt, m, k + 1)
  }

  /** The unset nil defaults, in source order. */
  predicate Blocked(rt: Runtime, m: MutationFields, i: nat) {
    || (i == 0 && m.times.createdAt.None? && rt.createdAt.None?)
    || (i == 1 && m.times.updatedAt.None? && rt.updatedAt.None?)
    || (i == 2 && m.jsons.credentials.None? && rt.credentials.None?)
    || (i == 3 && m.jsons.extra.None? && rt.extra.None?)
  }

  lemma BlockedExactly(rt: Runtime, m: MutationFields, i: nat)
    requires i < |DEFAULTED|
    ensures FieldOf(m, DEFAULTED[i]).None? && DefaultOf(rt, DEFAULTED[i]).None? <==> Blocked(rt, m, i)
  {
  }

  lemma FirstBlockedByCase(rt: Runtime, m: MutationFields)
    ensures FirstBlocked(rt, m, 0) ==
            if Blocked(rt, m, 0) then 0 else if Blocked(rt, m, 1) then 1 else if Blocked(rt, m, 2) then 2
            else if Blocked(rt, m, 3) then 3 else |DEFAULTED|
  {
    forall i | 0 <= i < |DEFAULTED|
      ensures FieldOf(m, DEFAULTED[i]).None? && DefaultOf(rt, DEFAULTED[i]).None? <==> Blocked(rt, m, i)
    {
      BlockedExactly(rt, m, i);
    }
    var n := FirstBlocked(rt, m, 0);
    hide FirstBlocked, FieldOf, DefaultOf;
    assert forall i :: 4 <= i ==> !Blocked(rt, m, i);
    assert n < |DEFAULTED| ==> Blocked(rt, m, n);
  }

  /** The mutation when all defaults are in. */
  function Filled(rt: Runtime, m: MutationFields): MutationFields {
    m.(times := Times(OrElse(m.times.createdAt, rt.createdAt.GetOr(0)), OrElse(m.times.updatedAt, rt.updatedAt.GetOr(0))),
       jsons := Jsons(OrElse(m.jsons.credentials, rt.credentials.GetOr(None)), OrElse(m.jsons.extra, rt.extra.GetOr(None))),
       ints := Ints(OrElse(m.ints.concurrency, rt.concurrency), OrElse(m.ints.priority, rt.priority)),
       rateMultiplier := OrElse(m.rateMultiplier, rt.rateMultiplier),
       texts := m.texts.(status := OrElse(m.texts.status, rt.status)),
       bools := Bools(OrElse(m.bools.autoPauseOnExpired, rt.autoPauseOnExpired), OrElse(m.bools.schedulable, rt.schedulable)))
  }

  lemma DefaultsByCase(rt: Runtime, m: MutationFields)
    ensures var f := Filled(rt, m);
            Defaults(rt, m) ==
            if Blocked(rt, m, 0) then (m, Some(Uninitialized(TimeColumn(FieldCreatedAt))))
            else if Blocked(rt, m, 1) then
              (m.(times := m.times.(createdAt := f.times.createdAt)), Some(Uninitialized(TimeColumn(FieldUpdatedAt))))
            else if Blocked(rt, m, 2) then (m.(times := f.times), Some(Uninitialized(JsonColumn(FieldCredentials))))
            else if Blocked(rt, m, 3) then
              (m.(times := f.times, jsons := m.jsons.(credentials := f.jsons.credentials)), Some(Uninitialized(JsonColumn(FieldExtra))))
            else (f, None)
  {
  }

  lemma FilledField(rt: Runtime, m: MutationFields, c: Column)
    requires FieldOf(m, c).Some? || DefaultOf(rt, c).Some? || c !in DEFAULTED
    ensures FieldOf(Filled(rt, m), c) == if FieldOf(m, c).Some? then FieldOf(m, c) else DefaultOf(rt, c)
  {
    DefaultsListed(rt, c);
  }

  /** Columns outside the list have no default. */
  lemma DefaultsListed(rt: Runtime, c: Column)
    ensures DefaultOf(rt, c).Some? ==> c in DEFAULTED
  {
    match c {
      case TimeColumn(t) => assert c == DEFAULTED[if t.FieldCreatedAt? then 0 else 1];
      case JsonColumn(j) => assert c == DEFAULTED[if j.FieldCredentials? then 2 else 3];
      case IntColumn(i) => assert c == DEFAULTED[if i.FieldConcurrency? then 4 else 5];
      case FieldRateMultiplier => assert c == DEFAULTED[6];
      case TextColumn(FieldStatus) => assert c == DEFAULTED[7];
      case BoolColumn(b) => assert c == DEFAULTED[if b.FieldAutoPauseOnExpired? then 8 else 9];
      case _ =>
    }
  }

  lemma Prefixes()
    ensures DEFAULTED[..0] == [] && DEFAULTED[..1] == [TimeColumn(FieldCreatedAt)]
    ensures DEFAULTED[..2] == [TimeColumn(FieldCreatedAt), TimeColumn(FieldUpdatedAt)]
    ensures DEFAULTED[..3] == [TimeColumn(FieldCreatedAt), TimeColumn(FieldUpdatedAt), JsonColumn(FieldCredentials)]
    ensures DEFAULTED[..|DEFAULTED|] == DEFAULTED
  {
  }

  /** What defaults leaves when it stops early. */
  lemma StoppedField(rt: Runtime, m: MutationFields, c: Column, n: nat)
    requires n < 4 && Blocked(rt, m, n) && forall i :: 0 <= i < n ==> !Blocked(rt, m, i)
    ensures FieldOf(Defaults(rt, m).0, c) ==
            if FieldOf(m, c).Some? then FieldOf(m, c) else if c in DEFAULTED[..n] then DefaultOf(rt, c) else None
  {
    DefaultsByCase(rt, m);
    Prefixes();
    hide Defaults, DEFAULTED;
  }

  /** defaults, column by column: it stops at the first unset column whose default is nil and says so. A set
      value stays, an unset column before that point gets its own default, and everything else, the edges
      included, is as it was. */
  lemma DefaultsExactly(rt: Runtime, m: MutationFields, c: Column)
    ensures var n, d := FirstBlocked(rt, m, 0), Defaults(rt, m);
            && d.1 == (if n < |DEFAULTED| then Some(Uninitialized(DEFAULTED[n])) else None)
            && FieldOf(d.0, c) == (if FieldOf(m, c).Some? then FieldOf(m, c)
                                   else if c in DEFAULTED[..n] then DefaultOf(rt, c) else None)
            && d.0.groups == m.groups && d.0.usageLogs == m.usageLogs
  {
    var n := FirstBlocked(rt, m, 0);
    DefaultsByCase(rt, m);
    FirstBlockedByCase(rt, m);
    hide FirstBlocked, Defaults, FieldOf, DefaultOf;
    if n < 4 {
      StoppedField(rt, m, c, n);
    } else {
      Prefixes();
      DefaultsListed(rt, c);
      if c in DEFAULTED {
        var i :| 0 <= i < |DEFAULTED| && DEFAULTED[i] == c;
        BlockedExactly(rt, m, i);
      }
      hide DEFAULTED;
      FilledField(rt, m, c);
    }
  }

  // ----- createSpec -----

  /** A held value as a field of the node; optional columns hold a pointer to it. */
  function ValueOf(c: Column, v: Cell): FieldValue {
    match v
    case CInt(i) => if c.OptIntColumn? then VOptInt(Some(i)) else VInt(i)
    case CTime(t) => if c.OptTimeColumn? then VOptTime(Some(t)) else VTime(t)
    case CText(s) => if c.OptTextColumn? then VOptText(Some(s)) else VText(s)
    case CFloat(f) => VFloat(f)
    case CBool(b) => VBool(b)
    case CJson(j) => VJson(j)
  }

  /** The value a column has in a new row: what the mutation holds, or the zero of a fresh node. */
  function Created(m: MutationFields, c: Column): FieldValue {
    match FieldOf(m, c)
    case Some(v) => ValueOf(c, v)
    case None => Get(ZERO, c)
  }

  /** The zero of a fresh node: nothing for optional columns and documents, and Go's zero otherwise. */
  lemma ZeroByType(c: Column)
    ensures Get(ZERO, c) ==
            match NewContainer(c)
            case RawBytes(_) => VJson(None)
            case NullBool(_) => VBool(false)
            case NullFloat64(_) => VFloat(0.0)
            case NullInt64(_) => if c.OptIntColumn? then VOptInt(None) else VInt(0)
            case NullString(_) => if c.OptTextColumn? then VOptText(None) else VText("")
            case NullTime(_) => if c.OptTimeColumn? then VOptTime(None) else VTime(0)
            case UnknownType(_) => VNone
  {
  }

  /** The node that createSpec returns shows each held value in its own column. */
  lemma NodeShows(m: MutationFields, id: int, c: Column)
    ensures Get(NodeOf(m).(id := id), c) == if c == FieldID then VInt(id) else Created(m, c)
  {
  }

  /** The row holds each value in its own column: read back through any column list, every listed column has
      the value the mutation holds, and an unset one is zero. */
  lemma RowShows(rt: Runtime, codec: JsonCodec, m: MutationFields, id: int, columns: seq<Column>, c: Column)
    requires codec.Lossless() && Check(rt, m).None? && c in columns
    ensures var values := StoredRow(codec, SpecOf(m), id, columns);
            && (forall i :: 0 <= i < |columns| ==> Acceptable(codec, columns[i], values[i]))
            && AbsorbAll(codec, c, Get(ZERO, c), columns, values) == if c == FieldID then VInt(id) else Created(m, c)
  {
    hide Get, NodeOf, SpecOf, Check, Created, AbsorbAll, Acceptable, StoredRow, JsonCodec.Lossless;
    RoundTrip(rt, codec, m, id, columns, c);
    NodeShows(m, id, c);
  }

  /** Setting one column changes that column of the row and no other. */
  lemma SetChangesOne(codec: JsonCodec, m: MutationFields, c: Column, v: Cell, id: int, d: Column)
    requires SetField(m, c, v).Some? && d != c
    ensures Stored(codec, SpecOf(SetField(m, c, v).value), id, d) == Stored(codec, SpecOf(m), id, d)
    ensures Get(NodeOf(SetField(m, c, v).value), d) == Get(NodeOf(m), d)
  {
    var m' := SetField(m, c, v).value;
    SetThenField(m, c, v, d);
    hide SetField;
    if d == OptIntColumn(FieldProxyID) {
      assert m'.proxy == m.proxy;
      StoredForeignKey(m);
      StoredForeignKey(m');
    } else if d != FieldID {
      hide Stored, SpecOf;
      StoredCell(codec, m, id, d);
      StoredCell(codec, m', id, d);
    }
    hide Stored, SpecOf, NodeOf, CellOf;
    NodeShows(m, 0, d);
    NodeShows(m', 0, d);
    NodeIdIsZero(m);
    NodeIdIsZero(m');
  }

  lemma NodeIdIsZero(m: MutationFields)
    ensures NodeOf(m).id == 0
  {
  }

  /** Set a column of an accepted mutation, create, read the row: the value is there, under its own column. */
  lemma SetThenRead(rt: Runtime, codec: JsonCodec, m: MutationFields, c: Column, v: Cell, id: int, columns: seq<Column>)
    requires codec.Lossless() && SetField(m, c, v).Some? && Check(rt, SetField(m, c, v).value).None? && c in columns
    ensures var values := StoredRow(codec, SpecOf(SetField(m, c, v).value), id, columns);
            && (forall i :: 0 <= i < |columns| ==> Acceptable(codec, columns[i], values[i]))
            && AbsorbAll(codec, c, Get(ZERO, c), columns, values) == ValueOf(c, v)
  {
    SetThenField(m, c, v, c);
    assert c != FieldID;
    hide Get, SpecOf, Check, AbsorbAll, Acceptable, StoredRow, JsonCodec.Lossless, SetField, FieldOf, ValueOf;
    RowShows(rt, codec, SetField(m, c, v).value, id, columns, c);
  }

  // ----- edges of the spec -----

  /** The nodes that the specs of an edge link to. */
  ghost function Linked(edges: seq<EdgeSpec>, rel: Relation, edge: EdgeName): set<int> {
    set e, n | e in edges && e.rel == rel && e.edge == edge && n in e.nodes :: n
  }

  lemma LinkedIs(edges: seq<EdgeSpec>, rel: Relation, edge: EdgeName, nodes: set<int>)
    requires forall e :: e in edges && e.rel == rel && e.edge == edge ==> e.nodes == nodes
    requires nodes != {} ==> EdgeSpec(rel, edge, nodes) in edges
    ensures Linked(edges, rel, edge) == nodes
  {
    forall n | n in nodes ensures n in Linked(edges, rel, edge) {
      var e := EdgeSpec(rel, edge, nodes);
      assert e in edges && n in e.nodes;
    }
  }

  lemma EdgeMembers(m: MutationFields, e: EdgeSpec)
    ensures e in SpecOf(m).edges <==>
            || (m.groups != {} && e == EdgeSpec(M2M, GroupsEdge, m.groups))
            || (m.proxy.Some? && e == EdgeSpec(M2O, ProxyEdge, {m.proxy.value}))
            || (m.usageLogs != {} && e == EdgeSpec(O2M, UsageLogsEdge, m.usageLogs))
  {
    assert SpecOf(m).edges == EdgesOf(m);
    hide SpecOf;
  }

  /** The specs link exactly the groups, the proxy and the usage logs of the mutation, each by its own relation,
      and no spec is empty or of another kind. */
  lemma EdgesExactly(m: MutationFields)
    ensures Linked(SpecOf(m).edges, M2M, GroupsEdge) == m.groups
    ensures Linked(SpecOf(m).edges, M2O, ProxyEdge) == if m.proxy.Some? then {m.proxy.value} else {}
    ensures Linked(SpecOf(m).edges, O2M, UsageLogsEdge) == m.usageLogs
    ensures forall e :: e in SpecOf(m).edges ==>
                          e.nodes != {} && (e.rel, e.edge) in {(M2M, GroupsEdge), (M2O, ProxyEdge), (O2M, UsageLogsEdge)}
  {
    hide SpecOf, Linked;
    forall e: EdgeSpec
      ensures e in SpecOf(m).edges <==>
              || (m.groups != {} && e == EdgeSpec(M2M, GroupsEdge, m.groups))
              || (m.proxy.Some? && e == EdgeSpec(M2O, ProxyEdge, {m.proxy.value}))
              || (m.usageLogs != {} && e == EdgeSpec(O2M, UsageLogsEdge, m.usageLogs))
    {
      EdgeMembers(m, e);
    }
    LinkedIs(SpecOf(m).edges, M2M, GroupsEdge, m.groups);
    LinkedIs(SpecOf(m).edges, M2O, ProxyEdge, if m.proxy.Some? then {m.proxy.value} else {});
    LinkedIs(SpecOf(m).edges, O2M, UsageLogsEdge, m.usageLogs);
  }
}
