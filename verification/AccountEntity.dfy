/** The Account entity of backend/ent/account.go: its columns and fields, the containers a row is
    scanned into, scanValues, assignValues and the edges filled by eager loading.

    Columns are grouped as the switch of scanValues groups them, by the container they scan into,
    and further by whether the entity holds the value or a pointer to it. */
module AccountEntity {
  import opened Wrappers

  type Time = int
  type Bytes = seq<bv8>

  /** A decoded JSON object; None is the nil map, which encodes as null. */
  type JsonMap = Option<map<string, string>>

  // ----- columns and fields -----

  datatype TimeCol = FieldCreatedAt | FieldUpdatedAt
  datatype OptTimeCol =
    | FieldDeletedAt | FieldLastUsedAt | FieldExpiresAt | FieldRateLimitedAt | FieldRateLimitResetAt
    | FieldOverloadUntil | FieldTempUnschedulableUntil | FieldSessionWindowStart | FieldSessionWindowEnd
  datatype TextCol = FieldName | FieldPlatform | FieldType | FieldStatus
  datatype OptTextCol = FieldNotes | FieldErrorMessage | FieldTempUnschedulableReason | FieldSessionWindowStatus
  datatype JsonCol = FieldCredentials | FieldExtra
  datatype IntCol = FieldConcurrency | FieldPriority
  datatype OptIntCol = FieldProxyID | FieldLoadFactor
  datatype BoolCol = FieldAutoPauseOnExpired | FieldSchedulable

  /** A column name: one of the 29 of backend/ent/account/account.go, or any other name. */
  datatype Column =
    | FieldID | FieldRateMultiplier
    | TimeColumn(time: TimeCol) | OptTimeColumn(optTime: OptTimeCol)
    | TextColumn(text: TextCol) | OptTextColumn(optText: OptTextCol)
    | JsonColumn(json: JsonCol)
    | IntColumn(int_: IntCol) | OptIntColumn(optInt: OptIntCol)
    | BoolColumn(bool_: BoolCol)
    | Unknown(name: string)

  datatype Times<T> = Times(createdAt: T, updatedAt: T) {
    function Get(c: TimeCol): T {
      match c
      case FieldCreatedAt => createdAt
      case FieldUpdatedAt => updatedAt
    }
    function Set(c: TimeCol, v: T): (r: Times<T>)
      ensures forall d :: r.Get(d) == if d == c then v else Get(d)
    {
      match c
      case FieldCreatedAt => this.(createdAt := v)
      case FieldUpdatedAt => this.(updatedAt := v)
    }
  }

  datatype OptTimes = OptTimes(
    deletedAt: Option<Time>, lastUsedAt: Option<Time>, expiresAt: Option<Time>,
    rateLimitedAt: Option<Time>, rateLimitResetAt: Option<Time>, overloadUntil: Option<Time>,
    tempUnschedulableUntil: Option<Time>, sessionWindowStart: Option<Time>, sessionWindowEnd: Option<Time>)
  {
    function Get(c: OptTimeCol): Option<Time> {
      match c
      case FieldDeletedAt => deletedAt
      case FieldLastUsedAt => lastUsedAt
      case FieldExpiresAt => expiresAt
      case FieldRateLimitedAt => rateLimitedAt
      case FieldRateLimitResetAt => rateLimitResetAt
      case FieldOverloadUntil => overloadUntil
      case FieldTempUnschedulableUntil => tempUnschedulableUntil
      case FieldSessionWindowStart => sessionWindowStart
      case FieldSessionWindowEnd => sessionWindowEnd
    }
    function Set(c: OptTimeCol, v: Option<Time>): (r: OptTimes)
      ensures forall d :: r.Get(d) == if d == c then v else Get(d)
    {
      match c
      case FieldDeletedAt => this.(deletedAt := v)
      case FieldLastUsedAt => this.(lastUsedAt := v)
      case FieldExpiresAt => this.(expiresAt := v)
      case FieldRateLimitedAt => this.(rateLimitedAt := v)
      case FieldRateLimitResetAt => this.(rateLimitResetAt := v)
      case FieldOverloadUntil => this.(overloadUntil := v)
      case FieldTempUnschedulableUntil => this.(tempUnschedulableUntil := v)
      case FieldSessionWindowStart => this.(sessionWindowStart := v)
      case FieldSessionWindowEnd => this.(sessionWindowEnd := v)
    }
  }

  datatype Texts<T> = Texts(name: T, platform: T, typ: T, status: T) {
    function Get(c: TextCol): T {
      match c
      case FieldName => name
      case FieldPlatform => platform
      case FieldType => typ
      case FieldStatus => status
    }
    function Set(c: TextCol, v: T): (r: Texts<T>)
      ensures forall d :: r.Get(d) == if d == c then v else Get(d)
    {
      match c
      case FieldName => this.(name := v)
      case FieldPlatform => this.(platform := v)
      case FieldType => this.(typ := v)
      case FieldStatus => this.(status := v)
    }
  }

  datatype OptTexts = OptTexts(
    notes: Option<string>, errorMessage: Option<string>, tempUnschedulableReason: Option<string>, sessionWindowStatus: Option<string>)
  {
    function Get(c: OptTextCol): Option<string> {
      match c
      case FieldNotes => notes
      case FieldErrorMessage => errorMessage
      case FieldTempUnschedulableReason => tempUnschedulableReason
      case FieldSessionWindowStatus => sessionWindowStatus
    }
    function Set(c: OptTextCol, v: Option<string>): (r: OptTexts)
      ensures forall d :: r.Get(d) == if d == c then v else Get(d)
    {
      match c
      case FieldNotes => this.(notes := v)
      case FieldErrorMessage => this.(errorMessage := v)
      case FieldTempUnschedulableReason => this.(tempUnschedulableReason := v)
      case FieldSessionWindowStatus => this.(sessionWindowStatus := v)
    }
  }

  datatype Jsons<T> = Jsons(credentials: T, extra: T) {
    function Get(c: JsonCol): T {
      match c
      case FieldCredentials => credentials
      case FieldExtra => extra
    }
    function Set(c: JsonCol, v: T): (r: Jsons<T>)
      ensures forall d :: r.Get(d) == if d == c then v else Get(d)
    {
      match c
      case FieldCredentials => this.(credentials := v)
      case FieldExtra => this.(extra := v)
    }
  }

  datatype Ints<T> = Ints(concurrency: T, priority: T) {
    function Get(c: IntCol): T {
      match c
      case FieldConcurrency => concurrency
      case FieldPriority => priority
    }
    function Set(c: IntCol, v: T): (r: Ints<T>)
      ensures forall d :: r.Get(d) == if d == c then v else Get(d)
    {
      match c
      case FieldConcurrency => this.(concurrency := v)
      case FieldPriority => this.(priority := v)
    }
  }

  datatype OptInts = OptInts(proxyId: Option<int>, loadFactor: Option<int>) {
    function Get(c: OptIntCol): Option<int> {
      match c
      case FieldProxyID => proxyId
      case FieldLoadFactor => loadFactor
    }
    function Set(c: OptIntCol, v: Option<int>): (r: OptInts)
      ensures forall d :: r.Get(d) == if d == c then v else Get(d)
    {
      match c
      case FieldProxyID => this.(proxyId := v)
      case FieldLoadFactor => this.(loadFactor := v)
    }
  }

  datatype Bools<T> = Bools(autoPauseOnExpired: T, schedulable: T) {
    function Get(c: BoolCol): T {
      match c
      case FieldAutoPauseOnExpired => autoPauseOnExpired
      case FieldSchedulable => schedulable
    }
    function Set(c: BoolCol, v: T): (r: Bools<T>)
      ensures forall d :: r.Get(d) == if d == c then v else Get(d)
    {
      match c
      case FieldAutoPauseOnExpired => this.(autoPauseOnExpired := v)
      case FieldSchedulable => this.(schedulable := v)
    }
  }

  /** The column fields of an Account node. */
  datatype AccountCols = AccountCols(
    id: int, rateMultiplier: real,
    times: Times<Time>, optTimes: OptTimes, texts: Texts<string>, optTexts: OptTexts,
    jsons: Jsons<JsonMap>, ints: Ints<int>, optInts: OptInts, bools: Bools<bool>)

  /** A freshly allocated node. */
  const ZERO: AccountCols :=
    AccountCols(0, 0.0, Times(0, 0), OptTimes(None, None, None, None, None, None, None, None, None),
                Texts("", "", "", ""), OptTexts(None, None, None, None),
                Jsons(None, None), Ints(0, 0), OptInts(None, None), Bools(false, false))

  /** The value of one field, whatever its type. */
  datatype FieldValue =
    | VInt(i: int) | VOptInt(oi: Option<int>) | VTime(t: Time) | VOptTime(ot: Option<Time>)
    | VText(s: string) | VOptText(os: Option<string>) | VFloat(f: real) | VBool(b: bool) | VJson(j: JsonMap)
    | VNone

  function Get(cols: AccountCols, c: Column): FieldValue {
    match c
    case FieldID => VInt(cols.id)
    case FieldRateMultiplier => VFloat(cols.rateMultiplier)
    case TimeColumn(t) => VTime(cols.times.Get(t))
    case OptTimeColumn(t) => VOptTime(cols.optTimes.Get(t))
    case TextColumn(t) => VText(cols.texts.Get(t))
    case OptTextColumn(t) => VOptText(cols.optTexts.Get(t))
    case JsonColumn(j) => VJson(cols.jsons.Get(j))
    case IntColumn(i) => VInt(cols.ints.Get(i))
    case OptIntColumn(i) => VOptInt(cols.optInts.Get(i))
    case BoolColumn(b) => VBool(cols.bools.Get(b))
    case Unknown(_) => VNone
  }

  // ----- scanning a row -----

  /** The scan destinations of database/sql: None is SQL NULL, and RawBytes is empty for it. */
  datatype Container =
    | RawBytes(bytes: Bytes) | NullBool(b: Option<bool>) | NullFloat64(f: Option<real>)
    | NullInt64(i: Option<int>) | NullString(s: Option<string>) | NullTime(t: Option<Time>)
    | UnknownType(any: Option<string>)

  /** The switch of scanValues. */
  function NewContainer(c: Column): Container {
    match c
    case JsonColumn(_) => RawBytes([])
    case BoolColumn(_) => NullBool(None)
    case FieldRateMultiplier => NullFloat64(None)
    case FieldID | OptIntColumn(_) | IntColumn(_) => NullInt64(None)
    case TextColumn(_) | OptTextColumn(_) => NullString(None)
    case TimeColumn(_) | OptTimeColumn(_) => NullTime(None)
    case Unknown(_) => UnknownType(None)
  }

  predicate SameType(a: Container, b: Container) {
    match a
    case RawBytes(_) => b.RawBytes?
    case NullBool(_) => b.NullBool?
    case NullFloat64(_) => b.NullFloat64?
    case NullInt64(_) => b.NullInt64?
    case NullString(_) => b.NullString?
    case NullTime(_) => b.NullTime?
    case UnknownType(_) => b.UnknownType?
  }

  /** scanValues: one fresh container for each column, in order. */
  method ScanValues(columns: seq<Column>) returns (values: array<Container>)
    ensures fresh(values)
    ensures values.Length == |columns|
    ensures forall i :: 0 <= i < |columns| ==> values[i] == NewContainer(columns[i])
  {
    values := new Container[|columns|](_ => UnknownType(None));
    for i := 0 to |columns|
      invariant forall j :: 0 <= j < i ==> values[j] == NewContainer(columns[j])
    {
      values[i] := NewContainer(columns[i]);
    }
  }

  // ----- assigning a row -----

  /** encoding/json on map[string]interface{}; None models an unmarshal error. */
  datatype JsonCodec = JsonCodec(marshal: JsonMap -> Bytes, unmarshal: Bytes -> Option<JsonMap>) {
    ghost predicate Lossless() {
      forall m :: marshal(m) != [] && unmarshal(marshal(m)) == Some(m)
    }
  }

  datatype AssignError = TooFewValues | UnexpectedType(c: Column) | BadJson(c: Column)

  /** json.Unmarshal into a field that may already hold a map: null stores the nil map, an object
      is merged into the map that is there. */
  function Unmarshal(codec: JsonCodec, current: JsonMap, bytes: Bytes): Option<JsonMap> {
    if bytes == [] then Some(current)
    else
      match codec.unmarshal(bytes)
      case None => None
      case Some(None) => Some(None)
      case Some(Some(m)) => Some(Some(current.GetOr(map[]) + m))
  }

  /** One case of the switch in assignValues; a column the entity does not have leaves it alone. */
  function AssignOne(codec: JsonCodec, cols: AccountCols, c: Column, v: Container): Result<AccountCols, AssignError> {
    var mismatch := Err(UnexpectedType(c));
    match c
    case FieldID =>
      if !v.NullInt64? then mismatch else Ok(cols.(id := v.i.GetOr(0)))
    case FieldRateMultiplier =>
      if !v.NullFloat64? then mismatch else Ok(if v.f.Some? then cols.(rateMultiplier := v.f.value) else cols)
    case TimeColumn(t) =>
      if !v.NullTime? then mismatch else Ok(if v.t.Some? then cols.(times := cols.times.Set(t, v.t.value)) else cols)
    case OptTimeColumn(t) =>
      if !v.NullTime? then mismatch else Ok(if v.t.Some? then cols.(optTimes := cols.optTimes.Set(t, v.t)) else cols)
    case TextColumn(t) =>
      if !v.NullString? then mismatch else Ok(if v.s.Some? then cols.(texts := cols.texts.Set(t, v.s.value)) else cols)
    case OptTextColumn(t) =>
      if !v.NullString? then mismatch else Ok(if v.s.Some? then cols.(optTexts := cols.optTexts.Set(t, v.s)) else cols)
    case JsonColumn(j) =>
      if !v.RawBytes? then mismatch
      else (match Unmarshal(codec, cols.jsons.Get(j), v.bytes)
            case None => Err(BadJson(c))
            case Some(m) => Ok(cols.(jsons := cols.jsons.Set(j, m))))
    case IntColumn(i) =>
      if !v.NullInt64? then mismatch else Ok(if v.i.Some? then cols.(ints := cols.ints.Set(i, v.i.value)) else cols)
    case OptIntColumn(i) =>
      if !v.NullInt64? then mismatch else Ok(if v.i.Some? then cols.(optInts := cols.optInts.Set(i, v.i)) else cols)
    case BoolColumn(b) =>
      if !v.NullBool? then mismatch else Ok(if v.b.Some? then cols.(bools := cols.bools.Set(b, v.b.value)) else cols)
    case Unknown(_) => Ok(cols)
  }

  // ----- what assigning means, field by field -----

  /** The container fits the column, and its JSON, if any, decodes. */
  predicate Acceptable(codec: JsonCodec, c: Column, v: Container) {
    c.Unknown? ||
    (SameType(NewContainer(c), v) && (c.JsonColumn? && v.bytes != [] ==> codec.unmarshal(v.bytes).Some?))
  }

  /** The error for a container that is not acceptable: of the wrong type, or with JSON that does not decode. */
  function ErrorOf(c: Column, v: Container): AssignError {
    if SameType(NewContainer(c), v) then BadJson(c) else UnexpectedType(c)
  }

  /** The non-NULL value a container gives the field of its column. */
  function Scanned(c: Column, v: Container): Option<FieldValue> {
    match v
    case NullInt64(Some(i)) => Some(if c.OptIntColumn? then VOptInt(Some(i)) else VInt(i))
    case NullTime(Some(t)) => Some(if c.OptTimeColumn? then VOptTime(Some(t)) else VTime(t))
    case NullString(Some(s)) => Some(if c.OptTextColumn? then VOptText(Some(s)) else VText(s))
    case NullFloat64(Some(f)) => Some(VFloat(f))
    case NullBool(Some(b)) => Some(VBool(b))
    case _ => if c.FieldID? then Some(VInt(0)) else None
  }

  /** The value of field c after one container: NULL keeps what is there, except that the ID becomes
      0; a value replaces it, except that JSON objects are merged. */
  function Absorb(codec: JsonCodec, c: Column, cur: FieldValue, v: Container): FieldValue
    requires Acceptable(codec, c, v)
  {
    if c.Unknown? then cur
    else if c.JsonColumn? then
      if cur.VJson? then VJson(Unmarshal(codec, cur.j, v.bytes).value) else cur
    else Scanned(c, v).GetOr(cur)
  }

  /** Assigning a column succeeds exactly on an acceptable container, changes its own field as
      Absorb says, and no other field. */
  lemma AssignOneFrame(codec: JsonCodec, cols: AccountCols, c: Column, v: Container, d: Column)
    ensures AssignOne(codec, cols, c, v).Ok? <==> Acceptable(codec, c, v)
    ensures AssignOne(codec, cols, c, v).Err? ==> AssignOne(codec, cols, c, v).error == ErrorOf(c, v)
    ensures AssignOne(codec, cols, c, v).Ok? ==>
              Get(AssignOne(codec, cols, c, v).value, d) == if d == c then Absorb(codec, c, Get(cols, c), v) else Get(cols, d)
  {
  }

  // ----- a whole row -----

  /** The first position whose container cannot be assigned, or |columns|. */
  function FirstBad(codec: JsonCodec, columns: seq<Column>, values: seq<Container>): (n: nat)
    requires |columns| <= |values|
    ensures n <= |columns|
    ensures forall i :: 0 <= i < n ==> Acceptable(codec, columns[i], values[i])
    ensures n < |columns| ==> !Acceptable(codec, columns[n], values[n])
  {
    if columns == [] || !Acceptable(codec, columns[0], values[0]) then 0
    else 1 + FirstBad(codec, columns[1..], values[1..])
  }

  /** The value of field d after a row: its own occurrences in order, and nothing else. */
  function AbsorbAll(codec: JsonCodec, d: Column, cur: FieldValue, columns: seq<Column>, values: seq<Container>): FieldValue
    requires |columns| == |values|
    requires forall i :: 0 <= i < |columns| ==> Acceptable(codec, columns[i], values[i])
    decreases |columns|
  {
    if columns == [] then cur
    else
      var n := |columns| - 1;
      var before := AbsorbAll(codec, d, cur, columns[..n], values[..n]);
      if columns[n] == d then Absorb(codec, d, before, values[n]) else before
  }

  /** selectValues after a row: the last value under each name the entity does not know. */
  function SelectAll(cur: map<string, Container>, columns: seq<Column>, values: seq<Container>): map<string, Container>
    requires |columns| == |values|
    decreases |columns|
  {
    if columns == [] then cur
    else
      var n := |columns| - 1;
      var before := SelectAll(cur, columns[..n], values[..n]);
      if columns[n].Unknown? then before[columns[n].name := values[n]] else before
  }

  lemma SelectAllSnoc(cur: map<string, Container>, columns: seq<Column>, values: seq<Container>, n: nat)
    requires n < |columns| <= |values|
    ensures SelectAll(cur, columns[..n + 1], values[..n + 1]) ==
            var before := SelectAll(cur, columns[..n], values[..n]);
            if columns[n].Unknown? then before[columns[n].name := values[n]] else before
  {
    assert columns[..n + 1][..n] == columns[..n] && values[..n + 1][..n] == values[..n];
  }

  lemma AbsorbAllSnoc(codec: JsonCodec, d: Column, cur: FieldValue, columns: seq<Column>, values: seq<Container>, n: nat)
    requires n < |columns| <= |values|
    requires forall i :: 0 <= i <= n ==> Acceptable(codec, columns[i], values[i])
    ensures AbsorbAll(codec, d, cur, columns[..n + 1], values[..n + 1]) ==
            var before := AbsorbAll(codec, d, cur, columns[..n], values[..n]);
            if columns[n] == d then Absorb(codec, d, before, values[n]) else before
  {
    assert columns[..n + 1][..n] == columns[..n] && values[..n + 1][..n] == values[..n];
  }

  // ----- edges -----

  /** A group as it was read: its ID and the containers of its other columns. */
  datatype Group = Group(id: int, fields: map<string, Container>)
  datatype Proxy = Proxy(id: int, payload: string)
  datatype UsageLog = UsageLog(id: int, accountId: int, payload: string)
  datatype AccountGroup = AccountGroup(accountId: int, groupId: int, payload: string)

  /** loadedTypes: which edges the query asked for. */
  datatype Loaded = Loaded(groups: bool, proxy: bool, usageLogs: bool, accountGroups: bool)

  datatype EdgeError = NotLoaded | NotFound

  datatype AccountEdges = AccountEdges(
    groups: seq<Group>, proxy: Option<Proxy>, usageLogs: seq<UsageLog>, accountGroups: seq<AccountGroup>, loaded: Loaded)
  {
    function GroupsOrErr(): Result<seq<Group>, EdgeError> {
      if loaded.groups then Ok(groups) else Err(NotLoaded)
    }

    function ProxyOrErr(): Result<Proxy, EdgeError> {
      if proxy.Some? then Ok(proxy.value) else if loaded.proxy then Err(NotFound) else Err(NotLoaded)
    }

    function UsageLogsOrErr(): Result<seq<UsageLog>, EdgeError> {
      if loaded.usageLogs then Ok(usageLogs) else Err(NotLoaded)
    }

    function AccountGroupsOrErr(): Result<seq<AccountGroup>, EdgeError> {
      if loaded.accountGroups then Ok(accountGroups) else Err(NotLoaded)
    }
  }

  const NO_EDGES := AccountEdges([], None, [], [], Loaded(false, false, false, false))

  class Account {
    var cols: AccountCols
    var selectValues: map<string, Container>
    var edges: AccountEdges

    constructor ()
      ensures cols == ZERO && selectValues == map[] && edges == NO_EDGES
    {
      cols, selectValues, edges := ZERO, map[], NO_EDGES;
    }

    /** assignValues. Fields are written up to the first container that does not fit; every field
        is then determined by the occurrences of its own column before that point. */
    method AssignValues(codec: JsonCodec, columns: seq<Column>, values: seq<Container>) returns (err: Option<AssignError>)
      modifies this`cols, this`selectValues
      ensures |values| < |columns| ==> err == Some(TooFewValues) && cols == old(cols) && selectValues == old(selectValues)
      ensures |columns| <= |values| ==>
                var n := FirstBad(codec, columns, values);
                && err == (if n == |columns| then None else Some(ErrorOf(columns[n], values[n])))
                && (forall d: Column :: Get(cols, d) == AbsorbAll(codec, d, Get(old(cols), d), columns[..n], values[..n]))
                && selectValues == SelectAll(old(selectValues), columns[..n], values[..n])
    {
      if |values| < |columns| {
        return Some(TooFewValues);
      }
      hide Get, Absorb, Acceptable, AssignOne, SelectAll, ErrorOf;
      for i := 0 to |columns|
        invariant i <= FirstBad(codec, columns, values)
        invariant forall d: Column :: Get(cols, d) == AbsorbAll(codec, d, Get(old(cols), d), columns[..i], values[..i])
        invariant selectValues == SelectAll(old(selectValues), columns[..i], values[..i])
      {
        var c, v := columns[i], values[i];
        forall d: Column
          ensures AssignOne(codec, cols, c, v).Ok? <==> Acceptable(codec, c, v)
          ensures AssignOne(codec, cols, c, v).Ok? ==>
                    Get(AssignOne(codec, cols, c, v).value, d) ==
                    AbsorbAll(codec, d, Get(old(cols), d), columns[..i + 1], values[..i + 1])
        {
          AssignOneFrame(codec, cols, c, v, d);
          if Acceptable(codec, c, v) {
            AbsorbAllSnoc(codec, d, Get(old(cols), d), columns, values, i);
          }
        }
        AssignOneFrame(codec, cols, c, v, c);
        SelectAllSnoc(old(selectValues), columns, values, i);
        var r := AssignOne(codec, cols, c, v);
        if r.Err? {
          return Some(r.error);
        }
        cols := r.value;
        if c.Unknown? {
          selectValues := selectValues[c.name := v];
        }
      }
      return None;
    }
  }

  // ----- consequences -----

  /** The containers of scanValues, whatever the driver writes into them, never cause a type or
      length error; only JSON that does not decode can stop the assignment. */
  lemma ScannedRowFits(codec: JsonCodec, columns: seq<Column>, values: seq<Container>)
    requires |values| == |columns|
    requires forall i :: 0 <= i < |columns| ==> SameType(NewContainer(columns[i]), values[i])
    ensures var n := FirstBad(codec, columns, values);
            n < |columns| ==> columns[n].JsonColumn? && values[n].bytes != [] && codec.unmarshal(values[n].bytes).None?
  {
  }

  /** NULL leaves the node as it is, except that a NULL ID makes the ID zero. */
  lemma NullKeeps(codec: JsonCodec, cols: AccountCols, c: Column)
    ensures AssignOne(codec, cols, c, NewContainer(c)) == Ok(if c.FieldID? then cols.(id := 0) else cols)
  {
    if c.JsonColumn? {
      assert cols.jsons.Set(c.json, cols.jsons.Get(c.json)) == cols.jsons;
    }
  }

  /** A second JSON object is merged into the first: its keys win and the others stay. */
  lemma JsonMerges(codec: JsonCodec, cols: AccountCols, j: JsonCol, bytes: Bytes, here: map<string, string>, there: map<string, string>, k: string)
    requires cols.jsons.Get(j) == Some(here) && bytes != [] && codec.unmarshal(bytes) == Some(Some(there))
    ensures AssignOne(codec, cols, JsonColumn(j), RawBytes(bytes)).Ok?
    ensures var after := AssignOne(codec, cols, JsonColumn(j), RawBytes(bytes)).value.jsons.Get(j);
            && after.Some? && (k in after.value <==> k in here || k in there)
            && (k in there ==> after.value[k] == there[k]) && (k in here && k !in there ==> after.value[k] == here[k])
  {
  }

  /** Under a name the entity does not know, selectValues holds the last value of the row, and what was there before
      if the row has none. */
  lemma {:induction false} SelectedExactly(cur: map<string, Container>, columns: seq<Column>, values: seq<Container>, name: string, k: nat)
    requires |columns| == |values| && k <= |columns|
    requires forall i :: k <= i < |columns| ==> columns[i] != Unknown(name)
    requires k > 0 ==> columns[k - 1] == Unknown(name)
    ensures var all := SelectAll(cur, columns, values);
            if k > 0 then name in all && all[name] == values[k - 1]
            else (name in all <==> name in cur) && (name in cur ==> all[name] == cur[name])
    decreases |columns|
  {
    var n := |columns|;
    if n > k {
      SelectedExactly(cur, columns[..n - 1], values[..n - 1], name, k);
    }
  }

  /** The last non-NULL occurrence of a column decides its field, so NULLs leave it untouched. */
  lemma {:induction false} LastValueWins(codec: JsonCodec, d: Column, cur: FieldValue, columns: seq<Column>, values: seq<Container>, k: nat)
    requires |columns| == |values| && k <= |columns| && !d.Unknown? && !d.JsonColumn?
    requires forall i :: 0 <= i < |columns| ==> Acceptable(codec, columns[i], values[i])
    requires forall i :: k <= i < |columns| && columns[i] == d ==> Scanned(d, values[i]).None?
    requires k > 0 ==> columns[k - 1] == d && Scanned(d, values[k - 1]).Some?
    ensures AbsorbAll(codec, d, cur, columns, values) == if k == 0 then cur else Scanned(d, values[k - 1]).value
    decreases |columns|
  {
    var n := |columns|;
    if n > k {
      LastValueWins(codec, d, cur, columns[..n - 1], values[..n - 1], k);
    }
  }

  /** Reading v into field c, over the zero value or over x itself, gives x. */
  ghost predicate ReadsAs(codec: JsonCodec, c: Column, v: Container, x: FieldValue) {
    && Acceptable(codec, c, v)
    && Absorb(codec, c, Get(ZERO, c), v) == x
    && Absorb(codec, c, x, v) == x
  }

  lemma JsonReadsBack(codec: JsonCodec, j: JsonCol, value: JsonMap)
    requires codec.Lossless()
    ensures ReadsAs(codec, JsonColumn(j), RawBytes(codec.marshal(value)), VJson(value))
  {
    assert codec.unmarshal(codec.marshal(value)) == Some(value);
    assert value.Some? ==> value.value + value.value == value.value && map[] + value.value == value.value;
  }

  lemma ScalarReadsBack(codec: JsonCodec, c: Column, v: Container, x: FieldValue)
    requires !c.Unknown? && !c.JsonColumn? && SameType(NewContainer(c), v)
    requires Scanned(c, v) == Some(x) || (Scanned(c, v) == None && x == Get(ZERO, c))
    ensures ReadsAs(codec, c, v, x)
  {
  }

  /** A row whose every container reads as the field of some node gives, in a fresh node, the fields of
      that node for the listed columns and zero for the others; order and repetition do not matter. */
  lemma {:induction false} RowReadsBack(codec: JsonCodec, columns: seq<Column>, values: seq<Container>, node: AccountCols, d: Column)
    requires |values| == |columns|
    requires forall i :: 0 <= i < |columns| && !columns[i].Unknown? ==> ReadsAs(codec, columns[i], values[i], Get(node, columns[i]))
    ensures forall i :: 0 <= i < |columns| ==> Acceptable(codec, columns[i], values[i])
    ensures AbsorbAll(codec, d, Get(ZERO, d), columns, values) == if d in columns then Get(node, d) else Get(ZERO, d)
    decreases |columns|
  {
    hide Get;
    if columns != [] {
      var n := |columns| - 1;
      RowReadsBack(codec, columns[..n], values[..n], node, d);
      assert columns == columns[..n] + [columns[n]];
      if d.Unknown? {
        UnknownHasNoField(node, d);
      }
    }
  }

  lemma UnknownHasNoField(node: AccountCols, d: Column)
    requires d.Unknown?
    ensures Get(node, d) == Get(ZERO, d)
  {
  }
}
