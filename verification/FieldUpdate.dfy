/** Updating a column of an account: the set, add, clear and reset calls of AccountMutation in
    backend/ent/mutation.go and the field specs that sqlSave of backend/ent/account_update.go emits for
    them. The column modelled is load_factor, the one that has all four calls; columns that cannot be
    added to or cleared are covered by the runs without those calls. Ops are calls on the mutation, which
    hooks also make; the builder's own setter of a number resets before it sets. */
module FieldUpdate {
  import opened Wrappers
  import opened Runs

  datatype Op = Set(v: int) | Add(d: int) | Clear | Reset

  /** What the mutation records for a column, and what sqlSave emits for it: SetField, AddField, ClearField. */
  datatype Field = Field(set_: Option<int>, add: Option<int>, clear: bool) {
    /** How many times the update names the column. */
    function Touches(): nat {
      (if set_.Some? then 1 else 0) + (if add.Some? then 1 else 0) + (if clear then 1 else 0)
    }
  }

  const UNTOUCHED := Field(None, None, false)

  function Step(s: Field, op: Op): Field {
    match op
    case Set(v) => s.(set_ := Some(v), add := None)
    case Add(d) => s.(add := Some(s.add.GetOr(0) + d))
    case Clear => Field(None, None, true)
    case Reset => UNTOUCHED
  }

  function Run(ops: seq<Op>): Field {
    if ops == [] then UNTOUCHED else Step(Run(ops[..|ops| - 1]), ops[|ops| - 1])
  }

  class FieldMutation {
    var value: Option<int>
    var added: Option<int>
    var clearedFields: set<string>

    const LOAD_FACTOR := "load_factor"

    ghost function State(): Field
      reads this
    {
      Field(value, added, LOAD_FACTOR in clearedFields)
    }

    constructor ()
      ensures State() == UNTOUCHED
    {
      value, added, clearedFields := None, None, {};
    }

    /** SetLoadFactor, AddLoadFactor, ClearLoadFactor, ResetLoadFactor. A set leaves the cleared mark and an
        add leaves the value in place. */
    method Call(op: Op)
      modifies this
      ensures State() == Step(old(State()), op)
    {
      match op {
        case Set(v) => value, added := Some(v), None;
        case Add(d) =>
          if added.Some? {
            added := Some(added.value + d);
          } else {
            added := Some(d);
          }
        case Clear => value, added, clearedFields := None, None, clearedFields + {LOAD_FACTOR};
        case Reset => value, added, clearedFields := None, None, clearedFields - {LOAD_FACTOR};
      }
    }

    /** The field part of sqlSave for this column. */
    method Emit() returns (spec: Field)
      ensures spec == State()
    {
      spec := UNTOUCHED;
      if value.Some? {
        spec := spec.(set_ := value);
      }
      if added.Some? {
        spec := spec.(add := added);
      }
      if LOAD_FACTOR in clearedFields {
        spec := spec.(clear := true);
      }
    }
  }

  // ----- which calls of a run are still in the spec -----

  const SETS: Op -> bool := (op: Op) => op.Set?
  const ADDS: Op -> bool := (op: Op) => op.Add?
  const CLEARS: Op -> bool := (op: Op) => op.Clear?
  const RESETS: Op -> bool := (op: Op) => op.Reset?
  const NOT_ADDS: Op -> bool := (op: Op) => !op.Add?

  /** The call at i is still recorded at the end: a set or an add if only adds follow, a clear if no reset
      follows. */
  ghost predicate Lasts(ops: seq<Op>, i: int) {
    0 <= i < |ops| &&
    match ops[i]
    case Set(_) => Lasting(ops, SETS, NOT_ADDS, i)
    case Add(_) => Lasting(ops, ADDS, NOT_ADDS, i)
    case Clear => Lasting(ops, CLEARS, RESETS, i)
    case Reset => false
  }

  /** The sum of the adds at the end of the run. */
  function TrailingAdds(ops: seq<Op>): int {
    if ops == [] || !ops[|ops| - 1].Add? then 0 else TrailingAdds(ops[..|ops| - 1]) + ops[|ops| - 1].d
  }

  lemma {:induction false} RunIsOn(ops: seq<Op>)
    ensures Run(ops).set_.Some? <==> On(ops, SETS, NOT_ADDS)
    ensures Run(ops).add == if On(ops, ADDS, NOT_ADDS) then Some(TrailingAdds(ops)) else None
    ensures Run(ops).clear <==> On(ops, CLEARS, RESETS)
    ensures !On(ops, ADDS, NOT_ADDS) ==> TrailingAdds(ops) == 0
  {
    if ops != [] {
      RunIsOn(ops[..|ops| - 1]);
    }
  }

  lemma {:induction false} LastingSetIsSet(ops: seq<Op>, c: int)
    requires Lasting(ops, SETS, NOT_ADDS, c)
    ensures Run(ops).set_ == Some(ops[c].v)
  {
    var n := |ops| - 1;
    if c < n {
      LastingSetIsSet(ops[..n], c);
    }
  }

  /** What a run leaves in the spec, call by call. */
  lemma RunExactly(ops: seq<Op>)
    ensures Run(ops).set_.Some? <==> exists i :: Lasts(ops, i) && ops[i].Set?
    ensures forall i :: Lasts(ops, i) && ops[i].Set? ==> Run(ops).set_ == Some(ops[i].v)
    ensures Run(ops).add == if exists i :: Lasts(ops, i) && ops[i].Add? then Some(TrailingAdds(ops)) else None
    ensures Run(ops).clear <==> exists i :: Lasts(ops, i) && ops[i].Clear?
  {
    hide Run, On, TrailingAdds;
    RunIsOn(ops);
    OnExactly(ops, SETS, NOT_ADDS);
    OnExactly(ops, ADDS, NOT_ADDS);
    OnExactly(ops, CLEARS, RESETS);
    forall i | Lasts(ops, i) && ops[i].Set? ensures Run(ops).set_ == Some(ops[i].v) {
      LastingSetIsSet(ops, i);
    }
    assert forall i :: Lasting(ops, SETS, NOT_ADDS, i) ==> Lasts(ops, i) && ops[i].Set?;
    assert forall i :: Lasting(ops, ADDS, NOT_ADDS, i) ==> Lasts(ops, i) && ops[i].Add?;
    assert forall i :: Lasting(ops, CLEARS, RESETS, i) ==> Lasts(ops, i) && ops[i].Clear?;
  }

  /** Two calls of different kinds are both still recorded: a clear and a later set or add, or a set and a
      later add. */
  ghost predicate Conflict(ops: seq<Op>, i: int, j: int) {
    && i < j && Lasts(ops, i) && Lasts(ops, j)
    && ((ops[i].Clear? && (ops[j].Set? || ops[j].Add?)) || (ops[i].Set? && ops[j].Add?))
  }

  /** A run of calls names the column at most once if and only if no two of its calls conflict. */
  lemma TouchedOnceExactly(ops: seq<Op>)
    ensures Run(ops).Touches() <= 1 <==> !exists i, j :: Conflict(ops, i, j)
  {
    hide Run, TrailingAdds;
    RunExactly(ops);
    forall i, j | Lasts(ops, i) && Lasts(ops, j) && ops[i].Set? && ops[j].Add? ensures Conflict(ops, i, j) {
    }
    forall i, j | Lasts(ops, i) && Lasts(ops, j) && ops[i].Clear? && (ops[j].Set? || ops[j].Add?) ensures Conflict(ops, i, j) {
    }
  }

  /** Any calls, then the save: the spec holds what the lasting calls say, and names the column twice
      exactly on a conflict. */
  method SaveRun(ops: seq<Op>) returns (spec: Field)
    ensures forall i :: Lasts(ops, i) && ops[i].Set? ==> spec.set_ == Some(ops[i].v)
    ensures spec.set_.Some? <==> exists i :: Lasts(ops, i) && ops[i].Set?
    ensures spec.add == if exists i :: Lasts(ops, i) && ops[i].Add? then Some(TrailingAdds(ops)) else None
    ensures spec.clear <==> exists i :: Lasts(ops, i) && ops[i].Clear?
    ensures spec.Touches() <= 1 <==> !exists i, j :: Conflict(ops, i, j)
  {
    hide Conflict, Lasts, TrailingAdds;
    var m := new FieldMutation();
    for i := 0 to |ops|
      invariant m.State() == Run(ops[..i])
    {
      assert ops[..i + 1][..i] == ops[..i];
      m.Call(ops[i]);
    }
    assert ops[..|ops|] == ops;
    spec := m.Emit();
    RunExactly(ops);
    TouchedOnceExactly(ops);
  }

  /** A set after a clear and an add after a set name the column twice. */
  lemma TouchedTwice(v: int, d: int)
    ensures Run([Clear, Set(v)]) == Field(Some(v), None, true)
    ensures Run([Set(v), Add(d)]) == Field(Some(v), Some(d), false)
  {
    forall a: Op, b: Op ensures Run([a, b]) == Step(Step(UNTOUCHED, a), b) {
      assert [a, b][..1] == [a] && [a][..0] == [];
      assert Run([a]) == Step(UNTOUCHED, a);
    }
  }

  // ----- calls on the builder -----

  /** SetLoadFactor, AddLoadFactor and ClearLoadFactor of the builder. */
  datatype BuilderCall = BuilderSet(v: int) | BuilderAdd(d: int) | BuilderClear

  /** What a builder call does to the mutation. */
  function OnMutation(call: BuilderCall): seq<Op> {
    match call
    case BuilderSet(v) => [Reset, Set(v)]
    case BuilderAdd(d) => [Add(d)]
    case BuilderClear => [Clear]
  }

  function OpsOf(calls: seq<BuilderCall>): seq<Op> {
    if calls == [] then [] else OpsOf(calls[..|calls| - 1]) + OnMutation(calls[|calls| - 1])
  }

  lemma RunSnoc(ops: seq<Op>, op: Op)
    ensures Run(ops + [op]) == Step(Run(ops), op)
  {
    assert (ops + [op])[..|ops|] == ops;
  }

  /** The record after a builder call. */
  function BuilderStep(s: Field, call: BuilderCall): Field {
    match call
    case BuilderSet(v) => Field(Some(v), None, false)
    case BuilderAdd(d) => Step(s, Add(d))
    case BuilderClear => Field(None, None, true)
  }

  lemma RunOnMutation(ops: seq<Op>, call: BuilderCall)
    ensures Run(ops + OnMutation(call)) == BuilderStep(Run(ops), call)
  {
    if call.BuilderSet? {
      assert ops + [Reset, Set(call.v)] == ops + [Reset] + [Set(call.v)];
      RunSnoc(ops, Reset);
      RunSnoc(ops + [Reset], Set(call.v));
    } else {
      RunSnoc(ops, if call.BuilderAdd? then Add(call.d) else Clear);
    }
  }

  /** Some call is a set or a clear. */
  ghost predicate SetsOrClears(calls: seq<BuilderCall>) {
    exists i :: 0 <= i < |calls| && !calls[i].BuilderAdd?
  }

  predicate EndsWithAdd(calls: seq<BuilderCall>) {
    calls != [] && calls[|calls| - 1].BuilderAdd?
  }

  lemma SetsOrClearsSnoc(calls: seq<BuilderCall>)
    requires calls != []
    ensures var n := |calls| - 1; SetsOrClears(calls) <==> !calls[n].BuilderAdd? || SetsOrClears(calls[..n])
  {
    var n := |calls| - 1;
    if i :| 0 <= i < |calls| && !calls[i].BuilderAdd? && i < n {
      assert calls[..n][i] == calls[i];
    }
    if i :| 0 <= i < n && !calls[..n][i].BuilderAdd? {
      assert calls[i] == calls[..n][i];
    }
  }

  lemma {:induction false} BuilderRecord(calls: seq<BuilderCall>)
    ensures var s := Run(OpsOf(calls));
            && (s.add.Some? <==> EndsWithAdd(calls))
            && (s.set_.Some? || s.clear <==> SetsOrClears(calls))
            && !(s.set_.Some? && s.clear)
  {
    if calls != [] {
      var n := |calls| - 1;
      BuilderRecord(calls[..n]);
      SetsOrClearsSnoc(calls);
      RunOnMutation(OpsOf(calls[..n]), calls[n]);
      hide Run, SetsOrClears, OnMutation;
      assert OpsOf(calls) == OpsOf(calls[..n]) + OnMutation(calls[n]);
    }
  }

  /** Calls on the builder alone name the column twice if and only if they end with an add and a set or a
      clear comes before it: the setter takes an earlier clear back, the adder takes nothing back. */
  lemma BuilderTouchesOnceExactly(calls: seq<BuilderCall>)
    ensures Run(OpsOf(calls)).Touches() <= 1 <==> !(EndsWithAdd(calls) && SetsOrClears(calls))
  {
    hide Run, SetsOrClears, EndsWithAdd, OpsOf;
    BuilderRecord(calls);
  }

  // ----- what the statements of the spec do to the column -----

  /** An SQL addition to a column that may be NULL, under either reading of NULL + d. */
  function SqlAdd(x: Option<int>, d: int, nullIsZero: bool): Option<int> {
    match x
    case Some(n) => Some(n + d)
    case None => if nullIsZero then Some(d) else None
  }

  /** What the calls mean one after the other. */
  function InSequence(ops: seq<Op>, x: Option<int>, nullIsZero: bool): Option<int> {
    if ops == [] then x
    else
      match ops[|ops| - 1]
      case Set(v) => Some(v)
      case Add(d) => SqlAdd(InSequence(ops[..|ops| - 1], x, nullIsZero), d, nullIsZero)
      case Clear => None
      case Reset => x
  }

  datatype Part = SetPart | AddPart | ClearPart

  /** One part of the spec, if it is there. */
  function DoPart(spec: Field, part: Part, x: Option<int>, nullIsZero: bool): Option<int> {
    match part
    case SetPart => if spec.set_.Some? then spec.set_ else x
    case AddPart => if spec.add.Some? then SqlAdd(x, spec.add.value, nullIsZero) else x
    case ClearPart => if spec.clear then None else x
  }

  /** The three parts in some order. */
  datatype Order = Order(first: Part, second: Part, third: Part) {
    predicate Proper() {
      first != second && second != third && first != third
    }
  }

  function Applied(spec: Field, order: Order, x: Option<int>, nullIsZero: bool): Option<int> {
    DoPart(spec, order.third, DoPart(spec, order.second, DoPart(spec, order.first, x, nullIsZero), nullIsZero), nullIsZero)
  }

  /** Clear, then set, then add: a spec carried out in this order means what the calls say, for every run
      and every column value. */
  lemma {:induction false} ClearSetAdd(ops: seq<Op>, x: Option<int>, nullIsZero: bool)
    ensures Applied(Run(ops), Order(ClearPart, SetPart, AddPart), x, nullIsZero) == InSequence(ops, x, nullIsZero)
  {
    if ops != [] {
      ClearSetAdd(ops[..|ops| - 1], x, nullIsZero);
    }
  }

  /** The order in which the parts are carried out matters. */
  predicate OrderSensitive(spec: Field, nullIsZero: bool) {
    || (spec.clear && spec.set_.Some?)
    || (spec.clear && spec.add.Some? && nullIsZero)
    || (spec.set_.Some? && spec.add.Some? && spec.add.value != 0)
  }

  /** A run means what it says in whatever order its parts are carried out if and only if its spec does not
      join a clear with a set, a clear with an add to what counts as zero, or a set with a real add. */
  lemma OrderFreeExactly(ops: seq<Op>, x: Option<int>, nullIsZero: bool)
    ensures (forall order: Order :: order.Proper() ==> Applied(Run(ops), order, x, nullIsZero) == InSequence(ops, x, nullIsZero))
            <==> !OrderSensitive(Run(ops), nullIsZero)
  {
    ClearSetAdd(ops, x, nullIsZero);
    hide Run, InSequence;
    var spec := Run(ops);
    if OrderSensitive(spec, nullIsZero) {
      var clearLast, setLast := Order(SetPart, AddPart, ClearPart), Order(ClearPart, AddPart, SetPart);
      assert clearLast.Proper() && setLast.Proper();
      assert Applied(spec, clearLast, x, nullIsZero) != InSequence(ops, x, nullIsZero)
          || Applied(spec, setLast, x, nullIsZero) != InSequence(ops, x, nullIsZero);
    }
  }

  /** A column named at most once is never sensitive to the order. */
  lemma OnceIsOrderFree(ops: seq<Op>, nullIsZero: bool)
    requires !exists i, j :: Conflict(ops, i, j)
    ensures !OrderSensitive(Run(ops), nullIsZero)
  {
    hide Conflict, Run;
    TouchedOnceExactly(ops);
  }
}
