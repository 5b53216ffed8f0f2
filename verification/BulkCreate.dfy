/** Creating accounts in bulk: AccountCreateBulk.Save of backend/ent/account_create.go, where n builders
    form one chain of hooks and checks around a single batch insert. */
module BulkCreate {
  import opened Wrappers
  import opened AccountEntity
  import opened AccountCreate
  import opened CreateFields

  /** What a hook does with the mutation it receives before it calls the next mutator: go on with the
      same mutation, edited in place; go on with another mutation; or fail without going on. After
      the call it returns what the next mutator returned. */
  datatype HookAction = Continue(fields: MutationFields) | Replace(fields: MutationFields) | Veto(error: Error)

  datatype Hook = Hook(act: MutationFields -> HookAction)

  datatype Mutation = Mutation(fields: MutationFields, id: Option<int>, done: bool)

  /** AccountCreate: its mutation and its hooks, outermost first. */
  datatype Builder = Builder(mutation: Mutation, hooks: seq<Hook>)

  /** What an observer sees: hooks being entered and left, and the batch insert with its specs. */
  datatype Event = Enter(builder: nat, hook: nat) | Leave(builder: nat, hook: nat) | Batch(specs: seq<CreateSpec>)

  /** The driver: the generated IDs, or an error that inserts nothing. */
  type Driver = seq<CreateSpec> -> Result<seq<Option<int>>, Error>

  /** The mutation handed from hook to hook: the builder's own one, or a replacement. */
  datatype Handed = Own | Other(fields: MutationFields)

  // ----- what one builder's hooks lead to -----

  /** Where the hooks end: vetoed, or at the innermost mutator, with the fields of the builder's own
      mutation (which check looks at) and of the mutation handed over (which is stored). */
  datatype Outcome = Vetoed(error: Error) | Reached(own: MutationFields, handed: MutationFields)

  function RunHooks(hooks: seq<Hook>, h: nat, own: MutationFields, m: Handed): Outcome
    requires h <= |hooks|
    decreases |hooks| - h
  {
    var f := if m.Own? then own else m.fields;
    if h == |hooks| then Reached(own, f)
    else
      match hooks[h].act(f)
      case Veto(e) => Vetoed(e)
      case Continue(g) => if m.Own? then RunHooks(hooks, h + 1, g, Own) else RunHooks(hooks, h + 1, own, Other(g))
      case Replace(g) => RunHooks(hooks, h + 1, own, Other(g))
  }

  /** The hooks entered from h on. */
  function Entered(i: nat, hooks: seq<Hook>, h: nat, f: MutationFields): seq<Event>
    requires h <= |hooks|
    decreases |hooks| - h
  {
    if h == |hooks| then []
    else
      [Enter(i, h)] +
      match hooks[h].act(f)
      case Veto(_) => []
      case Continue(g) => Entered(i, hooks, h + 1, g)
      case Replace(g) => Entered(i, hooks, h + 1, g)
  }

  function FailureOf(rt: Runtime, out: Outcome): Option<Error> {
    match out
    case Vetoed(e) => Some(e)
    case Reached(own, _) => Check(rt, own)
  }

  function OutcomeOf(b: Builder): Outcome {
    RunHooks(b.hooks, 0, b.mutation.fields, Own)
  }

  function Failure(rt: Runtime, b: Builder): Option<Error> {
    FailureOf(rt, OutcomeOf(b))
  }

  /** The fields that a builder which does not fail puts into the batch. */
  function Inserted(b: Builder): MutationFields {
    if OutcomeOf(b).Reached? then OutcomeOf(b).handed else b.mutation.fields
  }

  // ----- what the chain leads to -----

  /** The least failing builder at or after i, or the number of builders. */
  function FirstFailing(rt: Runtime, bs: seq<Builder>, i: nat): (k: nat)
    requires i <= |bs|
    ensures i <= k <= |bs|
    ensures forall j :: i <= j < k ==> Failure(rt, bs[j]).None?
    ensures k < |bs| ==> Failure(rt, bs[k]).Some?
    decreases |bs| - i
  {
    if i == |bs| || Failure(rt, bs[i]).Some? then i else FirstFailing(rt, bs, i + 1)
  }

  /** The hooks entered on the way down from builder i. */
  function Descent(rt: Runtime, bs: seq<Builder>, i: nat): seq<Event>
    requires i <= |bs|
    decreases |bs| - i
  {
    if i == |bs| then []
    else Entered(i, bs[i].hooks, 0, bs[i].mutation.fields) + if Failure(rt, bs[i]).Some? then [] else Descent(rt, bs, i + 1)
  }

  /** The way back up: the same hooks, left in exactly the opposite order. */
  function Mirror(es: seq<Event>): seq<Event> {
    if es == [] then []
    else Mirror(es[1..]) + [if es[0].Enter? then Leave(es[0].builder, es[0].hook) else es[0]]
  }

  lemma {:induction false} MirrorConcat(a: seq<Event>, b: seq<Event>)
    ensures Mirror(a + b) == Mirror(b) + Mirror(a)
  {
    if a == [] {
      assert a + b == b;
    } else {
      assert (a + b)[1..] == a[1..] + b;
      MirrorConcat(a[1..], b);
    }
  }

  function Mapped<S, T>(xs: seq<S>, f: S -> T): (ys: seq<T>)
    ensures |ys| == |xs| && forall j :: 0 <= j < |xs| ==> ys[j] == f(xs[j])
  {
    seq(|xs|, j requires 0 <= j < |xs| => f(xs[j]))
  }

  function SpecsFrom(bs: seq<Builder>, i: nat): (specs: seq<CreateSpec>)
    requires i <= |bs|
    ensures |specs| == |bs| - i
    ensures forall j :: 0 <= j < |specs| ==> specs[j] == BuilderSpec(bs[i + j])
  {
    Mapped(bs[i..], BuilderSpec)
  }

  function BuilderSpec(b: Builder): CreateSpec {
    SpecOf(Inserted(b))
  }

  function IdAt(ids: seq<Option<int>>, j: nat): int {
    if j < |ids| then ids[j].GetOr(0) else 0
  }

  // ----- the effect of the chain from builder i on -----

  /** Everything the chain reads and writes: the builders, the slices shared by the closures of Save,
      the IDs the driver stored in the specs, and the observed events. */
  datatype State = State(
    builders: seq<Builder>, specs: seq<CreateSpec>, nodes: seq<AccountCols>, ids: seq<Option<int>>, trace: seq<Event>)
  {
    ghost predicate Shaped() {
      |specs| == |nodes| == |builders|
    }

    /** Builder j holds the mutation that was stored, marked done, with the ID of its node. */
    ghost predicate Stored(j: nat, f: MutationFields)
      requires Shaped() && j < |builders|
    {
      && builders[j].mutation == Mutation(f, Some(IdAt(ids, j)), true)
      && nodes[j] == NodeOf(f).(id := IdAt(ids, j))
    }
  }

  ghost predicate KeptBefore(s: State, s': State, i: nat) {
    && |s'.builders| == |s.builders| && s.Shaped() && s'.Shaped() && i <= |s.builders|
    && s'.builders[..i] == s.builders[..i] && s'.specs[..i] == s.specs[..i] && s'.nodes[..i] == s.nodes[..i]
  }

  /** No mutation has become done. */
  ghost predicate NoneDone(s: State, s': State) {
    |s'.builders| == |s.builders| &&
    forall j :: 0 <= j < |s.builders| && s'.builders[j].mutation.done ==> s.builders[j].mutation.done
  }

  ghost function Stop(rt: Runtime, bs: seq<Builder>, i: nat, out: Outcome): nat
    requires i < |bs|
  {
    if FailureOf(rt, out).Some? then i else FirstFailing(rt, bs, i + 1)
  }

  ghost function Way(rt: Runtime, bs: seq<Builder>, i: nat, out: Outcome, entered: seq<Event>): seq<Event>
    requires i < |bs|
  {
    entered + if FailureOf(rt, out).Some? then [] else Descent(rt, bs, i + 1)
  }

  /** A failed run: no batch, no mutation done, and every hook on the way left in reverse order. */
  ghost predicate Failed(s: State, i: nat, way: seq<Event>, error: Error, s': State, r: Result<AccountCols, Error>) {
    && KeptBefore(s, s', i)
    && r == Err(error)
    && s'.trace == s.trace + way + Mirror(way)
    && NoneDone(s, s')
  }

  /** A run that reached the driver: one batch between the hooks on the way and their mirror image;
      if the driver accepts it, every mutation from i on is done and holds its node's ID. */
  ghost predicate Inserts(driver: Driver, s: State, i: nat, way: seq<Event>, all: seq<CreateSpec>, f: MutationFields,
                          s': State, r: Result<AccountCols, Error>)
    requires i < |s.builders|
  {
    && KeptBefore(s, s', i)
    && s'.trace == s.trace + way + [Batch(all)] + Mirror(way)
    && match driver(all)
       case Err(e) => r == Err(e) && NoneDone(s, s')
       case Ok(ids) =>
         && r == Ok(s'.nodes[i]) && s'.ids == ids
         && s'.Stored(i, f)
         && forall j :: i < j < |s.builders| ==> s'.Stored(j, Inserted(s.builders[j]))
  }

  ghost function ErrorAt(rt: Runtime, bs: seq<Builder>, i: nat, out: Outcome): Error
    requires i < |bs| && Stop(rt, bs, i, out) < |bs|
  {
    if FailureOf(rt, out).Some? then FailureOf(rt, out).value else Failure(rt, bs[Stop(rt, bs, i, out)]).value
  }

  ghost function BatchOf(s: State, i: nat, f: MutationFields): seq<CreateSpec>
    requires s.Shaped() && i < |s.builders|
  {
    s.specs[..i] + [SpecOf(f)] + SpecsFrom(s.builders, i + 1)
  }

  /** Builder i ended in `out` after entering some hooks, and the builders after it ran: the run fails
      with the error of the first failing builder, or reaches the driver with every spec in order. */
  ghost predicate Ran(rt: Runtime, driver: Driver, s: State, i: nat, out: Outcome, entered: seq<Event>, s': State, r: Result<AccountCols, Error>)
    requires s.Shaped() && i < |s.builders|
  {
    var way := Way(rt, s.builders, i, out, entered);
    if Stop(rt, s.builders, i, out) < |s.builders| then Failed(s, i, way, ErrorAt(rt, s.builders, i, out), s', r)
    else Inserts(driver, s, i, way, BatchOf(s, i, out.handed), out.handed, s', r)
  }

  /** The state in which builder i hands over to the next one. */
  function Begun(s: State, i: nat, mutation: Mutation): State
    requires |s.specs| == |s.nodes| == |s.builders| && i < |s.builders|
  {
    s.(builders := s.builders[i := s.builders[i].(mutation := mutation)],
       nodes := s.nodes[i := NodeOf(mutation.fields)], specs := s.specs[i := SpecOf(mutation.fields)])
  }

  /** The state after builder i has marked its mutation done. */
  function Finished(s: State, i: nat): State
    requires |s.specs| == |s.nodes| == |s.builders| && i < |s.builders|
  {
    var node := s.nodes[i].(id := if i < |s.ids| && s.ids[i].Some? then s.ids[i].value else s.nodes[i].id);
    s.(builders := s.builders[i := s.builders[i].(mutation := Mutation(s.builders[i].mutation.fields, Some(node.id), true))],
       nodes := s.nodes[i := node])
  }

  // ----- one step of the chain -----

  lemma CheckFails(rt: Runtime, driver: Driver, s: State, i: nat, own: MutationFields, handed: MutationFields)
    requires s.Shaped() && i < |s.builders| && Check(rt, own).Some?
    ensures Ran(rt, driver, s, i, Reached(own, handed), [], s, Err(Check(rt, own).value))
  {
    hide Check;
    assert Mirror([]) == [];
    assert s.trace + [] + [] == s.trace;
  }

  lemma LastInserts(rt: Runtime, driver: Driver, s: State, i: nat, own: MutationFields, mutation: Mutation)
    requires s.Shaped() && i == |s.builders| - 1 && Check(rt, own).None?
    requires mutation.done ==> s.builders[i].mutation.done
    ensures var begun := Begun(s, i, mutation);
            var s1 := begun.(trace := begun.trace + [Batch(begun.specs)]);
            match driver(begun.specs)
            case Err(e) => Ran(rt, driver, s, i, Reached(own, mutation.fields), [], s1, Err(e))
            case Ok(ids) =>
              var s2 := Finished(s1.(ids := ids), i);
              Ran(rt, driver, s, i, Reached(own, mutation.fields), [], s2, Ok(s2.nodes[i]))
  {
    hide Check, SpecOf, NodeOf;
    var begun := Begun(s, i, mutation);
    assert begun.specs == s.specs[..i] + [SpecOf(mutation.fields)] + SpecsFrom(s.builders, i + 1);
    assert Mirror([]) == [];
    assert Way(rt, s.builders, i, Reached(own, mutation.fields), []) == [];
    assert s.trace + [] + [Batch(begun.specs)] + [] == s.trace + [Batch(begun.specs)];
    NodeIdZero(mutation.fields);
  }

  lemma NodeIdZero(f: MutationFields)
    ensures NodeOf(f).id == 0
  {
  }

  lemma KeptShrinks(s: State, i: nat, mutation: Mutation, s2: State)
    requires s.Shaped() && i < |s.builders| && KeptBefore(Begun(s, i, mutation), s2, i + 1)
    ensures KeptBefore(s, s2, i)
    ensures s2.builders[i] == s.builders[i].(mutation := mutation) && s2.nodes[i] == NodeOf(mutation.fields)
    ensures KeptBefore(s, Finished(s2, i), i)
  {
    hide NodeOf, SpecOf;
    var begun := Begun(s, i, mutation);
    assert s2.builders[i] == s2.builders[..i + 1][i] && s2.nodes[i] == s2.nodes[..i + 1][i];
    assert s2.builders[..i] == s2.builders[..i + 1][..i] && begun.builders[..i] == s.builders[..i];
    assert s2.specs[..i] == s2.specs[..i + 1][..i] && begun.specs[..i] == s.specs[..i];
    assert s2.nodes[..i] == s2.nodes[..i + 1][..i] && begun.nodes[..i] == s.nodes[..i];
  }

  lemma NoneDoneFrom(s: State, i: nat, mutation: Mutation, s2: State)
    requires s.Shaped() && i < |s.builders| && NoneDone(Begun(s, i, mutation), s2)
    requires mutation.done ==> s.builders[i].mutation.done
    ensures NoneDone(s, s2)
  {
    hide NodeOf, SpecOf;
  }

  lemma NextBatch(s: State, i: nat, mutation: Mutation)
    requires s.Shaped() && i + 1 < |s.builders|
    requires OutcomeOf(s.builders[i + 1]).Reached?
    ensures BatchOf(Begun(s, i, mutation), i + 1, OutcomeOf(s.builders[i + 1]).handed) == BatchOf(s, i, mutation.fields)
  {
    hide OutcomeOf, SpecOf;
    var begun := Begun(s, i, mutation);
    assert begun.specs[..i + 1] == s.specs[..i] + [SpecOf(mutation.fields)];
    assert SpecsFrom(s.builders, i + 1) == [SpecOf(OutcomeOf(s.builders[i + 1]).handed)] + SpecsFrom(begun.builders, i + 2);
  }

  lemma NextFails(s: State, i: nat, mutation: Mutation, way: seq<Event>, error: Error, s2: State, r: Result<AccountCols, Error>)
    requires s.Shaped() && i + 1 < |s.builders| && (mutation.done ==> s.builders[i].mutation.done)
    requires Failed(Begun(s, i, mutation), i + 1, way, error, s2, r)
    ensures Failed(s, i, way, error, s2, r)
  {
    KeptShrinks(s, i, mutation, s2);
    hide KeptBefore, NoneDone, Mirror, NodeOf, SpecOf;
    NoneDoneFrom(s, i, mutation, s2);
  }

  /** The rest of the chain reached the driver and was refused. */
  lemma NextRefused(driver: Driver, s: State, i: nat, mutation: Mutation, way: seq<Event>, all: seq<CreateSpec>, s2: State, r: Result<AccountCols, Error>)
    requires s.Shaped() && i + 1 < |s.builders| && (mutation.done ==> s.builders[i].mutation.done)
    requires Inserts(driver, Begun(s, i, mutation), i + 1, way, all, Inserted(s.builders[i + 1]), s2, r) && r.Err?
    ensures Inserts(driver, s, i, way, all, mutation.fields, s2, r)
  {
    KeptShrinks(s, i, mutation, s2);
    hide KeptBefore, NoneDone, Mirror, NodeOf, SpecOf, Inserted;
    assert driver(all).Err?;
    NoneDoneFrom(s, i, mutation, s2);
  }

  /** Marking mutation i done leaves what the later builders stored. */
  lemma LaterStored(s2: State, i: nat, j: nat, f: MutationFields)
    requires s2.Shaped() && i < j < |s2.builders| && s2.Stored(j, f)
    ensures Finished(s2, i).Shaped() && Finished(s2, i).Stored(j, f)
  {
    hide NodeOf;
  }

  lemma FinishedStored(s2: State, i: nat, mutation: Mutation)
    requires s2.Shaped() && i < |s2.builders|
    requires s2.builders[i].mutation == mutation && s2.nodes[i] == NodeOf(mutation.fields)
    ensures Finished(s2, i).Shaped() && Finished(s2, i).Stored(i, mutation.fields)
  {
    NodeIdZero(mutation.fields);
    hide NodeOf;
  }

  /** The rest of the chain was stored, and builder i marks its mutation done. */
  lemma NextStored(driver: Driver, s: State, i: nat, mutation: Mutation, way: seq<Event>, all: seq<CreateSpec>, s2: State, r: Result<AccountCols, Error>)
    requires s.Shaped() && i + 1 < |s.builders|
    requires Inserts(driver, Begun(s, i, mutation), i + 1, way, all, Inserted(s.builders[i + 1]), s2, r) && r.Ok?
    ensures s2.Shaped() && |s2.builders| == |s.builders| &&
            Inserts(driver, s, i, way, all, mutation.fields, Finished(s2, i), Ok(Finished(s2, i).nodes[i]))
  {
    KeptShrinks(s, i, mutation, s2);
    FinishedStored(s2, i, mutation);
    hide NodeOf, SpecOf;
    forall j | i < j < |s.builders| ensures Finished(s2, i).Stored(j, Inserted(s.builders[j])) {
      assert j == i + 1 || Begun(s, i, mutation).builders[j] == s.builders[j];
      hide State.Stored;
      LaterStored(s2, i, j, Inserted(s.builders[j]));
    }
    hide State.Stored, Inserted, Mirror, NoneDone;
  }

  /** Builder i passed its check and the rest of the chain has run: the chain from i has run. */
  lemma NextRan(rt: Runtime, driver: Driver, s: State, i: nat, own: MutationFields, mutation: Mutation, s2: State, r: Result<AccountCols, Error>)
    requires s.Shaped() && i < |s.builders| - 1 && Check(rt, own).None?
    requires mutation.done ==> s.builders[i].mutation.done
    requires var b := s.builders[i + 1];
             Ran(rt, driver, Begun(s, i, mutation), i + 1, OutcomeOf(b), Entered(i + 1, b.hooks, 0, b.mutation.fields), s2, r)
    ensures r.Err? ==> Ran(rt, driver, s, i, Reached(own, mutation.fields), [], s2, r)
    ensures r.Ok? ==> s2.Shaped() && |s2.builders| == |s.builders| &&
                      Ran(rt, driver, s, i, Reached(own, mutation.fields), [], Finished(s2, i), Ok(Finished(s2, i).nodes[i]))
  {
    var begun, out := Begun(s, i, mutation), Reached(own, mutation.fields);
    var bs, b := s.builders, s.builders[i + 1];
    NextWay(rt, s, i, own, mutation);
    var way := Way(rt, bs, i, out, []);
    if Stop(rt, bs, i, out) == |bs| {
      NextBatch(s, i, mutation);
      hide Check, SpecOf, NodeOf, Entered, OutcomeOf, Way, Stop, FailureOf, Inserts, BatchOf;
      if r.Err? {
        NextRefused(driver, s, i, mutation, way, BatchOf(s, i, mutation.fields), s2, r);
      } else {
        NextStored(driver, s, i, mutation, way, BatchOf(s, i, mutation.fields), s2, r);
      }
    } else {
      hide Check, SpecOf, NodeOf, Entered, OutcomeOf, Way, Stop, Failed, Failure, Begun;
      NextFails(s, i, mutation, way, ErrorAt(rt, bs, i, out), s2, r);
    }
  }

  lemma NextWay(rt: Runtime, s: State, i: nat, own: MutationFields, mutation: Mutation)
    requires s.Shaped() && i < |s.builders| - 1 && Check(rt, own).None?
    ensures var b, begun, out := s.builders[i + 1], Begun(s, i, mutation), Reached(own, mutation.fields);
            var k := Stop(rt, s.builders, i, out);
            && Way(rt, s.builders, i, out, []) == Way(rt, begun.builders, i + 1, OutcomeOf(b), Entered(i + 1, b.hooks, 0, b.mutation.fields))
            && k == Stop(rt, begun.builders, i + 1, OutcomeOf(b))
            && (k == |s.builders| ==> OutcomeOf(b).Reached?)
            && (k < |s.builders| ==> ErrorAt(rt, s.builders, i, out) == ErrorAt(rt, begun.builders, i + 1, OutcomeOf(b)))
  {
    hide Check, SpecOf, NodeOf, Entered, OutcomeOf;
    var begun := Begun(s, i, mutation);
    assert begun.builders[i + 1..] == s.builders[i + 1..] && begun.builders[i + 2..] == s.builders[i + 2..];
    SameSuffix(rt, s.builders, begun.builders, i + 1);
    SameSuffix(rt, s.builders, begun.builders, i + 2);
  }

  /** Only the builders from i on matter from i on. */
  lemma {:induction false} SameSuffix(rt: Runtime, a: seq<Builder>, b: seq<Builder>, i: nat)
    requires |a| == |b| && i <= |a| && a[i..] == b[i..]
    ensures FirstFailing(rt, a, i) == FirstFailing(rt, b, i)
    ensures Descent(rt, a, i) == Descent(rt, b, i)
    ensures SpecsFrom(a, i) == SpecsFrom(b, i)
    decreases |a| - i
  {
    hide Failure, Entered, SpecOf, Inserted;
    assert forall j :: i <= j < |a| ==> a[j] == a[i..][j - i] && b[j] == b[i..][j - i];
    if i < |a| {
      assert a[i + 1..] == b[i + 1..];
      SameSuffix(rt, a, b, i + 1);
    }
  }

  lemma TraceWraps(t: seq<Event>, i: nat, h: nat, way: seq<Event>, mid: seq<Event>)
    ensures var e := [Enter(i, h)];
            t + e + way + mid + Mirror(way) + [Leave(i, h)] == t + (e + way) + mid + Mirror(e + way)
  {
    var e := [Enter(i, h)];
    MirrorConcat(e, way);
    assert e[1..] == [];
    assert Mirror(e) == [Leave(i, h)];
  }

  lemma WrapFailed(s: State, s1: State, i: nat, h: nat, way: seq<Event>, error: Error, s2: State, r: Result<AccountCols, Error>)
    requires KeptBefore(s, s1, i) && NoneDone(s, s1) && s1.trace == s.trace + [Enter(i, h)]
    requires Failed(s1, i, way, error, s2, r)
    ensures Failed(s, i, [Enter(i, h)] + way, error, s2.(trace := s2.trace + [Leave(i, h)]), r)
  {
    hide Mirror;
    assert s1.trace + way + [] == s1.trace + way && s.trace + ([Enter(i, h)] + way) + [] == s.trace + ([Enter(i, h)] + way);
    TraceWraps(s.trace, i, h, way, []);
  }

  lemma WrapInserts(driver: Driver, s: State, s1: State, i: nat, h: nat, way: seq<Event>, all: seq<CreateSpec>, f: MutationFields, s2: State, r: Result<AccountCols, Error>)
    requires i < |s.builders| && KeptBefore(s, s1, i) && NoneDone(s, s1) && s1.trace == s.trace + [Enter(i, h)]
    requires forall j :: i < j < |s.builders| ==> s1.builders[j] == s.builders[j]
    requires Inserts(driver, s1, i, way, all, f, s2, r)
    ensures Inserts(driver, s, i, [Enter(i, h)] + way, all, f, s2.(trace := s2.trace + [Leave(i, h)]), r)
  {
    hide Mirror, NodeOf, SpecOf, Inserted;
    TraceWraps(s.trace, i, h, way, [Batch(all)]);
    if driver(all).Ok? {
      forall j | i < j < |s.builders| ensures s2.Stored(j, Inserted(s.builders[j])) {
        assert s1.builders[j] == s.builders[j];
      }
    }
  }

  lemma HookWay(rt: Runtime, s: State, i: nat, b: Builder, out: Outcome, h: nat, entered: seq<Event>)
    requires s.Shaped() && i < |s.builders|
    requires b.mutation.done == s.builders[i].mutation.done
    ensures var s1 := s.(builders := s.builders[i := b], trace := s.trace + [Enter(i, h)]);
            && KeptBefore(s, s1, i) && NoneDone(s, s1)
            && Way(rt, s.builders, i, out, [Enter(i, h)] + entered) == [Enter(i, h)] + Way(rt, s1.builders, i, out, entered)
            && Stop(rt, s.builders, i, out) == Stop(rt, s1.builders, i, out)
            && (Stop(rt, s.builders, i, out) < |s.builders| ==> ErrorAt(rt, s.builders, i, out) == ErrorAt(rt, s1.builders, i, out))
            && (out.Reached? ==> BatchOf(s, i, out.handed) == BatchOf(s1, i, out.handed))
  {
    hide SpecOf, FailureOf, Failure, BuilderSpec, SpecsFrom, Descent, FirstFailing;
    var bs := s.builders[i := b];
    assert s.builders[i + 1..] == bs[i + 1..] && s.builders[..i] == bs[..i];
    SameSuffix(rt, s.builders, bs, i + 1);
  }

  /** A hook that goes on, perhaps after editing the builder's mutation, wraps what comes after it. */
  lemma HookWraps(rt: Runtime, driver: Driver, s: State, i: nat, h: nat, b: Builder, out: Outcome, entered: seq<Event>, s2: State, r: Result<AccountCols, Error>)
    requires s.Shaped() && i < |s.builders|
    requires b.mutation.done == s.builders[i].mutation.done
    requires Ran(rt, driver, s.(builders := s.builders[i := b], trace := s.trace + [Enter(i, h)]), i, out, entered, s2, r)
    ensures Ran(rt, driver, s, i, out, [Enter(i, h)] + entered, s2.(trace := s2.trace + [Leave(i, h)]), r)
  {
    var s1 := s.(builders := s.builders[i := b], trace := s.trace + [Enter(i, h)]);
    HookWay(rt, s, i, b, out, h, entered);
    hide FailureOf, Failure, Descent, Way, Stop, ErrorAt, BatchOf, SpecsFrom, Failed, Inserts, KeptBefore, NoneDone, FirstFailing;
    var way := Way(rt, s1.builders, i, out, entered);
    if Stop(rt, s.builders, i, out) < |s.builders| {
      WrapFailed(s, s1, i, h, way, ErrorAt(rt, s.builders, i, out), s2, r);
    } else {
      WrapInserts(driver, s, s1, i, h, way, BatchOf(s, i, out.handed), out.handed, s2, r);
    }
  }

  lemma HookVetoes(rt: Runtime, driver: Driver, s: State, i: nat, h: nat, error: Error)
    requires s.Shaped() && i < |s.builders|
    ensures Ran(rt, driver, s, i, Vetoed(error), [Enter(i, h)], s.(trace := s.trace + [Enter(i, h)] + [Leave(i, h)]), Err(error))
  {
    hide SpecOf;
    var e := [Enter(i, h)];
    assert e[1..] == [];
    assert Mirror(e) == [Leave(i, h)];
    assert e + [] == e;
  }

  // ----- the chain as written -----

  class AccountCreateBulk {
    const rt: Runtime
    const driver: Driver
    var err: Option<Error>
    var builders: seq<Builder>
    var specs: seq<CreateSpec>
    var nodes: seq<AccountCols>
    var ids: seq<Option<int>>
    var trace: seq<Event>

    constructor (rt: Runtime, driver: Driver, err: Option<Error>, builders: seq<Builder>)
      ensures this.rt == rt && this.driver == driver && this.err == err && this.builders == builders && trace == []
    {
      this.rt, this.driver, this.err, this.builders := rt, driver, err, builders;
      specs, nodes, ids, trace := [], [], [], [];
    }

    ghost function Now(): State
      reads this
    {
      State(builders, specs, nodes, ids, trace)
    }

    /** The mutator of builder i from its hook h inwards. */
    method Mutate(i: nat, h: nat, m: Handed) returns (r: Result<AccountCols, Error>)
      requires Now().Shaped() && i < |builders| && h <= |builders[i].hooks|
      modifies this`builders, this`specs, this`nodes, this`ids, this`trace
      ensures var b := old(builders)[i];
              Ran(rt, driver, old(Now()), i, RunHooks(b.hooks, h, b.mutation.fields, m),
                  Entered(i, b.hooks, h, if m.Own? then b.mutation.fields else m.fields), Now(), r)
      decreases |builders| - i, |builders[i].hooks| - h, 1
    {
      hide Ran, NodeOf, SpecOf;
      ghost var s := Now();
      var builder := builders[i];
      if h == |builder.hooks| {
        r := Innermost(i, m);
        return;
      }
      var f := if m.Own? then builder.mutation.fields else m.fields;
      trace := trace + [Enter(i, h)];
      var action := builder.hooks[h].act(f);
      if action.Veto? {
        assert Entered(i, builder.hooks, h, f) == [Enter(i, h)];
        HookVetoes(rt, driver, s, i, h, action.error);
        trace := trace + [Leave(i, h)];
        return Err(action.error);
      }
      var g := action.fields;
      var handed := if action.Continue? && m.Own? then Own else Other(g);
      var edited := if handed.Own? then builder.(mutation := builder.mutation.(fields := g)) else builder;
      builders := builders[i := edited];
      r := Mutate(i, h + 1, handed);
      ghost var out := RunHooks(builder.hooks, h + 1, edited.mutation.fields, handed);
      assert RunHooks(builder.hooks, h, builder.mutation.fields, m) == out;
      HookWraps(rt, driver, s, i, h, edited, out, Entered(i, builder.hooks, h + 1, g), Now(), r);
      trace := trace + [Leave(i, h)];
    }

    /** The innermost mutator of builder i. Note that check looks at the builder's own mutation
        before the mutation that was handed over takes its place. */
    method Innermost(i: nat, m: Handed) returns (r: Result<AccountCols, Error>)
      requires Now().Shaped() && i < |builders|
      modifies this`builders, this`specs, this`nodes, this`ids, this`trace
      ensures var own := old(builders)[i].mutation.fields;
              Ran(rt, driver, old(Now()), i, Reached(own, if m.Own? then own else m.fields), [], Now(), r)
      decreases |builders| - i, 0, 0
    {
      hide Ran, Check, NodeOf, SpecOf, RunHooks, Entered;
      ghost var s := Now();
      ghost var own := builders[i].mutation.fields;
      var builder := builders[i];
      var failed := Check(rt, builder.mutation.fields);
      if failed.Some? {
        CheckFails(rt, driver, s, i, own, if m.Own? then own else m.fields);
        return Err(failed.value);
      }
      var mutation := if m.Own? then builder.mutation else Mutation(m.fields, None, false);
      builders := builders[i := builder.(mutation := mutation)];
      nodes, specs := nodes[i := NodeOf(mutation.fields)], specs[i := SpecOf(mutation.fields)];
      assert Now() == Begun(s, i, mutation);
      if i < |builders| - 1 {
        var next := Mutate(i + 1, 0, Own);
        NextRan(rt, driver, s, i, own, mutation, Now(), next);
        if next.Err? {
          return Err(next.error);
        }
      } else {
        LastInserts(rt, driver, s, i, own, mutation);
        trace := trace + [Batch(specs)];
        var inserted := driver(specs);
        if inserted.Err? {
          return Err(inserted.error);
        }
        ids := inserted.value;
      }
      ghost var t := Now();
      var node := nodes[i].(id := if i < |ids| && ids[i].Some? then ids[i].value else nodes[i].id);
      nodes := nodes[i := node];
      builders := builders[i := builders[i].(mutation := Mutation(builders[i].mutation.fields, Some(node.id), true))];
      assert Now() == Finished(t, i);
      return Ok(nodes[i]);
    }

    /** The first loop of Save: every builder fills in its defaults, and the error is discarded. */
    method ApplyDefaults()
      modifies this`builders
      ensures builders == WithDefaults(rt, old(builders))
    {
      hide Defaults;
      ghost var bs := WithDefaults(rt, builders);
      for i := 0 to |builders|
        invariant |builders| == |bs|
        invariant forall j :: 0 <= j < i ==> builders[j] == bs[j]
        invariant forall j :: i <= j < |bs| ==> builders[j] == old(builders)[j]
      {
        var builder := builders[i];
        var defaulted := Defaults(rt, builder.mutation.fields);
        builders := builders[i := builder.(mutation := builder.mutation.(fields := defaulted.0))];
      }
    }

    /** Save. A list that was marked bad, or an empty list, does nothing; otherwise see Saved. */
    method Save() returns (r: Result<seq<AccountCols>, Error>)
      modifies this`builders, this`specs, this`nodes, this`ids, this`trace
      ensures err.Some? ==> r == Err(err.value) && builders == old(builders) && trace == old(trace)
      ensures err.None? && old(builders) == [] ==> r == Ok([]) && builders == [] && trace == old(trace)
      ensures err.None? && old(builders) != [] ==>
                Saved(rt, driver, WithDefaults(rt, old(builders)), old(trace), Now(), r)
      ensures r.Ok? ==> |r.value| == |old(builders)| &&
                        forall j :: 0 <= j < |r.value| && OnlyLooks(old(builders)[j].hooks) ==>
                                      ShowsBuilder(rt, old(builders)[j].mutation.fields, r.value[j])
    {
      hide Ran, Saved, Defaults, ShowsBuilder, OnlyLooks;
      if err.Some? {
        return Err(err.value);
      }
      ApplyDefaults();
      specs := seq(|builders|, _ => CreateSpec(map[], []));
      nodes := seq(|builders|, _ => ZERO);
      ghost var s := Now();
      if |builders| > 0 {
        var first := Mutate(0, 0, Own);
        WholeRun(rt, driver, s, Now(), first);
        SavedShows(rt, driver, old(builders), s.trace, Now(), if first.Err? then Err(first.error) else Ok(nodes));
        if first.Err? {
          return Err(first.error);
        }
      }
      assert |nodes| == 0 ==> nodes == [];
      return Ok(nodes);
    }
  }

  /** The outcome of saving the builders bs, taken after their defaults: if a builder fails, nothing
      is inserted, nothing is marked done and the error is that of the first failing builder;
      otherwise one batch holds the specs of all builders in order, and every mutation is done, with
      the ID of its node, if and only if the driver accepts the batch. In every case the hooks are
      left in exactly the reverse of the order in which they were entered. */
  ghost predicate Saved(rt: Runtime, driver: Driver, bs: seq<Builder>, trace: seq<Event>, after: State, r: Result<seq<AccountCols>, Error>) {
    var k, way, all := FirstFailing(rt, bs, 0), Descent(rt, bs, 0), SpecsFrom(bs, 0);
    if k < |bs| then
      && r == Err(Failure(rt, bs[k]).value)
      && after.trace == trace + way + Mirror(way)
      && NothingNewDone(bs, after.builders)
    else
      && after.trace == trace + way + [Batch(all)] + Mirror(way)
      && match driver(all)
         case Err(e) => r == Err(e) && NothingNewDone(bs, after.builders)
         case Ok(ids) => r == Ok(after.nodes) && AllDone(bs, ids, after.builders, after.nodes)
  }

  function WithDefaults(rt: Runtime, bs: seq<Builder>): (bs': seq<Builder>)
    ensures |bs'| == |bs|
    ensures forall i :: 0 <= i < |bs| ==>
                          bs'[i] == bs[i].(mutation := bs[i].mutation.(fields := Defaults(rt, bs[i].mutation.fields).0))
  {
    seq(|bs|, i requires 0 <= i < |bs| =>
      bs[i].(mutation := bs[i].mutation.(fields := Defaults(rt, bs[i].mutation.fields).0)))
  }

  ghost predicate NothingNewDone(before: seq<Builder>, after: seq<Builder>) {
    |after| == |before| && forall j :: 0 <= j < |after| && after[j].mutation.done ==> before[j].mutation.done
  }

  ghost predicate AllDone(bs: seq<Builder>, ids: seq<Option<int>>, after: seq<Builder>, nodes: seq<AccountCols>) {
    && |after| == |nodes| == |bs|
    && forall j :: 0 <= j < |bs| ==>
                     && after[j].mutation == Mutation(Inserted(bs[j]), Some(IdAt(ids, j)), true)
                     && nodes[j] == NodeOf(Inserted(bs[j])).(id := IdAt(ids, j))
  }

  /** The run from the first builder, in terms of the whole list. */
  lemma WholeRun(rt: Runtime, driver: Driver, s: State, s': State, r: Result<AccountCols, Error>)
    requires s.Shaped() && |s.builders| > 0
    requires Ran(rt, driver, s, 0, OutcomeOf(s.builders[0]), Entered(0, s.builders[0].hooks, 0, s.builders[0].mutation.fields), s', r)
    ensures Saved(rt, driver, s.builders, s.trace, s', if r.Err? then Err(r.error) else Ok(s'.nodes))
  {
    hide NodeOf, SpecOf, Mirror, OutcomeOf, Entered, Check;
    var bs := s.builders;
    if FirstFailing(rt, bs, 0) == |bs| {
      assert BatchOf(s, 0, OutcomeOf(bs[0]).handed) == SpecsFrom(bs, 0);
    }
  }

  // ----- what the trace looks like -----

  function HooksOf(i: nat, h: nat, n: nat): seq<Event>
    requires h <= n
    decreases n - h
  {
    if h == n then [] else [Enter(i, h)] + HooksOf(i, h + 1, n)
  }

  /** Every hook of every builder from i on, by builder and then by hook. */
  function AllHooks(bs: seq<Builder>, i: nat): seq<Event>
    requires i <= |bs|
    decreases |bs| - i
  {
    if i == |bs| then [] else HooksOf(i, 0, |bs[i].hooks|) + AllHooks(bs, i + 1)
  }

  lemma {:induction false} EnteredIsComplete(i: nat, hooks: seq<Hook>, h: nat, own: MutationFields, m: Handed)
    requires h <= |hooks| && RunHooks(hooks, h, own, m).Reached?
    ensures Entered(i, hooks, h, if m.Own? then own else m.fields) == HooksOf(i, h, |hooks|)
    decreases |hooks| - h
  {
    if h < |hooks| {
      var f := if m.Own? then own else m.fields;
      var g := hooks[h].act(f).fields;
      if hooks[h].act(f).Continue? && m.Own? {
        EnteredIsComplete(i, hooks, h + 1, g, Own);
      } else {
        EnteredIsComplete(i, hooks, h + 1, own, Other(g));
      }
    }
  }

  /** When no builder fails, the way down enters every hook once, in (builder, hook) order. */
  lemma {:induction false} DescentIsComplete(rt: Runtime, bs: seq<Builder>, i: nat)
    requires i <= |bs| && FirstFailing(rt, bs, i) == |bs|
    ensures Descent(rt, bs, i) == AllHooks(bs, i)
    decreases |bs| - i
  {
    hide Check;
    if i < |bs| {
      EnteredIsComplete(i, bs[i].hooks, 0, bs[i].mutation.fields, Own);
      DescentIsComplete(rt, bs, i + 1);
    }
  }

  lemma {:induction false} EnteredOnlyEnters(i: nat, hooks: seq<Hook>, h: nat, f: MutationFields)
    requires h <= |hooks|
    ensures forall e :: e in Entered(i, hooks, h, f) ==> e.Enter?
    decreases |hooks| - h
  {
    if h < |hooks| && !hooks[h].act(f).Veto? {
      EnteredOnlyEnters(i, hooks, h + 1, hooks[h].act(f).fields);
    }
  }

  lemma {:induction false} MirrorOnlyLeaves(es: seq<Event>)
    requires forall e :: e in es ==> e.Enter?
    ensures forall e :: e in Mirror(es) ==> e.Leave?
    ensures |Mirror(es)| == |es|
  {
    if es != [] {
      assert es == [es[0]] + es[1..];
      MirrorOnlyLeaves(es[1..]);
    }
  }

  /** The way down holds hook entries only and the way up their exits, so the batch of a run that
      reaches the driver is its only one and a failed run has none. */
  lemma {:induction false} OneBatchAtMost(rt: Runtime, bs: seq<Builder>, i: nat)
    requires i <= |bs|
    ensures forall e :: e in Descent(rt, bs, i) ==> e.Enter?
    ensures forall e :: e in Mirror(Descent(rt, bs, i)) ==> e.Leave?
    decreases |bs| - i
  {
    hide Failure;
    if i < |bs| {
      EnteredOnlyEnters(i, bs[i].hooks, 0, bs[i].mutation.fields);
      OneBatchAtMost(rt, bs, i + 1);
    }
    MirrorOnlyLeaves(Descent(rt, bs, i));
  }

  // ----- bulk and single creation -----

  /** AccountCreate.Save: the fields it stores. Here an error of defaults ends the call, and check
      looks at the mutation that was handed over. */
  function SingleStored(rt: Runtime, b: Builder): Result<MutationFields, Error> {
    var d := Defaults(rt, b.mutation.fields);
    if d.1.Some? then Err(d.1.value)
    else
      match RunHooks(b.hooks, 0, d.0, Own)
      case Vetoed(e) => Err(e)
      case Reached(_, handed) => if Check(rt, handed).Some? then Err(Check(rt, handed).value) else Ok(handed)
  }

  /** The fields a bulk save of this one builder stores. */
  function BulkStored(rt: Runtime, b: Builder): Result<MutationFields, Error> {
    var b' := WithDefaults(rt, [b])[0];
    if Failure(rt, b').Some? then Err(Failure(rt, b').value) else Ok(Inserted(b'))
  }

  /** Every early exit of defaults leaves unset a field that check requires. */
  lemma DefaultsLeaveAGap(rt: Runtime, m: MutationFields)
    ensures Defaults(rt, m).1.Some? ==> Check(rt, Defaults(rt, m).0).Some?
  {
  }

  ghost predicate NeverReplaces(hooks: seq<Hook>) {
    forall i, f :: 0 <= i < |hooks| ==> Keeps(hooks[i], f)
  }

  predicate Keeps(hook: Hook, f: MutationFields) {
    !hook.act(f).Replace?
  }

  /** Hooks that only look: they go on with the mutation as it is, or veto. */
  ghost predicate OnlyLooks(hooks: seq<Hook>) {
    forall i, f :: 0 <= i < |hooks| ==> Looks(hooks[i], f)
  }

  ghost predicate Looks(hook: Hook, f: MutationFields) {
    hook.act(f) == Continue(f) || hook.act(f).Veto?
  }

  lemma {:induction false} OwnIsHanded(hooks: seq<Hook>, h: nat, own: MutationFields)
    requires h <= |hooks| && NeverReplaces(hooks)
    ensures var out := RunHooks(hooks, h, own, Own);
            out.Reached? ==> out.own == out.handed && (OnlyLooks(hooks) ==> out.own == own)
    decreases |hooks| - h
  {
    if h < |hooks| {
      assert Keeps(hooks[h], own);
      assert OnlyLooks(hooks) ==> Looks(hooks[h], own);
    }
    if h < |hooks| && hooks[h].act(own).Continue? {
      OwnIsHanded(hooks, h + 1, hooks[h].act(own).fields);
    }
  }

  /** The mutation after the first k hooks have had their say, whichever mutation object they hand on. */
  function EditedBy(hooks: seq<Hook>, k: nat, f: MutationFields): MutationFields
    requires k <= |hooks|
  {
    if k == 0 then f
    else
      var before := EditedBy(hooks, k - 1, f);
      match hooks[k - 1].act(before)
      case Continue(g) => g
      case Replace(g) => g
      case Veto(_) => before
  }

  /** The hook at k, given what the earlier ones made of f. */
  function ActAt(hooks: seq<Hook>, k: nat, f: MutationFields): HookAction
    requires k < |hooks|
  {
    hooks[k].act(EditedBy(hooks, k, f))
  }

  /** What the hooks from h on lead to, when the builder's own mutation was last current after r hooks. */
  lemma {:induction false} HooksFrom(hooks: seq<Hook>, f: MutationFields, h: nat, r: nat)
    requires r <= h <= |hooks|
    requires forall k :: 0 <= k < h ==> !ActAt(hooks, k, f).Veto?
    requires forall k :: 0 <= k < r ==> ActAt(hooks, k, f).Continue?
    requires r < h ==> ActAt(hooks, r, f).Replace?
    ensures var out := RunHooks(hooks, h, EditedBy(hooks, r, f), if r == h then Own else Other(EditedBy(hooks, h, f)));
            && (out.Vetoed? <==> exists k :: h <= k < |hooks| && ActAt(hooks, k, f).Veto?)
            && (forall k :: h <= k < |hooks| && ActAt(hooks, k, f).Veto? && (forall i :: h <= i < k ==> !ActAt(hooks, i, f).Veto?) ==>
                              out == Vetoed(ActAt(hooks, k, f).error))
            && (out.Reached? ==> out.handed == EditedBy(hooks, |hooks|, f))
            && (out.Reached? ==> exists n :: OwnEnds(hooks, f, n) && out.own == EditedBy(hooks, n, f))
    decreases |hooks| - h
  {
    if h == |hooks| {
      assert OwnEnds(hooks, f, r);
    } else if !ActAt(hooks, h, f).Veto? {
      HooksFrom(hooks, f, h + 1, if r == h && ActAt(hooks, h, f).Continue? then h + 1 else r);
    } else {
      assert ActAt(hooks, h, f).Veto?;
    }
  }

  /** The first n hooks hand on the builder's own mutation and the next one, if there is one, another. */
  ghost predicate OwnEnds(hooks: seq<Hook>, f: MutationFields, n: nat) {
    && n <= |hooks|
    && (forall k :: 0 <= k < n ==> ActAt(hooks, k, f).Continue?)
    && (n < |hooks| ==> ActAt(hooks, n, f).Replace?)
  }

  /** What the hooks of a builder lead to: the error of the first veto, if there is one; otherwise the mutation handed
      over has been through every hook in order, and the builder's own one through those in front of the first
      replacement. */
  lemma HooksExactly(hooks: seq<Hook>, f: MutationFields)
    ensures var out := RunHooks(hooks, 0, f, Own);
            && (out.Vetoed? <==> exists k :: 0 <= k < |hooks| && ActAt(hooks, k, f).Veto?)
            && (forall k :: 0 <= k < |hooks| && ActAt(hooks, k, f).Veto? && (forall i :: 0 <= i < k ==> !ActAt(hooks, i, f).Veto?) ==>
                              out == Vetoed(ActAt(hooks, k, f).error))
            && (out.Reached? ==> out.handed == EditedBy(hooks, |hooks|, f))
            && (out.Reached? ==> exists n :: OwnEnds(hooks, f, n) && out.own == EditedBy(hooks, n, f))
  {
    HooksFrom(hooks, f, 0, 0);
  }

  /** The value that a builder's account has in column c: the one that was set, or the column's default. */
  function SetOrDefault(rt: Runtime, m: MutationFields, c: Column): Option<Cell> {
    if FieldOf(m, c).Some? then FieldOf(m, c) else DefaultOf(rt, c)
  }

  /** The node shows, in every column, what the builder was given or the default, and zero otherwise. */
  ghost predicate ShowsBuilder(rt: Runtime, m: MutationFields, node: AccountCols) {
    forall c :: c != FieldID ==>
                  Get(node, c) == match SetOrDefault(rt, m, c) case Some(v) => ValueOf(c, v) case None => Get(ZERO, c)
  }

  lemma LooksKeeps(hooks: seq<Hook>)
    requires OnlyLooks(hooks)
    ensures NeverReplaces(hooks)
  {
    assert forall i, f :: 0 <= i < |hooks| && Looks(hooks[i], f) ==> Keeps(hooks[i], f);
  }

  /** With hooks that only look, an accepted builder stores in every column what it was given or the default,
      and the edges it was given. */
  lemma LookingStores(rt: Runtime, b: Builder, c: Column)
    requires OnlyLooks(b.hooks) && BulkStored(rt, b).Ok?
    ensures var stored := BulkStored(rt, b).value;
            && FieldOf(stored, c) == SetOrDefault(rt, b.mutation.fields, c)
            && stored.groups == b.mutation.fields.groups && stored.usageLogs == b.mutation.fields.usageLogs
  {
    var m := b.mutation.fields;
    var d := Defaults(rt, m);
    DefaultsLeaveAGap(rt, m);
    LooksKeeps(b.hooks);
    DefaultsExactly(rt, m, c);
    DefaultsListed(rt, c);
    hide Check, Defaults, FieldOf, DefaultOf, FirstBlocked, DEFAULTED;
    OwnIsHanded(b.hooks, 0, d.0);
    assert d.1.None?;
    assert DEFAULTED[..|DEFAULTED|] == DEFAULTED;
  }

  lemma SavedShows(rt: Runtime, driver: Driver, builders: seq<Builder>, trace: seq<Event>, after: State, r: Result<seq<AccountCols>, Error>)
    requires Saved(rt, driver, WithDefaults(rt, builders), trace, after, r)
    ensures r.Ok? ==> |r.value| == |builders| &&
                      forall j :: 0 <= j < |r.value| && OnlyLooks(builders[j].hooks) ==>
                                    ShowsBuilder(rt, builders[j].mutation.fields, r.value[j])
  {
    hide Check, Defaults, NodeOf, SpecOf, OnlyLooks, ShowsBuilder, OutcomeOf, SpecsFrom, Descent, Mirror;
    var bs := WithDefaults(rt, builders);
    if r.Ok? {
      assert AllDone(bs, driver(SpecsFrom(bs, 0)).value, after.builders, r.value);
      forall j | 0 <= j < |r.value| && OnlyLooks(builders[j].hooks) ensures ShowsBuilder(rt, builders[j].mutation.fields, r.value[j]) {
        assert Failure(rt, bs[j]).None?;
        assert bs[j] == WithDefaults(rt, [builders[j]])[0];
        NodeShowsBuilder(rt, builders[j], r.value[j].id);
      }
    }
  }

  lemma NodeShowsBuilder(rt: Runtime, b: Builder, id: int)
    requires OnlyLooks(b.hooks) && BulkStored(rt, b).Ok?
    ensures ShowsBuilder(rt, b.mutation.fields, NodeOf(BulkStored(rt, b).value).(id := id))
  {
    hide BulkStored, NodeOf, FieldOf, Get, OnlyLooks;
    var stored := BulkStored(rt, b).value;
    forall c: Column | c != FieldID
      ensures Get(NodeOf(stored).(id := id), c) ==
              match SetOrDefault(rt, b.mutation.fields, c) case Some(v) => ValueOf(c, v) case None => Get(ZERO, c)
    {
      LookingStores(rt, b, c);
      NodeShows(stored, id, c);
    }
  }

  /** Hooks that never replace the mutation: everything a bulk save inserts has passed check. */
  lemma InsertedIsChecked(rt: Runtime, bs: seq<Builder>, j: nat)
    requires j < FirstFailing(rt, bs, 0) && NeverReplaces(bs[j].hooks)
    ensures Check(rt, Inserted(bs[j])).None?
  {
    hide Check;
    OwnIsHanded(bs[j].hooks, 0, bs[j].mutation.fields);
  }

  /** Hooks that only look: bulk and single creation accept the same builders and store the same
      fields, although bulk discards the error of defaults. */
  lemma LookingHooksAgree(rt: Runtime, b: Builder)
    requires OnlyLooks(b.hooks)
    ensures SingleStored(rt, b).Ok? <==> BulkStored(rt, b).Ok?
    ensures SingleStored(rt, b).Ok? ==> SingleStored(rt, b) == BulkStored(rt, b)
  {
    DefaultsLeaveAGap(rt, b.mutation.fields);
    hide Check, Defaults;
    LooksKeeps(b.hooks);
    OwnIsHanded(b.hooks, 0, Defaults(rt, b.mutation.fields).0);
  }

  /** Defaults in place and no replacement: the two agree on every result, errors included, however
      the hooks edit the mutation. */
  lemma InitializedAgree(rt: Runtime, b: Builder)
    requires rt.Initialized() && NeverReplaces(b.hooks)
    ensures SingleStored(rt, b) == BulkStored(rt, b)
  {
    assert Defaults(rt, b.mutation.fields).1.None?;
    hide Check, Defaults;
    OwnIsHanded(b.hooks, 0, Defaults(rt, b.mutation.fields).0);
  }

  /** The condition on replacement is needed: whatever the builder holds that passes, a hook that
      hands over a mutation check rejects gets it stored by bulk creation and refused by single. */
  lemma ReplacementSkipsCheck(rt: Runtime, good: MutationFields, bad: MutationFields)
    requires Defaults(rt, good).1.None? && Check(rt, Defaults(rt, good).0).None? && Check(rt, bad).Some?
    ensures var b := Builder(Mutation(good, None, false), [Hook(_ => Replace(bad))]);
            BulkStored(rt, b) == Ok(bad) && SingleStored(rt, b) == Err(Check(rt, bad).value)
  {
    hide Check, Defaults;
    var hooks := [Hook(_ => Replace(bad))];
    var own := Defaults(rt, good).0;
    assert RunHooks(hooks, 1, own, Other(bad)) == Reached(own, bad);
    assert RunHooks(hooks, 0, own, Own) == Reached(own, bad);
  }

  /** The condition on the defaults is needed: with a nil default, a hook that fills the gap gets the
      account stored by bulk creation and refused by single. */
  lemma FilledGap(rt: Runtime, m: MutationFields, full: MutationFields)
    requires Defaults(rt, m).1.Some? && Check(rt, full).None?
    ensures var b := Builder(Mutation(m, None, false), [Hook(_ => Continue(full))]);
            BulkStored(rt, b) == Ok(full) && SingleStored(rt, b).Err?
  {
    hide Check, Defaults;
    var hooks := [Hook(_ => Continue(full))];
    var own := Defaults(rt, m).0;
    assert RunHooks(hooks, 1, full, Own) == Reached(full, full);
    assert RunHooks(hooks, 0, own, Own) == Reached(full, full);
  }
}
