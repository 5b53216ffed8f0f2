/** Exactly when a bulk save stores only what check accepts, and exactly when it agrees with single saves.
    Both depend on what the hooks hand over; they are stated for all validators, with the defaults fixed. */
module BulkAgreement {
  import opened Wrappers
  import opened AccountEntity
  import opened AccountCreate
  import opened BulkCreate
  import opened CreateFields

  // ----- check, with the validators taken apart -----

  /** The two runtimes differ in their validators only. */
  ghost predicate SameDefaults(a: Runtime, b: Runtime) {
    && (a.createdAt, a.updatedAt, a.credentials, a.extra) == (b.createdAt, b.updatedAt, b.credentials, b.extra)
    && (a.concurrency, a.priority, a.rateMultiplier) == (b.concurrency, b.priority, b.rateMultiplier)
    && (a.status, a.autoPauseOnExpired, a.schedulable) == (b.status, b.autoPauseOnExpired, b.schedulable)
  }

  const YES: string -> bool := (_: string) => true

  const LENIENT := Runtime(None, None, None, None, 0, 0, 0.0, "", false, false, YES, YES, YES, YES, YES)

  /** The first required field that is missing, whatever the validators say. */
  function Missing(m: MutationFields): Option<Error> {
    Check(LENIENT, m)
  }

  /** The required fields, in the order in which check asks for them. */
  const REQUIRED: seq<Column> := [
    TimeColumn(FieldCreatedAt), TimeColumn(FieldUpdatedAt), TextColumn(FieldName), TextColumn(FieldPlatform), TextColumn(FieldType),
    JsonColumn(FieldCredentials), JsonColumn(FieldExtra), IntColumn(FieldConcurrency), IntColumn(FieldPriority),
    FieldRateMultiplier, TextColumn(FieldStatus), BoolColumn(FieldAutoPauseOnExpired), BoolColumn(FieldSchedulable)]

  /** The position, from k on, of the first required field that is not set, or the number of them. */
  function FirstMissing(m: MutationFields, k: nat): (n: nat)
    requires k <= |REQUIRED|
    ensures k <= n <= |REQUIRED|
    ensures forall i :: k <= i < n ==> FieldOf(m, REQUIRED[i]).Some?
    ensures n < |REQUIRED| ==> FieldOf(m, REQUIRED[n]).None?
    decreases |REQUIRED| - k
  {
    if k == |REQUIRED| || FieldOf(m, REQUIRED[k]).None? then k else FirstMissing(m, k + 1)
  }

  /** Whether the required field at i is set, field by field. */
  predicate Present(m: MutationFields, i: nat) {
    if i == 0 then m.times.createdAt.Some? else if i == 1 then m.times.updatedAt.Some?
    else if i == 2 then m.texts.name.Some? else if i == 3 then m.texts.platform.Some? else if i == 4 then m.texts.typ.Some?
    else if i == 5 then m.jsons.credentials.Some? else if i == 6 then m.jsons.extra.Some?
    else if i == 7 then m.ints.concurrency.Some? else if i == 8 then m.ints.priority.Some?
    else if i == 9 then m.rateMultiplier.Some? else if i == 10 then m.texts.status.Some?
    else if i == 11 then m.bools.autoPauseOnExpired.Some? else m.bools.schedulable.Some?
  }

  lemma PresentExactly(m: MutationFields, i: nat)
    requires i < |REQUIRED|
    ensures FieldOf(m, REQUIRED[i]).Some? <==> Present(m, i)
  {
  }

  /** The first required field that is not set, field by field. */
  function FirstAbsent(m: MutationFields): nat {
    if !Present(m, 0) then 0 else if !Present(m, 1) then 1 else if !Present(m, 2) then 2 else if !Present(m, 3) then 3
    else if !Present(m, 4) then 4 else if !Present(m, 5) then 5 else if !Present(m, 6) then 6 else if !Present(m, 7) then 7
    else if !Present(m, 8) then 8 else if !Present(m, 9) then 9 else if !Present(m, 10) then 10 else if !Present(m, 11) then 11
    else if !Present(m, 12) then 12 else 13
  }

  lemma MissingIsFirstAbsent(m: MutationFields)
    ensures var n := FirstAbsent(m); Missing(m) == if n < |REQUIRED| then Some(MissingRequired(REQUIRED[n])) else None
  {
  }

  lemma FirstMissingIsFirstAbsent(m: MutationFields)
    ensures FirstMissing(m, 0) == FirstAbsent(m)
  {
    var n := FirstMissing(m, 0);
    assert |REQUIRED| == 13;
    forall i | 0 <= i < |REQUIRED| ensures FieldOf(m, REQUIRED[i]).Some? <==> Present(m, i) {
      PresentExactly(m, i);
    }
    hide FirstMissing, FieldOf, Present, REQUIRED;
    assert forall i :: 0 <= i < n ==> Present(m, i);
    assert n < 13 ==> !Present(m, n);
  }

  /** Whatever the validators say, check asks for exactly the thirteen required fields, in this order. */
  lemma MissingExactly(m: MutationFields)
    ensures var n := FirstMissing(m, 0);
            Missing(m) == if n < |REQUIRED| then Some(MissingRequired(REQUIRED[n])) else None
  {
    hide Missing, FirstMissing, FirstAbsent, REQUIRED;
    MissingIsFirstAbsent(m);
    FirstMissingIsFirstAbsent(m);
  }

  /** The five values that have a validator. */
  datatype Validated = VName | VPlatform | VType | VStatus | VSessionWindowStatus

  function Value(m: MutationFields, v: Validated): Option<string> {
    match v
    case VName => m.texts.name
    case VPlatform => m.texts.platform
    case VType => m.texts.typ
    case VStatus => m.texts.status
    case VSessionWindowStatus => m.optTexts.sessionWindowStatus
  }

  function Accepts(rt: Runtime, v: Validated, s: string): bool {
    match v
    case VName => rt.nameOk(s)
    case VPlatform => rt.platformOk(s)
    case VType => rt.typeOk(s)
    case VStatus => rt.statusOk(s)
    case VSessionWindowStatus => rt.sessionWindowStatusOk(s)
  }

  /** The validators given by one predicate, over the defaults of rt. */
  function Validators(rt: Runtime, ok: (Validated, string) -> bool): (r: Runtime)
    ensures SameDefaults(rt, r)
    ensures forall v, s :: Accepts(r, v, s) == ok(v, s)
  {
    rt.(nameOk := s => ok(VName, s), platformOk := s => ok(VPlatform, s), typeOk := s => ok(VType, s),
        statusOk := s => ok(VStatus, s), sessionWindowStatusOk := s => ok(VSessionWindowStatus, s))
  }

  /** check passes exactly when nothing is missing and every value that is set is accepted. */
  lemma ChecksExactly(rt: Runtime, m: MutationFields)
    ensures Check(rt, m).None? <==>
            Missing(m).None? && forall v :: Value(m, v).Some? ==> Accepts(rt, v, Value(m, v).value)
  {
    if forall v :: Value(m, v).Some? ==> Accepts(rt, v, Value(m, v).value) {
      assert Value(m, VName).Some? ==> Accepts(rt, VName, Value(m, VName).value);
      assert Value(m, VPlatform).Some? ==> Accepts(rt, VPlatform, Value(m, VPlatform).value);
      assert Value(m, VType).Some? ==> Accepts(rt, VType, Value(m, VType).value);
      assert Value(m, VStatus).Some? ==> Accepts(rt, VStatus, Value(m, VStatus).value);
      assert Value(m, VSessionWindowStatus).Some? ==> Accepts(rt, VSessionWindowStatus, Value(m, VSessionWindowStatus).value);
    }
  }

  /** The value that check hands to validator v, if it gets that far when the earlier ones accept. */
  function LookedAt(m: MutationFields, v: Validated): Option<string> {
    var timed := m.times.createdAt.Some? && m.times.updatedAt.Some?;
    var named := timed && m.texts.name.Some?;
    var placed := named && m.texts.platform.Some?;
    var typed := placed && m.texts.typ.Some? && m.jsons.credentials.Some? && m.jsons.extra.Some?
                 && m.ints.concurrency.Some? && m.ints.priority.Some? && m.rateMultiplier.Some?;
    var rated := typed && m.texts.status.Some? && m.bools.autoPauseOnExpired.Some? && m.bools.schedulable.Some?;
    var arrives :=
      match v
      case VName => timed
      case VPlatform => named
      case VType => placed
      case VStatus => typed
      case VSessionWindowStatus => rated;
    if arrives then Value(m, v) else None
  }

  function FailureAt(v: Validated): Error {
    match v
    case VName => ValidatorFailed(TextColumn(FieldName))
    case VPlatform => ValidatorFailed(TextColumn(FieldPlatform))
    case VType => ValidatorFailed(TextColumn(FieldType))
    case VStatus => ValidatorFailed(TextColumn(FieldStatus))
    case VSessionWindowStatus => ValidatorFailed(OptTextColumn(FieldSessionWindowStatus))
  }

  lemma LooksDecide(rt: Runtime, a: MutationFields, b: MutationFields)
    requires Missing(a) == Missing(b)
    requires forall v :: LookedAt(a, v) == LookedAt(b, v)
    ensures Check(rt, a) == Check(rt, b)
  {
    assert LookedAt(a, VName) == LookedAt(b, VName) && LookedAt(a, VPlatform) == LookedAt(b, VPlatform);
    assert LookedAt(a, VType) == LookedAt(b, VType) && LookedAt(a, VStatus) == LookedAt(b, VStatus);
    assert LookedAt(a, VSessionWindowStatus) == LookedAt(b, VSessionWindowStatus);
  }

  /** A runtime that rejects one value of one validator fails there exactly on the mutations that get there
      with this value. */
  lemma RejectingOne(rt: Runtime, m: MutationFields, v: Validated, s: string)
    ensures var r := Validators(rt, (w: Validated, t: string) => w != v || t != s);
            Check(r, m) == Some(FailureAt(v)) <==> LookedAt(m, v) == Some(s)
  {
  }

  lemma LenientIsMissing(rt: Runtime, m: MutationFields)
    ensures Check(Validators(rt, (w: Validated, t: string) => true), m) == Missing(m)
  {
  }

  ghost predicate CheckAlike(rt: Runtime, a: MutationFields, b: MutationFields) {
    Check(rt, a) == Check(rt, b)
  }

  /** Two mutations get the same result from check, whatever the validators, if and only if they miss the
      same field first and the validators get to see the same values. */
  lemma ChecksAlikeExactly(rt: Runtime, a: MutationFields, b: MutationFields)
    ensures (forall r :: SameDefaults(rt, r) ==> CheckAlike(r, a, b)) <==>
            Missing(a) == Missing(b) && forall v :: LookedAt(a, v) == LookedAt(b, v)
  {
    hide Check, LookedAt, Missing, SameDefaults;
    if forall r :: SameDefaults(rt, r) ==> CheckAlike(r, a, b) {
      assert CheckAlike(Validators(rt, (w: Validated, t: string) => true), a, b);
      LenientIsMissing(rt, a);
      LenientIsMissing(rt, b);
      forall v ensures LookedAt(a, v) == LookedAt(b, v) {
        forall s ensures LookedAt(a, v) == Some(s) <==> LookedAt(b, v) == Some(s) {
          assert CheckAlike(Validators(rt, (w: Validated, t: string) => w != v || t != s), a, b);
          RejectingOne(rt, a, v, s);
          RejectingOne(rt, b, v, s);
        }
        assert LookedAt(a, v).Some? ==> LookedAt(b, v) == Some(LookedAt(a, v).value);
        assert LookedAt(b, v).Some? ==> LookedAt(a, v) == Some(LookedAt(b, v).value);
      }
    }
    if Missing(a) == Missing(b) && forall v :: LookedAt(a, v) == LookedAt(b, v) {
      forall r ensures CheckAlike(r, a, b) {
        LooksDecide(r, a, b);
      }
    }
  }

  ghost predicate AcceptAlike(rt: Runtime, a: MutationFields, b: MutationFields) {
    Check(rt, a).None? <==> Check(rt, b).None?
  }

  /** Two mutations are accepted by the same validators if and only if both miss a field, or neither does
      and their validated values are the same. */
  lemma AcceptedAlikeExactly(rt: Runtime, a: MutationFields, b: MutationFields)
    ensures (forall r :: SameDefaults(rt, r) ==> AcceptAlike(r, a, b)) <==>
            Missing(a).Some? == Missing(b).Some? && (Missing(a).None? ==> forall v :: Value(a, v) == Value(b, v))
  {
    hide Check, Missing, SameDefaults, Value;
    if forall r :: SameDefaults(rt, r) ==> AcceptAlike(r, a, b) {
      var all := Validators(rt, (w: Validated, t: string) => true);
      assert AcceptAlike(all, a, b);
      ChecksExactly(all, a);
      ChecksExactly(all, b);
      if Missing(a).None? {
        forall v ensures Value(a, v) == Value(b, v) {
          forall s ensures Value(a, v) == Some(s) <==> Value(b, v) == Some(s) {
            var r := Validators(rt, (w: Validated, t: string) => w != v || t != s);
            assert AcceptAlike(r, a, b);
            ChecksExactly(r, a);
            ChecksExactly(r, b);
          }
          assert Value(a, v).Some? ==> Value(b, v) == Some(Value(a, v).value);
          assert Value(b, v).Some? ==> Value(a, v) == Some(Value(b, v).value);
        }
      }
    }
    if Missing(a).Some? == Missing(b).Some? && (Missing(a).None? ==> forall v :: Value(a, v) == Value(b, v)) {
      forall r ensures AcceptAlike(r, a, b) {
        ChecksExactly(r, a);
        ChecksExactly(r, b);
      }
    }
  }

  lemma DefaultsAlike(a: Runtime, b: Runtime, m: MutationFields)
    requires SameDefaults(a, b)
    ensures Defaults(a, m) == Defaults(b, m)
  {
  }

  // ----- what a bulk save stores -----

  /** If the save reaches the driver, everything in the batch passes check. */
  ghost predicate StoresChecked(rt: Runtime, builders: seq<Builder>) {
    var bs := WithDefaults(rt, builders);
    FirstFailing(rt, bs, 0) == |bs| ==> forall j :: 0 <= j < |bs| ==> Check(rt, Inserted(bs[j])).None?
  }

  /** Every builder gets to its check with all required fields. */
  ghost predicate AllArrive(bs: seq<Builder>) {
    forall j :: 0 <= j < |bs| ==> Arrives(bs[j])
  }

  predicate Arrives(b: Builder) {
    OutcomeOf(b).Reached? && Missing(OutcomeOf(b).own).None?
  }

  /** Some builder of the batch has this validated value in its own mutation. */
  predicate Vouched(bs: seq<Builder>, v: Validated, s: string) {
    exists i :: 0 <= i < |bs| && OwnValue(bs[i], v) == Some(s)
  }

  function OwnValue(b: Builder, v: Validated): Option<string> {
    if OutcomeOf(b).Reached? then Value(OutcomeOf(b).own, v) else None
  }

  /** What is handed over lacks no required field and each of its validated values is that of some builder's
      own mutation. */
  ghost predicate HandsOverKnown(bs: seq<Builder>) {
    forall j :: 0 <= j < |bs| ==> KnownToBatch(bs, Inserted(bs[j]))
  }

  ghost predicate KnownToBatch(bs: seq<Builder>, m: MutationFields) {
    Missing(m).None? && forall v :: Value(m, v).Some? ==> Vouched(bs, v, Value(m, v).value)
  }

  lemma VouchingPasses(rt: Runtime, bs: seq<Builder>)
    requires AllArrive(bs)
    ensures var r := Validators(rt, (v: Validated, s: string) => Vouched(bs, v, s));
            FirstFailing(r, bs, 0) == |bs|
  {
    hide Check, Missing, Value, OutcomeOf, SameDefaults;
    var r := Validators(rt, (v: Validated, s: string) => Vouched(bs, v, s));
    forall j | 0 <= j < |bs| ensures Failure(r, bs[j]).None? {
      assert Arrives(bs[j]);
      var own := OutcomeOf(bs[j]).own;
      ChecksExactly(r, own);
      forall v | Value(own, v).Some? ensures Vouched(bs, v, Value(own, v).value) {
        assert OwnValue(bs[j], v) == Some(Value(own, v).value);
      }
    }
  }

  lemma PassedArrive(rt: Runtime, bs: seq<Builder>)
    requires FirstFailing(rt, bs, 0) == |bs|
    ensures AllArrive(bs)
    ensures forall v, s :: Vouched(bs, v, s) ==> Accepts(rt, v, s)
  {
    hide Check, Missing, Value, OutcomeOf, Accepts;
    forall j | 0 <= j < |bs|
      ensures Arrives(bs[j])
      ensures forall v :: OwnValue(bs[j], v).Some? ==> Accepts(rt, v, OwnValue(bs[j], v).value)
    {
      assert Failure(rt, bs[j]).None?;
      ChecksExactly(rt, OutcomeOf(bs[j]).own);
    }
  }

  /** Whatever the validators, a bulk save stores only what check accepts, if and only if some builder never
      gets past its check, or every mutation handed over is complete and brings no validated value that
      check has not seen in one of the builders' own mutations. */
  lemma StoresCheckedExactly(rt: Runtime, builders: seq<Builder>)
    ensures var bs := WithDefaults(rt, builders);
            (forall r :: SameDefaults(rt, r) ==> StoresChecked(r, builders)) <==> (AllArrive(bs) ==> HandsOverKnown(bs))
  {
    hide Check, Missing, Value, OutcomeOf, Inserted, SameDefaults, Defaults, AllArrive, FirstFailing, Accepts, Vouched;
    var bs := WithDefaults(rt, builders);
    forall r | SameDefaults(rt, r) ensures WithDefaults(r, builders) == bs {
      SameBuilders(rt, r, builders);
    }
    if AllArrive(bs) && forall r :: SameDefaults(rt, r) ==> StoresChecked(r, builders) {
      VouchingPasses(rt, bs);
      var r := Validators(rt, (v: Validated, s: string) => Vouched(bs, v, s));
      assert StoresChecked(r, builders);
      forall j | 0 <= j < |bs| ensures KnownToBatch(bs, Inserted(bs[j])) {
        ChecksExactly(r, Inserted(bs[j]));
      }
    }
    if AllArrive(bs) ==> HandsOverKnown(bs) {
      forall r | SameDefaults(rt, r) ensures StoresChecked(r, builders) {
        if FirstFailing(r, bs, 0) == |bs| {
          PassedArrive(r, bs);
          forall j | 0 <= j < |bs| ensures Check(r, Inserted(bs[j])).None? {
            assert KnownToBatch(bs, Inserted(bs[j]));
            ChecksExactly(r, Inserted(bs[j]));
          }
        }
      }
    }
  }

  /** For one builder: what is handed over is complete, and each of its validated values is unset or the
      builder's own. */
  lemma StoresCheckedAlone(rt: Runtime, builder: Builder)
    ensures var b := WithDefaults(rt, [builder])[0];
            (forall r :: SameDefaults(rt, r) ==> StoresChecked(r, [builder])) <==>
            (Arrives(b) ==>
               var out := OutcomeOf(b);
               Missing(out.handed).None? && forall v :: Value(out.handed, v).None? || Value(out.handed, v) == Value(out.own, v))
  {
    hide Missing, Value, SameDefaults, Defaults, StoresChecked, OutcomeOf;
    var bs := WithDefaults(rt, [builder]);
    var b := bs[0];
    StoresCheckedExactly(rt, [builder]);
    assert AllArrive(bs) <==> Arrives(b);
    if Arrives(b) {
      assert HandsOverKnown(bs) <==> KnownToBatch(bs, OutcomeOf(b).handed);
      forall v, s ensures Vouched(bs, v, s) <==> Value(OutcomeOf(b).own, v) == Some(s) {
        assert OwnValue(bs[0], v) == Value(OutcomeOf(b).own, v);
      }
    }
  }

  lemma SameBuilders(a: Runtime, b: Runtime, builders: seq<Builder>)
    requires SameDefaults(a, b)
    ensures WithDefaults(a, builders) == WithDefaults(b, builders)
  {
    forall i | 0 <= i < |builders| ensures Defaults(a, builders[i].mutation.fields) == Defaults(b, builders[i].mutation.fields) {
      DefaultsAlike(a, b, builders[i].mutation.fields);
    }
    hide Defaults;
  }

  // ----- single and bulk saves -----

  /** The two accept the same builders and store the same fields; their errors may differ. */
  ghost predicate StoreAlike(rt: Runtime, b: Builder) {
    var single, bulk := SingleStored(rt, b), BulkStored(rt, b);
    (single.Ok? <==> bulk.Ok?) && (single.Ok? ==> single == bulk)
  }

  function HooksLead(rt: Runtime, b: Builder): Outcome {
    RunHooks(b.hooks, 0, Defaults(rt, b.mutation.fields).0, Own)
  }

  /** Whatever the validators, single and bulk saves accept the same and store the same if and only if a hook
      vetoes; or a default is nil and no hook fills the gap; or no default is nil and the hooks either
      leave both the builder's own and the handed-over mutation incomplete or leave them with the same
      validated values. */
  lemma StoreAlikeExactly(rt: Runtime, b: Builder)
    ensures var out := HooksLead(rt, b);
            (forall r :: SameDefaults(rt, r) ==> StoreAlike(r, b)) <==>
            || out.Vetoed?
            || (if Defaults(rt, b.mutation.fields).1.Some? then Missing(out.own).Some?
                else Missing(out.own).Some? == Missing(out.handed).Some? &&
                     (Missing(out.own).None? ==> forall v :: Value(out.own, v) == Value(out.handed, v)))
  {
    hide Check, Missing, Value, SameDefaults, Defaults, RunHooks;
    var out := HooksLead(rt, b);
    forall r | SameDefaults(rt, r) ensures Defaults(r, b.mutation.fields) == Defaults(rt, b.mutation.fields) {
      DefaultsAlike(rt, r, b.mutation.fields);
    }
    if out.Reached? {
      if Defaults(rt, b.mutation.fields).1.Some? {
        var all := Validators(rt, (w: Validated, t: string) => true);
        LenientIsMissing(rt, out.own);
        assert StoreAlike(all, b) <==> Missing(out.own).Some?;
        forall r | SameDefaults(rt, r) && Missing(out.own).Some? ensures StoreAlike(r, b) {
          ChecksExactly(r, out.own);
        }
      } else {
        AcceptedAlikeExactly(rt, out.own, out.handed);
        assert forall r :: SameDefaults(rt, r) ==> (StoreAlike(r, b) <==> AcceptAlike(r, out.own, out.handed));
      }
    }
  }

  /** Whatever the validators, the two return the same result, errors included, if and only if a hook vetoes
      (with the very error of defaults, if a default is nil), or no default is nil and check misses the
      same field and looks at the same values in both mutations. */
  lemma SameResultExactly(rt: Runtime, b: Builder)
    ensures var out, nilDefault := HooksLead(rt, b), Defaults(rt, b.mutation.fields).1;
            (forall r :: SameDefaults(rt, r) ==> SameResult(r, b)) <==>
            if nilDefault.Some? then out == Vetoed(nilDefault.value)
            else out.Vetoed? || (Missing(out.own) == Missing(out.handed) && forall v :: LookedAt(out.own, v) == LookedAt(out.handed, v))
  {
    hide Check, Missing, LookedAt, SameDefaults, Defaults, RunHooks;
    var out := HooksLead(rt, b);
    forall r | SameDefaults(rt, r) ensures Defaults(r, b.mutation.fields) == Defaults(rt, b.mutation.fields) {
      DefaultsAlike(rt, r, b.mutation.fields);
    }
    if Defaults(rt, b.mutation.fields).1.Some? {
      NilDefaultError(rt, b.mutation.fields);
      var all := Validators(rt, (w: Validated, t: string) => true);
      assert SameResult(all, b) ==> out == Vetoed(Defaults(rt, b.mutation.fields).1.value) by {
        if out.Reached? {
          CheckError(all, out.own);
        }
      }
    } else if out.Reached? {
      ChecksAlikeExactly(rt, out.own, out.handed);
      assert forall r :: SameDefaults(rt, r) ==> (SameResult(r, b) <==> CheckAlike(r, out.own, out.handed));
    }
  }

  ghost predicate SameResult(rt: Runtime, b: Builder) {
    SingleStored(rt, b) == BulkStored(rt, b)
  }

  lemma NilDefaultError(rt: Runtime, m: MutationFields)
    ensures Defaults(rt, m).1.Some? ==> Defaults(rt, m).1.value.Uninitialized?
  {
  }

  lemma CheckError(rt: Runtime, m: MutationFields)
    ensures Check(rt, m).Some? ==> Check(rt, m).value.MissingRequired? || Check(rt, m).value.ValidatorFailed?
  {
  }
}
