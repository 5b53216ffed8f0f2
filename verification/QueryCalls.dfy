/** What runs of calls on query builders leave behind: Where, Order, Limit, Offset, Unique, Select and the locks of
    backend/ent/account_query.go, on one builder and on the nested builders of a clone or its original. */
module QueryCalls {
  import opened Wrappers
  import opened Runs
  import opened QueryClone

  // ----- one builder -----

  /** The builder's spec after a run of calls. */
  function RunOps(s: QuerySpec, ops: seq<Op>): QuerySpec {
    if ops == [] then s else Edited(RunOps(s, ops[..|ops| - 1]), ops[|ops| - 1])
  }

  const LIMITS: Op -> bool := (op: Op) => op.SetLimit?
  const OFFSETS: Op -> bool := (op: Op) => op.SetOffset?

  /** Unique, and a lock on Postgres, which switches de-duplication off. */
  const UNIQUES: Op -> bool := (op: Op) => op.SetUnique? || (op.AddLock? && op.postgres)

  /** The call at c is the last one of its kind. */
  ghost predicate LastOne(ops: seq<Op>, kind: Op -> bool, c: int) {
    Lasting(ops, kind, kind, c)
  }

  /** Either the run ends with a call of the kind, or the last one is the last one of the run without its end. */
  lemma LastOneSnoc(ops: seq<Op>, kind: Op -> bool)
    requires ops != []
    ensures var n := |ops| - 1;
            if kind(ops[n]) then forall c :: LastOne(ops, kind, c) <==> c == n
            else forall c :: LastOne(ops, kind, c) <==> LastOne(ops[..n], kind, c)
  {
    var n := |ops| - 1;
    assert forall i :: 0 <= i < n ==> ops[..n][i] == ops[i];
    if kind(ops[n]) {
      forall c ensures LastOne(ops, kind, c) <==> c == n {
      }
    } else {
      forall c ensures LastOne(ops, kind, c) <==> LastOne(ops[..n], kind, c) {
        if LastOne(ops, kind, c) {
          assert c < n;
        }
      }
    }
  }

  /** The limit is that of the last Limit, or what it was if there is none. */
  lemma {:induction false} LimitExactly(s: QuerySpec, ops: seq<Op>)
    ensures forall c :: LastOne(ops, LIMITS, c) ==> RunOps(s, ops).limit == Some(ops[c].n)
    ensures !(exists c :: LastOne(ops, LIMITS, c)) ==> RunOps(s, ops).limit == s.limit
  {
    if ops != [] {
      var n := |ops| - 1;
      LimitExactly(s, ops[..n]);
      LastOneSnoc(ops, LIMITS);
      hide LastOne;
      assert LIMITS(ops[n]) ==> LastOne(ops, LIMITS, n);
    }
  }

  /** The same for the offset. */
  lemma {:induction false} OffsetExactly(s: QuerySpec, ops: seq<Op>)
    ensures forall c :: LastOne(ops, OFFSETS, c) ==> RunOps(s, ops).offset == Some(ops[c].n)
    ensures !(exists c :: LastOne(ops, OFFSETS, c)) ==> RunOps(s, ops).offset == s.offset
  {
    if ops != [] {
      var n := |ops| - 1;
      OffsetExactly(s, ops[..n]);
      LastOneSnoc(ops, OFFSETS);
      hide LastOne;
      assert OFFSETS(ops[n]) ==> LastOne(ops, OFFSETS, n);
    }
  }

  /** De-duplication is as the last Unique says, off if a Postgres lock came after it, and what it was if there is
      neither. */
  lemma {:induction false} UniqueExactly(s: QuerySpec, ops: seq<Op>)
    ensures forall c :: LastOne(ops, UNIQUES, c) ==>
                          RunOps(s, ops).unique == Some(if ops[c].SetUnique? then ops[c].b else false)
    ensures !(exists c :: LastOne(ops, UNIQUES, c)) ==> RunOps(s, ops).unique == s.unique
  {
    if ops != [] {
      var n := |ops| - 1;
      UniqueExactly(s, ops[..n]);
      LastOneSnoc(ops, UNIQUES);
      hide LastOne;
      assert UNIQUES(ops[n]) ==> LastOne(ops, UNIQUES, n);
    }
  }

  /** The arguments of the calls of Where, of Order, of Select and of the locks, in order. */
  function PredicateArgs(ops: seq<Op>): seq<int> {
    if ops == [] then [] else PredicateArgs(ops[..|ops| - 1]) + if ops[|ops| - 1].AddPredicates? then ops[|ops| - 1].ps else []
  }

  function OrderArgs(ops: seq<Op>): seq<int> {
    if ops == [] then [] else OrderArgs(ops[..|ops| - 1]) + if ops[|ops| - 1].AddOrder? then ops[|ops| - 1].os else []
  }

  function FieldArgs(ops: seq<Op>): seq<string> {
    if ops == [] then [] else FieldArgs(ops[..|ops| - 1]) + if ops[|ops| - 1].Select? then ops[|ops| - 1].fields else []
  }

  function LockArgs(ops: seq<Op>): seq<int> {
    if ops == [] then [] else LockArgs(ops[..|ops| - 1]) + if ops[|ops| - 1].AddLock? then [ops[|ops| - 1].modifier] else []
  }

  /** The lists are the old ones followed by the arguments of their own calls, and nothing else changes. */
  lemma {:induction false} ListsExactly(s: QuerySpec, ops: seq<Op>)
    ensures var t := RunOps(s, ops);
            && t.predicates == s.predicates + PredicateArgs(ops) && t.order == s.order + OrderArgs(ops)
            && t.fields == s.fields + FieldArgs(ops) && t.modifiers == s.modifiers + LockArgs(ops)
            && t.inters == s.inters && t.edges == s.edges
  {
    if ops != [] {
      ListsExactly(s, ops[..|ops| - 1]);
    }
  }

  // ----- nested builders -----

  /** The nested builder that a path of edges leads to. */
  function SpecAt(s: QuerySpec, path: seq<nat>): Option<QuerySpec>
    decreases |path|
  {
    if path == [] then Some(s)
    else if path[0] < |s.edges| && s.edges[path[0]].Some? then SpecAt(s.edges[path[0]].value, path[1..])
    else None
  }

  /** A builder's own settings, without its nested builders. */
  function OwnSettings(s: QuerySpec): QuerySpec {
    s.(edges := [])
  }

  /** A call at one path reaches the builder there and no other. */
  lemma {:induction false} EditReachesOne(s: QuerySpec, path: seq<nat>, op: Op, at: seq<nat>)
    ensures SpecAt(EditedAt(s, path, op), at).Some? <==> SpecAt(s, at).Some?
    ensures SpecAt(s, at).Some? ==>
              OwnSettings(SpecAt(EditedAt(s, path, op), at).value) ==
              if at == path then Edited(OwnSettings(SpecAt(s, at).value), op) else OwnSettings(SpecAt(s, at).value)
    decreases |at|
  {
    if at != [] && path != [] && at[0] == path[0] && at[0] < |s.edges| && s.edges[at[0]].Some? {
      EditReachesOne(s.edges[at[0]].value, path[1..], op, at[1..]);
      assert at == path <==> at[1..] == path[1..] by {
        assert at == [at[0]] + at[1..] && path == [path[0]] + path[1..];
      }
    }
  }

  /** The calls made on one side at one path, in order. */
  function OpsAt(edits: seq<Edit>, onClone: bool, path: seq<nat>): seq<Op> {
    if edits == [] then []
    else
      var n := |edits| - 1;
      var before := OpsAt(edits[..n], onClone, path);
      if edits[n].onClone == onClone && edits[n].path == path then before + [edits[n].op] else before
  }

  lemma RunOpsSnoc(s: QuerySpec, ops: seq<Op>, op: Op)
    ensures RunOps(s, ops + [op]) == Edited(RunOps(s, ops), op)
  {
    assert (ops + [op])[..|ops|] == ops;
  }

  /** After any interleaving of calls, every builder of either tree has the settings that exactly the calls made on
      it, in order, give it. With CloneAndEdit this says what a clone and its original ask for. */
  lemma {:induction false} EditsExactly(s: QuerySpec, edits: seq<Edit>, onClone: bool, at: seq<nat>)
    ensures SpecAt(EditAll(s, edits, onClone), at).Some? <==> SpecAt(s, at).Some?
    ensures SpecAt(s, at).Some? ==>
              OwnSettings(SpecAt(EditAll(s, edits, onClone), at).value) ==
              RunOps(OwnSettings(SpecAt(s, at).value), OpsAt(edits, onClone, at))
  {
    hide SpecAt, EditedAt, Edited, OwnSettings;
    if edits != [] {
      var n := |edits| - 1;
      EditsExactly(s, edits[..n], onClone, at);
      if edits[n].onClone == onClone {
        EditReachesOne(EditAll(s, edits[..n], onClone), edits[n].path, edits[n].op, at);
        if SpecAt(s, at).Some? {
          RunOpsSnoc(OwnSettings(SpecAt(s, at).value), OpsAt(edits[..n], onClone, at), edits[n].op);
        }
      }
    }
  }
}
