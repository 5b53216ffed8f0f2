/** Running one account query several times. Each load of backend/ent/account_query.go appends its key filter to
    the nested builder and nothing takes it off again, so a later run is filtered by the keys of every
    earlier one. The edge tables do not change between the runs. */
module QueryRerun {
  import opened Wrappers
  import opened AccountEntity
  import opened EagerLoad
  import opened ManyToOne
  import opened OneToMany
  import opened QueryRun

  // ----- a nested builder and its filters -----

  predicate PassesAll(key: int, filters: seq<seq<int>>) {
    forall f :: f in filters ==> key in f
  }

  /** The rows of a table that every filter admits, in table order. */
  function Admitted<R>(rows: seq<R>, fk: R -> int, filters: seq<seq<int>>): seq<R> {
    if rows == [] then []
    else
      var n := |rows| - 1;
      Admitted(rows[..n], fk, filters) + if PassesAll(fk(rows[n]), filters) then [rows[n]] else []
  }

  /** The next query of a nested builder that has collected some filters. */
  function QueryOf<R>(rows: seq<R>, fk: R -> int, filters: seq<seq<int>>): Query<R> {
    (keys: seq<int>) => Ok(Admitted(rows, fk, filters + [keys]))
  }

  lemma {:induction false} AdmittedExactly<R>(rows: seq<R>, fk: R -> int, filters: seq<seq<int>>, r: R)
    ensures r in Admitted(rows, fk, filters) <==> r in rows && PassesAll(fk(r), filters)
  {
    hide PassesAll;
    if rows != [] {
      var n := |rows| - 1;
      assert rows == rows[..n] + [rows[n]];
      AdmittedExactly(rows[..n], fk, filters, r);
    }
  }

  /** Every stored row with one of these keys passed the earlier filters. */
  ghost predicate AlwaysAsked<R(!new)>(rows: seq<R>, fk: R -> int, filters: seq<seq<int>>, keys: seq<int>) {
    forall r :: r in rows && fk(r) in keys ==> PassesAll(fk(r), filters)
  }

  lemma {:induction false} SameAdmitted<R(!new)>(rows: seq<R>, fk: R -> int, filters: seq<seq<int>>, keys: seq<int>)
    requires AlwaysAsked(rows, fk, filters, keys)
    ensures Admitted(rows, fk, filters + [keys]) == Admitted(rows, fk, [keys])
  {
    if rows != [] {
      var n := |rows| - 1;
      assert rows == rows[..n] + [rows[n]];
      SameAdmitted(rows[..n], fk, filters, keys);
      KeysLast(fk(rows[n]), filters, keys);
      KeysLast(fk(rows[n]), [], keys);
      assert [] + [keys] == [keys];
    }
  }

  lemma KeysLast(key: int, filters: seq<seq<int>>, keys: seq<int>)
    ensures PassesAll(key, filters + [keys]) <==> PassesAll(key, filters) && key in keys
  {
    assert keys in filters + [keys];
  }

  lemma AdmittedByBoth<R>(rows: seq<R>, fk: R -> int, filters: seq<seq<int>>, keys: seq<int>, r: R)
    ensures r in QueryOf(rows, fk, filters)(keys).value <==> r in rows && PassesAll(fk(r), filters) && fk(r) in keys
  {
    AdmittedExactly(rows, fk, filters + [keys], r);
    KeysLast(fk(r), filters, keys);
  }

  lemma AnswersAsked<T(!new)>(rows: seq<T>, fk: T -> int, filters: seq<seq<int>>, ids: seq<int>)
    ensures Answers(Some(QueryOf(rows, fk, filters)), ids, fk)
  {
    forall r | r in QueryOf(rows, fk, filters)(ids).value ensures fk(r) in ids {
      AdmittedByBoth(rows, fk, filters, ids, r);
    }
  }

  lemma NoFilters(key: int)
    ensures PassesAll(key, [])
  {
  }

  /** A stored child that an earlier filter shuts out is missing from its account in the later run. */
  lemma MissedChild<T(!new)>(rows: seq<T>, fk: T -> int, filters: seq<seq<int>>, ids: seq<int>, r: T) returns (i: nat)
    requires r in rows && fk(r) in ids && !PassesAll(fk(r), filters)
    requires Answers(Some(QueryOf(rows, fk, filters)), ids, fk) && Answers(Some(QueryOf(rows, fk, [])), ids, fk)
    ensures i < |ids|
    ensures ExpectedChildren(Some(QueryOf(rows, fk, filters)), ids, fk, i) != ExpectedChildren(Some(QueryOf(rows, fk, [])), ids, fk, i)
  {
    hide PassesAll, Admitted, ChildrenOf;
    var k :| 0 <= k < |ids| && ids[k] == fk(r);
    i := LastWith(ids, k, |ids|);
    NoFilters(fk(r));
    AdmittedByBoth(rows, fk, filters, ids, r);
    AdmittedByBoth(rows, fk, [], ids, r);
    ChildInOneList(QueryOf(rows, fk, filters)(ids).value, fk, ids[i], r);
    ChildInOneList(QueryOf(rows, fk, [])(ids).value, fk, ids[i], r);
  }

  lemma SameAnswer<R(!new)>(rows: seq<R>, fk: R -> int, filters: seq<seq<int>>, keys: seq<int>)
    requires AlwaysAsked(rows, fk, filters, keys)
    ensures QueryOf(rows, fk, filters)(keys) == QueryOf(rows, fk, [])(keys)
  {
    SameAdmitted(rows, fk, filters, keys);
    assert [] + [keys] == [keys];
  }

  ghost predicate SameChildren<T(!new)>(rows: seq<T>, fk: T -> int, filters: seq<seq<int>>, ids: seq<int>, i: nat)
    requires i < |ids|
    requires Answers(Some(QueryOf(rows, fk, filters)), ids, fk) && Answers(Some(QueryOf(rows, fk, [])), ids, fk)
  {
    ExpectedChildren(Some(QueryOf(rows, fk, filters)), ids, fk, i) == ExpectedChildren(Some(QueryOf(rows, fk, [])), ids, fk, i)
  }

  /** The one-to-many edge: a later run gives every account the children a first run would give it if and
      only if every stored child of these accounts passed the earlier filters. */
  lemma SameChildrenExactly<T(!new)>(rows: seq<T>, fk: T -> int, filters: seq<seq<int>>, ids: seq<int>)
    ensures Answers(Some(QueryOf(rows, fk, filters)), ids, fk) && Answers(Some(QueryOf(rows, fk, [])), ids, fk)
    ensures (forall i :: 0 <= i < |ids| ==> SameChildren(rows, fk, filters, ids, i)) <==> AlwaysAsked(rows, fk, filters, ids)
  {
    hide QueryOf, PassesAll, Answers;
    AnswersAsked(rows, fk, filters, ids);
    AnswersAsked(rows, fk, [], ids);
    if AlwaysAsked(rows, fk, filters, ids) {
      SameAnswer(rows, fk, filters, ids);
    } else {
      var r :| r in rows && fk(r) in ids && !PassesAll(fk(r), filters);
      var i := MissedChild(rows, fk, filters, ids, r);
      assert !SameChildren(rows, fk, filters, ids, i);
    }
  }

  lemma ProxyAnswersAsked(rows: seq<Proxy>, filters: seq<seq<int>>, keys: seq<Option<int>>)
    ensures ProxyAnswers(Some(QueryOf(rows, PROXY_ID, filters)), keys)
  {
    hide DistinctKeys, Admitted;
    var ids := DistinctKeys(keys);
    forall r | r in QueryOf(rows, PROXY_ID, filters)(ids).value ensures r.id in ids {
      AdmittedByBoth(rows, PROXY_ID, filters, ids, r);
    }
  }

  ghost predicate SameProxy(rows: seq<Proxy>, filters: seq<seq<int>>, keys: seq<Option<int>>, i: nat)
    requires i < |keys|
    requires ProxyAnswers(Some(QueryOf(rows, PROXY_ID, filters)), keys) && ProxyAnswers(Some(QueryOf(rows, PROXY_ID, [])), keys)
  {
    ExpectedProxy(Some(QueryOf(rows, PROXY_ID, filters)), keys, i) == ExpectedProxy(Some(QueryOf(rows, PROXY_ID, [])), keys, i)
  }

  /** A stored proxy that an earlier filter shuts out is missing from the accounts with its key. */
  lemma MissedProxy(rows: seq<Proxy>, filters: seq<seq<int>>, keys: seq<Option<int>>, r: Proxy) returns (i: nat)
    requires r in rows && r.id in DistinctKeys(keys) && !PassesAll(r.id, filters)
    requires ProxyAnswers(Some(QueryOf(rows, PROXY_ID, filters)), keys) && ProxyAnswers(Some(QueryOf(rows, PROXY_ID, [])), keys)
    ensures i < |keys| && !SameProxy(rows, filters, keys, i)
  {
    hide PassesAll, Admitted, Neighbour, DistinctKeys;
    var ids := DistinctKeys(keys);
    DistinctKeysExactly(keys, r.id);
    i :| 0 <= i < |keys| && keys[i] == Some(r.id);
    NoFilters(r.id);
    var again, first := QueryOf(rows, PROXY_ID, filters)(ids).value, QueryOf(rows, PROXY_ID, [])(ids).value;
    AdmittedByBoth(rows, PROXY_ID, [], ids, r);
    NeighbourExactly(first, PROXY_ID, keys[i], None);
    forall p | p in again ensures p.id != r.id {
      AdmittedByBoth(rows, PROXY_ID, filters, ids, p);
    }
    NeighbourExactly(again, PROXY_ID, keys[i], None);
  }

  /** The many-to-one edge, in the same way. */
  lemma SameProxyExactly(rows: seq<Proxy>, filters: seq<seq<int>>, keys: seq<Option<int>>)
    ensures ProxyAnswers(Some(QueryOf(rows, PROXY_ID, filters)), keys) && ProxyAnswers(Some(QueryOf(rows, PROXY_ID, [])), keys)
    ensures (forall i :: 0 <= i < |keys| ==> SameProxy(rows, filters, keys, i))
            <==> AlwaysAsked(rows, PROXY_ID, filters, DistinctKeys(keys))
  {
    hide QueryOf, PassesAll, DistinctKeys, Neighbour, ProxyAnswers;
    ProxyAnswersAsked(rows, filters, keys);
    ProxyAnswersAsked(rows, [], keys);
    if AlwaysAsked(rows, PROXY_ID, filters, DistinctKeys(keys)) {
      SameAnswer(rows, PROXY_ID, filters, DistinctKeys(keys));
    } else {
      var r :| r in rows && PROXY_ID(r) in DistinctKeys(keys) && !PassesAll(PROXY_ID(r), filters);
      var i := MissedProxy(rows, filters, keys, r);
    }
  }

  // ----- the whole query -----

  datatype Db = Db(proxies: seq<Proxy>, logs: seq<UsageLog>, memberships: seq<AccountGroup>)

  /** The filters that the nested builders have collected. */
  datatype Filters = Filters(proxies: seq<seq<int>>, logs: seq<seq<int>>, memberships: seq<seq<int>>)

  const NO_FILTERS := Filters([], [], [])

  datatype Wanted = Wanted(fields: seq<Column>, proxy: bool, logs: bool, memberships: bool)

  /** The account query over nested builders in the given state. */
  function Asking(db: Db, want: Wanted, f: Filters): AccountQuery {
    AccountQuery(want.fields, None,
                 if want.proxy then Some(QueryOf(db.proxies, PROXY_ID, f.proxies)) else None,
                 if want.logs then Some(QueryOf(db.logs, LOG_FK, f.logs)) else None,
                 if want.memberships then Some(QueryOf(db.memberships, MEMBERSHIP_FK, f.memberships)) else None)
  }

  /** The filters after one more run: a run without rows loads nothing, and proxies are not asked for when no
      row has a proxy key. */
  function Grown(want: Wanted, f: Filters, table: seq<AccountCols>): Filters {
    if table == [] then f
    else
      var ids, keys := TableIds(table), DistinctKeys(TableKeys(table));
      Filters(if want.proxy && keys != [] then f.proxies + [keys] else f.proxies,
              if want.logs then f.logs + [ids] else f.logs,
              if want.memberships then f.memberships + [ids] else f.memberships)
  }

  function GrownAll(want: Wanted, tables: seq<seq<AccountCols>>): Filters {
    if tables == [] then NO_FILTERS else Grown(want, GrownAll(want, tables[..|tables| - 1]), tables[|tables| - 1])
  }

  /** The IDs of every earlier run that had rows. */
  function IdLists(tables: seq<seq<AccountCols>>): seq<seq<int>> {
    if tables == [] then []
    else
      var last, before := tables[|tables| - 1], IdLists(tables[..|tables| - 1]);
      if last == [] then before else before + [TableIds(last)]
  }

  /** The distinct proxy keys of every earlier run that had any. */
  function KeyLists(tables: seq<seq<AccountCols>>): seq<seq<int>> {
    if tables == [] then []
    else
      var keys, before := DistinctKeys(TableKeys(tables[|tables| - 1])), KeyLists(tables[..|tables| - 1]);
      if keys == [] then before else before + [keys]
  }

  /** The filters that any earlier runs leave: for each requested edge the keys of every run that asked. */
  lemma {:induction false} FiltersExactly(want: Wanted, tables: seq<seq<AccountCols>>)
    ensures GrownAll(want, tables) ==
            Filters(if want.proxy then KeyLists(tables) else [], if want.logs then IdLists(tables) else [],
                    if want.memberships then IdLists(tables) else [])
  {
    if tables != [] {
      FiltersExactly(want, tables[..|tables| - 1]);
      assert TableKeys([]) == [] && DistinctKeys([]) == [];
    }
  }

  class Rerunnable {
    const db: Db
    const want: Wanted
    var filters: Filters

    constructor (db: Db, want: Wanted)
      ensures this.db == db && this.want == want && filters == NO_FILTERS
    {
      this.db, this.want, this.filters := db, want, NO_FILTERS;
    }

    /** One run over the rows that the root query returns. It never fails, and its edges are those of the
        query that the nested builders ask by now. */
    method Run(codec: JsonCodec, table: seq<AccountCols>) returns (nodes: seq<Account>)
      requires codec.Lossless()
      modifies this
      ensures |nodes| == |table| && fresh(nodes)
      ensures filters == Grown(want, old(filters), table)
      ensures AllAnswer(Asking(db, want, old(filters)), table)
      ensures forall i :: 0 <= i < |table| ==> nodes[i].edges == ExpectedEdges(Asking(db, want, old(filters)), table, i)
    {
      hide Asking, AllAnswer, ExpectedEdges, Selected, JsonCodec.Lossless;
      AlwaysAnswers(db, want, filters, table);
      var r := SqlAll(codec, Asking(db, want, filters), Ok(table));
      nodes := r.value;
      filters := Grown(want, filters, table);
    }
  }

  lemma AlwaysAnswers(db: Db, want: Wanted, f: Filters, table: seq<AccountCols>)
    ensures AllAnswer(Asking(db, want, f), table)
  {
    var ids := TableIds(table);
    SameChildrenExactly(db.logs, LOG_FK, f.logs, ids);
    SameChildrenExactly(db.memberships, MEMBERSHIP_FK, f.memberships, ids);
    SameProxyExactly(db.proxies, f.proxies, TableKeys(table));
    hide QueryOf, DistinctKeys;
  }

  /** Every stored row behind the requested edges of these accounts passed the filters of the earlier runs. */
  ghost predicate NothingMissed(db: Db, want: Wanted, f: Filters, table: seq<AccountCols>) {
    var ids := TableIds(table);
    && (want.proxy ==> AlwaysAsked(db.proxies, PROXY_ID, f.proxies, DistinctKeys(TableKeys(table))))
    && (want.logs ==> AlwaysAsked(db.logs, LOG_FK, f.logs, ids))
    && (want.memberships ==> AlwaysAsked(db.memberships, MEMBERSHIP_FK, f.memberships, ids))
  }

  /** The edges of every account are those of a first run. */
  ghost predicate LikeAFirstRun(db: Db, want: Wanted, table: seq<AccountCols>, nodes: seq<Account>)
    reads nodes
    requires |nodes| == |table| && AllAnswer(Asking(db, want, NO_FILTERS), table)
  {
    forall i :: 0 <= i < |table| ==> nodes[i].edges == ExpectedEdges(Asking(db, want, NO_FILTERS), table, i)
  }

  ghost predicate SameEdges(db: Db, want: Wanted, f: Filters, table: seq<AccountCols>, i: nat)
    requires i < |table| && AllAnswer(Asking(db, want, f), table) && AllAnswer(Asking(db, want, NO_FILTERS), table)
  {
    ExpectedEdges(Asking(db, want, f), table, i) == ExpectedEdges(Asking(db, want, NO_FILTERS), table, i)
  }

  lemma SameEdgesAt(db: Db, want: Wanted, f: Filters, table: seq<AccountCols>, i: nat)
    requires i < |table| && AllAnswer(Asking(db, want, f), table) && AllAnswer(Asking(db, want, NO_FILTERS), table)
    requires ProxyAnswers(Some(QueryOf(db.proxies, PROXY_ID, f.proxies)), TableKeys(table))
    requires ProxyAnswers(Some(QueryOf(db.proxies, PROXY_ID, [])), TableKeys(table))
    requires Answers(Some(QueryOf(db.logs, LOG_FK, f.logs)), TableIds(table), LOG_FK)
    requires Answers(Some(QueryOf(db.logs, LOG_FK, [])), TableIds(table), LOG_FK)
    requires Answers(Some(QueryOf(db.memberships, MEMBERSHIP_FK, f.memberships)), TableIds(table), MEMBERSHIP_FK)
    requires Answers(Some(QueryOf(db.memberships, MEMBERSHIP_FK, [])), TableIds(table), MEMBERSHIP_FK)
    ensures SameEdges(db, want, f, table, i) <==>
            && (want.proxy ==> SameProxy(db.proxies, f.proxies, TableKeys(table), i))
            && (want.logs ==> SameChildren(db.logs, LOG_FK, f.logs, TableIds(table), i))
            && (want.memberships ==> SameChildren(db.memberships, MEMBERSHIP_FK, f.memberships, TableIds(table), i))
  {
    hide QueryOf, Answers, ProxyAnswers, AllAnswer;
    NothingRequested(TableIds(table), TableKeys(table), i);
    hide ExpectedChildren, ExpectedProxy, ExpectedGroups;
  }

  lemma NothingRequested(ids: seq<int>, keys: seq<Option<int>>, i: nat)
    requires i < |ids| == |keys|
    ensures Answers<UsageLog>(None, ids, LOG_FK) && ExpectedChildren<UsageLog>(None, ids, LOG_FK, i) == []
    ensures Answers<AccountGroup>(None, ids, MEMBERSHIP_FK) && ExpectedChildren<AccountGroup>(None, ids, MEMBERSHIP_FK, i) == []
    ensures ProxyAnswers(None, keys) && ExpectedProxy(None, keys, i) == None
    ensures Answers<JoinRow>(None, ids, ROW_FK) && ExpectedGroups(None, ids, i) == []
  {
  }

  /** The edges of a later run are those of a first run if and only if nothing was missed. */
  lemma SameEdgesExactly(db: Db, want: Wanted, f: Filters, table: seq<AccountCols>)
    requires AllAnswer(Asking(db, want, f), table) && AllAnswer(Asking(db, want, NO_FILTERS), table)
    ensures (forall i :: 0 <= i < |table| ==> SameEdges(db, want, f, table, i)) <==> NothingMissed(db, want, f, table)
  {
    hide QueryOf, Asking, AllAnswer, AlwaysAsked, DistinctKeys, Answers, ProxyAnswers, SameEdges, SameProxy, SameChildren;
    var ids, keys := TableIds(table), TableKeys(table);
    SameChildrenExactly(db.logs, LOG_FK, f.logs, ids);
    SameChildrenExactly(db.memberships, MEMBERSHIP_FK, f.memberships, ids);
    SameProxyExactly(db.proxies, f.proxies, keys);
    forall i | 0 <= i < |table|
      ensures SameEdges(db, want, f, table, i) <==>
              && (want.proxy ==> SameProxy(db.proxies, f.proxies, keys, i))
              && (want.logs ==> SameChildren(db.logs, LOG_FK, f.logs, ids, i))
              && (want.memberships ==> SameChildren(db.memberships, MEMBERSHIP_FK, f.memberships, ids, i))
    {
      SameEdgesAt(db, want, f, table, i);
    }
  }

  /** Any number of runs of one query, and then one more: its edges are those of a first run if and only if
      every stored proxy, usage log and membership behind them passed the filters of all earlier runs. */
  method RunAgain(codec: JsonCodec, db: Db, want: Wanted, earlier: seq<seq<AccountCols>>, table: seq<AccountCols>)
    returns (nodes: seq<Account>)
    requires codec.Lossless()
    ensures |nodes| == |table| && AllAnswer(Asking(db, want, NO_FILTERS), table)
    ensures LikeAFirstRun(db, want, table, nodes) <==> NothingMissed(db, want, GrownAll(want, earlier), table)
  {
    hide AllAnswer, Asking, ExpectedEdges, NothingMissed, Grown, JsonCodec.Lossless;
    var q := new Rerunnable(db, want);
    for k := 0 to |earlier|
      invariant q.filters == GrownAll(want, earlier[..k])
    {
      assert earlier[..k + 1][..k] == earlier[..k];
      var _ := q.Run(codec, earlier[k]);
    }
    assert earlier[..|earlier|] == earlier;
    ghost var f := q.filters;
    nodes := q.Run(codec, table);
    AlwaysAnswers(db, want, NO_FILTERS, table);
    SameEdgesExactly(db, want, f, table);
    assert forall i :: 0 <= i < |table| ==>
        (SameEdges(db, want, f, table, i) <==> nodes[i].edges == ExpectedEdges(Asking(db, want, NO_FILTERS), table, i));
  }

  /** A query that has run for one account misses the usage logs of another. */
  lemma SecondRunMisses(db: Db, want: Wanted, first: AccountCols, second: AccountCols, log: UsageLog)
    requires want.logs && first.id != second.id && log in db.logs && log.accountId == second.id
    ensures !NothingMissed(db, want, GrownAll(want, [[first]]), [second])
  {
    var f := GrownAll(want, [[first]]);
    assert [[first]][..0] == [] && GrownAll(want, [[first]][..0]) == NO_FILTERS;
    assert f == Grown(want, NO_FILTERS, [first]);
    assert f.logs == [TableIds([first])] && TableIds([first]) in f.logs;
    assert TableIds([first]) == [first.id] && TableIds([second]) == [second.id];
    assert LOG_FK(log) in TableIds([second]) && !PassesAll(LOG_FK(log), f.logs);
  }
}
