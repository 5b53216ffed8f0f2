# Verified model of SubioHub's data layer and audit gate

SubioHub keeps its accounts behind generated ent code and lets CI pass or fail on a small Python tool that
compares `pnpm audit` findings with a list of accepted exceptions. This project models both in Dafny and
proves what they do for every input.

| files | system |
|---|---|
| `PyText`, `ExceptionFile`, `AuditReport`, `AdvisoryFields`, `AuditGate`, `AuditOrder` | the audit tool, from the text of the exception file and the parsed JSON report to the exit status |
| `AccountEntity` | the account node, its columns, scanning and assigning a row |
| `AccountCreate`, `CreateFields`, `BulkCreate`, `BulkAgreement` | defaults, checks and insert specs, column by column; one account and whole batches with hooks; when the two agree |
| `EagerLoad`, `ManyToOne`, `OneToMany`, `CommissionLoad`, `QueryRun`, `QueryRerun` | eager loading of edges, a whole account query, and several runs of one query |
| `Runs`, `EdgeUpdate`, `FieldUpdate`, `AccountUpdate` | runs of edge and column calls on an update, the specs they emit, and both update builders |
| `QueryClone`, `QueryCalls` | query builders over Go slices, their clones, and what runs of calls leave in them |

`dafny verify dfyconfig.toml` checks everything.

## What stands for the outside world

- SQL: a batched edge query is an arbitrary function from the keys it is given to an error or a sequence of
  rows, so the loaders are proved for well-behaved and misbehaving answers alike. The root query is an
  arbitrary list of stored accounts, and the driver writes each selected column into its container.
- An insert is an arbitrary function from the batch to generated IDs or an error. Edge specs are read as
  "every clear, then every add", and a clear spec without nodes clears the edge. For the parts of a column
  (set, add, clear) no order is taken for granted, and `NULL + d` may be `NULL` or `d`.
- Validators are arbitrary predicates; where a result says "whatever the validators" it is quantified over them.
- Hooks: any hook that, before calling on, edits the mutation in place, hands over another mutation, or
  fails, and that returns what the next mutator returned.
- `str.lower`, ISO 8601 parsing, today's date and `str()` of lists and objects are parameters. White space,
  splitting, quoting and truth values are modelled exactly. `encoding/json` is a codec that decodes what it
  encoded; decoding into a map that is already there merges, as in Go.
- Column names are an enumeration of the 29 names of `backend/ent/account/account.go` plus "any other name".
- IDs and times are only compared and copied, so they are mathematical integers; `float64` is `real` for the
  same reason.
- The database behind the edges does not change between two runs of one query.

## Findings

Where the code does not do what its comments or names suggest, the model follows the code, shows a failing
input and proves the exact condition.

- `ClearGroups` and `ClearUsageLogs` do not take back an earlier add (`ClearAfterAdd`): a run of calls means what
  it says, one call after the other, if and only if no ID is added, then cleared over, and not mentioned again
  (`SequentialExactly`).
- On the proxy edge `ClearProxy` leaves an earlier `SetProxyID` in place, which `ClearProxyID` does not, and
  `ResetProxy` and `ResetProxyID` each take back only one of the two marks that `ClearProxy` leaves
  (`ProxySurprises`). `ProxySequentialExactly` is the exact condition.
- A column can be named twice in one update: by an add after a set or a clear, and on the mutation also by a set
  after a clear, which a builder does for every optional column that is no number (`TouchedTwice`). The exact
  conditions are `TouchedOnceExactly` for calls on the mutation and `BuilderTouchesOnceExactly` for calls on the
  builder; `OrderFreeExactly` says when the order of the parts then matters.
- `Clone` promises "all associated steps" but drops modifiers (`LockIsLost`): a clone asks for the same if and
  only if there are none at any depth (`CloneAsksTheSame`).
- A query that eager-loads keeps the key filters of its earlier runs, so a later run can miss edges
  (`SecondRunMisses`); it is like a first run if and only if every stored row behind its edges passed the earlier
  filters (`RunAgain`).
- In a bulk save `check` looks at the builder's own mutation before the one handed over by the hooks takes its
  place, so a hook that hands over another mutation can get it stored unchecked (`ReplacementSkipsCheck`). Whatever
  the validators, a bulk save stores only what check accepts if and only if some builder never passes its check,
  or what is handed over is complete and brings no validated value that check has not seen
  (`StoresCheckedExactly`). Single and bulk saves differ there and where a hook fills the gap of a nil default
  (`FilledGap`); `StoreAlikeExactly` and `SameResultExactly` say exactly when they agree.
- The audit verdict can depend on the order of the report when one package and advisory is reported with two
  severities (`OrderMatters`); it is the same in every order if and only if the strictest and the most lenient
  reading of the report agree (`OrderIndependentExactly`).
- Under "vulnerabilities" an entry without a usable identifier yields nothing at all, so a critical one passes
  (`SilentCritical`, `SilentEntryExactly`), while every entry under "advisories" yields a tuple
  (`AdvisoriesSpeak`). A `via` item whose only title is a numeric `source` raises when the titles are joined
  (`NumericSourceRaises`).

## Model

| member | source | states |
|---|---|---|
| ExceptionFile.SplitAtColon | tools/check_pnpm_audit_exceptions.py:12-20 | split_kv cuts at the first colon, trims key and value and drops one pair of matching quotes |
| ExceptionFile.QuotedValue | tools/check_pnpm_audit_exceptions.py:14-20 | one pair of double or of single quotes is dropped from a value |
| ExceptionFile.PlainValue | tools/check_pnpm_audit_exceptions.py:14-20 | a value without matching quotes at its ends stays as it is |
| PyText.SpacesExactly | tools/check_pnpm_audit_exceptions.py:14 | the white space that strip() removes, code point by code point |
| PyText.StripBoth | tools/check_pnpm_audit_exceptions.py:14 | strip() takes white space off both ends and nothing else |
| ExceptionFile.ParseExceptions | tools/check_pnpm_audit_exceptions.py:23-48 | the line loop raises exactly when some line is a bad item, and otherwise returns one record per item line filled by the pairs up to the next item |
| ExceptionFile.ItemHasText | tools/check_pnpm_audit_exceptions.py:33-40 | a stripped item line has text after the dash, so the emptiness tests never drop an item |
| ExceptionFile.CommentSkipped | tools/check_pnpm_audit_exceptions.py:28-30 | blank lines and comments say nothing |
| ExceptionFile.BadItemExactly | tools/check_pnpm_audit_exceptions.py:27-40 | a line raises if and only if its stripped text starts with "- " and holds no colon |
| ExceptionFile.ItemsConserved | tools/check_pnpm_audit_exceptions.py:27-48 | a file that parses yields exactly as many records as it has item lines |
| ExceptionFile.FilesConcat | tools/check_pnpm_audit_exceptions.py:23-48 | when B opens with an item line, A followed by B raises exactly when A or B does, and otherwise parses to parse(A) followed by parse(B) |
| ExceptionFile.PrintedPair | tools/check_pnpm_audit_exceptions.py:27-45 | a printed continuation line reads back as its own pair if and only if its key is not one of the reserved beginnings |
| ExceptionFile.FileRoundTrip | tools/check_pnpm_audit_exceptions.py:12-48 | any list of legal records, printed with header and quotes, parses back to itself whatever its values hold |
| ExceptionFile.TextRoundTrip | tools/check_pnpm_audit_exceptions.py:23-48 | the same on the text of the file, with each of the three line ends, for keys and values without line breaks |
| AuditGate.BuildIndex | tools/check_pnpm_audit_exceptions.py:154-185 | the index holds, for each key, the first well-formed exception; the list of findings is exactly the first thing wrong with each exception, and empty exactly for valid exceptions |
| AuditGate.WellFormedExactly | tools/check_pnpm_audit_exceptions.py:156-174 | an exception is well formed exactly when its five required fields are not empty, its date parses and package and advisory are not blank |
| AuditGate.GatedExactly | tools/check_pnpm_audit_exceptions.py:192-196 | a tuple is looked at exactly when it is named and its trimmed severity is high or critical in lower case |
| AuditGate.CoversExactly | tools/check_pnpm_audit_exceptions.py:197-219 | packages are compared trimmed, advisories trimmed and in lower case, severities in lower case or not at all, dates with today |
| AuditGate.CheckVulns | tools/check_pnpm_audit_exceptions.py:192-219 | the pass with its seen set crashes exactly on a truthy severity that is no string; its three lists of findings are stated tuple by tuple without the seen set, and are empty exactly when every looked-at tuple is excused |
| AuditGate.Audit | tools/check_pnpm_audit_exceptions.py:142-243 | exit 0 if and only if the exceptions are valid and every named high or critical tuple has an advisory and a live exception whose severity is blank or that of the first tuple with the key; and exactly when it crashes |
| AuditOrder.PassesBetween | tools/check_pnpm_audit_exceptions.py:192-219 | in every order the verdict lies between that of a checker without seen and a lenient one |
| AuditOrder.BestOrder | tools/check_pnpm_audit_exceptions.py:192-219 | some order of the same tuples reaches the lenient bound |
| AuditOrder.WorstOrder | tools/check_pnpm_audit_exceptions.py:192-219 | some order of the same tuples reaches the strict bound |
| AuditOrder.OrderIndependentExactly | tools/check_pnpm_audit_exceptions.py:192-219 | the verdict is the same in every order if and only if the two bounds agree |
| AuditOrder.SeenIsInvisible | tools/check_pnpm_audit_exceptions.py:192-206 | with one severity per key the verdict is that of the checker without seen |
| AuditOrder.FewerTuplesStillPass | tools/check_pnpm_audit_exceptions.py:192-219 | with one severity per key, dropping tuples never turns a pass into a failure |
| AuditOrder.OnlyTheSetMatters | tools/check_pnpm_audit_exceptions.py:192-219 | with one severity per key, permuting and repeating tuples leaves the verdict alone |
| AuditOrder.OrderMatters | tools/check_pnpm_audit_exceptions.py:203-215 | a report that passes and whose reversal fails |
| AuditReport.CollectVia | tools/check_pnpm_audit_exceptions.py:82-105 | the two parallel lists hold identifier and title of every object or string item of "via", in order |
| AuditReport.ReadEntry | tools/check_pnpm_audit_exceptions.py:79-109 | one entry yields a tuple per truthy identifier, or raises on a title that cannot be joined |
| AuditReport.IterVulns | tools/check_pnpm_audit_exceptions.py:64-109 | the stream is complete exactly on a readable report, advisories first and then vulnerabilities, in order |
| AdvisoryFields.PickExactly | tools/check_pnpm_audit_exceptions.py:51-61 | the identifier is the first truthy of github_advisory_id, url, first CVE, number, title, advisory, overview, and falsy if none is; and exactly when reading it raises |
| AdvisoryFields.FirstCveExactly | tools/check_pnpm_audit_exceptions.py:56 | the first item of the list of CVEs, null if there is none |
| AdvisoryFields.AdvisoryTupleExactly | tools/check_pnpm_audit_exceptions.py:67-78 | the name is the first truthy of module_name and name, the severity is severity, the advisory is the first truthy identifier |
| AdvisoryFields.GhsaReported | tools/check_pnpm_audit_exceptions.py:53-78 | an advisory with a GHSA identifier yields, at its place, a tuple with exactly this identifier |
| AdvisoryFields.ViaPartExactly | tools/check_pnpm_audit_exceptions.py:87-105 | an object of "via" gives the first truthy of its five identifier fields and of its four title fields, a string itself |
| AdvisoryFields.EntryPartsExactly | tools/check_pnpm_audit_exceptions.py:82-108 | an entry refers to exactly the parts of its "via" list or to its "via" text |
| AdvisoryFields.ViaGhsaReported | tools/check_pnpm_audit_exceptions.py:79-111 | a "via" object with a GHSA identifier is reported under it, with the name and severity of its entry |
| AuditReport.IdTuplesExactly | tools/check_pnpm_audit_exceptions.py:79-109 | a tuple comes from an entry if and only if one of its truthy identifiers gives it |
| AuditReport.SilentEntryExactly | tools/check_pnpm_audit_exceptions.py:79-109 | an entry yields nothing if and only if none of its identifiers is truthy |
| AuditReport.AdvisoriesSpeak | tools/check_pnpm_audit_exceptions.py:66-78 | every entry under "advisories" yields its own tuple, in order |
| AuditReport.SilentCritical | tools/check_pnpm_audit_exceptions.py:80-110 | a critical entry that refers to nothing yields no tuple |
| AuditReport.NumericSourceRaises | tools/check_pnpm_audit_exceptions.py:88-109 | a "via" object whose only field is a truthy source that is no string raises |
| AuditReport.Run | tools/check_pnpm_audit_exceptions.py:142-243 | the exit status of the whole program from the JSON report and the file lines, and exactly when it crashes |
| AccountEntity.ScanValues | backend/ent/account.go:138-159 | one fresh container of the right type for each column, in order |
| AccountEntity.AssignOneFrame | backend/ent/account.go:167-365 | assigning a column succeeds exactly on a fitting container, changes its own field (NULL keeps it, JSON merges) and no other |
| AccountEntity.NullKeeps | backend/ent/account.go:167-365 | NULL leaves the node as it is, except that a NULL ID becomes zero |
| AccountEntity.JsonMerges | backend/ent/account.go:219-233 | a second JSON object is merged into the first |
| AccountEntity.Account.AssignValues | backend/ent/account.go:161-367 | every field is determined by the occurrences of its own column before the first bad container, which decides the error; unknown names go to selectValues |
| AccountEntity.ScannedRowFits | backend/ent/account.go:138-367 | containers made by scanValues never cause a type or length error, for any column list |
| AccountEntity.LastValueWins | backend/ent/account.go:163-367 | the last non-NULL occurrence of a column decides its field |
| AccountEntity.SelectedExactly | backend/ent/account.go:362-365 | under an unknown name the last value of the row is kept |
| AccountEntity.RowReadsBack | backend/ent/account.go:163-367 | reading a row of a node into a fresh node gives its listed fields and zero elsewhere, in any order and with repetition |
| AccountCreate.StoredForeignKey | backend/ent/account_create.go:728-744 | the many-to-one edge of the spec stores exactly the proxy of the mutation |
| AccountCreate.StoredColumn | backend/ent/account_create.go:594-707 | one stored column reads back as the value createSpec put into the node, nil as NULL |
| AccountCreate.RoundTrip | backend/ent/account_create.go:594-762 | create then read: every accepted mutation, every column list, the read node equals the created one on the listed columns |
| CreateFields.SetThenField | backend/ent/mutation.go:4091-4291 | setting a field is read back under its own name and leaves every other field and the edges alone |
| CreateFields.SettableExactly | backend/ent/mutation.go:4091-4291 | exactly the columns other than the ID can be set |
| CreateFields.DefaultsExactly | backend/ent/account_create.go:451-506 | a set value stays, an unset column before the first nil default gets its own default, everything else and the edges stay, and the error names that first nil default |
| CreateFields.NodeShows | backend/ent/account_create.go:594-762 | the returned node shows each held value in its own column, and zero where nothing is held |
| CreateFields.RowShows | backend/ent/account_create.go:594-762 | so does the stored row, read through any column list |
| CreateFields.SetThenRead | backend/ent/account_create.go:594-762 | set a column, create, read: the value is there under its own column |
| CreateFields.SetChangesOne | backend/ent/account_create.go:594-762 | setting one column changes no other column of the row or the node |
| CreateFields.EdgesExactly | backend/ent/account_create.go:708-761 | the specs link exactly the groups, the proxy and the usage logs, each by its own relation |
| BulkCreate.AccountCreateBulk.ApplyDefaults | backend/ent/account_create.go:1856-1859 | every builder gets its defaults and the error is discarded |
| BulkCreate.AccountCreateBulk.Mutate | backend/ent/account_create.go:1860-1897 | from any hook of any builder inwards: first failure, or one batch, with properly nested hooks |
| BulkCreate.AccountCreateBulk.Innermost | backend/ent/account_create.go:1860-1893 | the innermost mutator: check, spec, next builder or batch, then ID and done flag |
| BulkCreate.AccountCreateBulk.Save | backend/ent/account_create.go:1849-1906 | all or nothing: the error of the first failing builder with no insert and nothing done, or one batch with all specs in order and all mutations done exactly when the driver accepts; with hooks that only look every node shows what its builder was given, or the default |
| BulkCreate.LookingStores | backend/ent/account_create.go:1859-1882 | with hooks that only look, an accepted builder stores in every column what was set or the default, and the edges it was given |
| BulkCreate.HooksExactly | backend/ent/account_create.go:1860-1897 | the hooks lead to the first veto, or to a mutation that has been through every hook in order, with the builder's own one left where the first replacement came |
| BulkCreate.SameSuffix | backend/ent/account_create.go:1871-1872 | what happens from builder i on depends on the builders from i on only |
| BulkCreate.DescentIsComplete | backend/ent/account_create.go:1894-1897 | when no builder fails, every hook is entered once, by builder and then by hook |
| BulkCreate.OneBatchAtMost | backend/ent/account_create.go:1871-1882 | the way down holds hook entries only and the way up exits only, so there is at most one batch |
| BulkCreate.DefaultsLeaveAGap | backend/ent/account_create.go:451-574 | every early exit of defaults leaves unset a field that check requires |
| BulkCreate.InsertedIsChecked | backend/ent/account_create.go:1865-1870 | if hooks never hand over another mutation, everything inserted has passed check |
| BulkCreate.LookingHooksAgree | backend/ent/account_create.go:421-426 | with hooks that only look, single and bulk save accept the same builders and store the same fields |
| BulkCreate.InitializedAgree | backend/ent/account_create.go:1859-1870 | with all defaults in place and no replacement, single and bulk save agree on every result |
| BulkCreate.ReplacementSkipsCheck | backend/ent/account_create.go:1865-1868 | for every rejected mutation there is a hook that gets it stored by bulk and refused by single save |
| BulkCreate.FilledGap | backend/ent/account_create.go:1859-1868 | with a nil default, a hook that fills the gap is accepted by bulk and refused by single save |
| BulkAgreement.ChecksExactly | backend/ent/account_create.go:508-574 | check passes exactly when no required field is missing and every validated value that is set is accepted |
| BulkAgreement.MissingExactly | backend/ent/account_create.go:508-574 | check asks for exactly the thirteen required fields, in this order |
| BulkAgreement.ChecksAlikeExactly | backend/ent/account_create.go:508-574 | two mutations get the same result from check under all validators exactly when they miss the same field first and show the validators the same values |
| BulkAgreement.AcceptedAlikeExactly | backend/ent/account_create.go:508-574 | two mutations are accepted by the same validators exactly when both are incomplete or both are complete with the same validated values |
| BulkAgreement.StoresCheckedExactly | backend/ent/account_create.go:1859-1882 | whatever the validators, a bulk save stores only what check accepts, if and only if some builder never passes or all that is handed over is complete and vouched for in the batch |
| BulkAgreement.StoresCheckedAlone | backend/ent/account_create.go:1859-1882 | the same for one builder: the handed-over values are unset or the builder's own |
| BulkAgreement.StoreAlikeExactly | backend/ent/account_create.go:421-426 | whatever the validators, single and bulk save accept and store the same if and only if a hook vetoes, or a nil default leaves a gap that stays, or own and handed-over mutation agree as far as check is concerned |
| BulkAgreement.SameResultExactly | backend/ent/account_create.go:421-426 | the same for the whole result, errors included |
| EagerLoad.IndexById | backend/ent/account_query.go:543-552 | the index from ID to node keeps the last node of each ID |
| EagerLoad.ScanRow | backend/ent/account_query.go:569-575 | the account key is in front and the group's own columns follow in order |
| EagerLoad.ReadGroupId | backend/ent/account_query.go:576-578 | the second value is the ID of the group that Assign builds |
| EagerLoad.ReadGroupExactly | backend/ent/account_query.go:576-584 | a group holds exactly the columns that were read, each with the row's value |
| EagerLoad.CollectRows | backend/ent/account_query.go:565-587 | with containers as the rewritten ScanValues lays them out, for any column list with the ID first: the neighbours are the groups in first-appearance order, read from the columns after the account key, and each group's set holds exactly the nodes its rows point to |
| EagerLoad.AssignGroup | backend/ent/account_query.go:597-599 | whatever the order of the set, every target gets the group once |
| EagerLoad.DistributeGroups | backend/ent/account_query.go:592-600 | every node gets the groups whose set it is in, in neighbour order; the unexpected-node error does not occur for recorded groups |
| EagerLoad.LoadGroups | backend/ent/account_query.go:542-602 | succeeds exactly when every row belongs to an account, and then gives each last node of an ID its join in first-appearance order; "unexpected node" never happens |
| EagerLoad.JoinedIsTheJoin | backend/ent/account_query.go:576-600 | the loaded list has no group twice and holds a group exactly when the account has a row with it |
| EagerLoad.JoinedInOrder | backend/ent/account_query.go:576-600 | the list is in global first-appearance order, each group as read from its first row |
| EagerLoad.JoinIgnoresOrder | backend/ent/account_query.go:576-600 | the groups an account ends with do not depend on order or repetition of rows |
| ManyToOne.IndexKeys | backend/ent/account_query.go:604-615 | each distinct key once in first-occurrence order, and the bucket of a key is exactly its nodes |
| ManyToOne.DistinctKeysInOrder | backend/ent/account_query.go:604-615 | keys are asked for in the order of their first occurrence |
| ManyToOne.BucketsPartition | backend/ent/account_query.go:604-615 | every node with a key is in the bucket of its key and in no other, and the buckets together hold as many nodes as have a key |
| ManyToOne.LoadProxy | backend/ent/account_query.go:603-634 | no query without keys, one query otherwise; fails exactly on a proxy nobody asked for; every account gets the proxy of its key |
| ManyToOne.NeighbourExactly | backend/ent/account_query.go:624-632 | a node has a neighbour exactly when one with its key was returned |
| ManyToOne.LastNeighbourStays | backend/ent/account_query.go:624-632 | of several neighbours with one key the last one stays |
| OneToMany.LoadUsageLogs | backend/ent/account_query.go:635-664 | succeeds exactly when every child belongs to an account, and then each last node of an ID has its children in order |
| OneToMany.LoadAccountGroups | backend/ent/account_query.go:665-694 | the same for the membership rows |
| OneToMany.ChildrenConserved | backend/ent/account_query.go:655-662 | with distinct IDs the lengths of the lists sum to the number of children |
| OneToMany.ChildInOneList | backend/ent/account_query.go:655-662 | a child is in the list of its own parent and in no other |
| OneToMany.ChildrenInOrder | backend/ent/account_query.go:655-662 | the lists keep the order in which the children came |
| CommissionLoad.AssignTarget | backend/ent/commissionlog_query.go:517-519 | a neighbour goes to every log that carries its key, on its own edge only |
| CommissionLoad.Load | backend/ent/commissionlog_query.go:494-586 | each of the three loaders fills its own edge by its own key and leaves the others |
| CommissionLoad.LoadAll | backend/ent/commissionlog_query.go:473-490 | the loads commute: the result does not depend on their order, and each edge is looked up by its own key |
| CommissionLoad.LoadedExactly | backend/ent/commissionlog_query.go:512-520 | an edge is set exactly when a target with its key was returned |
| QueryRun.PrepareQuery | backend/ent/account_query.go:465-469 | accepts exactly the selections of known columns and otherwise names the first unknown one |
| QueryRun.QueryColumns | backend/ent/account_query.go:716-727 | the ID, then the selected fields in order and as often as selected, then the proxy key when the edge is requested and the key not selected; no selection reads every field |
| QueryRun.AllColumnsComplete | backend/ent/account/account.go:112-143 | no selection reads every field |
| QueryRun.BuildNode | backend/ent/account_query.go:491-499 | a row becomes a node that agrees with it on the columns read and is zero elsewhere |
| QueryRun.LoadEdges | backend/ent/account_query.go:512-538 | the four loads do not disturb each other and succeed exactly when every requested query answers properly |
| QueryRun.SqlAll | backend/ent/account_query.go:480-540 | one node per row with its ID and selected fields, and edges that depend on rows and edge queries only, not on the selection |
| QueryRun.ProxyReported | backend/ent/account.go:110-117 | ProxyOrErr says not loaded exactly when not requested, and not found exactly when requested without a match |
| QueryRun.ListsReported | backend/ent/account.go:101-136 | the other accessors say not loaded exactly when not requested, and otherwise return the loaded list |
| QueryRerun.SameChildrenExactly | backend/ent/account_query.go:645-653 | a later run gives every account its children if and only if every stored child of these accounts passed the earlier filters |
| QueryRerun.SameProxyExactly | backend/ent/account_query.go:617-624 | the same for the proxy edge |
| QueryRerun.Rerunnable.Run | backend/ent/account_query.go:480-540 | one run in any state of the nested builders: its edges, and the filters it leaves behind |
| QueryRerun.FiltersExactly | backend/ent/account_query.go:617-650 | the filters that earlier runs leave: for each requested edge the keys of every run that asked |
| QueryRerun.RunAgain | backend/ent/account_query.go:480-540 | after any earlier runs, a run gives the edges of a first run if and only if no stored row behind them was shut out by an earlier filter |
| QueryRerun.SecondRunMisses | backend/ent/account_query.go:648-650 | a query that has run for one account misses the usage logs of another |
| EdgeUpdate.EdgeMutation.AddIDs | backend/ent/mutation.go:3702-3709 | a save also links the IDs, whatever happened to them before |
| EdgeUpdate.EdgeMutation.RemoveIDs | backend/ent/mutation.go:3722-3730 | a save leaves none of the IDs linked |
| EdgeUpdate.EdgeMutation.Emit | backend/ent/account_update.go:810-866 | the emitted specs, applied to any links, leave what was neither cleared nor removed together with what was added |
| EdgeUpdate.ProxyMutation.Emit | backend/ent/account_update.go:867-895 | the emitted specs, applied to any foreign key, store the recorded proxy, or NULL if cleared, or leave the key |
| EdgeUpdate.EdgesApart | backend/ent/account_update.go:810-940 | specs of different edges in one update do not disturb each other |
| EdgeUpdate.SaveRun | backend/ent/account_update.go:810-940 | any interleaving of edge calls, resets included, then the save: on each set edge the specs leave the sequential meaning plus exactly the stale IDs, on the proxy edge the saved key |
| EdgeUpdate.SavedIsSequentialPlusStale | backend/ent/mutation.go:3702-3753 | for every run of calls, saving gives the sequential meaning plus exactly the stale IDs |
| EdgeUpdate.StaleExactly | backend/ent/mutation.go:3702-3730 | an ID is stale if and only if it was added, then cleared over, and not mentioned since |
| EdgeUpdate.SequentialExactly | backend/ent/account_update.go:810-866 | a run means what it says if and only if no ID is added, cleared over and not mentioned again |
| EdgeUpdate.ClearAfterAdd | backend/ent/mutation.go:3712-3714 | an ID added before a clear is still linked by the save |
| EdgeUpdate.ProxyRunExactly | backend/ent/mutation.go:3756-3780 | a run leaves a proxy exactly when the last call other than ClearProxy sets it, and each cleared mark exactly when a clear is not followed by its own reset |
| EdgeUpdate.ProxySequentialExactly | backend/ent/mutation.go:3756-3780 | the proxy calls mean what they say if and only if no SetProxyID is followed by ClearProxy only and, where there is a proxy, no clear outlives a closing reset |
| EdgeUpdate.ProxySurprises | backend/ent/mutation.go:2811-2814 | the three shortest runs that do not mean what they say |
| FieldUpdate.RunExactly | backend/ent/mutation.go:2873-2940 | what a run of set, add, clear and reset leaves recorded, in terms of its lasting calls |
| FieldUpdate.TouchedOnceExactly | backend/ent/mutation.go:2873-2940 | the update names the column at most once if and only if no two lasting calls conflict |
| FieldUpdate.SaveRun | backend/ent/account_update.go:714-722 | any calls on the mutation and then the save: the emitted parts, call by call, and when there is more than one |
| FieldUpdate.BuilderTouchesOnceExactly | backend/ent/account_update.go:176-200 | calls on the builder name the column twice if and only if they end with an add after a set or a clear |
| FieldUpdate.TouchedTwice | backend/ent/mutation.go:2873-2911 | a set after a clear and an add after a set are both emitted |
| FieldUpdate.ClearSetAdd | backend/ent/account_update.go:714-722 | carried out as clear, set, add, the parts mean what the calls say, for every run |
| FieldUpdate.OrderFreeExactly | backend/ent/account_update.go:714-722 | they mean it in every order if and only if no two of the parts get in each other's way |
| AccountUpdate.FieldsOfExactly | backend/ent/account_update.go:678-809 | a column is set, added to or cleared in the spec exactly when the mutation says so |
| AccountUpdate.UpdateColumnsExactly | backend/ent/account_update.go:678-809 | sqlSave visits exactly the columns other than the ID, the creation time and the proxy key, each once |
| AccountUpdate.KindsExactly | backend/ent/account_update.go:678-809 | the four columns that can be added to and the fourteen that can be cleared |
| AccountUpdate.FieldsEmitExactly | backend/ent/account_update.go:678-809 | every updatable column is set, added to or cleared in the spec exactly when the mutation records it, and named at most once in each list |
| AccountUpdate.UpdateChecksExactly | backend/ent/account_update.go:637-664 | check passes exactly when each of the five validated values is unset or accepted |
| AccountUpdate.EmitEdges | backend/ent/account_update.go:810-940 | the edge specs of a whole mutation, by shape and by effect |
| AccountUpdate.AccountUpdate.SqlSave | backend/ent/account_update.go:666-940 | succeeds exactly when every validated value that is set is accepted, and then emits exactly what the mutation records, column by column and edge by edge |
| AccountUpdate.AccountUpdateOne.NodeColumns | backend/ent/account_update.go:1616-1627 | the columns read back, or the first unknown name of the selection |
| AccountUpdate.AccountUpdateOne.SqlSave | backend/ent/account_update.go:1606-1897 | also needs an ID and a proper selection, and then emits exactly what the mutation records |
| AccountUpdate.SaveBoth | backend/ent/account_update.go:1635-1897 | for one mutation both builders emit the same predicates, fields and edges |
| QueryClone.Query.Where | backend/ent/account_query.go:42-45 | the predicates are appended, in place or in a new array, and the nested builders are untouched |
| QueryClone.Query.Order | backend/ent/account_query.go:67-70 | the same for order terms |
| QueryClone.Query.SetContext | backend/ent/account_query.go:48-64 | Limit, Offset, Unique and Select change their own setting of the context and no other |
| QueryClone.Query.Lock | backend/ent/account_query.go:789-812 | ForUpdate and ForShare add a modifier and, on Postgres, switch de-duplication off |
| QueryClone.Query.CloneEdges | backend/ent/account_query.go:352-355 | the nested builders are cloned without sharing |
| QueryClone.Query.Clone | backend/ent/account_query.go:342-360 | the clone shares nothing with the original and asks for the same without modifiers |
| QueryClone.CloneAndEdit | backend/ent/account_query.go:340-360 | any interleaving of later calls on clone, original and nested builders leaves each as if the other were not there |
| QueryClone.CloneAsksTheSame | backend/ent/account_query.go:342-360 | a clone asks for the same if and only if there are no modifiers at any depth |
| QueryClone.LockIsLost | backend/ent/account_query.go:789-812 | a builder that locks its rows asks for more than its clone |
| QueryCalls.LimitExactly | backend/ent/account_query.go:48-51 | after any run of calls the limit is that of the last Limit |
| QueryCalls.OffsetExactly | backend/ent/account_query.go:54-57 | the offset is that of the last Offset |
| QueryCalls.UniqueExactly | backend/ent/account_query.go:61-64 | de-duplication is as the last Unique or Postgres lock says |
| QueryCalls.ListsExactly | backend/ent/account_query.go:42-70 | predicates, order terms, fields and modifiers are the old ones followed by the arguments of their own calls; nothing else changes |
| QueryCalls.EditReachesOne | backend/ent/account_query.go:342-360 | a call reaches the nested builder it is made on and no other |
| QueryCalls.EditsExactly | backend/ent/account_query.go:340-360 | after any interleaving of calls every builder of clone and original has the settings that exactly the calls made on it give it |

## Left out

- BuildIndex: the wording of messages is not modelled; findings name the kind and the position of the entry.
- The SQL library, transactions, locks, interceptors and traversal paths (`path`, `sql`): not part of the repository. That interceptors are copied by `Clone` is modelled, what they do is not.
- RunAgain: the groups edge is not among the edges of repeated runs, because its second run joins the same table twice and what that selects is up to the SQL library.
- The update default of `updated_at`, which both update builders set before `sqlSave`.
- Conflict options and upserts (`OnConflict`, `UpdateNewValues`): lists of options whose effect is that of the SQL library.
- `createSpec`, `defaults`, `check` and the field part of `sqlSave` are modelled on values: one `if` per column becomes one function over the columns.
- FieldUpdate.SaveRun: the sum of several adds is a mathematical integer, so wrap-around of `int` is not captured.
- Builders listed twice in one bulk save, and hooks that act after the next mutator has returned.
- Entities reached over an edge are values: that several accounts share one group pointer is not captured. The columns of a group other than its ID are carried as scanned.
- CloneAndEdit: sharing of backing arrays is modelled for predicates and order terms; selected fields, interceptors and modifiers are value sequences.
- The selection of a child query (`AppendFieldOnce` of the foreign key), counting, grouping, `First`, `Only` and `Exist`: they narrow or summarise the result of the modelled run and the summary is computed by the database.
- The announcement, API-key, account-group and commission-rule packages are generated from the same templates with other columns.
- Reading files, command-line arguments and JSON parsing in the audit tool.
