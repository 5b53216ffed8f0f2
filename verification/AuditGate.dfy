/** The decision of tools/check_pnpm_audit_exceptions.py: the normalize_* functions, the exception
    index, the de-duplicating pass over the reported vulnerabilities and the exit status. */
module AuditGate {
  import opened Wrappers
  import opened PyText
  import opened ExceptionFile

  /** What the program takes from its surroundings: the date, ISO 8601 parsing and str.lower(). */
  datatype Env = Env(today: int, parseDate: string -> Option<int>, lower: string -> string)

  /** A JSON value seen through `or`, `not` and str(): null, a string, or anything else by its
      str() text and its truth value. */
  datatype Scalar = Null | Str(text: string) | Other(repr: string, truthy: bool) {
    predicate Truthy() {
      match this
      case Null => false
      case Str(s) => s != ""
      case Other(_, t) => t
    }

    function Text(): string {
      match this
      case Null => "None"
      case Str(s) => s
      case Other(r, _) => r
    }
  }

  /** One tuple of iter_vulns; the title only feeds messages. */
  datatype Vuln = Vuln(name: Scalar, severity: Scalar, advisory: Scalar)

  type Key = (string, string)

  datatype IndexEntry = IndexEntry(severity: string, expires: int)

  /** One line of the error report, naming the offending exception or vulnerability. */
  datatype Finding =
    | MissingFields(exc: nat) | InvalidDate(exc: nat) | BlankKey(exc: nat) | DuplicateKey(exc: nat)
    | NoAdvisoryId(vuln: nat) | SeverityMismatch(vuln: nat) | MissingException(vuln: nat) | Expired(vuln: nat)

  datatype Verdict = Crash | Exit(code: int)

  // ----- normalisation -----

  /** None models the AttributeError of .strip() on a truthy value that is not a string. */
  function NormalizeSeverity(env: Env, s: Scalar): Option<string> {
    if !s.Truthy() then Some(env.lower(Strip("")))
    else if s.Str? then Some(env.lower(Strip(s.text)))
    else None
  }

  function NormalizePackage(s: Scalar): string {
    if s.Null? then "" else Strip(s.Text())
  }

  function NormalizeAdvisory(env: Env, s: Scalar): string {
    if s.Null? then "" else env.lower(Strip(s.Text()))
  }

  predicate IsHigh(severity: string) {
    severity == "high" || severity == "critical"
  }

  /** The tuple is looked at: high or critical, and named. */
  predicate Gated(env: Env, v: Vuln) {
    var sev := NormalizeSeverity(env, v.severity);
    sev.Some? && IsHigh(sev.value) && v.name.Truthy()
  }

  function VulnKey(env: Env, v: Vuln): Key {
    (NormalizePackage(v.name), NormalizeAdvisory(env, v.advisory))
  }

  function Sev(env: Env, v: Vuln): string {
    NormalizeSeverity(env, v.severity).GetOr("")
  }

  // ----- exceptions -----

  predicate Has(exc: Record, field: string) {
    field in exc && exc[field] != ""
  }

  predicate HasAll(exc: Record) {
    Has(exc, "package") && Has(exc, "advisory") && Has(exc, "severity") && Has(exc, "mitigation") && Has(exc, "expires_on")
  }

  function FieldText(exc: Record, field: string): string {
    if field in exc then exc[field] else ""
  }

  function ExcKey(env: Env, exc: Record): Key {
    (NormalizePackage(Str(FieldText(exc, "package"))), NormalizeAdvisory(env, Str(FieldText(exc, "advisory"))))
  }

  function ExcSeverity(env: Env, exc: Record): string {
    env.lower(Strip(FieldText(exc, "severity")))
  }

  function ExcExpiry(env: Env, exc: Record): Option<int> {
    env.parseDate(FieldText(exc, "expires_on"))
  }

  predicate WellFormed(env: Env, exc: Record) {
    && HasAll(exc)
    && ExcExpiry(env, exc).Some?
    && ExcKey(env, exc).0 != "" && ExcKey(env, exc).1 != ""
  }

  function EntryOf(env: Env, exc: Record): IndexEntry
    requires WellFormed(env, exc)
  {
    IndexEntry(ExcSeverity(env, exc), ExcExpiry(env, exc).value)
  }

  /** Every exception is well formed and no two share a normalised key. */
  ghost predicate ValidExceptions(env: Env, excs: seq<Record>) {
    && (forall i :: 0 <= i < |excs| ==> WellFormed(env, excs[i]))
    && (forall i, j :: 0 <= i < j < |excs| ==> ExcKey(env, excs[i]) != ExcKey(env, excs[j]))
  }

  ghost predicate IndexFor(env: Env, excs: seq<Record>, index: map<Key, IndexEntry>) {
    && (forall i :: 0 <= i < |excs| && WellFormed(env, excs[i]) ==> ExcKey(env, excs[i]) in index)
    && (forall k :: k in index ==> exists i :: 0 <= i < |excs| && FirstException(env, excs, i)
                                               && ExcKey(env, excs[i]) == k && index[k] == EntryOf(env, excs[i]))
  }

  /** The exception at i is well formed and the first such one with its key. */
  ghost predicate FirstException(env: Env, excs: seq<Record>, i: nat)
    requires i < |excs|
  {
    && WellFormed(env, excs[i])
    && (forall j :: 0 <= j < i && WellFormed(env, excs[j]) ==> ExcKey(env, excs[j]) != ExcKey(env, excs[i]))
  }

  /** What is reported for the exception at i: the first thing wrong with it, if anything. */
  ghost function ExceptionFinding(env: Env, excs: seq<Record>, i: nat): seq<Finding>
    requires i < |excs|
  {
    if !HasAll(excs[i]) then [MissingFields(i)]
    else if ExcExpiry(env, excs[i]).None? then [InvalidDate(i)]
    else if !WellFormed(env, excs[i]) then [BlankKey(i)]
    else if !FirstException(env, excs, i) then [DuplicateKey(i)]
    else []
  }

  ghost function ExceptionFindings(env: Env, excs: seq<Record>, n: nat): seq<Finding>
    requires n <= |excs|
  {
    if n == 0 then [] else ExceptionFindings(env, excs, n - 1) + ExceptionFinding(env, excs, n - 1)
  }

  /** Builds the index. The first well-formed exception of a key wins, each exception is reported for the
      first thing wrong with it, and something is reported unless the whole list is valid. */
  method BuildIndex(env: Env, excs: seq<Record>) returns (index: map<Key, IndexEntry>, errors: seq<Finding>)
    ensures IndexFor(env, excs, index)
    ensures errors == ExceptionFindings(env, excs, |excs|)
    ensures errors == [] <==> ValidExceptions(env, excs)
  {
    hide ExcKey, ExcExpiry, ExcSeverity, HasAll, IndexFor, FirstException, ValidExceptions, ExceptionFindings, Strip;
    index, errors := map[], [];
    NothingIndexed(env, excs);
    for i := 0 to |excs|
      invariant IndexFor(env, excs[..i], index)
      invariant errors == ExceptionFindings(env, excs, i)
      invariant errors == [] <==> ValidExceptions(env, excs[..i])
    {
      IndexKnows(env, excs, i, index);
      OneMoreException(env, excs, i);
      ghost var pre, pre' := excs[..i], excs[..i + 1];
      assert pre' == pre + [excs[i]];
      var exc := excs[i];
      if !HasAll(exc) {
        errors := errors + [MissingFields(i)];
        RejectedKeeps(env, pre, exc, index);
        continue;
      }
      var key, date := ExcKey(env, exc), ExcExpiry(env, exc);
      if date.None? {
        errors := errors + [InvalidDate(i)];
        RejectedKeeps(env, pre, exc, index);
        continue;
      }
      if key.0 == "" || key.1 == "" {
        errors := errors + [BlankKey(i)];
        RejectedKeeps(env, pre, exc, index);
        continue;
      }
      if key in index {
        errors := errors + [DuplicateKey(i)];
        DuplicateKeeps(env, pre, exc, index);
        continue;
      }
      AcceptedExtends(env, pre, exc, index);
      index := index[key := IndexEntry(ExcSeverity(env, exc), date.value)];
    }
    assert excs[..|excs|] == excs;
  }

  lemma NothingIndexed(env: Env, excs: seq<Record>)
    ensures IndexFor(env, [], map[]) && ValidExceptions(env, []) && ExceptionFindings(env, excs, 0) == []
  {
  }

  lemma OneMoreException(env: Env, excs: seq<Record>, i: nat)
    requires i < |excs|
    ensures ExceptionFindings(env, excs, i + 1) == ExceptionFindings(env, excs, i) + ExceptionFinding(env, excs, i)
  {
    hide ExceptionFinding;
  }

  /** A key is in the index exactly when an earlier well-formed exception has it. */
  lemma IndexKnows(env: Env, excs: seq<Record>, i: nat, index: map<Key, IndexEntry>)
    requires i < |excs| && IndexFor(env, excs[..i], index)
    ensures WellFormed(env, excs[i]) ==> (FirstException(env, excs, i) <==> ExcKey(env, excs[i]) !in index)
  {
    hide WellFormed, ExcKey, EntryOf;
    var key := ExcKey(env, excs[i]);
    if key in index {
      var j :| 0 <= j < i && FirstException(env, excs[..i], j) && ExcKey(env, excs[..i][j]) == key;
      assert WellFormed(env, excs[j]) && ExcKey(env, excs[j]) == key;
    } else {
      forall j | 0 <= j < i && WellFormed(env, excs[j]) ensures ExcKey(env, excs[j]) != key {
        assert excs[..i][j] == excs[j];
      }
    }
  }

  lemma FirstExceptionExtends(env: Env, pre: seq<Record>, exc: Record)
    ensures forall i :: 0 <= i < |pre| ==> FirstException(env, pre + [exc], i) == FirstException(env, pre, i)
  {
    assert forall i :: 0 <= i < |pre| ==> (pre + [exc])[i] == pre[i];
  }

  lemma KeptIndex(env: Env, pre: seq<Record>, exc: Record, index: map<Key, IndexEntry>)
    requires IndexFor(env, pre, index)
    requires WellFormed(env, exc) ==> ExcKey(env, exc) in index
    ensures IndexFor(env, pre + [exc], index)
  {
    hide WellFormed, ExcKey, EntryOf;
    FirstExceptionExtends(env, pre, exc);
    forall k | k in index
      ensures exists i :: 0 <= i < |pre + [exc]| && FirstException(env, pre + [exc], i)
                          && ExcKey(env, (pre + [exc])[i]) == k && index[k] == EntryOf(env, (pre + [exc])[i])
    {
      var i :| 0 <= i < |pre| && FirstException(env, pre, i) && ExcKey(env, pre[i]) == k && index[k] == EntryOf(env, pre[i]);
      assert (pre + [exc])[i] == pre[i];
    }
  }

  lemma RejectedKeeps(env: Env, pre: seq<Record>, exc: Record, index: map<Key, IndexEntry>)
    requires IndexFor(env, pre, index) && !WellFormed(env, exc)
    ensures IndexFor(env, pre + [exc], index)
    ensures !ValidExceptions(env, pre + [exc])
  {
    hide WellFormed, ExcKey, EntryOf;
    KeptIndex(env, pre, exc, index);
    assert (pre + [exc])[|pre|] == exc;
  }

  lemma DuplicateKeeps(env: Env, pre: seq<Record>, exc: Record, index: map<Key, IndexEntry>)
    requires IndexFor(env, pre, index) && ExcKey(env, exc) in index
    ensures IndexFor(env, pre + [exc], index)
    ensures !ValidExceptions(env, pre + [exc])
  {
    hide WellFormed, ExcKey, EntryOf;
    KeptIndex(env, pre, exc, index);
    var i :| 0 <= i < |pre| && FirstException(env, pre, i) && ExcKey(env, pre[i]) == ExcKey(env, exc);
    assert (pre + [exc])[|pre|] == exc && (pre + [exc])[i] == pre[i];
  }

  lemma AcceptedExtends(env: Env, pre: seq<Record>, exc: Record, index: map<Key, IndexEntry>)
    requires IndexFor(env, pre, index) && WellFormed(env, exc) && ExcKey(env, exc) !in index
    ensures IndexFor(env, pre + [exc], index[ExcKey(env, exc) := EntryOf(env, exc)])
    ensures ValidExceptions(env, pre + [exc]) <==> ValidExceptions(env, pre)
  {
    hide ExcKey, EntryOf, WellFormed;
    var all, key := pre + [exc], ExcKey(env, exc);
    var index' := index[key := EntryOf(env, exc)];
    FirstExceptionExtends(env, pre, exc);
    assert all[|pre|] == exc && FirstException(env, all, |pre|);
    forall k | k in index'
      ensures exists i :: 0 <= i < |all| && FirstException(env, all, i)
                          && ExcKey(env, all[i]) == k && index'[k] == EntryOf(env, all[i])
    {
      if k != key {
        var i :| 0 <= i < |pre| && FirstException(env, pre, i) && ExcKey(env, pre[i]) == k && index[k] == EntryOf(env, pre[i]);
        assert all[i] == pre[i];
      }
    }
    if ValidExceptions(env, all) {
      assert forall i :: 0 <= i < |pre| ==> all[i] == pre[i];
    }
  }

  // ----- what is compared -----

  const REQUIRED_FIELDS: set<string> := {"package", "advisory", "severity", "mitigation", "expires_on"}

  /** An exception is well formed exactly when its five fields are there and not empty, its date parses, and
      package and advisory are not blank. */
  lemma WellFormedExactly(env: Env, exc: Record)
    ensures WellFormed(env, exc) <==>
            && (forall f :: f in REQUIRED_FIELDS ==> f in exc && exc[f] != "")
            && env.parseDate(exc["expires_on"]).Some?
            && Strip(exc["package"]) != "" && env.lower(Strip(exc["advisory"])) != ""
  {
    hide Strip;
    assert HasAll(exc) <==> forall f :: f in REQUIRED_FIELDS ==> f in exc && exc[f] != "";
  }

  /** A tuple is looked at exactly when it is named and its trimmed severity, in lower case, is high or critical. */
  lemma GatedExactly(env: Env, v: Vuln, severity: string)
    requires v.severity == Str(severity)
    ensures Gated(env, v) <==> v.name.Truthy() && env.lower(Strip(severity)) in {"high", "critical"}
  {
    hide Strip;
  }

  /** The exception covers the tuple exactly when the trimmed packages are equal, the trimmed advisories are equal in
      lower case, it has not expired and, for the first tuple of a key, its severity is blank or the same. */
  lemma CoversExactly(env: Env, exc: Record, name: string, severity: string, advisory: string, first: bool)
    requires WellFormed(env, exc)
    ensures var v := Vuln(Str(name), Str(severity), Str(advisory));
            Covers(env, exc, v, first) <==>
            && "package" in exc && Strip(exc["package"]) == Strip(name)
            && "advisory" in exc && env.lower(Strip(exc["advisory"])) == env.lower(Strip(advisory))
            && "expires_on" in exc && env.parseDate(exc["expires_on"]).Some? && env.parseDate(exc["expires_on"]).value >= env.today
            && "severity" in exc && (first ==> env.lower(Strip(exc["severity"])) in {"", env.lower(Strip(severity))})
  {
    hide Strip;
  }

  /** Values that are no texts are compared by their str() text; null has a blank name and advisory. */
  lemma OtherKeys(env: Env, name: Scalar, advisory: Scalar, severity: Scalar)
    ensures name.Other? && advisory.Other? ==>
              VulnKey(env, Vuln(name, severity, advisory)) == (Strip(name.repr), env.lower(Strip(advisory.repr)))
    ensures name.Null? && advisory.Null? ==> VulnKey(env, Vuln(name, severity, advisory)) == ("", "")
  {
  }

  // ----- vulnerabilities -----

  /** No earlier looked-at tuple has the key of the one at i. */
  ghost predicate FirstVuln(env: Env, vs: seq<Vuln>, i: nat)
    requires i < |vs|
  {
    forall j :: 0 <= j < i && Gated(env, vs[j]) ==> VulnKey(env, vs[j]) != VulnKey(env, vs[i])
  }

  predicate SeverityOk(required: string, actual: string) {
    required == "" || required == actual
  }

  /** The tuple is excused by the index; `first` says whether its severity is compared. */
  predicate Excused(env: Env, index: map<Key, IndexEntry>, v: Vuln, first: bool) {
    var key := VulnKey(env, v);
    && key.1 != ""
    && key in index
    && index[key].expires >= env.today
    && (first ==> SeverityOk(index[key].severity, Sev(env, v)))
  }

  ghost predicate AllExcused(env: Env, index: map<Key, IndexEntry>, vs: seq<Vuln>) {
    forall i :: 0 <= i < |vs| && Gated(env, vs[i]) ==> Excused(env, index, vs[i], FirstVuln(env, vs, i))
  }

  /** The three lists main keeps: plain errors, missing exceptions, expired exceptions. */
  datatype Pile = Errors | Missing | Stale

  /** What the tuple at i adds to a pile. A tuple without advisory is always reported; otherwise only the
      first looked-at tuple of a key is. */
  ghost function VulnFinding(env: Env, index: map<Key, IndexEntry>, vs: seq<Vuln>, i: nat, pile: Pile): seq<Finding>
    requires i < |vs|
  {
    var key := VulnKey(env, vs[i]);
    if !Gated(env, vs[i]) then []
    else if key.1 == "" then if pile.Errors? then [NoAdvisoryId(i)] else []
    else if !FirstVuln(env, vs, i) then []
    else if key !in index then if pile.Missing? then [MissingException(i)] else []
    else
      match pile
      case Errors => if SeverityOk(index[key].severity, Sev(env, vs[i])) then [] else [SeverityMismatch(i)]
      case Missing => []
      case Stale => if index[key].expires < env.today then [Expired(i)] else []
  }

  ghost function VulnFindings(env: Env, index: map<Key, IndexEntry>, vs: seq<Vuln>, n: nat, pile: Pile): seq<Finding>
    requires n <= |vs|
  {
    if n == 0 then [] else VulnFindings(env, index, vs, n - 1, pile) + VulnFinding(env, index, vs, n - 1, pile)
  }

  /** The pass over the reported tuples with its `seen` set. */
  method CheckVulns(env: Env, index: map<Key, IndexEntry>, vs: seq<Vuln>) returns (crash: bool, findings: seq<Finding>)
    ensures crash <==> exists i :: 0 <= i < |vs| && NormalizeSeverity(env, vs[i].severity).None?
    ensures !crash ==> findings == VulnFindings(env, index, vs, |vs|, Errors) + VulnFindings(env, index, vs, |vs|, Missing)
                                   + VulnFindings(env, index, vs, |vs|, Stale)
    ensures !crash ==> (findings == [] <==> AllExcused(env, index, vs))
  {
    hide VulnKey, NormalizeSeverity, SeenSoFar, FirstVuln, Excused, VulnFindings;
    SeenNothing(env, vs);
    NothingYet(env, index, vs);
    var errors: seq<Finding>, missing: seq<Finding>, expired: seq<Finding> := [], [], [];
    var seen: set<Key> := {};
    for i := 0 to |vs|
      invariant forall j :: 0 <= j < i ==> NormalizeSeverity(env, vs[j].severity).Some?
      invariant SeenSoFar(env, vs, i, seen)
      invariant errors == VulnFindings(env, index, vs, i, Errors)
      invariant missing == VulnFindings(env, index, vs, i, Missing)
      invariant expired == VulnFindings(env, index, vs, i, Stale)
    {
      SeenNext(env, vs, i, seen);
      OneMoreFinding(env, index, vs, i);
      var v := vs[i];
      var sev := NormalizeSeverity(env, v.severity);
      if sev.None? {
        return true, [];
      }
      if !IsHigh(sev.value) || !v.name.Truthy() {
        continue;
      }
      var key := VulnKey(env, v);
      if key.1 == "" {
        errors := errors + [NoAdvisoryId(i)];
        continue;
      }
      if key in seen {
        continue;
      }
      seen := seen + {key};
      if key !in index {
        missing := missing + [MissingException(i)];
        continue;
      }
      if index[key].severity != "" && index[key].severity != sev.value {
        errors := errors + [SeverityMismatch(i)];
      }
      if index[key].expires < env.today {
        expired := expired + [Expired(i)];
      }
    }
    NothingFoundExactly(env, index, vs, |vs|);
    return false, errors + missing + expired;
  }

  /** The seen set holds the keys, with an advisory, of the looked-at tuples before i. */
  ghost predicate SeenSoFar(env: Env, vs: seq<Vuln>, i: nat, seen: set<Key>)
    requires i <= |vs|
  {
    && (forall j :: 0 <= j < i && Gated(env, vs[j]) && VulnKey(env, vs[j]).1 != "" ==> VulnKey(env, vs[j]) in seen)
    && (forall k :: k in seen ==> k.1 != "" && exists j :: 0 <= j < i && Gated(env, vs[j]) && VulnKey(env, vs[j]) == k)
  }

  lemma SeenNothing(env: Env, vs: seq<Vuln>)
    ensures SeenSoFar(env, vs, 0, {})
  {
  }

  /** The seen set tells whether a tuple is the first of its key, and how the set grows. */
  lemma SeenNext(env: Env, vs: seq<Vuln>, i: nat, seen: set<Key>)
    requires i < |vs| && SeenSoFar(env, vs, i, seen)
    ensures var key := VulnKey(env, vs[i]);
            if !Gated(env, vs[i]) || key.1 == "" then SeenSoFar(env, vs, i + 1, seen)
            else (FirstVuln(env, vs, i) <==> key !in seen) && SeenSoFar(env, vs, i + 1, seen + {key})
                 && (key in seen ==> SeenSoFar(env, vs, i + 1, seen))
  {
    hide VulnKey, Gated;
  }

  lemma NothingYet(env: Env, index: map<Key, IndexEntry>, vs: seq<Vuln>)
    ensures forall pile :: VulnFindings(env, index, vs, 0, pile) == []
  {
  }

  lemma OneMoreFinding(env: Env, index: map<Key, IndexEntry>, vs: seq<Vuln>, i: nat)
    requires i < |vs|
    ensures forall pile :: VulnFindings(env, index, vs, i + 1, pile) ==
                           VulnFindings(env, index, vs, i, pile) + VulnFinding(env, index, vs, i, pile)
  {
    hide VulnFinding;
  }

  ghost predicate NothingAt(env: Env, index: map<Key, IndexEntry>, vs: seq<Vuln>, i: nat)
    requires i < |vs|
  {
    && VulnFinding(env, index, vs, i, Errors) == [] && VulnFinding(env, index, vs, i, Missing) == []
    && VulnFinding(env, index, vs, i, Stale) == []
  }

  /** Nothing is found at i exactly when the tuple is excused, or a tuple before it answers for it. */
  lemma FoundAt(env: Env, index: map<Key, IndexEntry>, vs: seq<Vuln>, i: nat)
    requires i < |vs|
    ensures NothingAt(env, index, vs, i) <==>
            (Gated(env, vs[i]) && (VulnKey(env, vs[i]).1 == "" || FirstVuln(env, vs, i)) ==> Excused(env, index, vs[i], true))
  {
    hide VulnKey, Gated, Sev, FirstVuln;
  }

  lemma ExcusedAt(env: Env, index: map<Key, IndexEntry>, vs: seq<Vuln>, i: nat)
    requires i < |vs| && Gated(env, vs[i])
    requires forall j :: 0 <= j < i && Gated(env, vs[j]) ==> Excused(env, index, vs[j], FirstVuln(env, vs, j))
    ensures Excused(env, index, vs[i], FirstVuln(env, vs, i)) <==>
            (VulnKey(env, vs[i]).1 == "" || FirstVuln(env, vs, i) ==> Excused(env, index, vs[i], true))
  {
    hide VulnKey, Gated, Sev, SeverityOk;
    if !FirstVuln(env, vs, i) {
      var j :| 0 <= j < i && Gated(env, vs[j]) && VulnKey(env, vs[j]) == VulnKey(env, vs[i]);
      assert Excused(env, index, vs[j], FirstVuln(env, vs, j));
    }
  }

  ghost predicate NothingFound(env: Env, index: map<Key, IndexEntry>, vs: seq<Vuln>, n: nat)
    requires n <= |vs|
  {
    && VulnFindings(env, index, vs, n, Errors) == [] && VulnFindings(env, index, vs, n, Missing) == []
    && VulnFindings(env, index, vs, n, Stale) == []
  }

  lemma NothingFoundSnoc(env: Env, index: map<Key, IndexEntry>, vs: seq<Vuln>, n: nat)
    requires n <= |vs|
    ensures NothingFound(env, index, vs, n) <==> n == 0 || (NothingFound(env, index, vs, n - 1) && NothingAt(env, index, vs, n - 1))
  {
    hide VulnFinding;
  }

  /** Nothing is found among the first n tuples exactly when each of them is excused: the first tuple of a
      key answers for the later ones. */
  lemma {:induction false} NothingFoundExactly(env: Env, index: map<Key, IndexEntry>, vs: seq<Vuln>, n: nat)
    requires n <= |vs|
    ensures NothingFound(env, index, vs, n) <==>
            forall i :: 0 <= i < n && Gated(env, vs[i]) ==> Excused(env, index, vs[i], FirstVuln(env, vs, i))
  {
    hide VulnKey, Gated, Excused, FirstVuln, NothingAt, NothingFound;
    NothingFoundSnoc(env, index, vs, n);
    if n > 0 {
      NothingFoundExactly(env, index, vs, n - 1);
      FoundAt(env, index, vs, n - 1);
      if Gated(env, vs[n - 1]) && NothingFound(env, index, vs, n - 1) {
        ExcusedAt(env, index, vs, n - 1);
      }
    }
  }

  // ----- the verdict -----

  /** The exception covers the tuple: same key, not expired, and a fitting severity when compared. */
  predicate Covers(env: Env, exc: Record, v: Vuln, first: bool) {
    && ExcKey(env, exc) == VulnKey(env, v)
    && ExcExpiry(env, exc).GetOr(env.today) >= env.today
    && (first ==> SeverityOk(ExcSeverity(env, exc), Sev(env, v)))
  }

  /** What a passing run means, with no index and no seen set: the exceptions are valid, and every
      looked-at tuple has an advisory and a live exception for its key, whose severity is blank or
      that of the first tuple with this key. */
  ghost predicate Passes(env: Env, excs: seq<Record>, vs: seq<Vuln>) {
    && ValidExceptions(env, excs)
    && forall i :: 0 <= i < |vs| && Gated(env, vs[i]) ==> Covered(env, excs, vs[i], FirstVuln(env, vs, i))
  }

  ghost predicate Covered(env: Env, excs: seq<Record>, v: Vuln, first: bool) {
    exists e :: 0 <= e < |excs| && Covers(env, excs[e], v, first)
  }

  ghost predicate Crashes(env: Env, lines: seq<string>, vs: seq<Vuln>) {
    || (exists i :: 0 <= i < |lines| && Classify(lines[i]).BadItem?)
    || (exists i :: 0 <= i < |vs| && NormalizeSeverity(env, vs[i].severity).None?)
  }

  /** main, from the lines of the exception file and the reported tuples to the exit status. */
  method Audit(env: Env, lines: seq<string>, vs: seq<Vuln>) returns (verdict: Verdict)
    ensures verdict == Crash <==> Crashes(env, lines, vs)
    ensures verdict == Exit(0) <==> !Crashes(env, lines, vs) && Passes(env, Records(ClassifyAll(lines)), vs)
    ensures verdict in {Crash, Exit(0), Exit(1)}
  {
    hide ValidExceptions, AllExcused, Passes, Classify, NormalizeSeverity;
    var parsed := ParseExceptions(lines);
    if parsed.None? {
      return Crash;
    }
    var index, errors := BuildIndex(env, parsed.value);
    var crash, findings := CheckVulns(env, index, vs);
    if crash {
      return Crash;
    }
    if ValidExceptions(env, parsed.value) {
      IndexAgrees(env, parsed.value, index, vs);
    } else {
      PassesNeedsValid(env, parsed.value, vs);
    }
    return if errors + findings == [] then Exit(0) else Exit(1);
  }

  lemma PassesNeedsValid(env: Env, excs: seq<Record>, vs: seq<Vuln>)
    ensures Passes(env, excs, vs) ==> ValidExceptions(env, excs)
  {
  }

  lemma ExcusedIffCovered(env: Env, excs: seq<Record>, index: map<Key, IndexEntry>, v: Vuln, first: bool)
    requires ValidExceptions(env, excs) && IndexFor(env, excs, index)
    ensures Excused(env, index, v, first) <==> Covered(env, excs, v, first)
  {
    hide ExcKey, VulnKey, HasAll, ExcExpiry, ExcSeverity, Sev;
    var key := VulnKey(env, v);
    if key in index {
      var e :| 0 <= e < |excs| && FirstException(env, excs, e) && ExcKey(env, excs[e]) == key && index[key] == EntryOf(env, excs[e]);
      assert Excused(env, index, v, first) <==> Covers(env, excs[e], v, first);
      forall d | 0 <= d < |excs| && Covers(env, excs[d], v, first) ensures d == e {
        assert ExcKey(env, excs[d]) == ExcKey(env, excs[e]);
      }
    } else {
      forall d | 0 <= d < |excs| ensures !Covers(env, excs[d], v, first) {
        assert WellFormed(env, excs[d]);
      }
    }
  }

  lemma IndexAgrees(env: Env, excs: seq<Record>, index: map<Key, IndexEntry>, vs: seq<Vuln>)
    requires ValidExceptions(env, excs) && IndexFor(env, excs, index)
    ensures AllExcused(env, index, vs) <==> Passes(env, excs, vs)
  {
    hide Excused, Covered, ValidExceptions, IndexFor, Gated, FirstVuln;
    forall i | 0 <= i < |vs|
      ensures Excused(env, index, vs[i], FirstVuln(env, vs, i)) <==> Covered(env, excs, vs[i], FirstVuln(env, vs, i))
    {
      ExcusedIffCovered(env, excs, index, vs[i], FirstVuln(env, vs, i));
    }
  }
}
