/** Reading the audit report: tools/check_pnpm_audit_exceptions.py, pick_advisory_id and iter_vulns,
    and the whole program from the parsed JSON to the exit status. */
module AuditReport {
  import opened Wrappers
  import opened ExceptionFile
  import opened AuditGate

  /** A parsed JSON document. Numbers and booleans appear by their str() text and truth value. */
  datatype Json =
    | JNull
    | JText(text: string)
    | JAtom(repr: string, truthy: bool)
    | JList(items: seq<Json>)
    | JDict(entries: seq<(string, Json)>)
  {
    predicate Truthy() {
      match this
      case JNull => false
      case JText(s) => s != ""
      case JAtom(_, t) => t
      case JList(items) => items != []
      case JDict(entries) => entries != []
    }
  }

  /** dict.get(k) */
  function Get(d: Json, k: string): Json
    requires d.JDict?
  {
    Lookup(d.entries, k).GetOr(JNull)
  }

  function Lookup(entries: seq<(string, Json)>, k: string): Option<Json> {
    if entries == [] then None
    else if entries[0].0 == k then Some(entries[0].1)
    else Lookup(entries[1..], k)
  }

  /** a or b */
  function Or(a: Json, b: Json): Json {
    if a.Truthy() then a else b
  }

  /** A value as the gate sees it; str renders lists and objects. */
  function AsScalar(str: Json -> string, j: Json): Scalar {
    match j
    case JNull => Null
    case JText(s) => Str(s)
    case JAtom(r, t) => Other(r, t)
    case _ => Other(str(j), j.Truthy())
  }

  /** (cves or [None])[0]; None models the KeyError or TypeError of indexing an object or a number. */
  function FirstCve(cves: Json): Option<Json> {
    if !cves.Truthy() then Some(JNull)
    else match cves
      case JList(items) => Some(items[0])
      case JText(s) => Some(JText(s[..1]))
      case _ => None
  }

  function IdText(str: Json -> string, id: Json): Json {
    match id
    case JNull => JNull
    case JText(s) => JText(s)
    case JAtom(r, _) => JText(r)
    case _ => JText(str(id))
  }

  /** pick_advisory_id; None models an exception while reading "cves". */
  function PickAdvisoryId(str: Json -> string, adv: Json): Option<Json>
    requires adv.JDict?
  {
    var stable := Or(Get(adv, "github_advisory_id"), Get(adv, "url"));
    if stable.Truthy() then Some(stable)
    else
      var cve := FirstCve(Get(adv, "cves"));
      if cve.None? then None
      else Some(Or(cve.value, Or(IdText(str, Get(adv, "id")),
                                 Or(Get(adv, "title"), Or(Get(adv, "advisory"), Get(adv, "overview"))))))
  }

  /** The one tuple of an entry under "advisories"; None models an exception. */
  function AdvisoryTuple(str: Json -> string, adv: Json): Option<Vuln> {
    if !adv.JDict? then None
    else
      match PickAdvisoryId(str, adv)
      case None => None
      case Some(id) =>
        Some(Vuln(AsScalar(str, Or(Get(adv, "module_name"), Get(adv, "name"))),
                  AsScalar(str, Get(adv, "severity")), AsScalar(str, id)))
  }

  /** The identifier and title read from one item of "via"; items that are neither objects nor
      strings are skipped. */
  function ViaPart(item: Json): Option<(Json, Json)> {
    match item
    case JDict(_) =>
      Some((Or(Get(item, "github_advisory_id"), Or(Get(item, "url"),
                                                   Or(Get(item, "source"), Or(Get(item, "title"), Get(item, "name"))))),
            Or(Get(item, "title"), Or(Get(item, "url"), Or(Get(item, "advisory"), Get(item, "source"))))))
    case JText(_) => Some((item, item))
    case _ => None
  }

  function ViaParts(items: seq<Json>): seq<(Json, Json)> {
    if items == [] then []
    else (match ViaPart(items[0]) case Some(p) => [p] case None => []) + ViaParts(items[1..])
  }

  /** Everything an entry under "vulnerabilities" refers to. A missing "via" is an empty list. */
  function EntryParts(vuln: Json): seq<(Json, Json)>
    requires vuln.JDict?
  {
    match Lookup(vuln.entries, "via")
    case Some(JList(items)) => ViaParts(items)
    case Some(JText(s)) => [(JText(s), JText(s))]
    case _ => []
  }

  /** Joining the titles raises when a truthy one is not a string. */
  predicate TitlesJoin(parts: seq<(Json, Json)>) {
    forall i :: 0 <= i < |parts| ==> parts[i].1.Truthy() ==> parts[i].1.JText?
  }

  function IdTuples(str: Json -> string, name: string, severity: Json, parts: seq<(Json, Json)>): seq<Vuln> {
    if parts == [] then []
    else (if parts[0].0.Truthy() then [Vuln(Str(name), AsScalar(str, severity), AsScalar(str, parts[0].0))] else [])
         + IdTuples(str, name, severity, parts[1..])
  }

  /** The tuples of one entry under "vulnerabilities"; None models an exception. */
  function EntryTuples(str: Json -> string, name: string, vuln: Json): Option<seq<Vuln>> {
    if !vuln.JDict? || !TitlesJoin(EntryParts(vuln)) then None
    else Some(IdTuples(str, name, Get(vuln, "severity"), EntryParts(vuln)))
  }

  /** The entries of an object, and nothing for any other value. */
  function Entries(j: Json): seq<(string, Json)> {
    if j.JDict? then j.entries else []
  }

  ghost predicate ReportReadable(str: Json -> string, data: Json) {
    && data.JDict?
    && (forall i :: 0 <= i < |Entries(Get(data, "advisories"))| ==>
                      AdvisoryTuple(str, Entries(Get(data, "advisories"))[i].1).Some?)
    && (forall i :: 0 <= i < |Entries(Get(data, "vulnerabilities"))| ==>
                      var e := Entries(Get(data, "vulnerabilities"))[i];
                      EntryTuples(str, e.0, e.1).Some?)
  }

  ghost function AdvisoryTuples(str: Json -> string, entries: seq<(string, Json)>): seq<Vuln>
    requires forall i :: 0 <= i < |entries| ==> AdvisoryTuple(str, entries[i].1).Some?
  {
    seq(|entries|, i requires 0 <= i < |entries| => AdvisoryTuple(str, entries[i].1).value)
  }

  ghost function AllEntryTuples(str: Json -> string, entries: seq<(string, Json)>): seq<Vuln>
    requires forall i :: 0 <= i < |entries| ==> EntryTuples(str, entries[i].0, entries[i].1).Some?
  {
    if entries == [] then []
    else EntryTuples(str, entries[0].0, entries[0].1).value + AllEntryTuples(str, entries[1..])
  }

  /** The tuples of a readable report, in the order the program meets them. */
  ghost function Tuples(str: Json -> string, data: Json): seq<Vuln>
    requires ReportReadable(str, data)
  {
    AdvisoryTuples(str, Entries(Get(data, "advisories"))) + AllEntryTuples(str, Entries(Get(data, "vulnerabilities")))
  }

  lemma {:induction false} ViaPartsSnoc(items: seq<Json>, item: Json)
    ensures ViaParts(items + [item]) == ViaParts(items) + ViaParts([item])
  {
    if items == [] {
      assert items + [item] == [item];
    } else {
      assert (items + [item])[1..] == items[1..] + [item];
      ViaPartsSnoc(items[1..], item);
    }
  }

  lemma {:induction false} AllEntryTuplesSnoc(str: Json -> string, entries: seq<(string, Json)>, e: (string, Json))
    requires forall i :: 0 <= i < |entries| ==> EntryTuples(str, entries[i].0, entries[i].1).Some?
    requires EntryTuples(str, e.0, e.1).Some?
    ensures AllEntryTuples(str, entries + [e]) == AllEntryTuples(str, entries) + EntryTuples(str, e.0, e.1).value
  {
    hide EntryTuples;
    if entries == [] {
      assert entries + [e] == [e];
    } else {
      assert (entries + [e])[1..] == entries[1..] + [e];
      AllEntryTuplesSnoc(str, entries[1..], e);
    }
  }

  lemma IdTuplesHead(str: Json -> string, name: string, severity: Json, parts: seq<(Json, Json)>)
    requires parts != []
    ensures IdTuples(str, name, severity, parts) ==
            (if parts[0].0.Truthy() then [Vuln(Str(name), AsScalar(str, severity), AsScalar(str, parts[0].0))] else [])
            + IdTuples(str, name, severity, parts[1..])
  {
  }

  lemma {:induction false} IdTuplesSnoc(str: Json -> string, name: string, severity: Json, parts: seq<(Json, Json)>, p: (Json, Json))
    ensures IdTuples(str, name, severity, parts + [p]) == IdTuples(str, name, severity, parts) + IdTuples(str, name, severity, [p])
  {
    hide Json.Truthy, AsScalar;
    if parts == [] {
      assert parts + [p] == [p];
    } else {
      var all := parts + [p];
      assert all[1..] == parts[1..] + [p] && all[0] == parts[0];
      IdTuplesSnoc(str, name, severity, parts[1..], p);
      hide IdTuples;
      IdTuplesHead(str, name, severity, all);
      IdTuplesHead(str, name, severity, parts);
    }
  }

  /** The inner loop over "via": parallel lists of identifiers and titles. */
  method CollectVia(vuln: Json) returns (advisories: seq<Json>, titles: seq<Json>)
    requires vuln.JDict?
    ensures |advisories| == |titles| == |EntryParts(vuln)|
    ensures forall i :: 0 <= i < |titles| ==> EntryParts(vuln)[i] == (advisories[i], titles[i])
  {
    advisories, titles := [], [];
    var via := Lookup(vuln.entries, "via").GetOr(JList([]));
    if via.JList? {
      var items := via.items;
      for i := 0 to |items|
        invariant |advisories| == |titles| == |ViaParts(items[..i])|
        invariant forall j :: 0 <= j < |titles| ==> ViaParts(items[..i])[j] == (advisories[j], titles[j])
      {
        assert items[..i + 1] == items[..i] + [items[i]];
        ViaPartsSnoc(items[..i], items[i]);
        var part := ViaPart(items[i]);
        if part.Some? {
          advisories, titles := advisories + [part.value.0], titles + [part.value.1];
        }
      }
      assert items[..|items|] == items;
    } else if via.JText? {
      advisories, titles := [via], [via];
    }
  }

  /** One entry under "vulnerabilities". */
  method ReadEntry(str: Json -> string, name: string, vuln: Json) returns (r: Option<seq<Vuln>>)
    ensures r == EntryTuples(str, name, vuln)
  {
    if !vuln.JDict? {
      return None;
    }
    var severity := Get(vuln, "severity");
    var advisories, titles := CollectVia(vuln);
    ghost var parts := EntryParts(vuln);
    for i := 0 to |titles|
      invariant forall j :: 0 <= j < i ==> titles[j].Truthy() ==> titles[j].JText?
    {
      if titles[i].Truthy() && !titles[i].JText? {
        assert !(parts[i].1.Truthy() ==> parts[i].1.JText?);
        return None;
      }
    }
    var out: seq<Vuln> := [];
    for i := 0 to |advisories|
      invariant out == IdTuples(str, name, severity, parts[..i])
    {
      assert parts[..i + 1] == parts[..i] + [parts[i]];
      IdTuplesSnoc(str, name, severity, parts[..i], parts[i]);
      if advisories[i].Truthy() {
        out := out + [Vuln(Str(name), AsScalar(str, severity), AsScalar(str, advisories[i]))];
      }
    }
    assert parts[..|parts|] == parts;
    return Some(out);
  }

  /** iter_vulns, run to its end; None models an exception on the way. */
  method IterVulns(str: Json -> string, data: Json) returns (r: Option<seq<Vuln>>)
    ensures r.Some? <==> ReportReadable(str, data)
    ensures r.Some? ==> r.value == Tuples(str, data)
  {
    hide AdvisoryTuple, EntryTuples, Lookup;
    if !data.JDict? {
      return None;
    }
    var out: seq<Vuln> := [];
    var advisories := Entries(Get(data, "advisories"));
    for i := 0 to |advisories|
      invariant forall j :: 0 <= j < i ==> AdvisoryTuple(str, advisories[j].1).Some?
      invariant out == AdvisoryTuples(str, advisories[..i])
    {
      var tuple := AdvisoryTuple(str, advisories[i].1);
      if tuple.None? {
        return None;
      }
      out := out + [tuple.value];
    }
    assert advisories[..|advisories|] == advisories;
    var vulnerabilities := Entries(Get(data, "vulnerabilities"));
    ghost var first := out;
    for i := 0 to |vulnerabilities|
      invariant forall j :: 0 <= j < i ==> EntryTuples(str, vulnerabilities[j].0, vulnerabilities[j].1).Some?
      invariant out == first + AllEntryTuples(str, vulnerabilities[..i])
    {
      var tuples := ReadEntry(str, vulnerabilities[i].0, vulnerabilities[i].1);
      if tuples.None? {
        return None;
      }
      assert vulnerabilities[..i + 1] == vulnerabilities[..i] + [vulnerabilities[i]];
      AllEntryTuplesSnoc(str, vulnerabilities[..i], vulnerabilities[i]);
      out := out + tuples.value;
    }
    assert vulnerabilities[..|vulnerabilities|] == vulnerabilities;
    return Some(out);
  }

  /** The whole program on a parsed report and the lines of the exception file. */
  method Run(env: Env, str: Json -> string, data: Json, lines: seq<string>) returns (verdict: Verdict)
    ensures verdict == Exit(0) <==>
            && ReportReadable(str, data)
            && !Crashes(env, lines, Tuples(str, data))
            && Passes(env, Records(ClassifyAll(lines)), Tuples(str, data))
    ensures verdict == Crash <==> !ReportReadable(str, data) || Crashes(env, lines, Tuples(str, data))
  {
    hide Passes, Crashes, ReportReadable;
    var tuples := IterVulns(str, data);
    if tuples.None? {
      return Crash;
    }
    verdict := Audit(env, lines, tuples.value);
  }

  // ----- what the two formats report -----

  lemma {:induction false} IdTuplesExactly(str: Json -> string, name: string, severity: Json, parts: seq<(Json, Json)>, v: Vuln)
    ensures v in IdTuples(str, name, severity, parts) <==>
            exists i :: 0 <= i < |parts| && parts[i].0.Truthy() && v == Vuln(Str(name), AsScalar(str, severity), AsScalar(str, parts[i].0))
  {
    if parts != [] {
      IdTuplesExactly(str, name, severity, parts[1..], v);
      assert forall i :: 0 <= i < |parts[1..]| ==> parts[1..][i] == parts[i + 1];
      assert parts == [parts[0]] + parts[1..];
    }
  }

  /** A report in the "vulnerabilities" format says nothing at all about an entry exactly when none
      of the identifiers it refers to is truthy. */
  lemma SilentEntryExactly(str: Json -> string, name: string, vuln: Json)
    requires EntryTuples(str, name, vuln).Some?
    ensures EntryTuples(str, name, vuln).value == [] <==>
            forall i :: 0 <= i < |EntryParts(vuln)| ==> !EntryParts(vuln)[i].0.Truthy()
  {
    var parts, sev := EntryParts(vuln), Get(vuln, "severity");
    var out := IdTuples(str, name, sev, parts);
    if out != [] {
      IdTuplesExactly(str, name, sev, parts, out[0]);
    }
    if i :| 0 <= i < |parts| && parts[i].0.Truthy() {
      IdTuplesExactly(str, name, sev, parts, Vuln(Str(name), AsScalar(str, sev), AsScalar(str, parts[i].0)));
    }
  }

  /** Every entry under "advisories" is reported: the tuples begin with one for each, in order. */
  lemma AdvisoriesSpeak(str: Json -> string, data: Json)
    requires ReportReadable(str, data)
    ensures var entries, tuples := Entries(Get(data, "advisories")), Tuples(str, data);
            |entries| <= |tuples| && forall i :: 0 <= i < |entries| ==> Some(tuples[i]) == AdvisoryTuple(str, entries[i].1)
  {
    hide AdvisoryTuple, EntryTuples, AllEntryTuples, Lookup;
  }

  lemma LookupSecond(k: string, j: Json, k': string, j': Json)
    requires k != k'
    ensures Lookup([(k, j)], k) == Some(j) && Lookup([(k, j)], k') == None
    ensures Lookup([(k, j), (k', j')], k') == Some(j')
  {
    assert [(k, j), (k', j')][1..] == [(k', j')] && [(k, j)][1..] == [];
  }

  /** A critical vulnerability that refers to nothing yields no tuple, so nothing gates it. */
  lemma SilentCritical(str: Json -> string, name: string)
    ensures EntryTuples(str, name, JDict([("severity", JText("critical")), ("via", JList([]))])) == Some([])
  {
    hide Lookup;
    LookupSecond("severity", JText("critical"), "via", JList([]));
  }

  lemma OneViaPart(item: Json, part: (Json, Json))
    requires ViaPart(item) == Some(part)
    ensures ViaParts([item]) == [part]
  {
    assert [item][1..] == [];
    assert ViaParts([item]) == [part] + ViaParts([]);
  }

  /** An object in "via" that has a truthy source which is no string, and nothing else, raises. */
  lemma NumericSourceRaises(str: Json -> string, name: string, severity: Json, source: Json)
    requires source.Truthy() && !source.JText?
    ensures EntryTuples(str, name, JDict([("severity", severity), ("via", JList([JDict([("source", source)])]))])) == None
  {
    var item := JDict([("source", source)]);
    assert ViaPart(item) == Some((source, source)) by {
      LookupSecond("source", source, "github_advisory_id", JNull);
      LookupSecond("source", source, "url", JNull);
      LookupSecond("source", source, "title", JNull);
      LookupSecond("source", source, "advisory", JNull);
      hide Lookup;
    }
    hide Lookup, ViaPart;
    OneViaPart(item, (source, source));
    var parts := ViaParts([item]);
    LookupSecond("severity", severity, "via", JList([item]));
    assert parts[0].1.Truthy();
  }
}
