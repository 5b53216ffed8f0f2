/** Which fields of the report decide: pick_advisory_id and the field lookups of iter_vulns in
    tools/check_pnpm_audit_exceptions.py, as lists of names tried in order. */
module AdvisoryFields {
  import opened Wrappers
  import opened AuditGate
  import opened AuditReport

  /** v is the first truthy one of the values, or falsy like all of them. */
  ghost predicate FirstTruthy(values: seq<Json>, v: Json) {
    || (exists k :: 0 <= k < |values| && FirstAt(values, k) && v == values[k])
    || (!v.Truthy() && forall i :: 0 <= i < |values| ==> !values[i].Truthy())
  }

  ghost predicate FirstAt(values: seq<Json>, k: nat)
    requires k < |values|
  {
    values[k].Truthy() && forall i :: 0 <= i < k ==> !values[i].Truthy()
  }

  /** Some operand of a chain of `or` is the first truthy one, and the chain yields it. */
  lemma OrIsFirst(a: Json, rest: seq<Json>, v: Json)
    requires FirstTruthy(rest, v)
    ensures FirstTruthy([a] + rest, Or(a, v))
  {
    var all := [a] + rest;
    assert forall i :: 0 <= i < |rest| ==> all[i + 1] == rest[i];
    if a.Truthy() {
      assert FirstAt(all, 0);
    } else if k :| 0 <= k < |rest| && FirstAt(rest, k) && v == rest[k] {
      assert forall i :: 0 < i < |all| ==> all[i] == rest[i - 1];
      assert FirstAt(all, k + 1) && all[k + 1] == v;
    } else {
      assert forall i :: 0 < i < |all| ==> all[i] == rest[i - 1];
    }
  }

  lemma OneIsFirst(a: Json)
    ensures FirstTruthy([a], a)
  {
    if a.Truthy() {
      assert FirstAt([a], 0);
    }
  }

  /** A truthy value in front is the one. */
  lemma FrontWins(values: seq<Json>, v: Json)
    requires FirstTruthy(values, v) && values != [] && values[0].Truthy()
    ensures v == values[0]
  {
  }

  /** The values of an object under a list of names. */
  function Values(d: Json, names: seq<string>): (values: seq<Json>)
    requires d.JDict?
    ensures |values| == |names| && forall i :: 0 <= i < |names| ==> values[i] == Get(d, names[i])
  {
    seq(|names|, i requires 0 <= i < |names| => Get(d, names[i]))
  }

  /** dict.get: the value of the entry with the name, and null if there is none. */
  lemma {:induction false} LookupExactly(entries: seq<(string, Json)>, k: string)
    ensures Lookup(entries, k).None? <==> forall i :: 0 <= i < |entries| ==> entries[i].0 != k
    ensures Lookup(entries, k).Some? ==> (k, Lookup(entries, k).value) in entries
  {
    if entries != [] {
      LookupExactly(entries[1..], k);
      assert forall i :: 0 < i < |entries| ==> entries[i] == entries[1..][i - 1];
      assert entries == [entries[0]] + entries[1..];
      assert entries[0] == (entries[0].0, entries[0].1);
    }
  }

  // ----- the "advisories" format -----

  const STABLE_IDS: seq<string> := ["github_advisory_id", "url"]
  const WEAK_IDS: seq<string> := ["title", "advisory", "overview"]
  const ADVISORY_NAMES: seq<string> := ["module_name", "name"]

  /** The identifiers of an advisory in the order of preference: the GHSA identifier, the URL, the first CVE, the
      number, and then whatever text there is. */
  function Identifiers(str: Json -> string, adv: Json, cve: Json): seq<Json>
    requires adv.JDict?
  {
    Values(adv, STABLE_IDS) + [cve, IdText(str, Get(adv, "id"))] + Values(adv, WEAK_IDS)
  }

  /** The first CVE: the first item of the list, null if there is none or it is empty. */
  lemma FirstCveExactly(cves: Json)
    ensures !cves.Truthy() ==> FirstCve(cves) == Some(JNull)
    ensures cves.JList? && cves.items != [] ==> FirstCve(cves) == Some(cves.items[0])
    ensures FirstCve(cves).None? <==> cves.Truthy() && !cves.JList? && !cves.JText?
  {
  }

  /** The number of an advisory is its text; a missing one is null. */
  lemma IdTextExactly(str: Json -> string, id: Json)
    ensures id.JNull? ==> IdText(str, id) == JNull
    ensures id.JText? ==> IdText(str, id) == id
    ensures id.JAtom? ==> IdText(str, id) == JText(id.repr)
    ensures !id.JNull? ==> IdText(str, id).JText?
  {
  }

  lemma ThreeOrs(a: Json, b: Json, c: Json)
    ensures FirstTruthy([a, b, c], Or(a, Or(b, c)))
  {
    OneIsFirst(c);
    OrIsFirst(b, [c], c);
    assert [b] + [c] == [b, c];
    OrIsFirst(a, [b, c], Or(b, c));
    assert [a] + [b, c] == [a, b, c];
  }

  lemma FiveOrs(a: Json, b: Json, c: Json, d: Json, e: Json)
    ensures FirstTruthy([a, b, c, d, e], Or(a, Or(b, Or(c, Or(d, e)))))
  {
    hide Or, FirstTruthy;
    ThreeOrs(c, d, e);
    OrIsFirst(b, [c, d, e], Or(c, Or(d, e)));
    OrIsFirst(a, [b] + [c, d, e], Or(b, Or(c, Or(d, e))));
    assert [a] + ([b] + [c, d, e]) == [a, b, c, d, e];
  }

  lemma SevenOrs(a: Json, b: Json, c: Json, d: Json, e: Json, f: Json, g: Json)
    ensures FirstTruthy([a, b, c, d, e, f, g], Or(a, Or(b, Or(c, Or(d, Or(e, Or(f, g)))))))
  {
    hide Or, FirstTruthy;
    var tail := Or(c, Or(d, Or(e, Or(f, g))));
    FiveOrs(c, d, e, f, g);
    OrIsFirst(b, [c, d, e, f, g], tail);
    OrIsFirst(a, [b] + [c, d, e, f, g], Or(b, tail));
    assert [a] + ([b] + [c, d, e, f, g]) == [a, b, c, d, e, f, g];
  }

  /** pick_advisory_id raises exactly when it comes to "cves" and they cannot be indexed; otherwise it yields the
      first truthy identifier, or a falsy one if there is none. */
  lemma PickExactly(str: Json -> string, adv: Json)
    requires adv.JDict?
    ensures var cve := FirstCve(Get(adv, "cves"));
            && (PickAdvisoryId(str, adv).None? <==>
                  cve.None? && forall i :: 0 <= i < |STABLE_IDS| ==> !Get(adv, STABLE_IDS[i]).Truthy())
            && (PickAdvisoryId(str, adv).Some? ==>
                  FirstTruthy(Identifiers(str, adv, cve.GetOr(JNull)), PickAdvisoryId(str, adv).value))
  {
    hide Lookup, Json.Truthy, FirstCve, IdText;
    var cve := FirstCve(Get(adv, "cves")).GetOr(JNull);
    var a, b, d := Get(adv, "github_advisory_id"), Get(adv, "url"), IdText(str, Get(adv, "id"));
    var e, f, g := Get(adv, "title"), Get(adv, "advisory"), Get(adv, "overview");
    SevenOrs(a, b, cve, d, e, f, g);
    hide FirstTruthy;
    assert Identifiers(str, adv, cve) == [a, b, cve, d, e, f, g];
    assert STABLE_IDS[0] == "github_advisory_id" && STABLE_IDS[1] == "url";
    assert PickAdvisoryId(str, adv).Some? ==>
        PickAdvisoryId(str, adv).value == Or(a, Or(b, Or(cve, Or(d, Or(e, Or(f, g))))));
  }

  /** A value and the gate's view of it have the same truth value, and texts stay texts. */
  lemma ScalarExactly(str: Json -> string, j: Json)
    ensures AsScalar(str, j).Truthy() == j.Truthy()
    ensures j.JText? ==> AsScalar(str, j) == Str(j.text)
    ensures j.JNull? ==> AsScalar(str, j) == Null
  {
  }

  /** The tuple of an advisory: its name is the first truthy one of "module_name" and "name", its severity is
      "severity", and its advisory is the first truthy identifier. */
  lemma AdvisoryTupleExactly(str: Json -> string, adv: Json) returns (name: Json, id: Json)
    requires AdvisoryTuple(str, adv).Some?
    ensures FirstTruthy(Values(adv, ADVISORY_NAMES), name)
    ensures FirstTruthy(Identifiers(str, adv, FirstCve(Get(adv, "cves")).GetOr(JNull)), id)
    ensures AdvisoryTuple(str, adv) == Some(Vuln(AsScalar(str, name), AsScalar(str, Get(adv, "severity")), AsScalar(str, id)))
  {
    hide Lookup, Json.Truthy, FirstCve, IdText, AsScalar, Identifiers;
    PickExactly(str, adv);
    var first, second := Get(adv, "module_name"), Get(adv, "name");
    OneIsFirst(second);
    OrIsFirst(first, [second], second);
    hide FirstTruthy;
    assert [first] + [second] == [first, second] == Values(adv, ADVISORY_NAMES);
    name, id := Or(first, second), PickAdvisoryId(str, adv).value;
  }

  /** An advisory with a GHSA identifier is reported under it: the i-th tuple carries exactly this identifier. */
  lemma GhsaReported(str: Json -> string, data: Json, i: nat)
    requires ReportReadable(str, data) && i < |Entries(Get(data, "advisories"))|
    requires Get(Entries(Get(data, "advisories"))[i].1, "github_advisory_id").Truthy()
    ensures i < |Tuples(str, data)|
    ensures Tuples(str, data)[i].advisory == AsScalar(str, Get(Entries(Get(data, "advisories"))[i].1, "github_advisory_id"))
  {
    hide Lookup, Json.Truthy, AsScalar, FirstTruthy, Tuples, EntryTuples;
    AdvisoriesSpeak(str, data);
    var adv := Entries(Get(data, "advisories"))[i].1;
    var name, id := AdvisoryTupleExactly(str, adv);
    var ids := Identifiers(str, adv, FirstCve(Get(adv, "cves")).GetOr(JNull));
    assert ids[0] == Values(adv, STABLE_IDS)[0] == Get(adv, "github_advisory_id");
    FrontWins(ids, id);
  }

  // ----- the "vulnerabilities" format -----

  const VIA_IDS: seq<string> := ["github_advisory_id", "url", "source", "title", "name"]
  const VIA_TITLES: seq<string> := ["title", "url", "advisory", "source"]

  /** What an item of "via" contributes: an object its first truthy identifier and its first truthy title, a string
      itself twice, anything else nothing. */
  lemma ViaPartExactly(item: Json)
    ensures item.JDict? ==> ViaPart(item).Some? && FirstTruthy(Values(item, VIA_IDS), ViaPart(item).value.0)
                            && FirstTruthy(Values(item, VIA_TITLES), ViaPart(item).value.1)
    ensures item.JText? ==> ViaPart(item) == Some((item, item))
    ensures !item.JDict? && !item.JText? ==> ViaPart(item) == None
  {
    hide Lookup, Json.Truthy;
    if item.JDict? {
      var a, b, c, d, e := Get(item, "github_advisory_id"), Get(item, "url"), Get(item, "source"), Get(item, "title"), Get(item, "name");
      var f := Get(item, "advisory");
      FiveOrs(a, b, c, d, e);
      ThreeOrs(b, f, c);
      OrIsFirst(d, [b, f, c], Or(b, Or(f, c)));
      hide FirstTruthy, Or;
      assert [a, b, c, d, e] == Values(item, VIA_IDS);
      assert [d] + [b, f, c] == Values(item, VIA_TITLES);
    }
  }

  lemma {:induction false} ViaPartsExactly(items: seq<Json>, p: (Json, Json))
    ensures p in ViaParts(items) <==> exists i :: 0 <= i < |items| && ViaPart(items[i]) == Some(p)
  {
    hide ViaPart;
    if items != [] {
      ViaPartsExactly(items[1..], p);
      assert forall i :: 0 <= i < |items| - 1 ==> items[1..][i] == items[i + 1];
      assert forall i :: 0 < i < |items| ==> items[i] == items[1..][i - 1];
    }
  }

  /** What a vulnerability refers to: the parts of the items of a "via" list, a "via" text itself, nothing otherwise. */
  lemma EntryPartsExactly(vuln: Json, p: (Json, Json))
    requires vuln.JDict?
    ensures p in EntryParts(vuln) <==>
            || (Get(vuln, "via").JList? && exists i :: 0 <= i < |Get(vuln, "via").items| && ViaPart(Get(vuln, "via").items[i]) == Some(p))
            || (Get(vuln, "via").JText? && p == (Get(vuln, "via"), Get(vuln, "via")))
  {
    hide ViaPart, ViaParts, Lookup;
    if Get(vuln, "via").JList? {
      ViaPartsExactly(Get(vuln, "via").items, p);
    }
  }

  lemma {:induction false} AllEntryTuplesExactly(str: Json -> string, entries: seq<(string, Json)>, v: Vuln)
    requires forall i :: 0 <= i < |entries| ==> EntryTuples(str, entries[i].0, entries[i].1).Some?
    ensures v in AllEntryTuples(str, entries) <==>
            exists i :: 0 <= i < |entries| && v in EntryTuples(str, entries[i].0, entries[i].1).value
  {
    hide EntryTuples;
    if entries != [] {
      AllEntryTuplesExactly(str, entries[1..], v);
      assert forall i :: 0 <= i < |entries| - 1 ==> entries[1..][i] == entries[i + 1];
      assert forall i :: 0 < i < |entries| ==> entries[i] == entries[1..][i - 1];
    }
  }

  /** A vulnerability whose "via" list has an object with a GHSA identifier is reported under this identifier, with
      the entry's own name and severity. */
  lemma ViaGhsaReported(str: Json -> string, data: Json, i: nat, k: nat)
    requires ReportReadable(str, data) && i < |Entries(Get(data, "vulnerabilities"))|
    requires var entry := Entries(Get(data, "vulnerabilities"))[i].1;
             && Get(entry, "via").JList? && k < |Get(entry, "via").items|
             && Get(entry, "via").items[k].JDict? && Get(Get(entry, "via").items[k], "github_advisory_id").Truthy()
    ensures var e := Entries(Get(data, "vulnerabilities"))[i];
            Vuln(Str(e.0), AsScalar(str, Get(e.1, "severity")), AsScalar(str, Get(Get(e.1, "via").items[k], "github_advisory_id")))
            in Tuples(str, data)
  {
    var entries := Entries(Get(data, "vulnerabilities"));
    var e := entries[i];
    var items, item := Get(e.1, "via").items, Get(e.1, "via").items[k];
    assert EntryTuples(str, e.0, e.1).Some?;
    assert EntryParts(e.1) == ViaParts(items) by {
      hide ViaParts;
    }
    hide Lookup, Json.Truthy, AsScalar, ViaPart, ViaParts, AdvisoryTuple;
    ViaPartExactly(item);
    var p := ViaPart(item).value;
    assert Values(item, VIA_IDS)[0] == Get(item, "github_advisory_id");
    FrontWins(Values(item, VIA_IDS), p.0);
    hide FirstTruthy;
    ViaPartsExactly(items, p);
    var v := Vuln(Str(e.0), AsScalar(str, Get(e.1, "severity")), AsScalar(str, p.0));
    IdTuplesExactly(str, e.0, Get(e.1, "severity"), ViaParts(items), v);
    assert v in EntryTuples(str, e.0, e.1).value;
    AllEntryTuplesExactly(str, entries, v);
  }
}
