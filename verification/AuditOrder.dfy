/** How far the verdict of the audit gate depends on the order and repetition of the reported tuples. */
module AuditOrder {
  import opened Wrappers
  import opened PyText
  import opened ExceptionFile
  import opened AuditGate

  /** The gate without its seen set: every tuple is compared on its own severity. */
  ghost predicate PassesUnseen(env: Env, excs: seq<Record>, vs: seq<Vuln>) {
    ValidExceptions(env, excs) && forall v :: v in vs && Gated(env, v) ==> Covered(env, excs, v, true)
  }

  /** Every looked-at tuple shares its key with one whose severity fits. */
  ghost predicate PassesLenient(env: Env, excs: seq<Record>, vs: seq<Vuln>) {
    ValidExceptions(env, excs) && forall v :: v in vs && Gated(env, v) ==> HasFittingTwin(env, excs, vs, v)
  }

  ghost predicate HasFittingTwin(env: Env, excs: seq<Record>, vs: seq<Vuln>, v: Vuln) {
    exists w :: w in vs && Twin(env, excs, v, w)
  }

  ghost predicate Twin(env: Env, excs: seq<Record>, v: Vuln, w: Vuln) {
    Gated(env, w) && VulnKey(env, w) == VulnKey(env, v) && Covered(env, excs, w, true)
  }

  /** All looked-at tuples of one key carry one normalised severity. */
  ghost predicate UniformSeverity(env: Env, vs: seq<Vuln>) {
    forall v, w :: v in vs && w in vs && Gated(env, v) && Gated(env, w) && VulnKey(env, v) == VulnKey(env, w)
                   ==> Sev(env, v) == Sev(env, w)
  }

  ghost predicate SameElements(a: seq<Vuln>, b: seq<Vuln>) {
    forall v :: v in a <==> v in b
  }

  // ----- bounds that no order can cross -----

  lemma CoveredWeakens(env: Env, excs: seq<Record>, v: Vuln, w: Vuln)
    requires Covered(env, excs, w, true) && VulnKey(env, v) == VulnKey(env, w)
    ensures Covered(env, excs, v, false)
  {
    var e :| 0 <= e < |excs| && Covers(env, excs[e], w, true);
    assert Covers(env, excs[e], v, false);
  }

  /** The first looked-at tuple with the key of the one at i. */
  lemma {:induction false} FirstOfKey(env: Env, vs: seq<Vuln>, i: nat) returns (j: nat)
    requires i < |vs| && Gated(env, vs[i])
    ensures j <= i && Gated(env, vs[j]) && VulnKey(env, vs[j]) == VulnKey(env, vs[i]) && FirstVuln(env, vs, j)
  {
    hide Gated, VulnKey;
    if FirstVuln(env, vs, i) {
      j := i;
    } else {
      var k :| 0 <= k < i && Gated(env, vs[k]) && VulnKey(env, vs[k]) == VulnKey(env, vs[i]);
      j := FirstOfKey(env, vs, k);
    }
  }

  /** In every order the gate lies between the gate without seen and the lenient gate. */
  lemma PassesBetween(env: Env, excs: seq<Record>, vs: seq<Vuln>)
    ensures PassesUnseen(env, excs, vs) ==> Passes(env, excs, vs)
    ensures Passes(env, excs, vs) ==> PassesLenient(env, excs, vs)
  {
    hide Gated, VulnKey, ValidExceptions, Covered;
    if PassesUnseen(env, excs, vs) {
      forall i | 0 <= i < |vs| && Gated(env, vs[i]) ensures Covered(env, excs, vs[i], FirstVuln(env, vs, i)) {
        assert Covered(env, excs, vs[i], true);
        CoveredWeakens(env, excs, vs[i], vs[i]);
      }
    }
    if Passes(env, excs, vs) {
      forall v | v in vs && Gated(env, v) ensures HasFittingTwin(env, excs, vs, v) {
        var i :| 0 <= i < |vs| && vs[i] == v;
        var j := FirstOfKey(env, vs, i);
        assert Covered(env, excs, vs[j], FirstVuln(env, vs, j));
        assert Twin(env, excs, v, vs[j]);
      }
    }
  }

  // ----- orders that reach the bounds -----

  /** The tuples, in their order, whose own severity does (or does not) fit. */
  ghost function Fitting(env: Env, excs: seq<Record>, vs: seq<Vuln>, fit: bool): seq<Vuln> {
    if vs == [] then []
    else (if Covered(env, excs, vs[0], true) == fit then [vs[0]] else []) + Fitting(env, excs, vs[1..], fit)
  }

  lemma {:induction false} FittingElements(env: Env, excs: seq<Record>, vs: seq<Vuln>, fit: bool)
    ensures forall v :: v in Fitting(env, excs, vs, fit) <==> v in vs && Covered(env, excs, v, true) == fit
  {
    hide Covered;
    if vs != [] {
      assert vs == [vs[0]] + vs[1..];
      FittingElements(env, excs, vs[1..], fit);
    }
  }

  lemma {:induction false} FittingSplits(env: Env, excs: seq<Record>, vs: seq<Vuln>)
    ensures multiset(Fitting(env, excs, vs, true)) + multiset(Fitting(env, excs, vs, false)) == multiset(vs)
  {
    hide Covered;
    if vs != [] {
      assert vs == [vs[0]] + vs[1..];
      FittingSplits(env, excs, vs[1..]);
    }
  }

  lemma PermutationElements(a: seq<Vuln>, b: seq<Vuln>)
    requires multiset(a) == multiset(b)
    ensures SameElements(a, b)
  {
    assert forall v :: v in a <==> v in multiset(a);
    assert forall v :: v in b <==> v in multiset(b);
  }

  lemma FittingFirst(env: Env, excs: seq<Record>, good: seq<Vuln>, bad: seq<Vuln>)
    requires forall v :: v in good ==> Covered(env, excs, v, true)
    requires PassesLenient(env, excs, good + bad)
    requires forall v :: v in bad ==> !Covered(env, excs, v, true)
    ensures Passes(env, excs, good + bad)
  {
    hide Gated, VulnKey, ValidExceptions, Covered;
    var p := good + bad;
    forall i | 0 <= i < |p| && Gated(env, p[i]) ensures Covered(env, excs, p[i], FirstVuln(env, p, i)) {
      assert p[i] in p && HasFittingTwin(env, excs, p, p[i]);
      var w :| w in p && Twin(env, excs, p[i], w);
      CoveredWeakens(env, excs, p[i], w);
      assert w in good;
      var k :| 0 <= k < |good| && good[k] == w;
      assert p[k] == w;
      if i < |good| {
        assert p[i] == good[i] && good[i] in good;
      } else {
        assert !FirstVuln(env, p, i);
      }
    }
  }

  lemma MisfitsFirst(env: Env, excs: seq<Record>, bad: seq<Vuln>, good: seq<Vuln>)
    requires forall v :: v in good ==> Covered(env, excs, v, true)
    requires forall v :: v in bad ==> !Covered(env, excs, v, true)
    requires Passes(env, excs, bad + good)
    ensures PassesUnseen(env, excs, bad + good)
  {
    hide Gated, VulnKey, ValidExceptions, Covered;
    var p := bad + good;
    forall i | 0 <= i < |bad| ensures !Gated(env, bad[i]) {
      if Gated(env, bad[i]) {
        assert p[i] == bad[i];
        var j := FirstOfKey(env, p, i);
        assert false;
      }
    }
  }

  /** With the fitting tuples in front the gate is as lenient as it can be. */
  lemma BestOrder(env: Env, excs: seq<Record>, vs: seq<Vuln>) returns (p: seq<Vuln>)
    ensures multiset(p) == multiset(vs)
    ensures Passes(env, excs, p) <==> PassesLenient(env, excs, vs)
  {
    hide Passes, PassesLenient, PassesUnseen, Covered, Fitting;
    var good, bad := Fitting(env, excs, vs, true), Fitting(env, excs, vs, false);
    p := good + bad;
    FittingSplits(env, excs, vs);
    FittingElements(env, excs, vs, true);
    FittingElements(env, excs, vs, false);
    PermutationElements(p, vs);
    ElementsDecide(env, excs, p, vs);
    PassesBetween(env, excs, p);
    if PassesLenient(env, excs, p) {
      FittingFirst(env, excs, good, bad);
    }
  }

  /** With the misfits in front the gate is as strict as the one without seen. */
  lemma WorstOrder(env: Env, excs: seq<Record>, vs: seq<Vuln>) returns (p: seq<Vuln>)
    ensures multiset(p) == multiset(vs)
    ensures Passes(env, excs, p) <==> PassesUnseen(env, excs, vs)
  {
    hide Passes, PassesLenient, PassesUnseen, Covered, Fitting;
    var good, bad := Fitting(env, excs, vs, true), Fitting(env, excs, vs, false);
    p := bad + good;
    FittingSplits(env, excs, vs);
    FittingElements(env, excs, vs, true);
    FittingElements(env, excs, vs, false);
    PermutationElements(p, vs);
    ElementsDecide(env, excs, p, vs);
    PassesBetween(env, excs, p);
    if Passes(env, excs, p) {
      MisfitsFirst(env, excs, bad, good);
    }
  }

  /** The two bounds look at the set of tuples only. */
  lemma ElementsDecide(env: Env, excs: seq<Record>, a: seq<Vuln>, b: seq<Vuln>)
    requires SameElements(a, b)
    ensures PassesUnseen(env, excs, a) == PassesUnseen(env, excs, b)
    ensures PassesLenient(env, excs, a) == PassesLenient(env, excs, b)
  {
    hide Gated, ValidExceptions, Covered, Twin;
    forall v ensures HasFittingTwin(env, excs, a, v) == HasFittingTwin(env, excs, b, v) {
    }
  }

  /** The verdict is the same in every order if and only if the lenient gate and the gate without
      seen agree on these tuples. */
  lemma OrderIndependentExactly(env: Env, excs: seq<Record>, vs: seq<Vuln>)
    ensures (forall p :: multiset(p) == multiset(vs) ==> Passes(env, excs, p) == Passes(env, excs, vs))
            <==> (PassesLenient(env, excs, vs) ==> PassesUnseen(env, excs, vs))
  {
    hide Passes, PassesLenient, PassesUnseen;
    PassesBetween(env, excs, vs);
    var best := BestOrder(env, excs, vs);
    var worst := WorstOrder(env, excs, vs);
    forall p | multiset(p) == multiset(vs)
      ensures PassesUnseen(env, excs, vs) ==> Passes(env, excs, p)
      ensures Passes(env, excs, p) ==> PassesLenient(env, excs, vs)
    {
      PermutationElements(p, vs);
      ElementsDecide(env, excs, p, vs);
      PassesBetween(env, excs, p);
    }
  }

  // ----- one severity per key -----

  lemma CoveredBySeverity(env: Env, excs: seq<Record>, v: Vuln, w: Vuln)
    requires VulnKey(env, v) == VulnKey(env, w) && Sev(env, v) == Sev(env, w)
    ensures Covered(env, excs, v, true) == Covered(env, excs, w, true)
  {
    hide VulnKey, Sev;
    forall e | 0 <= e < |excs| ensures Covers(env, excs[e], v, true) == Covers(env, excs[e], w, true) {
    }
  }

  /** With one severity per key the seen set changes nothing: the gate equals the one without it. */
  lemma SeenIsInvisible(env: Env, excs: seq<Record>, vs: seq<Vuln>)
    requires UniformSeverity(env, vs)
    ensures Passes(env, excs, vs) == PassesUnseen(env, excs, vs)
  {
    hide Gated, VulnKey, ValidExceptions, Covered, Sev;
    PassesBetween(env, excs, vs);
    if PassesLenient(env, excs, vs) {
      forall v | v in vs && Gated(env, v) ensures Covered(env, excs, v, true) {
        assert HasFittingTwin(env, excs, vs, v);
        var w :| w in vs && Twin(env, excs, v, w);
        CoveredBySeverity(env, excs, v, w);
      }
    }
  }

  /** With one severity per key, dropping tuples never turns a pass into a failure; so permuting,
      repeating and de-duplicating them leave the verdict alone. */
  lemma FewerTuplesStillPass(env: Env, excs: seq<Record>, few: seq<Vuln>, many: seq<Vuln>)
    requires UniformSeverity(env, many)
    requires forall v :: v in few ==> v in many
    ensures Passes(env, excs, many) ==> Passes(env, excs, few)
  {
    hide Passes;
    SeenIsInvisible(env, excs, many);
    SeenIsInvisible(env, excs, few);
  }

  lemma OnlyTheSetMatters(env: Env, excs: seq<Record>, a: seq<Vuln>, b: seq<Vuln>)
    requires UniformSeverity(env, a) && SameElements(a, b)
    ensures Passes(env, excs, a) == Passes(env, excs, b)
  {
    hide Passes;
    FewerTuplesStillPass(env, excs, a, b);
    FewerTuplesStillPass(env, excs, b, a);
  }

  // ----- one key with two severities -----

  function SampleEnv(): Env {
    Env(0, (s: string) => Some(0), (s: string) => s)
  }

  function SampleException(): Record {
    map["package" := "xlsx", "advisory" := "ghsa", "severity" := "high", "mitigation" := "m", "expires_on" := "d"]
  }

  function SampleVuln(severity: string): Vuln {
    Vuln(Str("xlsx"), Str(severity), Str("ghsa"))
  }

  lemma SampleVulnFacts(severity: string)
    requires severity == "high" || severity == "critical"
    ensures var env, v := SampleEnv(), SampleVuln(severity);
            Gated(env, v) && VulnKey(env, v) == ("xlsx", "ghsa") && Sev(env, v) == severity
  {
    hide Strip;
    StripTrimmed("xlsx");
    StripTrimmed("ghsa");
    StripTrimmed(severity);
  }

  lemma SampleExceptionFacts()
    ensures var env, exc := SampleEnv(), SampleException();
            && WellFormed(env, exc) && ExcKey(env, exc) == ("xlsx", "ghsa")
            && ExcSeverity(env, exc) == "high" && ExcExpiry(env, exc) == Some(0)
  {
    hide Strip;
    var exc := SampleException();
    assert "advisory"[0] != "severity"[0] && "mitigation"[0] != "expires_on"[0];
    assert FieldText(exc, "package") == "xlsx" && FieldText(exc, "advisory") == "ghsa" && FieldText(exc, "severity") == "high";
    StripTrimmed("xlsx");
    StripTrimmed("ghsa");
    StripTrimmed("high");
  }

  /** The order can matter: with one key reported as high and as critical under a "high" exception,
      the run passes when high comes first and fails when critical does. */
  lemma OrderMatters()
    ensures var env, excs := SampleEnv(), [SampleException()];
            && Passes(env, excs, [SampleVuln("high"), SampleVuln("critical")])
            && !Passes(env, excs, [SampleVuln("critical"), SampleVuln("high")])
  {
    hide WellFormed, ExcKey, VulnKey, Gated, ExcSeverity, Sev, ExcExpiry;
    SampleVulnFacts("high");
    SampleVulnFacts("critical");
    SampleExceptionFacts();
    var env, excs := SampleEnv(), [SampleException()];
    var high, critical := SampleVuln("high"), SampleVuln("critical");
    assert Covers(env, excs[0], high, true) && Covers(env, excs[0], critical, false);
    assert Gated(env, [high, critical][0]) && !FirstVuln(env, [high, critical], 1);
    assert FirstVuln(env, [critical, high], 0);
    assert "high" != "critical";
  }
}
