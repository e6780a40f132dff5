/**
 * The stock terrascan scanner (pkg/iacscan/stock_terrascan.go): the IaC types
 * it scans, one scan per type, and the merge of the per-type reports into one
 * report with severity counts.
 */
module IacScan {
  import opened Text
  import opened Json

  /** The IaC types scanned, in order, one scan each. */
  const SupportedTypes: seq<string> := ["aws", "gcp", "azure", "k8s"]

  /** The command line of the scan for one type. */
  function ScanCommand(program: string, iacType: string, directory: string, policyPath: string): (r: seq<string>)
    ensures |r| == 8 && r[0] == program && r[1] == "scan"
    ensures r[2] == "-t" && r[3] == iacType && r[4] == "-d" && r[5] == directory && r[6] == "-p" && r[7] == policyPath
  {
    [program, "scan", "-t", iacType, "-d", directory, "-p", policyPath]
  }

  /** The scans run: one per supported type, in the order of the list. */
  function ScanCommands(program: string, directory: string, policyPath: string): (r: seq<seq<string>>)
    ensures |r| == |SupportedTypes|
    ensures forall i | 0 <= i < |r| :: r[i] == ScanCommand(program, SupportedTypes[i], directory, policyPath)
  {
    seq(|SupportedTypes|, i requires 0 <= i < |SupportedTypes| => ScanCommand(program, SupportedTypes[i], directory, policyPath))
  }

  /** Every type is scanned exactly once. */
  lemma SupportedTypesDistinct()
    ensures |SupportedTypes| == 4
    ensures forall i, j | 0 <= i < j < |SupportedTypes| :: SupportedTypes[i] != SupportedTypes[j]
  {
    assert SupportedTypes[0][0] == 'a' && SupportedTypes[1][0] == 'g';
    assert SupportedTypes[2][0] == 'a' && SupportedTypes[3][0] == 'k';
    assert |SupportedTypes[0]| == 3 && |SupportedTypes[2]| == 5;
  }

  // ---------------------------------------------------------------------------
  // The reports
  // ---------------------------------------------------------------------------

  /** The violations list of one decoded report, at `results.violations`. */
  function Violations(m: Node): Node {
    Path(Path(m, "results"), "violations")
  }

  /** The members of an object node; none for anything else. */
  function Members(n: Node): map<string, Node> {
    if n.Object? then n.fields else map[]
  }

  /**
   * What the merge's type assertions demand of a report: `results` is a
   * mapping whose `violations` is a list of mappings, each with a string
   * `severity`. Any other report makes the merge panic.
   */
  predicate WellFormedReport(m: Node) {
    && Path(m, "results").Object?
    && Violations(m).Array?
    && forall v | v in Violations(m).elements :: v.Object? && Path(v, "severity").Str?
  }

  /** All violations of the reports, report by report, each report's in its own order. */
  function AllViolations(maps: seq<Node>): (r: seq<Node>)
  {
    if maps == [] then []
    else AllViolations(maps[..|maps| - 1]) + Elements(Violations(maps[|maps| - 1]))
  }

  /** Merging the reports of two runs together is merging each, one after the other. */
  lemma {:induction false} AllViolationsConcat(a: seq<Node>, b: seq<Node>)
    ensures AllViolations(a + b) == AllViolations(a) + AllViolations(b)
    decreases |b|
  {
    if b == [] {
      assert a + b == a;
    } else {
      var b' := b[..|b| - 1];
      assert (a + b)[..|a + b| - 1] == a + b';
      assert (a + b)[|a + b| - 1] == b[|b| - 1];
      AllViolationsConcat(a, b');
    }
  }

  /** Every violation merged comes from some report, and every violation of every report is merged. */
  lemma {:induction false} AllViolationsMembers(maps: seq<Node>)
    ensures forall v | v in AllViolations(maps) :: exists i | 0 <= i < |maps| :: v in Elements(Violations(maps[i]))
    ensures forall i, v | 0 <= i < |maps| && v in Elements(Violations(maps[i])) :: v in AllViolations(maps)
    decreases |maps|
  {
    if maps != [] {
      var init := maps[..|maps| - 1];
      var last := maps[|maps| - 1];
      AllViolationsMembers(init);
      forall v | v in AllViolations(maps) ensures exists i | 0 <= i < |maps| :: v in Elements(Violations(maps[i])) {
        if v in AllViolations(init) {
          var i :| 0 <= i < |init| && v in Elements(Violations(init[i]));
          assert maps[i] == init[i];
        } else {
          assert v in Elements(Violations(maps[|maps| - 1]));
        }
      }
      forall i, v | 0 <= i < |maps| && v in Elements(Violations(maps[i])) ensures v in AllViolations(maps) {
        if i < |init| {
          assert maps[i] == init[i];
        }
      }
    }
  }

  /** The severity a violation is counted under: its `severity`, lower-cased. */
  function SeverityOf(v: Node): string {
    ToLower(AsText(Path(v, "severity")))
  }

  /** How many of the violations have the given (lower-case) severity. */
  function CountSeverity(vs: seq<Node>, severity: string): (n: nat)
    ensures n <= |vs|
  {
    if vs == [] then 0
    else CountSeverity(vs[..|vs| - 1], severity) + (if SeverityOf(vs[|vs| - 1]) == severity then 1 else 0)
  }

  /** The three counted severities never count more violations than there are: other severities count only in the total. */
  lemma {:induction false} SeverityBucketsBounded(vs: seq<Node>)
    ensures CountSeverity(vs, "low") + CountSeverity(vs, "medium") + CountSeverity(vs, "high") <= |vs|
    decreases |vs|
  {
    if vs != [] {
      SeverityBucketsBounded(vs[..|vs| - 1]);
    }
  }

  /**
   * A severity is matched whatever its case: a violation whose severity is
   * another's upper-cased or lower-cased lands in the same bucket, so `HIGH`,
   * `High` and `high` all count as high.
   */
  lemma SeverityCaseInsensitive(v: Node, w: Node)
    requires Path(v, "severity").Str? && Path(w, "severity").Str?
    requires Path(w, "severity").text == ToUpper(Path(v, "severity").text)
      || Path(w, "severity").text == ToLower(Path(v, "severity").text)
    ensures SeverityOf(w) == SeverityOf(v)
  {
    LowerForgetsCase(Path(v, "severity").text);
  }

  /**
   * `fmt.Sprintf("%v", value)` on a decoded value: a string is itself, a
   * number its decimal text, a boolean `true` or `false`, a missing value
   * `<nil>`; nested lists and mappings are printed by `showNested`.
   */
  function Show(n: Node, showNested: Node -> string): (r: string)
    ensures n.Str? ==> r == n.text
    ensures n.Num? ==> r == Itoa(n.number)
  {
    match n
    case Str(s) => s
    case Num(i) => Itoa(i)
    case Bool(b) => if b then "true" else "false"
    case Null => "<nil>"
    case Missing => "<nil>"
    case _ => showNested(n)
  }

  /** A violation with every value printed: the same keys, each mapped to its text. */
  function Printed(v: Node, showNested: Node -> string): (r: map<string, string>)
    ensures r.Keys == Members(v).Keys
    ensures forall k | k in r :: r[k] == Show(Members(v)[k], showNested)
  {
    map k | k in Members(v) :: Show(Members(v)[k], showNested)
  }

  /** A mapping of strings as a document node. */
  function TextObject(vs: map<string, string>): (r: Node)
    ensures r.Object? && r.fields.Keys == vs.Keys
    ensures forall k | k in vs :: r.fields[k] == Str(vs[k])
  {
    Object(map k | k in vs :: Str(vs[k]))
  }

  /** The merged violations list: each violation printed, in order. */
  function PrintedAll(vs: seq<Node>, showNested: Node -> string): (r: seq<Node>)
    ensures |r| == |vs|
    ensures forall i | 0 <= i < |vs| :: r[i] == TextObject(Printed(vs[i], showNested))
  {
    if vs == [] then []
    else PrintedAll(vs[..|vs| - 1], showNested) + [TextObject(Printed(vs[|vs| - 1], showNested))]
  }

  /** The counts node: exactly `total`, `low`, `medium` and `high`. */
  function Stats(total: int, low: int, medium: int, high: int): (r: Node)
    ensures r.Object? && r.fields.Keys == {"total", "low", "medium", "high"}
    ensures r.fields["total"] == Num(total) && r.fields["low"] == Num(low)
    ensures r.fields["medium"] == Num(medium) && r.fields["high"] == Num(high)
  {
    Object(map["total" := Num(total), "low" := Num(low), "medium" := Num(medium), "high" := Num(high)])
  }

  /** The merged report `{results: {count: ..., violations: [...]}}` for a list of violations. */
  function MergedReport(vs: seq<Node>, showNested: Node -> string): Node {
    Object(map["results" := Object(map[
      "count" := Stats(|vs|, CountSeverity(vs, "low"), CountSeverity(vs, "medium"), CountSeverity(vs, "high")),
      "violations" := Array(PrintedAll(vs, showNested))])])
  }

  /**
   * The shape of the merged report: `results` holds exactly `count` and
   * `violations`; the total is the number of violations listed; the three
   * buckets add up to at most the total; and the i-th violation listed has
   * the keys of the i-th violation merged, each value printed.
   */
  lemma MergedReportShape(vs: seq<Node>, showNested: Node -> string)
    ensures var r := MergedReport(vs, showNested);
      var results := Path(r, "results");
      var count := Path(results, "count");
      var listed := Elements(Path(results, "violations"));
      && r.Object? && r.fields.Keys == {"results"}
      && results.Object? && results.fields.Keys == {"count", "violations"}
      && count.Object? && count.fields.Keys == {"total", "low", "medium", "high"}
      && AsInt(Path(count, "total")) == |listed| == |vs|
      && AsInt(Path(count, "low")) + AsInt(Path(count, "medium")) + AsInt(Path(count, "high")) <= AsInt(Path(count, "total"))
      && forall i | 0 <= i < |listed| ::
           listed[i].Object? && listed[i].fields.Keys == Members(vs[i]).Keys
           && forall k | k in Members(vs[i]) :: listed[i].fields[k] == Str(Show(Members(vs[i])[k], showNested))
  {
    SeverityBucketsBounded(vs);
  }

  // ---------------------------------------------------------------------------
  // The merge
  // ---------------------------------------------------------------------------

  /** The merge's running state after the violations `done`: the counters and the list so far. */
  ghost predicate Tallied(done: seq<Node>, showNested: Node -> string, violations: seq<Node>,
                          total: int, low: int, medium: int, high: int)
  {
    && total == |done| && violations == PrintedAll(done, showNested)
    && low == CountSeverity(done, "low")
    && medium == CountSeverity(done, "medium")
    && high == CountSeverity(done, "high")
  }

  /** One more violation: the total and the bucket of its severity go up by one, and it is listed last. */
  lemma TallyNext(done: seq<Node>, v: Node, showNested: Node -> string, violations: seq<Node>,
                  total: int, low: int, medium: int, high: int)
    requires Tallied(done, showNested, violations, total, low, medium, high)
    ensures Tallied(done + [v], showNested, violations + [TextObject(Printed(v, showNested))], total + 1,
      low + (if SeverityOf(v) == "low" then 1 else 0),
      medium + (if SeverityOf(v) == "medium" then 1 else 0),
      high + (if SeverityOf(v) == "high" then 1 else 0))
  {
    assert (done + [v])[..|done|] == done;
  }

  lemma AllViolationsNext(maps: seq<Node>, i: nat)
    requires i < |maps|
    ensures AllViolations(maps[..i + 1]) == AllViolations(maps[..i]) + Elements(Violations(maps[i]))
  {
    assert maps[..i + 1][..i] == maps[..i];
  }

  /** The loop over one violation's members: each key printed, then its value. */
  method PrintViolation(v: map<string, Node>, showNested: Node -> string) returns (vs: map<string, string>)
    ensures vs == Printed(Object(v), showNested)
  {
    vs := map[];
    var rest := v.Keys;
    while rest != {}
      invariant rest <= v.Keys
      invariant vs.Keys == v.Keys - rest
      invariant forall k | k in vs :: vs[k] == Show(v[k], showNested)
      decreases rest
    {
      var key :| key in rest;
      vs := vs[key := Show(v[key], showNested)];
      rest := rest - {key};
    }
  }

  /**
   * `mergeViolationResults`: walks the reports in order and each report's
   * violations in order, counting severities and listing every violation
   * with its values printed.
   */
  method MergeViolationResults(maps: seq<Node>, showNested: Node -> string) returns (result: Node)
    requires forall i | 0 <= i < |maps| :: WellFormedReport(maps[i])
    ensures result == MergedReport(AllViolations(maps), showNested)
  {
    var lowCount, highCount, mediumCount, totalCount := 0, 0, 0, 0;
    var violations: seq<Node> := [];
    ghost var done: seq<Node> := [];
    for i := 0 to |maps|
      invariant done == AllViolations(maps[..i])
      invariant Tallied(done, showNested, violations, totalCount, lowCount, mediumCount, highCount)
    {
      AllViolationsNext(maps, i);
      assert WellFormedReport(maps[i]);
      var vs := Violations(maps[i]).elements;
      for j := 0 to |vs|
        invariant done == AllViolations(maps[..i]) + vs[..j]
        invariant Tallied(done, showNested, violations, totalCount, lowCount, mediumCount, highCount)
      {
        var v := vs[j];
        assert v in Violations(maps[i]).elements;
        var severity := Path(v, "severity").text;
        var s := ToLower(severity);
        assert s == SeverityOf(v);
        TallyNext(done, v, showNested, violations, totalCount, lowCount, mediumCount, highCount);
        if s == "high" {
          highCount := highCount + 1;
        } else if s == "low" {
          lowCount := lowCount + 1;
        } else if s == "medium" {
          mediumCount := mediumCount + 1;
        }
        totalCount := totalCount + 1;
        var printed := PrintViolation(v.fields, showNested);
        violations := violations + [TextObject(printed)];
        TakeNext(vs, AllViolations(maps[..i]), j);
        done := done + [v];
      }
      assert vs[..|vs|] == vs;
    }
    assert maps[..|maps|] == maps;
    var stats := Stats(totalCount, lowCount, mediumCount, highCount);
    var output := Object(map["count" := stats, "violations" := Array(violations)]);
    result := Object(map["results" := output]);
  }
}
