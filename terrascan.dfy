/**
 * The terrascan adapter: the scan's argument selection, the exit status it
 * tolerates, and the rewriting of its JSON report into findings with the
 * excluded files removed.
 */
module Terrascan {
  import opened Wrappers
  import opened Text
  import opened Json
  import opened Assessments
  import opened Results

  const PolicyTypeRequiredMessage := "--policy-type must be given unless using custom policies"
  const VersionKey := "TERRASCAN_VERSION"
  /** terrascan exits with this status when the scan found violations. */
  const ViolationsFoundStatus := 3

  /** A downloaded tool: the directory it was unpacked into and its version (possibly unknown, ""). */
  datatype Installed = Installed(dir: string, version: string)

  // ---------------------------------------------------------------------------
  // Arguments and exit status
  // ---------------------------------------------------------------------------

  /** The fixed head of the scan: the directory to scan and the output format. */
  function BaseScanArgs(directory: string): (r: seq<string>)
    ensures r == ["scan", "-d", directory, "-o", "json"]
  {
    ["scan", "-d", directory, "-o", "json"]
  }

  /**
   * The arguments of the scan, or why there are none: a failure to resolve
   * the custom policies directory; custom policies when there are some;
   * otherwise the policy type, which must then be given.
   */
  function ScanArguments(directory: string, customPolicies: Outcome<string>, policyType: string): (r: Outcome<seq<string>>)
    ensures customPolicies.Err? ==> r == Err(customPolicies.error)
    ensures r.Ok? ==> |r.value| == 7 && r.value[..5] == BaseScanArgs(directory)
    ensures customPolicies.Ok? && customPolicies.value != "" ==>
      r.Ok? && r.value[5] == "-p" && r.value[6] == customPolicies.value
    ensures customPolicies.Ok? && customPolicies.value == "" ==>
      (r.Ok? <==> policyType != "")
      && (r.Ok? ==> r.value[5] == "-t" && r.value[6] == policyType)
      && (r.Err? ==> r.error == Failure(PolicyTypeRequiredMessage))
  {
    if customPolicies.Err? then Err(customPolicies.error)
    else if customPolicies.value != "" then Ok(BaseScanArgs(directory) + ["-p", customPolicies.value])
    else if policyType == "" then Err(Failure(PolicyTypeRequiredMessage))
    else Ok(BaseScanArgs(directory) + ["-t", policyType])
  }

  /** Custom policies take precedence: the policy type is then ignored and never an error. */
  lemma CustomPoliciesIgnorePolicyType(directory: string, dir: string, t1: string, t2: string)
    requires dir != ""
    ensures ScanArguments(directory, Ok(dir), t1) == ScanArguments(directory, Ok(dir), t2)
    ensures ScanArguments(directory, Ok(dir), t1).Ok?
  {
  }

  /**
   * Which scan error ends the run: none when the scan succeeded, none when it
   * exited with status 3 (violations found), the error itself otherwise.
   */
  function ScanFailure(scanError: Option<Error>): (r: Option<Error>)
    ensures r.None? <==> scanError.None? || ExitCode(scanError.value) == ViolationsFoundStatus
    ensures r.Some? ==> r == scanError
  {
    if scanError.Some? && ExitCode(scanError.value) != ViolationsFoundStatus then scanError else None
  }

  /** Only an exit with status 3 is tolerated: other statuses and errors that are not exits are not. */
  lemma OnlyStatusThreeTolerated(code: int, message: string)
    ensures ScanFailure(Some(ExitError(3))) == None
    ensures code != 3 ==> ScanFailure(Some(ExitError(code))) == Some(ExitError(code))
    ensures ScanFailure(Some(Failure(message))) == Some(Failure(message))
  {
  }

  // ---------------------------------------------------------------------------
  // The report
  // ---------------------------------------------------------------------------

  /** The violations list of a report, at `results.violations`. */
  function Violations(n: Node): Node {
    Path(Path(n, "results"), "violations")
  }

  /** The violations `IsExcluded` removes: those whose `file` is excluded. */
  function Excluded(isExcluded: string -> bool): Node -> bool {
    (v: Node) => isExcluded(AsText(Path(v, "file")))
  }

  /**
   * The report after `parseResults`: untouched when there are no violations;
   * otherwise `results.violations` holds the violations that are not
   * excluded, and everything else is as it was.
   */
  function ParsedDocument(n: Node, isExcluded: string -> bool): (r: Node)
    ensures Size(Violations(n)) == 0 ==> r == n
    ensures Size(Violations(n)) > 0 ==>
      && n.Object? && r.Object? && r.fields.Keys == n.fields.Keys
      && Path(n, "results").Object? && Path(r, "results").Object?
      && Path(r, "results").fields.Keys == Path(n, "results").fields.Keys
      && Violations(r) == RemoveElementsIf(Violations(n), Excluded(isExcluded))
      && (forall k | k in n.fields && k != "results" :: r.fields[k] == n.fields[k])
      && (forall k | k in Path(n, "results").fields && k != "violations" ::
            Path(r, "results").fields[k] == Path(n, "results").fields[k])
  {
    if Size(Violations(n)) > 0 then
      var results := Path(n, "results");
      assert results != Missing;
      Put(n, "results", Put(results, "violations", RemoveElementsIf(Violations(n), Excluded(isExcluded))))
    else n
  }

  /** The finding built for one violation. */
  function ViolationFinding(v: Node): (f: Finding)
    ensures f.filePath == AsText(Path(v, "file")) && f.line == AsInt(Path(v, "line"))
    ensures f.description == AsText(Path(v, "description"))
    ensures f.tool.Keys == {"category", "rule_id", "severity"}
    ensures f.tool["category"] == AsText(Path(v, "category"))
    ensures f.tool["rule_id"] == AsText(Path(v, "rule_id"))
    ensures f.tool["severity"] == AsText(Path(v, "severity"))
  {
    NewFinding(AsText(Path(v, "file")), AsInt(Path(v, "line")), AsText(Path(v, "description")),
      map["category" := AsText(Path(v, "category")),
          "rule_id" := AsText(Path(v, "rule_id")),
          "severity" := AsText(Path(v, "severity"))])
  }

  /** One finding per violation, in order. */
  function ViolationFindings(vs: seq<Node>): (r: seq<Finding>)
    ensures |r| == |vs|
    ensures forall i | 0 <= i < |vs| :: r[i] == ViolationFinding(vs[i])
  {
    if vs == [] then []
    else ViolationFindings(vs[..|vs| - 1]) + [ViolationFinding(vs[|vs| - 1])]
  }

  /** The findings of a report: none without violations, else one per violation that is kept. */
  function ReportFindings(n: Node, isExcluded: string -> bool): seq<Finding> {
    if Size(Violations(n)) > 0 then ViolationFindings(Elements(Violations(ParsedDocument(n, isExcluded)))) else []
  }

  /** A report without violations yields no findings and is left as it is. */
  lemma NoViolationsNoChange(n: Node, isExcluded: string -> bool)
    requires Size(Violations(n)) == 0
    ensures ReportFindings(n, isExcluded) == []
    ensures ParsedDocument(n, isExcluded) == n
  {
  }

  /**
   * The findings and the rewritten report agree: the i-th finding is built
   * from the i-th violation left in the report, and no finding is for an
   * excluded file.
   */
  lemma FindingsMatchReport(n: Node, isExcluded: string -> bool)
    requires Size(Violations(n)) > 0
    ensures var kept := Elements(Violations(ParsedDocument(n, isExcluded)));
      var fs := ReportFindings(n, isExcluded);
      && |fs| == |kept|
      && (forall i | 0 <= i < |fs| :: fs[i] == ViolationFinding(kept[i]))
      && (forall i | 0 <= i < |fs| :: !isExcluded(fs[i].filePath))
      && (forall v | v in Elements(Violations(n)) && !isExcluded(AsText(Path(v, "file"))) :: v in kept)
  {
    var kept := Elements(Violations(ParsedDocument(n, isExcluded)));
    var fs := ReportFindings(n, isExcluded);
    var drop := Excluded(isExcluded);
    var vs := Violations(n);
    if vs.Array? {
      assert kept == Keep(vs.elements, drop);
      forall i | 0 <= i < |fs| ensures !isExcluded(fs[i].filePath) {
        assert kept[i] in Keep(vs.elements, drop);
        assert !drop(kept[i]);
      }
      forall v | v in Elements(vs) && !isExcluded(AsText(Path(v, "file"))) ensures v in kept {
        assert !drop(v);
      }
    } else {
      assert kept == [];
    }
  }

  /** Every finding carries exactly the tool keys `category`, `rule_id` and `severity`. */
  lemma FindingToolKeys(n: Node, isExcluded: string -> bool)
    ensures forall f | f in ReportFindings(n, isExcluded) :: f.tool.Keys == {"category", "rule_id", "severity"}
  {
  }

  /** The loop of `parseResults` over the kept violations: one finding each, appended in order. */
  method CollectFindings(violations: seq<Node>) returns (findings: seq<Finding>)
    ensures findings == ViolationFindings(violations)
  {
    findings := [];
    for i := 0 to |violations|
      invariant findings == ViolationFindings(violations[..i])
    {
      assert violations[..i + 1][..i] == violations[..i];
      findings := findings + [ViolationFinding(violations[i])];
    }
    assert violations[..|violations|] == violations;
  }

  /**
   * `parseResults`: removes the excluded violations from the report, in place
   * at `results.violations`, and builds one finding per remaining violation.
   */
  method ParseResults(n: Node, directory: string, isExcluded: string -> bool) returns (result: Result)
    ensures fresh(result)
    ensures result.data == ParsedDocument(n, isExcluded)
    ensures result.findings == ReportFindings(n, isExcluded)
    ensures result.directory == directory
    ensures result.values == None
  {
    var data := n;
    var findings: seq<Finding> := [];
    var violations := Violations(n);
    if Size(violations) > 0 {
      violations := RemoveElementsIf(violations, Excluded(isExcluded));
      var results := Path(n, "results");
      assert results != Missing;
      data := Put(n, "results", Put(results, "violations", violations));
      assert Violations(data) == violations;
      findings := CollectFindings(Elements(violations));
    }
    result := new Result(data, directory, findings);
  }

  // ---------------------------------------------------------------------------
  // The run
  // ---------------------------------------------------------------------------

  /**
   * `Run`, with the calls it makes taken as inputs: the custom policies
   * directory (or the error resolving it), the installed tool (or the
   * download error), the scan's error if any, and the decoded report (or
   * the decoding error). `command` is the command line executed, when the
   * scan is reached.
   */
  method Run(directory: string, customPolicies: Outcome<string>, policyType: string,
             install: Outcome<Installed>, scanError: Option<Error>, decoded: Outcome<Node>,
             isExcluded: string -> bool)
    returns (r: Outcome<Result>, command: seq<string>)
    ensures ScanArguments(directory, customPolicies, policyType).Err? ==>
      r == Err(ScanArguments(directory, customPolicies, policyType).error) && command == []
    ensures ScanArguments(directory, customPolicies, policyType).Ok? && install.Err? ==>
      r == Err(install.error) && command == []
    ensures ScanArguments(directory, customPolicies, policyType).Ok? && install.Ok? ==>
      command == [Join(install.value.dir, "terrascan")] + ScanArguments(directory, customPolicies, policyType).value
    ensures ScanArguments(directory, customPolicies, policyType).Ok? && install.Ok? && ScanFailure(scanError).Some? ==>
      r == Err(scanError.value)
    ensures ScanArguments(directory, customPolicies, policyType).Ok? && install.Ok? && ScanFailure(scanError).None? && decoded.Err? ==>
      r == Err(decoded.error)
    ensures r.Ok? <==>
      ScanArguments(directory, customPolicies, policyType).Ok? && install.Ok? && ScanFailure(scanError).None? && decoded.Ok?
    ensures r.Ok? ==>
      && fresh(r.value)
      && r.value.data == ParsedDocument(decoded.value, isExcluded)
      && r.value.findings == ReportFindings(decoded.value, isExcluded)
      && r.value.directory == directory
      && r.value.values == (if install.value.version != "" then Some(map[VersionKey := install.value.version]) else None)
  {
    command := [];
    var args := ["scan", "-d", directory, "-o", "json"];
    if customPolicies.Err? {
      return Err(customPolicies.error), command;
    }
    if customPolicies.value != "" {
      args := args + ["-p", customPolicies.value];
    } else {
      if policyType == "" {
        return Err(Failure(PolicyTypeRequiredMessage)), command;
      }
      args := args + ["-t", policyType];
    }
    if install.Err? {
      return Err(install.error), command;
    }
    var d := install.value;
    command := [Join(d.dir, "terrascan")] + args;
    if scanError.Some? && ExitCode(scanError.value) != ViolationsFoundStatus {
      return Err(scanError.value), command;
    }
    if decoded.Err? {
      return Err(decoded.error), command;
    }
    var result := ParseResults(decoded.value, directory, isExcluded);
    if d.version != "" {
      result.AddValue(VersionKey, d.version);
    }
    r := Ok(result);
  }
}
