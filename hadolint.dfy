/**
 * The hadolint adapter: the Dockerfile linter run in a container, the rule
 * that only docker errors abort the run, and the conversion of its JSON
 * array of lint messages into findings with the excluded files removed.
 */
module Hadolint {
  import opened Wrappers
  import opened Text
  import opened Json
  import opened Assessments
  import opened Results
  import opened Docker

  const ToolName := "hadolint"
  const Image := "ghcr.io/hadolint/hadolint:latest"
  /** The one Dockerfile linted, relative to the mounted directory. */
  const DockerfilePath := "./Dockerfile"

  /** The linter's own arguments: JSON output, the Dockerfile read from standard input as `./Dockerfile`. */
  function LintArgs(): (r: seq<string>)
    ensures r == ["hadolint", "-f", "json", "-", "./Dockerfile"]
  {
    [ToolName, "-f", "json", "-", DockerfilePath]
  }

  /** The docker tool `Run` hands to the runner: no policy directory, no extra docker arguments. */
  method NewLintTool(directory: string) returns (t: DockerTool)
    ensures fresh(t) && fresh(t.args)
    ensures t.name == ToolName && t.image == Image && t.defaultNoDockerName == ToolName
    ensures t.directory == directory && t.policyDirectory == "" && t.dockerArgs == []
    ensures t.args[..] == LintArgs()
  {
    var args := new string[5];
    args[0], args[1], args[2], args[3], args[4] := ToolName, "-f", "json", "-", DockerfilePath;
    t := new DockerTool(ToolName, Image, [], args, ToolName, "", directory);
  }

  /**
   * The container command line of a hadolint run: the linter's arguments are
   * never rewritten (there is no policy directory), and they follow the image.
   */
  lemma LintCommandLine(directory: string, getenv: string -> string)
    ensures ToolArgs(LintArgs(), "") == LintArgs()
    ensures var r := RunArgs(directory, "", [], ProxyFlags(getenv), Image, LintArgs());
      && |r| >= 8
      && r[|r| - 6..] == [Image, "hadolint", "-f", "json", "-", "./Dockerfile"]
      && (directory != "" ==> r[2..6] == ["-v", directory + ":/src", "-w", "/src"])
  {
    GetArgsEnds(directory, "", [], getenv, Image, LintArgs());
  }

  // ---------------------------------------------------------------------------
  // The report
  // ---------------------------------------------------------------------------

  /** The lint messages `IsExcluded` removes: those whose `file` is excluded. */
  function Excluded(isExcluded: string -> bool): Node -> bool {
    (e: Node) => isExcluded(AsText(Path(e, "file")))
  }

  /** The finding built for one lint message. */
  function LintFinding(e: Node): (f: Finding)
    ensures f.filePath == AsText(Path(e, "file")) && f.line == AsInt(Path(e, "line"))
    ensures f.description == "" && f.repoPath == "" && f.partialFingerprint == ""
    ensures f.tool.Keys == {"rule_id", "message", "severity", "file", "line"}
    ensures f.tool["rule_id"] == AsText(Path(e, "code"))
    ensures f.tool["message"] == AsText(Path(e, "message"))
    ensures f.tool["severity"] == AsText(Path(e, "level"))
    ensures f.tool["file"] == AsText(Path(e, "file"))
    ensures f.tool["line"] == AsText(Path(e, "line"))
  {
    NewFinding(AsText(Path(e, "file")), AsInt(Path(e, "line")), "",
      map["rule_id" := AsText(Path(e, "code")),
          "message" := AsText(Path(e, "message")),
          "severity" := AsText(Path(e, "level")),
          "file" := AsText(Path(e, "file")),
          "line" := AsText(Path(e, "line"))])
  }

  /** One finding per lint message, in order. */
  function LintFindings(es: seq<Node>): (r: seq<Finding>)
    ensures |r| == |es|
    ensures forall i | 0 <= i < |es| :: r[i] == LintFinding(es[i])
  {
    if es == [] then []
    else LintFindings(es[..|es| - 1]) + [LintFinding(es[|es| - 1])]
  }

  lemma LintFindingsNext(es: seq<Node>, e: Node)
    ensures LintFindings(es + [e]) == LintFindings(es) + [LintFinding(e)]
  {
    assert (es + [e])[..|es|] == es;
  }

  /**
   * `parseResults`: one finding per lint message whose file is not excluded,
   * and the report with the excluded messages removed.
   */
  method ParseResults(results: Node, directory: string, isExcluded: string -> bool) returns (result: Result)
    ensures fresh(result)
    ensures result.findings == LintFindings(Keep(Elements(results), Excluded(isExcluded)))
    ensures result.data == RemoveElementsIf(results, Excluded(isExcluded))
    ensures result.directory == directory
  {
    var findings: seq<Finding> := [];
    var es := Elements(results);
    for i := 0 to |es|
      invariant findings == LintFindings(Keep(es[..i], Excluded(isExcluded)))
    {
      ghost var kept := Keep(es[..i], Excluded(isExcluded));
      KeepNext(es, i, Excluded(isExcluded));
      var file := AsText(Path(es[i], "file"));
      assert Excluded(isExcluded)(es[i]) == isExcluded(file);
      if isExcluded(file) {
        EmptyConcat(kept);
        continue;
      }
      LintFindingsNext(kept, es[i]);
      findings := findings + [LintFinding(es[i])];
    }
    assert es[..|es|] == es;
    var data := RemoveElementsIf(results, Excluded(isExcluded));
    result := new Result(data, directory, findings);
  }

  /**
   * The findings and the rewritten report agree: the report's i-th element
   * gives the i-th finding, no finding is for an excluded file, and every
   * message for a file that is not excluded is kept.
   */
  lemma FindingsMatchData(results: Node, isExcluded: string -> bool)
    ensures var data := RemoveElementsIf(results, Excluded(isExcluded));
      var fs := LintFindings(Keep(Elements(results), Excluded(isExcluded)));
      && |fs| == |Elements(data)|
      && (forall i | 0 <= i < |fs| :: fs[i] == LintFinding(Elements(data)[i]))
      && (forall i | 0 <= i < |fs| :: !isExcluded(fs[i].filePath))
      && (forall e | e in Elements(results) && !isExcluded(AsText(Path(e, "file"))) :: e in Elements(data))
  {
    var drop := Excluded(isExcluded);
    var kept := Keep(Elements(results), drop);
    var fs := LintFindings(kept);
    if results.Array? {
      assert Elements(RemoveElementsIf(results, drop)) == kept;
      forall i | 0 <= i < |fs| ensures !isExcluded(fs[i].filePath) {
        assert kept[i] in kept;
        assert !drop(kept[i]);
      }
      forall e | e in Elements(results) && !isExcluded(AsText(Path(e, "file"))) ensures e in Elements(RemoveElementsIf(results, drop)) {
        assert !drop(e);
      }
    } else {
      assert Elements(results) == [];
    }
  }

  // ---------------------------------------------------------------------------
  // The run
  // ---------------------------------------------------------------------------

  /**
   * `Run`, with the docker run taken as inputs: the error the runner
   * returned, if any, and its output decoded as JSON (or the decoding
   * error). Only a docker error ends the run; any other error, such as the
   * linter exiting with a status because it found problems, is ignored and
   * the output is parsed.
   */
  method Run(directory: string, isExcluded: string -> bool, dockerError: Option<Error>, decoded: Outcome<Node>)
    returns (r: Outcome<Result>, tool: DockerTool)
    ensures fresh(tool) && fresh(tool.args) && tool.args[..] == LintArgs() && tool.directory == directory
    ensures tool.image == Image && tool.policyDirectory == ""
    ensures dockerError.Some? && IsDockerError(dockerError.value) ==> r == Err(dockerError.value)
    ensures (dockerError.None? || !IsDockerError(dockerError.value)) && decoded.Err? ==> r == Err(decoded.error)
    ensures r.Ok? <==> (dockerError.None? || !IsDockerError(dockerError.value)) && decoded.Ok?
    ensures r.Ok? ==>
      && fresh(r.value)
      && r.value.findings == LintFindings(Keep(Elements(decoded.value), Excluded(isExcluded)))
      && r.value.data == RemoveElementsIf(decoded.value, Excluded(isExcluded))
      && r.value.directory == directory
  {
    tool := NewLintTool(directory);
    if dockerError.Some? && IsDockerError(dockerError.value) {
      return Err(dockerError.value), tool;
    }
    if decoded.Err? {
      return Err(decoded.error), tool;
    }
    var result := ParseResults(decoded.value, directory, isExcluded);
    r := Ok(result);
  }

  /** A linter that exits with a status, alone or wrapped, does not abort the run; a docker error, even wrapped, does. */
  lemma WhichErrorsAbort(code: int, message: string, m: string)
    ensures !IsDockerError(ExitError(code))
    ensures !IsDockerError(Wrapped(message, ExitError(code)))
    ensures IsDockerError(Wrapped(message, DockerError(m)))
  {
  }
}
