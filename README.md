# soluble-cli scanner core, modelled in Dafny

This project models the normalisation and argument-building layer of the
soluble-cli scanner orchestrator, and proves properties of the model:

- **Results** (`result.dfy`) models the result of one tool run:
  - the `Result` object and its small field updates;
  - the per-(file, line) fingerprint records, with the cached multi-document flag;
  - the line scan that detects a multi-document YAML file;
  - the de-duplication of repository files attached to an upload;
  - the handling of the upload response;
  - the aggregation of several results into one findings document and one assessments document.
- **Xcp** (`xcp.dfy`) models the CI metadata sent with an upload:
  - the process environment parsed from `K=V` entries;
  - the redaction filter: deny by substring, deny by exact name, allow by CI-system prefix;
  - the detected CI system;
  - the git metadata, with `normalizeGitRemote`, and the host name.
- **Docker** (`docker.dfy`) models the docker runner:
  - the classification of the `docker info` probe;
  - the `DockerError` kind, with its `Is` method and `IsDockerError`;
  - the `docker run` argument vector, built segment by segment;
  - the in-place rewrite of the tool's arguments onto the mounted policy directory;
  - the proxy variables, which are passed by name only.
- **Terrascan** (`terrascan.dfy`) models the terrascan adapter:
  - the scan arguments;
  - the tolerated exit status 3;
  - the rewrite of the JSON report into findings, with excluded files removed;
  - the run as a whole.
- **Hadolint** (`hadolint.dfy`) models the hadolint adapter:
  - the container command line;
  - the rule that only docker errors abort the run;
  - the conversion of the lint messages into findings.
- **IacScan** (`stock_terrascan.dfy`) models the stock terrascan scanner:
  - the supported IaC types, one scan each;
  - `mergeViolationResults` and its severity counters.
- Supporting modules:
  - **Wrappers** has `Option`, a Go `(value, error)` outcome and the Go error values the core distinguishes.
  - **Text** has the subset of Go's `strings` package the core uses, and decimal text.
  - **Json** has a schema-free document node with `Path`, `Put`, `Elements` and element removal.
  - **Assessments** has the finding and assessment records.

Subprocesses, the network, the file system, clocks and the process environment are
all inputs to the modelled operations:

- the lines a file delivers;
- the outputs of the git commands;
- the host name;
- the error a docker run returned and the document it printed;
- the `getenv` function;
- the `IsExcluded` option.

### How the model reads Go

- **Map iteration order.** Go iterates over maps in an unspecified order. Every loop over a map takes its next key with `:|`, so the contracts hold for every order. They are stated as sets and existentials:
  - the fingerprint list, as a set without duplicates;
  - which recorded variable names the CI system;
  - which value wins when two names differ only in case.
- **Classes.** `Result` and `DockerTool` are classes, because the source updates their fields in place. `DockerTool.args` is an array, because `getArgs` overwrites the caller's slice element by element.
- **Panics become preconditions.** The model requires what the source would otherwise panic on:
  - an environment entry without `=`;
  - a git remote where `.git` comes before `@`;
  - a report that fails the type assertions of `mergeViolationResults`.

## Model

| member | source | states |
|---|---|---|
| Results.Result.constructor | pkg/tools/result.go:35-45 | a fresh result holds the document, directory and findings; everything else is empty |
| Results.Result.AddFile | pkg/tools/result.go:65-71 | the file set is created on first use and gains exactly `path`; no other field changes |
| Results.Result.AddValue | pkg/tools/result.go:73-79 | the map is created on first use; `name` is bound to `value` and every other entry is kept; no other field changes |
| Results.ResolvePath | pkg/tools/result.go:168-170 | an absolute path is used as given; a relative one is joined onto the scan directory |
| Results.ScanLines | pkg/tools/result.go:176-183 | the flag is true iff some line after the first is `---`; reading stops at the first such line, which is then the last line read; otherwise every line is read |
| Results.MultiDocument | pkg/tools/result.go:167-190 | the reference definition of the flag: the resolved path ends in `.yaml` or `.yml` and a line after the first is `---`; it is true only for a YAML file of at least two lines |
| Results.Result.IsMultiDocument | pkg/tools/result.go:167-190 | the flag is `MultiDocument`, which is false unless the resolved path ends in `.yaml` or `.yml`; a non-YAML file is not read; a YAML file is scanned as in `ScanLines` |
| Results.LeadingSeparatorOnly | pkg/tools/result.go:178 | a `---` on line 1 alone does not make a file multi-document; one on a later line does |
| Results.FindingKeyInjective | pkg/tools/result.go:142 | two findings have the same `"%s:%d"` key iff they have the same (file, line) |
| Results.FirstByLocation | pkg/tools/result.go:139-146 | the grouping has one entry per distinct location; each entry is a finding at that location |
| Results.FirstByLocationKeepsFirst | pkg/tools/result.go:143-146 | a finding that no earlier finding shares a location with is the one kept for its location |
| Results.FirstByLocationIsFirst | pkg/tools/result.go:143-146 | the finding kept for a location is the first one, in slice order, at that location |
| Results.ToFileFingerprint | pkg/tools/result.go:156-163 | a record copies path, line, repository path and partial fingerprint from its finding, with the file's flag |
| Results.FlagsOf | pkg/tools/result.go:147-151 | a flag exists for exactly the files that have findings |
| Results.RecordsOfAdd | pkg/tools/result.go:153-164 | records of different locations differ, so each grouped location adds one new record |
| Results.ExpectedFingerprints | pkg/tools/result.go:139-164 | the reference definition of the records: one per location of the first-by-location grouping, with the files' flags; every record carries its own file's flag and is built from some finding |
| Results.FingerprintComesFromFirst | pkg/tools/result.go:143-163 | every record is built from the first finding at its location, with that file's multi-document flag |
| Results.FirstHasFingerprint | pkg/tools/result.go:143-163 | the first finding at every location contributes a record |
| Results.StampFindings | pkg/tools/result.go:138 | each finding receives the partial fingerprint and repository path the collaborator computes; its other fields are kept |
| Results.CollectFingerprints | pkg/tools/result.go:153-164 | one record per grouped location, without duplicates, as a set equal to the records of the grouping |
| Results.Result.GroupByLocation | pkg/tools/result.go:139-152 | the first finding for each location; the multi-document flag of exactly the files with findings; each file probed exactly once |
| Results.Result.UpdateFileFingerprints | pkg/tools/result.go:134-165 | nothing changes without a directory; otherwise the findings are stamped, and the records are exactly one per distinct location (count and set), taken from the first finding there, each file probed once; the other fields are unchanged |
| Results.Result.RecordUploadResponse | pkg/tools/result.go:116-131 | a request error is returned and nothing changes; an object under `assessment` is kept raw and parsed (a garbled one parses to none); otherwise nothing changes |
| Results.Attachments | pkg/tools/result.go:91-106 | attached part names are pairwise distinct; every part comes from a candidate file that exists, is not empty and can be opened |
| Results.AttachmentsCover | pkg/tools/result.go:91-106 | the base name of every file that can be attached is attached |
| Results.AttachmentsFirstWins | pkg/tools/result.go:98-104 | the first attachable file with a given base name is the one attached under it: `(Base(p), root/p)` is attached when no earlier attachable candidate shares its base name, so a later duplicate never displaces it |
| Results.AttachFiles | pkg/tools/result.go:91-106 | the loop attaches exactly `Attachments` |
| Results.AttachRepoFiles | pkg/tools/result.go:87-107 | nothing is attached without a repository root; otherwise the five repository files are offered in order |
| Results.CombinedFindings | pkg/tools/result.go:209-217 | the reference definition of the aggregate: the findings of each result in result order, the server assessment's findings winning (properties in CombinedFindingsConcat and GetFindingsDocument) |
| Results.CombinedFindingsConcat | pkg/tools/result.go:209-217 | the combined findings of two runs of results are the combined findings of each, concatenated |
| Results.GetFindingsDocument | pkg/tools/result.go:209-223 | the findings of every result, in order, with the server's assessment winning; no findings at all encode as null |
| Results.GetAssessmentsDocument | pkg/tools/result.go:225-246 | one entry per result, in order: the raw assessment if there is one, otherwise one made of only the local findings |
| Xcp.EnvKey | pkg/xcp/xcp.go:102-104 | the name of an entry is the text before its first `=` |
| Xcp.EnvValue | pkg/xcp/xcp.go:102-104 | the value of an entry never contains `=` |
| Xcp.EnvEntryShape | pkg/xcp/xcp.go:102-105 | an entry starts with its name, `=` and its value; anything after that begins with a second `=` |
| Xcp.EnvRoundTrip | pkg/xcp/xcp.go:102-105 | `K=V` with no `=` in K or V splits back into K and V |
| Xcp.SecondEqualsTruncates | pkg/xcp/xcp.go:102-105 | `A=b=c` has the name `A` and the value `b` |
| Xcp.ParseEnviron | pkg/xcp/xcp.go:101-105 | every entry's name is bound, to the value of the last entry with that name, and nothing else is bound |
| Xcp.ContainsAnyOf | pkg/xcp/xcp.go:111-115 | true iff the name contains one of the words |
| Xcp.OneOf | pkg/xcp/xcp.go:116-120 | true iff the name is one of the list |
| Xcp.CIPrefixTest | pkg/xcp/xcp.go:124-129 | the six prefix tests are exactly "starts with a CI system name and `_`" |
| Xcp.CISystemOfName | pkg/xcp/xcp.go:132-137 | the text before the first `_` of a CI variable is a CI system name |
| Xcp.FilterCIEnv | pkg/xcp/xcp.go:108-140 | exactly the upper-cased names that are not redacted and belong to a CI system are recorded, each with the value of a variable of that name; the CI system is empty iff nothing is recorded, and is otherwise the system of a recorded name |
| Xcp.EnvNames | pkg/xcp/xcp.go:101-140 | the filter seen through the entries: a name is recorded iff some entry's upper-cased name is it and it is recordable; its value is that of a last entry with that name; no recorded name starts with `SOLUBLE_` |
| Xcp.RecordedIsNotMetadataName | pkg/xcp/xcp.go:29-35 | no recorded environment name collides with a metadata name |
| Xcp.RecordedEnvironment | pkg/xcp/xcp.go:98-140 | the environment part of the map, stated on the entries; the CI system is empty iff nothing was recorded, and is otherwise a CI system name and the text before the first `_` of a recorded variable |
| Xcp.NormalizeGitRemote | pkg/xcp/xcp.go:167-175 | with `@` and `.git` both past position 0, the text strictly between them with its first `:` turned into `/`; the input otherwise |
| Xcp.ScpStyleRemote | pkg/xcp/xcp.go:167-175 | `user@host:path.git` normalises to `host/path` |
| Xcp.GitHubRemoteExample | pkg/xcp/xcp.go:168 | `git@github.com:fizz/buzz.git` normalises to `github.com/fizz/buzz` |
| Xcp.RemoteWithoutAtUnchanged | pkg/xcp/xcp.go:169-174 | a remote without `@` is kept as it is |
| Xcp.MetadataNameFacts | pkg/xcp/xcp.go:29-35 | the seven metadata names are distinct where that matters, and all start with `SOLUBLE_` |
| Xcp.RunMetadataCommands | pkg/xcp/xcp.go:144-153 | each command that succeeded stores its trimmed output under its name; every other entry is kept |
| Xcp.StoredRemote | pkg/xcp/xcp.go:154-156 | the stored remote is empty iff the trimmed output is, so normalisation never erases a remote; a remote without `@` is stored as trimmed |
| Xcp.AddMetadata | pkg/xcp/xcp.go:141-162 | the environment part is kept; the CI system is always present; the git values are the trimmed outputs; the remote is replaced by its normalised form only when that is non-empty; the host name is set iff it is known |
| Xcp.GetCIEnv | pkg/xcp/xcp.go:98-165 | the whole map: recorded variables with their last values; the CI system, always present, empty iff no variable was recorded, and otherwise the text before the first `_` of a recorded variable; the git metadata and the host name |
| Docker.ClassifyProbe | pkg/tools/docker.go:64-76 | exit code 0 yields no error; 1 yields "not running"; 127 yields "not present"; anything else yields "unknown"; every failure is a docker error |
| Docker.ProbeOutcomesDistinct | pkg/tools/docker.go:64-76 | the four outcomes are four different values |
| Docker.ProcessExitCode | pkg/tools/docker.go:63-64 | the exit status of a process that exited; -1 for one that never started or was killed by a signal |
| Docker.HasDocker | pkg/tools/docker.go:59-77 | as written: no error iff `docker info` exited with 0; every failure is a docker error |
| Docker.MissingExecutableIsUnknown | pkg/tools/docker.go:63-72 | as written, a `docker` missing from the PATH is reported as unknown, not as not present |
| Docker.HasDockerIntended | pkg/tools/docker.go:64-76 | corrected: a probe that cannot start reports "not present"; a run that starts is classified by its exit code |
| Docker.IntendedDiffersOnlyWhenNotStarted | pkg/tools/docker.go:59-76 | the correction changes the outcome of the never-started probe and nothing else |
| Docker.DockerErrorIs | pkg/tools/docker.go:46-49 | a docker error's `Is` holds iff the target is a docker error, whatever its message |
| Docker.Chain | pkg/tools/docker.go:51-53 | the unwrap chain starts with the error; each link wraps the next; the last wraps nothing |
| Docker.ErrorsIs | pkg/tools/docker.go:52 | the reference definition of `errors.Is` for the modelled errors: a link of the unwrap chain equals the target or is a docker error whose `Is` accepts it (properties in IsDockerError and IsDockerErrorInChain) |
| Docker.IsDockerError | pkg/tools/docker.go:51-53 | a docker error is one; a wrapper is one iff its cause is; an exit or other error is not |
| Docker.IsDockerErrorInChain | pkg/tools/docker.go:51-53 | an error is a docker error iff some link of its unwrap chain is one |
| Docker.ProbeFailuresAreDockerErrors | pkg/tools/docker.go:51-76 | every failure of the probe, as written or corrected, is recognised by `IsDockerError` |
| Docker.BaseArgs | pkg/tools/docker.go:108 | the vector starts `run --rm` |
| Docker.DirectoryArgs | pkg/tools/docker.go:109-112 | an empty directory adds nothing; a non-empty one adds exactly `-v <dir>:/src -w /src` |
| Docker.PolicyArgs | pkg/tools/docker.go:113-115 | an empty policy directory adds nothing; a non-empty one adds exactly `-v <pd>:/policy` |
| Docker.RewritePolicy | pkg/tools/docker.go:116-120 | every argument equal to the policy directory becomes `/policy`, and every other argument is kept, at the same position |
| Docker.RewritePolicyIdempotent | pkg/tools/docker.go:116-120 | rewriting again changes nothing; afterwards the policy directory appears only as `/policy` |
| Docker.ToolArgs | pkg/tools/docker.go:113-121 | the tool arguments are rewritten only when a policy directory is mounted |
| Docker.RunArgs | pkg/tools/docker.go:107-127 | the reference definition of the vector: base, directory mount, policy mount, docker arguments, proxy flags, image, tool arguments (layout in RunArgsLayout and GetArgsEnds) |
| Docker.RunArgsLayout | pkg/tools/docker.go:107-127 | the vector is the segments base, directory, policy, docker arguments, proxy, image and tool arguments, each at its position, with no gaps |
| Docker.ProxyVariables | pkg/tools/docker.go:130-136 | two names are checked per proxy name |
| Docker.ProxyVariablesOrder | pkg/tools/docker.go:130-136 | each name is checked as given, then in lower case |
| Docker.ProxyVariablesSpelledOut | pkg/tools/docker.go:130-137 | the six names checked are `HTTP_PROXY, http_proxy, HTTPS_PROXY, https_proxy, NO_PROXY, no_proxy`, in that order |
| Docker.EnvFlags | pkg/tools/docker.go:133-139 | the reference definition of the loop body over a name list: `EnvFlag` of each name in order (properties in EnvFlagsLength, EnvFlagsShape, EnvFlagsComplete, EnvFlagsIgnoreValues) |
| Docker.EnvFlag | pkg/tools/docker.go:133-135 | a variable adds `-e <name>` when its value is non-empty, and nothing otherwise |
| Docker.EnvFlagsLength | pkg/tools/docker.go:133-139 | two arguments are added per set variable |
| Docker.EnvFlagsShape | pkg/tools/docker.go:133-139 | the flags are pairs `-e <name>`; every name is one of the variables checked and is set |
| Docker.EnvFlagsConcat | pkg/tools/docker.go:130-140 | the flags of a concatenated name list are the flags of the parts, concatenated |
| Docker.EnvFlagsComplete | pkg/tools/docker.go:133-139 | every variable that is set contributes its name |
| Docker.EnvFlagsIgnoreValues | pkg/tools/docker.go:133-139 | the flags depend only on which variables are set, never on their values |
| Docker.ProxyFlags | pkg/tools/docker.go:129-142 | the reference definition of the proxy flags: `EnvFlags` of each proxy name followed by its lower case (spelled out in ProxyFlagsSpelledOut) |
| Docker.ProxyFlagsSpelledOut | pkg/tools/docker.go:129-142 | the proxy flags are the flags of the six names in order, upper and lower case checked independently |
| Docker.AppendEnvNames | pkg/tools/docker.go:130-140 | the loop appends exactly the flags of the names checked, after the input |
| Docker.AppendProxyEnv | pkg/tools/docker.go:129-142 | the result is the input followed by the proxy flags |
| Docker.AppendedProxyShape | pkg/tools/docker.go:129-142 | the input is a prefix of the result; the length grows by twice the number of set names; the rest is `-e <name>` pairs of checked names |
| Docker.DockerTool.constructor | pkg/tools/docker.go:30-40 | the tool holds the given name, image, arguments, policy directory and directory |
| Docker.DockerTool.GetArgs | pkg/tools/docker.go:107-127 | the tool's arguments are rewritten in place exactly as `ToolArgs` says, and the vector is `RunArgs` with the proxy flags and the rewritten arguments |
| Docker.GetArgsEnds | pkg/tools/docker.go:107-127 | the vector starts `run --rm`, ends with the image and the tool arguments, and carries the directory mount right after the head when there is a directory |
| Terrascan.BaseScanArgs | pkg/tools/terrascan/terrascan.go:50 | the scan starts exactly `scan -d <dir> -o json` |
| Terrascan.ScanArguments | pkg/tools/terrascan/terrascan.go:50-62 | an error resolving custom policies is returned; custom policies add `-p <dir>`; otherwise an empty policy type is an error and a given one adds `-t <type>` |
| Terrascan.CustomPoliciesIgnorePolicyType | pkg/tools/terrascan/terrascan.go:55-62 | with custom policies the policy type is ignored and never an error |
| Terrascan.ScanFailure | pkg/tools/terrascan/terrascan.go:74-77 | a scan error ends the run unless its exit code is 3 |
| Terrascan.OnlyStatusThreeTolerated | pkg/tools/terrascan/terrascan.go:74-77 | status 3 is tolerated; other statuses and errors that are not exits are not |
| Terrascan.ReportFindings | pkg/tools/terrascan/terrascan.go:91-108 | the reference definition of the findings: none without violations, otherwise one per violation left in the rewritten report (properties in NoViolationsNoChange and FindingsMatchReport) |
| Terrascan.ParsedDocument | pkg/tools/terrascan/terrascan.go:91-96 | a report without violations is untouched; otherwise only `results.violations` changes, to the violations that are not excluded |
| Terrascan.ViolationFinding | pkg/tools/terrascan/terrascan.go:98-107 | a finding takes file, line and description from its violation; its tool map has exactly `category`, `rule_id` and `severity` |
| Terrascan.ViolationFindings | pkg/tools/terrascan/terrascan.go:97-108 | one finding per violation, in order |
| Terrascan.NoViolationsNoChange | pkg/tools/terrascan/terrascan.go:91-114 | without violations there are no findings and the report is unchanged |
| Terrascan.FindingsMatchReport | pkg/tools/terrascan/terrascan.go:93-108 | the i-th finding comes from the i-th violation left in the report; no finding is for an excluded file; every violation of a file that is not excluded is kept |
| Terrascan.FindingToolKeys | pkg/tools/terrascan/terrascan.go:102-106 | every finding's tool map has exactly `category`, `rule_id` and `severity` |
| Terrascan.CollectFindings | pkg/tools/terrascan/terrascan.go:97-108 | the loop builds `ViolationFindings` |
| Terrascan.ParseResults | pkg/tools/terrascan/terrascan.go:89-116 | the result holds the rewritten report, its findings and the directory, and no values |
| Terrascan.Run | pkg/tools/terrascan/terrascan.go:49-87 | the errors in the source's order (policies, install, scan unless status 3, decoding); the command is the installed program and the scan arguments; `TERRASCAN_VERSION` is set iff the version is known |
| Hadolint.LintArgs | pkg/tools/hadolint/hadolint.go:37-38 | the linter runs as `hadolint -f json - ./Dockerfile` |
| Hadolint.NewLintTool | pkg/tools/hadolint/hadolint.go:39-45 | the docker tool has the hadolint image, no policy directory, no extra docker arguments and the linter's arguments |
| Hadolint.LintCommandLine | pkg/tools/hadolint/hadolint.go:37-45 | the container command line ends with the image and the linter's arguments, unrewritten, and mounts the directory when there is one |
| Hadolint.LintFinding | pkg/tools/hadolint/hadolint.go:67-77 | a finding's tool map has `rule_id`, `message`, `severity`, `file` and `line`, taken from `code`, `message`, `level`, `file` and `line` |
| Hadolint.LintFindings | pkg/tools/hadolint/hadolint.go:62-78 | one finding per message, in order |
| Hadolint.ParseResults | pkg/tools/hadolint/hadolint.go:60-89 | the findings are those of the messages that are not excluded; the data is the array without the excluded messages; the directory is kept |
| Hadolint.FindingsMatchData | pkg/tools/hadolint/hadolint.go:62-86 | the i-th finding comes from the i-th element of the data, and their counts are equal; no finding is for an excluded file; every message of a file that is not excluded is kept |
| Hadolint.Run | pkg/tools/hadolint/hadolint.go:35-58 | only a docker error aborts the run; then a decoding error is returned; otherwise the parsed result |
| Hadolint.WhichErrorsAbort | pkg/tools/hadolint/hadolint.go:46-48 | an exit status, alone or wrapped, does not abort; a wrapped docker error does |
| IacScan.ScanCommand | pkg/iacscan/stock_terrascan.go:64 | the scan of one type is `<program> scan -t <type> -d <dir> -p <policies>` |
| IacScan.ScanCommands | pkg/iacscan/stock_terrascan.go:63-64 | one scan per supported type, in the list's order |
| IacScan.SupportedTypesDistinct | pkg/iacscan/stock_terrascan.go:24 | there are four types and each is scanned once |
| IacScan.AllViolations | pkg/iacscan/stock_terrascan.go:158-179 | the reference definition of the merged list: the violations of each report, report by report, each in its own order (properties in AllViolationsConcat and AllViolationsMembers) |
| IacScan.AllViolationsConcat | pkg/iacscan/stock_terrascan.go:158-179 | merging two runs of reports is merging each, one after the other |
| IacScan.AllViolationsMembers | pkg/iacscan/stock_terrascan.go:158-179 | every merged violation comes from some report, and every violation of every report is merged |
| IacScan.CountSeverity | pkg/iacscan/stock_terrascan.go:160-167 | a bucket never counts more than the violations there are |
| IacScan.SeverityBucketsBounded | pkg/iacscan/stock_terrascan.go:160-169 | low + medium + high never exceeds the total |
| IacScan.SeverityCaseInsensitive | pkg/iacscan/stock_terrascan.go:160 | a violation whose severity is another's, upper-cased or lower-cased, is counted in the same bucket, for every severity text |
| IacScan.Show | pkg/iacscan/stock_terrascan.go:173-174 | `%v` of a string is the string itself, and of a number its decimal text |
| IacScan.Printed | pkg/iacscan/stock_terrascan.go:171-177 | a printed violation has the same keys, each bound to its printed value |
| IacScan.PrintedAll | pkg/iacscan/stock_terrascan.go:171-178 | one printed violation per violation, in order |
| IacScan.Stats | pkg/iacscan/stock_terrascan.go:182-185 | the counts have exactly `total`, `low`, `medium` and `high` |
| IacScan.MergedReport | pkg/iacscan/stock_terrascan.go:182-193 | the reference definition of the output: `results` with the counts node and the printed violations (shape in MergedReportShape) |
| IacScan.MergedReportShape | pkg/iacscan/stock_terrascan.go:182-193 | `results` has exactly `count` and `violations`; the total is the number listed; the buckets add up to at most the total; the i-th listed violation is the i-th merged one, printed |
| IacScan.PrintViolation | pkg/iacscan/stock_terrascan.go:171-177 | the loop over the members prints exactly `Printed` |
| IacScan.MergeViolationResults | pkg/iacscan/stock_terrascan.go:153-194 | the merged report of all violations, report by report and in order within a report, with the counters it promises |

## Left out

- `Result.Upload`, network part: the request (`XCPPost`), multipart assembly and file opening. The model covers:
  - the de-duplication of the repository files, over a size map and a set of openable paths;
  - the handling of the response, with the assessment decoder as a function parameter.
- `inventory.FindRepoRoot` is not part of this model: the repository root is an input.
- `ComputePartialFingerprints` is not part of this model. It is a function parameter (`stamp`) that gives each finding its partial fingerprint and repository path.
- `util.ForEachLine` is not part of this model. A file is the sequence of lines it delivers before it ends or hits a read error; the error itself is only logged by the source.
- `attachFindings` and `attachFingerprints` only marshal JSON, so they are left out.
- The JSON marshalling in `getFindingsJNode` and `getAssessmentsJNode` is left out:
  - the documents are modelled as datatypes;
  - their marshalling errors cannot arise for these records.
- The git subprocesses and `os.Hostname` in `GetCIEnv` are inputs: the outputs of the commands that succeeded, and an optional host name. `os.Environ` is the input sequence of entries. `filepath.Clean` of the directory only feeds the subprocesses, so it is left out.
- `WithCIEnv`, `WithCIEnvBody` and `WithFileFromReader` only hand values to the HTTP library, so they are left out.
- The subprocess plumbing is left out: `DockerTool.run`, `docker pull`, and the running of the probe and of the container. The probe's end state (`ProbeRun`) and the run's error and output are inputs.
- The download and run steps of the adapters are left out: terrascan's `InstallTool` and its exec, and hadolint's `RunDocker` with the printing of its output. Their results are inputs.
- `StockTerrascan.Run`, `downloadPolicies` and `uploadResults` are left out, because they download, unzip, write files and use HTTP. From `Run` the model keeps the scan commands and the merge.
- `encoding/json`, `yaml` and the jnode library are replaced by the `Json.Node` datatype:
  - numbers are integers, so a non-integer number in a report is not modelled;
  - mapping keys are strings.
- `util.RemoveJNodeElementsIf` and `util.ExitCode` are not part of this model:
  - `RemoveElementsIf` removes the selected elements of an array and returns any other node as it is;
  - `ExitCode` is the status of an exit error and -1 for any other error.
- The Go `strings`, `filepath` and `strconv` functions are modelled in Text, for the cases the core uses them:
  - `Index`, `LastIndex`, `Replace(…, 1)` and `Itoa`;
  - `ToUpper` and `ToLower` on ASCII letters only. Go also maps other letters, for instance `ſ` to `S` and `ı` to `I`, so `Xcp.FilterCIEnv` records `GITHUB_ſECRET`, which Go redacts as `GITHUB_SECRET`, and does not record `gıthub_x`, which Go records as `GITHUB_X`;
  - `TrimSpace` on the six ASCII white-space characters only. Go also trims Unicode spaces such as U+0085, U+00A0 and U+3000, so a git output ending in one of those is stored untrimmed by `Xcp.RunMetadataCommands` where Go would trim it;
  - `filepath.Join` as the two parts with one `/` between, without `Clean`;
  - `filepath.Base` as the text after the last `/`.
- The cobra registration and the option structs are left out: `GetDirectory`, `IsExcluded` and `GetCustomPoliciesDir` are parameters.
- Logging is left out.
- Results.Result.GroupByLocation: groups by the (file, line) pair rather than by the `"%s:%d"` text. `Results.FindingKeyInjective` proves the two groupings are the same.
- IacScan.Show: prints nested lists and mappings through the `showNested` parameter, because Go's `%v` formatting of those values is not modelled.
- IacScan.Printed: covers string mapping keys only. A YAML key of another type would be printed with `%v` by the source.
- IacScan.MergeViolationResults: when no report has a violation, the source's list is a nil slice, which encodes as null. The model gives an empty array.
- IacScan.MergeViolationResults: the counters are unbounded integers. Go's `int` is 64 bits wide, which no realistic report reaches.
- Three loops are separate methods, each called from the loop or body that contains it in the source:
  - `Terrascan.CollectFindings`, the findings loop of `parseResults`;
  - `IacScan.PrintViolation`, the members loop of the merge;
  - `Docker.AppendEnvNames`, the loop of `appendProxyEnv` over its name list.
- The remaining parts of `GetCIEnv`, `isMultiDocument` and `UpdateFileFingerprints` are methods of their own, called in the source's order:
  - `Xcp.ContainsAnyOf` and `Xcp.OneOf`, the two omission loops;
  - `Results.ScanLines`, the line callback;
  - `Results.Result.GroupByLocation` and `Results.CollectFingerprints`, the two loops.

## Findings

| source | as written | input that shows it | evidently intended | confidence | as-written member | corrected member |
|---|---|---|---|---|---|---|
| pkg/tools/docker.go:63-72 | the probe switches on `c.ProcessState.ExitCode()` and reports "executable is not present" for 127 | no `docker` on the PATH: the command never starts, `ProcessState` is nil and `ExitCode()` is -1, so the result is "unknown error" (127 only comes from a shell) | a missing executable reports "executable is not present" | not executed | Docker.HasDocker, Docker.MissingExecutableIsUnknown | Docker.HasDockerIntended |
