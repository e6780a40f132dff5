/**
 * The outcome of one tool run (pkg/tools/result.go): the raw document, the
 * normalised findings, metadata, the per-(file, line) fingerprint records with
 * their multi-document flag, and the aggregation of several results.
 */
module Results {
  import opened Wrappers
  import opened Text
  import opened Json
  import opened Assessments

  /** The de-duplication record uploaded for one (file, line) location. */
  datatype FileFingerprint = FileFingerprint(
    line: int,
    repoPath: string,
    partialFingerprint: string,
    filePath: string,
    multiDocumentFile: bool)

  /**
   * The files a run can read: for each path that can be opened, the lines that
   * reading delivers before it stops at the end of the file or at a read error.
   * A path that is absent cannot be opened. Read errors are only logged by the
   * source, so they carry no further information here.
   */
  type FileSystem = map<string, seq<string>>

  /** What the opaque fingerprint collaborator computes for one finding. */
  datatype Stamp = Stamp(partialFingerprint: string, repoPath: string)

  /** The repository-identity files an upload looks for, relative to the repository root. */
  const RepoFiles: seq<string> := [
    ".lacework/config.yml",
    ".soluble/config.yml",
    "CODEOWNERS",
    "docs/CODEOWNERS",
    ".github/CODEOWNERS"
  ]

  const DocumentSeparator: string := "---"

  // ----- multi-document detection -----

  /** Relative paths are taken relative to the scan directory; absolute ones as given. */
  function ResolvePath(directory: string, path: string): (p: string)
    ensures IsAbs(path) ==> p == path
    ensures !IsAbs(path) ==> p == Join(directory, path)
  {
    if IsAbs(path) then path else Join(directory, path)
  }

  predicate IsYaml(path: string) {
    HasSuffix(path, ".yaml") || HasSuffix(path, ".yml")
  }

  function LinesOf(fs: FileSystem, path: string): seq<string> {
    if path in fs then fs[path] else []
  }

  /** Some line after the first one is exactly the YAML document separator. */
  predicate HasLaterSeparator(lines: seq<string>) {
    exists i | 1 <= i < |lines| :: lines[i] == DocumentSeparator
  }

  /** The specification of `isMultiDocument`. */
  predicate MultiDocument(directory: string, path: string, fs: FileSystem)
    ensures MultiDocument(directory, path, fs) ==>
      IsYaml(ResolvePath(directory, path)) && |LinesOf(fs, ResolvePath(directory, path))| >= 2
  {
    var p := ResolvePath(directory, path);
    IsYaml(p) && HasLaterSeparator(LinesOf(fs, p))
  }

  /** A YAML stream whose only separator is its first line holds one document. */
  lemma LeadingSeparatorOnly(lines: seq<string>)
    requires |lines| >= 1 && lines[0] == DocumentSeparator
    requires forall i | 1 <= i < |lines| :: lines[i] != DocumentSeparator
    ensures !HasLaterSeparator(lines)
    ensures HasLaterSeparator(lines + [DocumentSeparator])
  {
    assert (lines + [DocumentSeparator])[|lines|] == DocumentSeparator;
  }

  // ----- grouping findings by location -----

  /** The (file, line) location a finding reports. */
  type Location = (string, int)

  function LocationOf(f: Finding): Location {
    (f.filePath, f.line)
  }

  /** The text key `"%s:%d"` of a finding's path and line. */
  function FindingKey(f: Finding): string {
    f.filePath + ":" + Itoa(f.line)
  }

  lemma LastColonAt(a: string, x: string)
    requires ':' !in x
    ensures LastIndex(a + ":" + x, ":") == |a|
  {
    var s := a + ":" + x;
    var r := LastIndex(s, ":");
    assert HasPrefix(s[|a|..], ":") by { assert s[|a|..][..1] == [s[|a|]]; }
    assert s[r] == ':' by { assert s[r..][..1] == [s[r]]; }
  }

  /**
   * Two findings share a text key exactly when they share a location, so
   * grouping by the text key and grouping by location are the same grouping.
   */
  lemma FindingKeyInjective(f: Finding, g: Finding)
    ensures FindingKey(f) == FindingKey(g) <==> LocationOf(f) == LocationOf(g)
  {
    if FindingKey(f) == FindingKey(g) {
      LastColonAt(f.filePath, Itoa(f.line));
      LastColonAt(g.filePath, Itoa(g.line));
      var s := FindingKey(f);
      assert s[..|f.filePath|] == f.filePath;
      assert s[..|g.filePath|] == g.filePath;
      assert s[|f.filePath| + 1..] == Itoa(f.line);
      assert FindingKey(g)[|g.filePath| + 1..] == Itoa(g.line);
      ItoaInjective(f.line, g.line);
    }
  }

  function PathsOf(findings: seq<Finding>): set<string> {
    set f | f in findings :: f.filePath
  }

  /** The distinct (file, line) locations among the findings. */
  function LocationsOf(findings: seq<Finding>): set<Location> {
    set f | f in findings :: LocationOf(f)
  }

  /** The first finding seen at each location, scanning the findings in order. */
  function FirstByLocation(findings: seq<Finding>): (m: map<Location, Finding>)
    ensures m.Keys == LocationsOf(findings)
    ensures forall l | l in m :: LocationOf(m[l]) == l && m[l] in findings
    decreases |findings|
  {
    if findings == [] then map[]
    else
      var prefix := findings[..|findings| - 1];
      var f := findings[|findings| - 1];
      assert findings == prefix + [f];
      var m := FirstByLocation(prefix);
      if LocationOf(f) in m then m else m[LocationOf(f) := f]
  }

  /** No finding before index `j` has the location of finding `j`. */
  predicate FirstAtLocation(findings: seq<Finding>, j: int)
    requires 0 <= j < |findings|
  {
    forall i | 0 <= i < j :: LocationOf(findings[i]) != LocationOf(findings[j])
  }

  lemma FirstByLocationStep(s: seq<Finding>, i: int)
    requires 0 <= i < |s|
    ensures var m := FirstByLocation(s[..i]);
      FirstByLocation(s[..i + 1]) == if LocationOf(s[i]) in m then m else m[LocationOf(s[i]) := s[i]]
    ensures PathsOf(s[..i + 1]) == PathsOf(s[..i]) + {s[i].filePath}
  {
    assert s[..i + 1][..i] == s[..i];
    assert s[..i + 1] == s[..i] + [s[i]];
  }

  /** The grouping keeps the first finding at each location. */
  lemma {:induction false} FirstByLocationKeepsFirst(findings: seq<Finding>, j: int)
    requires 0 <= j < |findings| && FirstAtLocation(findings, j)
    ensures LocationOf(findings[j]) in FirstByLocation(findings)
    ensures FirstByLocation(findings)[LocationOf(findings[j])] == findings[j]
    decreases |findings|
  {
    var prefix := findings[..|findings| - 1];
    if j == |findings| - 1 {
      assert LocationOf(findings[j]) !in LocationsOf(prefix) by {
        forall f | f in prefix ensures LocationOf(f) != LocationOf(findings[j]) {
          var i :| 0 <= i < |prefix| && prefix[i] == f;
        }
      }
    } else {
      FirstByLocationKeepsFirst(prefix, j);
    }
  }

  /** The finding kept for a location is the first one in order at that location. */
  lemma {:induction false} FirstByLocationIsFirst(findings: seq<Finding>, l: Location)
    requires l in FirstByLocation(findings)
    ensures exists j | 0 <= j < |findings| ::
      findings[j] == FirstByLocation(findings)[l] && FirstAtLocation(findings, j)
    decreases |findings|
  {
    assert findings != [];
    var prefix := findings[..|findings| - 1];
    var f := findings[|findings| - 1];
    var m := FirstByLocation(prefix);
    assert FirstByLocation(findings) == if LocationOf(f) in m then m else m[LocationOf(f) := f];
    if l in m {
      FirstByLocationIsFirst(prefix, l);
      var j :| 0 <= j < |prefix| && prefix[j] == m[l] && FirstAtLocation(prefix, j);
      assert findings[j] == FirstByLocation(findings)[l];
      forall i | 0 <= i < j ensures LocationOf(findings[i]) != LocationOf(findings[j]) {
        assert findings[i] == prefix[i] && findings[j] == prefix[j];
      }
    } else {
      assert l == LocationOf(f) && FirstByLocation(findings)[l] == f;
      var j := |findings| - 1;
      forall i | 0 <= i < j ensures LocationOf(findings[i]) != LocationOf(findings[j]) {
        assert findings[i] == prefix[i] && prefix[i] in prefix;
        assert LocationOf(prefix[i]) in LocationsOf(prefix);
      }
      assert findings[j] == f;
    }
  }

  // ----- fingerprint records -----

  function ToFileFingerprint(f: Finding, multiDocument: bool): (ff: FileFingerprint)
    ensures ff.filePath == f.filePath && ff.line == f.line
    ensures ff.repoPath == f.repoPath && ff.partialFingerprint == f.partialFingerprint
    ensures ff.multiDocumentFile == multiDocument
  {
    FileFingerprint(f.line, f.repoPath, f.partialFingerprint, f.filePath, multiDocument)
  }

  /** The record built from the finding grouped under location `l`, with its file's flag. */
  function RecordOf(m: map<Location, Finding>, l: Location, flags: map<string, bool>): FileFingerprint
    requires l in m && m[l].filePath in flags
  {
    ToFileFingerprint(m[l], flags[m[l].filePath])
  }

  /** Each grouped finding keeps its location and its file has a flag. */
  predicate Grouping(m: map<Location, Finding>, flags: map<string, bool>) {
    forall l | l in m :: LocationOf(m[l]) == l && m[l].filePath in flags
  }

  /** The records built from the findings grouped under `keys`. */
  function RecordsOf(m: map<Location, Finding>, keys: set<Location>, flags: map<string, bool>): set<FileFingerprint>
    requires Grouping(m, flags)
  {
    set l | l in keys && l in m :: RecordOf(m, l, flags)
  }

  /** The multi-document flag of every file with a finding, as the file system determines it. */
  function FlagsOf(findings: seq<Finding>, directory: string, fs: FileSystem): (flags: map<string, bool>)
    ensures flags.Keys == PathsOf(findings)
  {
    map p | p in PathsOf(findings) :: MultiDocument(directory, p, fs)
  }

  /** The set of records `UpdateFileFingerprints` must produce for these (already stamped) findings. */
  function ExpectedFingerprints(findings: seq<Finding>, directory: string, fs: FileSystem): (r: set<FileFingerprint>)
    ensures forall ff | ff in r :: ff.multiDocumentFile == MultiDocument(directory, ff.filePath, fs)
    ensures forall ff | ff in r :: exists f | f in findings :: ff == ToFileFingerprint(f, ff.multiDocumentFile)
  {
    var m := FirstByLocation(findings);
    var flags := FlagsOf(findings, directory, fs);
    assert Grouping(m, flags) by {
      forall l | l in m ensures m[l].filePath in flags {
        assert m[l] in findings;
      }
    }
    RecordsOf(m, m.Keys, flags)
  }

  /** Records of different locations differ, so adding a location adds a new record. */
  lemma RecordsOfAdd(m: map<Location, Finding>, keys: set<Location>, l: Location, flags: map<string, bool>)
    requires Grouping(m, flags) && l in m && l !in keys
    ensures RecordsOf(m, keys + {l}, flags) == RecordsOf(m, keys, flags) + {RecordOf(m, l, flags)}
    ensures RecordOf(m, l, flags) !in RecordsOf(m, keys, flags)
  {
    forall x | x in RecordsOf(m, keys, flags) ensures x != RecordOf(m, l, flags) {
      var l' :| l' in keys && l' in m && x == RecordOf(m, l', flags);
      assert LocationOf(m[l']) == l' && LocationOf(m[l]) == l;
    }
  }

  /** Every record comes from the first finding, in order, at its location. */
  lemma FingerprintComesFromFirst(findings: seq<Finding>, directory: string, fs: FileSystem, ff: FileFingerprint)
    requires ff in ExpectedFingerprints(findings, directory, fs)
    ensures exists j | 0 <= j < |findings| ::
      FirstAtLocation(findings, j) &&
      ff == ToFileFingerprint(findings[j], MultiDocument(directory, findings[j].filePath, fs))
  {
    var m := FirstByLocation(findings);
    var flags := FlagsOf(findings, directory, fs);
    var l :| l in m && ff == RecordOf(m, l, flags);
    assert m[l] in findings;
    FirstByLocationIsFirst(findings, l);
    var j :| 0 <= j < |findings| && findings[j] == m[l] && FirstAtLocation(findings, j);
  }

  /** The first finding at each location contributes its record. */
  lemma FirstHasFingerprint(findings: seq<Finding>, directory: string, fs: FileSystem, j: int)
    requires 0 <= j < |findings| && FirstAtLocation(findings, j)
    ensures ToFileFingerprint(findings[j], MultiDocument(directory, findings[j].filePath, fs))
      in ExpectedFingerprints(findings, directory, fs)
  {
    FirstByLocationKeepsFirst(findings, j);
    var m := FirstByLocation(findings);
    var flags := FlagsOf(findings, directory, fs);
    assert findings[j] in findings;
    assert RecordOf(m, LocationOf(findings[j]), flags) in ExpectedFingerprints(findings, directory, fs);
  }

  /** The findings after the fingerprint collaborator has stamped each of them. */
  function StampFindings(findings: seq<Finding>, directory: string, stamp: (string, Finding) -> Stamp): (r: seq<Finding>)
    ensures |r| == |findings|
    ensures forall i | 0 <= i < |findings| ::
      && r[i].filePath == findings[i].filePath && r[i].line == findings[i].line
      && r[i].description == findings[i].description && r[i].tool == findings[i].tool
      && r[i].partialFingerprint == stamp(directory, findings[i]).partialFingerprint
      && r[i].repoPath == stamp(directory, findings[i]).repoPath
  {
    seq(|findings|, i requires 0 <= i < |findings| =>
      var s := stamp(directory, findings[i]);
      findings[i].(partialFingerprint := s.partialFingerprint, repoPath := s.repoPath))
  }

  predicate NoDuplicates<T(==)>(s: seq<T>) {
    forall i, j | 0 <= i < j < |s| :: s[i] != s[j]
  }

  lemma NoDuplicatesSnoc<T>(s: seq<T>, x: T)
    requires NoDuplicates(s) && x !in s
    ensures NoDuplicates(s + [x])
    ensures (set y | y in s + [x]) == (set y | y in s) + {x}
  {
  }

  /** The records of the locations `done`, each listed once. */
  ghost predicate Collected(m: map<Location, Finding>, flags: map<string, bool>, done: set<Location>, ffs: seq<FileFingerprint>)
    requires Grouping(m, flags)
  {
    && |ffs| == |done|
    && NoDuplicates(ffs)
    && (set x | x in ffs) == RecordsOf(m, done, flags)
  }

  lemma CollectedStep(m: map<Location, Finding>, flags: map<string, bool>, done: set<Location>, ffs: seq<FileFingerprint>, l: Location)
    requires Grouping(m, flags) && Collected(m, flags, done, ffs) && l in m && l !in done
    ensures Collected(m, flags, done + {l}, ffs + [RecordOf(m, l, flags)])
  {
    var ff := RecordOf(m, l, flags);
    RecordsOfAdd(m, done, l, flags);
    NoDuplicatesSnoc(ffs, ff);
    assert (set x | x in ffs + [ff]) == (set x | x in ffs) + {ff};
  }

  /** The second loop of `UpdateFileFingerprints`: one record per grouped finding, in map order. */
  method CollectFingerprints(m: map<Location, Finding>, flags: map<string, bool>) returns (ffs: seq<FileFingerprint>)
    requires Grouping(m, flags)
    ensures NoDuplicates(ffs) && |ffs| == |m|
    ensures (set ff | ff in ffs) == RecordsOf(m, m.Keys, flags)
  {
    var remaining := m.Keys;
    ghost var done: set<Location> := {};
    ffs := [];
    while remaining != {}
      invariant remaining + done == m.Keys && remaining !! done
      invariant Collected(m, flags, done, ffs)
      decreases remaining
    {
      var l :| l in remaining;
      var f := m[l];
      var ff := ToFileFingerprint(f, flags[f.filePath]);
      CollectedStep(m, flags, done, ffs, l);
      ffs := ffs + [ff];
      remaining := remaining - {l};
      done := done + {l};
    }
    assert m.Keys == done;
  }


  /**
   * The state of the grouping loop after the first `i` findings: the first
   * finding at each location, the flag of each file seen, and the files
   * probed, each once.
   */
  ghost predicate Grouped(all: seq<Finding>, i: int, m: map<Location, Finding>, flags: map<string, bool>,
                          probes: seq<string>, directory: string, fs: FileSystem)
  {
    && 0 <= i <= |all|
    && m == FirstByLocation(all[..i])
    && flags == FlagsOf(all[..i], directory, fs)
    && NoDuplicates(probes)
    && (set p | p in probes) == PathsOf(all[..i])
  }

  lemma GroupedStart(all: seq<Finding>, directory: string, fs: FileSystem)
    ensures Grouped(all, 0, map[], map[], [], directory, fs)
  {
    assert all[..0] == [];
  }

  lemma GroupedDone(all: seq<Finding>, m: map<Location, Finding>, flags: map<string, bool>,
                    probes: seq<string>, directory: string, fs: FileSystem)
    requires Grouped(all, |all|, m, flags, probes, directory, fs)
    ensures m == FirstByLocation(all) && flags == FlagsOf(all, directory, fs)
    ensures NoDuplicates(probes) && (set p | p in probes) == PathsOf(all)
  {
    assert all[..|all|] == all;
  }

  /** One step of the grouping loop, probing the finding's file only when it is new. */
  lemma GroupedStep(all: seq<Finding>, i: int, m: map<Location, Finding>, flags: map<string, bool>,
                    probes: seq<string>, directory: string, fs: FileSystem, md: bool)
    requires Grouped(all, i, m, flags, probes, directory, fs) && i < |all|
    requires all[i].filePath !in flags ==> md == MultiDocument(directory, all[i].filePath, fs)
    ensures var f := all[i];
      Grouped(all, i + 1,
        if LocationOf(f) in m then m else m[LocationOf(f) := f],
        if f.filePath in flags then flags else flags[f.filePath := md],
        if f.filePath in flags then probes else probes + [f.filePath],
        directory, fs)
  {
    FirstByLocationStep(all, i);
    FlagsOfStep(all, i, directory, fs);
    if all[i].filePath !in flags {
      ProbesStep(probes, all[i].filePath);
    }
  }

  lemma FlagsOfStep(s: seq<Finding>, i: int, directory: string, fs: FileSystem)
    requires 0 <= i < |s|
    ensures var flags := FlagsOf(s[..i], directory, fs); var p := s[i].filePath;
      FlagsOf(s[..i + 1], directory, fs) == if p in flags then flags else flags[p := MultiDocument(directory, p, fs)]
  {
    FirstByLocationStep(s, i);
  }

  lemma ProbesStep(probes: seq<string>, p: string)
    requires NoDuplicates(probes) && p !in probes
    ensures NoDuplicates(probes + [p])
    ensures (set q | q in probes + [p]) == (set q | q in probes) + {p}
  {
    NoDuplicatesSnoc(probes, p);
  }

  /**
   * What reading a YAML file line by line finds: whether some line after the
   * first is the separator, and how many lines were read. Reading stops at
   * the first such separator, which is then the last line read; otherwise
   * every line is read.
   */
  ghost predicate SeparatorScan(lines: seq<string>, md: bool, scanned: nat) {
    && md == HasLaterSeparator(lines)
    && scanned <= |lines|
    && (md ==> scanned >= 2 && lines[scanned - 1] == DocumentSeparator &&
               forall j | 1 <= j < scanned - 1 :: lines[j] != DocumentSeparator)
    && (!md ==> scanned == |lines|)
  }

  /** The line callback of `isMultiDocument`: counts lines and stops at the first separator after line 1. */
  method ScanLines(lines: seq<string>) returns (md: bool, scanned: nat)
    ensures md == HasLaterSeparator(lines)
    ensures scanned <= |lines|
    ensures md ==> scanned >= 2 && lines[scanned - 1] == DocumentSeparator
    ensures md ==> forall j | 1 <= j < scanned - 1 :: lines[j] != DocumentSeparator
    ensures !md ==> scanned == |lines|
  {
    md := false;
    var lineNo := 0;
    while lineNo < |lines|
      invariant 0 <= lineNo <= |lines|
      invariant forall j | 1 <= j < lineNo :: lines[j] != DocumentSeparator
    {
      var line := lines[lineNo];
      lineNo := lineNo + 1;
      if lineNo > 1 && line == DocumentSeparator {
        md := true;
        break;
      }
    }
    scanned := lineNo;
  }

  // ----- the result object -----

  class Result {
    var data: Node
    var findings: seq<Finding>
    var values: Option<map<string, string>>
    var directory: string
    var files: Option<set<string>>
    var fileFingerprints: seq<FileFingerprint>
    var assessment: Option<Assessment>
    var assessmentRaw: Option<Node>

    /** A result as a tool adapter builds it: no metadata, files, fingerprints or assessment yet. */
    constructor (data: Node, directory: string, findings: seq<Finding>)
      ensures this.data == data && this.directory == directory && this.findings == findings
      ensures values == None && files == None && fileFingerprints == []
      ensures assessment == None && assessmentRaw == None
    {
      this.data := data;
      this.directory := directory;
      this.findings := findings;
      values := None;
      files := None;
      fileFingerprints := [];
      assessment := None;
      assessmentRaw := None;
    }

    /** Records a referenced file, creating the set on first use. */
    method AddFile(path: string)
      modifies this
      ensures files.Some?
      ensures files.value == (if old(files).Some? then old(files).value else {}) + {path}
      ensures data == old(data) && findings == old(findings) && values == old(values)
      ensures directory == old(directory) && fileFingerprints == old(fileFingerprints)
      ensures assessment == old(assessment) && assessmentRaw == old(assessmentRaw)
    {
      if files.None? {
        files := Some({});
      }
      files := Some(files.value + {path});
    }

    /** Sets one metadata value, creating the map on first use; other entries stay as they were. */
    method AddValue(name: string, value: string)
      modifies this
      ensures values.Some?
      ensures values.value == (if old(values).Some? then old(values).value else map[])[name := value]
      ensures forall k | k != name ::
        (k in values.value <==> (old(values).Some? && k in old(values).value)) &&
        (k in values.value ==> values.value[k] == old(values).value[k])
      ensures data == old(data) && findings == old(findings) && files == old(files)
      ensures directory == old(directory) && fileFingerprints == old(fileFingerprints)
      ensures assessment == old(assessment) && assessmentRaw == old(assessmentRaw)
    {
      if values.None? {
        values := Some(map[]);
      }
      values := Some(values.value[name := value]);
    }

    /**
     * Whether `path` names a YAML stream with a document separator after its
     * first line. `scanned` is the number of lines read: reading stops at the
     * first such separator, and a file that is not YAML is not read at all.
     */
    method IsMultiDocument(path: string, fs: FileSystem) returns (md: bool, scanned: nat)
      ensures md == MultiDocument(directory, path, fs)
      ensures !IsYaml(ResolvePath(directory, path)) ==> scanned == 0
      ensures IsYaml(ResolvePath(directory, path)) ==> SeparatorScan(LinesOf(fs, ResolvePath(directory, path)), md, scanned)
    {
      var p := path;
      if !IsAbs(p) {
        p := Join(directory, p);
      }
      md, scanned := false, 0;
      if HasSuffix(p, ".yaml") || HasSuffix(p, ".yml") {
        md, scanned := ScanLines(LinesOf(fs, p));
      }
    }

    /**
     * Stamps every finding with its partial fingerprint, then records one
     * FileFingerprint per distinct (file, line), taken from the first finding
     * at that location, with the file's multi-document flag. The flag of each
     * distinct file is computed once, and only for files that have findings;
     * `probes` lists the paths probed, in order. Without a scan directory
     * nothing changes.
     */
    method UpdateFileFingerprints(stamp: (string, Finding) -> Stamp, fs: FileSystem) returns (ghost probes: seq<string>)
      modifies this
      ensures old(directory) == "" ==> unchanged(this) && probes == []
      ensures directory == old(directory) && data == old(data) && values == old(values) && files == old(files)
      ensures assessment == old(assessment) && assessmentRaw == old(assessmentRaw)
      ensures old(directory) != "" ==>
        && findings == StampFindings(old(findings), directory, stamp)
        && NoDuplicates(fileFingerprints)
        && (set ff | ff in fileFingerprints) == ExpectedFingerprints(findings, directory, fs)
        && |fileFingerprints| == |LocationsOf(findings)|
        && NoDuplicates(probes)
        && (set p | p in probes) == PathsOf(findings)
    {
      if directory == "" {
        probes := [];
        return;
      }
      findings := StampFindings(findings, directory, stamp);
      var m, multiDocument;
      m, multiDocument, probes := GroupByLocation(findings, fs);
      fileFingerprints := CollectFingerprints(m, multiDocument);
    }

    /**
     * The first loop of `UpdateFileFingerprints`: the first finding for each
     * key, and the multi-document flag of each file, probed once per file.
     */
    method GroupByLocation(all: seq<Finding>, fs: FileSystem)
      returns (m: map<Location, Finding>, multiDocument: map<string, bool>, ghost probes: seq<string>)
      ensures m == FirstByLocation(all)
      ensures multiDocument == FlagsOf(all, directory, fs)
      ensures NoDuplicates(probes) && (set p | p in probes) == PathsOf(all)
    {
      m, multiDocument, probes := map[], map[], [];
      GroupedStart(all, directory, fs);
      var i := 0;
      while i < |all|
        invariant 0 <= i <= |all|
        invariant Grouped(all, i, m, multiDocument, probes, directory, fs)
      {
        var f := all[i];
        var md := false;
        if f.filePath !in multiDocument {
          var scanned;
          md, scanned := IsMultiDocument(f.filePath, fs);
        }
        GroupedStep(all, i, m, multiDocument, probes, directory, fs, md);
        var key := LocationOf(f);
        if key !in m {
          m := m[key := f];
        }
        if f.filePath !in multiDocument {
          multiDocument := multiDocument[f.filePath := md];
          probes := probes + [f.filePath];
        }
        i := i + 1;
      }
      GroupedDone(all, m, multiDocument, probes, directory, fs);
    }

    /**
     * The response handling of an upload: a transport or server error is
     * returned; otherwise an object under "assessment" is kept raw and parsed,
     * and a garbled one leaves the parsed assessment empty.
     */
    method RecordUploadResponse(response: Outcome<Node>, parse: Node -> Option<Assessment>) returns (err: Option<Error>)
      modifies this
      ensures response.Err? ==> err == Some(response.error) && unchanged(this)
      ensures response.Ok? ==> err == None
      ensures response.Ok? && Path(response.value, "assessment").Object? ==>
        assessmentRaw == Some(Path(response.value, "assessment")) &&
        assessment == parse(Path(response.value, "assessment"))
      ensures response.Ok? && !Path(response.value, "assessment").Object? ==> unchanged(this)
      ensures data == old(data) && findings == old(findings) && values == old(values) && files == old(files)
      ensures directory == old(directory) && fileFingerprints == old(fileFingerprints)
    {
      if response.Err? {
        return Some(response.error);
      }
      var a := Path(response.value, "assessment");
      if a.Object? {
        assessmentRaw := Some(a);
        assessment := parse(a);
      }
      return None;
    }
  }

  // ----- repository-identity files attached to an upload -----

  /** The file is present at the repository root, not empty, and can be opened. */
  predicate Attachable(root: string, path: string, sizes: map<string, nat>, openable: set<string>) {
    var p := Join(root, path);
    p in sizes && sizes[p] != 0 && p in openable
  }

  function PartNames(parts: seq<(string, string)>): set<string> {
    set x | x in parts :: x.0
  }

  /**
   * The (part name, host path) pairs attached for `paths`, in order: every
   * attachable file, except one whose base name an earlier one already used.
   */
  function Attachments(root: string, paths: seq<string>, sizes: map<string, nat>, openable: set<string>): (r: seq<(string, string)>)
    ensures forall i, j | 0 <= i < j < |r| :: r[i].0 != r[j].0
    ensures forall x | x in r :: exists k | 0 <= k < |paths| ::
      Attachable(root, paths[k], sizes, openable) && x == (Base(paths[k]), Join(root, paths[k]))
    decreases |paths|
  {
    if paths == [] then []
    else
      var prefix := paths[..|paths| - 1];
      var last := paths[|paths| - 1];
      var prev := Attachments(root, prefix, sizes, openable);
      if Attachable(root, last, sizes, openable) && Base(last) !in PartNames(prev) then
        prev + [(Base(last), Join(root, last))]
      else
        prev
  }

  /** Every attachable file is represented: its base name is attached, by it or by an earlier file. */
  lemma {:induction false} AttachmentsCover(root: string, paths: seq<string>, sizes: map<string, nat>, openable: set<string>, k: int)
    requires 0 <= k < |paths| && Attachable(root, paths[k], sizes, openable)
    ensures Base(paths[k]) in PartNames(Attachments(root, paths, sizes, openable))
    decreases |paths|
  {
    var prefix := paths[..|paths| - 1];
    var last := paths[|paths| - 1];
    var prev := Attachments(root, prefix, sizes, openable);
    var r := Attachments(root, paths, sizes, openable);
    assert r == prev || r == prev + [(Base(last), Join(root, last))];
    assert PartNames(prev) <= PartNames(r) by {
      forall x | x in PartNames(prev) ensures x in PartNames(r) {
        var y :| y in prev && y.0 == x;
        assert y in r;
      }
    }
    if k < |paths| - 1 {
      assert paths[k] == prefix[k];
      AttachmentsCover(root, prefix, sizes, openable, k);
    } else if Base(last) !in PartNames(prev) {
      assert r[|prev|] == (Base(last), Join(root, last));
      assert r[|prev|] in r;
    }
  }

  /** A base name no attachable candidate has is not attached. */
  lemma NameNotAttached(root: string, paths: seq<string>, sizes: map<string, nat>, openable: set<string>, name: string)
    requires forall j | 0 <= j < |paths| && Attachable(root, paths[j], sizes, openable) :: Base(paths[j]) != name
    ensures name !in PartNames(Attachments(root, paths, sizes, openable))
  {
    var r := Attachments(root, paths, sizes, openable);
    forall x | x in r ensures x.0 != name {
      var j :| 0 <= j < |paths| && Attachable(root, paths[j], sizes, openable) && x == (Base(paths[j]), Join(root, paths[j]));
    }
  }

  /**
   * The first attachable file with a given base name is the one attached
   * under that name: a later file with the same base name never displaces it.
   */
  lemma {:induction false} AttachmentsFirstWins(root: string, paths: seq<string>, sizes: map<string, nat>, openable: set<string>, k: int)
    requires 0 <= k < |paths| && Attachable(root, paths[k], sizes, openable)
    requires forall j | 0 <= j < k :: Attachable(root, paths[j], sizes, openable) ==> Base(paths[j]) != Base(paths[k])
    ensures (Base(paths[k]), Join(root, paths[k])) in Attachments(root, paths, sizes, openable)
    decreases |paths|
  {
    if k < |paths| - 1 {
      var prefix := paths[..|paths| - 1];
      assert paths[k] == prefix[k];
      assert forall j | 0 <= j < k :: prefix[j] == paths[j];
      AttachmentsFirstWins(root, prefix, sizes, openable, k);
      AttachmentsKeepPrefix(root, paths, sizes, openable);
    } else {
      AttachmentsLastNew(root, paths, sizes, openable);
    }
  }

  /** What the candidates before the last one attach stays attached. */
  lemma AttachmentsKeepPrefix(root: string, paths: seq<string>, sizes: map<string, nat>, openable: set<string>)
    requires paths != []
    ensures forall x | x in Attachments(root, paths[..|paths| - 1], sizes, openable) :: x in Attachments(root, paths, sizes, openable)
  {
  }

  /** The last candidate is attached when it is attachable and no earlier attachable candidate has its base name. */
  lemma AttachmentsLastNew(root: string, paths: seq<string>, sizes: map<string, nat>, openable: set<string>)
    requires paths != [] && Attachable(root, paths[|paths| - 1], sizes, openable)
    requires forall j | 0 <= j < |paths| - 1 :: Attachable(root, paths[j], sizes, openable) ==> Base(paths[j]) != Base(paths[|paths| - 1])
    ensures (Base(paths[|paths| - 1]), Join(root, paths[|paths| - 1])) in Attachments(root, paths, sizes, openable)
  {
    var prefix := paths[..|paths| - 1];
    var last := paths[|paths| - 1];
    forall j | 0 <= j < |prefix| && Attachable(root, prefix[j], sizes, openable) ensures Base(prefix[j]) != Base(last) {
      assert prefix[j] == paths[j];
    }
    NameNotAttached(root, prefix, sizes, openable, Base(last));
    var r := Attachments(root, paths, sizes, openable);
    assert r == Attachments(root, prefix, sizes, openable) + [(Base(last), Join(root, last))];
    assert r[|r| - 1] in r;
  }

  /** One more candidate file extends the attachments by at most that file. */
  lemma AttachmentsStep(root: string, paths: seq<string>, i: int, sizes: map<string, nat>, openable: set<string>)
    requires 0 <= i < |paths|
    ensures var prev := Attachments(root, paths[..i], sizes, openable);
      Attachments(root, paths[..i + 1], sizes, openable) ==
        if Attachable(root, paths[i], sizes, openable) && Base(paths[i]) !in PartNames(prev)
        then prev + [(Base(paths[i]), Join(root, paths[i]))]
        else prev
  {
    assert paths[..i + 1][..i] == paths[..i];
  }

  /**
   * The de-duplication loop of `Upload` over candidate files relative to the
   * repository root: a file is skipped when it is missing, empty or cannot be
   * opened, and attached under its base name unless that name is taken.
   */
  method AttachFiles(root: string, paths: seq<string>, sizes: map<string, nat>, openable: set<string>)
    returns (parts: seq<(string, string)>)
    ensures parts == Attachments(root, paths, sizes, openable)
  {
    parts := [];
    var names: set<string> := {};
    for i := 0 to |paths|
      invariant parts == Attachments(root, paths[..i], sizes, openable)
      invariant names == PartNames(parts)
    {
      var path := paths[i];
      AttachmentsStep(root, paths, i, sizes, openable);
      var p := Join(root, path);
      if p !in sizes || sizes[p] == 0 {
        continue;
      }
      if p in openable {
        var name := Base(path);
        if name !in names {
          names := names + {name};
          parts := parts + [(name, p)];
        }
      }
    }
    assert paths[..|paths|] == paths;
  }

  /** The repository files attached to an upload; `root` is the detected repository root ("" when there is none). */
  method AttachRepoFiles(root: string, sizes: map<string, nat>, openable: set<string>) returns (parts: seq<(string, string)>)
    ensures root == "" ==> parts == []
    ensures root != "" ==> parts == Attachments(root, RepoFiles, sizes, openable)
  {
    parts := [];
    if root != "" {
      parts := AttachFiles(root, RepoFiles, sizes, openable);
    }
  }

  // ----- aggregation over several results -----

  /** A result's findings as the aggregate reports them: the server's assessment wins. */
  function FindingsOf(r: Result): seq<Finding>
    reads r
  {
    if r.assessment.Some? then r.assessment.value.findings else r.findings
  }

  /** The findings of all results, concatenated in result order. */
  function CombinedFindings(results: seq<Result>): seq<Finding>
    reads results
    decreases |results|
  {
    if results == [] then []
    else CombinedFindings(results[..|results| - 1]) + FindingsOf(results[|results| - 1])
  }

  lemma {:induction false} CombinedFindingsConcat(a: seq<Result>, b: seq<Result>)
    ensures CombinedFindings(a + b) == CombinedFindings(a) + CombinedFindings(b)
    decreases |b|
  {
    if b == [] {
      assert a + b == a;
    } else {
      var b' := b[..|b| - 1];
      assert (a + b)[..|a + b| - 1] == a + b';
      CombinedFindingsConcat(a, b');
    }
  }

  /** The combined findings document; an empty concatenation is encoded as JSON null. */
  datatype FindingsDocument = NullDocument | FindingsArray(items: seq<Finding>)

  method GetFindingsDocument(results: seq<Result>) returns (doc: FindingsDocument)
    ensures CombinedFindings(results) == [] ==> doc == NullDocument
    ensures CombinedFindings(results) != [] ==> doc == FindingsArray(CombinedFindings(results))
  {
    var all: seq<Finding> := [];
    for i := 0 to |results|
      invariant all == CombinedFindings(results[..i])
    {
      assert results[..i + 1][..i] == results[..i];
      var r := results[i];
      if r.assessment.Some? {
        all := all + r.assessment.value.findings;
      } else {
        all := all + r.findings;
      }
    }
    assert results[..|results|] == results;
    doc := if all == [] then NullDocument else FindingsArray(all);
  }

  /** One entry of the combined assessments document. */
  datatype AssessmentDocument =
    | RawAssessment(node: Node)                 // what the server returned
    | LocalAssessment(findings: seq<Finding>)   // synthesised from the local findings

  function AssessmentOf(r: Result): AssessmentDocument
    reads r
  {
    if r.assessmentRaw.Some? then RawAssessment(r.assessmentRaw.value) else LocalAssessment(r.findings)
  }

  method GetAssessmentsDocument(results: seq<Result>) returns (docs: seq<AssessmentDocument>)
    ensures |docs| == |results|
    ensures forall i | 0 <= i < |results| ::
      (results[i].assessmentRaw.Some? ==> docs[i] == RawAssessment(results[i].assessmentRaw.value)) &&
      (results[i].assessmentRaw.None? ==> docs[i] == LocalAssessment(results[i].findings))
  {
    docs := [];
    for i := 0 to |results|
      invariant |docs| == i
      invariant forall j | 0 <= j < i :: docs[j] == AssessmentOf(results[j])
    {
      var r := results[i];
      if r.assessmentRaw.Some? {
        docs := docs + [RawAssessment(r.assessmentRaw.value)];
      } else {
        docs := docs + [LocalAssessment(r.findings)];
      }
    }
  }
}
