/**
 * The CI metadata sent with every upload (pkg/xcp/xcp.go): the environment is
 * filtered down to the variables of known CI systems, with credentials
 * redacted, the detected CI system is recorded, and git and host metadata are
 * added. The process environment, the git commands and the host name are
 * inputs here.
 */
module Xcp {
  import opened Wrappers
  import opened Text

  /** A variable whose upper-cased name contains one of these is never recorded. */
  const SubstringOmitEnv: seq<string> := [
    "SECRET", "KEY", "PRIVATE", "PASSWORD",
    "PASSPHRASE", "CREDS", "TOKEN", "AUTH",
    "ENC", "JWT",
    "_USR", "_PSW"
  ]

  /** Known-sensitive names, matched exactly (the list repeats CI_REGISTRY_USER, as the source does). */
  const ExplicitOmitEnv: seq<string> := [
    "BUILDKITE_S3_SECRET_ACCESS_KEY",
    "BUILDKITE_S3_ACCESS_KEY_ID",
    "BUILDKITE_S3_ACCESS_URL",
    "BUILDKITE_COMMAND",
    "BUILDKITE_SCRIPT_PATH",
    "KEY",
    "CI_DEPLOY_PASSWORD",
    "CI_DEPLOY_USER",
    "CI_JOB_TOKEN",
    "CI_JOB_JWT",
    "CI_REGISTRY_USER",
    "CI_REGISTRY_PASSWORD",
    "CI_REGISTRY_USER"
  ]

  /** The CI systems whose variables are recorded, by name prefix. */
  const CISystems: seq<string> := ["GITHUB", "CIRCLE", "GITLAB", "CI", "BUILDKITE", "ZODIAC"]

  const CISystemKey: string := "SOLUBLE_METADATA_CI_SYSTEM"
  const GitBranchKey: string := "SOLUBLE_METADATA_GIT_BRANCH"
  const GitCommitKey: string := "SOLUBLE_METADATA_GIT_COMMIT"
  const GitCommitShortKey: string := "SOLUBLE_METADATA_GIT_COMMIT_SHORT"
  const GitDescribeKey: string := "SOLUBLE_METADATA_GIT_DESCRIBE"
  const GitRemoteKey: string := "SOLUBLE_METADATA_GIT_REMOTE"
  const HostnameKey: string := "SOLUBLE_METADATA_HOSTNAME"

  /** The metadata values computed by running a git command in the scan directory. */
  const MetadataCommands: map<string, string> := map[
    GitBranchKey := "git rev-parse --abbrev-ref HEAD",
    GitCommitKey := "git rev-parse HEAD",
    GitCommitShortKey := "git rev-parse --short HEAD",
    GitDescribeKey := "git describe --tags --always",
    GitRemoteKey := "git ls-remote --get-url"
  ]

  // ----- environment entries -----

  /** An entry of the process environment has the form `K=V`. */
  predicate WellFormedEnv(environ: seq<string>) {
    forall i | 0 <= i < |environ| :: '=' in environ[i]
  }

  /** The name of an entry: the text before its first `=`. */
  function EnvKey(e: string): (k: string)
    requires '=' in e
    ensures '=' !in k && |k| < |e| && e[|k|] == '='
  {
    e[..Index(e, '=')]
  }

  /** The value of an entry: the text after its first `=`, up to a second one. */
  function EnvValue(e: string): (v: string)
    requires '=' in e
    ensures '=' !in v
  {
    var rest := e[Index(e, '=') + 1..];
    var j := Index(rest, '=');
    if j < 0 then rest else rest[..j]
  }

  /** An entry is its name, `=`, its value and whatever followed a second `=`. */
  lemma EnvEntryShape(e: string)
    requires '=' in e
    ensures HasPrefix(e, EnvKey(e) + "=" + EnvValue(e))
    ensures |EnvKey(e) + "=" + EnvValue(e)| < |e| ==> e[|EnvKey(e) + "=" + EnvValue(e)|] == '='
  {
    var i := Index(e, '=');
    var rest := e[i + 1..];
    var v := EnvValue(e);
    TakePast(e, i, |v|);
    assert rest[..|v|] == v;
  }

  /** An entry built from a name and a value without `=` splits back into them. */
  lemma EnvRoundTrip(k: string, v: string)
    requires '=' !in k && '=' !in v
    ensures '=' in k + "=" + v
    ensures EnvKey(k + "=" + v) == k && EnvValue(k + "=" + v) == v
  {
    var e := k + "=" + v;
    assert e[|k|] == '=' && e[..|k|] == k;
    IndexAt(e, '=', |k|);
    assert e[|k| + 1..] == v;
  }

  /** Text after a second `=` is dropped: `A=b=c` has the value `b`. */
  lemma SecondEqualsTruncates(e: string)
    requires e == "A=b=c"
    ensures '=' in e && EnvKey(e) == "A" && EnvValue(e) == "b"
  {
    assert e[1] == '=' && e[..1] == "A";
    IndexAt(e, '=', 1);
    var rest := e[2..];
    assert rest == "b=c" && rest[1] == '=' && rest[..1] == "b";
    IndexAt(rest, '=', 1);
  }

  /** No entry after `j` and before `n` has the same name as entry `j`. */
  predicate LastBefore(environ: seq<string>, n: int, j: int)
    requires WellFormedEnv(environ) && 0 <= j < n <= |environ|
  {
    forall i | j < i < n :: EnvKey(environ[i]) != EnvKey(environ[j])
  }

  /** No later entry has the same name as entry `j`. */
  predicate LastEntry(environ: seq<string>, j: int)
    requires WellFormedEnv(environ) && 0 <= j < |environ|
  {
    LastBefore(environ, |environ|, j)
  }

  /** `v` is the value of the last entry named `k` among the first `n`. */
  predicate BoundLast(environ: seq<string>, n: int, k: string, v: string)
    requires WellFormedEnv(environ) && 0 <= n <= |environ|
  {
    exists j | 0 <= j < n :: EnvKey(environ[j]) == k && v == EnvValue(environ[j]) && LastBefore(environ, n, j)
  }

  lemma BoundLastStep(environ: seq<string>, n: int, k: string, v: string)
    requires WellFormedEnv(environ) && 0 <= n < |environ|
    requires BoundLast(environ, n, k, v) && EnvKey(environ[n]) != k
    ensures BoundLast(environ, n + 1, k, v)
  {
    var j :| 0 <= j < n && EnvKey(environ[j]) == k && v == EnvValue(environ[j]) && LastBefore(environ, n, j);
    forall i | j < i < n + 1 ensures EnvKey(environ[i]) != EnvKey(environ[j]) {
      if i == n {
        assert EnvKey(environ[n]) != k;
      }
    }
    assert LastBefore(environ, n + 1, j);
  }

  /**
   * The `allEnvs` map: every entry's name, bound to the value of the last
   * entry with that name. The source indexes the second part of the split
   * entry, which panics for an entry without `=`.
   */
  method ParseEnviron(environ: seq<string>) returns (allEnvs: map<string, string>)
    requires WellFormedEnv(environ)
    ensures forall k :: k in allEnvs <==> exists j | 0 <= j < |environ| :: EnvKey(environ[j]) == k
    ensures forall k | k in allEnvs :: BoundLast(environ, |environ|, k, allEnvs[k])
  {
    allEnvs := map[];
    for i := 0 to |environ|
      invariant forall k :: k in allEnvs <==> exists j | 0 <= j < i :: EnvKey(environ[j]) == k
      invariant forall k | k in allEnvs :: BoundLast(environ, i, k, allEnvs[k])
    {
      var e := environ[i];
      var name, value := EnvKey(e), EnvValue(e);
      forall k | k in allEnvs && k != name ensures BoundLast(environ, i + 1, k, allEnvs[k]) {
        BoundLastStep(environ, i, k, allEnvs[k]);
      }
      assert LastBefore(environ, i + 1, i);
      allEnvs := allEnvs[name := value];
    }
  }

  // ----- the filter -----

  predicate ContainsOmitted(k: string) {
    exists i | 0 <= i < |SubstringOmitEnv| :: Contains(k, SubstringOmitEnv[i])
  }

  /** The name is redacted: it contains a sensitive word or is a known-sensitive name. */
  predicate Omitted(k: string) {
    ContainsOmitted(k) || k in ExplicitOmitEnv
  }

  /** The name belongs to a known CI system: it starts with that system's name and `_`. */
  predicate FromCISystem(k: string) {
    exists i | 0 <= i < |CISystems| :: HasPrefix(k, CISystems[i] + "_")
  }

  /** An upper-cased name that the filter records. */
  predicate Recorded(k: string) {
    !Omitted(k) && FromCISystem(k)
  }

  /** The variables of `allEnvs` whose upper-cased name is `k`. */
  predicate NamedAs(allEnvs: map<string, string>, k: string) {
    exists e | e in allEnvs :: ToUpper(e) == k
  }

  /** The prefixes the filter tests are the CI system names followed by `_`. */
  lemma CIPrefixes()
    ensures CISystems[0] + "_" == "GITHUB_" && CISystems[1] + "_" == "CIRCLE_"
    ensures CISystems[2] + "_" == "GITLAB_" && CISystems[3] + "_" == "CI_"
    ensures CISystems[4] + "_" == "BUILDKITE_" && CISystems[5] + "_" == "ZODIAC_"
  {
  }

  lemma FirstUnderscore(k: string, name: string)
    requires HasPrefix(k, name + "_") && '_' !in name
    ensures Index(k, '_') == |name| && k[..Index(k, '_')] == name
  {
    assert k[|name|] == (name + "_")[|name|];
    assert k[..|name|] == (name + "_")[..|name|] == name;
    IndexAt(k, '_', |name|);
  }

  /** The text before the first `_` of a CI name is the name of its CI system. */
  lemma CISystemOfName(k: string)
    requires FromCISystem(k)
    ensures 0 < Index(k, '_') && k[..Index(k, '_')] in CISystems
  {
    var i :| 0 <= i < |CISystems| && HasPrefix(k, CISystems[i] + "_");
    assert '_' !in CISystems[i] && CISystems[i] != "";
    FirstUnderscore(k, CISystems[i]);
  }

  /** The first omission loop: whether `k` contains one of the words. */
  method ContainsAnyOf(k: string, words: seq<string>) returns (found: bool)
    ensures found <==> exists i | 0 <= i < |words| :: Contains(k, words[i])
  {
    for i := 0 to |words|
      invariant forall j | 0 <= j < i :: !Contains(k, words[j])
    {
      if Contains(k, words[i]) {
        return true;
      }
    }
    return false;
  }

  /** The second omission loop: whether `k` is one of the names. */
  method OneOf(k: string, names: seq<string>) returns (found: bool)
    ensures found <==> k in names
  {
    for i := 0 to |names|
      invariant k !in names[..i]
    {
      if k == names[i] {
        return true;
      }
      assert names[..i + 1] == names[..i] + [names[i]];
    }
    assert names[..|names|] == names;
    return false;
  }

  /** The six prefix tests of the filter are the test for a CI system name. */
  lemma CIPrefixTest(k: string)
    ensures (HasPrefix(k, "GITHUB_") || HasPrefix(k, "CIRCLE_") || HasPrefix(k, "GITLAB_") ||
             HasPrefix(k, "CI_") || HasPrefix(k, "BUILDKITE_") || HasPrefix(k, "ZODIAC_")) <==> FromCISystem(k)
  {
    CIPrefixes();
  }

  /** `values` holds exactly the recorded names among the variables `seen`, each with the value of one of them. */
  ghost predicate Filtered(allEnvs: map<string, string>, seen: set<string>, values: map<string, string>) {
    && (forall k :: k in values <==> Recorded(k) && exists e | e in seen :: ToUpper(e) == k)
    && (forall k | k in values :: exists e | e in seen && e in allEnvs :: ToUpper(e) == k && values[k] == allEnvs[e])
  }

  /** `ciSystem` is empty until a name is recorded, and then names the system of a recorded name. */
  ghost predicate CIChoice(values: map<string, string>, ciSystem: string) {
    && (ciSystem == "" <==> values == map[])
    && (ciSystem != "" ==>
          && ciSystem in CISystems
          && exists k | k in values :: 0 < Index(k, '_') && ciSystem == k[..Index(k, '_')])
  }

  lemma FilteredSkip(allEnvs: map<string, string>, seen: set<string>, values: map<string, string>, name: string)
    requires Filtered(allEnvs, seen, values) && !Recorded(ToUpper(name))
    ensures Filtered(allEnvs, seen + {name}, values)
  {
  }

  lemma FilteredAdd(allEnvs: map<string, string>, seen: set<string>, values: map<string, string>, name: string)
    requires Filtered(allEnvs, seen, values) && Recorded(ToUpper(name)) && name in allEnvs
    ensures Filtered(allEnvs, seen + {name}, values[ToUpper(name) := allEnvs[name]])
  {
  }

  /**
   * The redaction loop of `GetCIEnv`. Map iteration order is unspecified, so
   * the loop takes the names in any order: when two names differ only in case
   * either value may win, and the CI system comes from some recorded name.
   */
  method FilterCIEnv(allEnvs: map<string, string>) returns (values: map<string, string>, ciSystem: string)
    ensures forall k :: k in values <==> Recorded(k) && NamedAs(allEnvs, k)
    ensures forall k | k in values :: exists e | e in allEnvs :: ToUpper(e) == k && values[k] == allEnvs[e]
    ensures ciSystem == "" <==> values == map[]
    ensures ciSystem != "" ==>
      && ciSystem in CISystems
      && exists k | k in values :: 0 < Index(k, '_') && ciSystem == k[..Index(k, '_')]
  {
    values, ciSystem := map[], "";
    var remaining := allEnvs.Keys;
    ghost var seen: set<string> := {};
      while remaining != {}
      invariant remaining + seen == allEnvs.Keys && remaining !! seen
      invariant Filtered(allEnvs, seen, values)
      invariant CIChoice(values, ciSystem)
      decreases remaining
    {
      var name :| name in remaining;
      var v := allEnvs[name];
      var k := ToUpper(name);
      ghost var before := seen;
      remaining, seen := remaining - {name}, seen + {name};
      var omitted := ContainsAnyOf(k, SubstringOmitEnv);
      if omitted {
        FilteredSkip(allEnvs, before, values, name);
        continue;
      }
      omitted := OneOf(k, ExplicitOmitEnv);
      if omitted {
        FilteredSkip(allEnvs, before, values, name);
        continue;
      }
      CIPrefixTest(k);
      if HasPrefix(k, "GITHUB_") || HasPrefix(k, "CIRCLE_") || HasPrefix(k, "GITLAB_") ||
         HasPrefix(k, "CI_") || HasPrefix(k, "BUILDKITE_") || HasPrefix(k, "ZODIAC_")
      {
        FilteredAdd(allEnvs, before, values, name);
        values := values[k := v];
        assert k in values;
        if ciSystem == "" {
          var idx := Index(k, '_');
          CISystemOfName(k);
          if idx > 0 {
            ciSystem := k[..idx];
            assert |ciSystem| == idx;
          }
        }
      } else {
        FilteredSkip(allEnvs, before, values, name);
      }
    }
  }

  /** No recorded name is one of the metadata names, which all start with `SOLUBLE_`. */
  lemma RecordedIsNotMetadata(k: string)
    requires Recorded(k)
    ensures !HasPrefix(k, "SOLUBLE_")
  {
    var i :| 0 <= i < |CISystems| && HasPrefix(k, CISystems[i] + "_");
    assert k[0] == (CISystems[i] + "_")[0];
  }

  /** The filter's output seen through the entries of the environment it was parsed from. */
  lemma EnvNames(environ: seq<string>, allEnvs: map<string, string>, env: map<string, string>)
    requires WellFormedEnv(environ)
    requires forall k :: k in allEnvs <==> exists j | 0 <= j < |environ| :: EnvKey(environ[j]) == k
    requires forall k | k in allEnvs :: BoundLast(environ, |environ|, k, allEnvs[k])
    requires forall k :: k in env <==> Recorded(k) && NamedAs(allEnvs, k)
    requires forall k | k in env :: exists e | e in allEnvs :: ToUpper(e) == k && env[k] == allEnvs[e]
    ensures forall k :: k in env <==> Recorded(k) && exists j | 0 <= j < |environ| :: ToUpper(EnvKey(environ[j])) == k
    ensures forall k | k in env :: exists j | 0 <= j < |environ| ::
      ToUpper(EnvKey(environ[j])) == k && env[k] == EnvValue(environ[j]) && LastEntry(environ, j)
    ensures forall k | k in env :: !HasPrefix(k, "SOLUBLE_")
  {
    forall k | Recorded(k) && exists j | 0 <= j < |environ| :: ToUpper(EnvKey(environ[j])) == k
      ensures NamedAs(allEnvs, k)
    {
      var j :| 0 <= j < |environ| && ToUpper(EnvKey(environ[j])) == k;
      assert EnvKey(environ[j]) in allEnvs;
    }
    forall k | k in env
      ensures exists j | 0 <= j < |environ| ::
        ToUpper(EnvKey(environ[j])) == k && env[k] == EnvValue(environ[j]) && LastEntry(environ, j)
      ensures !HasPrefix(k, "SOLUBLE_")
    {
      var e :| e in allEnvs && ToUpper(e) == k && env[k] == allEnvs[e];
      var j :| 0 <= j < |environ| && EnvKey(environ[j]) == e && allEnvs[e] == EnvValue(environ[j]) &&
        LastBefore(environ, |environ|, j);
      assert LastEntry(environ, j);
      RecordedIsNotMetadata(k);
    }
  }

  // ----- git remotes -----

  /** The slice of `normalizeGitRemote` is in range: `.git` does not start before `@`. */
  predicate RemoteSliceable(s: string) {
    var at := Index(s, '@');
    var dotgit := LastIndex(s, ".git");
    at > 0 && dotgit > 0 ==> at + 1 <= dotgit
  }

  /**
   * `normalizeGitRemote`: the text strictly between the first `@` and the last
   * `.git`, with its first `:` turned into `/`, when both are found past the
   * first character; the input otherwise.
   */
  function NormalizeGitRemote(s: string): (r: string)
    requires RemoteSliceable(s)
    ensures var at, dotgit := Index(s, '@'), LastIndex(s, ".git");
      && (at > 0 && dotgit > 0 ==>
          && |r| == dotgit - at - 1
          && forall j | 0 <= j < |r| ::
               r[j] == if j == Index(s[at + 1..dotgit], ':') then '/' else s[at + 1 + j])
      && (!(at > 0 && dotgit > 0) ==> r == s)
  {
    var at := Index(s, '@');
    var dotgit := LastIndex(s, ".git");
    if at > 0 && dotgit > 0 then ReplaceFirst(s[at + 1..dotgit], ':', '/') else s
  }

  /** An scp-style remote `user@host:path.git` normalises to `host/path`. */
  lemma ScpStyleRemote(user: string, host: string, path: string)
    requires user != "" && '@' !in user && ':' !in host
    ensures RemoteSliceable(user + "@" + host + ":" + path + ".git")
    ensures NormalizeGitRemote(user + "@" + host + ":" + path + ".git") == host + "/" + path
  {
    var s := user + "@" + host + ":" + path + ".git";
    assert s[|user|] == '@' && s[..|user|] == user;
    IndexAt(s, '@', |user|);
    var at := Index(s, '@');
    assert HasPrefix(s[|s| - 4..], ".git") by {
      assert s[|s| - 4..][..4] == s[|s| - 4..] == ".git";
    }
    var dotgit := LastIndex(s, ".git");
    assert dotgit == |s| - 4;
    var mid := s[at + 1..dotgit];
    assert mid == host + ":" + path;
    assert mid[|host|] == ':' && mid[..|host|] == host;
    IndexAt(mid, ':', |host|);
    var c := Index(mid, ':');
    var r := NormalizeGitRemote(s);
    assert r == host + "/" + path by {
      assert |r| == |host + "/" + path|;
      forall j | 0 <= j < |r| ensures r[j] == (host + "/" + path)[j] {
        assert r[j] == if j == c then '/' else mid[j];
      }
    }
  }

  lemma RemoteExampleText()
    ensures "git" + "@" + "github.com" + ":" + "fizz/buzz" + ".git" == "git@github.com:fizz/buzz.git"
    ensures "github.com" + "/" + "fizz/buzz" == "github.com/fizz/buzz"
  {
  }

  /** The commented example: `git@github.com:fizz/buzz.git` becomes `github.com/fizz/buzz`. */
  lemma GitHubRemoteExample()
    ensures RemoteSliceable("git@github.com:fizz/buzz.git")
    ensures NormalizeGitRemote("git@github.com:fizz/buzz.git") == "github.com/fizz/buzz"
  {
    ScpStyleRemote("git", "github.com", "fizz/buzz");
    RemoteExampleText();
  }

  /** A remote without `@` (an https URL, say) is kept as it is. */
  lemma RemoteWithoutAtUnchanged(s: string)
    requires '@' !in s
    ensures RemoteSliceable(s) && NormalizeGitRemote(s) == s
  {
  }

  // ----- the whole metadata map -----

  /** The names `GetCIEnv` sets besides the environment's. */
  const MetadataNames: set<string> := MetadataCommands.Keys + {CISystemKey, HostnameKey}

  /** Facts about the metadata name literals, kept apart from the proofs that use them. */
  lemma MetadataNameFacts()
    ensures GitRemoteKey in MetadataCommands
    ensures CISystemKey !in MetadataCommands && HostnameKey !in MetadataCommands && CISystemKey != HostnameKey
    ensures forall k | k in MetadataNames :: HasPrefix(k, "SOLUBLE_")
  {
    assert MetadataCommands.Keys == {GitBranchKey, GitCommitKey, GitCommitShortKey, GitDescribeKey, GitRemoteKey};
    assert |CISystemKey| != |HostnameKey|;
    assert HostnameKey != GitBranchKey by { assert HostnameKey[17] != GitBranchKey[17]; }
    assert HostnameKey != GitCommitKey by { assert HostnameKey[17] != GitCommitKey[17]; }
    assert HostnameKey != GitRemoteKey by { assert HostnameKey[17] != GitRemoteKey[17]; }
    assert CISystemKey != GitDescribeKey by { assert CISystemKey[17] != GitDescribeKey[17]; }
    assert CISystemKey != GitCommitShortKey by { assert CISystemKey[17] != GitCommitShortKey[17]; }
  }

  /** No recorded environment name collides with a metadata name. */
  lemma RecordedIsNotMetadataName(k: string)
    requires Recorded(k)
    ensures k !in MetadataNames
  {
    RecordedIsNotMetadata(k);
    MetadataNameFacts();
  }

  /**
   * The metadata-command loop: each command that succeeded stores its trimmed
   * output under its name; everything else stays as it was.
   */
  method RunMetadataCommands(values: map<string, string>, outputs: map<string, string>)
    returns (result: map<string, string>)
    ensures forall k :: k in result <==> k in values || (k in MetadataCommands && MetadataCommands[k] in outputs)
    ensures forall k | k in result ::
      result[k] == if k in MetadataCommands && MetadataCommands[k] in outputs
                   then TrimSpace(outputs[MetadataCommands[k]]) else values[k]
  {
    result := values;
    var pending := MetadataCommands.Keys;
    while pending != {}
      invariant pending <= MetadataCommands.Keys
      invariant forall k :: k in result <==>
        k in values || (k in MetadataCommands && k !in pending && MetadataCommands[k] in outputs)
      invariant forall k | k in result ::
        result[k] == if k in MetadataCommands && k !in pending && MetadataCommands[k] in outputs
                     then TrimSpace(outputs[MetadataCommands[k]]) else values[k]
      decreases pending
    {
      var k :| k in pending;
      pending := pending - {k};
      var command := MetadataCommands[k];
      if command in outputs {
        result := result[k := TrimSpace(outputs[command])];
      }
    }
  }

  /** The stored git remote: the normalised form unless that is empty. */
  function StoredRemote(output: string): (r: string)
    requires RemoteSliceable(TrimSpace(output))
    ensures r == "" <==> TrimSpace(output) == ""
    ensures '@' !in TrimSpace(output) ==> r == TrimSpace(output)
  {
    var s := NormalizeGitRemote(TrimSpace(output));
    if s != "" then s else TrimSpace(output)
  }

  /**
   * The part of `GetCIEnv` after the filter: the CI system, the git metadata
   * (the remote normalised when that gives a non-empty text) and the host name.
   */
  method AddMetadata(env: map<string, string>, ciSystem: string, outputs: map<string, string>, hostname: Option<string>)
    returns (values: map<string, string>)
    requires forall k | k in env :: k !in MetadataNames
    requires MetadataCommands[GitRemoteKey] in outputs ==>
      RemoteSliceable(TrimSpace(outputs[MetadataCommands[GitRemoteKey]]))
    ensures forall k | k !in MetadataNames :: (k in values <==> k in env) && (k in env ==> values[k] == env[k])
    ensures CISystemKey in values && values[CISystemKey] == ciSystem
    ensures forall k | k in MetadataCommands && k != GitRemoteKey ::
      (k in values <==> MetadataCommands[k] in outputs) &&
      (k in values ==> values[k] == TrimSpace(outputs[MetadataCommands[k]]))
    ensures GitRemoteKey in values <==> MetadataCommands[GitRemoteKey] in outputs
    ensures GitRemoteKey in values ==> values[GitRemoteKey] == StoredRemote(outputs[MetadataCommands[GitRemoteKey]])
    ensures hostname.Some? ==> HostnameKey in values && values[HostnameKey] == hostname.value
    ensures hostname.None? ==> HostnameKey !in values
  {
    MetadataNameFacts();
    var initial := env[CISystemKey := ciSystem];
    values := RunMetadataCommands(initial, outputs);
    ghost var withCommands := values;

    var remote := if GitRemoteKey in values then values[GitRemoteKey] else "";
    var s := NormalizeGitRemote(remote);
    if s != "" {
      values := values[GitRemoteKey := s];
    }

    if hostname.Some? {
      values := values[HostnameKey := hostname.value];
    }
    forall k | k in MetadataCommands && k != GitRemoteKey
      ensures (k in values <==> MetadataCommands[k] in outputs)
      ensures k in values ==> values[k] == TrimSpace(outputs[MetadataCommands[k]])
    {
      assert k in MetadataNames;
      assert k !in initial;
      assert k != HostnameKey;
    }
  }

  /**
   * The first half of `GetCIEnv`: the environment parsed and filtered, seen
   * through its entries, and the CI system detected.
   */
  method RecordedEnvironment(environ: seq<string>) returns (env: map<string, string>, ciSystem: string)
    requires WellFormedEnv(environ)
    ensures forall k :: k in env <==> Recorded(k) && exists j | 0 <= j < |environ| :: ToUpper(EnvKey(environ[j])) == k
    ensures forall k | k in env :: exists j | 0 <= j < |environ| ::
      ToUpper(EnvKey(environ[j])) == k && env[k] == EnvValue(environ[j]) && LastEntry(environ, j)
    ensures forall k | k in env :: k !in MetadataNames
    ensures ciSystem == "" <==> env == map[]
    ensures ciSystem == "" || ciSystem in CISystems
    ensures ciSystem != "" ==> exists k | k in env :: 0 < Index(k, '_') && ciSystem == k[..Index(k, '_')]
  {
    var allEnvs := ParseEnviron(environ);
    env, ciSystem := FilterCIEnv(allEnvs);
    EnvNames(environ, allEnvs, env);
    forall k | k in env ensures k !in MetadataNames {
      RecordedIsNotMetadataName(k);
    }
  }

  /**
   * `GetCIEnv` with its inputs made explicit: `environ` is the process
   * environment, `outputs` holds the standard output of each git command that
   * succeeded, keyed by its command line, and `hostname` is the host name when
   * it can be determined. The remote has to be sliceable, otherwise the source
   * panics.
   */
  method GetCIEnv(environ: seq<string>, outputs: map<string, string>, hostname: Option<string>)
    returns (values: map<string, string>)
    requires WellFormedEnv(environ)
    requires MetadataCommands[GitRemoteKey] in outputs ==>
      RemoteSliceable(TrimSpace(outputs[MetadataCommands[GitRemoteKey]]))
    ensures forall k | k !in MetadataNames ::
      k in values <==> Recorded(k) && exists j | 0 <= j < |environ| :: ToUpper(EnvKey(environ[j])) == k
    ensures forall k | k in values && k !in MetadataNames ::
      exists j | 0 <= j < |environ| ::
        ToUpper(EnvKey(environ[j])) == k && values[k] == EnvValue(environ[j]) && LastEntry(environ, j)
    ensures CISystemKey in values
    ensures values[CISystemKey] == "" || values[CISystemKey] in CISystems
    ensures (values[CISystemKey] == "") <==> forall k | k in values :: k in MetadataNames
    ensures values[CISystemKey] != "" ==>
      exists k | k in values && k !in MetadataNames :: 0 < Index(k, '_') && values[CISystemKey] == k[..Index(k, '_')]
    ensures forall k | k in MetadataCommands && k != GitRemoteKey ::
      (k in values <==> MetadataCommands[k] in outputs) &&
      (k in values ==> values[k] == TrimSpace(outputs[MetadataCommands[k]]))
    ensures GitRemoteKey in values <==> MetadataCommands[GitRemoteKey] in outputs
    ensures GitRemoteKey in values ==> values[GitRemoteKey] == StoredRemote(outputs[MetadataCommands[GitRemoteKey]])
    ensures hostname.Some? ==> HostnameKey in values && values[HostnameKey] == hostname.value
    ensures hostname.None? ==> HostnameKey !in values
  {
    var env, ciSystem := RecordedEnvironment(environ);
    values := AddMetadata(env, ciSystem, outputs, hostname);
    if ciSystem != "" {
      var k :| k in env && 0 < Index(k, '_') && ciSystem == k[..Index(k, '_')];
      assert k in values && k !in MetadataNames;
    }
  }
}
