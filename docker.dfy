/**
 * The docker runner of the tool adapters: the classification of the daemon
 * probe (`docker info`), the docker error kind and its `errors.Is` matching,
 * and the argument vector of `docker run`, with the in-place rewrite of the
 * tool's own arguments onto the mounted policy directory.
 */
module Docker {
  import opened Wrappers
  import opened Text

  const NotRunningMessage := "the docker server is not running"
  const NotPresentMessage := "the docker executable is not present, or is not in the PATH"
  const UnknownMessage := "unknown error checking docker availability"

  /** Where the source directory is mounted inside the container. */
  const SourceMount := "/src"
  /** Where the policy directory is mounted inside the container. */
  const PolicyMount := "/policy"

  // ---------------------------------------------------------------------------
  // The daemon probe
  // ---------------------------------------------------------------------------

  /**
   * The switch of `hasDocker` on the exit code of `docker info`: 0 means docker
   * is usable, 1 that the server is not running, 127 that the executable is
   * missing, and anything else is an unknown failure. Every failure is a
   * docker error.
   */
  function ClassifyProbe(code: int): (r: Option<Error>)
    ensures r.None? <==> code == 0
    ensures r.Some? ==> r.value.DockerError?
    ensures code == 1 ==> r == Some(DockerError(NotRunningMessage))
    ensures code == 127 ==> r == Some(DockerError(NotPresentMessage))
    ensures code != 0 && code != 1 && code != 127 ==> r == Some(DockerError(UnknownMessage))
  {
    if code == 0 then None
    else if code == 1 then Some(DockerError(NotRunningMessage))
    else if code == 127 then Some(DockerError(NotPresentMessage))
    else Some(DockerError(UnknownMessage))
  }

  /** The four outcomes of the probe are four different values. */
  lemma ProbeOutcomesDistinct(a: int, b: int)
    requires ClassifyProbe(a) == ClassifyProbe(b)
    ensures a == b || (a !in {0, 1, 127} && b !in {0, 1, 127})
  {
    MessagesDistinct();
  }

  /** The three messages differ (they differ in length). */
  lemma MessagesDistinct()
    ensures NotRunningMessage != NotPresentMessage
    ensures NotRunningMessage != UnknownMessage
    ensures NotPresentMessage != UnknownMessage
  {
    assert |NotPresentMessage| == 59;
  }

  /**
   * How `docker info` ended: it exited with a status, it could not be started
   * at all (no `docker` on the PATH), or a signal killed it.
   */
  datatype ProbeRun = Exited(status: int) | NotStarted | Signaled

  /**
   * `c.ProcessState.ExitCode()` after `c.Run()`: the status of a process that
   * exited, and -1 when the process never started (the state is nil) or was
   * killed by a signal.
   */
  function ProcessExitCode(run: ProbeRun): (code: int)
    ensures run.Exited? ==> code == run.status
    ensures !run.Exited? ==> code == -1
  {
    if run.Exited? then run.status else -1
  }

  /** `hasDocker` as written: the switch applied to the process state's exit code. */
  function HasDocker(run: ProbeRun): (r: Option<Error>)
    ensures r.None? <==> run == Exited(0)
    ensures r.Some? ==> r.value.DockerError?
  {
    ClassifyProbe(ProcessExitCode(run))
  }

  /**
   * As written, a `docker` missing from the PATH is reported as an unknown
   * error: the command is never started, so its exit code is -1 and the
   * "not present" case (127, a shell's convention) is not reached.
   */
  lemma MissingExecutableIsUnknown()
    ensures HasDocker(NotStarted) == Some(DockerError(UnknownMessage))
    ensures HasDocker(NotStarted) != Some(DockerError(NotPresentMessage))
  {
    MessagesDistinct();
  }

  /**
   * `hasDocker` as evidently intended: a probe that cannot start because the
   * executable is missing reports the "not present" error; every run that
   * does start is classified by its exit code as before.
   */
  function HasDockerIntended(run: ProbeRun): (r: Option<Error>)
    ensures r.None? <==> run == Exited(0)
    ensures r.Some? ==> r.value.DockerError?
    ensures run == NotStarted ==> r == Some(DockerError(NotPresentMessage))
    ensures run.Exited? ==> r == ClassifyProbe(run.status)
    ensures run == Signaled ==> r == Some(DockerError(UnknownMessage))
  {
    match run
    case Exited(status) => ClassifyProbe(status)
    case NotStarted => Some(DockerError(NotPresentMessage))
    case Signaled => Some(DockerError(UnknownMessage))
  }

  /** The correction changes the outcome of the never-started probe and of nothing else. */
  lemma IntendedDiffersOnlyWhenNotStarted(run: ProbeRun)
    ensures HasDockerIntended(run) == HasDocker(run) <==> run != NotStarted
  {
    MessagesDistinct();
  }

  // ---------------------------------------------------------------------------
  // Docker errors
  // ---------------------------------------------------------------------------

  /** `DockerError.Is(target)`: a docker error matches any docker error target, whatever its message. */
  function DockerErrorIs(target: Error): (r: bool)
    ensures r <==> exists m :: target == DockerError(m)
  {
    assert target.DockerError? ==> target == DockerError(target.message);
    target.DockerError?
  }

  /**
   * `errors.Is(err, target)`: each error of the unwrap chain, from `err`
   * down, matches when it equals the target or when its own `Is` method says
   * so; among the modelled errors only a docker error has such a method, and
   * only a wrapping error unwraps.
   */
  function ErrorsIs(err: Error, target: Error): bool
    decreases err
  {
    err == target
    || (err.DockerError? && DockerErrorIs(target))
    || (err.Wrapped? && ErrorsIs(err.cause, target))
  }

  /** The unwrap chain of an error: the error itself, then what it wraps, and so on. */
  function Chain(err: Error): (c: seq<Error>)
    ensures |c| >= 1 && c[0] == err
    ensures forall i | 0 <= i < |c| - 1 :: c[i].Wrapped? && c[i + 1] == c[i].cause
    ensures !c[|c| - 1].Wrapped?
    decreases err
  {
    if err.Wrapped? then [err] + Chain(err.cause) else [err]
  }

  /** `IsDockerError`: whether the error is, or wraps, a docker error. */
  function IsDockerError(err: Error): (r: bool)
    ensures err.DockerError? ==> r
    ensures err.Wrapped? ==> (r <==> IsDockerError(err.cause))
    ensures err.ExitError? || err.Failure? ==> !r
  {
    ErrorsIs(err, DockerError(""))
  }

  /** An error is a docker error exactly when some link of its unwrap chain is one. */
  lemma {:induction false} IsDockerErrorInChain(err: Error)
    ensures IsDockerError(err) <==> exists i | 0 <= i < |Chain(err)| :: Chain(err)[i].DockerError?
    decreases err
  {
    var c := Chain(err);
    if err.Wrapped? {
      IsDockerErrorInChain(err.cause);
      var d := Chain(err.cause);
      assert c == [err] + d;
      if IsDockerError(err) {
        var i :| 0 <= i < |d| && d[i].DockerError?;
        assert c[i + 1] == d[i] && c[i + 1].DockerError?;
      }
      if exists i | 0 <= i < |c| :: c[i].DockerError? {
        var i :| 0 <= i < |c| && c[i].DockerError?;
        assert i > 0;
        assert d[i - 1] == c[i] && d[i - 1].DockerError?;
      }
    } else {
      assert c == [err];
      if err.DockerError? {
        assert c[0].DockerError?;
        assert exists i | 0 <= i < |Chain(err)| :: Chain(err)[i].DockerError?;
      } else {
        assert !IsDockerError(err);
        assert forall i | 0 <= i < |c| :: c[i] == err;
      }
    }
  }

  /** Every failure of the probe, as written or as intended, is recognised by `IsDockerError`. */
  lemma ProbeFailuresAreDockerErrors(run: ProbeRun)
    ensures HasDocker(run).Some? ==> IsDockerError(HasDocker(run).value)
    ensures HasDockerIntended(run).Some? ==> IsDockerError(HasDockerIntended(run).value)
  {
  }

  // ---------------------------------------------------------------------------
  // The argument vector of `docker run`
  // ---------------------------------------------------------------------------

  /** The fixed head of every run: remove the container afterwards. */
  function BaseArgs(): (r: seq<string>)
    ensures r == ["run", "--rm"]
  {
    ["run", "--rm"]
  }

  /** The mount of the scanned directory onto /src, which is also the working directory. */
  function DirectoryArgs(directory: string): (r: seq<string>)
    ensures directory == "" ==> r == []
    ensures directory != "" ==> |r| == 4 && r[0] == "-v" && r[2] == "-w" && r[3] == SourceMount
    ensures directory != "" ==> r[1] == directory + ":/src" && HasPrefix(r[1], directory) && HasSuffix(r[1], ":/src")
  {
    if directory == "" then [] else ["-v", directory + ":/src", "-w", SourceMount]
  }

  /** The mount of the policy directory onto /policy. */
  function PolicyArgs(policyDirectory: string): (r: seq<string>)
    ensures policyDirectory == "" ==> r == []
    ensures policyDirectory != "" ==> |r| == 2 && r[0] == "-v"
    ensures policyDirectory != "" ==> r[1] == policyDirectory + ":/policy" && HasPrefix(r[1], policyDirectory) && HasSuffix(r[1], ":/policy")
  {
    if policyDirectory == "" then [] else ["-v", policyDirectory + ":/policy"]
  }

  /**
   * The tool's arguments with every occurrence of the policy directory
   * replaced by the path it is mounted at; every other argument is kept.
   */
  function RewritePolicy(args: seq<string>, policyDirectory: string): (r: seq<string>)
    ensures |r| == |args|
    ensures forall i | 0 <= i < |args| :: r[i] == (if args[i] == policyDirectory then PolicyMount else args[i])
  {
    if args == [] then []
    else [if args[0] == policyDirectory then PolicyMount else args[0]] + RewritePolicy(args[1..], policyDirectory)
  }

  /** Rewriting twice changes nothing more, and afterwards the policy directory is referred to only as /policy. */
  lemma RewritePolicyIdempotent(args: seq<string>, policyDirectory: string)
    ensures RewritePolicy(RewritePolicy(args, policyDirectory), policyDirectory) == RewritePolicy(args, policyDirectory)
    ensures policyDirectory != PolicyMount ==> policyDirectory !in RewritePolicy(args, policyDirectory)
  {
    var r := RewritePolicy(args, policyDirectory);
    assert RewritePolicy(r, policyDirectory) == r;
  }

  /** The arguments the tool itself receives: rewritten only when a policy directory is mounted. */
  function ToolArgs(args: seq<string>, policyDirectory: string): (r: seq<string>)
    ensures policyDirectory == "" ==> r == args
    ensures policyDirectory != "" ==> r == RewritePolicy(args, policyDirectory)
  {
    if policyDirectory == "" then args else RewritePolicy(args, policyDirectory)
  }

  /**
   * The whole argument vector, segment by segment: base, directory mount,
   * policy mount, extra docker arguments, proxy variables, image, tool
   * arguments.
   */
  function RunArgs(directory: string, policyDirectory: string, dockerArgs: seq<string>,
                   proxy: seq<string>, image: string, toolArgs: seq<string>): seq<string>
  {
    BaseArgs() + DirectoryArgs(directory) + PolicyArgs(policyDirectory) + dockerArgs + proxy + [image] + toolArgs
  }

  /**
   * Where each segment sits in the vector: it starts with `run --rm`, ends
   * with the image and the tool arguments, and the segments follow each
   * other without gaps in their fixed order.
   */
  lemma RunArgsLayout(directory: string, policyDirectory: string, dockerArgs: seq<string>,
                      proxy: seq<string>, image: string, toolArgs: seq<string>)
    ensures var r := RunArgs(directory, policyDirectory, dockerArgs, proxy, image, toolArgs);
      var d := 2 + |DirectoryArgs(directory)|;
      var p := d + |PolicyArgs(policyDirectory)|;
      var x := p + |dockerArgs|;
      var e := x + |proxy|;
      && |r| == e + 1 + |toolArgs|
      && r[..2] == ["run", "--rm"]
      && r[2..d] == DirectoryArgs(directory)
      && r[d..p] == PolicyArgs(policyDirectory)
      && r[p..x] == dockerArgs
      && r[x..e] == proxy
      && r[e] == image
      && r[e + 1..] == toolArgs
  {
    var r := RunArgs(directory, policyDirectory, dockerArgs, proxy, image, toolArgs);
    var b, da, pa := BaseArgs(), DirectoryArgs(directory), PolicyArgs(policyDirectory);
    assert r == b + da + pa + dockerArgs + proxy + [image] + toolArgs;
    var d := 2 + |da|;
    var p := d + |pa|;
    var x := p + |dockerArgs|;
    var e := x + |proxy|;
    assert r[..2] == b;
    assert r[2..d] == da;
    assert r[d..p] == pa;
    assert r[p..x] == dockerArgs;
    assert r[x..e] == proxy;
    assert r[e + 1..] == toolArgs;
  }

  // ---------------------------------------------------------------------------
  // Proxy variables
  // ---------------------------------------------------------------------------

  /** The proxy variables passed into the container, each also in lower case. */
  const ProxyNames: seq<string> := ["HTTP_PROXY", "HTTPS_PROXY", "NO_PROXY"]

  /** The variable names checked, in order: each name followed by its lower-case spelling. */
  function ProxyVariables(names: seq<string>): (r: seq<string>)
    ensures |r| == 2 * |names|
  {
    if names == [] then []
    else ProxyVariables(names[..|names| - 1]) + [names[|names| - 1], ToLower(names[|names| - 1])]
  }

  /** Each name is checked first as given and then in lower case. */
  lemma {:induction false} ProxyVariablesOrder(names: seq<string>)
    ensures forall i | 0 <= i < |names| ::
      ProxyVariables(names)[2 * i] == names[i] && ProxyVariables(names)[2 * i + 1] == ToLower(names[i])
    decreases |names|
  {
    if names != [] {
      var init := names[..|names| - 1];
      ProxyVariablesOrder(init);
      var r := ProxyVariables(names);
      assert r == ProxyVariables(init) + [names[|names| - 1], ToLower(names[|names| - 1])];
      forall i | 0 <= i < |names|
        ensures r[2 * i] == names[i] && r[2 * i + 1] == ToLower(names[i])
      {
        if i < |init| {
          assert r[2 * i] == ProxyVariables(init)[2 * i];
          assert r[2 * i + 1] == ProxyVariables(init)[2 * i + 1];
        }
      }
    }
  }

  lemma LowerProxyNames()
    ensures ToLower("HTTP_PROXY") == "http_proxy"
    ensures ToLower("HTTPS_PROXY") == "https_proxy"
    ensures ToLower("NO_PROXY") == "no_proxy"
  {
    var a, b, c := ToLower("HTTP_PROXY"), ToLower("HTTPS_PROXY"), ToLower("NO_PROXY");
    assert a[0] == 'h' && a[1] == 't' && a[2] == 't' && a[3] == 'p' && a[4] == '_';
    assert a[5] == 'p' && a[6] == 'r' && a[7] == 'o' && a[8] == 'x' && a[9] == 'y';
    assert b[0] == 'h' && b[1] == 't' && b[2] == 't' && b[3] == 'p' && b[4] == 's' && b[5] == '_';
    assert b[6] == 'p' && b[7] == 'r' && b[8] == 'o' && b[9] == 'x' && b[10] == 'y';
    assert c[0] == 'n' && c[1] == 'o' && c[2] == '_';
    assert c[3] == 'p' && c[4] == 'r' && c[5] == 'o' && c[6] == 'x' && c[7] == 'y';
  }

  /** The six names checked, in the order they are checked. */
  lemma ProxyVariablesSpelledOut()
    ensures ProxyVariables(ProxyNames)
         == ["HTTP_PROXY", "http_proxy", "HTTPS_PROXY", "https_proxy", "NO_PROXY", "no_proxy"]
  {
    LowerProxyNames();
    var v := ProxyVariables(ProxyNames);
    ProxyVariablesOrder(ProxyNames);
    assert v[2 * 0] == ProxyNames[0];
    assert v[2 * 1] == ProxyNames[1];
    assert v[2 * 2] == ProxyNames[2];
    assert v[2 * 0 + 1] == ToLower(ProxyNames[0]);
    assert v[2 * 1 + 1] == ToLower(ProxyNames[1]);
    assert v[2 * 2 + 1] == ToLower(ProxyNames[2]);
    assert v[0] == "HTTP_PROXY" && v[1] == "http_proxy";
    assert v[2] == "HTTPS_PROXY" && v[3] == "https_proxy";
    assert v[4] == "NO_PROXY" && v[5] == "no_proxy";
  }

  /** `-e <name>` when the variable is set to a non-empty value, nothing otherwise. */
  function EnvFlag(getenv: string -> string, name: string): (r: seq<string>)
    ensures getenv(name) == "" ==> r == []
    ensures getenv(name) != "" ==> r == ["-e", name]
  {
    if getenv(name) != "" then ["-e", name] else []
  }

  /** The flags for a list of variables: one `-e <name>` pair per set variable, in list order. */
  function EnvFlags(getenv: string -> string, names: seq<string>): (r: seq<string>)
  {
    if names == [] then []
    else EnvFlags(getenv, names[..|names| - 1]) + EnvFlag(getenv, names[|names| - 1])
  }

  /** Two arguments per variable that is set. */
  lemma {:induction false} EnvFlagsLength(getenv: string -> string, names: seq<string>)
    ensures |EnvFlags(getenv, names)| == 2 * SetCount(getenv, names)
    decreases |names|
  {
    if names != [] {
      EnvFlagsLength(getenv, names[..|names| - 1]);
    }
  }

  /**
   * The flags are pairs `-e <name>`, and every name is one of the variables
   * and is set: no value ever appears.
   */
  lemma {:induction false} EnvFlagsShape(getenv: string -> string, names: seq<string>)
    ensures var r := EnvFlags(getenv, names);
      forall i | 0 <= i < |r| / 2 :: r[2 * i] == "-e" && r[2 * i + 1] in names && getenv(r[2 * i + 1]) != ""
    decreases |names|
  {
    if names != [] {
      var init := names[..|names| - 1];
      var last := names[|names| - 1];
      EnvFlagsShape(getenv, init);
      EnvFlagsLength(getenv, init);
      EnvFlagsLength(getenv, names);
      var p := EnvFlags(getenv, init);
      var r := EnvFlags(getenv, names);
      assert r == p + EnvFlag(getenv, last);
      forall i | 0 <= i < |r| / 2
        ensures r[2 * i] == "-e" && r[2 * i + 1] in names && getenv(r[2 * i + 1]) != ""
      {
        if 2 * i < |p| {
          assert r[2 * i] == p[2 * i];
          assert r[2 * i + 1] == p[2 * i + 1];
          assert p[2 * i + 1] in init;
        } else {
          assert getenv(last) != "";
          assert r[2 * i] == "-e";
          assert r[2 * i + 1] == last;
        }
      }
    }
  }

  /** How many of the variables are set to a non-empty value. */
  function SetCount(getenv: string -> string, names: seq<string>): (n: nat)
    ensures n <= |names|
    ensures n == 0 <==> forall i | 0 <= i < |names| :: getenv(names[i]) == ""
  {
    if names == [] then 0
    else SetCount(getenv, names[..|names| - 1]) + (if getenv(names[|names| - 1]) != "" then 1 else 0)
  }

  /** Flags of a concatenated list are the flags of the parts, concatenated. */
  lemma {:induction false} EnvFlagsConcat(getenv: string -> string, a: seq<string>, b: seq<string>)
    ensures EnvFlags(getenv, a + b) == EnvFlags(getenv, a) + EnvFlags(getenv, b)
    decreases |b|
  {
    if b == [] {
      assert a + b == a;
    } else {
      var b' := b[..|b| - 1];
      assert (a + b)[..|a + b| - 1] == a + b';
      assert (a + b)[|a + b| - 1] == b[|b| - 1];
      EnvFlagsConcat(getenv, a, b');
    }
  }

  /** Every variable set to a non-empty value contributes its name. */
  lemma {:induction false} EnvFlagsComplete(getenv: string -> string, names: seq<string>, name: string)
    requires name in names && getenv(name) != ""
    ensures name in EnvFlags(getenv, names)
    decreases |names|
  {
    var init := names[..|names| - 1];
    assert names == init + [names[|names| - 1]];
    if name != names[|names| - 1] {
      EnvFlagsComplete(getenv, init, name);
    }
  }

  /**
   * The flags never depend on what the variables are set to, only on whether
   * they are set: two environments that agree on which names are empty give
   * the same flags, so no value can reach the argument vector.
   */
  lemma {:induction false} EnvFlagsIgnoreValues(g1: string -> string, g2: string -> string, names: seq<string>)
    requires forall n | n in names :: (g1(n) == "") == (g2(n) == "")
    ensures EnvFlags(g1, names) == EnvFlags(g2, names)
    decreases |names|
  {
    if names != [] {
      var init := names[..|names| - 1];
      assert forall n | n in init :: n in names;
      EnvFlagsIgnoreValues(g1, g2, init);
    }
  }

  /** The proxy flags `appendProxyEnv` adds: for each proxy name, the name and then its lower case. */
  function ProxyFlags(getenv: string -> string): seq<string> {
    EnvFlags(getenv, ProxyVariables(ProxyNames))
  }

  /** Two more names add their two flags, in order. */
  lemma EnvFlagsPair(getenv: string -> string, names: seq<string>, a: string, b: string)
    ensures EnvFlags(getenv, names + [a, b]) == EnvFlags(getenv, names) + EnvFlag(getenv, a) + EnvFlag(getenv, b)
  {
    var s := names + [a, b];
    assert s[..|s| - 1] == names + [a];
    assert (names + [a])[..|names|] == names;
  }

  lemma EnvFlagsSix(getenv: string -> string, a: string, b: string, c: string, d: string, e: string, f: string)
    ensures EnvFlags(getenv, [a, b, c, d, e, f])
         == EnvFlag(getenv, a) + EnvFlag(getenv, b) + EnvFlag(getenv, c)
          + EnvFlag(getenv, d) + EnvFlag(getenv, e) + EnvFlag(getenv, f)
  {
    EnvFlagsPair(getenv, [], a, b);
    EmptyConcat([a, b]);
    EmptyConcat(EnvFlag(getenv, a));
    EnvFlagsPair(getenv, [a, b], c, d);
    assert [a, b] + [c, d] == [a, b, c, d];
    EnvFlagsPair(getenv, [a, b, c, d], e, f);
    assert [a, b, c, d] + [e, f] == [a, b, c, d, e, f];
  }

  /**
   * The proxy flags, spelled out: `-e NAME` for each of the six variables set
   * to a non-empty value, upper and lower case checked independently.
   */
  lemma ProxyFlagsSpelledOut(getenv: string -> string)
    ensures ProxyFlags(getenv)
         == EnvFlag(getenv, "HTTP_PROXY") + EnvFlag(getenv, "http_proxy")
          + EnvFlag(getenv, "HTTPS_PROXY") + EnvFlag(getenv, "https_proxy")
          + EnvFlag(getenv, "NO_PROXY") + EnvFlag(getenv, "no_proxy")
  {
    ProxyVariablesSpelledOut();
    EnvFlagsSix(getenv, "HTTP_PROXY", "http_proxy", "HTTPS_PROXY", "https_proxy", "NO_PROXY", "no_proxy");
  }

  /** One more name of the loop adds the flags for it and for its lower case. */
  lemma ProxyFlagsNext(getenv: string -> string, names: seq<string>, i: nat)
    requires i < |names|
    ensures EnvFlags(getenv, ProxyVariables(names[..i + 1]))
         == EnvFlags(getenv, ProxyVariables(names[..i])) + EnvFlag(getenv, names[i]) + EnvFlag(getenv, ToLower(names[i]))
  {
    var done := ProxyVariables(names[..i]);
    assert names[..i + 1][..i] == names[..i];
    assert ProxyVariables(names[..i + 1]) == done + [names[i], ToLower(names[i])];
    EnvFlagsPair(getenv, done, names[i], ToLower(names[i]));
  }

  /**
   * The loop of `appendProxyEnv` over a list of names: for each name, append
   * `-e <name>` if it is set, then the same for its lower-case spelling.
   */
  method AppendEnvNames(getenv: string -> string, names: seq<string>, args: seq<string>) returns (r: seq<string>)
    ensures r == args + EnvFlags(getenv, ProxyVariables(names))
  {
    r := args;
    for i := 0 to |names|
      invariant r == args + EnvFlags(getenv, ProxyVariables(names[..i]))
    {
      var k := names[i];
      var lk := ToLower(k);
      ProxyFlagsNext(getenv, names, i);
      ghost var before := r;
      if getenv(k) != "" {
        r := r + ["-e", k];
      }
      assert r == before + EnvFlag(getenv, k);
      ghost var middle := r;
      if getenv(lk) != "" {
        r := r + ["-e", lk];
      }
      assert r == middle + EnvFlag(getenv, lk);
      ConcatAssoc(args, EnvFlags(getenv, ProxyVariables(names[..i])), EnvFlag(getenv, k), EnvFlag(getenv, lk));
    }
    assert names[..|names|] == names;
  }

  /**
   * `appendProxyEnv`: appends `-e <name>` for every proxy variable that is
   * set, checking each name and then its lower-case spelling.
   */
  method AppendProxyEnv(getenv: string -> string, args: seq<string>) returns (r: seq<string>)
    ensures r == args + ProxyFlags(getenv)
  {
    r := AppendEnvNames(getenv, ProxyNames, args);
  }

  /** What `appendProxyEnv` promises its callers: the input is kept as a prefix, followed only by flags and names. */
  lemma AppendedProxyShape(getenv: string -> string, args: seq<string>)
    ensures var r := args + ProxyFlags(getenv);
      && r[..|args|] == args
      && |r| == |args| + 2 * SetCount(getenv, ProxyVariables(ProxyNames))
      && forall i | 0 <= i < (|r| - |args|) / 2 ::
           r[|args| + 2 * i] == "-e" && r[|args| + 2 * i + 1] in ProxyVariables(ProxyNames)
  {
    EnvFlagsShape(getenv, ProxyVariables(ProxyNames));
    EnvFlagsLength(getenv, ProxyVariables(ProxyNames));
    var f := ProxyFlags(getenv);
    var r := args + f;
    forall i | 0 <= i < (|r| - |args|) / 2
      ensures r[|args| + 2 * i] == "-e" && r[|args| + 2 * i + 1] in ProxyVariables(ProxyNames)
    {
      assert r[|args| + 2 * i] == f[2 * i];
      assert r[|args| + 2 * i + 1] == f[2 * i + 1];
    }
  }

  // ---------------------------------------------------------------------------
  // The docker tool
  // ---------------------------------------------------------------------------

  /**
   * A tool run through docker. `args` is the tool's own argument slice, which
   * the caller shares and which `GetArgs` rewrites in place; it is therefore
   * an array.
   */
  class DockerTool {
    var name: string
    var image: string
    var dockerArgs: seq<string>
    var args: array<string>
    var defaultNoDockerName: string
    var policyDirectory: string
    var directory: string

    constructor (name: string, image: string, dockerArgs: seq<string>, args: array<string>,
                 defaultNoDockerName: string, policyDirectory: string, directory: string)
      ensures this.name == name && this.image == image && this.dockerArgs == dockerArgs
      ensures this.args == args && this.defaultNoDockerName == defaultNoDockerName
      ensures this.policyDirectory == policyDirectory && this.directory == directory
    {
      this.name := name;
      this.image := image;
      this.dockerArgs := dockerArgs;
      this.args := args;
      this.defaultNoDockerName := defaultNoDockerName;
      this.policyDirectory := policyDirectory;
      this.directory := directory;
    }

    /**
     * `getArgs`: the argument vector of `docker run`. When a policy directory
     * is mounted, every tool argument equal to it is rewritten to /policy in
     * place before the tool arguments are appended.
     */
    method GetArgs(getenv: string -> string) returns (result: seq<string>)
      modifies args
      ensures args[..] == ToolArgs(old(args[..]), policyDirectory)
      ensures result == RunArgs(directory, policyDirectory, dockerArgs, ProxyFlags(getenv), image, args[..])
    {
      result := ["run", "--rm"];
      if directory != "" {
        result := result + ["-v", directory + ":/src", "-w", SourceMount];
      } else {
        EmptyConcat(result);
      }
      assert result == BaseArgs() + DirectoryArgs(directory);
      if policyDirectory == "" {
        EmptyConcat(result);
      } else {
        result := result + ["-v", policyDirectory + ":/policy"];
        for i := 0 to args.Length
          invariant forall j | 0 <= j < i :: args[j] == (if old(args[j]) == policyDirectory then PolicyMount else old(args[j]))
          invariant forall j | i <= j < args.Length :: args[j] == old(args[j])
        {
          if args[i] == policyDirectory {
            args[i] := PolicyMount;
          }
        }
      }
      assert result == BaseArgs() + DirectoryArgs(directory) + PolicyArgs(policyDirectory);
      result := result + dockerArgs;
      result := AppendProxyEnv(getenv, result);
      result := result + [image];
      result := result + args[..];
    }
  }

  /**
   * The properties of `getArgs` stated on one call: the vector starts with
   * `run --rm`, a non-empty directory adds exactly its mount, and the vector
   * ends with the image and the rewritten tool arguments.
   */
  lemma GetArgsEnds(directory: string, policyDirectory: string, dockerArgs: seq<string>,
                    getenv: string -> string, image: string, toolArgs: seq<string>)
    ensures var r := RunArgs(directory, policyDirectory, dockerArgs, ProxyFlags(getenv), image, toolArgs);
      && r[..2] == ["run", "--rm"]
      && r[|r| - |toolArgs| - 1..] == [image] + toolArgs
      && (directory != "" ==> r[2..6] == ["-v", directory + ":/src", "-w", "/src"])
      && (directory == "" && policyDirectory != "" ==> r[2..4] == ["-v", policyDirectory + ":/policy"])
  {
    RunArgsLayout(directory, policyDirectory, dockerArgs, ProxyFlags(getenv), image, toolArgs);
    var r := RunArgs(directory, policyDirectory, dockerArgs, ProxyFlags(getenv), image, toolArgs);
    var e := |r| - |toolArgs| - 1;
    assert r[e..] == [r[e]] + r[e + 1..];
  }
}
