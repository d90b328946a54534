/** The scan request handler: validate the URL, clone, scan the clone for
    secrets, find the project units, and run the three per-unit checks on
    each unit in turn, with git blame attached to the vulnerability
    findings. Everything outside the request is an `Environment`; the
    module-global `message` of the misconfiguration check is threaded
    through, in and out. */
module Controller {
  import opened Wrappers
  import opened Text
  import opened FsTree
  import opened Walk
  import opened Secrets
  import opened PackageDirs
  import opened Unwanted
  import opened Misconfig
  import opened Vulns
  import opened Blame
  import opened Clone

  const RepoUrlRequired: string := "Repository URL is required"
  const ScanFailed: string := "Error during scanning"
  const BlameFile: string := "package-lock.json"

  /** A blame rejection is a plain string, whose `message` is `undefined`. */
  const BlameFallback: string := "Error retrieving blame info: undefined"

  /** What the scan observes besides the request: the directory found at
      the clone path after cloning, the `npm audit` run in a directory,
      `JSON.parse`, and the `git blame` run on a file. */
  datatype Environment = Environment(
    root: Node, audit: string -> AuditRun, parse: string -> AuditJson, blame: string -> BlameRun)

  /** The three lists one unit contributes. */
  datatype UnitResults = UnitResults(
    vulnerabilities: seq<Vulnerability>, misconfigurations: seq<Misconfiguration>, unwantedFiles: seq<string>)

  /** The response body on success. */
  datatype ScanResults = ScanResults(
    secrets: seq<SecretFinding>, misconfigurations: seq<Misconfiguration>,
    vulnerabilities: seq<Vulnerability>, unwantedFiles: seq<string>)

  datatype Response = BadRequest(error: string) | ServerError(error: string) | Success(results: ScanResults)

  /** Why a unit's checks reject. */
  datatype UnitError = VulnFailed(vuln: VulnError) | MisconfigFailed(misconfig: MisconfigError)

  function StatusCode(r: Response): (code: int)
    ensures code == 200 <==> r.Success?
  {
    match r
    case BadRequest(_) => 400
    case ServerError(_) => 500
    case Success(_) => 200
  }

  const NoResults: UnitResults := UnitResults([], [], [])

  function Append(a: UnitResults, b: UnitResults): UnitResults
  {
    UnitResults(a.vulnerabilities + b.vulnerabilities, a.misconfigurations + b.misconfigurations,
                a.unwantedFiles + b.unwantedFiles)
  }

  /** One vulnerability with its blame: the report of `git blame` on the
      unit's lock file for the package name, or the fallback text. */
  function WithBlame(cpath: string, v: Vulnerability, env: Environment): (r: Vulnerability)
    ensures r == v.(blame := r.blame) && r.blame.Some?
    ensures env.blame(cpath + "/" + BlameFile).stderr != "" ==> r.blame == Some(BlameFallback)
    ensures env.blame(cpath + "/" + BlameFile).error.Some? ==> r.blame == Some(BlameFallback)
    ensures var run := env.blame(cpath + "/" + BlameFile);
            run.stderr == "" && run.error.None? ==> r.blame == Some(BlameOfLines(Split(run.stdout, '\n'), Interpolate(v.name)))
  {
    match GetGitBlame(cpath, BlameFile, Interpolate(v.name), env.blame(cpath + "/" + BlameFile))
    case Ok(info) => v.(blame := Some(info))
    case Err(_) => v.(blame := Some(BlameFallback))
  }

  function BlameAll(cpath: string, vs: seq<Vulnerability>, env: Environment): (r: seq<Vulnerability>)
    ensures |r| == |vs| && forall i :: 0 <= i < |vs| ==> r[i] == WithBlame(cpath, vs[i], env)
  {
    seq(|vs|, i requires 0 <= i < |vs| => WithBlame(cpath, vs[i], env))
  }

  function EmptyBlame(ms: seq<Misconfiguration>): (r: seq<Misconfiguration>)
    ensures |r| == |ms| && forall i :: 0 <= i < |ms| ==> r[i] == ms[i].(blame := Some(""))
  {
    seq(|ms|, i requires 0 <= i < |ms| => ms[i].(blame := Some("")))
  }

  /** `gatherResults(cpath)` for a unit at `cpath` naming directory `unit`:
      vulnerabilities, then misconfigurations, then unwanted files, the
      first rejection ending it. Setting `blame` on an unwanted-file entry,
      a string, has no effect. */
  function GatherResults(cpath: string, unit: Node, env: Environment, message: Option<string>)
    : (r: (Result<UnitResults, UnitError>, Option<string>))
    ensures env.parse(env.audit(cpath).stdout).Unparsable? ==> r == (Err(VulnFailed(ParseFailed(ParseFailure))), message)
    ensures r.0.Ok? ==> r.0.value.unwantedFiles == ScanDirectoryForUnwantedFiles(cpath, unit)
    ensures r.0.Ok? ==> forall m :: m in r.0.value.misconfigurations ==> m.blame == Some("") && m.filepath == cpath
    ensures r.0.Ok? ==> forall v :: v in r.0.value.vulnerabilities ==> v.blame.Some? && v.filepath == cpath
    ensures var cv := CheckVulnerabilities(cpath, env.audit(cpath), env.parse);
            && (cv.Err? ==> r == (Err(VulnFailed(cv.error)), message))
            && (r.0.Ok? ==> cv.Ok? && r.0.value.vulnerabilities == BlameAll(cpath, cv.value, env))
    ensures var cv := CheckVulnerabilities(cpath, env.audit(cpath), env.parse);
            var cm := CheckMisconfigurations(cpath, unit, message);
            && (cv.Ok? ==> r.1 == cm.1 && (r.0.Ok? <==> cm.0.Ok?))
            && (r.0.Ok? ==> cm.0.Ok? && r.0.value.misconfigurations == EmptyBlame(cm.0.value))
  {
    match CheckVulnerabilities(cpath, env.audit(cpath), env.parse)
    case Err(e) => (Err(VulnFailed(e)), message)
    case Ok(vs) =>
      var (mc, m) := CheckMisconfigurations(cpath, unit, message);
      match mc
      case Err(e) => (Err(MisconfigFailed(e)), m)
      case Ok(ms) =>
        var unwanted := ScanDirectoryForUnwantedFiles(cpath, unit);
        (Ok(UnitResults(BlameAll(cpath, vs, env), EmptyBlame(ms), unwanted)), m)
  }

  /** One turn of the unit loop: a unit and the global message in, the
      unit's outcome and the global message out. */
  type UnitStep = (Visit, Option<string>) -> (Result<UnitResults, UnitError>, Option<string>)

  function StepOf(env: Environment): UnitStep
  {
    (u: Visit, m: Option<string>) => GatherResults(u.path, u.node, env, m)
  }

  /** The loop over the units, in discovery order, appending each unit's
      lists; the first unit that rejects ends it. */
  function RunUnits(units: seq<Visit>, step: UnitStep, message: Option<string>)
    : (r: (Result<UnitResults, UnitError>, Option<string>))
  {
    if |units| == 0 then (Ok(NoResults), message)
    else
      var (first, m) := step(units[0], message);
      match first
      case Err(e) => (Err(e), m)
      case Ok(here) =>
        var (rest, m') := RunUnits(units[1..], step, m);
        match rest
        case Err(e) => (Err(e), m')
        case Ok(there) => (Ok(Append(here, there)), m')
  }

  function GatherAll(units: seq<Visit>, env: Environment, message: Option<string>)
    : (r: (Result<UnitResults, UnitError>, Option<string>))
  {
    RunUnits(units, StepOf(env), message)
  }

  /** `scanRepository` for a request whose body has `repoUrl` (`None` when
      missing), starting with the global `message` in `message`. */
  function ScanRepository(repoUrl: Option<string>, env: Environment, message: Option<string>)
    : (r: (Response, Option<string>))
    ensures r.0.BadRequest? <==> repoUrl.None? || repoUrl.value == ""
    ensures r.0.BadRequest? ==> r == (BadRequest(RepoUrlRequired), message)
    ensures r.0.ServerError? ==> r.0.error == ScanFailed
    ensures r.0.Success? ==> r.0.results.secrets == SecretsBeneath(GitClone(repoUrl.value), env.root)
    ensures repoUrl.Some? && repoUrl.value != "" && FindPackageJsonDirs(GitClone(repoUrl.value), env.root).Err?
            ==> r == (ServerError(ScanFailed), message)
    ensures repoUrl.Some? && repoUrl.value != "" && FindPackageJsonDirs(GitClone(repoUrl.value), env.root).Ok?
            ==> var g := GatherAll(FindPackageJsonDirs(GitClone(repoUrl.value), env.root).value, env, message);
                && (g.0.Err? ==> r == (ServerError(ScanFailed), g.1))
                && (g.0.Ok? ==> r.0.Success? && r.1 == g.1
                                && r.0.results.misconfigurations == g.0.value.misconfigurations
                                && r.0.results.vulnerabilities == g.0.value.vulnerabilities
                                && r.0.results.unwantedFiles == g.0.value.unwantedFiles)
  {
    if repoUrl.None? || repoUrl.value == "" then (BadRequest(RepoUrlRequired), message)
    else
      var clonePath := GitClone(repoUrl.value);
      var secretDataFound := SecretsBeneath(clonePath, env.root);
      match FindPackageJsonDirs(clonePath, env.root)
      case Err(_) => (ServerError(ScanFailed), message)
      case Ok(units) =>
        var (all, m) := GatherAll(units, env, message);
        match all
        case Err(_) => (ServerError(ScanFailed), m)
        case Ok(res) =>
          (Success(ScanResults(secretDataFound, res.misconfigurations, res.vulnerabilities, res.unwantedFiles)), m)
  }

  // ---------------------------------------------------------------------
  // Properties

  /** Running the units of `a + b` is running those of `a`, then those of
      `b` from where `a` left the global message, and appending. */
  lemma {:induction false} RunUnitsAppend(a: seq<Visit>, b: seq<Visit>, step: UnitStep, message: Option<string>)
    ensures var (ra, ma) := RunUnits(a, step, message);
            RunUnits(a + b, step, message) ==
              if ra.Err? then (ra, ma)
              else
                var (rb, mb) := RunUnits(b, step, ma);
                (if rb.Err? then rb else Ok(Append(ra.value, rb.value)), mb)
    decreases |a|
  {
    if |a| == 0 {
      assert a + b == b;
      var (rb, mb) := RunUnits(b, step, message);
      if rb.Ok? {
        assert Append(NoResults, rb.value) == rb.value;
      }
    } else {
      assert (a + b)[0] == a[0];
      assert (a + b)[1..] == a[1..] + b;
      var (first, m) := step(a[0], message);
      if first.Ok? {
        RunUnitsAppend(a[1..], b, step, m);
        var (rest, m') := RunUnits(a[1..], step, m);
        if rest.Ok? {
          var (rb, mb) := RunUnits(b, step, m');
          if rb.Ok? {
            assert Append(Append(first.value, rest.value), rb.value) == Append(first.value, Append(rest.value, rb.value));
          }
        }
      }
    }
  }

  /** A unit that rejects whatever the global message fails the whole loop. */
  lemma {:induction false} RejectingUnitFails(units: seq<Visit>, step: UnitStep, message: Option<string>, k: nat)
    requires k < |units|
    requires forall m :: step(units[k], m).0.Err?
    ensures RunUnits(units, step, message).0.Err?
    decreases |units|
  {
    if k > 0 {
      var (first, m) := step(units[0], message);
      if first.Ok? {
        assert units[1..][k - 1] == units[k];
        RejectingUnitFails(units[1..], step, m, k - 1);
      }
    }
  }

  /** Unparsable audit output in any unit fails the unit loop: the
      vulnerability check runs first in every unit and does not depend on
      the global message. */
  lemma UnparsableAuditFailsLoop(units: seq<Visit>, env: Environment, message: Option<string>, k: nat)
    requires k < |units|
    requires env.parse(env.audit(units[k].path).stdout).Unparsable?
    ensures GatherAll(units, env, message).0.Err?
  {
    forall m: Option<string>
      ensures StepOf(env)(units[k], m).0.Err?
    {
      var r := GatherResults(units[k].path, units[k].node, env, m);
    }
    RejectingUnitFails(units, StepOf(env), message, k);
  }

  /** The units the handler finds for a non-empty URL whose discovery
      succeeds. */
  function UnitsOf(repoUrl: string, env: Environment): seq<Visit>
    requires FindPackageJsonDirs(GitClone(repoUrl), env.root).Ok?
  {
    FindPackageJsonDirs(GitClone(repoUrl), env.root).value
  }

  /** Unparsable audit output in any discovered unit makes the response
      a 500. */
  lemma UnparsableAuditFails(repoUrl: string, env: Environment, message: Option<string>, k: nat)
    requires repoUrl != "" && FindPackageJsonDirs(GitClone(repoUrl), env.root).Ok?
    requires k < |UnitsOf(repoUrl, env)|
    requires env.parse(env.audit(UnitsOf(repoUrl, env)[k].path).stdout).Unparsable?
    ensures ScanRepository(Some(repoUrl), env, message).0 == ServerError(ScanFailed)
  {
    UnparsableAuditFailsLoop(UnitsOf(repoUrl, env), env, message, k);
  }

  /** A discovered unit holding one of the three configuration files as a
      directory, or unreadable, makes the response a 500, whatever the
      global message holds when that unit is reached. */
  lemma UnreadableConfigFails(repoUrl: string, env: Environment, message: Option<string>, k: nat, j: nat)
    requires repoUrl != "" && FindPackageJsonDirs(GitClone(repoUrl), env.root).Ok?
    requires k < |UnitsOf(repoUrl, env)| && j < |MisconfigFiles|
    requires var t := Lookup(UnitsOf(repoUrl, env)[k].node, MisconfigFiles[j]);
             t.Some? && (t.value.Dir? || !t.value.readable)
    ensures ScanRepository(Some(repoUrl), env, message).0 == ServerError(ScanFailed)
  {
    UnreadableConfigFailsLoop(UnitsOf(repoUrl, env), env, message, k, j);
  }

  /** A unit holding a configuration file that cannot be read fails the
      unit loop, whatever the global message holds when it is reached. */
  lemma UnreadableConfigFailsLoop(units: seq<Visit>, env: Environment, message: Option<string>, k: nat, j: nat)
    requires k < |units| && j < |MisconfigFiles|
    requires var t := Lookup(units[k].node, MisconfigFiles[j]);
             t.Some? && (t.value.Dir? || !t.value.readable)
    ensures GatherAll(units, env, message).0.Err?
  {
    forall m: Option<string>
      ensures StepOf(env)(units[k], m).0.Err?
    {
      UnreadableFileRejects(units[k].path, units[k].node, m, j);
    }
    RejectingUnitFails(units, StepOf(env), message, k);
  }

  /** The unwanted-file lists of all units, concatenated. */
  function UnwantedOfUnits(units: seq<Visit>): seq<string>
  {
    if |units| == 0 then [] else ScanDirectoryForUnwantedFiles(units[0].path, units[0].node) + UnwantedOfUnits(units[1..])
  }

  /** The unwanted files of a successful scan are every unit's list,
      concatenated without removing duplicates: a unit nested in another is
      scanned once as part of the outer unit and once on its own. */
  lemma {:induction false} UnwantedConcatenated(units: seq<Visit>, env: Environment, message: Option<string>)
    requires GatherAll(units, env, message).0.Ok?
    ensures GatherAll(units, env, message).0.value.unwantedFiles == UnwantedOfUnits(units)
    decreases |units|
  {
    if |units| > 0 {
      var (first, m) := GatherResults(units[0].path, units[0].node, env, message);
      UnwantedConcatenated(units[1..], env, m);
    }
  }

  /** The vulnerabilities of all units, each unit's with its blame. A unit
      whose audit fails contributes nothing, but then the scan fails. */
  function VulnsOfUnits(units: seq<Visit>, env: Environment): seq<Vulnerability>
  {
    if |units| == 0 then []
    else
      var cv := CheckVulnerabilities(units[0].path, env.audit(units[0].path), env.parse);
      (if cv.Ok? then BlameAll(units[0].path, cv.value, env) else []) + VulnsOfUnits(units[1..], env)
  }

  /** The vulnerabilities of a successful scan are every unit's findings
      with blame attached, concatenated in unit order. */
  lemma {:induction false} VulnerabilitiesConcatenated(units: seq<Visit>, env: Environment, message: Option<string>)
    requires GatherAll(units, env, message).0.Ok?
    ensures GatherAll(units, env, message).0.value.vulnerabilities == VulnsOfUnits(units, env)
    decreases |units|
  {
    if |units| > 0 {
      var (first, m) := GatherResults(units[0].path, units[0].node, env, message);
      VulnerabilitiesConcatenated(units[1..], env, m);
    }
  }

  /** The misconfigurations of all units with blank blame, the global
      message carried from each unit's check to the next; also the
      message left at the end. */
  function MisconfigsOfUnits(units: seq<Visit>, message: Option<string>): (seq<Misconfiguration>, Option<string>)
  {
    if |units| == 0 then ([], message)
    else
      var (mc, m) := CheckMisconfigurations(units[0].path, units[0].node, message);
      var (rest, m') := MisconfigsOfUnits(units[1..], m);
      ((if mc.Ok? then EmptyBlame(mc.value) else []) + rest, m')
  }

  /** The misconfigurations of a successful scan are every unit's findings,
      with blank blame, concatenated in unit order, each unit's check
      starting from the message the previous one left; the scan leaves the
      message the last check left. */
  lemma {:induction false} MisconfigurationsConcatenated(units: seq<Visit>, env: Environment, message: Option<string>)
    requires GatherAll(units, env, message).0.Ok?
    ensures GatherAll(units, env, message).0.value.misconfigurations == MisconfigsOfUnits(units, message).0
    ensures GatherAll(units, env, message).1 == MisconfigsOfUnits(units, message).1
    decreases |units|
  {
    if |units| > 0 {
      var (first, m) := GatherResults(units[0].path, units[0].node, env, message);
      MisconfigurationsConcatenated(units[1..], env, m);
    }
  }

  /** Every misconfiguration of a successful scan has empty blame, and
      every vulnerability has some blame text. */
  lemma {:induction false} BlameAttached(units: seq<Visit>, env: Environment, message: Option<string>)
    requires GatherAll(units, env, message).0.Ok?
    ensures forall m :: m in GatherAll(units, env, message).0.value.misconfigurations ==> m.blame == Some("")
    ensures forall v :: v in GatherAll(units, env, message).0.value.vulnerabilities ==> v.blame.Some?
    decreases |units|
  {
    if |units| > 0 {
      var (first, m) := GatherResults(units[0].path, units[0].node, env, message);
      BlameAttached(units[1..], env, m);
    }
  }

  /** What is left of the loop's outcome once `acc` has been collected. */
  function Continue(acc: UnitResults, r: (Result<UnitResults, UnitError>, Option<string>))
    : (Result<UnitResults, UnitError>, Option<string>)
  {
    (if r.0.Err? then r.0 else Ok(Append(acc, r.0.value)), r.1)
  }

  lemma AppendAssociative(a: UnitResults, b: UnitResults, c: UnitResults)
    ensures Append(Append(a, b), c) == Append(a, Append(b, c))
  {
    assert (a.vulnerabilities + b.vulnerabilities) + c.vulnerabilities == a.vulnerabilities + (b.vulnerabilities + c.vulnerabilities);
  }

  /** The unit loop of the handler, with the same outcome as `RunUnits`. */
  method RunUnitsLoop(units: seq<Visit>, step: UnitStep, message: Option<string>)
    returns (outcome: Result<UnitResults, UnitError>, message': Option<string>)
    ensures (outcome, message') == RunUnits(units, step, message)
  {
    var acc := NoResults;
    message' := message;
    var i := 0;
    assert units[i..] == units;
    var all := RunUnits(units, step, message);
    if all.0.Ok? {
      assert Append(NoResults, all.0.value) == all.0.value;
    }
    while i < |units|
      invariant i <= |units|
      invariant RunUnits(units, step, message) == Continue(acc, RunUnits(units[i..], step, message'))
    {
      var (here, m) := step(units[i], message');
      assert units[i..][0] == units[i] && units[i..][1..] == units[i + 1..];
      if here.Err? {
        outcome := Err(here.error);
        message' := m;
        return;
      }
      var rest := RunUnits(units[i + 1..], step, m);
      if rest.0.Ok? {
        AppendAssociative(acc, here.value, rest.0.value);
      }
      acc := Append(acc, here.value);
      message' := m;
      i := i + 1;
    }
    assert units[i..] == [];
    assert Append(acc, NoResults) == acc;
    outcome := Ok(acc);
  }

  /** The handler with the secret scan run as the stack walk, and the
      unit loop as a loop. */
  method Scan(repoUrl: Option<string>, env: Environment, message: Option<string>)
    returns (response: Response, message': Option<string>)
    ensures (response, message') == ScanRepository(repoUrl, env, message)
  {
    if repoUrl.None? || repoUrl.value == "" {
      return BadRequest(RepoUrlRequired), message;
    }
    var clonePath := GitClone(repoUrl.value);
    var secretDataFound := ScanForSecrets(clonePath, env.root);
    var dirs := FindPackageJsonDirs(clonePath, env.root);
    if dirs.Err? {
      return ServerError(ScanFailed), message;
    }
    var all;
    all, message' := RunUnitsLoop(dirs.value, StepOf(env), message);
    if all.Err? {
      return ServerError(ScanFailed), message';
    }
    response := Success(ScanResults(secretDataFound, all.value.misconfigurations, all.value.vulnerabilities,
                                    all.value.unwantedFiles));
  }
}
