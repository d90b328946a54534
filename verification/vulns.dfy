/** The dependency-vulnerability check: the JSON report of `npm audit`
    turned into one finding per reported package. The process run and
    `JSON.parse` are parameters; only the process's standard output is
    used. */
module Vulns {
  import opened Wrappers
  import opened Text

  const NoFixAvailable: string := "No fix available"
  const ParseFailure: string := "Failed to parse npm audit output."
  const DefaultGuidance: string := "Refer to the documentation for more details."

  /** The report's `fixAvailable`: `false`, or something truthy whose
      `version` may be missing (`true` itself has none). */
  datatype FixAvailable = NoFix | Fix(version: Option<string>)

  /** One package entry of the report; absent fields are `None`. */
  datatype PkgInfo = PkgInfo(name: Option<string>, severity: Option<string>, range: Option<string>, fixAvailable: FixAvailable)

  /** What `JSON.parse` makes of the output: a throw, or a value whose
      `vulnerabilities` member is missing or falsy (`None`) or lists
      (package key, entry) pairs in key order, an entry `None` for JSON
      `null`. */
  datatype AuditJson = Unparsable | Parsed(vulnerabilities: Option<seq<(string, Option<PkgInfo>)>>)

  /** The result of running `npm audit --json` in a directory. */
  datatype AuditRun = AuditRun(stdout: string, stderr: string, failed: bool)

  /** One vulnerability finding; `undefined` fields are `None`. The
      controller fills in `blame` later. */
  datatype Vulnerability = Vulnerability(
    name: Option<string>, severity: Option<string>, range: Option<string>, filepath: string,
    fixAvailable: Option<string>, guidance: Option<string>, blame: Option<string>)

  /** Why the check rejects: unparsable output, or a `null` entry whose
      fields cannot be read. */
  datatype VulnError = ParseFailed(message: string) | NullEntry(key: string)

  /** The object `getResolutionGuidance` switches on; each field may be
      `undefined`. */
  datatype Issue = Issue(kind: Option<string>, name: Option<string>, fixAvailable: Option<string>,
                         file: Option<string>, filePath: Option<string>)

  predicate KnownKind(kind: Option<string>)
  {
    kind == Some("vulnerability") || kind == Some("misconfiguration") || kind == Some("unwanted-file")
  }

  const UpgradeHead: string := "Upgrade "
  const UpgradeMiddle: string := " to version "
  const UpgradeTail: string := " to resolve the issue."
  const UpdateHead: string := "Update "
  const UpdateTail: string := " to remove insecure settings. For example, avoid setting 'debug=true' in production."
  const RemoveHead: string := "Remove unwanted file: "
  const RemoveTail: string := ". It's generally a good practice to keep configuration files like .env, .git, etc., out of version control."

  /** The upgrade advice names the package and the version. */
  function UpgradeGuidance(name: string, fix: string): (g: string)
    ensures g != DefaultGuidance && Includes(g, name) && Includes(g, fix)
  {
    var g := UpgradeHead + name + UpgradeMiddle + fix + UpgradeTail;
    assert g[0] != DefaultGuidance[0];
    assert g == UpgradeHead + name + (UpgradeMiddle + fix + UpgradeTail);
    IncludesWithin(UpgradeHead, name, UpgradeMiddle + fix + UpgradeTail, name);
    assert g == (UpgradeHead + name + UpgradeMiddle) + fix + UpgradeTail;
    IncludesWithin(UpgradeHead + name + UpgradeMiddle, fix, UpgradeTail, fix);
    g
  }

  function UpdateGuidance(file: string): (g: string)
    ensures g != DefaultGuidance && Includes(g, file)
  {
    var g := UpdateHead + file + UpdateTail;
    assert g[0] != DefaultGuidance[0];
    IncludesWithin(UpdateHead, file, UpdateTail, file);
    g
  }

  function RemoveGuidance(filePath: string): (g: string)
    ensures g != DefaultGuidance && Includes(g, filePath)
  {
    var g := RemoveHead + filePath + RemoveTail;
    assert g[2] != DefaultGuidance[2];
    IncludesWithin(RemoveHead, filePath, RemoveTail, filePath);
    g
  }

  /** The guidance text for an issue, chosen by its `type`. */
  function GetResolutionGuidance(issue: Issue): (g: string)
    ensures g == DefaultGuidance <==> !KnownKind(issue.kind)
    ensures issue.kind == Some("vulnerability") ==>
              Includes(g, Interpolate(issue.name)) && Includes(g, Interpolate(issue.fixAvailable))
    ensures issue.kind == Some("misconfiguration") ==> Includes(g, Interpolate(issue.file))
    ensures issue.kind == Some("unwanted-file") ==> Includes(g, Interpolate(issue.filePath))
  {
    match issue.kind
    case Some("vulnerability") => UpgradeGuidance(Interpolate(issue.name), Interpolate(issue.fixAvailable))
    case Some("misconfiguration") => UpdateGuidance(Interpolate(issue.file))
    case Some("unwanted-file") => RemoveGuidance(Interpolate(issue.filePath))
    case _ => DefaultGuidance
  }

  /** The value stored as `fixAvailable`: the version when a fix is
      reported (possibly `undefined`), the fixed text otherwise. */
  function FixField(f: FixAvailable): (r: Option<string>)
    ensures f.NoFix? ==> r == Some(NoFixAvailable)
    ensures f.Fix? ==> r == f.version
  {
    match f
    case NoFix => Some(NoFixAvailable)
    case Fix(v) => v
  }

  /** The finding built from one entry, before any guidance or blame. */
  function Build(clonePath: string, info: PkgInfo): Vulnerability
  {
    Vulnerability(info.name, info.severity, info.range, clonePath, FixField(info.fixAvailable), None, None)
  }

  /** Vulnerability objects have no `type`, so the guidance switch sees an
      unknown kind. */
  function IssueOf(v: Vulnerability): Issue
  {
    Issue(None, v.name, v.fixAvailable, None, None)
  }

  /** The inner loop: guidance assigned to every finding collected so far. */
  function WithGuidance(vs: seq<Vulnerability>): (r: seq<Vulnerability>)
    ensures |r| == |vs|
    ensures forall i :: 0 <= i < |vs| ==> r[i] == vs[i].(guidance := Some(DefaultGuidance))
  {
    if |vs| == 0 then []
    else [vs[0].(guidance := Some(GetResolutionGuidance(IssueOf(vs[0]))))] + WithGuidance(vs[1..])
  }

  /** The finding an entry yields in a list of `n`, at position `i`: the
      guidance loop runs before the push, so every finding but the last one
      is given the default guidance and the last one none. */
  function Expected(clonePath: string, info: PkgInfo, i: nat, n: nat): Vulnerability
  {
    Build(clonePath, info).(guidance := if i + 1 < n then Some(DefaultGuidance) else None)
  }

  predicate AllPresent(entries: seq<(string, Option<PkgInfo>)>)
  {
    forall i :: 0 <= i < |entries| ==> entries[i].1.Some?
  }

  /** The outer loop over the entries, as a fold from the left. */
  function Collect(clonePath: string, entries: seq<(string, Option<PkgInfo>)>): (r: Result<seq<Vulnerability>, VulnError>)
    ensures r.Ok? <==> AllPresent(entries)
    ensures r.Err? ==> r.error.NullEntry?
    ensures r.Ok? ==> |r.value| == |entries|
    ensures r.Ok? ==> forall i :: 0 <= i < |entries| ==>
              r.value[i] == Expected(clonePath, entries[i].1.value, i, |entries|)
    decreases |entries|
  {
    if |entries| == 0 then Ok([])
    else
      var init := entries[..|entries| - 1];
      var last := entries[|entries| - 1];
      assert AllPresent(entries) ==> AllPresent(init);
      match Collect(clonePath, init)
      case Err(e) => Err(e)
      case Ok(vs) =>
        if last.1.None? then Err(NullEntry(last.0))
        else
          var r := WithGuidance(vs) + [Build(clonePath, last.1.value)];
          assert forall i :: 0 <= i < |init| ==> init[i] == entries[i];
          Ok(r)
  }

  /** `checkVulnerabilities(clonePath)`, given the audit run in that
      directory and the parser. */
  function CheckVulnerabilities(clonePath: string, run: AuditRun, parse: string -> AuditJson)
    : (r: Result<seq<Vulnerability>, VulnError>)
    ensures r == Err(ParseFailed(ParseFailure)) <==> parse(run.stdout).Unparsable?
    ensures parse(run.stdout).Parsed? && parse(run.stdout).vulnerabilities.None? ==> r == Ok([])
    ensures r.Ok? ==> forall v :: v in r.value ==> v.filepath == clonePath && v.blame.None?
  {
    match parse(run.stdout)
    case Unparsable => Err(ParseFailed(ParseFailure))
    case Parsed(None) => Ok([])
    case Parsed(Some(entries)) =>
      Collect(clonePath, entries)
  }

  // ---------------------------------------------------------------------
  // Properties

  /** The exit status and the error stream of `npm audit` never matter. */
  lemma OnlyStdoutMatters(clonePath: string, a: AuditRun, b: AuditRun, parse: string -> AuditJson)
    requires a.stdout == b.stdout
    ensures CheckVulnerabilities(clonePath, a, parse) == CheckVulnerabilities(clonePath, b, parse)
  {
  }

  /** One finding per reported package, in report order, with the entry's
      fields; the last finding carries no guidance, all earlier ones the
      default text. */
  lemma FindingsFollowReport(clonePath: string, run: AuditRun, parse: string -> AuditJson)
    requires parse(run.stdout).Parsed? && parse(run.stdout).vulnerabilities.Some?
    requires AllPresent(parse(run.stdout).vulnerabilities.value)
    ensures var es := parse(run.stdout).vulnerabilities.value;
            var r := CheckVulnerabilities(clonePath, run, parse);
            && r.Ok? && |r.value| == |es|
            && (forall i :: 0 <= i < |es| ==>
                  && r.value[i].name == es[i].1.value.name
                  && r.value[i].severity == es[i].1.value.severity
                  && r.value[i].range == es[i].1.value.range
                  && r.value[i].fixAvailable == FixField(es[i].1.value.fixAvailable))
            && (|es| > 0 ==> r.value[|es| - 1].guidance.None?)
            && (forall i :: 0 <= i < |es| - 1 ==> r.value[i].guidance == Some(DefaultGuidance))
  {
  }

  /** A `null` entry anywhere in the report makes the check reject. */
  lemma NullEntryRejects(clonePath: string, run: AuditRun, parse: string -> AuditJson, k: nat)
    requires parse(run.stdout).Parsed? && parse(run.stdout).vulnerabilities.Some?
    requires k < |parse(run.stdout).vulnerabilities.value|
    requires parse(run.stdout).vulnerabilities.value[k].1.None?
    ensures CheckVulnerabilities(clonePath, run, parse).Err?
  {
  }

  /** A fix reported as plain `true` has no version: the finding's
      `fixAvailable` is `undefined`. */
  lemma TrueFixHasNoVersion(clonePath: string, info: PkgInfo)
    requires info.fixAvailable == Fix(None)
    ensures Build(clonePath, info).fixAvailable.None?
  {
  }
}
