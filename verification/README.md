# Git repository security scanner — backend scan core in Dafny

This project models the backend of a repository security scanner. Given a
repository URL, the scanner clones the repository under `/tmp`. It then
scans the clone for files that mention secret keywords, and finds the
project units: the directories below the root that hold a
`package.json`. For each unit, in discovery order, it runs three checks:

- `npm audit` vulnerabilities, with `git blame` information;
- misconfigured `.env` / `config.json` / `settings.yml` files;
- unwanted files, found by path-substring patterns.

The results are returned as one JSON body. A missing or empty URL gives
status 400. The scan answers status 500 when something it awaits rejects:

- unit discovery meets a directory it cannot list or an entry it cannot
  stat;
- a unit's audit output cannot be parsed, or its report holds a `null`
  entry;
- a unit's `.env`, `config.json` or `settings.yml` is a directory or
  unreadable, or is read while the global `message` has never been
  assigned and no condition holds.

A failing `git blame` does not fail the scan: the vulnerability gets a
fallback text instead. The secret scan and the unwanted-file scan never
fail.

Some inputs are replaced, so the model is pure and deterministic:

- The file system is an immutable tree (`FsTree.Node`): files with
  content, a mode and a readability flag; directories with an ordered
  listing and a listability flag; symbolic links that are possibly
  dangling; and entries that vanish between `readdir` and `stat`.
- The `npm audit` and `git blame` processes and `JSON.parse` are given
  as functions in an `Environment`.
- The module-global `message` that the misconfiguration check assigns
  without declaring is passed in and out as `Option<string>`. `None`
  means it has never been assigned.

The modules follow the source files:

| module | file | content |
|---|---|---|
| `Wrappers` | — | `Option`, `Result` |
| `Text` | — | the JavaScript string operations used: `indexOf`, `includes`, `split`, `replace`, template interpolation |
| `FsTree` | — | the tree, `stat`/`readdir`/name lookup, `path.join`, path facts |
| `Walk` | — | the tolerant, link-following pre-order walk shared by two scans, and its no-repeat/ancestor-first order |
| `Unwanted` | `services/unwantedFiles.js` | unwanted-file patterns and scan |
| `PackageDirs` | `utils/findPackageJsonDirs.js` | project-unit discovery |
| `Secrets` | `services/scanForSecrets.js` | the explicit-stack secret walk, with the global regex's `lastIndex` |
| `Misconfig` | `services/checkMisconfigurations.js` | the misconfiguration check and its global `message` |
| `Vulns` | `services/checkVulnerabilities.js` | audit-report normalisation and `getResolutionGuidance` |
| `Blame` | `services/gitBlame.js` | choosing the blame line and extracting its parenthesised group |
| `Clone` | `services/gitClone.js` | naming the clone path |
| `Controller` | `controller/scanRepositoryController.js` | `scanRepository`, `gatherResults` |

Each detector has two forms, related by lemmas:

- a form that follows the code;
- an independent reference, for example "the reached paths that contain a
  pattern, in walk order" or "the stack scanned top first".

The secret walk is a `method` whose loop carries the invariant
`found + SecretsOfStack(stack) == SecretsBeneath(root)`. Its termination
measure is the total size of the stack.

## Behaviour that differs from the documented design

The system's design description promises some things the code does not do.
The model follows the code:

- The starting directory of unit discovery is never a unit itself, even
  when it holds `package.json` (`PackageDirs.UnitsAreStrictDescendants`).
- Secret findings do not record which keywords matched.
- Their `blame` is always `""`, because it is captured before any blame
  callback runs.
- Resolution guidance does not depend on severity. Vulnerability objects
  have no `type`, so every finding but the last gets the default text and
  the last gets none (`Vulns.Collect`).
- Starred unwanted patterns such as `*.bak` are literal substrings, not
  suffix globs (`Unwanted.StarPatternsAreLiteral`).
- A path matching several patterns is reported once, without naming the
  pattern.
- There are no per-category error flags. A discovery error
  (`Controller.ScanRepository`), an unparsable audit
  (`Controller.UnparsableAuditFails`) or an unreadable configuration file
  (`Controller.UnreadableConfigFails`) fails the whole scan with status 500
  and no partial result, not even the secrets already found.
- A blame failure gives the text `Error retrieving blame info: undefined`,
  not an absent value.

## Model

| member | source | states |
|---|---|---|
| Text.IndexOfFrom | git-security-scanner-backend/services/unwantedFiles.js:31 | the result is the leftmost occurrence of the pattern at or after the start index, and it is absent only when there is no occurrence there |
| Text.Includes | git-security-scanner-backend/services/checkMisconfigurations.js:22 | `includes` holds exactly when the pattern occurs at some index: a literal test with no wildcards |
| Text.Split | git-security-scanner-backend/services/gitBlame.js:17 | `split` yields at least one piece, and no piece contains the separator |
| Text.JoinSplit | git-security-scanner-backend/services/gitBlame.js:17 | joining the pieces of a split with the separator gives the original string back |
| Text.SplitJoin | git-security-scanner-backend/services/gitClone.js:8 | splitting a join of separator-free pieces gives the pieces back |
| Text.ReplaceFirst | git-security-scanner-backend/services/gitClone.js:8 | `replace` with a string leaves a string without the pattern unchanged, and otherwise changes the length by the length difference of one replacement |
| Text.ReplaceFirstUndo | git-security-scanner-backend/services/gitClone.js:8 | putting the pattern back where the replacement went restores the original string: only the leftmost occurrence is replaced |
| Text.SplitLast | git-security-scanner-backend/services/gitClone.js:8 | the last piece of a split is the text after the last separator |
| FsTree.Stat | git-security-scanner-backend/services/unwantedFiles.js:29 | `stat` follows links to a file or directory no larger than the entry, and fails on vanished entries and dangling links |
| FsTree.ReadDir | git-security-scanner-backend/utils/findPackageJsonDirs.js:7 | `readdir` succeeds only on something that stats as a listable directory, and its entries are strictly smaller than it |
| FsTree.Lookup | git-security-scanner-backend/services/checkMisconfigurations.js:17-18 | a name resolves inside a directory only to a file or directory that the directory lists under that name, after following links |
| FsTree.Join | git-security-scanner-backend/utils/findPackageJsonDirs.js:10 | the joined path extends the directory path |
| FsTree.UnderDistinct | git-security-scanner-backend/utils/findPackageJsonDirs.js:10 | paths under two differently named entries of one directory differ, and neither lies beneath the other |
| Walk.Reached | git-security-scanner-backend/services/unwantedFiles.js:21-45 | the walk reaches only entries that stat as files or directories |
| Walk.Select | git-security-scanner-backend/utils/findPackageJsonDirs.js:13-15 | a visit is selected exactly when the walk reached it and the predicate keeps it |
| Walk.ReachedUnder | git-security-scanner-backend/services/unwantedFiles.js:28 | every reached path lies strictly beneath the start and ends in an entry name |
| Walk.ReachedPreOrdered | git-security-scanner-backend/services/unwantedFiles.js:31-38 | on a well-formed tree no path is reached twice, and each directory comes before everything beneath it |
| Walk.SelectPreOrdered | git-security-scanner-backend/utils/findPackageJsonDirs.js:13-19 | selecting visits keeps the no-repeat, ancestors-first order |
| Walk.ReachedClosed | git-security-scanner-backend/utils/findPackageJsonDirs.js:18 | everything reached beneath a reached directory is reached from the start |
| Unwanted.MatchesSome | git-security-scanner-backend/services/unwantedFiles.js:31 | a path matches exactly when one of the patterns occurs in it |
| Unwanted.ScanDirectoryForUnwantedFiles | git-security-scanner-backend/services/unwantedFiles.js:21-45 | every reported path contains a pattern and extends the starting path, and the scan never fails |
| Unwanted.ScanFiles | git-security-scanner-backend/services/unwantedFiles.js:27-39 | every path reported from one listing contains a pattern and extends the directory path |
| Unwanted.ScanSelectsReached | git-security-scanner-backend/services/unwantedFiles.js:21-45 | the scan reports exactly the reached paths that contain a pattern, in walk order |
| Unwanted.ReportedIff | git-security-scanner-backend/services/unwantedFiles.js:31-33 | a path is reported if and only if the walk reaches it and it contains one of the 14 patterns |
| Unwanted.ReportedOnceInPreOrder | git-security-scanner-backend/services/unwantedFiles.js:31-38 | each path is reported at most once, with a directory before everything beneath it |
| Unwanted.PrefixMatchReportsAll | git-security-scanner-backend/services/unwantedFiles.js:28-31 | when the starting path itself contains a pattern, every reached entry is reported |
| Unwanted.StarPatternsAreLiteral | git-security-scanner-backend/services/unwantedFiles.js:13-16 | on a path without a literal `*`, the four starred patterns never decide anything |
| Unwanted.SlashPatternNeedsParent | git-security-scanner-backend/services/unwantedFiles.js:28-31 | a slash-terminated pattern found in a joined path lies wholly in the directory part, so it never matches the directory entry itself |
| Unwanted.NodeModulesEntriesReported | git-security-scanner-backend/services/unwantedFiles.js:8 | a `node_modules` directory is not reported for its own name, but every entry beneath it is |
| Unwanted.StatFailureSkipsRest | git-security-scanner-backend/services/unwantedFiles.js:24-44 | a failing `stat` keeps what the listing collected before it and skips the siblings after it |
| PackageDirs.FindPackageJsonDirs | git-security-scanner-backend/utils/findPackageJsonDirs.js:4-23 | every unit returned is a directory holding `package.json`, beneath the starting path |
| PackageDirs.FindIn | git-security-scanner-backend/utils/findPackageJsonDirs.js:9-20 | every unit found from one listing is a directory holding `package.json`, beneath that directory |
| PackageDirs.FindSucceedsIffIntact | git-security-scanner-backend/utils/findPackageJsonDirs.js:7-11 | discovery succeeds if and only if every directory reached lists and every listed entry stats: errors propagate |
| PackageDirs.FindSelectsReached | git-security-scanner-backend/utils/findPackageJsonDirs.js:9-19 | on success the units are exactly the reached directories that hold `package.json`, in walk order |
| PackageDirs.UnitIff | git-security-scanner-backend/utils/findPackageJsonDirs.js:13-16 | a visit is a unit if and only if it is reached, is a directory, and holds `package.json`; files never are |
| PackageDirs.UnitsAreStrictDescendants | git-security-scanner-backend/utils/findPackageJsonDirs.js:9-18 | every unit lies strictly beneath the start, so the starting directory is never a unit |
| PackageDirs.UnitsOnceInPreOrder | git-security-scanner-backend/utils/findPackageJsonDirs.js:13-19 | nested units are all listed, each once, with a parent before the units nested in it |
| PackageDirs.LinkedDirectoryIsSearched | git-security-scanner-backend/utils/findPackageJsonDirs.js:11-18 | a link to a directory is searched exactly like that directory standing under the link's name |
| Secrets.KeywordAt | git-security-scanner-backend/services/scanForSecrets.js:6 | some alternative of the keyword regex matches at an index exactly when one of the four keywords occurs there |
| Secrets.MatchEndFrom | git-security-scanner-backend/services/scanForSecrets.js:6 | a regex search from an index succeeds exactly when some keyword occurs at or after it |
| Secrets.RegexTest | git-security-scanner-backend/services/scanForSecrets.js:22 | `test` on the global regex resets `lastIndex` to 0 on a miss, and from `lastIndex` 0 it answers whether a keyword occurs |
| Secrets.LocalFindings | git-security-scanner-backend/services/scanForSecrets.js:14-37 | each finding of a listing has `fullPath` equal to the directory joined with its name and `blame` equal to `""`, with at most one finding per entry |
| Secrets.Subdirs | git-security-scanner-backend/services/scanForSecrets.js:18-19 | only directories are pushed, and together they are smaller than the listing |
| Secrets.SecretsBeneath | git-security-scanner-backend/services/scanForSecrets.js:8-44 | in the reference definition of the walk, every finding has `blame` equal to `""` |
| Secrets.SecretsOfStackAppend | git-security-scanner-backend/services/scanForSecrets.js:9-10 | whatever was pushed later is scanned completely before whatever lies below it on the stack |
| Secrets.FailureSkipsRest | git-security-scanner-backend/services/scanForSecrets.js:12-43 | an entry whose `lstat` or read throws ends its listing: earlier findings and pushes stand, and later entries are not examined |
| Secrets.ExamineEntry | git-security-scanner-backend/services/scanForSecrets.js:15-38 | one entry pushes a directory, records a keyword file once, skips anything else, and leaves `lastIndex` at 0 |
| Secrets.ScanListing | git-security-scanner-backend/services/scanForSecrets.js:12-43 | the loop over a listing records the listing's findings and pushes its subdirectories, up to the first entry that throws |
| Secrets.ScanTop | git-security-scanner-backend/services/scanForSecrets.js:9-44 | one turn of the `while` loop keeps found-plus-pending equal and shrinks the stack's total size |
| Secrets.ScanForSecrets | git-security-scanner-backend/services/scanForSecrets.js:5-47 | the stack walk returns exactly the reference result, never throws, terminates on every finite tree, and leaves every `blame` empty |
| Secrets.KeywordFileYieldsFinding | git-security-scanner-backend/services/scanForSecrets.js:20-37 | a readable file with a keyword, examined before anything in its directory threw, yields a finding |
| Secrets.FindingsComeFromKeywordFiles | git-security-scanner-backend/services/scanForSecrets.js:20-37 | every finding comes from a readable file holding a keyword that was examined before anything in its directory threw |
| Secrets.OneFindingPerFile | git-security-scanner-backend/services/scanForSecrets.js:32-37 | in a listing with distinct names, no two findings share a path |
| Secrets.OneFindingPerWalk | git-security-scanner-backend/services/scanForSecrets.js:8-44 | over the whole walk of a well-formed tree no two findings share a path, and every finding lies strictly beneath the start |
| Secrets.OneFindingPerStack | git-security-scanner-backend/services/scanForSecrets.js:9-19 | from the subdirectories one listing pushes, no two findings share a path, and each lies under the subdirectory it came from |
| Secrets.LinksAreIgnored | git-security-scanner-backend/services/scanForSecrets.js:16-20 | links are neither followed nor read: removing one from a listing changes nothing |
| Secrets.EverySubdirectoryIsPushed | git-security-scanner-backend/services/scanForSecrets.js:18-19 | every subdirectory examined is pushed, `.git` included |
| Secrets.FailureKeepsPushedSubdirectories | git-security-scanner-backend/services/scanForSecrets.js:12-43 | an entry that throws costs only the rest of its own directory, and subdirectories pushed before it are still scanned |
| Secrets.FilesThenSiblingsReversed | git-security-scanner-backend/services/scanForSecrets.js:8-44 | for a listing of readable files followed by subdirectories: the files' findings come first in listing order, then each subdirectory is scanned completely, the last listed first (`ScanReversed`) |
| Secrets.StackOfDirectories | git-security-scanner-backend/services/scanForSecrets.js:9-19 | the stack pushed from a listing of subdirectories is scanned in reverse listing order, each directory completely |
| Secrets.LocalFindingsAppend | git-security-scanner-backend/services/scanForSecrets.js:14-37 | when nothing in `a` throws, the loop over `a + b` records what the loop over `a` records, then what the loop over `b` records |
| Secrets.SubdirsAppend | git-security-scanner-backend/services/scanForSecrets.js:14-19 | when nothing in `a` throws, the loop over `a + b` pushes what the loop over `a` pushes, then what the loop over `b` pushes |
| Secrets.SiblingsInReverseOrder | git-security-scanner-backend/services/scanForSecrets.js:8-19 | for a directory listing exactly two subdirectories `a, b`: `b` is scanned completely, then `a` |
| Misconfig.LastConditionWins | git-security-scanner-backend/services/checkMisconfigurations.js:21-50 | when condition `j` holds and none of the later ones do, the message becomes condition `j`'s text, whatever it was before |
| Misconfig.CheckMisconfigurations | git-security-scanner-backend/services/checkMisconfigurations.js:5-67 | on success the finding names are the listed files present in the unit, in list order, each with `filepath` equal to the unit path; each finding's message is what the five conditions make of that file's content and mode, starting from the previous finding's message or the incoming one; once assigned, `message` stays assigned |
| Misconfig.CheckFiles | git-security-scanner-backend/services/checkMisconfigurations.js:11-64 | for any way of updating `message`, every finding of the loop carries the unit path as `filepath` and no blame |
| Misconfig.CheckFilesLeavesLastMessage | git-security-scanner-backend/services/checkMisconfigurations.js:11-57 | for any way of updating `message`, the global `message` after a successful loop is the last finding's message, or the incoming one when nothing was found |
| Misconfig.CheckFilesMessages | git-security-scanner-backend/services/checkMisconfigurations.js:11-57 | for any way of updating `message`, each finding of a successful loop comes from a readable file present in the unit, and its message is the update applied to that file's name, content and mode and to the message left by the finding before it, or the incoming one for the first |
| Misconfig.CheckFilesUnreadableRejects | git-security-scanner-backend/services/checkMisconfigurations.js:11-18 | for any way of updating `message`, a listed file that is present but is a directory or unreadable makes the loop reject |
| Misconfig.UnreadableFileRejects | git-security-scanner-backend/services/checkMisconfigurations.js:17-18 | any of the three configuration files present as a directory or unreadable makes the check reject, whatever `message` holds |
| Misconfig.CheckFilesNames | git-security-scanner-backend/services/checkMisconfigurations.js:11-18 | for any way of updating `message`, a successful loop has one finding per listed file that exists, in list order |
| Misconfig.UpdateKeepsAssigned | git-security-scanner-backend/services/checkMisconfigurations.js:21-50 | each of the five conditions only ever assigns `message`, so an assigned `message` is never unassigned by a file |
| Misconfig.CheckFilesKeepsAssigned | git-security-scanner-backend/services/checkMisconfigurations.js:11-57 | with an update that never unassigns `message`, an assigned `message` is still assigned after the loop, whether or not the loop rejects |
| Misconfig.ConfigJsonNotChecked | git-security-scanner-backend/services/checkMisconfigurations.js:45 | `config.json` contains neither `.env` nor `.git`, so its permissions are never examined |
| Misconfig.SettingsNotChecked | git-security-scanner-backend/services/checkMisconfigurations.js:45 | `settings.yml` contains neither `.env` nor `.git`, so its permissions are never examined |
| Misconfig.NoConditionKeepsMessage | git-security-scanner-backend/services/checkMisconfigurations.js:22-56 | a file meeting no condition gets the message already in force |
| Misconfig.UnassignedMessageRejects | git-security-scanner-backend/services/checkMisconfigurations.js:52-56 | reading a never-assigned `message` for a clean `.env` rejects the call |
| Misconfig.MessageLeaksAcrossCalls | git-security-scanner-backend/services/checkMisconfigurations.js:22-56 | a clean `.env` in a later call repeats the message an earlier call left behind |
| Misconfig.EnvDirectoryRejects | git-security-scanner-backend/services/checkMisconfigurations.js:17-18 | an `.env` that is a directory makes the call reject: read errors are not caught |
| Misconfig.PortTestIsSubstring | git-security-scanner-backend/services/checkMisconfigurations.js:35 | content containing `port=8000` triggers the exposed-port message |
| Misconfig.PermissionTestOnlyForEnv | git-security-scanner-backend/services/checkMisconfigurations.js:45-49 | of the three files only `.env` gets the permission test, which fires exactly when `mode & 0o022` is non-zero |
| Vulns.UpgradeGuidance | git-security-scanner-backend/services/checkVulnerabilities.js:61 | the upgrade advice names the package and the version, and differs from the default text |
| Vulns.UpdateGuidance | git-security-scanner-backend/services/checkVulnerabilities.js:64 | the misconfiguration advice names the file, and differs from the default text |
| Vulns.RemoveGuidance | git-security-scanner-backend/services/checkVulnerabilities.js:67 | the unwanted-file advice names the path, and differs from the default text |
| Vulns.GetResolutionGuidance | git-security-scanner-backend/services/checkVulnerabilities.js:56-75 | the default text is returned if and only if `type` is not one of the three named kinds, and each named kind mentions its subject |
| Vulns.WithGuidance | git-security-scanner-backend/services/checkVulnerabilities.js:39-41 | every finding collected so far gets the default guidance and keeps all its other fields |
| Vulns.Collect | git-security-scanner-backend/services/checkVulnerabilities.js:29-44 | it rejects if and only if some entry is `null`; otherwise it gives one finding per entry, in entry order, from that entry's fields, with the default guidance on all but the last and none on the last |
| Vulns.CheckVulnerabilities | git-security-scanner-backend/services/checkVulnerabilities.js:3-54 | it rejects with "Failed to parse npm audit output." exactly when parsing fails; missing `vulnerabilities` gives no findings; every finding has the unit path and no blame |
| Vulns.OnlyStdoutMatters | git-security-scanner-backend/services/checkVulnerabilities.js:6-15 | the exit status and the error stream of `npm audit` never change the outcome |
| Vulns.FindingsFollowReport | git-security-scanner-backend/services/checkVulnerabilities.js:29-47 | one finding per reported package, in report order, with `pkgInfo.name`, severity, range and `fixAvailable` copied, and guidance on all but the last |
| Vulns.NullEntryRejects | git-security-scanner-backend/services/checkVulnerabilities.js:30-32 | a `null` entry anywhere in the report makes the check reject |
| Vulns.TrueFixHasNoVersion | git-security-scanner-backend/services/checkVulnerabilities.js:36 | a `fixAvailable` of plain `true` gives an `undefined` fix version |
| Blame.CloseFrom | git-security-scanner-backend/services/gitBlame.js:26 | the lazy group ends at the first `)`, and only if no line terminator comes before it |
| Blame.MatchFrom | git-security-scanner-backend/services/gitBlame.js:26 | the match is the leftmost `(` that can be closed, together with the first `)` after it; no earlier `(` can match |
| Blame.Group | git-security-scanner-backend/services/gitBlame.js:26-28 | there is no group exactly when no `(`…`)` pair without a line terminator exists; otherwise the group is the text strictly between the leftmost `(` that has such a close and the first `)` after it |
| Blame.FirstLineWith | git-security-scanner-backend/services/gitBlame.js:21-23 | the chosen line is the first that includes the pattern |
| Blame.Report | git-security-scanner-backend/services/gitBlame.js:37 | the report names both the package and the group, and differs from both `""` and "No match found" |
| Blame.BlameOfLines | git-security-scanner-backend/services/gitBlame.js:17-47 | the output is `""` exactly when no line includes the pattern |
| Blame.GetGitBlame | git-security-scanner-backend/services/gitBlame.js:4-55 | a non-empty error stream rejects, taking precedence over a process error; otherwise a process error rejects; the call succeeds exactly when neither happens, and then resolves to the report on the output's lines |
| Blame.FirstMentionDecides | git-security-scanner-backend/services/gitBlame.js:21-44 | lines after the first one that includes the pattern are never looked at |
| Blame.ReportNamesGroup | git-security-scanner-backend/services/gitBlame.js:26-42 | the chosen line's group is reported, or "No match found" when it has none |
| Blame.CarriageReturnBlocksGroup | git-security-scanner-backend/services/gitBlame.js:26 | a carriage return between `(` and `)` defeats the group |
| Clone.RepoName | git-security-scanner-backend/services/gitClone.js:8 | the repository name never contains `/` |
| Clone.GitClone | git-security-scanner-backend/services/gitClone.js:5-18 | the clone path is `/tmp/` followed by the repository name taken from the URL (`RepoName`), a name without `/`: a direct child of `/tmp` |
| Clone.CloneOfGitUrl | git-security-scanner-backend/services/gitClone.js:8-9 | a URL ending in `/<name>.git`, for a name without `/` or `.git`, is cloned to `/tmp/<name>` |
| Clone.NameOfGitUrl | git-security-scanner-backend/services/gitClone.js:8-9 | a URL ending in `/<name>.git` names the clone `<name>` when the name has no `.git` of its own |
| Clone.NameOfLastPiece | git-security-scanner-backend/services/gitClone.js:8 | the name depends only on the text after the last `/` |
| Clone.OnlyFirstSuffixRemoved | git-security-scanner-backend/services/gitClone.js:8 | `a.git.git` is cloned as `a.git` |
| Clone.InnerGitRemoved | git-security-scanner-backend/services/gitClone.js:8 | `a.github` is cloned as `ahub` |
| Clone.TrailingSlashClonesIntoTmp | git-security-scanner-backend/services/gitClone.js:8-9 | a URL ending in `/` gives the clone path `/tmp/` |
| Controller.WithBlame | git-security-scanner-backend/controller/scanRepositoryController.js:52-59 | a vulnerability always gets some blame text and nothing else changes; a blame run with an error stream or a process error gives the fallback text, and a clean run gives the report on its output for the package name |
| Controller.GatherResults | git-security-scanner-backend/controller/scanRepositoryController.js:46-87 | the audit check runs first, and an unparsable audit rejects before the misconfiguration check touches `message`; otherwise the outcome and the final `message` are the misconfiguration check's; on success the vulnerabilities are the audit's findings each with its blame attached (`BlameAll`), the misconfigurations are the check's findings with blame `""`, and the unwanted files are the unit's scan unchanged |
| Controller.VulnerabilitiesConcatenated | git-security-scanner-backend/controller/scanRepositoryController.js:31-60 | when the unit loop succeeds, its vulnerabilities are every unit's blamed audit findings, concatenated in unit order (`VulnsOfUnits`) |
| Controller.MisconfigurationsConcatenated | git-security-scanner-backend/controller/scanRepositoryController.js:31-70 | when the unit loop succeeds, its misconfigurations are every unit's check findings with blame `""`, concatenated in unit order, and its final `message` is the one threaded through the checks (`MisconfigsOfUnits`) |
| Controller.ScanRepository | git-security-scanner-backend/controller/scanRepositoryController.js:9-44 | the response is 400 if and only if the URL is missing or empty; a discovery error gives 500 with `message` untouched; otherwise a unit that rejects gives 500, and a loop that completes gives the loop's misconfigurations, vulnerabilities and unwanted files, the secrets beneath the clone root, and the `message` the loop left |
| Controller.RunUnitsAppend | git-security-scanner-backend/controller/scanRepositoryController.js:31-36 | running the units of `a + b` runs `a`, then runs `b` from the `message` left by `a`, and concatenates the results |
| Controller.RejectingUnitFails | git-security-scanner-backend/controller/scanRepositoryController.js:31-43 | a unit that rejects, whatever the message, fails the whole loop |
| Controller.UnparsableAuditFailsLoop | git-security-scanner-backend/controller/scanRepositoryController.js:31-47 | unparsable audit output in any unit makes the unit loop reject, whatever the global `message` holds |
| Controller.UnparsableAuditFails | git-security-scanner-backend/controller/scanRepositoryController.js:22-47 | unparsable audit output in any discovered unit makes the response a 500 |
| Controller.UnreadableConfigFails | git-security-scanner-backend/controller/scanRepositoryController.js:22-48 | a configuration file that is a directory or unreadable in any discovered unit makes the response a 500, whatever the global `message` holds when the unit is reached |
| Controller.UnreadableConfigFailsLoop | git-security-scanner-backend/controller/scanRepositoryController.js:31-48 | a unit holding a configuration file that is a directory or unreadable makes the unit loop reject, whatever the global `message` holds when the unit is reached |
| Controller.UnwantedConcatenated | git-security-scanner-backend/controller/scanRepositoryController.js:31-36 | the unwanted files are every unit's list concatenated, without removing duplicates |
| Controller.BlameAttached | git-security-scanner-backend/controller/scanRepositoryController.js:52-80 | after a successful scan every misconfiguration has blame `""` and every vulnerability has blame text |
| Controller.RunUnitsLoop | git-security-scanner-backend/controller/scanRepositoryController.js:31-36 | the loop over the units has the same outcome and final `message` as the fold |
| Controller.Scan | git-security-scanner-backend/controller/scanRepositoryController.js:9-44 | the handler, with the secret stack walk and the unit loop run as loops, has the same response and final `message` as the function |

## Left out

- Console logging, and the Express request and response objects. The
  response is a `Controller.Response` value, and `StatusCode` gives its
  HTTP status.
- Removing an earlier clone, and the clone itself: these are file-system
  and network effects. The tree found at the clone path afterwards is an
  input, and a failed clone is just a different tree.
- The path `''` that `gitClone` returns when `repoUrl` is not a string.
  The URL is modelled as a string, so `split` cannot throw.
- Asynchronous scheduling:
  - The blame calls started by `forEach(async …)` in the secret scan are
    not modelled, and neither are the unhandled rejections they can cause.
  - Only their observable effect is kept: `blame` is `""`.
  - Other awaits run one at a time, as the handler awaits them, so they
    are modelled in sequence.
- Cycles of symbolic links. The tree is a finite datatype, so it cannot
  express them. Unit discovery and the unwanted-file scan follow links,
  and may not terminate on a cycle.
- `path.join` normalisation of `.`/`..` and repeated slashes.
  `FsTree.Join` is `path.join` for a directory path in normal form and a
  name without `/` that is neither `.` nor `..`. The code joins names read
  from listings, and the fixed names `.env`, `config.json`, `settings.yml`
  and `package.json`, all of that kind. The clone path `/tmp/<name>` is not
  always in normal form: a URL ending in `/.` or `/..` gives `/tmp/.` or
  `/tmp/..`. There the model's paths keep the `.` or `..` that `path.join`
  would fold away, so the paths it reports differ from the program's.
- UTF-8 decoding of file content, and file-mode bits other than group-write
  and other-write. Content is given as a string.
- Parts of the audit report that JSON cannot make from an `npm audit`
  report are not modelled: a truthy non-object `vulnerabilities`, and
  non-string `name`/`severity`/`range`.
- The output size limit of `git blame`. Exceeding it is one way the run
  reports an error, which the model takes as an input.
- The `author`/`onDate` split in `getGitBlame`. It cannot throw and does
  not affect the output.
- The duplicated scanner route in `server.js`, `deleteFolderRecursive`,
  and the frontend: they are outside the scan core.
- Unwanted.ReportedOnceInPreOrder, Walk.ReachedPreOrdered and
  PackageDirs.UnitsOnceInPreOrder: these need a well-formed tree, with
  distinct and valid names in each directory, because a real `readdir`
  listing never repeats a name.
