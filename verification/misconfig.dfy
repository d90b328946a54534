/** The misconfiguration check: three fixed file names looked up directly
    inside a project unit, content tests in a fixed order, a permission-bit
    test, and the module-global `message` the program assigns without
    declaring. That global outlives each call, so it is threaded through as
    `Option<string>` (`None` while it has never been assigned). */
module Misconfig {
  import opened Wrappers
  import opened Text
  import opened FsTree

  const MisconfigFiles: seq<string> := [".env", "config.json", "settings.yml"]

  const DebugMessage: string := "Insecure debug setting found"
  const CredentialsMessage: string := "Hardcoded credentials found"
  const PortMessage: string := "Exposed port (80 or 8080) found"
  const InsecureFlagMessage: string := "Insecure flag (allow_insecure=true)"
  const PermissionsMessage: string := "Insecure permissions found"

  /** One finding: the file name, the message in force when it was built,
      the unit's path, and the `blame` the controller attaches later. */
  datatype Misconfiguration = Misconfiguration(name: string, message: string, filepath: string, blame: Option<string>)

  /** Why a call rejects: `readFileSync` threw, or `message` was read
      before it was ever assigned (a ReferenceError). */
  datatype MisconfigError = ReadFailed(error: FsError) | MessageNotDefined

  predicate DebugOn(content: string)
  {
    Includes(content, "debug=true")
  }

  predicate HardcodedCredentials(content: string)
  {
    || Includes(content, "password=")
    || Includes(content, "API_KEY=")
    || Includes(content, "AWS_ACCESS_KEY_ID")
    || Includes(content, "DATABASE_PASSWORD")
    || Includes(content, "SECRET_KEY")
  }

  predicate ExposedPort(content: string)
  {
    Includes(content, "port=80") || Includes(content, "port=8080")
  }

  predicate InsecureFlag(content: string)
  {
    Includes(content, "allow_insecure=true")
  }

  /** Only names containing `.env` or `.git` get the permission test. */
  predicate PermissionChecked(file: string)
  {
    Includes(file, ".env") || Includes(file, ".git")
  }

  /** `mode & 0o022`: the group-write or the other-write bit is set. */
  predicate GroupOrOtherWritable(mode: bv32)
  {
    mode & 0x12 != 0
  }

  predicate InsecurePermissions(file: string, mode: bv32)
  {
    PermissionChecked(file) && GroupOrOtherWritable(mode)
  }

  /** The five `if` statements in program order; each one whose condition
      holds assigns the global `message`. */
  function UpdateMessage(file: string, content: string, mode: bv32, message: Option<string>): Option<string>
  {
    var m1 := if DebugOn(content) then Some(DebugMessage) else message;
    var m2 := if HardcodedCredentials(content) then Some(CredentialsMessage) else m1;
    var m3 := if ExposedPort(content) then Some(PortMessage) else m2;
    var m4 := if InsecureFlag(content) then Some(InsecureFlagMessage) else m3;
    if InsecurePermissions(file, mode) then Some(PermissionsMessage) else m4
  }

  /** A condition the check tests, with the message it assigns. */
  datatype Condition = Condition(holds: bool, message: string)

  /** The conditions, in the order the checks run. */
  function Conditions(file: string, content: string, mode: bv32): (cs: seq<Condition>)
    ensures |cs| == 5
  {
    [ Condition(DebugOn(content), DebugMessage),
      Condition(HardcodedCredentials(content), CredentialsMessage),
      Condition(ExposedPort(content), PortMessage),
      Condition(InsecureFlag(content), InsecureFlagMessage),
      Condition(InsecurePermissions(file, mode), PermissionsMessage) ]
  }

  /** The last condition that holds decides the message. */
  lemma LastConditionWins(file: string, content: string, mode: bv32, message: Option<string>, j: nat)
    requires j < 5 && Conditions(file, content, mode)[j].holds
    requires forall k :: j < k < 5 ==> !Conditions(file, content, mode)[k].holds
    ensures UpdateMessage(file, content, mode, message) == Some(Conditions(file, content, mode)[j].message)
  {
    var cs := Conditions(file, content, mode);
    assert cs[0].holds == DebugOn(content) && cs[1].holds == HardcodedCredentials(content);
    assert cs[2].holds == ExposedPort(content) && cs[3].holds == InsecureFlag(content);
    assert cs[4].holds == InsecurePermissions(file, mode);
  }

  /** None of the five conditions holds for the file. */
  predicate MeetsNoCondition(file: string, content: string, mode: bv32)
  {
    forall k :: 0 <= k < 5 ==> !Conditions(file, content, mode)[k].holds
  }

  /** A file meeting no condition carries whatever message was in force,
      from this call or an earlier one. */
  lemma NoConditionKeepsMessage(file: string, content: string, mode: bv32, message: Option<string>)
    requires MeetsNoCondition(file, content, mode)
    ensures UpdateMessage(file, content, mode, message) == message
  {
    var cs := Conditions(file, content, mode);
    assert !cs[0].holds && !cs[1].holds && !cs[2].holds && !cs[3].holds && !cs[4].holds;
  }

  /** The files of `files` that exist in the unit, in list order. */
  function PresentFiles(repo: Node, files: seq<string>): (r: seq<string>)
    ensures forall f :: f in r <==> f in files && Lookup(repo, f).Some?
  {
    if |files| == 0 then []
    else (if Lookup(repo, files[0]).Some? then [files[0]] else []) + PresentFiles(repo, files[1..])
  }

  function Names(fs: seq<Misconfiguration>): (ns: seq<string>)
    ensures |ns| == |fs| && forall i :: 0 <= i < |fs| ==> ns[i] == fs[i].name
  {
    if |fs| == 0 then [] else [fs[0].name] + Names(fs[1..])
  }

  /** `checkMisconfigurations(repoPath)`, where `repoPath` names the
      directory `repo`, starting with the global `message` in `message`.
      Returns the outcome and the global `message` afterwards, which
      persists even when the call rejects. */
  function CheckMisconfigurations(repoPath: string, repo: Node, message: Option<string>)
    : (r: (Result<seq<Misconfiguration>, MisconfigError>, Option<string>))
    ensures message.Some? ==> r.1.Some?
    ensures r.0.Ok? ==> Names(r.0.value) == PresentFiles(repo, MisconfigFiles)
    ensures r.0.Ok? ==> forall f :: f in r.0.value ==> f.filepath == repoPath && f.blame.None?
    ensures r.0.Ok? ==> MessagesFollow(UpdateMessage, repo, PresentFiles(repo, MisconfigFiles), r.0.value, message)
  {
    CheckFilesMessages(UpdateMessage, repoPath, repo, MisconfigFiles, message);
    UpdateKeepsAssigned();
    CheckFilesKeepsAssigned(UpdateMessage, repoPath, repo, MisconfigFiles, message);
    CheckFilesNames(UpdateMessage, repoPath, repo, MisconfigFiles, message);
    CheckFiles(UpdateMessage, repoPath, repo, MisconfigFiles, message)
  }

  /** How examining one file's name, content and mode changes the global
      `message`; the program's is `UpdateMessage`. */
  type Update = (string, string, bv32, Option<string>) -> Option<string>

  /** The `forEach` over the file list; a throw ends it and rejects the call. */
  function CheckFiles(update: Update, repoPath: string, repo: Node, files: seq<string>, message: Option<string>)
    : (r: (Result<seq<Misconfiguration>, MisconfigError>, Option<string>))
    ensures r.0.Ok? ==> forall f :: f in r.0.value ==> f.filepath == repoPath && f.blame.None?
  {
    if |files| == 0 then (Ok([]), message)
    else
      var file := files[0];
      var filePath := Join(repoPath, file);
      match Lookup(repo, file)
      case None => CheckFiles(update, repoPath, repo, files[1..], message)
      case Some(target) =>
        if target.Dir? then (Err(ReadFailed(IsADirectory(filePath))), message)
        else if !target.readable then (Err(ReadFailed(AccessDenied(filePath))), message)
        else
          var m := update(file, target.content, target.mode, message);
          if m.None? then (Err(MessageNotDefined), m)
          else
            var rest := CheckFiles(update, repoPath, repo, files[1..], m);
            (if rest.0.Ok? then Ok([Misconfiguration(file, m.value, repoPath, None)] + rest.0.value) else rest.0, rest.1)
  }

  /** An update never unassigns `message`. */
  ghost predicate KeepsAssigned(update: Update)
  {
    forall file: string, content: string, mode: bv32, message: Option<string> ::
      message.Some? ==> update(file, content, mode, message).Some?
  }

  /** Every branch of the program's update either assigns `message` or
      leaves it. */
  lemma UpdateKeepsAssigned()
    ensures KeepsAssigned(UpdateMessage)
  {
  }

  /** Once assigned, `message` stays assigned through the loop. */
  lemma {:induction false} CheckFilesKeepsAssigned(update: Update, repoPath: string, repo: Node, files: seq<string>, message: Option<string>)
    requires KeepsAssigned(update)
    ensures message.Some? ==> CheckFiles(update, repoPath, repo, files, message).1.Some?
    decreases |files|
  {
    if |files| > 0 {
      var t := Lookup(repo, files[0]);
      if t.None? {
        CheckFilesKeepsAssigned(update, repoPath, repo, files[1..], message);
      } else if t.value.File? && t.value.readable {
        var m := update(files[0], t.value.content, t.value.mode, message);
        if m.Some? {
          CheckFilesKeepsAssigned(update, repoPath, repo, files[1..], m);
        }
      }
    }
  }

  /** On success there is one finding per listed file that exists, in
      list order. */
  lemma {:induction false} CheckFilesNames(update: Update, repoPath: string, repo: Node, files: seq<string>, message: Option<string>)
    ensures var r := CheckFiles(update, repoPath, repo, files, message);
            r.0.Ok? ==> Names(r.0.value) == PresentFiles(repo, files)
    decreases |files|
  {
    if |files| > 0 {
      var t := Lookup(repo, files[0]);
      if t.None? {
        CheckFilesNames(update, repoPath, repo, files[1..], message);
      } else if t.value.File? && t.value.readable {
        var m := update(files[0], t.value.content, t.value.mode, message);
        if m.Some? {
          CheckFilesNames(update, repoPath, repo, files[1..], m);
        }
      }
    }
  }

  /** The global `message` left by a loop outcome `r` is the message of its
      last finding, or `message` when a successful loop found nothing. */
  predicate LeavesLast(r: (Result<seq<Misconfiguration>, MisconfigError>, Option<string>), message: Option<string>)
  {
    && (r.0.Ok? && |r.0.value| == 0 ==> r.1 == message)
    && (r.0.Ok? && |r.0.value| > 0 ==> r.1 == Some(r.0.value[|r.0.value| - 1].message))
  }

  lemma LeavesLastCons(f: Misconfiguration, rest: (Result<seq<Misconfiguration>, MisconfigError>, Option<string>), message: Option<string>)
    requires LeavesLast(rest, Some(f.message))
    ensures LeavesLast((if rest.0.Ok? then Ok([f] + rest.0.value) else rest.0, rest.1), message)
  {
    if rest.0.Ok? {
      var fs := [f] + rest.0.value;
      assert fs[|fs| - 1] == if |rest.0.value| == 0 then f else rest.0.value[|rest.0.value| - 1];
    }
  }

  /** The global `message` after the loop is the message of the last
      finding, or the incoming one when there is no finding. */
  lemma {:induction false} CheckFilesLeavesLastMessage(update: Update, repoPath: string, repo: Node, files: seq<string>, message: Option<string>)
    ensures LeavesLast(CheckFiles(update, repoPath, repo, files, message), message)
    decreases |files|
  {
    if |files| > 0 {
      var t := Lookup(repo, files[0]);
      if t.None? {
        CheckFilesLeavesLastMessage(update, repoPath, repo, files[1..], message);
        SkipAbsent(update, repoPath, repo, files, message);
      } else if t.value.File? && t.value.readable {
        var m := update(files[0], t.value.content, t.value.mode, message);
        if m.Some? {
          CheckFilesLeavesLastMessage(update, repoPath, repo, files[1..], m);
          TakePresent(update, repoPath, repo, files, message);
          LeavesLastCons(Misconfiguration(files[0], m.value, repoPath, None), CheckFiles(update, repoPath, repo, files[1..], m), message);
        }
      }
    }
  }

  /** An absent file is skipped. */
  lemma SkipAbsent(update: Update, repoPath: string, repo: Node, files: seq<string>, message: Option<string>)
    requires |files| > 0 && Lookup(repo, files[0]).None?
    ensures CheckFiles(update, repoPath, repo, files, message) == CheckFiles(update, repoPath, repo, files[1..], message)
  {
  }

  /** A readable file that the update leaves with a message yields its
      finding ahead of the rest. */
  lemma TakePresent(update: Update, repoPath: string, repo: Node, files: seq<string>, message: Option<string>)
    requires |files| > 0 && Lookup(repo, files[0]).Some?
    requires Lookup(repo, files[0]).value.File? && Lookup(repo, files[0]).value.readable
    requires update(files[0], Lookup(repo, files[0]).value.content, Lookup(repo, files[0]).value.mode, message).Some?
    ensures var m := update(files[0], Lookup(repo, files[0]).value.content, Lookup(repo, files[0]).value.mode, message);
            var rest := CheckFiles(update, repoPath, repo, files[1..], m);
            CheckFiles(update, repoPath, repo, files, message)
              == (if rest.0.Ok? then Ok([Misconfiguration(files[0], m.value, repoPath, None)] + rest.0.value) else rest.0, rest.1)
  {
  }

  /** The file `name` is a readable regular file of the unit, and the
      update turns `prev` into the message of finding `f` for it. */
  predicate Follows(update: Update, repo: Node, name: string, f: Misconfiguration, prev: Option<string>)
  {
    && Lookup(repo, name).Some?
    && Lookup(repo, name).value.File?
    && Lookup(repo, name).value.readable
    && update(name, Lookup(repo, name).value.content, Lookup(repo, name).value.mode, prev) == Some(f.message)
  }

  /** Finding `i` carries the message the update leaves after the `i`-th
      present file, starting from the message of finding `i - 1`, or from
      the incoming message for the first finding. */
  predicate MessagesFollow(update: Update, repo: Node, names: seq<string>, fs: seq<Misconfiguration>, message: Option<string>)
  {
    && |fs| == |names|
    && forall i {:trigger Follows(update, repo, names[i], fs[i], Before(fs, i, message))} ::
         0 <= i < |fs| ==> Follows(update, repo, names[i], fs[i], Before(fs, i, message))
  }

  /** The message in force before finding `i`. */
  function Before(fs: seq<Misconfiguration>, i: nat, message: Option<string>): Option<string>
    requires i <= |fs|
  {
    if i == 0 then message else Some(fs[i - 1].message)
  }

  /** On success each finding's message is the update applied to its own
      file, threaded from one finding to the next. */
  lemma {:induction false} CheckFilesMessages(update: Update, repoPath: string, repo: Node, files: seq<string>, message: Option<string>)
    ensures var r := CheckFiles(update, repoPath, repo, files, message);
            r.0.Ok? ==> MessagesFollow(update, repo, PresentFiles(repo, files), r.0.value, message)
    decreases |files|
  {
    if |files| > 0 {
      var t := Lookup(repo, files[0]);
      if t.None? {
        CheckFilesMessages(update, repoPath, repo, files[1..], message);
        assert PresentFiles(repo, files) == PresentFiles(repo, files[1..]);
        SkipAbsent(update, repoPath, repo, files, message);
      } else if t.value.File? && t.value.readable {
        var m := update(files[0], t.value.content, t.value.mode, message);
        if m.Some? {
          CheckFilesMessages(update, repoPath, repo, files[1..], m);
          TakePresent(update, repoPath, repo, files, message);
          var rest := CheckFiles(update, repoPath, repo, files[1..], m);
          if rest.0.Ok? {
            var f := Misconfiguration(files[0], m.value, repoPath, None);
            assert PresentFiles(repo, files) == [files[0]] + PresentFiles(repo, files[1..]);
            assert Follows(update, repo, files[0], f, message);
            MessagesFollowCons(update, repo, files[0], PresentFiles(repo, files[1..]), f, rest.0.value, message);
          }
        }
      }
    }
  }

  lemma MessagesFollowCons(update: Update, repo: Node, name: string, names: seq<string>,
                           f: Misconfiguration, fs: seq<Misconfiguration>, message: Option<string>)
    requires Follows(update, repo, name, f, message)
    requires MessagesFollow(update, repo, names, fs, Some(f.message))
    ensures MessagesFollow(update, repo, [name] + names, [f] + fs, message)
  {
    var ns, gs := [name] + names, [f] + fs;
    forall i | 0 <= i < |gs|
      ensures Follows(update, repo, ns[i], gs[i], Before(gs, i, message))
    {
      if i > 0 {
        var k := i - 1;
        assert Follows(update, repo, names[k], fs[k], Before(fs, k, Some(f.message)));
        assert ns[i] == names[k] && gs[i] == fs[k];
        assert Before(gs, i, message) == Before(fs, k, Some(f.message)) by {
          if k > 0 {
            assert gs[i - 1] == fs[k - 1];
          }
        }
      }
    }
  }

  /** A listed file that exists but is a directory or unreadable makes the
      loop reject, whatever the message: a read error is never caught, and
      a rejection before it rejects too. */
  lemma {:induction false} CheckFilesUnreadableRejects(update: Update, repoPath: string, repo: Node, files: seq<string>,
                                                       message: Option<string>, j: nat)
    requires j < |files| && Lookup(repo, files[j]).Some?
    requires Lookup(repo, files[j]).value.Dir? || !Lookup(repo, files[j]).value.readable
    ensures CheckFiles(update, repoPath, repo, files, message).0.Err?
    decreases |files|
  {
    var t := Lookup(repo, files[0]);
    if t.None? {
      assert files[1..][j - 1] == files[j];
      CheckFilesUnreadableRejects(update, repoPath, repo, files[1..], message, j - 1);
      SkipAbsent(update, repoPath, repo, files, message);
    } else if t.value.Dir? || !t.value.readable {
      HeadUnreadableRejects(update, repoPath, repo, files, message);
    } else {
      var m := update(files[0], t.value.content, t.value.mode, message);
      if m.Some? {
        assert files[1..][j - 1] == files[j];
        CheckFilesUnreadableRejects(update, repoPath, repo, files[1..], m, j - 1);
        TakePresent(update, repoPath, repo, files, message);
      }
    }
  }

  /** A first file that is a directory or unreadable rejects at once. */
  lemma HeadUnreadableRejects(update: Update, repoPath: string, repo: Node, files: seq<string>, message: Option<string>)
    requires |files| > 0 && Lookup(repo, files[0]).Some?
    requires Lookup(repo, files[0]).value.Dir? || !Lookup(repo, files[0]).value.readable
    ensures CheckFiles(update, repoPath, repo, files, message).0.Err?
  {
  }

  /** One of the three files existing as a directory, or unreadable, makes
      the check reject whatever the global `message` holds. */
  lemma UnreadableFileRejects(repoPath: string, repo: Node, message: Option<string>, j: nat)
    requires j < |MisconfigFiles| && Lookup(repo, MisconfigFiles[j]).Some?
    requires Lookup(repo, MisconfigFiles[j]).value.Dir? || !Lookup(repo, MisconfigFiles[j]).value.readable
    ensures CheckMisconfigurations(repoPath, repo, message).0.Err?
  {
    CheckFilesUnreadableRejects(UpdateMessage, repoPath, repo, MisconfigFiles, message, j);
  }

  // ---------------------------------------------------------------------
  // Properties

  /** When `.env` is a readable file meeting no condition and `message` has
      never been assigned, the call rejects with a ReferenceError and leaves
      `message` unassigned. */
  lemma UnassignedMessageRejects(repoPath: string, repo: Node)
    requires Lookup(repo, ".env").Some? && Lookup(repo, ".env").value.File?
    requires var t := Lookup(repo, ".env").value;
             t.readable && UpdateMessage(".env", t.content, t.mode, None).None?
    ensures CheckMisconfigurations(repoPath, repo, None) == (Err(MessageNotDefined), None)
  {
  }

  /** The message of one call leaks into the next: when the second call's
      first present file meets no condition, its finding repeats the
      message the first call left behind. */
  lemma MessageLeaksAcrossCalls(path1: string, repo1: Node, path2: string, repo2: Node, message: Option<string>)
    requires CheckMisconfigurations(path1, repo1, message).0.Ok?
    requires CheckMisconfigurations(path1, repo1, message).1.Some?
    requires Lookup(repo2, ".env").Some? && Lookup(repo2, ".env").value.File?
    requires var t := Lookup(repo2, ".env").value;
             t.readable && MeetsNoCondition(".env", t.content, t.mode)
    ensures var left := CheckMisconfigurations(path1, repo1, message).1;
            var second := CheckMisconfigurations(path2, repo2, left).0;
            second.Ok? ==> |second.value| > 0 && second.value[0].message == left.value
  {
    var left := CheckMisconfigurations(path1, repo1, message).1;
    var t := Lookup(repo2, ".env").value;
    CheckFilesLeavesLastMessage(UpdateMessage, path1, repo1, MisconfigFiles, message);
    NoConditionKeepsMessage(".env", t.content, t.mode, left);
  }

  /** An `.env` that is a directory makes the call reject: read errors are
      not caught. */
  lemma EnvDirectoryRejects(repoPath: string, repo: Node, message: Option<string>)
    requires Lookup(repo, ".env").Some? && Lookup(repo, ".env").value.Dir?
    ensures CheckMisconfigurations(repoPath, repo, message).0 == Err(ReadFailed(IsADirectory(Join(repoPath, ".env"))))
  {
  }

  /** The port test is a substring test: `port=8000` also triggers it. */
  lemma PortTestIsSubstring(before: string, after: string)
    ensures ExposedPort(before + "port=8000" + after)
  {
    assert Includes("port=8000", "port=80") by {
      assert OccursAt("port=8000", "port=80", 0);
    }
    IncludesWithin(before, "port=8000", after, "port=80");
  }

  lemma NoDotFollowedBy(s: string, t: string, dot: nat)
    requires |t| >= 2 && t[0] == '.'
    requires dot + 1 < |s| && s[dot + 1] != t[1]
    requires forall k :: 0 <= k < |s| && s[k] == '.' ==> k == dot
    ensures !Includes(s, t)
  {
    forall k: nat
      ensures !OccursAt(s, t, k)
    {
      if k + |t| <= |s| && s[k] == '.' {
        assert k == dot;
        assert s[k..k + |t|][1] == s[dot + 1] != t[1];
      } else if k + |t| <= |s| {
        assert s[k..k + |t|][0] != t[0];
      }
    }
  }

  lemma EnvChecked()
    ensures PermissionChecked(".env")
  {
    assert OccursAt(".env", ".env", 0);
  }

  /** `config.json` contains neither `.env` nor `.git`. */
  lemma ConfigJsonNotChecked()
    ensures !PermissionChecked("config.json")
  {
    var s := "config.json";
    assert forall k :: 0 <= k < |s| && s[k] == '.' ==> k == 6;
    NoDotFollowedBy(s, ".env", 6);
    NoDotFollowedBy(s, ".git", 6);
  }

  /** `settings.yml` contains neither `.env` nor `.git`. */
  lemma SettingsNotChecked()
    ensures !PermissionChecked("settings.yml")
  {
    var s := "settings.yml";
    assert forall k :: 0 <= k < |s| && s[k] == '.' ==> k == 8;
    NoDotFollowedBy(s, ".env", 8);
    NoDotFollowedBy(s, ".git", 8);
  }

  /** Of the three files only `.env` gets the permission test, and it fails
      exactly when the group-write or other-write bit is set. */
  lemma PermissionTestOnlyForEnv(mode: bv32)
    ensures InsecurePermissions(".env", mode) <==> mode & 0x12 != 0
    ensures !InsecurePermissions("config.json", mode)
    ensures !InsecurePermissions("settings.yml", mode)
  {
    EnvChecked();
    ConfigJsonNotChecked();
    SettingsNotChecked();
  }
}
