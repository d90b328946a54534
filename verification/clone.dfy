/** `gitClone`: the local directory a repository URL is cloned into. The
    clone itself, and the removal of an earlier copy, are effects on the
    file system that the model does not carry out: the tree the later
    stages walk is given to them as it is after the clone. */
module Clone {
  import opened Wrappers
  import opened Text

  const CloneRoot: string := "/tmp/"
  const GitSuffix: string := ".git"

  /** The last `/`-separated piece of the URL, with its first `.git`
      removed. */
  function RepoName(repoUrl: string): (name: string)
    ensures '/' !in name
  {
    var parts := Split(repoUrl, '/');
    var last := parts[|parts| - 1];
    var name := ReplaceFirst(last, GitSuffix, "");
    assert '/' !in name by {
      if Includes(last, GitSuffix) {
        var i := IndexOfFrom(last, GitSuffix, 0).value;
        assert name == last[..i] + last[i + |GitSuffix|..];
        assert forall k :: 0 <= k < |name| ==> name[k] in last;
      }
    }
    name
  }

  /** `gitClone(repoUrl)`: the path of the clone, returned whether or not
      cloning succeeded. It is always a direct child of `/tmp`. */
  function GitClone(repoUrl: string): (clonePath: string)
    ensures |clonePath| >= |CloneRoot| && clonePath[..|CloneRoot|] == CloneRoot
    ensures forall k :: |CloneRoot| <= k < |clonePath| ==> clonePath[k] != '/'
    ensures clonePath[|CloneRoot|..] == RepoName(repoUrl)
  {
    var name := RepoName(repoUrl);
    var p := CloneRoot + name;
    assert forall k :: |CloneRoot| <= k < |p| ==> p[k] == name[k - |CloneRoot|];
    p
  }

  // ---------------------------------------------------------------------
  // Properties

  /** `.git` cannot overlap itself, so in `<name>.git` with no `.git` in
      the name the first occurrence is the appended one. */
  lemma FirstGitAtEnd(name: string)
    requires !Includes(name, GitSuffix)
    ensures IndexOfFrom(name + GitSuffix, GitSuffix, 0) == Some(|name|)
  {
    var last := name + GitSuffix;
    OccursAppended(name, GitSuffix);
    NoEarlierGit(name);
    IndexOfLeftmost(last, GitSuffix, |name|);
  }

  lemma NoEarlierGit(name: string)
    requires !Includes(name, GitSuffix)
    ensures forall k: nat :: k < |name| ==> !OccursAt(name + GitSuffix, GitSuffix, k)
  {
    var last := name + GitSuffix;
    forall k: nat | k < |name|
      ensures !OccursAt(last, GitSuffix, k)
    {
      if k + 4 <= |name| {
        assert !OccursAt(name, GitSuffix, k);
        assert last[k..k + 4] == name[k..k + 4];
      } else {
        assert last[|name|] == '.' != GitSuffix[|name| - k];
        assert last[k..k + 4][|name| - k] == last[|name|];
      }
    }
  }

  /** A URL ending in `/<name>.git` clones into `/tmp/<name>`, provided the
      name has no `.git` of its own. */
  lemma NameOfGitUrl(prefix: string, name: string)
    requires '/' !in name && !Includes(name, GitSuffix)
    ensures RepoName(prefix + "/" + name + GitSuffix) == name
  {
    var last := name + GitSuffix;
    assert '/' !in last;
    assert prefix + "/" + name + GitSuffix == prefix + "/" + last;
    NameOfLastPiece(prefix, last);
    FirstGitAtEnd(name);
    assert last[..|name|] == name;
  }

  /** A URL ending in `/<name>.git` is cloned into `/tmp/<name>`, provided
      the name has no `.git` of its own. */
  lemma CloneOfGitUrl(prefix: string, name: string)
    requires '/' !in name && !Includes(name, GitSuffix)
    ensures GitClone(prefix + "/" + name + GitSuffix) == CloneRoot + name
  {
    NameOfGitUrl(prefix, name);
  }

  /** The name depends only on what follows the last `/`. */
  lemma NameOfLastPiece(prefix: string, last: string)
    requires '/' !in last
    ensures RepoName(prefix + "/" + last) == ReplaceFirst(last, GitSuffix, "")
  {
    assert prefix + "/" + last == prefix + ['/'] + last;
    SplitLast(prefix, '/', last);
  }

  /** Only the first `.git` goes: `a.git.git` is cloned as `a.git`. */
  lemma OnlyFirstSuffixRemoved(prefix: string)
    ensures RepoName(prefix + "/a.git.git") == "a.git"
  {
    assert prefix + "/a.git.git" == prefix + "/" + "a.git.git";
    NameOfLastPiece(prefix, "a.git.git");
    DoubleSuffixName();
  }

  lemma DoubleSuffixName()
    ensures ReplaceFirst("a.git.git", GitSuffix, "") == "a.git"
  {
    assert "a.git.git" == ['a'] + GitSuffix + ".git";
    RemovedAfterFirstChar('a', ".git");
    assert ['a'] + ".git" == "a.git";
  }

  /** A `.git` right after a first character that is not `.` is the first
      one, and it is the one removed. */
  lemma RemovedAfterFirstChar(c: char, tail: string)
    requires c != '.'
    ensures ReplaceFirst([c] + GitSuffix + tail, GitSuffix, "") == [c] + tail
  {
    var last := [c] + GitSuffix + tail;
    assert last[0..4][0] == c;
    assert last[1..5] == GitSuffix;
    IndexOfLeftmost(last, GitSuffix, 1);
    assert last[..1] == [c] && last[5..] == tail;
  }

  /** The removal is a substring match, not a suffix match: `a.github` is
      cloned as `ahub`. */
  lemma InnerGitRemoved(prefix: string)
    ensures RepoName(prefix + "/a.github") == "ahub"
  {
    assert prefix + "/a.github" == prefix + "/" + "a.github";
    NameOfLastPiece(prefix, "a.github");
    InnerGitName();
  }

  lemma InnerGitName()
    ensures ReplaceFirst("a.github", GitSuffix, "") == "ahub"
  {
    assert "a.github" == ['a'] + GitSuffix + "hub";
    RemovedAfterFirstChar('a', "hub");
    assert ['a'] + "hub" == "ahub";
  }

  /** A URL with a trailing `/` has an empty last piece, so every such
      repository is cloned into `/tmp/` itself. */
  lemma TrailingSlashClonesIntoTmp(prefix: string)
    ensures GitClone(prefix + "/") == CloneRoot
  {
    assert prefix + "/" == prefix + ['/'] + "";
    SplitLast(prefix, '/', "");
    assert !Includes("", GitSuffix);
  }
}
