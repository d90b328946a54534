/** The secret scan: an explicit-stack, depth-first walk that tests the text
    of every regular file for four case-sensitive keywords. Entries are
    classified with `lstat`, so links are neither followed nor read. A
    failure listing a directory, or stat'ing or reading one of its entries,
    ends the loop over that directory only. */
module Secrets {
  import opened Wrappers
  import opened Text
  import opened FsTree

  /** The alternatives of `/(?:API_KEY|SECRET_KEY|PASSWORD|TOKEN)/g`. */
  const SecretKeywords: seq<string> := ["API_KEY", "SECRET_KEY", "PASSWORD", "TOKEN"]

  /** A finding names the file and its joined path; the matched keywords are
      not kept, and `blame` is whatever `blameInfo` held when the finding was
      built. */
  datatype SecretFinding = SecretFinding(name: string, fullPath: string, blame: string)

  /** A directory on the work stack. */
  datatype Pending = Pending(path: string, node: Node)

  predicate HasSecretKeyword(content: string)
  {
    exists i :: 0 <= i < |SecretKeywords| && Includes(content, SecretKeywords[i])
  }

  // ---------------------------------------------------------------------
  // The shared global regular expression

  /** The length of the alternative that matches at index `k`, if any. */
  function KeywordAt(s: string, k: nat): (r: Option<nat>)
    ensures r.Some? <==> exists i :: 0 <= i < |SecretKeywords| && OccursAt(s, SecretKeywords[i], k)
    ensures r.Some? ==> k + r.value <= |s|
  {
    if OccursAt(s, SecretKeywords[0], k) then Some(|SecretKeywords[0]|)
    else if OccursAt(s, SecretKeywords[1], k) then Some(|SecretKeywords[1]|)
    else if OccursAt(s, SecretKeywords[2], k) then Some(|SecretKeywords[2]|)
    else if OccursAt(s, SecretKeywords[3], k) then Some(|SecretKeywords[3]|)
    else None
  }

  /** Where the leftmost match at or after `from` ends. */
  function MatchEndFrom(s: string, from: nat): (r: Option<nat>)
    ensures r.Some? ==> from <= r.value <= |s|
    ensures r.Some? ==> exists k: nat, i :: from <= k && 0 <= i < |SecretKeywords| && OccursAt(s, SecretKeywords[i], k)
    ensures r.None? ==> forall k: nat, i :: from <= k && 0 <= i < |SecretKeywords| ==> !OccursAt(s, SecretKeywords[i], k)
    decreases |s| - from
  {
    if from > |s| then None
    else
      match KeywordAt(s, from)
      case Some(len) => Some(from + len)
      case None => MatchEndFrom(s, from + 1)
  }

  /** `RegExp.prototype.test` on a global regex: the search starts at
      `lastIndex`; a hit moves `lastIndex` past the match, a miss resets it
      to 0. From `lastIndex` 0 it answers whether a keyword occurs at all. */
  function RegexTest(s: string, lastIndex: nat): (r: (bool, nat))
    ensures !r.0 ==> r.1 == 0
    ensures lastIndex == 0 ==> (r.0 <==> HasSecretKeyword(s))
  {
    if lastIndex > |s| then (false, 0)
    else
      match MatchEndFrom(s, lastIndex)
      case None => (false, 0)
      case Some(e) => (true, e)
  }

  // ---------------------------------------------------------------------
  // One directory

  /** An entry on which `lstat` or `readFile` throws. */
  predicate Fails(e: Node)
  {
    e.Vanished? || (e.File? && !e.readable)
  }

  /** No entry of `items` throws. */
  predicate Clean(items: seq<Node>)
  {
    forall k :: 0 <= k < |items| ==> !Fails(items[k])
  }

  predicate IsHit(e: Node)
  {
    e.File? && e.readable && HasSecretKeyword(e.content)
  }

  function FindingFor(dir: string, e: Node): SecretFinding
  {
    SecretFinding(e.name, Join(dir, e.name), "")
  }

  /** What examining one entry records. */
  function Found(dir: string, e: Node): seq<SecretFinding>
  {
    if IsHit(e) then [FindingFor(dir, e)] else []
  }

  /** What examining one entry pushes. */
  function Pushed(dir: string, e: Node): seq<Pending>
  {
    if e.Dir? then [Pending(Join(dir, e.name), e)] else []
  }

  /** The findings the loop over one listing records, up to the first entry
      that throws. */
  function LocalFindings(dir: string, items: seq<Node>): (r: seq<SecretFinding>)
    ensures forall f :: f in r ==> f.blame == "" && f.fullPath == Join(dir, f.name)
    ensures |r| <= |items|
  {
    if |items| == 0 || Fails(items[0]) then []
    else Found(dir, items[0]) + LocalFindings(dir, items[1..])
  }

  /** The subdirectories the loop over one listing pushes, in listing order,
      up to the first entry that throws. */
  function Subdirs(dir: string, items: seq<Node>): (r: seq<Pending>)
    ensures forall p :: p in r ==> p.node.Dir?
    ensures StackSize(r) <= SizeAll(items)
  {
    if |items| == 0 || Fails(items[0]) then []
    else
      StackSizeAppend(Pushed(dir, items[0]), Subdirs(dir, items[1..]));
      Pushed(dir, items[0]) + Subdirs(dir, items[1..])
  }

  // ---------------------------------------------------------------------
  // The whole walk, as a recursive reference

  function StackSize(stack: seq<Pending>): nat
  {
    if |stack| == 0 then 0 else Size(stack[0].node) + StackSize(stack[1..])
  }

  lemma {:induction false} StackSizeAppend(a: seq<Pending>, b: seq<Pending>)
    ensures StackSize(a + b) == StackSize(a) + StackSize(b)
  {
    if |a| == 0 {
      assert a + b == b;
    } else {
      assert (a + b)[1..] == a[1..] + b;
      StackSizeAppend(a[1..], b);
    }
  }

  /** What the walk finds once the directory `n` at `dir` is popped: its own
      files first, then the subdirectories it pushed, the last pushed first. */
  function SecretsBeneath(dir: string, n: Node): (r: seq<SecretFinding>)
    ensures forall f :: f in r ==> f.blame == ""
    decreases Size(n), 0
  {
    match ReadDir(dir, n)
    case Err(_) => []
    case Ok(items) => LocalFindings(dir, items) + SecretsOfStack(Subdirs(dir, items))
  }

  /** What the walk finds from a stack of pending directories, top first. */
  function SecretsOfStack(stack: seq<Pending>): (r: seq<SecretFinding>)
    ensures forall f :: f in r ==> f.blame == ""
    decreases StackSize(stack), 1
  {
    if |stack| == 0 then []
    else
      StackSizeAppend(stack[..|stack| - 1], [stack[|stack| - 1]]);
      assert stack[..|stack| - 1] + [stack[|stack| - 1]] == stack;
      SecretsBeneath(stack[|stack| - 1].path, stack[|stack| - 1].node)
      + SecretsOfStack(stack[..|stack| - 1])
  }

  /** Whatever is pushed later is scanned, completely, before whatever lies
      below it on the stack. */
  lemma {:induction false} SecretsOfStackAppend(a: seq<Pending>, b: seq<Pending>)
    ensures SecretsOfStack(a + b) == SecretsOfStack(b) + SecretsOfStack(a)
    decreases |b|
  {
    if |b| == 0 {
      assert a + b == a;
    } else {
      var last := b[|b| - 1];
      assert (a + b)[..|a + b| - 1] == a + b[..|b| - 1];
      SecretsOfStackAppend(a, b[..|b| - 1]);
    }
  }

  // ---------------------------------------------------------------------
  // The program

  /** An entry that throws ends the loop over its directory: the entries
      after it are not examined, what came before stands. */
  lemma {:induction false} FailureSkipsRest(dir: string, before: seq<Node>, bad: Node, after: seq<Node>)
    requires Fails(bad)
    ensures LocalFindings(dir, before + [bad] + after) == LocalFindings(dir, before)
    ensures Subdirs(dir, before + [bad] + after) == Subdirs(dir, before)
  {
    if |before| > 0 {
      assert (before + [bad] + after)[1..] == before[1..] + [bad] + after;
      FailureSkipsRest(dir, before[1..], bad, after);
    }
  }

  /** Popping the top of the stack: it is scanned first, then the rest. */
  lemma Pop(stack: seq<Pending>)
    requires |stack| > 0
    ensures SecretsOfStack(stack)
         == SecretsBeneath(stack[|stack| - 1].path, stack[|stack| - 1].node) + SecretsOfStack(stack[..|stack| - 1])
    ensures StackSize(stack) == StackSize(stack[..|stack| - 1]) + Size(stack[|stack| - 1].node)
  {
    var init, top := stack[..|stack| - 1], stack[|stack| - 1];
    assert init + [top] == stack;
    StackSizeAppend(init, [top]);
    assert [top][1..] == [];
    assert StackSize([top]) == Size(top.node);
  }

  /** A popped directory that lists: its files, then what it pushed; the
      pushed directories are smaller than it. */
  lemma Unfold(dir: string, n: Node)
    requires ReadDir(dir, n).Ok?
    ensures SecretsBeneath(dir, n)
         == LocalFindings(dir, ReadDir(dir, n).value) + SecretsOfStack(Subdirs(dir, ReadDir(dir, n).value))
    ensures StackSize(Subdirs(dir, ReadDir(dir, n).value)) < Size(n)
  {
  }

  /** One turn of the loop over a listing, for an entry that does not
      throw: push a directory; test a regular file; skip anything else. */
  method ExamineEntry(dir: string, item: Node, found: seq<SecretFinding>, stack: seq<Pending>, lastIndex: nat)
    returns (found': seq<SecretFinding>, stack': seq<Pending>, lastIndex': nat)
    requires lastIndex == 0 && !Fails(item)
    ensures found' == found + Found(dir, item)
    ensures stack' == stack + Pushed(dir, item)
    ensures lastIndex' == 0
  {
    found', stack', lastIndex' := found, stack, lastIndex;
    var fullPath := Join(dir, item.name);
    if item.Dir? {
      stack' := stack' + [Pending(fullPath, item)];
    } else if item.File? {
      var test := RegexTest(item.content, lastIndex');
      lastIndex' := test.1;
      if test.0 {
        // String.prototype.match with a global regex restarts at 0 and
        // leaves lastIndex at 0.
        lastIndex' := 0;
        found' := found' + [FindingFor(dir, item)];
      }
    }
  }

  /** The body of the `try` block for one popped directory: the loop over
      its listing. A failing entry throws to the `catch`, which ends the
      loop; what was recorded and pushed before it stands. */
  method ScanListing(dir: string, items: seq<Node>, found: seq<SecretFinding>, stack: seq<Pending>, lastIndex: nat)
    returns (found': seq<SecretFinding>, stack': seq<Pending>, lastIndex': nat)
    requires lastIndex == 0
    ensures found' == found + LocalFindings(dir, items)
    ensures stack' == stack + Subdirs(dir, items)
    ensures lastIndex' == 0
  {
    found', stack', lastIndex' := found, stack, lastIndex;
    var i := 0;
    assert items[i..] == items;
    while i < |items| && !Fails(items[i])
      invariant 0 <= i <= |items|
      invariant lastIndex' == 0
      invariant found' + LocalFindings(dir, items[i..]) == found + LocalFindings(dir, items)
      invariant stack' + Subdirs(dir, items[i..]) == stack + Subdirs(dir, items)
    {
      ghost var found0, stack0 := found', stack';
      ListingStep(dir, items, i);
      found', stack', lastIndex' := ExamineEntry(dir, items[i], found', stack', lastIndex');
      Regroup(found0, Found(dir, items[i]), LocalFindings(dir, items[i + 1..]));
      Regroup(stack0, Pushed(dir, items[i]), Subdirs(dir, items[i + 1..]));
      i := i + 1;
    }
    // Either the listing is exhausted, or its entry `i` threw to the `catch`.
    assert LocalFindings(dir, items[i..]) == [] && Subdirs(dir, items[i..]) == [];
  }

  /** What the rest of a listing from entry `i` yields, when that entry
      does not throw: that entry's share, then the rest from `i + 1`. */
  lemma ListingStep(dir: string, items: seq<Node>, i: nat)
    requires i < |items| && !Fails(items[i])
    ensures LocalFindings(dir, items[i..]) == Found(dir, items[i]) + LocalFindings(dir, items[i + 1..])
    ensures Subdirs(dir, items[i..]) == Pushed(dir, items[i]) + Subdirs(dir, items[i + 1..])
  {
    assert items[i..][1..] == items[i + 1..];
  }

  lemma Regroup<T>(a: seq<T>, b: seq<T>, c: seq<T>)
    ensures (a + b) + c == a + (b + c)
  {
  }

  /** One turn of the `while` loop: pop a directory and scan its listing;
      a directory that cannot be listed is dropped by the `catch`. What is
      still to be found shrinks by exactly what this turn records, and the
      stack shrinks in total size. */
  method ScanTop(stack: seq<Pending>, found: seq<SecretFinding>, lastIndex: nat)
    returns (stack': seq<Pending>, found': seq<SecretFinding>, lastIndex': nat)
    requires |stack| > 0 && lastIndex == 0
    ensures found' + SecretsOfStack(stack') == found + SecretsOfStack(stack)
    ensures StackSize(stack') < StackSize(stack)
    ensures lastIndex' == 0
  {
    var current := stack[|stack| - 1];
    Pop(stack);
    stack' := stack[..|stack| - 1];
    found', lastIndex' := found, lastIndex;
    ghost var below := stack';
    var listing := ReadDir(current.path, current.node);
    if listing.Ok? {
      Unfold(current.path, current.node);
      var pushed := Subdirs(current.path, listing.value);
      found', stack', lastIndex' := ScanListing(current.path, listing.value, found', stack', lastIndex');
      SecretsOfStackAppend(below, pushed);
      StackSizeAppend(below, pushed);
      Regroup4(found, LocalFindings(current.path, listing.value), SecretsOfStack(pushed), SecretsOfStack(below));
    }
  }

  lemma Regroup4<T>(a: seq<T>, b: seq<T>, c: seq<T>, d: seq<T>)
    ensures (a + b) + (c + d) == a + ((b + c) + d)
  {
  }

  /** `scanForSecrets(clonePath)`, where `clonePath` names `root`. It never
      throws, and it ends on every finite tree: the stack shrinks in total
      size at every turn. */
  method ScanForSecrets(clonePath: string, root: Node) returns (secretDataFound: seq<SecretFinding>)
    ensures secretDataFound == SecretsBeneath(clonePath, root)
    ensures forall f :: f in secretDataFound ==> f.blame == ""
  {
    secretDataFound := [];
    var stack := [Pending(clonePath, root)];
    var lastIndex: nat := 0;
    assert stack[..0] == [];
    while |stack| > 0
      invariant lastIndex == 0
      invariant secretDataFound + SecretsOfStack(stack) == SecretsBeneath(clonePath, root)
      decreases StackSize(stack)
    {
      stack, secretDataFound, lastIndex := ScanTop(stack, secretDataFound, lastIndex);
    }
  }

  // ---------------------------------------------------------------------
  // Properties

  /** A readable file with a keyword, examined before anything in its
      directory threw, yields a finding. */
  lemma {:induction false} KeywordFileYieldsFinding(dir: string, items: seq<Node>, k: nat)
    requires k < |items| && Clean(items[..k]) && IsHit(items[k])
    ensures FindingFor(dir, items[k]) in LocalFindings(dir, items)
  {
    if k > 0 {
      assert items[..k][0] == items[0];
      assert items[1..][..k - 1] == items[..k][1..];
      KeywordFileYieldsFinding(dir, items[1..], k - 1);
    }
  }

  /** How many entries of a listing are examined: all of them, or those
      before the first that throws. */
  function Cut(items: seq<Node>): (c: nat)
    ensures c <= |items|
    ensures forall k :: 0 <= k < c ==> !Fails(items[k])
    ensures c < |items| ==> Fails(items[c])
  {
    if |items| == 0 || Fails(items[0]) then 0 else 1 + Cut(items[1..])
  }

  /** Every finding comes from a readable file holding a keyword, examined
      before anything in its directory threw; other files yield nothing. */
  lemma {:induction false} FindingsComeFromKeywordFiles(dir: string, items: seq<Node>)
    ensures forall f :: f in LocalFindings(dir, items) ==>
      exists k :: 0 <= k < Cut(items) && IsHit(items[k]) && f == FindingFor(dir, items[k])
  {
    if |items| > 0 && !Fails(items[0]) {
      FindingsComeFromKeywordFiles(dir, items[1..]);
      forall f | f in LocalFindings(dir, items)
        ensures exists k :: 0 <= k < Cut(items) && IsHit(items[k]) && f == FindingFor(dir, items[k])
      {
        if IsHit(items[0]) && f == FindingFor(dir, items[0]) {
        } else {
          var k :| 0 <= k < Cut(items[1..]) && IsHit(items[1..][k]) && f == FindingFor(dir, items[1..][k]);
          assert items[1..][k] == items[k + 1];
        }
      }
    }
  }

  /** In a listing of distinct names no file yields two findings. */
  lemma {:induction false} OneFindingPerFile(dir: string, items: seq<Node>)
    requires DistinctNames(items)
    ensures forall i, j :: 0 <= i < j < |LocalFindings(dir, items)| ==>
      LocalFindings(dir, items)[i].fullPath != LocalFindings(dir, items)[j].fullPath
  {
    if |items| > 0 && !Fails(items[0]) {
      assert DistinctNames(items[1..]);
      OneFindingPerFile(dir, items[1..]);
      if IsHit(items[0]) {
        HeadApartFromRest(dir, items);
        assert LocalFindings(dir, items) == [FindingFor(dir, items[0])] + LocalFindings(dir, items[1..]);
      }
    }
  }

  /** The first entry's path differs from every path the later entries
      yield. */
  lemma HeadApartFromRest(dir: string, items: seq<Node>)
    requires DistinctNames(items) && |items| > 0
    ensures forall j :: 0 <= j < |LocalFindings(dir, items[1..])| ==>
      Join(dir, items[0].name) != LocalFindings(dir, items[1..])[j].fullPath
  {
    var rest := LocalFindings(dir, items[1..]);
    FindingsComeFromKeywordFiles(dir, items[1..]);
    forall j | 0 <= j < |rest|
      ensures Join(dir, items[0].name) != rest[j].fullPath
    {
      assert rest[j] in rest;
      var k :| 0 <= k < Cut(items[1..]) && IsHit(items[1..][k]) && rest[j] == FindingFor(dir, items[1..][k]);
      assert items[1..][k] == items[k + 1];
      JoinInjective(dir, items[0].name, items[k + 1].name);
    }
  }

  /** No two findings share a path. */
  predicate UniquePaths(fs: seq<SecretFinding>)
  {
    forall i, j :: 0 <= i < j < |fs| ==> fs[i].fullPath != fs[j].fullPath
  }

  lemma {:induction false} UniqueConcat(a: seq<SecretFinding>, b: seq<SecretFinding>)
    requires UniquePaths(a) && UniquePaths(b)
    requires forall x, y :: x in a && y in b ==> x.fullPath != y.fullPath
    ensures UniquePaths(a + b)
  {
    forall i, j | 0 <= i < j < |a + b|
      ensures (a + b)[i].fullPath != (a + b)[j].fullPath
    {
      if j < |a| {
      } else if i >= |a| {
        assert (a + b)[i] == b[i - |a|] && (a + b)[j] == b[j - |a|];
      } else {
        assert (a + b)[i] in a && (a + b)[j] in b;
      }
    }
  }

  /** Directories pushed from one listing: each is the entry of `dir` with
      its own valid name, well formed, and no two share a name. */
  predicate SiblingStack(dir: string, stack: seq<Pending>)
  {
    && (forall i :: 0 <= i < |stack| ==>
          ValidName(stack[i].node.name) && WellFormed(stack[i].node) && stack[i].path == Join(dir, stack[i].node.name))
    && (forall i, j :: 0 <= i < j < |stack| ==> stack[i].node.name != stack[j].node.name)
  }

  /** Each pushed directory is a directory entry of the listing. */
  lemma {:induction false} SubdirsFromItems(dir: string, items: seq<Node>)
    ensures forall p :: p in Subdirs(dir, items) ==>
      exists k :: 0 <= k < |items| && items[k].Dir? && p == Pending(Join(dir, items[k].name), items[k])
  {
    if |items| > 0 && !Fails(items[0]) {
      SubdirsFromItems(dir, items[1..]);
      forall p | p in Subdirs(dir, items)
        ensures exists k :: 0 <= k < |items| && items[k].Dir? && p == Pending(Join(dir, items[k].name), items[k])
      {
        if p !in Pushed(dir, items[0]) {
          var k :| 0 <= k < |items[1..]| && items[1..][k].Dir? && p == Pending(Join(dir, items[1..][k].name), items[1..][k]);
          assert items[1..][k] == items[k + 1];
        }
      }
    }
  }

  /** The directories one well-formed listing pushes form a sibling stack. */
  lemma {:induction false} SubdirsAreSiblings(dir: string, items: seq<Node>)
    requires WellFormedEntries(items)
    ensures SiblingStack(dir, Subdirs(dir, items))
  {
    if |items| > 0 && !Fails(items[0]) {
      assert WellFormedEntries(items[1..]);
      SubdirsAreSiblings(dir, items[1..]);
      if items[0].Dir? {
        var rest := Subdirs(dir, items[1..]);
        SubdirsFromItems(dir, items[1..]);
        forall j | 0 <= j < |rest|
          ensures items[0].name != rest[j].node.name
        {
          assert rest[j] in rest;
          var k :| 0 <= k < |items[1..]| && items[1..][k].Dir? && rest[j] == Pending(Join(dir, items[1..][k].name), items[1..][k]);
          assert items[1..][k] == items[k + 1];
        }
        SiblingCons(dir, Pending(Join(dir, items[0].name), items[0]), rest);
      }
    }
  }

  lemma {:induction false} SiblingCons(dir: string, p: Pending, rest: seq<Pending>)
    requires ValidName(p.node.name) && WellFormed(p.node) && p.path == Join(dir, p.node.name)
    requires SiblingStack(dir, rest)
    requires forall j :: 0 <= j < |rest| ==> p.node.name != rest[j].node.name
    ensures SiblingStack(dir, [p] + rest)
  {
    var s := [p] + rest;
    forall i, j | 0 <= i < j < |s|
      ensures s[i].node.name != s[j].node.name
    {
      assert s[j] == rest[j - 1];
      if i > 0 {
        assert s[i] == rest[i - 1];
      }
    }
    forall i | 0 <= i < |s|
      ensures ValidName(s[i].node.name) && WellFormed(s[i].node) && s[i].path == Join(dir, s[i].node.name)
    {
      if i > 0 {
        assert s[i] == rest[i - 1];
      }
    }
  }

  /** Across the whole walk from a well-formed directory, no two findings
      share a path, and every finding lies strictly beneath the start and
      ends in a name. */
  lemma {:induction false} OneFindingPerWalk(dir: string, n: Node)
    requires WellFormed(n)
    ensures UniquePaths(SecretsBeneath(dir, n))
    ensures forall f :: f in SecretsBeneath(dir, n) ==> IsAncestor(dir, f.fullPath) && EndsInName(f.fullPath)
    decreases Size(n), 0
  {
    match ReadDir(dir, n)
    case Err(_) =>
    case Ok(items) =>
      ReadDirWellFormed(dir, n);
      var local := LocalFindings(dir, items);
      var stack := Subdirs(dir, items);
      SubdirsAreSiblings(dir, items);
      OneFindingPerStack(dir, stack);
      LocalFindingsBeneath(dir, items);
      OneFindingPerFile(dir, items);
      LocalApartFromStack(dir, items);
      UniqueConcat(local, SecretsOfStack(stack));
  }

  /** A listing's own findings are entries of `dir` with valid names. */
  lemma {:induction false} LocalFindingsBeneath(dir: string, items: seq<Node>)
    requires WellFormedEntries(items)
    ensures forall f :: f in LocalFindings(dir, items) ==> IsAncestor(dir, f.fullPath) && EndsInName(f.fullPath)
  {
    FindingsComeFromKeywordFiles(dir, items);
    forall f | f in LocalFindings(dir, items)
      ensures IsAncestor(dir, f.fullPath) && EndsInName(f.fullPath)
    {
      var k :| 0 <= k < Cut(items) && IsHit(items[k]) && f == FindingFor(dir, items[k]);
      JoinEndsInName(dir, items[k].name);
    }
  }

  /** A listing's own files and what its subdirectories yield never share
      a path. */
  lemma {:induction false} LocalApartFromStack(dir: string, items: seq<Node>)
    requires WellFormedEntries(items)
    requires forall g :: g in SecretsOfStack(Subdirs(dir, items)) ==>
      EndsInName(g.fullPath) && exists i :: 0 <= i < |Subdirs(dir, items)| && Under(dir, Subdirs(dir, items)[i].node.name, g.fullPath)
    ensures forall f, g :: f in LocalFindings(dir, items) && g in SecretsOfStack(Subdirs(dir, items)) ==> f.fullPath != g.fullPath
  {
    var stack := Subdirs(dir, items);
    FindingsComeFromKeywordFiles(dir, items);
    SubdirsFromItems(dir, items);
    forall f, g | f in LocalFindings(dir, items) && g in SecretsOfStack(stack)
      ensures f.fullPath != g.fullPath
    {
      var k1 :| 0 <= k1 < Cut(items) && IsHit(items[k1]) && f == FindingFor(dir, items[k1]);
      var i :| 0 <= i < |stack| && Under(dir, stack[i].node.name, g.fullPath);
      assert stack[i] in stack;
      var k2 :| 0 <= k2 < |items| && items[k2].Dir? && stack[i] == Pending(Join(dir, items[k2].name), items[k2]);
      assert k1 != k2;
      JoinEndsInName(dir, items[k1].name);
      UnderDistinct(dir, items[k1].name, items[k2].name, f.fullPath, g.fullPath);
    }
  }

  /** From a sibling stack, no two findings share a path, and each lies
      under the entry of `dir` it was pushed as. */
  lemma {:induction false} OneFindingPerStack(dir: string, stack: seq<Pending>)
    requires SiblingStack(dir, stack)
    ensures UniquePaths(SecretsOfStack(stack))
    ensures forall g :: g in SecretsOfStack(stack) ==>
      EndsInName(g.fullPath) && exists i :: 0 <= i < |stack| && Under(dir, stack[i].node.name, g.fullPath)
    decreases StackSize(stack), 1
  {
    if |stack| > 0 {
      var init, top := stack[..|stack| - 1], stack[|stack| - 1];
      Pop(stack);
      assert Size(top.node) >= 1;
      OneFindingPerWalk(top.path, top.node);
      assert SiblingStack(dir, init);
      OneFindingPerStack(dir, init);
      var here := SecretsBeneath(top.path, top.node);
      forall f | f in here
        ensures Under(dir, top.node.name, f.fullPath)
      {
        BeneathIsUnder(dir, top.node.name, f.fullPath);
      }
      forall i | 0 <= i < |init|
        ensures ValidName(init[i].node.name) && init[i].node.name != top.node.name
      {
        assert init[i] == stack[i];
      }
      TopApartFromRest(dir, init, top);
      UniqueConcat(here, SecretsOfStack(init));
      forall g | g in SecretsOfStack(stack)
        ensures exists i :: 0 <= i < |stack| && Under(dir, stack[i].node.name, g.fullPath)
      {
        if g !in here {
          var i :| 0 <= i < |init| && Under(dir, init[i].node.name, g.fullPath);
          assert stack[i] == init[i];
        }
      }
    }
  }

  /** What a directory of a differently named sibling yields lies apart
      from what the other siblings yield. */
  lemma {:induction false} TopApartFromRest(dir: string, init: seq<Pending>, top: Pending)
    requires ValidName(top.node.name)
    requires forall i :: 0 <= i < |init| ==> ValidName(init[i].node.name) && init[i].node.name != top.node.name
    requires forall f :: f in SecretsBeneath(top.path, top.node) ==> Under(dir, top.node.name, f.fullPath)
    requires forall g :: g in SecretsOfStack(init) ==>
      EndsInName(g.fullPath) && exists i :: 0 <= i < |init| && Under(dir, init[i].node.name, g.fullPath)
    ensures forall f, g :: f in SecretsBeneath(top.path, top.node) && g in SecretsOfStack(init)
              ==> f.fullPath != g.fullPath
  {
    forall f, g | f in SecretsBeneath(top.path, top.node) && g in SecretsOfStack(init)
      ensures f.fullPath != g.fullPath
    {
      var i :| 0 <= i < |init| && Under(dir, init[i].node.name, g.fullPath);
      UnderDistinct(dir, top.node.name, init[i].node.name, f.fullPath, g.fullPath);
    }
  }

  lemma JoinInjective(dir: string, a: string, b: string)
    requires a != b
    ensures Join(dir, a) != Join(dir, b)
  {
    assert Join(dir, a)[|Sep(dir)|..] == a;
    assert Join(dir, b)[|Sep(dir)|..] == b;
  }

  /** Links are not followed and not read: removing one from a listing
      changes nothing. */
  lemma {:induction false} LinksAreIgnored(dir: string, before: seq<Node>, link: Node, after: seq<Node>)
    requires link.Symlink?
    ensures LocalFindings(dir, before + [link] + after) == LocalFindings(dir, before + after)
    ensures Subdirs(dir, before + [link] + after) == Subdirs(dir, before + after)
  {
    if |before| == 0 {
      assert (before + [link] + after)[1..] == after;
      assert before + after == after;
    } else {
      assert (before + [link] + after)[1..] == before[1..] + [link] + after;
      assert (before + after)[1..] == before[1..] + after;
      LinksAreIgnored(dir, before[1..], link, after);
    }
  }

  /** Every subdirectory examined is pushed and scanned, whatever its name:
      `.git` is not excluded. */
  lemma {:induction false} EverySubdirectoryIsPushed(dir: string, items: seq<Node>, k: nat)
    requires k < |items| && Clean(items[..k]) && items[k].Dir?
    ensures Pending(Join(dir, items[k].name), items[k]) in Subdirs(dir, items)
  {
    if k > 0 {
      assert items[..k][0] == items[0];
      assert items[1..][..k - 1] == items[..k][1..];
      EverySubdirectoryIsPushed(dir, items[1..], k - 1);
    }
  }

  /** An entry that throws costs only the rest of its own directory: the
      files before it are reported and the subdirectories pushed before it
      are still scanned. */
  lemma FailureKeepsPushedSubdirectories(dir: string, name: string, before: seq<Node>, bad: Node, after: seq<Node>)
    requires Fails(bad)
    ensures SecretsBeneath(dir, Dir(name, before + [bad] + after, true))
         == LocalFindings(dir, before) + SecretsOfStack(Subdirs(dir, before))
  {
    FailureSkipsRest(dir, before, bad, after);
  }

  /** Sibling subdirectories are scanned in reverse listing order, each
      completely, after the files of their parent. */
  lemma SiblingsInReverseOrder(dir: string, name: string, a: Node, b: Node)
    requires a.Dir? && b.Dir?
    ensures SecretsBeneath(dir, Dir(name, [a, b], true))
         == SecretsBeneath(Join(dir, b.name), b) + SecretsBeneath(Join(dir, a.name), a)
  {
    var items := [a, b];
    var pa := Pending(Join(dir, a.name), a);
    var pb := Pending(Join(dir, b.name), b);
    assert ReadDir(dir, Dir(name, items, true)) == Ok(items);
    assert items[1..] == [b] && [b][1..] == [];
    assert LocalFindings(dir, items) == [];
    assert Subdirs(dir, [b]) == [pb];
    assert Subdirs(dir, items) == [pa, pb];
    assert [pa, pb][..1] == [pa] && [pa][..0] == [];
    assert SecretsOfStack([pa]) == SecretsBeneath(pa.path, a);
    assert SecretsOfStack([pa, pb]) == SecretsBeneath(pb.path, b) + SecretsOfStack([pa]);
  }

  /** The subdirectories `ds` of `dir` scanned last first, each
      completely: the reference for the order of the stack. */
  function ScanReversed(dir: string, ds: seq<Node>): seq<SecretFinding>
    decreases |ds|
  {
    if |ds| == 0 then []
    else SecretsBeneath(Join(dir, ds[|ds| - 1].name), ds[|ds| - 1]) + ScanReversed(dir, ds[..|ds| - 1])
  }

  /** A listing of readable regular files followed by subdirectories: the
      files' findings come first, in listing order, then each subdirectory
      is scanned completely, the last listed first. */
  lemma {:induction false} FilesThenSiblingsReversed(dir: string, name: string, fs: seq<Node>, ds: seq<Node>)
    requires forall k :: 0 <= k < |fs| ==> fs[k].File? && fs[k].readable
    requires forall k :: 0 <= k < |ds| ==> ds[k].Dir?
    ensures SecretsBeneath(dir, Dir(name, fs + ds, true)) == LocalFindings(dir, fs) + ScanReversed(dir, ds)
  {
    var items := fs + ds;
    var n := Dir(name, items, true);
    assert ReadDir(dir, n) == Ok(items);
    Unfold(dir, n);
    assert Clean(fs);
    LocalFindingsAppend(dir, fs, ds);
    DirectoriesFindNothing(dir, ds);
    assert LocalFindings(dir, items) == LocalFindings(dir, fs);
    SubdirsAppend(dir, fs, ds);
    FilesPushNothing(dir, fs);
    assert Subdirs(dir, items) == Subdirs(dir, ds);
    StackOfDirectories(dir, ds);
  }

  /** The loop over `a + b`, when nothing in `a` throws, records what the
      loop over `a` records followed by what the loop over `b` records. */
  lemma {:induction false} LocalFindingsAppend(dir: string, a: seq<Node>, b: seq<Node>)
    requires Clean(a)
    ensures LocalFindings(dir, a + b) == LocalFindings(dir, a) + LocalFindings(dir, b)
  {
    if |a| == 0 {
      assert a + b == b;
    } else {
      var rest := a[1..];
      assert (a + b)[0] == a[0] && !Fails(a[0]);
      assert (a + b)[1..] == rest + b;
      assert Clean(rest) by {
        forall k | 0 <= k < |rest| ensures !Fails(rest[k]) {
          assert rest[k] == a[k + 1];
        }
      }
      LocalFindingsAppend(dir, rest, b);
    }
  }

  /** Likewise for what the loop pushes. */
  lemma {:induction false} SubdirsAppend(dir: string, a: seq<Node>, b: seq<Node>)
    requires Clean(a)
    ensures Subdirs(dir, a + b) == Subdirs(dir, a) + Subdirs(dir, b)
  {
    if |a| == 0 {
      assert a + b == b;
    } else {
      var rest := a[1..];
      assert (a + b)[0] == a[0] && !Fails(a[0]);
      assert (a + b)[1..] == rest + b;
      assert Clean(rest) by {
        forall k | 0 <= k < |rest| ensures !Fails(rest[k]) {
          assert rest[k] == a[k + 1];
        }
      }
      SubdirsAppend(dir, rest, b);
    }
  }

  lemma {:induction false} FilesPushNothing(dir: string, fs: seq<Node>)
    requires forall k :: 0 <= k < |fs| ==> fs[k].File? && fs[k].readable
    ensures Subdirs(dir, fs) == []
  {
    if |fs| > 0 {
      FilesPushNothing(dir, fs[1..]);
    }
  }

  lemma {:induction false} DirectoriesFindNothing(dir: string, ds: seq<Node>)
    requires forall k :: 0 <= k < |ds| ==> ds[k].Dir?
    ensures LocalFindings(dir, ds) == []
  {
    if |ds| > 0 {
      DirectoriesFindNothing(dir, ds[1..]);
    }
  }

  /** The stack pushed from a listing of subdirectories is scanned in
      reverse listing order. */
  lemma {:induction false} StackOfDirectories(dir: string, ds: seq<Node>)
    requires forall k :: 0 <= k < |ds| ==> ds[k].Dir?
    ensures SecretsOfStack(Subdirs(dir, ds)) == ScanReversed(dir, ds)
    decreases |ds|
  {
    if |ds| > 0 {
      var init, last := ds[..|ds| - 1], ds[|ds| - 1];
      var p := Pending(Join(dir, last.name), last);
      assert init + [last] == ds;
      assert Clean(init);
      SubdirsAppend(dir, init, [last]);
      assert [last][1..] == [];
      assert Subdirs(dir, [last]) == [p];
      StackOfDirectories(dir, init);
      SecretsOfStackAppend(Subdirs(dir, init), [p]);
      assert [p][..0] == [];
      assert SecretsOfStack([p]) == SecretsBeneath(p.path, last) + SecretsOfStack([]);
    }
  }
}
