/** Unwanted-file scanning: every path the walk reaches is matched against a
    fixed list of literal substrings. */
module Unwanted {
  import opened Wrappers
  import opened Text
  import opened FsTree
  import opened Walk

  /** The fourteen patterns, compared as plain substrings of the joined path:
      `*` is an ordinary character and a trailing `/` must appear in the path. */
  const UnwantedPatterns: seq<string> := [
    ".env", ".git/", ".log", "node_modules/", ".vscode/", ".idea/", ".DS_Store",
    "Thumbs.db", "*.bak", "*.swp", "*.sqlite3", "*.db", "dist/", "build/"
  ]

  /** `patterns.some(pattern => path.includes(pattern))`. */
  function MatchesSome(path: string, patterns: seq<string>): (b: bool)
    ensures b <==> exists i :: 0 <= i < |patterns| && Includes(path, patterns[i])
  {
    if |patterns| == 0 then false
    else Includes(path, patterns[0]) || MatchesSome(path, patterns[1..])
  }

  predicate IsUnwanted(path: string)
  {
    MatchesSome(path, UnwantedPatterns)
  }

  /** `scanDirectoryForUnwantedFiles(dirPath)`, where `dirPath` names `n`.
      It never rejects: a failing `readdir` yields nothing. */
  function ScanDirectoryForUnwantedFiles(dirPath: string, n: Node): (found: seq<string>)
    ensures forall q :: q in found ==> IsUnwanted(q) && dirPath <= q
    decreases Size(n), 0
  {
    match ReadDir(dirPath, n)
    case Err(_) => []
    case Ok(files) => ScanFiles(dirPath, files)
  }

  /** The loop over one listing: a failing `stat` ends it, keeping what was
      collected so far. */
  function ScanFiles(dirPath: string, files: seq<Node>): (found: seq<string>)
    ensures forall q :: q in found ==> IsUnwanted(q) && dirPath <= q
    decreases SizeAll(files), 1
  {
    if |files| == 0 then []
    else
      match Stat(files[0])
      case None => []
      case Some(stat) =>
        var filePath := Join(dirPath, files[0].name);
        (if IsUnwanted(filePath) then [filePath] else [])
        + (if stat.Dir? then ScanDirectoryForUnwantedFiles(filePath, stat) else [])
        + ScanFiles(dirPath, files[1..])
  }

  predicate UnwantedVisit(v: Visit)
  {
    IsUnwanted(v.path)
  }

  /** The scan reports exactly the reached paths that contain a pattern, in
      the order the walk reaches them. */
  lemma {:induction false} ScanSelectsReached(dirPath: string, n: Node)
    ensures ScanDirectoryForUnwantedFiles(dirPath, n) == Paths(Select(Reached(dirPath, n), UnwantedVisit))
    decreases Size(n), 0
  {
    match ReadDir(dirPath, n)
    case Err(_) =>
    case Ok(files) => ScanFilesSelectsReached(dirPath, files);
  }

  lemma {:induction false} ScanFilesSelectsReached(dirPath: string, files: seq<Node>)
    ensures ScanFiles(dirPath, files) == Paths(Select(ReachedIn(dirPath, files), UnwantedVisit))
    decreases SizeAll(files), 1
  {
    if |files| > 0 {
      match Stat(files[0])
      case None =>
      case Some(stat) =>
        var p := Join(dirPath, files[0].name);
        var sub := if stat.Dir? then Reached(p, stat) else [];
        var rest := ReachedIn(dirPath, files[1..]);
        assert ReachedIn(dirPath, files) == [Visit(p, stat)] + sub + rest;
        SelectConcat([Visit(p, stat)], sub, UnwantedVisit);
        SelectConcat([Visit(p, stat)] + sub, rest, UnwantedVisit);
        if stat.Dir? {
          ScanSelectsReached(p, stat);
        }
        ScanFilesSelectsReached(dirPath, files[1..]);
        var head := Select([Visit(p, stat)], UnwantedVisit);
        PathsConcat(head, Select(sub, UnwantedVisit));
        PathsConcat(head + Select(sub, UnwantedVisit), Select(rest, UnwantedVisit));
    }
  }

  /** A path is reported exactly when the walk reaches it and it contains
      one of the patterns. */
  lemma ReportedIff(dirPath: string, n: Node, q: string)
    ensures q in ScanDirectoryForUnwantedFiles(dirPath, n)
        <==> (exists v :: v in Reached(dirPath, n) && v.path == q) && IsUnwanted(q)
  {
    ScanSelectsReached(dirPath, n);
    var sel := Select(Reached(dirPath, n), UnwantedVisit);
    if q in Paths(sel) {
      var i :| 0 <= i < |sel| && Paths(sel)[i] == q;
      assert sel[i] in sel;
    }
    if v :| v in Reached(dirPath, n) && v.path == q && IsUnwanted(q) {
      assert v in sel;
      var i :| 0 <= i < |sel| && sel[i] == v;
      assert Paths(sel)[i] == q;
    }
  }

  /** Each path is reported at most once, and a directory before anything
      beneath it. */
  lemma ReportedOnceInPreOrder(dirPath: string, n: Node)
    requires WellFormed(n)
    ensures PreOrdered(ScanDirectoryForUnwantedFiles(dirPath, n))
  {
    ScanSelectsReached(dirPath, n);
    ReachedPreOrdered(dirPath, n);
    SelectPreOrdered(Reached(dirPath, n), UnwantedVisit);
  }

  /** Every reached path extends the starting directory path. */
  lemma {:induction false} ReachedExtends(dir: string, n: Node)
    ensures forall v :: v in Reached(dir, n) ==> dir <= v.path
    decreases Size(n), 0
  {
    match ReadDir(dir, n)
    case Err(_) =>
    case Ok(es) => ReachedInExtends(dir, es);
  }

  lemma {:induction false} ReachedInExtends(dir: string, es: seq<Node>)
    ensures forall v :: v in ReachedIn(dir, es) ==> dir <= v.path
    decreases SizeAll(es), 1
  {
    if |es| > 0 {
      match Stat(es[0])
      case None =>
      case Some(t) =>
        var p := Join(dir, es[0].name);
        if t.Dir? {
          ReachedExtends(p, t);
        }
        ReachedInExtends(dir, es[1..]);
    }
  }

  lemma {:induction false} SelectAll(vs: seq<Visit>, keep: Visit -> bool)
    requires forall v :: v in vs ==> keep(v)
    ensures Select(vs, keep) == vs
  {
    if |vs| > 0 {
      SelectAll(vs[1..], keep);
    }
  }

  /** When the starting path itself contains a pattern, every reached entry
      is reported. */
  lemma PrefixMatchReportsAll(dirPath: string, n: Node)
    requires IsUnwanted(dirPath)
    ensures ScanDirectoryForUnwantedFiles(dirPath, n) == Paths(Reached(dirPath, n))
  {
    ReachedExtends(dirPath, n);
    forall v | v in Reached(dirPath, n)
      ensures UnwantedVisit(v)
    {
      ExtensionUnwanted(dirPath, v.path);
    }
    SelectAll(Reached(dirPath, n), UnwantedVisit);
    ScanSelectsReached(dirPath, n);
  }

  /** A path extending an unwanted path is unwanted. */
  lemma ExtensionUnwanted(prefix: string, q: string)
    requires IsUnwanted(prefix) && prefix <= q
    ensures IsUnwanted(q)
  {
    var i :| 0 <= i < |UnwantedPatterns| && Includes(prefix, UnwantedPatterns[i]);
    var rest := q[|prefix|..];
    assert [] + prefix + rest == q;
    IncludesWithin([], prefix, rest, UnwantedPatterns[i]);
  }

  /** The patterns starting with `*` match only paths holding a literal `*`:
      on any other path only the remaining ten patterns decide. */
  lemma StarPatternsAreLiteral(path: string)
    requires '*' !in path
    ensures IsUnwanted(path) <==> MatchesSome(path, UnwantedPatterns[..8] + UnwantedPatterns[12..])
  {
    var rest := UnwantedPatterns[..8] + UnwantedPatterns[12..];
    forall i | 8 <= i < 12
      ensures !Includes(path, UnwantedPatterns[i])
    {
      assert UnwantedPatterns[i][0] == '*';
      if Includes(path, UnwantedPatterns[i]) {
        IncludesChars(path, UnwantedPatterns[i], '*');
      }
    }
    if IsUnwanted(path) {
      var i :| 0 <= i < |UnwantedPatterns| && Includes(path, UnwantedPatterns[i]);
      if i < 8 {
        assert rest[i] == UnwantedPatterns[i];
      } else {
        assert rest[i - 4] == UnwantedPatterns[i];
      }
    }
    if MatchesSome(path, rest) {
      var i :| 0 <= i < |rest| && Includes(path, rest[i]);
      if i < 8 {
        assert rest[i] == UnwantedPatterns[i];
      } else {
        assert rest[i] == UnwantedPatterns[i + 4];
      }
    }
  }

  /** A slash-terminated pattern found in the path of an entry lies wholly
      in the directory part: the entry's own name cannot supply the slash. */
  lemma SlashPatternNeedsParent(dirPath: string, name: string, pattern: string)
    requires ValidName(name) && |pattern| > 0 && pattern[|pattern| - 1] == '/'
    requires Includes(Join(dirPath, name), pattern)
    ensures Includes(Sep(dirPath), pattern)
  {
    var s := Join(dirPath, name);
    var k: nat :| OccursAt(s, pattern, k);
    var last := k + |pattern| - 1;
    assert s[last] == pattern[|pattern| - 1];
    assert forall j :: |Sep(dirPath)| <= j < |s| ==> s[j] == name[j - |Sep(dirPath)|];
    assert last < |Sep(dirPath)|;
    assert s[..|Sep(dirPath)|] == Sep(dirPath);
    assert Sep(dirPath)[k..k + |pattern|] == s[k..k + |pattern|];
    assert OccursAt(Sep(dirPath), pattern, k);
  }

  /** A directory called `node_modules` is not reported for its own sake,
      but every entry beneath it is. */
  lemma NodeModulesEntriesReported(dirPath: string, child: string)
    requires !Includes(Sep(dirPath), "node_modules/") && ValidName(child)
    ensures !Includes(Join(dirPath, "node_modules"), "node_modules/")
    ensures IsUnwanted(Join(Join(dirPath, "node_modules"), child))
  {
    if Includes(Join(dirPath, "node_modules"), "node_modules/") {
      SlashPatternNeedsParent(dirPath, "node_modules", "node_modules/");
    }
    JoinEndsInName(dirPath, "node_modules");
    var s := Join(Join(dirPath, "node_modules"), child);
    assert s == Sep(dirPath) + "node_modules/" + child;
    assert OccursAt(s, "node_modules/", |Sep(dirPath)|);
    assert Includes(s, UnwantedPatterns[3]);
  }

  /** A failing `stat` ends the listing: what was collected before it stays,
      the siblings after it are skipped. */
  lemma {:induction false} StatFailureSkipsRest(dirPath: string, before: seq<Node>, bad: Node, after: seq<Node>)
    requires Stat(bad).None?
    ensures ScanFiles(dirPath, before + [bad] + after) == ScanFiles(dirPath, before)
  {
    if |before| > 0 {
      assert (before + [bad] + after)[1..] == before[1..] + [bad] + after;
      StatFailureSkipsRest(dirPath, before[1..], bad, after);
    }
  }
}
