/** Project-unit discovery: the directories beneath the starting directory
    that hold a `package.json`, found by a recursive, pre-order search that
    lets every file-system error escape to its caller. */
module PackageDirs {
  import opened Wrappers
  import opened FsTree
  import opened Walk

  const Manifest: string := "package.json"

  /** `existsSync(path.join(dir, 'package.json'))`. */
  predicate HasManifest(dir: Node)
  {
    Lookup(dir, Manifest).Some?
  }

  /** A discovered unit: a directory visit whose directory holds the manifest. */
  predicate IsUnit(v: Visit)
  {
    v.node.Dir? && HasManifest(v.node)
  }

  /** `findPackageJsonDirs(dir)`, where `dir` names `n`; a unit carries its
      path and the directory found there. */
  function FindPackageJsonDirs(dir: string, n: Node): (r: Result<seq<Visit>, FsError>)
    ensures r.Ok? ==> forall u :: u in r.value ==> IsUnit(u) && dir <= u.path
    decreases Size(n), 0
  {
    match ReadDir(dir, n)
    case Err(e) => Err(e)
    case Ok(items) => FindIn(dir, items)
  }

  /** The loop over one listing. `statSync` follows links, so a link to a
      directory is searched like the directory itself. */
  function FindIn(dir: string, items: seq<Node>): (r: Result<seq<Visit>, FsError>)
    ensures r.Ok? ==> forall u :: u in r.value ==> IsUnit(u) && dir <= u.path
    decreases SizeAll(items), 1
  {
    if |items| == 0 then Ok([])
    else
      var fullPath := Join(dir, items[0].name);
      match Stat(items[0])
      case None => Err(NoSuchEntry(fullPath))
      case Some(stat) =>
        if stat.Dir? then
          var here := if HasManifest(stat) then [Visit(fullPath, stat)] else [];
          match FindPackageJsonDirs(fullPath, stat)
          case Err(e) => Err(e)
          case Ok(sub) =>
            match FindIn(dir, items[1..])
            case Err(e) => Err(e)
            case Ok(rest) => Ok(here + sub + rest)
        else FindIn(dir, items[1..])
  }

  /** Nothing on the way fails: every directory reached can be listed and
      every entry listed can be stat'ed. */
  predicate Intact(n: Node)
    decreases Size(n), 0
  {
    match ReadDir("", n)
    case Err(_) => false
    case Ok(es) => IntactAll(es)
  }

  predicate IntactAll(es: seq<Node>)
    decreases SizeAll(es), 1
  {
    |es| == 0 ||
    (Stat(es[0]).Some?
     && (Stat(es[0]).value.Dir? ==> Intact(Stat(es[0]).value))
     && IntactAll(es[1..]))
  }

  lemma ReadDirPathIrrelevant(a: string, b: string, n: Node)
    ensures ReadDir(a, n).Ok? == ReadDir(b, n).Ok?
    ensures ReadDir(a, n).Ok? ==> ReadDir(a, n).value == ReadDir(b, n).value
  {
  }

  /** Discovery succeeds exactly when nothing on the way fails: errors are
      never caught. */
  lemma {:induction false} FindSucceedsIffIntact(dir: string, n: Node)
    ensures FindPackageJsonDirs(dir, n).Ok? <==> Intact(n)
    decreases Size(n), 0
  {
    ReadDirPathIrrelevant(dir, "", n);
    match ReadDir(dir, n)
    case Err(_) =>
    case Ok(items) => FindInSucceedsIffIntact(dir, items);
  }

  lemma {:induction false} FindInSucceedsIffIntact(dir: string, items: seq<Node>)
    ensures FindIn(dir, items).Ok? <==> IntactAll(items)
    decreases SizeAll(items), 1
  {
    if |items| > 0 {
      match Stat(items[0])
      case None =>
      case Some(stat) =>
        var fullPath := Join(dir, items[0].name);
        if stat.Dir? {
          FindSucceedsIffIntact(fullPath, stat);
        }
        FindInSucceedsIffIntact(dir, items[1..]);
    }
  }

  /** On success the units are exactly the directories the walk reaches that
      hold the manifest, in the walk's pre-order. */
  lemma {:induction false} FindSelectsReached(dir: string, n: Node)
    requires FindPackageJsonDirs(dir, n).Ok?
    ensures FindPackageJsonDirs(dir, n).value == Select(Reached(dir, n), IsUnit)
    decreases Size(n), 0
  {
    match ReadDir(dir, n)
    case Err(_) =>
    case Ok(items) => FindInSelectsReached(dir, items);
  }

  lemma {:induction false} FindInSelectsReached(dir: string, items: seq<Node>)
    requires FindIn(dir, items).Ok?
    ensures FindIn(dir, items).value == Select(ReachedIn(dir, items), IsUnit)
    decreases SizeAll(items), 1
  {
    if |items| > 0 {
      var stat := Stat(items[0]).value;
      var p := Join(dir, items[0].name);
      var sub := if stat.Dir? then Reached(p, stat) else [];
      var rest := ReachedIn(dir, items[1..]);
      assert ReachedIn(dir, items) == [Visit(p, stat)] + sub + rest;
      SelectConcat([Visit(p, stat)], sub, IsUnit);
      SelectConcat([Visit(p, stat)] + sub, rest, IsUnit);
      if stat.Dir? {
        FindSelectsReached(p, stat);
      }
      FindInSelectsReached(dir, items[1..]);
    }
  }

  /** A directory is returned exactly when the search reaches it and it holds
      a `package.json`; files contribute nothing. */
  lemma UnitIff(dir: string, n: Node, v: Visit)
    requires FindPackageJsonDirs(dir, n).Ok?
    ensures v in FindPackageJsonDirs(dir, n).value <==> v in Reached(dir, n) && v.node.Dir? && HasManifest(v.node)
  {
    FindSelectsReached(dir, n);
  }

  /** Every unit lies strictly beneath the starting directory, which is
      therefore never a unit itself, whatever it holds. */
  lemma UnitsAreStrictDescendants(dir: string, n: Node)
    requires WellFormed(n) && FindPackageJsonDirs(dir, n).Ok?
    ensures forall u :: u in FindPackageJsonDirs(dir, n).value ==> IsAncestor(dir, u.path) && u.path != dir
  {
    FindSelectsReached(dir, n);
    ReachedUnder(dir, n);
  }

  /** Nested units are all listed, each once, parents before the units
      nested in them. */
  lemma UnitsOnceInPreOrder(dir: string, n: Node)
    requires WellFormed(n) && FindPackageJsonDirs(dir, n).Ok?
    ensures PreOrdered(Paths(FindPackageJsonDirs(dir, n).value))
  {
    FindSelectsReached(dir, n);
    ReachedPreOrdered(dir, n);
    SelectPreOrdered(Reached(dir, n), IsUnit);
  }

  /** An entry that is a link to a directory is searched exactly as if the
      directory stood there under the link's name. */
  lemma LinkedDirectoryIsSearched(dir: string, name: string, target: Node, rest: seq<Node>)
    requires target.Dir?
    ensures var viaLink := FindIn(dir, [Symlink(name, Some(target))] + rest);
            var direct := FindIn(dir, [Dir(name, target.entries, target.listable)] + rest);
            viaLink.Ok? == direct.Ok? && (viaLink.Ok? ==> Paths(viaLink.value) == Paths(direct.value))
  {
    var link := [Symlink(name, Some(target))] + rest;
    var plain := [Dir(name, target.entries, target.listable)] + rest;
    assert link[1..] == rest && plain[1..] == rest;
    var p := Join(dir, name);
    assert ReadDir(p, target) == ReadDir(p, Dir(name, target.entries, target.listable));
    assert Lookup(target, Manifest) == Lookup(Dir(name, target.entries, target.listable), Manifest);
    var a := FindPackageJsonDirs(p, target);
    var b := FindPackageJsonDirs(p, Dir(name, target.entries, target.listable));
    assert a == b;
    var r := FindIn(dir, rest);
    if a.Ok? && r.Ok? {
      var here := if HasManifest(target) then [Visit(p, target)] else [];
      var here' := if HasManifest(target) then [Visit(p, Dir(name, target.entries, target.listable))] else [];
      assert FindIn(dir, link).value == here + a.value + r.value;
      assert FindIn(dir, plain).value == here' + a.value + r.value;
      PathsConcat(here, a.value);
      PathsConcat(here + a.value, r.value);
      PathsConcat(here', a.value);
      PathsConcat(here' + a.value, r.value);
    }
  }
}
