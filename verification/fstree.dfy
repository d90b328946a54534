/** The file system the scanner reads, as an immutable tree.

    A directory's `entries` are in the order `readdir` lists them. Each node
    carries the flags that decide whether the calls the program makes on it
    fail: `listable` (readdir), `readable` (readFile). A `Vanished` entry was
    listed by readdir but is gone by the time it is stat'ed. A `Symlink`
    points at the node it resolves to, or at nothing when it dangles; the
    target's own `name` plays no role. Cyclic links cannot be written down. */
module FsTree {
  import opened Wrappers

  datatype Node =
    | File(name: string, content: string, mode: bv32, readable: bool)
    | Dir(name: string, entries: seq<Node>, listable: bool)
    | Symlink(name: string, target: Option<Node>)
    | Vanished(name: string)

  /** What a failed call throws, with the path it was made on. */
  datatype FsError =
    | NoSuchEntry(path: string)      // ENOENT
    | NotADirectory(path: string)    // ENOTDIR
    | AccessDenied(path: string)     // EACCES
    | IsADirectory(path: string)     // EISDIR

  /** Number of nodes, counting link targets: the termination measure of
      every walk that follows links. */
  function Size(n: Node): nat
  {
    match n
    case File(_, _, _, _) => 1
    case Dir(_, es, _) => 1 + SizeAll(es)
    case Symlink(_, t) => 1 + (if t.Some? then Size(t.value) else 0)
    case Vanished(_) => 1
  }

  function SizeAll(es: seq<Node>): nat
  {
    if |es| == 0 then 0 else Size(es[0]) + SizeAll(es[1..])
  }

  /** `fs.stat`: follows links; fails on vanished entries and dangling links. */
  function Stat(n: Node): (r: Option<Node>)
    ensures r.Some? ==> r.value.File? || r.value.Dir?
    ensures r.Some? ==> Size(r.value) <= Size(n)
    ensures (n.File? || n.Dir?) ==> r == Some(n)
  {
    match n
    case Vanished(_) => None
    case Symlink(_, t) => if t.None? then None else Stat(t.value)
    case _ => Some(n)
  }

  /** `fs.readdir` on the path that names `n`: the entries of the directory
      `n` resolves to, or the error it throws. */
  function ReadDir(path: string, n: Node): (r: Result<seq<Node>, FsError>)
    ensures r.Ok? ==> SizeAll(r.value) < Size(n)
    ensures r.Ok? ==> Stat(n).Some? && Stat(n).value.Dir? && Stat(n).value.listable
  {
    match Stat(n)
    case None => Err(NoSuchEntry(path))
    case Some(t) =>
      if !t.Dir? then Err(NotADirectory(path))
      else if !t.listable then Err(AccessDenied(path))
      else Ok(t.entries)
  }

  /** The first entry called `name`. */
  function FindNamed(es: seq<Node>, name: string): (r: Option<Node>)
    ensures r.Some? ==> r.value in es && r.value.name == name
    ensures r.None? ==> forall i :: 0 <= i < |es| ==> es[i].name != name
  {
    if |es| == 0 then None
    else if es[0].name == name then Some(es[0])
    else FindNamed(es[1..], name)
  }

  /** What the path `<dir>/<name>` resolves to, following links: `None` is
      where `existsSync` answers false and `stat`/`readFile` throw ENOENT.
      Looking a name up needs search permission only, so `listable` plays no
      role here. */
  function Lookup(dir: Node, name: string): (r: Option<Node>)
    ensures r.Some? ==> r.value.File? || r.value.Dir?
    ensures r.Some? ==> Stat(dir).Some? && Stat(dir).value.Dir?
    ensures r.Some? ==> exists e :: e in Stat(dir).value.entries && e.name == name && Stat(e) == r
  {
    match Stat(dir)
    case Some(Dir(_, es, _)) =>
      (match FindNamed(es, name)
       case None => None
       case Some(e) => Stat(e))
    case _ => None
  }

  // ---------------------------------------------------------------------
  // Paths

  /** The prefix `path.join(dir, name)` puts in front of `name`. */
  function Sep(dir: string): string
  {
    if dir == "" then ""
    else if dir[|dir| - 1] == '/' then dir
    else dir + "/"
  }

  /** `path.join(dir, name)` for a directory path in normal form and a name
      read from a directory listing. */
  function Join(dir: string, name: string): (p: string)
    ensures dir <= p
  {
    Sep(dir) + name
  }

  /** A name `readdir` can return. */
  predicate ValidName(name: string)
  {
    |name| > 0 && '/' !in name && name != "." && name != ".."
  }

  predicate DistinctNames(es: seq<Node>)
  {
    forall i, j :: 0 <= i < j < |es| ==> es[i].name != es[j].name
  }

  /** Every directory in the tree lists valid, pairwise distinct names, as a
      real file system guarantees. */
  predicate WellFormed(n: Node)
  {
    match n
    case Dir(_, es, _) =>
      DistinctNames(es) && forall i :: 0 <= i < |es| ==> ValidName(es[i].name) && WellFormed(es[i])
    case Symlink(_, t) => t.Some? ==> WellFormed(t.value)
    case _ => true
  }

  /** The entries of a well-formed directory. */
  predicate WellFormedEntries(es: seq<Node>)
  {
    DistinctNames(es) && forall i :: 0 <= i < |es| ==> ValidName(es[i].name) && WellFormed(es[i])
  }

  lemma ReadDirWellFormed(path: string, n: Node)
    requires WellFormed(n) && ReadDir(path, n).Ok?
    ensures WellFormedEntries(ReadDir(path, n).value)
  {
    StatWellFormed(n);
  }

  lemma {:induction false} StatWellFormed(n: Node)
    requires WellFormed(n) && Stat(n).Some?
    ensures WellFormed(Stat(n).value)
  {
    if n.Symlink? {
      StatWellFormed(n.target.value);
    }
  }

  /** `a` is a proper ancestor of `b`: `b` lies beneath the directory `a`. */
  predicate IsAncestor(a: string, b: string)
  {
    Sep(a) < b
  }

  /** A path produced by joining a valid name: it does not end in a slash. */
  predicate EndsInName(p: string)
  {
    |p| > 0 && p[|p| - 1] != '/'
  }

  /** `q` is the entry `name` of `dir` or lies beneath it. */
  predicate Under(dir: string, name: string, q: string)
  {
    Join(dir, name) <= q && (|q| == |Join(dir, name)| || q[|Join(dir, name)|] == '/')
  }

  lemma JoinEndsInName(dir: string, name: string)
    requires ValidName(name)
    ensures EndsInName(Join(dir, name))
    ensures Sep(Join(dir, name)) == Join(dir, name) + "/"
  {
    assert Join(dir, name)[|Join(dir, name)| - 1] == name[|name| - 1];
  }

  /** The text of `r` before its first slash. */
  function FirstComponent(r: string): string
  {
    if '/' !in r then r else r[..IndexOfSlash(r)]
  }

  function IndexOfSlash(r: string): (i: nat)
    requires '/' in r
    ensures i < |r| && r[i] == '/' && '/' !in r[..i]
  {
    if r[0] == '/' then 0 else 1 + IndexOfSlash(r[1..])
  }

  /** The name of the entry of `dir` under which `q` lies can be read off `q`. */
  lemma UnderComponent(dir: string, name: string, q: string)
    requires ValidName(name) && Under(dir, name, q)
    ensures Sep(dir) <= q && FirstComponent(q[|Sep(dir)|..]) == name
  {
    var r := q[|Sep(dir)|..];
    assert q[..|Sep(dir)|] == Sep(dir);
    assert r[..|name|] == name;
    if |q| > |Join(dir, name)| {
      assert r[|name|] == '/';
      var i := IndexOfSlash(r);
      assert '/' !in r[..|name|];
      assert i == |name|;
    } else {
      assert r == name;
    }
  }

  /** Paths under two different entries of one directory are different,
      and neither lies beneath the other. */
  lemma UnderDistinct(dir: string, n1: string, n2: string, a: string, b: string)
    requires ValidName(n1) && ValidName(n2) && n1 != n2
    requires Under(dir, n1, a) && Under(dir, n2, b) && EndsInName(b)
    ensures a != b && !IsAncestor(b, a)
  {
    UnderComponent(dir, n1, a);
    UnderComponent(dir, n2, b);
    if IsAncestor(b, a) {
      assert Sep(b) == b + "/";
      assert a[|b|] == '/';
      var j := Join(dir, n2);
      assert j <= a;
      assert |a| > |j| ==> a[|j|] == '/' by {
        if |b| > |j| {
          assert a[|j|] == b[|j|];
        }
      }
      UnderComponent(dir, n2, a);
    }
  }

  /** A path strictly beneath the entry `name` of `dir` is under that entry. */
  lemma BeneathIsUnder(dir: string, name: string, q: string)
    requires ValidName(name) && IsAncestor(Join(dir, name), q)
    ensures Under(dir, name, q) && IsAncestor(dir, q)
  {
    JoinEndsInName(dir, name);
    assert q[|Join(dir, name)|] == (Join(dir, name) + "/")[|Join(dir, name)|];
  }
}
