/** The walk shared by unwanted-file scanning and project-unit discovery:
    depth-first, pre-order, listing order, following links with `stat`.
    When listing a directory or stat'ing one of its entries fails, the walk
    skips the rest of that directory and carries on in its parent. */
module Walk {
  import opened Wrappers
  import opened FsTree

  /** An entry the walk reaches: its joined path and what `stat` found there. */
  datatype Visit = Visit(path: string, node: Node)

  /** Everything the walk reaches beneath `dir`, which names `n`. */
  function Reached(dir: string, n: Node): (vs: seq<Visit>)
    ensures forall v :: v in vs ==> v.node.File? || v.node.Dir?
    decreases Size(n), 0
  {
    match ReadDir(dir, n)
    case Err(_) => []
    case Ok(es) => ReachedIn(dir, es)
  }

  /** Everything reached from the listing `es` of `dir`, in listing order. */
  function ReachedIn(dir: string, es: seq<Node>): (vs: seq<Visit>)
    ensures forall v :: v in vs ==> v.node.File? || v.node.Dir?
    decreases SizeAll(es), 1
  {
    if |es| == 0 then []
    else
      match Stat(es[0])
      case None => []
      case Some(t) =>
        var p := Join(dir, es[0].name);
        [Visit(p, t)] + (if t.Dir? then Reached(p, t) else []) + ReachedIn(dir, es[1..])
  }

  function Paths(vs: seq<Visit>): (ps: seq<string>)
    ensures |ps| == |vs| && forall i :: 0 <= i < |vs| ==> ps[i] == vs[i].path
  {
    if |vs| == 0 then [] else [vs[0].path] + Paths(vs[1..])
  }

  /** The visits `keep` selects, in walk order. */
  function Select(vs: seq<Visit>, keep: Visit -> bool): (r: seq<Visit>)
    ensures forall v :: v in r <==> v in vs && keep(v)
  {
    if |vs| == 0 then []
    else (if keep(vs[0]) then [vs[0]] else []) + Select(vs[1..], keep)
  }

  /** Selection distributes over concatenation. */
  lemma {:induction false} SelectConcat(a: seq<Visit>, b: seq<Visit>, keep: Visit -> bool)
    ensures Select(a + b, keep) == Select(a, keep) + Select(b, keep)
  {
    if |a| > 0 {
      assert (a + b)[1..] == a[1..] + b;
      SelectConcat(a[1..], b, keep);
    } else {
      assert a + b == b;
    }
  }

  /** `a` may come before `b` in a pre-order listing without repeats. */
  predicate Precedes(a: string, b: string)
  {
    a != b && !IsAncestor(b, a)
  }

  /** No path repeats, and every directory comes before everything beneath it. */
  predicate PreOrdered(ps: seq<string>)
  {
    forall i, j :: 0 <= i < j < |ps| ==> Precedes(ps[i], ps[j])
  }

  lemma PreOrderedConcat(a: seq<string>, b: seq<string>)
    requires PreOrdered(a) && PreOrdered(b)
    requires forall x, y :: x in a && y in b ==> Precedes(x, y)
    ensures PreOrdered(a + b)
  {
    forall i, j | 0 <= i < j < |a + b|
      ensures Precedes((a + b)[i], (a + b)[j])
    {
      if j < |a| {
      } else if i >= |a| {
        assert (a + b)[i] == b[i - |a|] && (a + b)[j] == b[j - |a|];
      } else {
        assert (a + b)[i] in a && (a + b)[j] in b;
      }
    }
  }

  lemma PathsConcat(a: seq<Visit>, b: seq<Visit>)
    ensures Paths(a + b) == Paths(a) + Paths(b)
  {
  }

  /** Every path reached lies beneath `dir`, under one of its entries, and
      ends in a name. */
  lemma {:induction false} ReachedUnder(dir: string, n: Node)
    requires WellFormed(n)
    ensures forall v :: v in Reached(dir, n) ==> IsAncestor(dir, v.path) && EndsInName(v.path)
    decreases Size(n), 0
  {
    match ReadDir(dir, n)
    case Err(_) =>
    case Ok(es) =>
      ReadDirWellFormed(dir, n);
      ReachedInUnder(dir, es);
      forall v | v in ReachedIn(dir, es)
        ensures IsAncestor(dir, v.path)
      {
        var k :| 0 <= k < |es| && Under(dir, es[k].name, v.path);
        assert |Sep(dir)| < |Join(dir, es[k].name)|;
      }
  }

  lemma {:induction false} ReachedInUnder(dir: string, es: seq<Node>)
    requires WellFormedEntries(es)
    ensures forall v :: v in ReachedIn(dir, es) ==>
      EndsInName(v.path) && exists k :: 0 <= k < |es| && Under(dir, es[k].name, v.path)
    decreases SizeAll(es), 1
  {
    if |es| > 0 {
      match Stat(es[0])
      case None =>
      case Some(t) =>
        var p := Join(dir, es[0].name);
        JoinEndsInName(dir, es[0].name);
        assert Under(dir, es[0].name, p);
        var sub := if t.Dir? then Reached(p, t) else [];
        if t.Dir? {
          StatWellFormed(es[0]);
          ReachedUnder(p, t);
          forall v | v in sub
            ensures Under(dir, es[0].name, v.path)
          {
            BeneathIsUnder(dir, es[0].name, v.path);
          }
        }
        assert WellFormedEntries(es[1..]);
        ReachedInUnder(dir, es[1..]);
        forall v | v in ReachedIn(dir, es[1..])
          ensures exists k :: 0 <= k < |es| && Under(dir, es[k].name, v.path)
        {
          var k :| 0 <= k < |es[1..]| && Under(dir, es[1..][k].name, v.path);
          assert Under(dir, es[k + 1].name, v.path);
        }
        assert ReachedIn(dir, es) == [Visit(p, t)] + sub + ReachedIn(dir, es[1..]);
    }
  }

  /** The walk lists each path at most once, and every directory before
      everything beneath it. */
  lemma {:induction false} ReachedPreOrdered(dir: string, n: Node)
    requires WellFormed(n)
    ensures PreOrdered(Paths(Reached(dir, n)))
    decreases Size(n), 0
  {
    match ReadDir(dir, n)
    case Err(_) =>
    case Ok(es) =>
      ReadDirWellFormed(dir, n);
      ReachedInPreOrdered(dir, es);
  }

  lemma {:induction false} ReachedInPreOrdered(dir: string, es: seq<Node>)
    requires WellFormedEntries(es)
    ensures PreOrdered(Paths(ReachedIn(dir, es)))
    decreases SizeAll(es), 2
  {
    if |es| > 0 {
      match Stat(es[0])
      case None =>
      case Some(t) =>
        var p := Join(dir, es[0].name);
        var sub := if t.Dir? then Reached(p, t) else [];
        var rest := ReachedIn(dir, es[1..]);
        EntryBlockPreOrdered(dir, es);
        assert WellFormedEntries(es[1..]);
        ReachedInPreOrdered(dir, es[1..]);
        BlockPrecedesRest(dir, es, [p] + Paths(sub));
        PreOrderedConcat([p] + Paths(sub), Paths(rest));
        PathsConcat([Visit(p, t)], sub);
        PathsConcat([Visit(p, t)] + sub, rest);
    }
  }

  /** The block of the first entry of a listing, its own path and then its
      subtree, is pre-ordered and lies under the entry. */
  lemma {:induction false} EntryBlockPreOrdered(dir: string, es: seq<Node>)
    requires WellFormedEntries(es) && |es| > 0 && Stat(es[0]).Some?
    ensures var t := Stat(es[0]).value;
            var p := Join(dir, es[0].name);
            var block := [p] + Paths(if t.Dir? then Reached(p, t) else []);
            PreOrdered(block) && forall x :: x in block ==> Under(dir, es[0].name, x) && EndsInName(x)
    decreases SizeAll(es), 1
  {
    var t := Stat(es[0]).value;
    var name := es[0].name;
    var p := Join(dir, name);
    JoinEndsInName(dir, name);
    var sub := if t.Dir? then Reached(p, t) else [];
    if t.Dir? {
      StatWellFormed(es[0]);
      ReachedPreOrdered(p, t);
      ReachedUnder(p, t);
    }
    forall y | y in Paths(sub)
      ensures Precedes(p, y) && Under(dir, name, y) && EndsInName(y)
    {
      var i :| 0 <= i < |sub| && Paths(sub)[i] == y;
      assert sub[i] in sub;
      BeneathIsUnder(dir, name, y);
    }
    PreOrderedConcat([p], Paths(sub));
  }

  /** Paths under the first entry come before everything reached from the
      later entries, whose names differ from it. */
  lemma BlockPrecedesRest(dir: string, es: seq<Node>, block: seq<string>)
    requires WellFormedEntries(es) && |es| > 0
    requires forall x :: x in block ==> Under(dir, es[0].name, x) && EndsInName(x)
    ensures forall x, y :: x in block && y in Paths(ReachedIn(dir, es[1..])) ==> Precedes(x, y)
  {
    var rest := ReachedIn(dir, es[1..]);
    assert WellFormedEntries(es[1..]);
    ReachedInUnder(dir, es[1..]);
    forall x, y | x in block && y in Paths(rest)
      ensures Precedes(x, y)
    {
      var i :| 0 <= i < |rest| && Paths(rest)[i] == y;
      assert rest[i] in rest;
      var k :| 0 <= k < |es[1..]| && Under(dir, es[1..][k].name, y);
      assert es[1..][k] == es[k + 1];
      assert es[0].name != es[k + 1].name && ValidName(es[0].name) && ValidName(es[k + 1].name);
      UnderDistinct(dir, es[k + 1].name, es[0].name, y, x);
      UnderDistinct(dir, es[0].name, es[k + 1].name, x, y);
    }
  }

  /** Selecting visits keeps the walk's order. */
  lemma {:induction false} SelectPreOrdered(vs: seq<Visit>, keep: Visit -> bool)
    requires PreOrdered(Paths(vs))
    ensures PreOrdered(Paths(Select(vs, keep)))
  {
    if |vs| > 0 {
      PreOrderedTail(vs);
      SelectPreOrdered(vs[1..], keep);
      var head := if keep(vs[0]) then [vs[0]] else [];
      var sel := Select(vs[1..], keep);
      HeadPrecedesAll(Paths(vs));
      HeadBeforeSelected(vs, keep);
      assert forall x :: x in Paths(head) ==> x == vs[0].path;
      PreOrderedConcat(Paths(head), Paths(sel));
      PathsConcat(head, sel);
    }
  }

  /** Dropping the first visit keeps the order. */
  lemma PreOrderedTail(vs: seq<Visit>)
    requires |vs| > 0 && PreOrdered(Paths(vs))
    ensures PreOrdered(Paths(vs[1..]))
  {
    var ps := Paths(vs);
    assert ps == [vs[0].path] + Paths(vs[1..]);
    assert Paths(vs[1..]) == ps[1..];
    PreOrderedDrop(ps);
  }

  lemma PreOrderedDrop(ps: seq<string>)
    requires |ps| > 0 && PreOrdered(ps)
    ensures PreOrdered(ps[1..])
  {
    forall i, j | 0 <= i < j < |ps[1..]|
      ensures Precedes(ps[1..][i], ps[1..][j])
    {
      assert ps[1..][i] == ps[i + 1] && ps[1..][j] == ps[j + 1];
    }
  }

  /** The first path of a pre-order listing comes before all the others. */
  lemma HeadPrecedesAll(ps: seq<string>)
    requires PreOrdered(ps)
    ensures forall j :: 0 < j < |ps| ==> Precedes(ps[0], ps[j])
  {
  }

  /** The first visit comes before every later visit a selection keeps. */
  lemma HeadBeforeSelected(vs: seq<Visit>, keep: Visit -> bool)
    requires |vs| > 0
    requires var ps := Paths(vs); forall j :: 0 < j < |ps| ==> Precedes(ps[0], ps[j])
    ensures forall y :: y in Paths(Select(vs[1..], keep)) ==> Precedes(vs[0].path, y)
  {
    var sel := Select(vs[1..], keep);
    forall y | y in Paths(sel)
      ensures Precedes(vs[0].path, y)
    {
      var i :| 0 <= i < |sel| && Paths(sel)[i] == y;
      assert sel[i] in vs[1..];
      var j :| 0 <= j < |vs[1..]| && vs[1..][j] == sel[i];
      assert Paths(vs)[j + 1] == y;
    }
  }

  /** Whatever is reached beneath a reached directory is reached. */
  lemma {:induction false} ReachedClosed(dir: string, n: Node, v: Visit)
    requires v in Reached(dir, n) && v.node.Dir?
    ensures forall w :: w in Reached(v.path, v.node) ==> w in Reached(dir, n)
    decreases Size(n), 0
  {
    match ReadDir(dir, n)
    case Err(_) =>
    case Ok(es) => ReachedInClosed(dir, es, v);
  }

  lemma {:induction false} ReachedInClosed(dir: string, es: seq<Node>, v: Visit)
    requires v in ReachedIn(dir, es) && v.node.Dir?
    ensures forall w :: w in Reached(v.path, v.node) ==> w in ReachedIn(dir, es)
    decreases SizeAll(es), 1
  {
    match Stat(es[0])
    case None =>
    case Some(t) =>
      var p := Join(dir, es[0].name);
      var sub := if t.Dir? then Reached(p, t) else [];
      var rest := ReachedIn(dir, es[1..]);
      assert ReachedIn(dir, es) == [Visit(p, t)] + sub + rest;
      if v == Visit(p, t) {
      } else if v in sub {
        ReachedClosed(p, t, v);
      } else {
        ReachedInClosed(dir, es[1..], v);
      }
  }
}
