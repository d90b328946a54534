/** The string operations of the JavaScript standard library that the
    scanner relies on: `includes`, `indexOf`, `split`, `replace` with a
    string pattern, and template interpolation of possibly-undefined values. */
module Text {
  import opened Wrappers

  /** `t` occurs in `s` starting at index `i`. */
  predicate OccursAt(s: string, t: string, i: nat) {
    i + |t| <= |s| && s[i..i + |t|] == t
  }

  /** The leftmost occurrence of `t` in `s` at or after `from`
      (String.prototype.indexOf). */
  function IndexOfFrom(s: string, t: string, from: nat): (r: Option<nat>)
    decreases |s| - from
    ensures r.Some? ==> from <= r.value && OccursAt(s, t, r.value)
    ensures r.Some? ==> forall k: nat :: from <= k < r.value ==> !OccursAt(s, t, k)
    ensures r.None? ==> forall k: nat :: from <= k ==> !OccursAt(s, t, k)
  {
    if from + |t| > |s| then None
    else if s[from..from + |t|] == t then Some(from)
    else IndexOfFrom(s, t, from + 1)
  }

  /** An occurrence with none before it is the one `indexOf` finds. */
  lemma IndexOfLeftmost(s: string, t: string, i: nat)
    requires OccursAt(s, t, i)
    requires forall k: nat :: k < i ==> !OccursAt(s, t, k)
    ensures IndexOfFrom(s, t, 0) == Some(i)
  {
  }

  /** A string occurs at the end of anything it is appended to. */
  lemma OccursAppended(s: string, t: string)
    ensures OccursAt(s + t, t, |s|)
  {
    assert (s + t)[|s|..|s| + |t|] == t;
  }

  /** A string occurs where it is placed between others. */
  lemma OccursPlaced(a: string, t: string, b: string, c: string)
    ensures OccursAt(a + t + b + c, t, |a|)
  {
    assert (a + t + b + c)[|a|..|a| + |t|] == t;
  }

  /** String.prototype.includes: a literal substring test, no wildcards. */
  function Includes(s: string, t: string): (b: bool)
    ensures b <==> exists k: nat :: OccursAt(s, t, k)
  {
    IndexOfFrom(s, t, 0).Some?
  }

  /** An occurrence inside one part is an occurrence inside any string
      built around it. */
  lemma IncludesWithin(a: string, b: string, c: string, t: string)
    requires Includes(b, t)
    ensures Includes(a + b + c, t)
  {
    var k: nat :| OccursAt(b, t, k);
    assert (a + b + c)[|a| + k..|a| + k + |t|] == b[k..k + |t|];
    assert OccursAt(a + b + c, t, |a| + k);
  }

  /** Every character of a pattern found in `s` is a character of `s`. */
  lemma IncludesChars(s: string, t: string, c: char)
    requires Includes(s, t) && c in t
    ensures c in s
  {
    var k: nat :| OccursAt(s, t, k);
    var j :| 0 <= j < |t| && t[j] == c;
    assert s[k + j] == s[k..k + |t|][j];
  }

  /** String.prototype.split with a one-character separator: the pieces
      between consecutive separators, always at least one. */
  function Split(s: string, sep: char): (parts: seq<string>)
    ensures |parts| >= 1
    ensures forall i :: 0 <= i < |parts| ==> sep !in parts[i]
  {
    if |s| == 0 then [""]
    else
      var r := Split(s[1..], sep);
      if s[0] == sep then [""] + r else [[s[0]] + r[0]] + r[1..]
  }

  /** Array.prototype.join with a one-character separator. */
  function JoinWith(parts: seq<string>, sep: char): string
    requires |parts| >= 1
  {
    if |parts| == 1 then parts[0] else parts[0] + [sep] + JoinWith(parts[1..], sep)
  }

  /** Joining the pieces of a split gives the string back. */
  lemma {:induction false} JoinSplit(s: string, sep: char)
    ensures JoinWith(Split(s, sep), sep) == s
  {
    if |s| > 0 {
      var r := Split(s[1..], sep);
      JoinSplit(s[1..], sep);
      if s[0] == sep {
        assert ([""] + r)[1..] == r;
      } else if |r| > 1 {
        var parts := [[s[0]] + r[0]] + r[1..];
        assert parts[1..] == r[1..];
        assert JoinWith(r, sep) == r[0] + [sep] + JoinWith(r[1..], sep);
        assert JoinWith(parts, sep) == [s[0]] + r[0] + [sep] + JoinWith(r[1..], sep);
      }
      assert s == [s[0]] + s[1..];
    }
  }

  /** A separator-free prefix is glued to the first piece of the rest. */
  lemma {:induction false} SplitPrefixed(a: string, rest: string, sep: char)
    requires sep !in a
    ensures var r := Split(rest, sep);
            Split(a + rest, sep) == [a + r[0]] + r[1..]
  {
    if |a| > 0 {
      assert (a + rest)[1..] == a[1..] + rest;
      assert (a + rest)[0] == a[0];
      SplitPrefixed(a[1..], rest, sep);
      var r := Split(rest, sep);
      var r' := Split(a[1..] + rest, sep);
      assert a[0] != sep;
      assert r'[0] == a[1..] + r[0] && r'[1..] == r[1..];
      assert Split(a + rest, sep) == [[a[0]] + r'[0]] + r'[1..];
      assert [a[0]] + (a[1..] + r[0]) == a + r[0];
    } else {
      var r := Split(rest, sep);
      assert a + rest == rest && a + r[0] == r[0];
      assert r == [r[0]] + r[1..];
    }
  }

  /** Splitting a join of separator-free pieces gives the pieces back. */
  lemma {:induction false} SplitJoin(parts: seq<string>, sep: char)
    requires |parts| >= 1
    requires forall i :: 0 <= i < |parts| ==> sep !in parts[i]
    ensures Split(JoinWith(parts, sep), sep) == parts
  {
    if |parts| == 1 {
      SplitPrefixed(parts[0], "", sep);
      assert parts[0] + "" == parts[0];
    } else {
      var tail := JoinWith(parts[1..], sep);
      SplitJoin(parts[1..], sep);
      assert ([sep] + tail)[1..] == tail;
      assert Split([sep] + tail, sep) == [""] + parts[1..];
      SplitPrefixed(parts[0], [sep] + tail, sep);
      assert parts[0] + [sep] + tail == parts[0] + ([sep] + tail);
      assert parts[0] + "" == parts[0];
    }
  }

  /** The last piece of a split is what follows the last separator. */
  lemma {:induction false} SplitLast(prefix: string, sep: char, last: string)
    requires sep !in last
    ensures var parts := Split(prefix + [sep] + last, sep);
            |parts| >= 2 && parts[|parts| - 1] == last
  {
    var s := prefix + [sep] + last;
    if |prefix| == 0 {
      assert s[1..] == last && s[0] == sep;
      SplitPrefixed(last, "", sep);
      assert last + "" == last;
    } else {
      assert s[1..] == prefix[1..] + [sep] + last && s[0] == prefix[0];
      SplitLast(prefix[1..], sep, last);
    }
  }

  /** String.prototype.replace with a string pattern: only the leftmost
      occurrence is replaced. */
  function ReplaceFirst(s: string, t: string, u: string): (r: string)
    ensures !Includes(s, t) ==> r == s
    ensures Includes(s, t) ==> |r| == |s| - |t| + |u|
  {
    match IndexOfFrom(s, t, 0)
    case None => s
    case Some(i) => s[..i] + u + s[i + |t|..]
  }

  /** Putting the pattern back where the replacement went restores the
      original string. */
  lemma ReplaceFirstUndo(s: string, t: string, u: string)
    requires Includes(s, t)
    ensures var i := IndexOfFrom(s, t, 0).value;
            var r := ReplaceFirst(s, t, u);
            i + |u| <= |r| && s == r[..i] + t + r[i + |u|..]
  {
    SpliceUndo(s, t, u, IndexOfFrom(s, t, 0).value);
  }

  /** Replacing an occurrence of `t` at `i` by `u` and then `u` by `t`
      gives the string back. */
  lemma SpliceUndo(s: string, t: string, u: string, i: nat)
    requires OccursAt(s, t, i)
    ensures var r := s[..i] + u + s[i + |t|..];
            i + |u| <= |r| && s == r[..i] + t + r[i + |u|..]
  {
    var r := s[..i] + u + s[i + |t|..];
    assert r[..i] == s[..i] && r[i + |u|..] == s[i + |t|..];
    assert s == s[..i] + s[i..i + |t|] + s[i + |t|..];
  }

  /** Template interpolation `${v}` of a value that may be `undefined`. */
  function Interpolate(v: Option<string>): (s: string)
    ensures v.Some? ==> s == v.value
  {
    match v
    case None => "undefined"
    case Some(x) => x
  }
}
