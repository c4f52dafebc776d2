/**
 * The few JavaScript string operations the path helpers are written with:
 * `lastIndexOf` and `indexOf`, `substring` (with its clamping of out-of-range
 * arguments), `replace` with a string pattern, and `split` on one character.
 */
module JsStrings {

  /** `s.lastIndexOf(c)`: the index of the last `c` in `s`, or -1 when there is none. */
  function LastIndexOf(s: string, c: char): (r: int)
    ensures -1 <= r < |s|
    ensures r >= 0 ==> s[r] == c
    ensures forall j :: r < j < |s| ==> s[j] != c
  {
    LastIndexBefore(s, c, |s|)
  }

  /** The index of the last `c` among the first `end` characters of `s`, or -1. */
  function LastIndexBefore(s: string, c: char, end: nat): (r: int)
    requires end <= |s|
    ensures -1 <= r < end
    ensures r >= 0 ==> s[r] == c
    ensures forall j :: r < j < end ==> s[j] != c
  {
    if end == 0 then -1
    else if s[end - 1] == c then end - 1
    else LastIndexBefore(s, c, end - 1)
  }

  /** Nothing after the last `c` is a `c`. */
  lemma NoneAfterLast(s: string, c: char)
    ensures c !in s[LastIndexOf(s, c) + 1..]
  {
    var r := LastIndexOf(s, c);
    NotInSuffix(s, c, r + 1);
  }

  lemma NotInSuffix(s: string, c: char, i: nat)
    requires i <= |s| && forall j :: i <= j < |s| ==> s[j] != c
    ensures c !in s[i..]
  {
    forall k | 0 <= k < |s[i..]| ensures s[i..][k] != c {
      assert s[i..][k] == s[i + k];
    }
  }

  /** A string is the text before index `i`, the character at `i` and the text after it. */
  lemma SplitAround(s: string, i: nat)
    requires i < |s|
    ensures s[..i] + [s[i]] + s[i + 1..] == s
  {
  }

  lemma ThreeParts(s: string, i: nat, j: nat)
    requires i <= j <= |s|
    ensures s[..i] + s[i..j] + s[j..] == s
  {
  }

  lemma ConcatHalves(a: string, b: string)
    ensures (a + b)[..|a|] == a && (a + b)[|a|..] == b
  {
  }

  lemma WholeSuffix(s: string)
    ensures s[0..] == s
  {
  }

  /** The index of the first `c` in `s` at or after `from`, or -1 (`s.indexOf(c, from)`). */
  function IndexOfCharFrom(s: string, c: char, from: nat): (r: int)
    requires from <= |s|
    ensures -1 <= r < |s|
    ensures r >= 0 ==> from <= r && s[r] == c
    ensures forall j :: from <= j < |s| && (r < 0 || j < r) ==> s[j] != c
    decreases |s| - from
  {
    if from == |s| then -1
    else if s[from] == c then from
    else IndexOfCharFrom(s, c, from + 1)
  }

  /** `pat` occurs in `s` starting at index `j`. */
  predicate OccursAt(s: string, pat: string, j: nat)
  {
    j + |pat| <= |s| && s[j..j + |pat|] == pat
  }

  /** `s.indexOf(pat)`: the first index at which `pat` occurs in `s`, or -1. */
  function IndexOf(s: string, pat: string): (r: int)
    ensures -1 <= r <= |s|
    ensures r >= 0 ==> OccursAt(s, pat, r)
    ensures forall j :: 0 <= j <= |s| && (r < 0 || j < r) ==> !OccursAt(s, pat, j)
  {
    IndexOfFrom(s, pat, 0)
  }

  /** The first index at or after `from` at which `pat` occurs in `s`, or -1. */
  function IndexOfFrom(s: string, pat: string, from: nat): (r: int)
    requires from <= |s|
    ensures -1 <= r <= |s|
    ensures r >= 0 ==> from <= r && OccursAt(s, pat, r)
    ensures forall j :: from <= j <= |s| && (r < 0 || j < r) ==> !OccursAt(s, pat, j)
    decreases |s| - from
  {
    if from + |pat| > |s| then -1
    else if s[from..from + |pat|] == pat then from
    else if from == |s| then -1
    else IndexOfFrom(s, pat, from + 1)
  }

  /** A JavaScript index argument clamped to 0..n, as `substring` does. */
  function Clamp(i: int, n: nat): (r: nat)
    ensures r <= n
  {
    if i < 0 then 0 else if i > n then n else i
  }

  /** `s.substring(start, end)`: arguments are clamped to 0..|s| and swapped when start > end. */
  function Substring(s: string, start: int, end: int): string
  {
    var a, b := Clamp(start, |s|), Clamp(end, |s|);
    if a <= b then s[a..b] else s[b..a]
  }

  /** `s.replace(pat, rep)` with a string pattern: only the first occurrence is replaced. */
  function ReplaceFirst(s: string, pat: string, rep: string): string
  {
    var i := IndexOf(s, pat);
    if i < 0 then s else s[..i] + rep + s[i + |pat|..]
  }

  /** `parts.join(c)`: the parts with one `c` between neighbours. */
  function Join(parts: seq<string>, c: char): string
    requires |parts| >= 1
  {
    if |parts| == 1 then parts[0] else parts[0] + [c] + Join(parts[1..], c)
  }

  /** `s.split(c)` for a one-character separator: the pieces between the `c`s, none of
      which holds a `c`, and which join back into `s`. */
  function Split(s: string, c: char): (parts: seq<string>)
    ensures |parts| >= 1
    ensures forall k :: 0 <= k < |parts| ==> c !in parts[k]
    ensures Join(parts, c) == s
  {
    assert s[0..] == s;
    SplitFromFree(s, c, 0);
    SplitFromJoins(s, c, 0);
    SplitFrom(s, c, 0)
  }

  /** The parts of `s[from..].split(c)`. */
  function SplitFrom(s: string, c: char, from: nat): (parts: seq<string>)
    requires from <= |s|
    ensures |parts| >= 1
    decreases |s| - from
  {
    var i := IndexOfCharFrom(s, c, from);
    if i < 0 then [s[from..]] else [s[from..i]] + SplitFrom(s, c, i + 1)
  }

  /** No part from `from` holds a `c`. */
  lemma {:induction false} SplitFromFree(s: string, c: char, from: nat)
    requires from <= |s|
    ensures forall k :: 0 <= k < |SplitFrom(s, c, from)| ==> c !in SplitFrom(s, c, from)[k]
    decreases |s| - from
  {
    var i := IndexOfCharFrom(s, c, from);
    if i < 0 {
      NotInSuffix(s, c, from);
    } else {
      var rest := SplitFrom(s, c, i + 1);
      var parts := [s[from..i]] + rest;
      assert SplitFrom(s, c, from) == parts;
      SplitFromFree(s, c, i + 1);
      assert c !in s[from..i] by {
        NotInSuffix(s[..i], c, from);
        assert s[..i][from..] == s[from..i];
      }
      forall k | 0 <= k < |parts| ensures c !in parts[k] {
        if k > 0 {
          assert parts[k] == rest[k - 1];
        } else {
          assert parts[k] == s[from..i];
        }
      }
    }
  }

  /** The parts from `from` join back into `s[from..]`. */
  lemma {:induction false} SplitFromJoins(s: string, c: char, from: nat)
    requires from <= |s|
    ensures Join(SplitFrom(s, c, from), c) == s[from..]
    decreases |s| - from
  {
    var i := IndexOfCharFrom(s, c, from);
    if i >= 0 {
      var rest := SplitFrom(s, c, i + 1);
      var parts := [s[from..i]] + rest;
      assert SplitFrom(s, c, from) == parts;
      SplitFromJoins(s, c, i + 1);
      assert parts[1..] == rest;
      assert s[from..] == s[from..i] + [c] + s[i + 1..];
    }
  }

  /** The other way round: parts free of `c` that are joined with `c` split back into
      the same parts. */
  lemma {:induction false} SplitJoin(parts: seq<string>, c: char)
    requires |parts| >= 1 && forall k :: 0 <= k < |parts| ==> c !in parts[k]
    ensures Split(Join(parts, c), c) == parts
  {
    var s := Join(parts, c);
    var parts' := Split(s, c);
    JoinUnique(parts, parts', c);
  }

  /** Two splittings of one string into parts free of `c` are the same. */
  lemma {:induction false} JoinUnique(a: seq<string>, b: seq<string>, c: char)
    requires |a| >= 1 && |b| >= 1 && Join(a, c) == Join(b, c)
    requires forall k :: 0 <= k < |a| ==> c !in a[k]
    requires forall k :: 0 <= k < |b| ==> c !in b[k]
    ensures a == b
    decreases |a|
  {
    var s := Join(a, c);
    if |a| == 1 && |b| == 1 {
    } else if |a| == 1 {
      assert false;
    } else if |b| == 1 {
      assert false;
    } else {
      assert s == a[0] + [c] + Join(a[1..], c) && s == b[0] + [c] + Join(b[1..], c);
      FirstPartsAgree(a[0], Join(a[1..], c), b[0], Join(b[1..], c), c);
      JoinUnique(a[1..], b[1..], c);
      assert a == [a[0]] + a[1..] && b == [b[0]] + b[1..];
    }
  }

  /** `x + [c] + y == u + [c] + v` with neither `x` nor `u` holding a `c` forces `x == u`. */
  lemma FirstPartsAgree(x: string, y: string, u: string, v: string, c: char)
    requires x + [c] + y == u + [c] + v && c !in x && c !in u
    ensures x == u && y == v
  {
    var s := x + [c] + y;
    FirstSeparator(x, y, c);
    FirstSeparator(u, v, c);
    assert x == s[..|x|] && u == s[..|u|];
    assert y == s[|x| + 1..] && v == s[|u| + 1..];
  }

  /** The first `c` of `x + [c] + y` is the one after `x` when `x` holds none. */
  lemma FirstSeparator(x: string, y: string, c: char)
    requires c !in x
    ensures IndexOfCharFrom(x + [c] + y, c, 0) == |x|
  {
    var s := x + [c] + y;
    var r := IndexOfCharFrom(s, c, 0);
    assert s[|x|] == c;
  }

  /** The last part of `s.split(c)` is the text after the last `c` (all of `s` when there is none). */
  lemma SplitLastPart(s: string, c: char)
    ensures var parts := Split(s, c); parts[|parts| - 1] == s[LastIndexOf(s, c) + 1..]
  {
    SplitFromLastPart(s, c, 0);
  }

  /** The last part of the split from `from` starts after the last `c`, or at `from`. */
  lemma {:induction false} SplitFromLastPart(s: string, c: char, from: nat)
    requires from <= |s|
    ensures SplitFrom(s, c, from)[|SplitFrom(s, c, from)| - 1]
         == s[if LastIndexOf(s, c) >= from then LastIndexOf(s, c) + 1 else from..]
    decreases |s| - from
  {
    var i := IndexOfCharFrom(s, c, from);
    if i >= 0 {
      var rest := SplitFrom(s, c, i + 1);
      assert SplitFrom(s, c, from) == [s[from..i]] + rest;
      SplitFromLastPart(s, c, i + 1);
      assert s[i] == c;
    } else {
      assert SplitFrom(s, c, from) == [s[from..]];
    }
  }
}
