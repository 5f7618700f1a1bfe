/**
 * The few JavaScript string operations the modelled code relies on:
 * `toLowerCase`, `startsWith`, `indexOf`, `replace` (string pattern),
 * `split` (string separator) and `Array.prototype.join`.
 */
module Strings {
  import opened Wrappers

  /** ASCII case folding; `toLowerCase` beyond ASCII is not modelled. */
  function LowerChar(c: char): char {
    if 'A' <= c <= 'Z' then (c as int - 'A' as int + 'a' as int) as char else c
  }

  function Lower(s: string): (r: string)
    ensures |r| == |s|
    ensures forall i :: 0 <= i < |s| ==> r[i] == LowerChar(s[i])
  {
    seq(|s|, i requires 0 <= i < |s| => LowerChar(s[i]))
  }

  /** `s.startsWith(p)` */
  predicate StartsWith(s: string, p: string) {
    |p| <= |s| && s[..|p|] == p
  }

  /** An occurrence of `pat` starts at position `k` of `s`. */
  predicate OccursAt(s: string, pat: string, k: nat) {
    k + |pat| <= |s| && s[k..k + |pat|] == pat
  }

  /** `s.indexOf(pat)`, with `None` for -1: the first position where `pat` occurs. */
  function IndexOf(s: string, pat: string): (r: Option<nat>)
    ensures r.Some? ==> OccursAt(s, pat, r.value)
    ensures r.Some? ==> forall k :: 0 <= k < r.value ==> !OccursAt(s, pat, k)
    ensures r.None? ==> forall k :: 0 <= k <= |s| ==> !OccursAt(s, pat, k)
    decreases |s|
  {
    if |s| < |pat| then None
    else if s[..|pat|] == pat then Some(0)
    else
      OccursAtTail(s, pat);
      match IndexOf(s[1..], pat)
      case None => None
      case Some(j) => Some(j + 1)
  }

  /** Occurrences in `s[1..]` are the occurrences in `s` after the first position. */
  lemma OccursAtTail(s: string, pat: string)
    requires |s| > 0
    ensures forall k: nat :: 1 <= k ==> (OccursAt(s, pat, k) <==> OccursAt(s[1..], pat, k - 1))
  {
    forall k: nat | 1 <= k
      ensures OccursAt(s, pat, k) <==> OccursAt(s[1..], pat, k - 1)
    {
      if k + |pat| <= |s| {
        var a, b := s[k..k + |pat|], s[1..][k - 1..k - 1 + |pat|];
        forall j | 0 <= j < |pat| ensures a[j] == b[j] {
          assert a[j] == s[k + j];
        }
        assert a == b;
      }
    }
  }

  /** `s.indexOf(pat) >= 0` */
  predicate Contains(s: string, pat: string) {
    IndexOf(s, pat).Some?
  }

  lemma ContainsIff(s: string, pat: string)
    ensures Contains(s, pat) <==> exists k :: 0 <= k <= |s| && OccursAt(s, pat, k)
  {
  }

  lemma ContainsWitness(s: string, pat: string, k: nat)
    requires OccursAt(s, pat, k)
    ensures Contains(s, pat)
  {
  }

  /** `s.replace(pat, with)` with a string pattern: only the first occurrence is replaced. */
  function ReplaceFirst(s: string, pat: string, with: string): (r: string)
    ensures IndexOf(s, pat).None? ==> r == s
    ensures IndexOf(s, pat).Some? ==>
      var k := IndexOf(s, pat).value;
      s == s[..k] + pat + s[k + |pat|..] && r == s[..k] + with + s[k + |pat|..]
  {
    match IndexOf(s, pat)
    case None => s
    case Some(k) => s[..k] + with + s[k + |pat|..]
  }

  /** `s.split(sep)` for a non-empty string separator. */
  function Split(s: string, sep: string): (parts: seq<string>)
    requires |sep| > 0
    ensures |parts| >= 1
    decreases |s|
  {
    match IndexOf(s, sep)
    case None => [s]
    case Some(k) => [s[..k]] + Split(s[k + |sep|..], sep)
  }

  /** One step of `Split`, by the outcome of `IndexOf`. */
  lemma SplitUnfold(s: string, sep: string)
    requires |sep| > 0
    ensures IndexOf(s, sep).None? ==> Split(s, sep) == [s]
    ensures IndexOf(s, sep).Some? ==>
      var k := IndexOf(s, sep).value;
      Split(s, sep) == [s[..k]] + Split(s[k + |sep|..], sep)
  {
  }

  /**
   * `parts.join(sep)` for an array of strings: the first part, the
   * separator after it when more follow, and the last part at the end.
   */
  function Join(parts: seq<string>, sep: string): (r: string)
    ensures |parts| == 0 ==> r == ""
    ensures |parts| > 0 ==> StartsWith(r, parts[0])
    ensures |parts| > 1 ==> OccursAt(r, sep, |parts[0]|)
    ensures |parts| > 0 ==> var last := parts[|parts| - 1]; |last| <= |r| && r[|r| - |last|..] == last
  {
    if |parts| == 0 then ""
    else if |parts| == 1 then parts[0]
    else parts[0] + sep + Join(parts[1..], sep)
  }

  /** Splitting and joining with the same separator gives back the input. */
  lemma {:induction false} JoinSplit(s: string, sep: string)
    requires |sep| > 0
    ensures Join(Split(s, sep), sep) == s
    decreases |s|
  {
    SplitUnfold(s, sep);
    match IndexOf(s, sep)
    case None =>
    case Some(k) =>
      var rest := s[k + |sep|..];
      var parts := Split(rest, sep);
      JoinSplit(rest, sep);
      JoinCons(s[..k], parts, sep);
      SliceAround(s, k, |sep|);
  }

  /** Joining a part in front of one or more parts puts the separator between. */
  lemma JoinCons(a: string, parts: seq<string>, sep: string)
    requires |parts| >= 1
    ensures Join([a] + parts, sep) == a + sep + Join(parts, sep)
  {
    assert ([a] + parts)[0] == a;
    assert ([a] + parts)[1..] == parts;
  }

  /** A string is its prefix, a middle slice and its suffix. */
  lemma SliceAround(s: string, k: nat, n: nat)
    requires k + n <= |s|
    ensures s == s[..k] + s[k..k + n] + s[k + n..]
  {
  }

  /** A slice inside a prefix is the same slice of the whole. */
  lemma PrefixSlice(s: string, k: nat, j: nat, n: nat)
    requires j + n <= k <= |s|
    ensures s[..k][j..j + n] == s[j..j + n]
  {
    var a, b := s[..k][j..j + n], s[j..j + n];
    forall i | 0 <= i < n ensures a[i] == b[i] {
      assert a[i] == s[j + i];
    }
  }

  /** The text before the first match holds no match. */
  lemma NoMatchInPrefix(s: string, sep: string, k: nat)
    requires |sep| > 0 && IndexOf(s, sep) == Some(k)
    ensures !Contains(s[..k], sep)
  {
    var p := s[..k];
    forall j | 0 <= j <= |p| ensures !OccursAt(p, sep, j) {
      if j + |sep| <= |p| {
        PrefixSlice(s, k, j, |sep|);
        assert !OccursAt(s, sep, j);
      }
    }
  }

  /** No part of a split contains the separator. */
  lemma {:induction false} SplitPartsFree(s: string, sep: string, i: nat)
    requires |sep| > 0 && i < |Split(s, sep)|
    ensures !Contains(Split(s, sep)[i], sep)
    decreases |s|
  {
    match IndexOf(s, sep)
    case None =>
      SplitUnfold(s, sep);
    case Some(k) =>
      var rest := s[k + |sep|..];
      SplitHeadTail(s, sep, k);
      if i == 0 {
        NoMatchInPrefix(s, sep, k);
      } else {
        assert Split(s, sep)[i] == Split(rest, sep)[i - 1];
        SplitPartsFree(rest, sep, i - 1);
      }
  }

  /** A one-part split is the input itself: the separator does not occur. */
  lemma SplitSingle(s: string, sep: string)
    requires |sep| > 0
    ensures |Split(s, sep)| == 1 <==> !Contains(s, sep)
    ensures |Split(s, sep)| == 1 ==> Split(s, sep) == [s]
  {
  }

  /**
   * If no occurrence of `sep` starts inside `y`, splitting `y + t` only
   * glues `y` onto the first part of `t`'s split.
   */
  lemma {:induction false} IndexOfShift(y: string, t: string, pat: string)
    requires forall k :: 0 <= k < |y| ==> !OccursAt(y + t, pat, k)
    ensures IndexOf(y + t, pat) == (match IndexOf(t, pat)
                                    case None => None
                                    case Some(j) => Some(|y| + j))
    decreases |y|
  {
    if |y| == 0 {
      assert y + t == t;
    } else {
      var s := y + t;
      assert s[1..] == y[1..] + t;
      OccursAtTail(s, pat);
      forall k | 0 <= k < |y| - 1 ensures !OccursAt(y[1..] + t, pat, k) {
        assert !OccursAt(s, pat, k + 1);
      }
      IndexOfShift(y[1..], t, pat);
      assert !OccursAt(s, pat, 0);
      if |s| < |pat| {
        assert IndexOf(t, pat) == None;
      } else {
        assert s[..|pat|] != pat;
        assert IndexOf(s, pat) == (match IndexOf(s[1..], pat)
                                   case None => None
                                   case Some(j) => Some(j + 1));
      }
    }
  }

  lemma SplitShift(y: string, t: string, sep: string)
    requires |sep| > 0
    requires forall k :: 0 <= k < |y| ==> !OccursAt(y + t, sep, k)
    ensures Split(y + t, sep) == [y + Split(t, sep)[0]] + Split(t, sep)[1..]
  {
    IndexOfShift(y, t, sep);
    SplitShiftedMatch(y, t, sep);
  }

  /** `SplitShift` once the first match in `y + t` is known to be the first match in `t`, moved by `|y|`. */
  lemma SplitShiftedMatch(y: string, t: string, sep: string)
    requires |sep| > 0
    requires IndexOf(y + t, sep) == (match IndexOf(t, sep)
                                     case None => None
                                     case Some(j) => Some(|y| + j))
    ensures Split(y + t, sep) == [y + Split(t, sep)[0]] + Split(t, sep)[1..]
  {
    var r := IndexOf(t, sep);
    if r.Some? {
      assert IndexOf(y + t, sep) == Some(|y| + r.value);
      SplitShiftedSome(y, t, sep, r.value);
    } else {
      assert IndexOf(y + t, sep).None?;
      SplitShiftedNone(y, t, sep);
    }
  }

  lemma SplitShiftedNone(y: string, t: string, sep: string)
    requires |sep| > 0
    requires IndexOf(t, sep).None? && IndexOf(y + t, sep).None?
    ensures Split(y + t, sep) == [y + Split(t, sep)[0]] + Split(t, sep)[1..]
  {
    var pt := Split(t, sep);
    assert pt == [t] by {
      SplitUnfold(t, sep);
    }
    assert Split(y + t, sep) == [y + t] by {
      SplitUnfold(y + t, sep);
    }
    assert pt[0] == t && pt[1..] == [];
  }

  lemma SplitShiftedSome(y: string, t: string, sep: string, j: nat)
    requires |sep| > 0
    requires IndexOf(t, sep) == Some(j) && IndexOf(y + t, sep) == Some(|y| + j)
    ensures Split(y + t, sep) == [y + Split(t, sep)[0]] + Split(t, sep)[1..]
  {
    assert j + |sep| <= |t| by {
      assert OccursAt(t, sep, j);
    }
    var pt, rest := Split(t, sep), Split(t[j + |sep|..], sep);
    var head, tail := (y + t)[..|y| + j], (y + t)[|y| + j + |sep|..];
    assert Split(y + t, sep) == [head] + Split(tail, sep) by {
      SplitStep(y + t, sep, |y| + j);
    }
    assert head == y + t[..j] && tail == t[j + |sep|..] by {
      ConcatSlices(y, t, j, j + |sep|);
    }
    assert pt[0] == t[..j] && pt[1..] == rest by {
      SplitHeadTail(t, sep, j);
    }
    assert Split(tail, sep) == rest;
  }

  lemma SplitHeadTail(t: string, sep: string, j: nat)
    requires |sep| > 0 && IndexOf(t, sep) == Some(j)
    ensures Split(t, sep)[0] == t[..j] && Split(t, sep)[1..] == Split(t[j + |sep|..], sep)
  {
    SplitStep(t, sep, j);
    HeadTail(t[..j], Split(t[j + |sep|..], sep));
  }

  lemma SplitStep(s: string, sep: string, k: nat)
    requires |sep| > 0 && IndexOf(s, sep) == Some(k)
    ensures Split(s, sep) == [s[..k]] + Split(s[k + |sep|..], sep)
  {
  }

  lemma HeadTail(a: string, rest: seq<string>)
    ensures ([a] + rest)[0] == a && ([a] + rest)[1..] == rest
  {
  }

  /** Slicing `y + t` at positions past `y`. */
  lemma ConcatSlices(y: string, t: string, j: nat, m: nat)
    requires j <= m <= |t|
    ensures (y + t)[..|y| + j] == y + t[..j]
    ensures (y + t)[|y| + m..] == t[m..]
  {
  }

  /** A string that starts with the separator splits into an empty part and the rest. */
  lemma SplitAtStart(t: string, sep: string)
    requires |sep| > 0 && OccursAt(t, sep, 0)
    ensures Split(t, sep) == [""] + Split(t[|sep|..], sep)
  {
    assert t[..|sep|] == sep;
    assert IndexOf(t, sep) == Some(0);
  }

  /** The first field of `a + b` split on a one-character separator `c` is `a`, when `c` ends it. */
  lemma FirstFieldBefore(a: string, b: string, c: char)
    requires c !in a
    requires b == [] || b[0] == c
    ensures Split(a + b, [c])[0] == a
  {
    forall k | 0 <= k < |a| ensures !OccursAt(a + b, [c], k) {
      assert (a + b)[k] == a[k];
    }
    IndexOfShift(a, b, [c]);
    if b != [] {
      assert OccursAt(b, [c], 0);
    }
    assert (a + b)[..|a|] == a;
  }

  /** A part of a split on a single character never contains that character. */
  lemma SplitCharFree(s: string, c: char, i: nat)
    requires i < |Split(s, [c])|
    ensures c !in Split(s, [c])[i]
  {
    var p := Split(s, [c])[i];
    SplitPartsFree(s, [c], i);
    if c in p {
      var k :| 0 <= k < |p| && p[k] == c;
      assert OccursAt(p, [c], k);
      ContainsWitness(p, [c], k);
    }
  }
}
