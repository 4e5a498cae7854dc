/** String operations the backend relies on: Python's `str.replace` and
    `sep.join`, with `Split` as the inverse of `Join`. */
module Text {

  /** `p` occurs in `s` starting at index `i`. */
  predicate OccursAt(s: string, p: string, i: nat) {
    i + |p| <= |s| && s[i..i + |p|] == p
  }

  /** `p` occurs somewhere in `s` (Python's `p in s`). */
  predicate Contains(s: string, p: string) {
    exists i: nat :: i <= |s| && OccursAt(s, p, i)
  }

  /** Python's `s.replace(p, r)` for a non-empty `p`: occurrences are found
      left to right and do not overlap; each is replaced by `r`. */
  function ReplaceAll(s: string, p: string, r: string): string
    requires |p| > 0
    decreases |s|
  {
    if |s| < |p| then s
    else if s[..|p|] == p then r + ReplaceAll(s[|p|..], p, r)
    else [s[0]] + ReplaceAll(s[1..], p, r)
  }

  /** The number of occurrences `ReplaceAll` replaces. */
  function Count(s: string, p: string): nat
    requires |p| > 0
    decreases |s|
  {
    if |s| < |p| then 0
    else if s[..|p|] == p then 1 + Count(s[|p|..], p)
    else Count(s[1..], p)
  }

  /** Each replacement changes the length by `|r| - |p|`. */
  lemma {:induction false} ReplaceAllLength(s: string, p: string, r: string)
    requires |p| > 0
    ensures |ReplaceAll(s, p, r)| + Count(s, p) * |p| == |s| + Count(s, p) * |r|
    decreases |s|
  {
    if |s| < |p| {
    } else if s[..|p|] == p {
      ReplaceAllLength(s[|p|..], p, r);
      var c := Count(s[|p|..], p);
      assert (1 + c) * |p| == |p| + c * |p|;
      assert (1 + c) * |r| == |r| + c * |r|;
    } else {
      ReplaceAllLength(s[1..], p, r);
    }
  }

  /** Some replacement happens exactly when the pattern occurs. */
  lemma CountPositiveIffContains(s: string, p: string)
    requires |p| > 0
    ensures Count(s, p) > 0 <==> Contains(s, p)
  {
    if Contains(s, p) {
      var i: nat :| i <= |s| && OccursAt(s, p, i);
      OccursImpliesCount(s, p, i);
    }
    if Count(s, p) > 0 {
      var j := CountImpliesOccurs(s, p);
      assert j <= |s|;
    }
  }

  lemma {:induction false} OccursImpliesCount(s: string, p: string, i: nat)
    requires |p| > 0 && OccursAt(s, p, i)
    ensures Count(s, p) > 0
    decreases |s|
  {
    if s[..|p|] != p {
      assert i > 0;
      assert s[1..][i - 1..i - 1 + |p|] == s[i..i + |p|];
      OccursImpliesCount(s[1..], p, i - 1);
    }
  }

  /** When something was replaced, `i` is where the first replacement was. */
  lemma {:induction false} CountImpliesOccurs(s: string, p: string) returns (i: nat)
    requires |p| > 0 && Count(s, p) > 0
    ensures OccursAt(s, p, i)
    decreases |s|
  {
    if s[..|p|] == p {
      i := 0;
    } else {
      var j := CountImpliesOccurs(s[1..], p);
      assert s[j + 1..j + 1 + |p|] == s[1..][j..j + |p|];
      i := j + 1;
    }
  }

  /** A string in which the pattern does not occur is left as it is. */
  lemma {:induction false} ReplaceAllAbsent(s: string, p: string, r: string)
    requires |p| > 0 && !Contains(s, p)
    ensures ReplaceAll(s, p, r) == s
    decreases |s|
  {
    if |s| >= |p| {
      assert !OccursAt(s, p, 0);
      forall i: nat | OccursAt(s[1..], p, i) ensures false {
        assert s[i + 1..i + 1 + |p|] == s[1..][i..i + |p|];
        assert OccursAt(s, p, i + 1);
      }
      ReplaceAllAbsent(s[1..], p, r);
      assert s == [s[0]] + s[1..];
    }
  }

  /** `ReplaceAll` leaves a string unchanged exactly when there is nothing
      to replace, provided the replacement has a different length. */
  lemma ReplaceAllIdentityIff(s: string, p: string, r: string)
    requires |p| > 0 && |r| != |p|
    ensures ReplaceAll(s, p, r) == s <==> !Contains(s, p)
  {
    if Contains(s, p) {
      CountPositiveIffContains(s, p);
      ReplaceAllLength(s, p, r);
      MulCancel(Count(s, p), |p|, |r|);
    } else {
      ReplaceAllAbsent(s, p, r);
    }
  }

  lemma MulCancel(c: nat, a: nat, b: nat)
    requires c > 0 && a != b
    ensures c * a != c * b
  {
  }

  /** An occurrence at the very start is replaced and scanning resumes
      right after it. */
  lemma ReplaceAllLeading(p: string, t: string, r: string)
    requires |p| > 0
    ensures ReplaceAll(p + t, p, r) == r + ReplaceAll(t, p, r)
  {
  }

  /** A prefix none of whose characters can start the pattern passes
      through untouched. */
  lemma {:induction false} ReplaceAllSkipsPrefix(x: string, s: string, p: string, r: string)
    requires |p| > 0
    requires forall k :: 0 <= k < |x| ==> x[k] != p[0]
    ensures ReplaceAll(x + s, p, r) == x + ReplaceAll(s, p, r)
    decreases |x|
  {
    if |x| > 0 {
      var y := x + s;
      assert y[1..] == x[1..] + s;
      forall k | 0 <= k < |x[1..]| ensures x[1..][k] != p[0] {
        assert x[1..][k] == x[k + 1];
      }
      ReplaceAllSkipsPrefix(x[1..], s, p, r);
      if |y| >= |p| {
        assert y[..|p|][0] == x[0];
        assert y[..|p|] != p;
      }
      assert y == [x[0]] + y[1..];
    } else {
      assert x + s == s;
    }
  }

  /** Python's `sep.join(parts)` for a one-character separator. */
  function Join(parts: seq<string>, sep: char): string
    decreases |parts|
  {
    if |parts| == 0 then ""
    else if |parts| == 1 then parts[0]
    else parts[0] + [sep] + Join(parts[1..], sep)
  }

  /** Python's `s.split(sep)` for a one-character separator: always at
      least one part. */
  function Split(s: string, sep: char): (parts: seq<string>)
    ensures |parts| > 0
    decreases |s|
  {
    if |s| == 0 then [""]
    else
      var rest := Split(s[1..], sep);
      if s[0] == sep then [""] + rest
      else [[s[0]] + rest[0]] + rest[1..]
  }

  /** Splitting at a first separator: the text before it is the first part. */
  lemma {:induction false} SplitAtFirst(a: string, sep: char, b: string)
    requires sep !in a
    ensures Split(a + [sep] + b, sep) == [a] + Split(b, sep)
    decreases |a|
  {
    if |a| == 0 {
      assert a + [sep] + b == [sep] + b;
      assert ([sep] + b)[1..] == b;
    } else {
      assert (a + [sep] + b)[1..] == a[1..] + [sep] + b;
      SplitAtFirst(a[1..], sep, b);
      assert a == [a[0]] + a[1..];
    }
  }

  /** A string without the separator is a single part. */
  lemma {:induction false} SplitNoSeparator(a: string, sep: char)
    requires sep !in a
    ensures Split(a, sep) == [a]
    decreases |a|
  {
    if |a| > 0 {
      SplitNoSeparator(a[1..], sep);
      assert a == [a[0]] + a[1..];
    }
  }

  /** Splitting undoes joining when no part contains the separator. */
  lemma {:induction false} SplitJoin(parts: seq<string>, sep: char)
    requires |parts| > 0
    requires forall i :: 0 <= i < |parts| ==> sep !in parts[i]
    ensures Split(Join(parts, sep), sep) == parts
    decreases |parts|
  {
    if |parts| == 1 {
      SplitNoSeparator(parts[0], sep);
    } else {
      SplitJoin(parts[1..], sep);
      SplitAtFirst(parts[0], sep, Join(parts[1..], sep));
      assert parts == [parts[0]] + parts[1..];
    }
  }

  /** Index of the first `c` in `s`, or `|s|` when there is none. */
  function IndexOf(s: string, c: char): (k: nat)
    ensures k <= |s|
    ensures k < |s| ==> s[k] == c
    ensures c !in s[..k]
    decreases |s|
  {
    if |s| == 0 then 0
    else if s[0] == c then 0
    else
      var k := 1 + IndexOf(s[1..], c);
      assert s[..k] == [s[0]] + s[1..][..k - 1];
      k
  }

  /** The first `c` after a `c`-free prefix is found right after it. */
  lemma {:induction false} IndexOfAfter(a: string, c: char, b: string)
    requires c !in a
    ensures IndexOf(a + [c] + b, c) == |a|
    decreases |a|
  {
    if |a| > 0 {
      assert (a + [c] + b)[1..] == a[1..] + [c] + b;
      IndexOfAfter(a[1..], c, b);
    }
  }
}
