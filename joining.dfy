/** Array.prototype.join over strings, and where each joined part lands in the result. */
module Joining {

  /** `parts.join(sep)`: the parts in order with `sep` between neighbours.
      Defined from the last part so that a loop appending one part at a time extends it. */
  function Join(parts: seq<string>, sep: string): string
  {
    if |parts| == 0 then ""
    else if |parts| == 1 then parts[0]
    else Join(parts[..|parts| - 1], sep) + sep + parts[|parts| - 1]
  }

  /** Joining one more part appends the separator and that part. */
  lemma JoinAppend(parts: seq<string>, part: string, sep: string)
    requires |parts| > 0
    ensures Join(parts + [part], sep) == Join(parts, sep) + sep + part
  {
    assert (parts + [part])[..|parts|] == parts;
  }

  /** Index in `Join(parts, sep)` at which part `j` begins. */
  function Offset(parts: seq<string>, sep: string, j: nat): nat
    requires j <= |parts|
  {
    if j == 0 then 0 else Offset(parts, sep, j - 1) + |parts[j - 1]| + |sep|
  }

  /** Number of occurrences of `c` in `s`. */
  function Count(s: string, c: char): nat
  {
    if |s| == 0 then 0 else Count(s[..|s| - 1], c) + (if s[|s| - 1] == c then 1 else 0)
  }

  /** Total number of occurrences of `c` in all the parts. */
  function CountAll(parts: seq<string>, c: char): nat
  {
    if |parts| == 0 then 0 else CountAll(parts[..|parts| - 1], c) + Count(parts[|parts| - 1], c)
  }

  lemma {:induction false} OffsetOfPrefix(parts: seq<string>, sep: string, k: nat, j: nat)
    requires j <= k <= |parts|
    ensures Offset(parts[..k], sep, j) == Offset(parts, sep, j)
  {
    if j > 0 {
      OffsetOfPrefix(parts, sep, k, j - 1);
    }
  }

  /** The joined text is as long as its parts plus one separator between each two neighbours. */
  lemma {:induction false} JoinLength(parts: seq<string>, sep: string)
    requires |parts| > 0
    ensures |Join(parts, sep)| == Offset(parts, sep, |parts| - 1) + |parts[|parts| - 1]|
  {
    var n := |parts|;
    if n > 1 {
      var init := parts[..n - 1];
      JoinLength(init, sep);
      OffsetOfPrefix(parts, sep, n - 1, n - 2);
    }
  }

  /** A slice within a prefix is the same slice of the whole. */
  lemma PrefixSlice(a: string, b: string, lo: nat, hi: nat)
    requires a <= b && lo <= hi <= |a|
    ensures b[lo..hi] == a[lo..hi]
  {
  }

  /** The join of the first `k` parts begins the join of all of them. */
  lemma {:induction false} JoinPrefix(parts: seq<string>, sep: string, k: nat)
    requires 0 < k <= |parts|
    ensures Join(parts[..k], sep) <= Join(parts, sep)
  {
    var n := |parts|;
    if k == n {
      assert parts[..k] == parts;
    } else {
      var init := parts[..n - 1];
      JoinPrefix(init, sep, k);
      assert init[..k] == parts[..k];
      assert Join(parts, sep) == Join(init, sep) + (sep + parts[n - 1]);
    }
  }

  /** The join of the first `j + 1` parts ends with part `j`, which starts at `Offset(parts, sep, j)`. */
  lemma JoinEndsWithPart(parts: seq<string>, sep: string, j: nat)
    requires j < |parts|
    ensures |Join(parts[..j + 1], sep)| == Offset(parts, sep, j) + |parts[j]|
    ensures Join(parts[..j + 1], sep)[Offset(parts, sep, j)..] == parts[j]
  {
    var pre := parts[..j + 1];
    JoinLength(pre, sep);
    OffsetOfPrefix(parts, sep, j + 1, j);
    if j > 0 {
      var head := Join(pre[..j], sep);
      assert Join(pre, sep) == (head + sep) + parts[j];
      JoinLength(pre[..j], sep);
      OffsetOfPrefix(pre, sep, j, j - 1);
      assert |head + sep| == Offset(parts, sep, j);
    }
  }

  /** Part `j` sits at `Offset(parts, sep, j)`. */
  lemma JoinPart(parts: seq<string>, sep: string, j: nat)
    requires j < |parts|
    ensures Offset(parts, sep, j) + |parts[j]| <= |Join(parts, sep)|
    ensures Join(parts, sep)[Offset(parts, sep, j)..Offset(parts, sep, j) + |parts[j]|] == parts[j]
  {
    var pre := Join(parts[..j + 1], sep);
    JoinEndsWithPart(parts, sep, j);
    JoinPrefix(parts, sep, j + 1);
    PrefixSlice(pre, Join(parts, sep), Offset(parts, sep, j), |pre|);
  }

  /** `JoinPart` with the offset and the length of the part given by name. */
  lemma JoinPartAt(parts: seq<string>, sep: string, j: nat, lo: nat, len: nat)
    requires j < |parts| && Offset(parts, sep, j) == lo && |parts[j]| == len
    ensures lo + len <= |Join(parts, sep)| && Join(parts, sep)[lo..lo + len] == parts[j]
  {
    JoinPart(parts, sep, j);
  }

  /** Every part but the last is followed by exactly `sep`. */
  lemma JoinSeparator(parts: seq<string>, sep: string, j: nat)
    requires j + 1 < |parts|
    ensures Offset(parts, sep, j + 1) <= |Join(parts, sep)|
    ensures Join(parts, sep)[Offset(parts, sep, j) + |parts[j]|..Offset(parts, sep, j + 1)] == sep
  {
    var pre := parts[..j + 2];
    var head := Join(pre[..j + 1], sep);
    assert pre[..j + 1] == parts[..j + 1];
    JoinEndsWithPart(parts, sep, j);
    assert Join(pre, sep) == (head + sep) + parts[j + 1];
    JoinPrefix(parts, sep, j + 2);
    var lo := |head|;
    var hi := lo + |sep|;
    assert lo == Offset(parts, sep, j) + |parts[j]|;
    assert hi == Offset(parts, sep, j + 1);
    assert (head + sep)[lo..hi] == sep;
    assert Join(pre, sep)[lo..hi] == sep;
    PrefixSlice(Join(pre, sep), Join(parts, sep), lo, hi);
  }

  /** Part `j` sits at `Offset(parts, sep, j)` and, unless it is the last, is followed by exactly `sep`. */
  lemma JoinLayout(parts: seq<string>, sep: string, j: nat)
    requires j < |parts|
    ensures Offset(parts, sep, j) + |parts[j]| <= |Join(parts, sep)|
    ensures Join(parts, sep)[Offset(parts, sep, j)..Offset(parts, sep, j) + |parts[j]|] == parts[j]
    ensures j + 1 < |parts| ==> Offset(parts, sep, j + 1) <= |Join(parts, sep)|
    ensures j + 1 < |parts| ==>
      Join(parts, sep)[Offset(parts, sep, j) + |parts[j]|..Offset(parts, sep, j + 1)] == sep
  {
    JoinPart(parts, sep, j);
    if j + 1 < |parts| {
      JoinSeparator(parts, sep, j);
    }
  }

  lemma {:induction false} CountAppend(a: string, b: string, c: char)
    ensures Count(a + b, c) == Count(a, c) + Count(b, c)
  {
    if |b| > 0 {
      assert (a + b)[..|a + b| - 1] == a + b[..|b| - 1];
      CountAppend(a, b[..|b| - 1], c);
    } else {
      assert a + b == a;
    }
  }

  /** Every occurrence of `c` in the joined text comes from a part or from one of the `|parts| - 1` separators. */
  lemma {:induction false} JoinCount(parts: seq<string>, sep: string, c: char)
    requires |parts| > 0
    ensures Count(Join(parts, sep), c) == CountAll(parts, c) + (|parts| - 1) * Count(sep, c)
  {
    var n := |parts|;
    if n == 1 {
      assert parts[..0] == [];
    } else {
      var init := parts[..n - 1];
      var k := Count(sep, c);
      JoinCount(init, sep, c);
      assert Join(parts, sep) == (Join(init, sep) + sep) + parts[n - 1];
      CountAppend(Join(init, sep), sep, c);
      CountAppend(Join(init, sep) + sep, parts[n - 1], c);
      assert CountAll(parts, c) == CountAll(init, c) + Count(parts[n - 1], c);
      assert (n - 1) * k == (n - 2) * k + k;
    }
  }

  /** `CountAll` is zero exactly when no part contains `c`. */
  lemma {:induction false} CountAllZero(parts: seq<string>, c: char)
    requires forall k :: 0 <= k < |parts| ==> Count(parts[k], c) == 0
    ensures CountAll(parts, c) == 0
  {
    if |parts| > 0 {
      CountAllZero(parts[..|parts| - 1], c);
    }
  }

  /** `Count` finds `c` exactly when `c` occurs. */
  lemma {:induction false} CountZeroIff(s: string, c: char)
    ensures Count(s, c) == 0 <==> c !in s
  {
    if |s| > 0 {
      CountZeroIff(s[..|s| - 1], c);
      assert s == s[..|s| - 1] + [s[|s| - 1]];
    }
  }
}
