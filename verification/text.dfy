/** The few Python string operations the pipeline relies on:
    `in` on strings, `str.lower()` and `str.strip()`. */
module Text {

  /** `t` occurs in `s` starting at position `p`. */
  predicate MatchAt(s: string, t: string, p: nat)
  {
    p + |t| <= |s| && s[p..p + |t|] == t
  }

  /** Python's `t in s` for two strings. */
  predicate Contains(s: string, t: string)
  {
    exists p: nat | p <= |s| :: MatchAt(s, t, p)
  }

  /** A string that lacks one of the characters of `t` cannot contain `t`. */
  lemma MissingCharNotContained(s: string, t: string, c: char)
    requires c in t && c !in s
    ensures !Contains(s, t)
  {
    var k :| 0 <= k < |t| && t[k] == c;
    forall p: nat | p <= |s|
      ensures !MatchAt(s, t, p)
    {
      if p + |t| <= |s| {
        assert s[p..p + |t|][k] == s[p + k];
      }
    }
  }

  /** Write `s` as `x + m + y` where `c` occurs in neither `x` nor `y`, `b`
      does not occur in `m`, and `x` does not end in `b`: then no `b` in `s` is
      directly followed by `c`, so no `t` ending in `b, c` occurs in `s`. */
  lemma SplitPairNotContained(s: string, x: string, m: string, y: string, t: string, b: char, c: char)
    requires s == x + m + y
    requires c !in x && c !in y && b !in m
    requires |x| > 0 && x[|x| - 1] != b
    requires |t| >= 2 && t[|t| - 2] == b && t[|t| - 1] == c
    ensures !Contains(s, t)
  {
    forall p: nat | p <= |s|
      ensures !MatchAt(s, t, p)
    {
      if p + |t| <= |s| {
        var q := p + |t| - 1;
        assert s[p..p + |t|][|t| - 1] == s[q] && s[p..p + |t|][|t| - 2] == s[q - 1];
        if q < |x| {
          assert s[q] == x[q] != c;
        } else if q == |x| {
          assert s[q - 1] == x[|x| - 1] != b;
        } else if q < |x| + |m| {
          assert s[q - 1] == m[q - 1 - |x|] != b;
        } else {
          assert s[q] == y[q - |x| - |m|] != c;
        }
      }
    }
  }

  function LowerChar(c: char): char
  {
    if 'A' <= c <= 'Z' then (c as int + 32) as char else c
  }

  /** `str.lower()` on the ASCII letters. */
  function Lower(s: string): (r: string)
    ensures |r| == |s|
  {
    seq(|s|, i requires 0 <= i < |s| => LowerChar(s[i]))
  }

  lemma LowerAppend(a: string, b: string)
    ensures Lower(a + b) == Lower(a) + Lower(b)
  {
  }

  lemma LowerIdempotent(s: string)
    ensures Lower(Lower(s)) == Lower(s)
  {
    assert forall i :: 0 <= i < |s| ==> Lower(Lower(s))[i] == Lower(s)[i];
  }

  /** Lower-casing both sides keeps every occurrence. */
  lemma LowerKeepsContains(s: string, t: string)
    requires Contains(s, t)
    ensures Contains(Lower(s), Lower(t))
  {
    var p: nat :| p <= |s| && MatchAt(s, t, p);
    assert Lower(s)[p..p + |t|] == Lower(t) by {
      forall k | 0 <= k < |t|
        ensures Lower(s)[p..p + |t|][k] == Lower(t)[k]
      {
        assert s[p + k] == s[p..p + |t|][k];
      }
    }
    assert MatchAt(Lower(s), Lower(t), p);
  }

  /** The characters Python's `str.isspace()` accepts, which `str.strip()` removes. */
  predicate IsSpace(c: char)
  {
    var n := c as int;
    n == 0x20 || 0x09 <= n <= 0x0D || 0x1C <= n <= 0x1F || n == 0x85 || n == 0xA0
    || n == 0x1680 || 0x2000 <= n <= 0x200A || n == 0x2028 || n == 0x2029
    || n == 0x202F || n == 0x205F || n == 0x3000
  }

  /** Where the text of `s` starts, searching from `i`: the first position
      at or after `i` that is not whitespace, or `|s|`. */
  function TextStart(s: string, i: nat): (r: nat)
    requires i <= |s|
    ensures i <= r <= |s|
    ensures forall k :: i <= k < r ==> IsSpace(s[k])
    ensures r < |s| ==> !IsSpace(s[r])
    decreases |s| - i
  {
    if i == |s| || !IsSpace(s[i]) then i else TextStart(s, i + 1)
  }

  /** Where the text of `s` ends, searching down from `j` but not below `lo`:
      just after the last position before `j` that is not whitespace, or `lo`. */
  function TextEnd(s: string, lo: nat, j: nat): (r: nat)
    requires lo <= j <= |s|
    ensures lo <= r <= j
    ensures forall k :: r <= k < j ==> IsSpace(s[k])
    ensures r > lo ==> !IsSpace(s[r - 1])
    decreases j - lo
  {
    if j == lo || !IsSpace(s[j - 1]) then j else TextEnd(s, lo, j - 1)
  }

  /** `str.strip()`: `s` without its leading and trailing whitespace. */
  function Strip(s: string): (r: string)
    ensures |r| <= |s|
    ensures r != [] ==> !IsSpace(r[0]) && !IsSpace(r[|r| - 1])
  {
    var i := TextStart(s, 0);
    s[i..TextEnd(s, i, |s|)]
  }

  /** The stripped string is a slice of the original with only whitespace
      outside it. */
  lemma StripIsSlice(s: string)
    ensures exists i, j ::
              && 0 <= i <= j <= |s| && Strip(s) == s[i..j]
              && (forall k :: 0 <= k < i ==> IsSpace(s[k]))
              && (forall k :: j <= k < |s| ==> IsSpace(s[k]))
  {
    var i := TextStart(s, 0);
    var j := TextEnd(s, i, |s|);
    assert Strip(s) == s[i..j];
  }

  /** A string with no whitespace at either end is its own stripped form. */
  lemma StripKeeps(s: string)
    requires |s| > 0 && !IsSpace(s[0]) && !IsSpace(s[|s| - 1])
    ensures Strip(s) == s
  {
    assert TextStart(s, 0) == 0;
    assert TextEnd(s, 0, |s|) == |s|;
    assert s[0..|s|] == s;
  }

  /** A trailing blank is stripped off, so a name and its padded copy
      become equal. */
  lemma StripTrailingBlank(s: string)
    requires |s| > 0 && !IsSpace(s[0]) && !IsSpace(s[|s| - 1])
    ensures Strip(s + " ") == s
  {
    var t := s + " ";
    assert TextStart(t, 0) == 0;
    assert TextEnd(t, 0, |t|) == TextEnd(t, 0, |s|) == |s|;
    assert t[0..|s|] == s;
  }
}
