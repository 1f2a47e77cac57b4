/** Character classes and the few `str` operations the front end relies on:
    `strip`, `startswith`, `endswith`, `replace`, `lower` and `"sep".join`. */
module Strings {

  /** Python's `str.isspace` (the characters `\s` and `strip()` treat as whitespace). */
  predicate IsSpace(c: char)
  {
    var n := c as int;
    (9 <= n <= 13) || (28 <= n <= 32) || n == 0x85 || n == 0xA0 || n == 0x1680
    || (0x2000 <= n <= 0x200A) || n == 0x2028 || n == 0x2029 || n == 0x202F
    || n == 0x205F || n == 0x3000
  }

  /** The word characters of the regex class `\w`: letters, digits and `_` (ASCII). */
  predicate IsWordChar(c: char)
  {
    ('a' <= c <= 'z') || ('A' <= c <= 'Z') || ('0' <= c <= '9') || c == '_'
  }

  predicate NoSpaceAtEdges(s: string)
  {
    s == [] || (!IsSpace(s[0]) && !IsSpace(s[|s| - 1]))
  }

  /** Every character is whitespace (the empty string included). */
  predicate AllSpace(s: string)
  {
    forall k :: 0 <= k < |s| ==> IsSpace(s[k])
  }

  predicate StartsWith(s: string, prefix: string)
  {
    |prefix| <= |s| && s[..|prefix|] == prefix
  }

  predicate EndsWith(s: string, suffix: string)
  {
    |suffix| <= |s| && s[|s| - |suffix|..] == suffix
  }

  /** A suffix of a suffix is a suffix. */
  lemma EndsWithTransitive(s: string, t: string, u: string)
    requires EndsWith(s, t) && EndsWith(t, u)
    ensures EndsWith(s, u)
  {
    assert s[|s| - |u|..] == t[|t| - |u|..];
  }

  /** Concatenation is associative. */
  lemma AppendAssoc(a: string, b: string, c: string)
    ensures a + (b + c) == a + b + c
  {
  }

  /** `c not in s` */
  predicate NoChar(s: string, c: char)
  {
    forall k :: 0 <= k < |s| ==> s[k] != c
  }

  /** `s.lstrip()` */
  function LStrip(s: string): (r: string)
    ensures |r| <= |s|
  {
    if |s| > 0 && IsSpace(s[0]) then LStrip(s[1..]) else s
  }

  /** `lstrip()` drops a run of leading whitespace and keeps the rest. */
  lemma {:induction false} LStripShape(s: string)
    ensures var r := LStrip(s);
            r == s[|s| - |r|..] && (r == [] || !IsSpace(r[0]))
            && forall k :: 0 <= k < |s| - |r| ==> IsSpace(s[k])
    decreases |s|
  {
    if |s| > 0 && IsSpace(s[0]) {
      var t := s[1..];
      LStripShape(t);
      assert LStrip(s) == LStrip(t);
      assert t[|t| - |LStrip(t)|..] == s[|s| - |LStrip(t)|..];
      forall k | 0 < k < |s| - |LStrip(t)| ensures IsSpace(s[k]) {
        assert s[k] == t[k - 1];
      }
    }
  }

  /** `s.rstrip()` */
  function RStrip(s: string): (r: string)
    ensures |r| <= |s|
  {
    if |s| > 0 && IsSpace(s[|s| - 1]) then RStrip(s[..|s| - 1]) else s
  }

  /** `rstrip()` drops a run of trailing whitespace and keeps the rest. */
  lemma {:induction false} RStripShape(s: string)
    ensures var r := RStrip(s);
            r == s[..|r|] && (r == [] || !IsSpace(r[|r| - 1]))
            && forall k :: |r| <= k < |s| ==> IsSpace(s[k])
    decreases |s|
  {
    if |s| > 0 && IsSpace(s[|s| - 1]) {
      var t := s[..|s| - 1];
      RStripShape(t);
      assert RStrip(s) == RStrip(t);
      assert t[..|RStrip(t)|] == s[..|RStrip(t)|];
      forall k | |RStrip(t)| <= k < |s| - 1 ensures IsSpace(s[k]) {
        assert s[k] == t[k];
      }
    }
  }

  /** Where `strip()` starts: the number of leading whitespace characters. */
  function StripStart(s: string): (i: nat)
    ensures i <= |s|
  {
    |s| - |LStrip(s)|
  }

  /** `s.strip()`: the slice of `s` between its leading and trailing whitespace. */
  function Strip(s: string): (r: string)
    ensures |r| <= |s|
    ensures NoSpaceAtEdges(r)
  {
    LStripShape(s);
    RStripShape(LStrip(s));
    RStrip(LStrip(s))
  }

  /** `strip()` keeps the slice of `s` between a run of leading and a run of trailing
      whitespace. */
  lemma {:induction false} StripShape(s: string)
    ensures var r, i := Strip(s), StripStart(s);
            i + |r| <= |s| && r == s[i..i + |r|]
            && (forall k :: 0 <= k < i ==> IsSpace(s[k]))
            && (forall k :: i + |r| <= k < |s| ==> IsSpace(s[k]))
  {
    LStripShape(s);
    RStripShape(LStrip(s));
    SliceBetween(s, LStrip(s), Strip(s), StripStart(s));
  }

  /** The part of a suffix `l` before its trailing whitespace is the slice of the whole
      that starts at `i`, with whitespace on either side. (The caller passes the very terms
      its goal mentions, so that no sequence equality has to be proved twice.) */
  lemma SliceBetween(s: string, l: string, r: string, i: int)
    requires |l| <= |s| && l == s[|s| - |l|..] && |r| <= |l| && r == l[..|r|] && i == |s| - |l|
    requires forall k :: 0 <= k < |s| - |l| ==> IsSpace(s[k])
    requires forall k :: |r| <= k < |l| ==> IsSpace(l[k])
    ensures i + |r| <= |s| && r == s[i..i + |r|]
    ensures forall k :: 0 <= k < i ==> IsSpace(s[k])
    ensures forall k :: i + |r| <= k < |s| ==> IsSpace(s[k])
  {
    PrefixOfSuffix(s, l, r);
    forall k | i + |r| <= k < |s| ensures IsSpace(s[k]) {
      TrailingSpace(s, l, |r|, k);
    }
  }

  /** A prefix of a suffix is a slice. */
  lemma PrefixOfSuffix(s: string, l: string, r: string)
    requires |l| <= |s| && l == s[|s| - |l|..] && |r| <= |l| && r == l[..|r|]
    ensures r == s[|s| - |l|..|s| - |l| + |r|]
  {
    var i := |s| - |l|;
    forall j | 0 <= j < |r| ensures r[j] == s[i + j] {
      assert r[j] == l[j];
    }
  }

  /** A trailing character of a suffix is a character of the whole. */
  lemma TrailingSpace(s: string, l: string, n: nat, k: int)
    requires |l| <= |s| && l == s[|s| - |l|..] && n <= |l|
    requires forall j :: n <= j < |l| ==> IsSpace(l[j])
    requires |s| - |l| + n <= k < |s|
    ensures IsSpace(s[k])
  {
    assert s[k] == l[k - (|s| - |l|)];
  }

  /** Characters kept by `Strip` are characters of the input. */
  lemma StripChars(s: string)
    ensures forall k :: 0 <= k < |Strip(s)| ==> Strip(s)[k] in s
  {
    StripShape(s);
    SliceChars(s, Strip(s), StripStart(s));
  }

  /** The characters of a slice are characters of the whole. */
  lemma SliceChars(s: string, r: string, i: nat)
    requires i + |r| <= |s| && r == s[i..i + |r|]
    ensures forall k :: 0 <= k < |r| ==> r[k] in s
  {
    forall k | 0 <= k < |r| ensures r[k] in s {
      assert r[k] == s[i + k];
    }
  }

  /** A string without whitespace at its ends is left alone by `strip()`. */
  lemma {:induction false} StripIdentity(s: string)
    requires NoSpaceAtEdges(s)
    ensures Strip(s) == s
  {
    assert LStrip(s) == s;
    assert RStrip(s) == s;
  }

  /** A string made only of whitespace strips to the empty string. */
  lemma StripAllSpace(s: string)
    requires AllSpace(s)
    ensures Strip(s) == []
  {
    LStripShape(s);
    SuffixOfSpace(s, LStrip(s));
  }

  /** A suffix of a string of whitespace starts with whitespace, if anything. */
  lemma SuffixOfSpace(s: string, l: string)
    requires AllSpace(s) && |l| <= |s| && l == s[|s| - |l|..]
    ensures l == [] || IsSpace(l[0])
  {
    if l != [] {
      assert l[0] == s[|s| - |l|];
    }
  }

  /** `strip()` gives the empty string exactly for an all-whitespace string. */
  lemma StripEmpty(s: string)
    ensures Strip(s) == [] <==> AllSpace(s)
  {
    if AllSpace(s) {
      StripAllSpace(s);
    } else {
      StripShape(s);
    }
  }

  /** `strip()` removes exactly the whitespace padding around a string with no
      whitespace at its ends. */
  lemma StripPadded(pre: string, a: string, post: string)
    requires forall k :: 0 <= k < |pre| ==> IsSpace(pre[k])
    requires forall k :: 0 <= k < |post| ==> IsSpace(post[k])
    requires NoSpaceAtEdges(a)
    ensures Strip(pre + a + post) == a
  {
    var s := pre + a + post;
    if a == [] {
      assert s == pre + post;
      StripAllSpace(s);
    } else {
      var r, i := Strip(s), StripStart(s);
      StripShape(s);
      assert !IsSpace(s[|pre|]) && !IsSpace(s[|pre| + |a| - 1]);
      assert i == |pre|;
      assert |r| == |a|;
      assert r == s[|pre|..|pre| + |a|] == a;
    }
  }

  /** `s.replace(pat, rep)`: every non-overlapping occurrence of `pat`, scanning left to
      right, is replaced. The pattern is never empty here. */
  function ReplaceAll(s: string, pat: string, rep: string): string
    requires pat != []
    decreases |s|
  {
    if |s| == 0 then []
    else if StartsWith(s, pat) then rep + ReplaceAll(s[|pat|..], pat, rep)
    else [s[0]] + ReplaceAll(s[1..], pat, rep)
  }

  /** Replacing a single character maps the string character by character. */
  lemma {:induction false} ReplaceCharAt(s: string, a: char, b: char)
    ensures |ReplaceAll(s, [a], [b])| == |s|
    ensures forall k :: 0 <= k < |s| ==>
              ReplaceAll(s, [a], [b])[k] == (if s[k] == a then b else s[k])
    decreases |s|
  {
    if |s| > 0 {
      ReplaceCharAt(s[1..], a, b);
      var t := ReplaceAll(s[1..], [a], [b]);
      assert ReplaceAll(s, [a], [b]) == [if s[0] == a then b else s[0]] + t;
    }
  }

  /** Without an occurrence of the pattern, `replace` changes nothing. */
  lemma {:induction false} ReplaceAbsent(s: string, pat: string, rep: string)
    requires pat != []
    requires forall k :: 0 <= k < |s| ==> !StartsWith(s[k..], pat)
    ensures ReplaceAll(s, pat, rep) == s
    decreases |s|
  {
    if |s| > 0 {
      assert !StartsWith(s[0..], pat);
      assert s[0..] == s;
      forall k | 0 <= k < |s[1..]| ensures !StartsWith(s[1..][k..], pat) {
        assert s[1..][k..] == s[k + 1..];
      }
      ReplaceAbsent(s[1..], pat, rep);
    }
  }

  /** Removing a pattern never makes a string longer. */
  lemma {:induction false} ReplaceShrinks(s: string, pat: string, rep: string)
    requires pat != [] && |rep| <= |pat|
    ensures |ReplaceAll(s, pat, rep)| <= |s|
    decreases |s|
  {
    if |s| > 0 {
      if StartsWith(s, pat) {
        ReplaceShrinks(s[|pat|..], pat, rep);
      } else {
        ReplaceShrinks(s[1..], pat, rep);
      }
    }
  }

  /** `c.lower()` for ASCII: upper-case letters move to lower case, all else stays. */
  function LowerChar(c: char): (d: char)
    ensures 'A' <= c <= 'Z' ==> 'a' <= d <= 'z' && d as int == c as int + 32
    ensures !('A' <= c <= 'Z') ==> d == c
  {
    if 'A' <= c <= 'Z' then (c as int + 32) as char else c
  }

  function Lower(s: string): (r: string)
    ensures |r| == |s|
  {
    if |s| == 0 then [] else [LowerChar(s[0])] + Lower(s[1..])
  }

  /** `Lower` works character by character. */
  lemma {:induction false} LowerAt(s: string, k: nat)
    requires k < |s|
    ensures Lower(s)[k] == LowerChar(s[k])
    decreases k
  {
    if k > 0 {
      LowerAt(s[1..], k - 1);
    }
  }

  /** `sep.join(parts)` */
  function Join(sep: string, parts: seq<string>): string
  {
    if |parts| == 0 then []
    else if |parts| == 1 then parts[0]
    else parts[0] + sep + Join(sep, parts[1..])
  }
}
