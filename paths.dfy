/** Path strings: `os.path.join` for two parts and `clean_path`, which turns a file
    dragged onto the terminal (quoted, or with its spaces escaped) back into a path. */
module Paths {
  import opened Strings

  /** `posixpath.join(a, b)`: an absolute `b` wins; otherwise one `/` between them. */
  function JoinPath(a: string, b: string): (r: string)
    ensures StartsWith(b, "/") ==> r == b
    ensures !StartsWith(b, "/") ==> StartsWith(r, a) && EndsWith(r, b)
    ensures !StartsWith(b, "/") && a != [] && !EndsWith(a, "/") ==> r == a + "/" + b
  {
    if StartsWith(b, "/") then b
    else if a == [] || EndsWith(a, "/") then a + b
    else a + "/" + b
  }

  /** Joining keeps the suffix of the joined name. */
  lemma JoinPathSuffix(a: string, b: string, suffix: string)
    requires EndsWith(b, suffix)
    ensures EndsWith(JoinPath(a, b), suffix)
  {
    if !StartsWith(b, "/") {
      EndsWithTransitive(JoinPath(a, b), b, suffix);
    }
  }

  /** A path joined onto an absolute directory stays absolute. */
  lemma JoinPathAbsolute(a: string, b: string)
    requires StartsWith(a, "/")
    ensures StartsWith(JoinPath(a, b), "/")
  {
    var r := JoinPath(a, b);
    if !StartsWith(b, "/") {
      assert r[..|a|] == a;
      assert r[0] == a[0];
    }
  }

  /** `os.path.abspath(p)` against the working directory `cwd`, without the
      normalisation of `.`, `..` and repeated or trailing separators. */
  function AbsPath(cwd: string, p: string): (r: string)
    requires StartsWith(cwd, "/")
    ensures StartsWith(r, "/")
    ensures StartsWith(p, "/") ==> r == p
  {
    if StartsWith(p, "/") then p
    else if p == [] then cwd
    else
      JoinPathAbsolute(cwd, p);
      JoinPath(cwd, p)
  }

  predicate IsQuote(c: char)
  {
    c == '\'' || c == '"'
  }

  /** Longer than one character, opening and closing with the same quote. */
  predicate IsQuoted(p: string)
  {
    |p| > 1 && IsQuote(p[0]) && p[|p| - 1] == p[0]
  }

  /** `path.replace("\\ ", " ")` */
  function Unescape(p: string): (r: string)
    ensures |r| <= |p|
  {
    ReplaceShrinks(p, "\\ ", " ");
    ReplaceAll(p, "\\ ", " ")
  }

  /** `clean_path`: strip, drop one pair of matching surrounding quotes, unescape spaces. */
  function CleanPath(userInput: string): (r: string)
    ensures |r| <= |userInput|
    ensures IsQuoted(Strip(userInput)) ==> |r| <= |Strip(userInput)| - 2
  {
    var path := Strip(userInput);
    var unquoted := if IsQuoted(path) then path[1..|path| - 1] else path;
    Unescape(unquoted)
  }

  /** How a terminal escapes a dragged path: each space becomes `\ `. */
  function EscapeSpaces(p: string): (r: string)
    ensures |r| >= |p|
    ensures |p| > 0 ==> r[0] == (if p[0] == ' ' then '\\' else p[0]) && r[|r| - 1] == p[|p| - 1]
  {
    if |p| == 0 then []
    else if p[0] == ' ' then "\\ " + EscapeSpaces(p[1..])
    else [p[0]] + EscapeSpaces(p[1..])
  }

  /** Unescaping undoes escaping, for a path without backslashes. */
  lemma {:induction false} UnescapeEscape(p: string)
    requires NoChar(p, '\\')
    ensures Unescape(EscapeSpaces(p)) == p
    decreases |p|
  {
    if |p| > 0 {
      UnescapeEscape(p[1..]);
      var e := EscapeSpaces(p[1..]);
      if p[0] == ' ' {
        assert EscapeSpaces(p) == "\\ " + e;
        assert StartsWith("\\ " + e, "\\ ");
        assert ("\\ " + e)[2..] == e;
      } else {
        assert EscapeSpaces(p) == [p[0]] + e;
        assert ([p[0]] + e)[1..] == e;
      }
    }
  }

  /** A path dropped with its spaces escaped (and the trailing space the terminal adds)
      comes back as the path itself. */
  lemma CleanPathEscapedDrop(p: string, pad: string)
    requires NoChar(p, '\\') && NoSpaceAtEdges(p) && !(|p| > 0 && IsQuote(p[0]))
    requires forall k :: 0 <= k < |pad| ==> IsSpace(pad[k])
    ensures CleanPath(EscapeSpaces(p) + pad) == p
  {
    var e := EscapeSpaces(p);
    EscapedEdges(p, e);
    PaddedRight(e, pad);
    CleanPathUnquoted(e + pad, e);
    UnescapeEscape(p);
  }

  /** Escaping keeps the ends of a path that neither starts with a quote nor has
      whitespace at its ends. */
  lemma EscapedEdges(p: string, e: string)
    requires NoSpaceAtEdges(p) && !(|p| > 0 && IsQuote(p[0])) && e == EscapeSpaces(p)
    ensures NoSpaceAtEdges(e) && !IsQuoted(e)
  {
  }

  /** Trailing whitespace is stripped off. */
  lemma PaddedRight(e: string, pad: string)
    requires NoSpaceAtEdges(e)
    requires forall k :: 0 <= k < |pad| ==> IsSpace(pad[k])
    ensures Strip(e + pad) == e
  {
    StripPadded([], e, pad);
    assert [] + e + pad == e + pad;
  }

  /** Without a pair of quotes around the stripped input, `clean_path` only unescapes. */
  lemma CleanPathUnquoted(userInput: string, path: string)
    requires Strip(userInput) == path && !IsQuoted(path)
    ensures CleanPath(userInput) == Unescape(path)
  {
  }

  /** Once stripping leaves a quoted path without backslashes, `clean_path` gives the
      path between the quotes. */
  lemma CleanPathOfQuoted(userInput: string, q: char, p: string)
    requires IsQuote(q) && NoChar(p, '\\') && Strip(userInput) == [q] + p + [q]
    ensures CleanPath(userInput) == p
  {
    var quoted := [q] + p + [q];
    assert IsQuoted(quoted);
    assert quoted[1..|quoted| - 1] == p;
    ReplaceAbsentBackslash(p);
  }

  /** A path dropped between a pair of quotes, with any surrounding whitespace, comes back
      as the path itself. */
  lemma CleanPathQuotedDrop(pre: string, q: char, p: string, post: string)
    requires IsQuote(q) && NoChar(p, '\\')
    requires forall k :: 0 <= k < |pre| ==> IsSpace(pre[k])
    requires forall k :: 0 <= k < |post| ==> IsSpace(post[k])
    ensures CleanPath(pre + [q] + p + [q] + post) == p
  {
    var quoted := [q] + p + [q];
    assert pre + [q] + p + [q] + post == pre + quoted + post;
    StripPadded(pre, quoted, post);
    CleanPathOfQuoted(pre + quoted + post, q, p);
  }

  lemma ReplaceAbsentBackslash(p: string)
    requires NoChar(p, '\\')
    ensures Unescape(p) == p
  {
    forall k | 0 <= k < |p| ensures !StartsWith(p[k..], "\\ ") {
      assert p[k..][0] == p[k];
    }
    ReplaceAbsent(p, "\\ ", " ");
  }

  /** A quote without its partner (or a lone quote) is kept. */
  lemma {:induction false} UnmatchedQuoteKept(userInput: string)
    requires var path := Strip(userInput); |path| > 0 && IsQuote(path[0]) && !IsQuoted(path)
    ensures var r := CleanPath(userInput); |r| > 0 && r[0] == Strip(userInput)[0]
    ensures NoChar(Strip(userInput), '\\') ==> CleanPath(userInput) == Strip(userInput)
  {
    var path := Strip(userInput);
    assert !StartsWith(path, "\\ ");
    if NoChar(path, '\\') {
      ReplaceAbsentBackslash(path);
    }
  }

  /** Only the outermost pair of quotes is removed. */
  lemma OnlyOnePairRemoved()
    ensures CleanPath("\"\"a\"\"") == "\"a\""
  {
    CleanPathQuotedDrop([], '"', "\"a\"", []);
    assert [] + ['"'] + "\"a\"" + ['"'] + [] == "\"\"a\"\"";
  }
}
