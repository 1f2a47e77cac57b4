/** Turning free text into file-name material: the regex `[^\w\s-]` substitution, the
    output snippet (truncated, with the fallback "audio") and the enrolled voice name. */
module Sanitize {
  import opened Strings

  /** FILENAME_MAX_LEN and the literal 20 of the command-line tool. */
  const SnippetMaxLen: nat := 20

  const Fallback: string := "audio"

  /** A character the substitution `re.sub(r'[^\w\s-]', '', ...)` keeps. */
  predicate Allowed(c: char)
  {
    IsWordChar(c) || IsSpace(c) || c == '-'
  }

  predicate AllAllowed(s: string)
  {
    forall k :: 0 <= k < |s| ==> Allowed(s[k])
  }

  /** What a sanitised name looks like: only kept characters, no space (other
      whitespace such as a newline may remain), no whitespace at either end. */
  predicate CleanName(s: string)
  {
    AllAllowed(s) && NoChar(s, ' ') && NoSpaceAtEdges(s)
  }

  /** `re.sub(r'[^\w\s-]', '', s)`: the characters of `s` that are word characters,
      whitespace or `-`, in their original order. */
  function KeepAllowed(s: string): (r: string)
    ensures |r| <= |s|
    ensures AllAllowed(r)
    ensures AllAllowed(s) ==> r == s
  {
    if |s| == 0 then []
    else if Allowed(s[0]) then [s[0]] + KeepAllowed(s[1..])
    else KeepAllowed(s[1..])
  }

  /** The substitution distributes over concatenation. */
  lemma {:induction false} KeepAllowedAppend(a: string, b: string)
    ensures KeepAllowed(a + b) == KeepAllowed(a) + KeepAllowed(b)
    decreases |a|
  {
    if |a| == 0 {
      assert a + b == b;
    } else {
      assert (a + b)[0] == a[0] && (a + b)[1..] == a[1..] + b;
      KeepAllowedAppend(a[1..], b);
    }
  }

  /** Python's slice `s[:n]`. */
  function Truncate(s: string, n: nat): (r: string)
    ensures |r| <= n && |r| <= |s| && r == s[..|r|]
    ensures |s| <= n ==> r == s
  {
    if |s| <= n then s else s[..n]
  }

  /** `.strip().replace(' ', '_')`, the common tail of both sanitisers. */
  function Underscored(s: string): string
  {
    ReplaceAll(Strip(s), " ", "_")
  }

  /** The tail turns a string of kept characters into a clean name, characterwise. */
  lemma UnderscoredClean(s: string)
    requires AllAllowed(s)
    ensures CleanName(Underscored(s))
    ensures |Underscored(s)| == |Strip(s)|
    ensures Underscored(s) == [] <==> AllSpace(s)
  {
    var t := Strip(s);
    ReplaceCharAt(t, ' ', '_');
    StripChars(s);
    StripEmpty(s);
    UnderscoreChars(s, t, ReplaceAll(t, " ", "_"));
  }

  /** Replacing the spaces of a stripped string of kept characters by `_` gives a
      clean name. */
  lemma UnderscoreChars(s: string, t: string, u: string)
    requires AllAllowed(s) && NoSpaceAtEdges(t)
    requires forall k :: 0 <= k < |t| ==> t[k] in s
    requires |u| == |t|
    requires forall k :: 0 <= k < |t| ==> u[k] == (if t[k] == ' ' then '_' else t[k])
    ensures CleanName(u)
  {
    forall k | 0 <= k < |u| ensures Allowed(u[k]) && u[k] != ' ' {
      var j :| 0 <= j < |s| && s[j] == t[k];
      assert Allowed(s[j]);
    }
  }

  /** `safe_name = re.sub(r'[^\w\s-]', '', name).strip().replace(' ', '_')`:
      no truncation and no fallback. */
  function SafeName(name: string): (r: string)
    ensures CleanName(r)
    ensures |r| <= |name|
  {
    var kept := KeepAllowed(name);
    UnderscoredClean(kept);
    Underscored(kept)
  }

  /** The snippet before the fallback: sanitise, keep the first 20, strip, underscore. */
  function SnippetCore(text: string): string
  {
    Underscored(Truncate(KeepAllowed(text), SnippetMaxLen))
  }

  /** `... or "audio"`: the text snippet used in generated output names. */
  function Snippet(text: string): (r: string)
    ensures r != [] && |r| <= SnippetMaxLen
    ensures CleanName(r)
  {
    var core := SnippetCore(text);
    UnderscoredClean(Truncate(KeepAllowed(text), SnippetMaxLen));
    FallbackIsClean();
    if core == [] then Fallback else core
  }

  /** The fallback is itself a clean name of at most 20 characters. */
  lemma FallbackIsClean()
    ensures Fallback != [] && |Fallback| <= SnippetMaxLen && CleanName(Fallback)
  {
    assert forall k :: 0 <= k < |Fallback| ==> 'a' <= Fallback[k] <= 'z';
  }

  /** Sanitised names never contain a dot (so `name + ".wav"` has just the one). */
  lemma CleanNameHasNoDot(s: string)
    requires AllAllowed(s)
    ensures NoChar(s, '.')
  {
    forall k | 0 <= k < |s| ensures s[k] != '.' {
      assert Allowed(s[k]);
    }
  }

  /** A clean name survives the name sanitiser unchanged. */
  lemma {:induction false} SafeNameIdempotent(s: string)
    requires CleanName(s)
    ensures SafeName(s) == s
  {
    StripIdentity(s);
    ReplaceCharAt(s, ' ', '_');
    assert ReplaceAll(s, " ", "_") == s;
  }

  /** Sanitising a snippet again gives back the same snippet. */
  lemma {:induction false} SnippetIdempotent(text: string)
    ensures Snippet(Snippet(text)) == Snippet(text)
  {
    var r := Snippet(text);
    SafeNameIdempotent(r);
    assert Truncate(KeepAllowed(r), SnippetMaxLen) == r;
  }

  /** The snippet is the voice-name sanitiser applied to the first 20 kept characters,
      with the fallback; for short texts, exactly `SafeName` with the fallback. */
  lemma {:induction false} SnippetIsTruncatedSafeName(text: string)
    ensures var name := SafeName(Truncate(KeepAllowed(text), SnippetMaxLen));
            Snippet(text) == if name == [] then Fallback else name
    ensures |KeepAllowed(text)| <= SnippetMaxLen ==>
            Snippet(text) == if SafeName(text) == [] then Fallback else SafeName(text)
  {
    var kept := KeepAllowed(text);
    var t := Truncate(kept, SnippetMaxLen);
    AllowedPrefix(kept, t);
    assert KeepAllowed(t) == t;
    assert SafeName(t) == SnippetCore(text);
  }

  /** A prefix of kept characters is kept characters. */
  lemma AllowedPrefix(s: string, t: string)
    requires AllAllowed(s) && |t| <= |s| && t == s[..|t|]
    ensures AllAllowed(t)
  {
    forall k | 0 <= k < |t| ensures Allowed(t[k]) {
      assert t[k] == s[k];
    }
  }

  /** The fallback is taken exactly when the first 20 kept characters are all whitespace. */
  lemma {:induction false} SnippetFallback(text: string)
    ensures SnippetCore(text) == [] <==> AllSpace(Truncate(KeepAllowed(text), SnippetMaxLen))
  {
    UnderscoredClean(Truncate(KeepAllowed(text), SnippetMaxLen));
  }

  /** In particular, a text with no word character and no hyphen gets the fallback. */
  lemma {:induction false} SnippetFallbackWithoutWords(text: string)
    requires forall k :: 0 <= k < |text| ==> !IsWordChar(text[k]) && text[k] != '-'
    ensures Snippet(text) == Fallback
  {
    NoWordCharsKeepsSpace(text);
    SpacePrefix(KeepAllowed(text), Truncate(KeepAllowed(text), SnippetMaxLen));
    SnippetFallback(text);
  }

  /** A prefix of whitespace is whitespace. */
  lemma SpacePrefix(s: string, t: string)
    requires |t| <= |s| && t == s[..|t|]
    requires AllSpace(s)
    ensures AllSpace(t)
  {
    forall k | 0 <= k < |t| ensures IsSpace(t[k]) {
      assert t[k] == s[k];
    }
  }

  lemma {:induction false} NoWordCharsKeepsSpace(text: string)
    requires forall k :: 0 <= k < |text| ==> !IsWordChar(text[k]) && text[k] != '-'
    ensures AllSpace(KeepAllowed(text))
    decreases |text|
  {
    if |text| > 0 {
      NoWordCharsKeepsSpace(text[1..]);
    }
  }

  /** A string of dropped characters sanitises to nothing. */
  lemma {:induction false} NothingKept(s: string)
    requires forall k :: 0 <= k < |s| ==> !Allowed(s[k])
    ensures KeepAllowed(s) == []
    decreases |s|
  {
    if |s| > 0 {
      NothingKept(s[1..]);
    }
  }

  /** "Mom!" enrols as "Mom". */
  lemma SafeNameMom(name: string, safe: string)
    requires name == "Mom!" && safe == "Mom"
    ensures SafeName(name) == safe
  {
    var bang := "!";
    assert name == safe + bang;
    assert CleanName(safe) by {
      assert forall k :: 0 <= k < |safe| ==> IsWordChar(safe[k]);
    }
    NothingKept(bang);
    KeepAllowedAppend(safe, bang);
    assert KeepAllowed(name) == safe;
    SafeNameIdempotent(safe);
  }

  /** A name of punctuation only sanitises to the empty name: there is no fallback. */
  lemma SafeNameCanBeEmpty(name: string)
    requires name == "!!!"
    ensures SafeName(name) == ""
  {
    NothingKept(name);
    StripIdentity([]);
  }
}
