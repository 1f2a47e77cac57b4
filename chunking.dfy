/** `split_into_chunks`: the text is split after each sentence end (`.`, `!` or `?`
    followed by whitespace), each piece is stripped, empty pieces are dropped and the
    rest are joined with newlines, so that the synthesiser sees one sentence per line. */
module Chunking {
  import opened Strings

  predicate IsTerminal(c: char)
  {
    c == '.' || c == '!' || c == '?'
  }

  /** The pattern `(?<=[.!?])\s+` can start matching at position `i`. */
  predicate BreakAt(s: string, i: int)
  {
    0 < i < |s| && IsTerminal(s[i - 1]) && IsSpace(s[i])
  }

  /** End of the whitespace run starting at `i` (`\s+` is greedy). */
  function SpaceRunEnd(s: string, i: nat): (j: nat)
    requires i <= |s|
    ensures i <= j <= |s|
    ensures forall k :: i <= k < j ==> IsSpace(s[k])
    ensures j == |s| || !IsSpace(s[j])
    decreases |s| - i
  {
    if i == |s| || !IsSpace(s[i]) then i else SpaceRunEnd(s, i + 1)
  }

  /** `re.split(r"(?<=[.!?])\s+", s[start..])` with the scan at `i`: the piece being
      collected is `s[start..i]` so far. */
  function SplitFrom(s: string, start: nat, i: nat): (pieces: seq<string>)
    requires start <= i <= |s|
    ensures |pieces| > 0
    decreases |s| - i
  {
    if i == |s| then [s[start..]]
    else if BreakAt(s, i) then
      var j := SpaceRunEnd(s, i);
      [s[start..i]] + SplitFrom(s, j, j)
    else SplitFrom(s, start, i + 1)
  }

  /** The whitespace runs `re.split` consumes, from the scan at `i` on: one per break,
      in the order of the pieces they separate. */
  function SepsFrom(s: string, start: nat, i: nat): (seps: seq<string>)
    requires start <= i <= |s|
    decreases |s| - i
  {
    if i == |s| then []
    else if BreakAt(s, i) then
      var j := SpaceRunEnd(s, i);
      [s[i..j]] + SepsFrom(s, j, j)
    else SepsFrom(s, start, i + 1)
  }

  /** The pieces `re.split` returns for the whole text. */
  function Pieces(text: string): seq<string>
  {
    SplitFrom(text, 0, 0)
  }

  /** The separators between the pieces of the whole text. */
  function Separators(text: string): seq<string>
  {
    SepsFrom(text, 0, 0)
  }

  /** `p0 + r0 + p1 + r1 + ... + pn`: the pieces put back together with the separators. */
  function Interleave(pieces: seq<string>, seps: seq<string>): string
    requires |seps| + 1 == |pieces|
  {
    if |seps| == 0 then pieces[0] else pieces[0] + seps[0] + Interleave(pieces[1..], seps[1..])
  }

  /** No sentence break starts inside `p`. */
  predicate Unbroken(p: string)
  {
    forall m :: 0 <= m < |p| ==> !BreakAt(p, m)
  }

  /** `p` ends a sentence: its last character is `.`, `!` or `?`. */
  predicate EndsSentence(p: string)
  {
    p != [] && IsTerminal(p[|p| - 1])
  }

  /** `p` is empty or starts with a character that is not whitespace. */
  predicate Opens(p: string)
  {
    p == [] || !IsSpace(p[0])
  }

  /** What `re.split(r"(?<=[.!?])\s+", s)` promises of its result: the pieces and the
      whitespace runs between them make up `s`; no piece holds a sentence break; every run
      follows a piece that ends a sentence, is not empty, and reaches up to the next
      character that is not whitespace. */
  predicate SentenceSplit(s: string, pieces: seq<string>, seps: seq<string>)
  {
    |seps| + 1 == |pieces|
    && Interleave(pieces, seps) == s
    && (forall p :: p in pieces ==> Unbroken(p))
    && (forall k :: 0 <= k < |pieces| - 1 ==> EndsSentence(pieces[k]))
    && (forall k :: 0 < k < |pieces| ==> Opens(pieces[k]))
    && (forall r :: r in seps ==> r != [] && AllSpace(r))
  }

  /** `s.strip() for s in sentences if s.strip()` */
  function StrippedNonEmpty(pieces: seq<string>): (lines: seq<string>)
    ensures forall k :: 0 <= k < |lines| ==> lines[k] != [] && NoSpaceAtEdges(lines[k])
  {
    if |pieces| == 0 then []
    else if Strip(pieces[0]) == [] then StrippedNonEmpty(pieces[1..])
    else [Strip(pieces[0])] + StrippedNonEmpty(pieces[1..])
  }

  /** `split_into_chunks(text)` */
  function Chunks(text: string): string
  {
    Join("\n", StrippedNonEmpty(Pieces(text)))
  }

  /** The scan from `start` splits `s[start..]` at every sentence break: pieces and
      separators satisfy `SentenceSplit`, and the first piece opens as the rest of the
      text does. */
  lemma {:induction false} SplitFromShape(s: string, start: nat, i: nat)
    requires start <= i <= |s|
    requires start == i ==> !BreakAt(s, i)
    requires forall k :: start < k < i ==> !BreakAt(s, k)
    ensures SentenceSplit(s[start..], SplitFrom(s, start, i), SepsFrom(s, start, i))
    ensures Opens(s[start..]) ==> Opens(SplitFrom(s, start, i)[0])
    decreases |s| - i
  {
    if i == |s| {
      SuffixUnbroken(s, start);
      SplitOne(s[start..]);
    } else if BreakAt(s, i) {
      var j := SpaceRunEnd(s, i);
      SplitFromShape(s, j, j);
      OpensAfterRun(s, i, j);
      SplitAtBreak(s, start, i, j, SplitFrom(s, j, j), SepsFrom(s, j, j));
    } else {
      SplitFromShape(s, start, i + 1);
    }
  }

  /** The text after a whitespace run opens with a character that is not whitespace. */
  lemma OpensAfterRun(s: string, i: nat, j: nat)
    requires i <= |s| && j == SpaceRunEnd(s, i)
    ensures Opens(s[j..])
  {
    if j < |s| {
      assert s[j..][0] == s[j];
    }
  }

  /** The break step of the scan: the sentence `s[start..i]`, the run `s[i..j]` and a split
      of `s[j..]` make a split of `s[start..]`. */
  lemma SplitAtBreak(s: string, start: nat, i: nat, j: nat, rest: seq<string>, seps: seq<string>)
    requires start < i < |s| && BreakAt(s, i) && j == SpaceRunEnd(s, i)
    requires forall k :: start < k < i ==> !BreakAt(s, k)
    requires SentenceSplit(s[j..], rest, seps) && Opens(rest[0])
    ensures SentenceSplit(s[start..], [s[start..i]] + rest, [s[i..j]] + seps)
    ensures Opens(s[start..]) ==> Opens(s[start..i])
  {
    SliceUnbroken(s, start, i);
    SliceAllSpace(s, i, j);
    SliceThree(s, start, i, j);
    SplitCons(s[start..i], s[i..j], s[j..], rest, seps);
    assert s[start..][0] == s[start..i][0];
  }

  /** `re.split` on the whole text splits it at every sentence break. */
  lemma PiecesSplitText(text: string)
    ensures SentenceSplit(text, Pieces(text), Separators(text))
  {
    SplitFromShape(text, 0, 0);
    assert text[0..] == text;
  }

  /** A text without a break is a split of itself into one piece. */
  lemma SplitOne(t: string)
    requires Unbroken(t)
    ensures SentenceSplit(t, [t], [])
  {
  }

  /** A sentence, a whitespace run and a split of the rest whose first piece opens with a
      character that is not whitespace make a split of the whole. */
  lemma SplitCons(a: string, b: string, t: string, rest: seq<string>, seps: seq<string>)
    requires SentenceSplit(t, rest, seps) && Opens(rest[0])
    requires Unbroken(a) && EndsSentence(a) && b != [] && AllSpace(b)
    ensures SentenceSplit(a + b + t, [a] + rest, [b] + seps)
  {
    var pieces := [a] + rest;
    assert pieces[1..] == rest && ([b] + seps)[1..] == seps;
    assert Interleave(pieces, [b] + seps) == a + b + t;
    forall k | 0 < k < |pieces| ensures Opens(pieces[k]) {
      assert pieces[k] == rest[k - 1];
    }
    forall k | 0 <= k < |pieces| - 1 ensures EndsSentence(pieces[k]) {
      if k > 0 {
        assert pieces[k] == rest[k - 1];
      }
    }
  }

  /** A slice with no break strictly inside it in the whole text holds no break. */
  lemma SliceUnbroken(s: string, a: nat, b: nat)
    requires a <= b <= |s|
    requires forall k :: a < k < b ==> !BreakAt(s, k)
    ensures Unbroken(s[a..b])
  {
    var p := s[a..b];
    forall m | 0 <= m < |p| ensures !BreakAt(p, m) {
      if 0 < m {
        assert p[m - 1] == s[a + m - 1] && p[m] == s[a + m];
        assert !BreakAt(s, a + m);
      }
    }
  }

  lemma SuffixUnbroken(s: string, a: nat)
    requires a <= |s|
    requires forall k :: a < k < |s| ==> !BreakAt(s, k)
    ensures Unbroken(s[a..])
  {
    SliceUnbroken(s, a, |s|);
    assert s[a..] == s[a..|s|];
  }

  lemma SliceAllSpace(s: string, a: nat, b: nat)
    requires a <= b <= |s|
    requires forall k :: a <= k < b ==> IsSpace(s[k])
    ensures AllSpace(s[a..b])
  {
    forall m | 0 <= m < b - a ensures IsSpace(s[a..b][m]) {
      assert s[a..b][m] == s[a + m];
    }
  }

  /** Stripping a piece without a break leaves a line without a break. */
  lemma StripUnbroken(p: string)
    requires Unbroken(p)
    ensures Unbroken(Strip(p))
  {
    StripShape(p);
    SliceUnbroken(p, StripStart(p), StripStart(p) + |Strip(p)|);
  }

  /** A sentence end is no whitespace. */
  lemma TerminalIsNoSpace(c: char)
    requires IsTerminal(c)
    ensures !IsSpace(c)
  {
  }

  /** Stripping keeps the sentence end a piece finishes with. */
  lemma StripEndsSentence(p: string)
    requires EndsSentence(p)
    ensures EndsSentence(Strip(p))
  {
    StripShape(p);
    TerminalIsNoSpace(p[|p| - 1]);
    KeepsLast(p, Strip(p), StripStart(p));
  }

  /** A slice that leaves out only whitespace keeps a last character that is none. */
  lemma KeepsLast(p: string, r: string, i: nat)
    requires p != [] && !IsSpace(p[|p| - 1])
    requires i + |r| <= |p| && r == p[i..i + |r|]
    requires forall k :: 0 <= k < i ==> IsSpace(p[k])
    requires forall k :: i + |r| <= k < |p| ==> IsSpace(p[k])
    ensures r != [] && r[|r| - 1] == p[|p| - 1]
  {
  }

  /** Stripping and dropping empty pieces keeps every piece without a break so. */
  lemma {:induction false} StrippedUnbroken(pieces: seq<string>)
    requires forall p :: p in pieces ==> Unbroken(p)
    ensures forall l :: l in StrippedNonEmpty(pieces) ==> Unbroken(l)
    decreases |pieces|
  {
    if |pieces| > 0 {
      assert pieces[0] in pieces;
      StripUnbroken(pieces[0]);
      assert forall p :: p in pieces[1..] ==> p in pieces;
      StrippedUnbroken(pieces[1..]);
    }
  }

  /** When every piece but the last ends a sentence, only the last can be dropped: the
      lines are the stripped pieces, each ending its sentence, and perhaps the last one. */
  lemma {:induction false} StrippedSentences(pieces: seq<string>)
    requires forall k :: 0 <= k < |pieces| - 1 ==> EndsSentence(pieces[k])
    ensures var lines := StrippedNonEmpty(pieces);
            |pieces| - 1 <= |lines| <= |pieces|
            && forall k :: 0 <= k < |pieces| - 1 ==> lines[k] == Strip(pieces[k]) && EndsSentence(lines[k])
    decreases |pieces|
  {
    if |pieces| > 1 {
      var rest := pieces[1..];
      assert forall k :: 0 <= k < |rest| - 1 ==> rest[k] == pieces[k + 1];
      StrippedSentences(rest);
      StripEndsSentence(pieces[0]);
      LinesCons(Strip, pieces, rest, StrippedNonEmpty(pieces), Strip(pieces[0]), StrippedNonEmpty(rest));
    } else if |pieces| == 1 {
      assert StrippedNonEmpty(pieces[1..]) == [];
    }
  }

  /** The step of `StrippedSentences`: a first line in front of the lines of the rest,
      each line being `f` of its piece. */
  lemma LinesCons(f: string -> string, pieces: seq<string>, rest: seq<string>, lines: seq<string>,
                  head: string, tail: seq<string>)
    requires |pieces| > 1 && rest == pieces[1..] && lines == [head] + tail
    requires head == f(pieces[0]) && EndsSentence(head)
    requires |rest| - 1 <= |tail| <= |rest|
    requires forall k :: 0 <= k < |rest| - 1 ==> tail[k] == f(rest[k]) && EndsSentence(tail[k])
    ensures |pieces| - 1 <= |lines| <= |pieces|
    ensures forall k :: 0 <= k < |pieces| - 1 ==> lines[k] == f(pieces[k]) && EndsSentence(lines[k])
  {
    forall k | 0 < k < |pieces| - 1 ensures lines[k] == f(pieces[k]) && EndsSentence(lines[k]) {
      assert lines[k] == tail[k - 1] && rest[k - 1] == pieces[k];
    }
  }

  /** One sentence per line: no line of the chunked text holds a sentence break. */
  lemma ChunkLinesUnbroken(text: string)
    ensures forall l, i :: l in StrippedNonEmpty(Pieces(text)) && 0 <= i < |l| ==> !BreakAt(l, i)
  {
    PiecesSplitText(text);
    StrippedUnbroken(Pieces(text));
  }

  /** The lines are the stripped pieces in order, none dropped but perhaps a trailing
      whitespace-only one, and every line but the last ends its sentence with `.`, `!`
      or `?`. */
  lemma ChunkLinesEndSentences(text: string)
    ensures var pieces := Pieces(text);
            var lines := StrippedNonEmpty(pieces);
            |pieces| - 1 <= |lines| <= |pieces|
            && forall k :: 0 <= k < |pieces| - 1 ==> lines[k] == Strip(pieces[k]) && EndsSentence(lines[k])
  {
    PiecesSplitText(text);
    StrippedSentences(Pieces(text));
  }

  /** The non-whitespace characters of `s`, in order. */
  function Visible(s: string): string
  {
    if |s| == 0 then []
    else if IsSpace(s[0]) then Visible(s[1..])
    else [s[0]] + Visible(s[1..])
  }

  function VisibleOfAll(parts: seq<string>): string
  {
    if |parts| == 0 then [] else Visible(parts[0]) + VisibleOfAll(parts[1..])
  }

  lemma {:induction false} VisibleAppend(a: string, b: string)
    ensures Visible(a + b) == Visible(a) + Visible(b)
    decreases |a|
  {
    if |a| == 0 {
      assert a + b == b;
    } else {
      assert (a + b)[0] == a[0] && (a + b)[1..] == a[1..] + b;
      VisibleAppend(a[1..], b);
    }
  }

  lemma {:induction false} VisibleAllSpace(s: string)
    requires AllSpace(s)
    ensures Visible(s) == []
    decreases |s|
  {
    if |s| > 0 {
      VisibleAllSpace(s[1..]);
    }
  }

  /** Whitespace between two parts is invisible. */
  lemma VisibleAround(a: string, b: string, c: string)
    requires AllSpace(b)
    ensures Visible(a + b + c) == Visible(a) + Visible(c)
  {
    VisibleAppend(a, b);
    VisibleAppend(a + b, c);
    VisibleAllSpace(b);
  }

  /** A string cut into three consecutive slices. */
  lemma SliceThree(s: string, a: nat, b: nat, c: nat)
    requires a <= b <= c <= |s|
    ensures s[a..] == s[a..b] + s[b..c] + s[c..]
  {
  }

  /** Stripping removes whitespace only. */
  lemma VisibleStrip(s: string)
    ensures Visible(Strip(s)) == Visible(s)
  {
    var i, r := StripStart(s), Strip(s);
    StripShape(s);
    Padded(s, i, r);
    VisiblePadded(s[..i], r, s[i + |r|..]);
  }

  /** Whitespace padding is invisible. */
  lemma VisiblePadded(pre: string, mid: string, post: string)
    requires AllSpace(pre) && AllSpace(post)
    ensures Visible(pre + mid + post) == Visible(mid)
  {
    VisibleAppend(pre, mid);
    VisibleAppend(pre + mid, post);
    VisibleAllSpace(pre);
    VisibleAllSpace(post);
  }

  /** The slice `r` at `i` with whitespace all around it. */
  lemma Padded(s: string, i: nat, r: string)
    requires i + |r| <= |s| && r == s[i..i + |r|]
    requires forall k :: 0 <= k < i ==> IsSpace(s[k])
    requires forall k :: i + |r| <= k < |s| ==> IsSpace(s[k])
    ensures s == s[..i] + r + s[i + |r|..] && AllSpace(s[..i]) && AllSpace(s[i + |r|..])
  {
    assert s == s[..i] + s[i..i + |r|] + s[i + |r|..];
  }

  /** Splitting loses only the whitespace runs it splits at. */
  lemma {:induction false} VisibleSplitFrom(s: string, start: nat, i: nat)
    requires start <= i <= |s|
    ensures VisibleOfAll(SplitFrom(s, start, i)) == Visible(s[start..])
    decreases |s| - i
  {
    if i == |s| {
      assert VisibleOfAll([s[start..]]) == Visible(s[start..]) + VisibleOfAll([]);
    } else if BreakAt(s, i) {
      var j := SpaceRunEnd(s, i);
      VisibleSplitFrom(s, j, j);
      var rest := SplitFrom(s, j, j);
      assert ([s[start..i]] + rest)[1..] == rest;
      SliceThree(s, start, i, j);
      VisibleAround(s[start..i], s[i..j], s[j..]);
    } else {
      VisibleSplitFrom(s, start, i + 1);
    }
  }

  lemma {:induction false} VisibleStrippedNonEmpty(pieces: seq<string>)
    ensures VisibleOfAll(StrippedNonEmpty(pieces)) == VisibleOfAll(pieces)
    decreases |pieces|
  {
    if |pieces| > 0 {
      VisibleStrippedNonEmpty(pieces[1..]);
      VisibleStrip(pieces[0]);
      var rest := StrippedNonEmpty(pieces[1..]);
      if Strip(pieces[0]) != [] {
        assert ([Strip(pieces[0])] + rest)[1..] == rest;
      }
    }
  }

  lemma {:induction false} VisibleJoinLines(parts: seq<string>)
    ensures Visible(Join("\n", parts)) == VisibleOfAll(parts)
    decreases |parts|
  {
    if |parts| == 1 {
      assert VisibleOfAll(parts) == Visible(parts[0]) + VisibleOfAll([]);
    } else if |parts| > 1 {
      VisibleJoinLines(parts[1..]);
      VisibleAppend(parts[0] + "\n", Join("\n", parts[1..]));
      VisibleAppend(parts[0], "\n");
    }
  }

  /** Chunking only rearranges whitespace: every visible character of the text is kept,
      in its original order, and nothing is added but line breaks. */
  lemma ChunksKeepVisibleText(text: string)
    ensures Visible(Chunks(text)) == Visible(text)
  {
    var pieces := Pieces(text);
    VisibleJoinLines(StrippedNonEmpty(pieces));
    VisibleStrippedNonEmpty(pieces);
    VisibleSplitFrom(text, 0, 0);
    assert text[0..] == text;
  }

  /** Joining non-empty lines without edge whitespace gives a string without edge whitespace. */
  lemma {:induction false} JoinNoSpaceAtEdges(parts: seq<string>)
    requires forall k :: 0 <= k < |parts| ==> parts[k] != [] && NoSpaceAtEdges(parts[k])
    ensures NoSpaceAtEdges(Join("\n", parts))
    decreases |parts|
  {
    if |parts| > 1 {
      JoinNoSpaceAtEdges(parts[1..]);
      var tail := Join("\n", parts[1..]);
      var r := parts[0] + "\n" + tail;
      assert r[0] == parts[0][0];
      assert r[|r| - 1] == tail[|tail| - 1];
    }
  }

  /** The chunked text has no leading or trailing whitespace. */
  lemma ChunksNoSpaceAtEdges(text: string)
    ensures NoSpaceAtEdges(Chunks(text))
  {
    JoinNoSpaceAtEdges(StrippedNonEmpty(Pieces(text)));
  }

  /** The scan passes over positions where no break starts. */
  lemma {:induction false} SplitFromSkip(s: string, start: nat, i: nat, m: nat)
    requires start <= i <= m <= |s|
    requires forall k :: i <= k < m ==> !BreakAt(s, k)
    ensures SplitFrom(s, start, i) == SplitFrom(s, start, m)
    decreases m - i
  {
    if i < m {
      SplitFromSkip(s, start, i + 1, m);
    }
  }

  /** Without a break point the scan collects one piece: the rest of the text. */
  lemma SplitFromNoBreak(s: string, start: nat, i: nat)
    requires start <= i <= |s|
    requires forall k :: i <= k < |s| ==> !BreakAt(s, k)
    ensures SplitFrom(s, start, i) == [s[start..]]
  {
    SplitFromSkip(s, start, i, |s|);
  }

  /** Text with no `.`, `!` or `?` followed by whitespace comes back as itself, stripped. */
  lemma ChunksWithoutSentenceEnd(text: string)
    requires forall k :: 0 <= k < |text| ==> !BreakAt(text, k)
    ensures Chunks(text) == Strip(text)
  {
    SplitFromNoBreak(text, 0, 0);
    assert text[0..] == text;
    assert Pieces(text) == [text];
    if Strip(text) != [] {
      assert StrippedNonEmpty([text]) == [Strip(text)] + StrippedNonEmpty([]);
    }
  }

  /** Whitespace-only text chunks to the empty string. */
  lemma ChunksOfWhitespace(text: string)
    requires AllSpace(text)
    ensures Chunks(text) == []
  {
    ChunksWithoutSentenceEnd(text);
    StripAllSpace(text);
  }

  lemma HelloWorldPieces()
    ensures Pieces("Hello. World!") == ["Hello.", "World!"]
  {
    var s := "Hello. World!";
    assert BreakAt(s, 6);
    assert forall k :: 0 <= k < 6 ==> !BreakAt(s, k);
    assert forall k :: 7 <= k < |s| ==> !BreakAt(s, k);
    assert SpaceRunEnd(s, 6) == 7;
    SplitFromSkip(s, 0, 0, 6);
    SplitFromNoBreak(s, 7, 7);
    assert SplitFrom(s, 0, 6) == [s[0..6]] + SplitFrom(s, 7, 7);
    assert s[0..6] == "Hello." && s[7..] == "World!";
  }

  /** The two-sentence example: one sentence per line. */
  lemma HelloWorld()
    ensures Chunks("Hello. World!") == "Hello.\nWorld!"
  {
    HelloWorldPieces();
    HelloWorldLines("Hello.", "World!", "Hello.\nWorld!");
  }

  lemma HelloWorldLines(a: string, b: string, joined: string)
    requires a == "Hello." && b == "World!" && joined == "Hello.\nWorld!"
    ensures Join("\n", StrippedNonEmpty([a, b])) == joined
  {
    assert NoSpaceAtEdges(a) && NoSpaceAtEdges(b);
    StrippedClean(a, b);
    assert joined == a + "\n" + b;
  }

  /** Two non-empty lines without edge whitespace are kept as they are. */
  lemma StrippedClean(a: string, b: string)
    requires a != [] && b != [] && NoSpaceAtEdges(a) && NoSpaceAtEdges(b)
    ensures StrippedNonEmpty([a, b]) == [a, b]
  {
    StripIdentity(a);
    StripIdentity(b);
    var tail := [b];
    assert [a, b][1..] == tail && tail[1..] == [];
    assert StrippedNonEmpty(tail) == [b] + StrippedNonEmpty([]);
    assert StrippedNonEmpty([a, b]) == [a] + StrippedNonEmpty(tail);
  }
}
