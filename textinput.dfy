/** Where the text to speak comes from: a typed line or a dropped `.txt` file in the
    interactive sessions (`get_safe_input`), the positional argument or a `.txt` file for
    the command-line tool (`resolve_text`). */
module TextInput {
  import opened Strings
  import opened Optional
  import opened Paths
  import opened FileStore

  const ExitWords: seq<string> := ["exit", "quit", "q"]

  predicate IsExitWord(raw: string)
  {
    Lower(raw) in ExitWords
  }

  /** `get_safe_input` after `input()` returned `line`: `None` ends the session loop,
      both for an exit word and when the `.txt` path names a directory (the `IOError`
      branch); a dropped `.txt` file yields its stripped contents; anything else is the
      stripped line itself, not the cleaned path. */
  function GetSafeInput(line: string, fs: Fs): (r: Option<string>)
    ensures IsExitWord(Strip(line)) ==> r == None
    ensures var p := CleanPath(Strip(line));
            !IsExitWord(Strip(line)) && p in fs.files && EndsWith(p, ".txt") ==>
              r == Some(Strip(fs.files[p]))
    ensures var p := CleanPath(Strip(line));
            !IsExitWord(Strip(line)) && !(fs.Exists(p) && EndsWith(p, ".txt")) ==>
              r == Some(Strip(line))
    ensures var p := CleanPath(Strip(line));
            r.None? <==> (IsExitWord(Strip(line)) || (p in fs.dirs && p !in fs.files && EndsWith(p, ".txt")))
  {
    var raw := Strip(line);
    if IsExitWord(raw) then None
    else
      var path := CleanPath(raw);
      if fs.Exists(path) && EndsWith(path, ".txt") then
        if path in fs.files then Some(Strip(fs.files[path])) else None
      else Some(raw)
  }

  /** `resolve_text`: an existing regular file whose name ends in `.txt` is read and
      stripped; any other argument is the text, verbatim (not even stripped). */
  function ResolveText(arg: string, fs: Fs): (r: string)
    ensures fs.IsFile(arg) && EndsWith(arg, ".txt") ==> r == Strip(fs.files[arg])
    ensures !(fs.IsFile(arg) && EndsWith(arg, ".txt")) ==> r == arg
  {
    if fs.IsFile(arg) && EndsWith(arg, ".txt") then Strip(fs.files[arg]) else arg
  }

  /** A path the user typed as is (no quotes, backslashes or edge whitespace) is cleaned
      to itself. */
  lemma CleanPathOfPlainPath(p: string)
    requires NoSpaceAtEdges(p) && NoChar(p, '\\') && !IsQuoted(p)
    ensures CleanPath(p) == p
  {
    StripIdentity(p);
    ReplaceAbsentBackslash(p);
  }

  lemma TxtIsNotExitWord(p: string)
    requires EndsWith(p, ".txt")
    ensures !IsExitWord(p)
  {
    var l := Lower(p);
    LowerAt(p, |p| - 4);
    assert l[|l| - 4] == '.';
  }

  /** Both front ends read the same text from a plainly named `.txt` file. */
  lemma FrontEndsReadSameFile(p: string, fs: Fs)
    requires NoSpaceAtEdges(p) && NoChar(p, '\\') && !IsQuoted(p)
    requires p in fs.files && EndsWith(p, ".txt")
    ensures GetSafeInput(p, fs) == Some(ResolveText(p, fs))
  {
    StripIdentity(p);
    CleanPathOfPlainPath(p);
    TxtIsNotExitWord(p);
  }

  lemma QuoteIsNotExitWord(s: string)
    requires |s| > 0 && IsQuote(s[0])
    ensures !IsExitWord(s)
  {
    var l := Lower(s);
    LowerAt(s, 0);
    assert l[0] == s[0];
    assert l != "exit" && l != "quit" && l != "q";
  }

  lemma StripQuotedLine(pre: string, q: char, p: string, post: string)
    requires IsQuote(q)
    requires forall k :: 0 <= k < |pre| ==> IsSpace(pre[k])
    requires forall k :: 0 <= k < |post| ==> IsSpace(post[k])
    ensures Strip(pre + [q] + p + [q] + post) == [q] + p + [q]
  {
    var quoted := [q] + p + [q];
    assert pre + [q] + p + [q] + post == pre + quoted + post;
    StripPadded(pre, quoted, post);
  }

  lemma CleanQuoted(q: char, p: string)
    requires IsQuote(q) && NoChar(p, '\\')
    ensures CleanPath([q] + p + [q]) == p
  {
    var quoted := [q] + p + [q];
    assert quoted[0] == q && quoted[|quoted| - 1] == q;
    StripIdentity(quoted);
    CleanPathOfQuoted(quoted, q, p);
  }

  /** A `.txt` file dropped onto the interactive prompt (quoted, with padding) is read;
      the command-line tool would take the same quoted string as literal text. */
  lemma DroppedTextFileRead(pre: string, q: char, p: string, post: string, fs: Fs)
    requires IsQuote(q) && NoChar(p, '\\')
    requires forall k :: 0 <= k < |pre| ==> IsSpace(pre[k])
    requires forall k :: 0 <= k < |post| ==> IsSpace(post[k])
    requires p in fs.files && EndsWith(p, ".txt")
    ensures GetSafeInput(pre + [q] + p + [q] + post, fs) == Some(Strip(fs.files[p]))
    ensures var quoted := [q] + p + [q];
            quoted !in fs.files ==> ResolveText(quoted, fs) == quoted
  {
    StripQuotedLine(pre, q, p, post);
    CleanQuoted(q, p);
    QuoteIsNotExitWord([q] + p + [q]);
  }
}
