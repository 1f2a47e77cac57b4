/** Names the front ends make up: the `%H-%M-%S` timestamp, the generated output file
    name `<timestamp>_<snippet>.wav` (`save_audio_file` and `make_filename`), the
    command-line tool's `.wav` suffix rule and choice of name, and the temporary
    directory names `temp_<seconds>` and `temp_cli_<seconds>`. */
module Naming {
  import opened Strings
  import opened Optional
  import opened Paths
  import opened Sanitize
  import Chunking

  predicate IsDigit(c: char)
  {
    '0' <= c <= '9'
  }

  function Digit(n: nat): (c: char)
    requires n < 10
    ensures IsDigit(c)
  {
    (48 + n) as char
  }

  function DigitValue(c: char): nat
    requires IsDigit(c)
  {
    c as nat - 48
  }

  /** The wall-clock time of day, as `datetime.now()` reports it. */
  datatype Clock = Clock(hour: nat, minute: nat, second: nat)
  {
    predicate Valid()
    {
      hour < 24 && minute < 60 && second < 60
    }
  }

  /** `%02d` of a value below 100. */
  function TwoDigits(n: nat): (r: string)
    requires n < 100
    ensures |r| == 2 && IsDigit(r[0]) && IsDigit(r[1])
  {
    [Digit(n / 10), Digit(n % 10)]
  }

  /** `strftime("%H-%M-%S")` */
  function Timestamp(now: Clock): (r: string)
    requires now.Valid()
    ensures |r| == 8 && r[2] == '-' && r[5] == '-'
    ensures forall k :: 0 <= k < 8 && k != 2 && k != 5 ==> IsDigit(r[k])
  {
    TwoDigits(now.hour) + "-" + TwoDigits(now.minute) + "-" + TwoDigits(now.second)
  }

  /** Reading a time of day back from its `%H-%M-%S` form. */
  function TimeOf(ts: string): Clock
    requires |ts| == 8
    requires forall k :: 0 <= k < 8 && k != 2 && k != 5 ==> IsDigit(ts[k])
  {
    Clock(10 * DigitValue(ts[0]) + DigitValue(ts[1]),
          10 * DigitValue(ts[3]) + DigitValue(ts[4]),
          10 * DigitValue(ts[6]) + DigitValue(ts[7]))
  }

  /** The timestamp determines the time of day it was made from. */
  lemma TimestampRoundTrip(now: Clock)
    requires now.Valid()
    ensures TimeOf(Timestamp(now)) == now
  {
    var ts := Timestamp(now);
    assert DigitValue(ts[0]) == now.hour / 10 && DigitValue(ts[1]) == now.hour % 10;
    assert DigitValue(ts[3]) == now.minute / 10 && DigitValue(ts[4]) == now.minute % 10;
    assert DigitValue(ts[6]) == now.second / 10 && DigitValue(ts[7]) == now.second % 10;
  }

  /** `f"{timestamp}_{snippet}.wav"` with the snippet of `text`: the same expression in
      `save_audio_file` and in `make_filename`. */
  function MakeFilename(now: Clock, text: string): (r: string)
    requires now.Valid()
    ensures EndsWith(r, ".wav")
    ensures 14 <= |r| <= 8 + 1 + SnippetMaxLen + 4
    ensures r[..8] == Timestamp(now) && r[8] == '_' && r[9..|r| - 4] == Snippet(text)
  {
    var ts, snippet := Timestamp(now), Snippet(text);
    NameLayout(ts, snippet);
    ts + "_" + snippet + ".wav"
  }

  /** Where the parts of `<timestamp>_<snippet>.wav` sit. */
  lemma NameLayout(ts: string, snippet: string)
    requires |ts| == 8 && 0 < |snippet| <= SnippetMaxLen
    ensures var r := ts + "_" + snippet + ".wav";
            EndsWith(r, ".wav") && 14 <= |r| <= 8 + 1 + SnippetMaxLen + 4
            && r[..8] == ts && r[8] == '_' && r[9..|r| - 4] == snippet
  {
    var r := ts + "_" + snippet + ".wav";
    assert r[|r| - 4..] == ".wav";
    assert r[9..|r| - 4] == snippet;
  }

  /** The name holds no directory separator, and its only dot is the one of `.wav`. */
  lemma MakeFilenameIsPlain(now: Clock, text: string)
    requires now.Valid()
    ensures NoChar(MakeFilename(now, text), '/')
    ensures NoChar(MakeFilename(now, text)[..|MakeFilename(now, text)| - 4], '.')
  {
    var s := Snippet(text);
    PlainParts(MakeFilename(now, text), Timestamp(now), s);
  }

  /** `<timestamp>_<snippet>.wav` with a sanitised snippet has no `/`, and no `.` before
      the suffix. */
  lemma PlainParts(r: string, ts: string, snippet: string)
    requires |r| >= 13 && |ts| == 8 && EndsWith(r, ".wav")
    requires r[..8] == ts && r[8] == '_' && r[9..|r| - 4] == snippet
    requires ts[2] == '-' && ts[5] == '-'
    requires forall k :: 0 <= k < 8 && k != 2 && k != 5 ==> IsDigit(ts[k])
    requires AllAllowed(snippet)
    ensures NoChar(r, '/') && NoChar(r[..|r| - 4], '.')
  {
    forall k | 0 <= k < |r| ensures r[k] != '/' && (k < |r| - 4 ==> r[k] != '.') {
      if k < 8 {
        assert r[k] == ts[k];
      } else if 9 <= k < |r| - 4 {
        assert r[k] == snippet[k - 9];
        assert Allowed(snippet[k - 9]);
      } else if k >= |r| - 4 {
        assert r[k] == ".wav"[k - (|r| - 4)];
      }
    }
  }

  /** The time of day and the snippet can be read back from a generated name. */
  lemma MakeFilenameRoundTrip(now: Clock, text: string)
    requires now.Valid()
    ensures var r := MakeFilename(now, text);
            TimeOf(r[..8]) == now && r[9..|r| - 4] == Snippet(text)
  {
    TimestampRoundTrip(now);
  }

  /** `if not filename.endswith(".wav"): filename += ".wav"` */
  function WithWav(filename: string): (r: string)
    ensures EndsWith(r, ".wav")
    ensures StartsWith(r, filename)
    ensures r == filename <==> EndsWith(filename, ".wav")
    ensures !EndsWith(filename, ".wav") ==> r == filename + ".wav"
    ensures |r| <= |filename| + 4
  {
    if EndsWith(filename, ".wav") then filename else filename + ".wav"
  }

  /** Applying the suffix rule twice is applying it once. */
  lemma WithWavIdempotent(filename: string)
    ensures WithWav(WithWav(filename)) == WithWav(filename)
  {
  }

  /** `args.filename if args.filename else make_filename(text)`, then the suffix rule:
      a non-empty `--filename` is used verbatim (suffixed when needed); a missing or
      empty one falls back to the generated name, which the rule leaves alone. */
  function CliFilename(requested: Option<string>, now: Clock, chunked: string): (r: string)
    requires now.Valid()
    ensures EndsWith(r, ".wav")
    ensures requested.Some? && requested.value != [] ==> r == WithWav(requested.value)
    ensures !(requested.Some? && requested.value != []) ==> r == MakeFilename(now, chunked)
  {
    var filename := if requested.Some? && requested.value != [] then requested.value
                    else MakeFilename(now, chunked);
    WithWav(filename)
  }

  /** An absolute `--filename` replaces the output directory altogether. */
  lemma AbsoluteFilenameEscapes(outputDir: string, requested: string, now: Clock, chunked: string)
    requires now.Valid() && StartsWith(requested, "/")
    ensures JoinPath(outputDir, CliFilename(Some(requested), now, chunked)) == WithWav(requested)
  {
    var r := CliFilename(Some(requested), now, chunked);
    assert r[..1] == requested[..1];
  }

  /** `str(n)` for a natural number. */
  function Decimal(n: nat): (r: string)
    ensures r != []
    ensures forall k :: 0 <= k < |r| ==> IsDigit(r[k])
  {
    if n < 10 then [Digit(n)] else Decimal(n / 10) + [Digit(n % 10)]
  }

  /** `f"{prefix}{int(time.time())}"`: `make_temp_dir` uses `temp_`, the command-line
      tool `temp_cli_`. */
  function TempDirName(prefix: string, seconds: nat): (r: string)
    requires prefix == "temp_" || prefix == "temp_cli_"
    ensures StartsWith(r, prefix)
    ensures r != [] && r[0] != '/'
    ensures NoChar(r, '/')
  {
    prefix + Decimal(seconds)
  }

  /** Two sentences whose terminators the substitution drops: their words are kept. */
  lemma {:induction false} KeepTwoSentences(a: string, c: char, b: string, d: char)
    requires AllAllowed(a) && AllAllowed(b) && !Allowed(c) && !Allowed(d)
    ensures KeepAllowed(a + [c] + b + [d]) == a + b
  {
    assert a + [c] + b + [d] == a + ([c] + (b + [d]));
    KeepAllowedAppend(a, [c] + (b + [d]));
    KeepAllowedAppend([c], b + [d]);
    KeepAllowedAppend(b, [d]);
    assert KeepAllowed([c]) == [] && KeepAllowed([d]) == [];
  }

  /** The two spellings of the example text, split around their terminators. */
  lemma HelloWorldParts(text: string, kept: string, a: string, b: string)
    requires a == "Hello"
    requires (text == "Hello.\nWorld!" && kept == "Hello\nWorld" && b == "\nWorld")
             || (text == "Hello. World!" && kept == "Hello World" && b == " World")
    ensures text == a + ['.'] + b + ['!'] && kept == a + b
  {
  }

  lemma HelloWorldAllowed(a: string, b: string)
    requires a == "Hello" && (b == "\nWorld" || b == " World")
    ensures AllAllowed(a) && AllAllowed(b)
  {
    assert forall k :: 0 <= k < |a| ==> IsWordChar(a[k]);
    assert IsSpace(b[0]);
    assert forall k :: 1 <= k < |b| ==> IsWordChar(b[k]);
  }

  /** The substitution drops the two terminators of the example text. */
  lemma KeepHelloWorld(text: string, kept: string, b: string)
    requires (text == "Hello.\nWorld!" && kept == "Hello\nWorld" && b == "\nWorld")
             || (text == "Hello. World!" && kept == "Hello World" && b == " World")
    ensures KeepAllowed(text) == kept
  {
    var a := "Hello";
    HelloWorldAllowed(a, b);
    HelloWorldParts(text, kept, a, b);
    KeepTwoSentences(a, '.', b, '!');
  }

  /** The snippet of a clean, short string of kept characters is that string, with its
      spaces turned into underscores. */
  lemma SnippetOfShort(kept: string, expected: string)
    requires |kept| <= SnippetMaxLen && kept != [] && NoSpaceAtEdges(kept)
    requires |expected| == |kept|
    requires forall k :: 0 <= k < |kept| ==> expected[k] == if kept[k] == ' ' then '_' else kept[k]
    ensures Underscored(Truncate(kept, SnippetMaxLen)) == expected
  {
    StripIdentity(kept);
    ReplaceCharAt(kept, ' ', '_');
  }

  /** The snippet of a text whose kept characters are short and clean at the edges. */
  lemma SnippetFromKept(text: string, expected: string)
    requires var kept := KeepAllowed(text);
             |kept| <= SnippetMaxLen && kept != [] && NoSpaceAtEdges(kept) && |expected| == |kept| &&
             forall k :: 0 <= k < |kept| ==> expected[k] == if kept[k] == ' ' then '_' else kept[k]
    ensures Snippet(text) == expected
  {
    SnippetOfShort(KeepAllowed(text), expected);
  }

  /** Underscoring relates "Hello\nWorld" to itself and "Hello World" to "Hello_World". */
  lemma UnderscoreExamples(kept: string, expected: string)
    requires (kept == "Hello\nWorld" && expected == kept) ||
             (kept == "Hello World" && expected == "Hello_World")
    ensures |kept| == 11 && |expected| == |kept| && NoSpaceAtEdges(kept)
    ensures forall k :: 0 <= k < |kept| ==> expected[k] == if kept[k] == ' ' then '_' else kept[k]
  {
    assert !IsSpace(kept[0]) && !IsSpace(kept[10]);
  }

  lemma SnippetHelloNewlineWorld(text: string)
    requires text == "Hello.\nWorld!"
    ensures Snippet(text) == "Hello\nWorld"
  {
    var kept := "Hello\nWorld";
    KeepHelloWorld(text, kept, "\nWorld");
    UnderscoreExamples(kept, kept);
    SnippetFromKept(text, kept);
  }

  lemma SnippetHelloSpaceWorld(text: string)
    requires text == "Hello. World!"
    ensures Snippet(text) == "Hello_World"
  {
    var kept := "Hello World";
    KeepHelloWorld(text, kept, " World");
    UnderscoreExamples(kept, "Hello_World");
    SnippetFromKept(text, "Hello_World");
  }

  lemma ChunkedHelloWorld(text: string, chunked: string)
    requires text == "Hello. World!" && chunked == Chunking.Chunks(text)
    ensures chunked == "Hello.\nWorld!"
  {
    Chunking.HelloWorld();
  }

  /** A generated name is the timestamp, `_`, the snippet and `.wav`. */
  lemma NamedAfter(now: Clock, text: string, snippet: string)
    requires now.Valid() && Snippet(text) == snippet
    ensures MakeFilename(now, text) == Timestamp(now) + ("_" + snippet + ".wav")
  {
    AppendFour(Timestamp(now), "_", snippet, ".wav");
  }

  lemma AppendFour(a: string, b: string, c: string, d: string)
    ensures a + b + c + d == a + (b + c + d)
  {
  }

  /** The name tails of the two examples. */
  lemma HelloWorldTails(snippet: string, tail: string)
    requires (snippet == "Hello\nWorld" && tail == "_Hello\nWorld.wav")
             || (snippet == "Hello_World" && tail == "_Hello_World.wav")
    ensures "_" + snippet + ".wav" == tail
  {
  }

  /** The command-line tool names the text "Hello. World!" after its chunked form, so
      the generated name holds a newline where the sentences were split. */
  lemma CliHelloWorldName(now: Clock, text: string)
    requires now.Valid() && text == "Hello. World!"
    ensures CliFilename(None, now, Chunking.Chunks(text)) == Timestamp(now) + "_Hello\nWorld.wav"
  {
    var chunked := Chunking.Chunks(text);
    var snippet, tail := "Hello\nWorld", "_Hello\nWorld.wav";
    ChunkedHelloWorld(text, chunked);
    SnippetHelloNewlineWorld(chunked);
    NamedAfter(now, chunked, snippet);
    HelloWorldTails(snippet, tail);
  }

  /** The interactive sessions pass the raw text, and name the same text "Hello_World". */
  lemma SessionHelloWorldName(now: Clock, text: string)
    requires now.Valid() && text == "Hello. World!"
    ensures MakeFilename(now, text) == Timestamp(now) + "_Hello_World.wav"
  {
    var snippet, tail := "Hello_World", "_Hello_World.wav";
    SnippetHelloSpaceWorld(text);
    NamedAfter(now, text, snippet);
    HelloWorldTails(snippet, tail);
  }
}
