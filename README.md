# Qwen3-TTS front end: string, path and file rules

The repository is a thin front end over a text-to-speech library. It has two parts:

- `main.py` is an interactive menu with custom-voice, voice-design and voice-cloning
  sessions, plus a manager that enrols reference voices.
- `cli.py` is a command-line tool with the `speak`, `design` and `clone` subcommands.

The speech itself comes from an external library. What is left is a set of small,
deterministic rules, and this project models and proves them:

- **Sanitising.** Turns free text into file-name material: the output snippet and the
  enrolled voice name.
- **Path cleaning.** `clean_path` recovers a path dragged onto the terminal.
- **Text input.** Classifies typed input as an exit word, a dropped `.txt` file or
  literal text.
- **Sentence chunking.** `split_into_chunks` puts one sentence per line.
- **Model location.** `get_smart_path` picks a remote id, a cached snapshot or a local
  folder.
- **Lookups.** The fixed tables: menu models, command-line models and speakers.
- **Voice listing.** `get_saved_voices` lists the saved voices.
- **Naming.** The timestamped output names and the `.wav` suffix rule.
- **File bookkeeping.** What happens after each generation or enrolment:
  - locate the file the synthesiser wrote;
  - move it into place;
  - remove the temporary folder;
  - or, for an enrolment, copy the clip, write the transcript and delete a converted
    temporary clip.

## Modelling choices

**Strings.** Strings are `seq<char>`.

- Whitespace is Python's `str.isspace` (module `Strings`).
- The regex class `\w` is ASCII letters, digits and `_`.

**Filesystem.** The filesystem is a value `FileStore.Fs`: a map from file paths to
contents, and a set of directory paths.

- The class `FileStore.Disk` holds that state in mutable fields.
- Each `os`/`shutil` call that changes the filesystem is a method of `Disk`. Each
  method's `ensures` states its whole new state.

**Imperative procedures.** The step-by-step procedures are `method`s on a `Disk`:

- `save_audio_file`
- `convert_audio_if_needed`
- the tail of `enroll_new_voice`
- `generate`

Each method is proved equal to a pure function of the old state (`Saving.SaveAudio`,
`Enrollment.Convert`, `Enrollment.StoreVoice`, `Enrollment.Enroll`,
`Generation.Generated`). The lifecycle lemmas then state what those functions promise.

**Things outside the program are parameters:**

- the clock: `Naming.Clock`, and `seconds` for `int(time.time())`;
- directory listings, in the operating system's order;
- the working directory;
- the `wave` probe and the `ffmpeg` output;
- the synthesiser, `Generation.Synthesiser`, a function from filesystem to filesystem.

**Exits.** Each way a modelled procedure can stop is a constructor of its outcome
datatype. That covers:

- `sys.exit(1)`;
- the exceptions the modelled steps raise (`os.makedirs`, `os.listdir`, `shutil.move`,
  `shutil.copy`, writing a file, the `wave` probe);
- a failed move.

An exception raised inside the synthesiser is not one of them (see "## Left out").

**Behaviours the model keeps on purpose:**

- **Chunked text names the CLI file.** `cli.py` passes the chunked text to
  `make_filename` (cli.py:95 and cli.py:140). The generated name can therefore contain
  a newline: "Hello. World!" is named `<time>_Hello\nWorld.wav` by the command-line tool
  and `<time>_Hello_World.wav` by the sessions.
  - Proved in `Naming.CliHelloWorldName` and `Naming.SessionHelloWorldName`.
- **A voice name can sanitise to the empty string.** `Sanitize.SafeNameCanBeEmpty`
  shows this: the enrolment then stores `voices/.wav`, which the listing offers as the
  voice `""`.

## Model

| member | source | states |
|---|---|---|
| Strings.Strip | main.py:120 | `strip()` never lengthens and leaves no whitespace at either end |
| Strings.LStripShape | main.py:120 | `lstrip()` leaves a suffix of the input that is empty or opens with a non-whitespace character, and removes whitespace only |
| Strings.RStripShape | main.py:120 | `rstrip()` leaves a prefix of the input that is empty or ends with a non-whitespace character, and removes whitespace only |
| Strings.StripShape | main.py:120 | the stripped string is the slice of the input between a leading and a trailing run of whitespace |
| Strings.StripIdentity | main.py:120 | a string without edge whitespace strips to itself |
| Strings.StripEmpty | main.py:189 | `strip()` gives the empty string exactly when every character is whitespace (so `if not name` fires exactly for blank names) |
| Strings.StripAllSpace | cli.py:61 | an all-whitespace string strips to the empty string |
| Strings.StripPadded | main.py:120 | any whitespace padding around a string without edge whitespace is removed, and nothing else |
| Strings.ReplaceAll | main.py:123 | `str.replace`: every non-overlapping occurrence, scanning left to right, is replaced; it has no contract of its own, and `ReplaceCharAt`, `ReplaceAbsent`, `ReplaceShrinks`, `UnescapeEscape` and `StripWavSuffix` state what it does |
| Strings.ReplaceCharAt | main.py:192 | `replace(' ', '_')` keeps the length and maps each character on its own |
| Strings.ReplaceAbsent | main.py:123 | `replace` leaves a string alone when the pattern occurs nowhere |
| Strings.ReplaceShrinks | main.py:123 | replacing by something no longer than the pattern never lengthens |
| Strings.Lower | main.py:129 | `lower()` keeps the length |
| Strings.LowerAt | main.py:129 | `lower()` works character by character |
| Paths.JoinPath | main.py:78 | `os.path.join`: an absolute second part wins; otherwise the result starts with the first part and ends with the second, with exactly one `/` between a non-empty first part and the second |
| Paths.JoinPathSuffix | cli.py:143 | joining keeps the suffix of the joined name |
| Paths.JoinPathAbsolute | cli.py:143 | a path joined onto an absolute directory stays absolute |
| Paths.AbsPath | cli.py:88 | `os.path.abspath` always gives an absolute path and leaves an absolute path unchanged |
| Paths.Unescape | main.py:123 | unescaping `\ ` never lengthens |
| Paths.CleanPath | main.py:119-123 | the cleaned path is never longer than the input, and at least two shorter than the stripped input when a quote pair is removed |
| Paths.UnescapeEscape | main.py:123 | unescaping undoes a terminal's escaping of spaces, for any path without backslashes |
| Paths.CleanPathEscapedDrop | main.py:119-123 | a path dropped with escaped spaces and trailing whitespace cleans back to the path itself |
| Paths.CleanPathOfQuoted | main.py:121-122 | when stripping leaves a quoted backslash-free path, exactly that one pair of quotes is removed |
| Paths.CleanPathQuotedDrop | main.py:119-123 | a path dropped between quotes, with any whitespace around it, cleans back to the path itself |
| Paths.UnmatchedQuoteKept | main.py:121 | a leading quote without a matching closing quote (or a lone quote) is kept; when there is no backslash, the whole stripped input, both ends included, comes back unchanged |
| Paths.OnlyOnePairRemoved | main.py:121-122 | only the outermost pair of quotes goes: `""a""` cleans to `"a"` |
| Sanitize.KeepAllowed | main.py:97 | `re.sub(r'[^\w\s-]', '', s)` keeps only word characters, whitespace and `-`, never lengthens, and leaves such a string unchanged |
| Sanitize.KeepAllowedAppend | main.py:97 | the substitution distributes over concatenation |
| Sanitize.NothingKept | main.py:192 | a string with no kept character sanitises to nothing |
| Sanitize.Truncate | main.py:97 | `s[:n]` is a prefix of at most `n` characters, all of `s` when it is short enough |
| Sanitize.UnderscoredClean | main.py:192 | `.strip().replace(' ', '_')` of kept characters is a clean name (only kept characters, no space, no edge whitespace), as long as the stripped string, and empty exactly when the input is all whitespace |
| Sanitize.SafeName | main.py:192 | the voice name is a clean name no longer than what was typed |
| Sanitize.Snippet | main.py:97 | the output snippet is never empty, at most 20 characters, and a clean name |
| Sanitize.CleanNameHasNoDot | main.py:212 | a sanitised name contains no dot, so `<name>.wav` has exactly one |
| Sanitize.SafeNameIdempotent | main.py:192 | a clean name sanitises to itself |
| Sanitize.SnippetIdempotent | main.py:97 | sanitising a snippet again gives back the same snippet |
| Sanitize.SnippetIsTruncatedSafeName | main.py:97 | the snippet is the voice-name sanitiser applied to the first 20 kept characters, with the `"audio"` fallback; for short texts it is exactly the sanitised name or `"audio"` |
| Sanitize.SnippetFallback | main.py:97 | the snippet before the fallback is empty exactly when the first 20 kept characters are all whitespace |
| Sanitize.SnippetFallbackWithoutWords | main.py:97 | a text with no word character and no hyphen gets the snippet `"audio"` |
| Sanitize.SafeNameMom | main.py:192 | `"Mom!"` enrols as `"Mom"` |
| Sanitize.SafeNameCanBeEmpty | main.py:192 | `"!!!"` sanitises to the empty name: there is no fallback |
| Naming.Timestamp | main.py:96 | `%H-%M-%S` is eight characters: digits with dashes at positions 2 and 5 |
| Naming.TimestampRoundTrip | main.py:96 | the time of day can be read back from its timestamp |
| Naming.Decimal | main.py:74 | `str(n)` is a non-empty string of digits |
| Naming.TempDirName | main.py:74 | `temp_<seconds>` (and `temp_cli_<seconds>`) starts with its prefix and is a relative name with no `/` |
| Naming.MakeFilename | main.py:96-98 | the output name is the timestamp, `_`, the snippet and `.wav`, between 14 and 33 characters long |
| Naming.MakeFilenameIsPlain | main.py:98 | the output name holds no `/`, and its only dot is that of `.wav` |
| Naming.MakeFilenameRoundTrip | cli.py:64-67 | the time of day and the snippet can both be read back from a generated name |
| Naming.NamedAfter | main.py:98 | a generated name is the timestamp followed by `_<snippet>.wav` |
| Naming.WithWav | cli.py:141-142 | the suffix rule always ends in `.wav`; a name already ending in `.wav` is kept, and any other name gets exactly `.wav` appended |
| Naming.WithWavIdempotent | cli.py:141-142 | applying the suffix rule twice is applying it once |
| Naming.CliFilename | cli.py:140-142 | a non-empty `--filename` goes through the suffix rule as given; a missing or empty one gives the generated name of the chunked text, which the rule leaves alone; the result always ends in `.wav` |
| Naming.AbsoluteFilenameEscapes | cli.py:143 | an absolute `--filename` replaces the output directory altogether |
| Naming.SnippetHelloNewlineWorld | cli.py:66 | the snippet of `"Hello.\nWorld!"` is `"Hello\nWorld"`: a newline survives |
| Naming.SnippetHelloSpaceWorld | main.py:97 | the snippet of `"Hello. World!"` is `"Hello_World"` |
| Naming.ChunkedHelloWorld | cli.py:95 | the text the command-line tool names is the chunked one |
| Naming.CliHelloWorldName | cli.py:140 | the command-line tool names `"Hello. World!"` `<time>_Hello\nWorld.wav`, after the chunked text |
| Naming.SessionHelloWorldName | main.py:96-98 | the interactive sessions name the same text `<time>_Hello_World.wav` |
| Chunking.SpaceRunEnd | cli.py:60 | `\s+` is greedy: the run covers whitespace only and ends at the end or at a non-whitespace character |
| Chunking.Pieces | cli.py:60 | `re.split(r"(?<=[.!?])\s+", text)`, the scan from the start; it has no contract of its own, and `PiecesSplitText`, `VisibleSplitFrom`, `SplitFromNoBreak` and `HelloWorldPieces` state what it yields |
| Chunking.SplitFromShape | cli.py:60 | the scan from any position splits the rest of the text at every sentence break: the pieces and the whitespace runs between them put back together give the text; no piece holds a break; every piece but the last ends in `.`, `!` or `?`; every run is non-empty whitespace and the next piece does not open with whitespace |
| Chunking.PiecesSplitText | cli.py:60 | the same for the whole text: `Pieces` and `Separators` interleave back to the text, and the text is split at every sentence break and nowhere else |
| Chunking.StrippedUnbroken | cli.py:61 | stripping the pieces and dropping the empty ones adds no sentence break to any line |
| Chunking.StrippedSentences | cli.py:61 | when every piece but the last ends a sentence, the lines are those pieces stripped, in order, each still ending its sentence, followed perhaps by the stripped last piece |
| Chunking.ChunkLinesUnbroken | cli.py:53-61 | no line of the chunked text holds a sentence end followed by whitespace: one sentence per line |
| Chunking.ChunkLinesEndSentences | cli.py:53-61 | the lines are the stripped pieces in order, only a whitespace-only last piece can be dropped, and every line but the last ends with `.`, `!` or `?` |
| Chunking.SplitFrom | cli.py:60 | `re.split` always returns at least one piece |
| Chunking.StrippedNonEmpty | cli.py:61 | every kept piece is non-empty and has no edge whitespace |
| Chunking.VisibleSplitFrom | cli.py:60 | splitting loses only the whitespace runs it splits at: the pieces hold the text's non-whitespace characters in order |
| Chunking.VisibleStrippedNonEmpty | cli.py:61 | stripping the pieces and dropping the empty ones loses no non-whitespace character |
| Chunking.VisibleJoinLines | cli.py:61 | joining with newlines adds no non-whitespace character |
| Chunking.Chunks | cli.py:53-61 | `split_into_chunks`: the stripped non-empty pieces joined by newlines; it has no contract of its own, and `ChunkLinesUnbroken`, `ChunkLinesEndSentences`, `ChunksKeepVisibleText`, `ChunksNoSpaceAtEdges`, `ChunksWithoutSentenceEnd`, `ChunksOfWhitespace` and `HelloWorld` state its properties |
| Chunking.ChunksKeepVisibleText | cli.py:53-61 | chunking only rearranges whitespace: every non-whitespace character is kept, in order, and nothing else is added |
| Chunking.JoinNoSpaceAtEdges | cli.py:61 | joining non-empty lines without edge whitespace gives a string without edge whitespace |
| Chunking.ChunksNoSpaceAtEdges | cli.py:53-61 | the chunked text has no leading or trailing whitespace |
| Chunking.SplitFromSkip | cli.py:60 | the scan passes over positions where no break starts |
| Chunking.SplitFromNoBreak | cli.py:60 | without a break point the split gives one piece: the rest of the text |
| Chunking.ChunksWithoutSentenceEnd | cli.py:60-61 | text with no `.`, `!` or `?` followed by whitespace comes back as itself, stripped |
| Chunking.ChunksOfWhitespace | cli.py:60-61 | whitespace-only text chunks to the empty string |
| Chunking.HelloWorldPieces | cli.py:60 | `"Hello. World!"` splits into `"Hello."` and `"World!"` |
| Chunking.HelloWorld | cli.py:60-61 | `"Hello. World!"` chunks to `"Hello.\nWorld!"` |
| ModelLocator.FirstVisible | main.py:85-86 | the index of the first entry not starting with `.`, every entry before it hidden |
| ModelLocator.GetSmartPath | main.py:77-89 | absent folder gives `mlx-community/<folder>` and only then; a `snapshots` directory with a non-hidden entry gives `snapshots/<first such entry>`; no `snapshots`, or a `snapshots` directory whose entries are all hidden (or which is empty), gives the folder; a `snapshots` file is the error `os.listdir` raises, and only then, reported with the path `<folder>/snapshots` |
| ModelLocator.SmartPathNeverEmpty | main.py:228 | the location found is never empty, so the `if not model_path` guard cannot fire |
| Catalog.CliFolder | cli.py:19-31 | `speak` and `clone` accept `pro` and `lite`, `design` only `pro`; nothing else has a model |
| Catalog.CliFoldersAreMenuModels | main.py:36-44 | every folder the command-line tool can load is the folder of a menu entry of the matching mode |
| Catalog.MenuLookup | main.py:417 | a key is found exactly when some `MODELS` entry has it, and then gives that entry |
| Catalog.MenuChoice | main.py:412-420 | the lower-cased, stripped choice `q` quits; a key of `MODELS` opens that entry, the opened key being the lower-cased, stripped choice; anything else is invalid, each exactly when its condition holds |
| Catalog.SelectSpeaker | main.py:240-248 | the speaker is the stripped input when it names a speaker of some language (case-sensitively), `"Vivian"` otherwise, and always a listed speaker |
| Voices.LexReflexive | main.py:181 | the string order of `sorted` is reflexive |
| Voices.LexTotal | main.py:181 | the string order is total |
| Voices.LexAntisymmetric | main.py:181 | the string order is antisymmetric |
| Voices.LexTransitive | main.py:181 | the string order is transitive |
| Voices.Insert | main.py:181 | inserting into a sorted list keeps it sorted and adds exactly that element |
| Voices.Sort | main.py:181 | `sorted` returns a sorted permutation of its input |
| Voices.SortedUnique | main.py:181 | two sorted lists with the same elements are the same list |
| Voices.WavNames | main.py:180 | `[f.replace(".wav", "") for f in listing if f.endswith(".wav")]`; it has no contract of its own, and `WavNamesAppend`, `WavNamesPermutation`, `WavNameListed` and `GetSavedVoices` state its properties |
| Voices.WavNamesAppend | main.py:180 | the comprehension over a concatenated listing is the concatenation of the comprehensions |
| Voices.WavNamesPermutation | main.py:180 | the names a listing yields depend only on which files it lists |
| Voices.GetSavedVoices | main.py:177-181 | no voices directory gives `[]`; a regular file there is an error; otherwise the result is sorted and holds exactly the `.wav` entries with `.wav` removed |
| Voices.SavedVoicesOrderIndependent | main.py:177-181 | the list does not depend on the order in which the directory is read |
| Voices.StripWavSuffix | main.py:180 | removing `.wav` from `<name>.wav` gives back a dot-free name |
| Voices.WavNameListed | main.py:180 | every `.wav` entry of the listing contributes its name |
| Voices.EnrolledVoiceListed | main.py:212 | a voice stored as `<safe name>.wav` is listed under that same safe name |
| TextInput.IsExitWord | main.py:129 | the lower-cased input is `exit`, `quit` or `q`; a predicate without a contract, about which `TxtIsNotExitWord`, `QuoteIsNotExitWord` and `GetSafeInput` state what they need |
| TextInput.GetSafeInput | main.py:126-142 | an exit word (any case) ends the loop; a dropped `.txt` file gives its stripped contents; a `.txt` directory is the read error; anything else gives the stripped line, not the cleaned path; `None` exactly for an exit word or the read error |
| TextInput.ResolveText | cli.py:46-50 | an existing regular file named `*.txt` gives its stripped contents; any other argument is returned verbatim |
| TextInput.CleanPathOfPlainPath | main.py:132 | a plainly typed path cleans to itself |
| TextInput.TxtIsNotExitWord | main.py:129 | a name ending in `.txt` is never an exit word |
| TextInput.QuoteIsNotExitWord | main.py:129 | a quoted input is never an exit word |
| TextInput.FrontEndsReadSameFile | cli.py:46-50 | both front ends read the same text from a plainly named `.txt` file |
| TextInput.CleanQuoted | main.py:121-123 | a quoted backslash-free path cleans to the path between the quotes |
| TextInput.DroppedTextFileRead | main.py:132-137 | a `.txt` file dropped onto the prompt, quoted and padded, is read; the command-line tool would take the same quoted string as literal text |
| FileStore.Basename | main.py:152 | `os.path.basename` is the suffix after the last `/` and holds no `/` |
| FileStore.WithoutTree | main.py:115-116 | `rmtree(d, ignore_errors=True)` removes exactly what is at or below a directory `d`, and nothing when `d` is not a directory |
| FileStore.MoveTarget | main.py:104 | where `shutil.move` puts the file: inside `dst` under the source's base name when `dst` is a directory, otherwise at `dst`; no contract of its own, used by `Moved`, `Disk.Move`, `Disk.Copy` and the lifecycle lemmas |
| FileStore.CanMove | main.py:104 | when `shutil.move` of a regular file succeeds: the target is not a directory and, when moving into a directory, not an existing file; a predicate, and `Disk.Move` reports exactly it |
| FileStore.Moved | main.py:104 | a move puts the source's contents at the target, removes the source and changes no other file |
| FileStore.MoveOutOfTree | cli.py:144-145 | moving a file out of a tree and then removing the tree leaves the file at its target, nothing at or below the tree, and everything else as it was |
| FileStore.Disk.MakeDirs | main.py:94 | `makedirs(exist_ok=True)` fails exactly when a file is in the way, and otherwise adds the directory |
| FileStore.Disk.Move | main.py:104 | `shutil.move` succeeds exactly when the move is possible, and then leaves the moved state; otherwise nothing changes |
| FileStore.Disk.Copy | main.py:215 | `shutil.copy` copies the contents to the target (inside `dst` when it is a directory), failing on a directory target or a copy onto itself |
| FileStore.Disk.WriteFile | main.py:216-217 | writing a file fails exactly on a directory, and otherwise sets its contents |
| FileStore.Disk.Remove | main.py:220 | `os.remove` deletes the file, reporting whether it was there |
| FileStore.Disk.Become | cli.py:125-129 | the synthesiser leaves the filesystem in the state it returns |
| FileStore.Disk.RemoveTree | main.py:116 | `rmtree` leaves the state `WithoutTree` describes |
| Saving.SaveAudio | main.py:92-116 | `save_audio_file` keeps the filesystem well formed |
| Saving.SaveAudioFile | main.py:92-116 | the procedure ends with the outcome and filesystem of `SaveAudio` |
| Saving.SaveFailureKeepsTemp | main.py:93-104 | the output folder is blocked exactly when a file sits at its path; when it is blocked or the move raises, every file stays and the temporary folder is not removed |
| Saving.SaveLifecycle | main.py:101-116 | the audio is saved at the final path exactly when `audio_000.wav` existed; the temporary folder is gone either way; no other file changes; the output folder now exists |
| Enrollment.LastDot | main.py:153 | the index of the last dot, with no dot after it |
| Enrollment.Extension | main.py:153 | `splitext` gives an empty extension or a suffix that starts with its only dot, with something other than dots before it |
| Enrollment.WavExtension | main.py:153-155 | the extension lower-cases to `.wav` exactly when the name ends in `.wav` in any case with something other than dots before it |
| Enrollment.Convert | main.py:146-174 | missing input gives `None` and only then; a `.wav`-named input whose probe raises something other than `wave.Error` (or which is a directory) crashes, and only then; the input is used as it is exactly when it is a `.wav`-named file with at least one channel, and nothing changes; a converted clip is `ffmpeg`'s output written to `temp_convert_<seconds>.wav`, and nothing else changes |
| Enrollment.ConvertAudioIfNeeded | main.py:148-174 | the procedure ends with the outcome and filesystem of `Convert` |
| Enrollment.ConvertKeepsReadableWav | main.py:155-159 | a readable file whose name has the `.wav` extension in any case is used as it is, with nothing changed |
| Enrollment.ConvertOthers | main.py:163-174 | anything else that exists is converted exactly when `ffmpeg` succeeds and the target is not a directory, and fails otherwise |
| Enrollment.ClipIsNamedWav | main.py:155-171 | the clip handed on is always named as a WAV file |
| Enrollment.StoreVoice | main.py:209-220 | storing ends enrolled under the safe name or with the copy or the transcript failing |
| Enrollment.StoreClip | main.py:202-204 | a crashing probe propagates, a missing or failed conversion ends without audio, and otherwise the clip is stored, each exactly in its case |
| Enrollment.SaveVoiceFiles | main.py:209-220 | the procedure ends with the outcome and filesystem of `StoreVoice` |
| Enrollment.VoiceFilePaths | main.py:212-213 | `<name>.wav` and `<name>.txt` are two distinct files directly inside the voices directory |
| Enrollment.StoreLifecycle | main.py:209-220 | storing succeeds exactly when the clip is a file other than the target and no directory sits at `<name>.txt`; the clip is then copied, the transcript written, a converted clip deleted and no other file changed |
| Enrollment.EnrollCleaned | main.py:188-220 | the enrolment keeps the filesystem well formed |
| Enrollment.Enroll | main.py:184-222 | the enrolment from its three input lines keeps the filesystem well formed |
| Enrollment.EnrollNewVoice | main.py:184-222 | the procedure ends with the outcome and filesystem of `Enroll` |
| Enrollment.EnrollEarlyExits | main.py:188-204 | an empty name cancels, an overlong or multi-line path is rejected, missing or unconvertible audio ends without audio, each exactly in its case, and none of them touches the filesystem |
| Enrollment.ClipStored | main.py:202-220 | a found or converted clip is stored exactly when it is not already the target and no directory sits at `<name>.txt`; then the user's file or `ffmpeg`'s output is at `<name>.wav`, the transcript at `<name>.txt`, and a converted clip is deleted |
| Enrollment.EnrollStores | main.py:184-220 | an enrolment succeeds exactly when the name is non-empty, the path acceptable, a clip was found or converted, it is not already the target and no directory sits at `<name>.txt`, and then stores as `ClipStored` says |
| Enrollment.LoadSavedVoice | main.py:357-362 | a saved voice loads as `<name>.wav`, with the stripped transcript exactly when `<name>.txt` is a file; a directory there is the read error |
| Enrollment.EnrollThenLoad | main.py:357-362 | a voice enrolled from the menu loads back as its `.wav` clip and the transcript as typed, stripped |
| Generation.OutputSource | cli.py:131-138 | the produced file is `audio.wav` when it exists, otherwise `audio_000.wav` when that exists, otherwise none |
| Generation.Prepare | cli.py:78-124 | the run stops exactly in each of these cases, each checked only after the earlier ones have passed: an unknown model; empty text; a file at the output directory; a `snapshots` file; and, for `clone`, a reference clip `abspath(--ref-audio)` that is not a regular file, reported with that path. A `snapshots` file is reported with `<models>/<folder>/snapshots`. Otherwise it is ready: the output directory exists, and the synthesiser gets the chunked text and `temp_cli_<seconds>` |
| Generation.Finish | cli.py:131-145 | finishing keeps the filesystem well formed |
| Generation.Generated | cli.py:70-147 | `generate` keeps the filesystem well formed |
| Generation.Generate | cli.py:70-147 | the procedure ends with the outcome and filesystem of `Generated` |
| Generation.FinishLifecycle | cli.py:131-145 | nothing to move fails exactly when no output exists and removes the temporary directory; the file is saved exactly when an output exists and can be moved to `<output>/<filename>`, and the move fails exactly when it exists and cannot, leaving the filesystem as the synthesiser left it; on success the produced file is at `<output>/<filename>`, nothing is left in the temporary directory and nothing else outside it changes |
| Generation.FinishSaves | cli.py:131-145 | with no directory at either output name nor at `<output>/<filename>`, the file is saved exactly when the synthesiser produced one |
| Generation.FinishSaved | cli.py:143 | a saved file is at `<output>/<filename>` |
| Generation.GeneratedFromPrepared | cli.py:140-143 | a saved run saves at the absolute output directory joined with the chosen name of the chunked text, and the saved path ends in `.wav` |

## Left out

- `load_model` and `generate_audio` (cli.py:93, cli.py:109-129): a library outside the model.
  - The command-line tool gets them as the parameter `synthesise`, a total function that
    may leave any filesystem.
  - An exception raised by `load_model` or `generate_audio` is not modelled. In the
    command-line tool it escapes `generate` uncaught, leaving `temp_cli_<n>` behind; the
    model has no outcome for it.
  - The arguments the synthesiser receives besides the text (voice, instruction, speed,
    reference text, `max_tokens`, `join_audio`) are not modelled.
- The interactive sessions (`run_custom_session`, `run_design_session`, `run_clone_manager`),
  their `while True` loops, the `main_menu` dispatch and the entry point: console I/O.
  - `SaveAudio` starts from the filesystem the synthesiser left.
  - The selection rules those loops apply are modelled: menu choice, speaker, text input,
    saved-voice load, enrolment.
- Speed selection and the emotion, description and transcript prompts (`or "Normal tone"`,
  `or "."`): floating point and plain I/O.
- The number typed to pick a saved voice (main.py:352-356): integer parsing of console input.
  - `LoadSavedVoice` starts from the chosen name.
- `afplay`, `termios` flushing, `gc.collect` and all `print` output: external processes and
  console output.
- `ffmpeg` and the `wave` module: the parameters `ffmpegOutput` and `probe`.
- The clock, `os.getcwd`, `os.listdir` order and the configured directories: parameters.
- `argparse` parsing and its defaults: `CliArgs` holds the parsed values.
- Unicode: `\w` is ASCII letters, digits and `_`, and `lower()` maps only `A`-`Z`.
  - Non-ASCII letters would be kept by the source's regex.
  - This does not change the exit-word, menu or `.wav` tests, whose targets are ASCII.
- Text decoding: file contents are strings, and a UTF-8 decoding error is not modelled.
- `os.path.abspath` normalisation of `.`, `..` and repeated separators.
- Parent directories are not tracked: `makedirs` adds only the leaf directory.
- Relative paths are not resolved against the working directory: a relative path and the
  absolute path it names are different keys of `Fs`, so the model never sees them as the
  same file.
  - In the source, `temp_cli_<n>` and `<cwd>/temp_cli_<n>` are one directory. So
    `-o temp_cli_<n>` would make the final `rmtree` delete the file just saved there.
  - Saving.SaveLifecycle and Generation.FinishLifecycle conclude that the saved file
    survives the removal of the temporary folder. That conclusion relies on the
    absolute destination and the relative temporary name never aliasing. It does not
    hold for an output directory that resolves into the temporary folder.
- Permission errors and other operating-system failures are not modelled.
- Moving a directory: `shutil.move` whose source is a directory is modelled as a failed
  move. A synthesiser that wrote `audio.wav` as a directory therefore ends in `MoveFailed`
  rather than in a moved directory.
- `KeyboardInterrupt` handling in `get_safe_input` and the entry point: signals.
- Enrollment.StoreLifecycle, Enrollment.ClipStored, Enrollment.EnrollStores,
  Enrollment.EnrollThenLoad: assume what holds for the real `VOICES_DIR`:
  - an absolute-style path that ends neither in `/` nor in `.wav`;
  - not a regular file;
  - no directory at `<name>.wav`.
  Other layouts are covered only by the functions themselves.
- Saving.SaveLifecycle, Generation.FinishLifecycle: state the lifecycle for an absolute
  output directory and the relative temporary folder name `temp_<n>` or `temp_cli_<n>`,
  as the front ends use them.
- Saving.SaveLifecycle: covers only the runs where the save succeeds or there is nothing
  to save. It also assumes:
  - no regular file sits at the output folder;
  - no directory sits at the final path;
  - `audio_000.wav` is not a directory;
  - the temporary folder exists.

  The error outcomes `SaveDirBlocked` and `MoveFailed`, where the source leaves the
  temporary folder in place, are stated by `Saving.SaveFailureKeepsTemp` instead.
