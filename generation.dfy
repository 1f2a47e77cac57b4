/** `generate` of the command-line tool: look the model up, read the text, make the
    output directory, locate the model, chunk the text, let the synthesiser write into
    `temp_cli_<seconds>`, pick the file it produced, name it and move it into place, and
    remove the temporary directory. */
module Generation {
  import opened Strings
  import opened Optional
  import opened Paths
  import opened FileStore
  import opened Catalog
  import opened ModelLocator
  import opened TextInput
  import opened Chunking
  import opened Naming

  /** The parsed command line: subcommand, `--model`, the text argument, `--output`,
      `--filename` (absent or given) and, for `clone`, `--ref-audio`. */
  datatype CliArgs = CliArgs(command: Command, size: string, text: string, output: string,
                             filename: Option<string>, refAudio: string)

  /** How `generate` ends. */
  datatype Outcome =
    | UnknownModel                      // `--model` not offered for the command; exit 1
    | EmptyText                         // exit 1
    | OutputDirBlocked                  // `os.makedirs` raised: a regular file is in the way
    | SnapshotsBlocked(snapshots: string) // `os.listdir` on a `snapshots` file raised
    | RefAudioMissing(refAudio: string) // exit 1
    | NoOutput                          // exit 1, after removing the temporary directory
    | MoveFailed                        // `shutil.move` raised; the temporary directory stays
    | Saved(dest: string)               // "Saved: <dest>"

  /** What the synthesiser writes with `join_audio=True`, and without it. */
  const JoinedAudio: string := "audio.wav"
  const SegmentAudio: string := "audio_000.wav"

  /** The synthesiser, a call outside the model: given the filesystem, the output
      directory and the chunked text, the filesystem it leaves behind. */
  type Synthesiser = (Fs, string, string) -> Fs

  ghost predicate KeepsValid(synthesise: Synthesiser)
  {
    forall fs: Fs, dir: string, text: string :: fs.Valid() ==> synthesise(fs, dir, text).Valid()
  }

  /** The produced file: `audio.wav` when it exists, otherwise `audio_000.wav` when that
      exists, otherwise none. */
  function OutputSource(fs: Fs, tempDir: string): (r: Option<string>)
    ensures r.Some? ==> fs.Exists(r.value)
    ensures fs.Exists(JoinPath(tempDir, JoinedAudio)) ==> r == Some(JoinPath(tempDir, JoinedAudio))
    ensures !fs.Exists(JoinPath(tempDir, JoinedAudio)) ==>
              r == if fs.Exists(JoinPath(tempDir, SegmentAudio)) then Some(JoinPath(tempDir, SegmentAudio)) else None
  {
    var joined := JoinPath(tempDir, JoinedAudio);
    if fs.Exists(joined) then Some(joined)
    else
      var segment := JoinPath(tempDir, SegmentAudio);
      if fs.Exists(segment) then Some(segment) else None
  }

  /** Where the run stands when the synthesiser is about to be called: stopped with an
      outcome and a filesystem, or ready with the filesystem, the absolute output
      directory, the temporary directory name and the chunked text. */
  datatype Stage =
    | Stopped(outcome: Outcome, fs: Fs)
    | Ready(made: Fs, outputDir: string, tempDir: string, chunked: string)

  /** `generate` up to the call of `generate_audio`, run in the working directory `cwd`
      with `modelsDir` for `MODELS_DIR`, `snapshotEntries` for the listing of the model's
      `snapshots` directory and `seconds` for `int(time.time())`. */
  function Prepare(fs: Fs, args: CliArgs, cwd: string, modelsDir: string, snapshotEntries: seq<string>,
                   seconds: nat): (r: Stage)
    requires fs.Valid() && StartsWith(cwd, "/")
    ensures r.Stopped? ==> r.fs.Valid()
    ensures var folder := CliFolder(args.command, args.size);
            var outputDir := AbsPath(cwd, args.output);
            (r == Stopped(UnknownModel, fs) <==> folder.None?)
            && (r == Stopped(EmptyText, fs) <==> folder.Some? && ResolveText(args.text, fs) == [])
            && (r == Stopped(OutputDirBlocked, fs) <==>
                  folder.Some? && ResolveText(args.text, fs) != [] && outputDir in fs.files)
            && (r.Stopped? && (r.outcome.SnapshotsBlocked? || r.outcome.RefAudioMissing?) ==>
                  r.fs == Fs(fs.files, fs.dirs + {outputDir}))
            && (r.Stopped? ==> !r.outcome.NoOutput? && !r.outcome.MoveFailed? && !r.outcome.Saved?)
    ensures var folder := CliFolder(args.command, args.size);
            var outputDir := AbsPath(cwd, args.output);
            var made := Fs(fs.files, fs.dirs + {outputDir});
            var refAudio := AbsPath(cwd, args.refAudio);
            var passed := folder.Some? && ResolveText(args.text, fs) != [] && outputDir !in fs.files;
            (r.Stopped? && r.outcome.SnapshotsBlocked? <==>
               passed && GetSmartPath(modelsDir, folder.value, made, snapshotEntries).SnapshotsNotADirectory?)
            && (r.Stopped? && r.outcome.RefAudioMissing? <==>
                  passed && !GetSmartPath(modelsDir, folder.value, made, snapshotEntries).SnapshotsNotADirectory?
                  && args.command == Clone && refAudio !in fs.files)
            && (r.Stopped? && r.outcome.SnapshotsBlocked? ==>
                  folder.Some? && r.outcome.snapshots == JoinPath(JoinPath(modelsDir, folder.value), "snapshots"))
            && (r.Stopped? && r.outcome.RefAudioMissing? ==> r.outcome.refAudio == refAudio)
            && (r.Ready? <==>
                  passed && !GetSmartPath(modelsDir, folder.value, made, snapshotEntries).SnapshotsNotADirectory?
                  && !(args.command == Clone && refAudio !in fs.files))
    ensures r.Ready? ==>
              r.made == Fs(fs.files, fs.dirs + {r.outputDir}) && r.made.Valid()
              && r.outputDir == AbsPath(cwd, args.output) && StartsWith(r.outputDir, "/")
              && r.tempDir == TempDirName("temp_cli_", seconds)
              && r.chunked == Chunks(ResolveText(args.text, fs))
  {
    match CliFolder(args.command, args.size)
    case None => Stopped(UnknownModel, fs)
    case Some(folder) =>
      var text := ResolveText(args.text, fs);
      if text == [] then Stopped(EmptyText, fs)
      else
        var outputDir := AbsPath(cwd, args.output);
        if outputDir in fs.files then Stopped(OutputDirBlocked, fs)
        else
          var made := Fs(fs.files, fs.dirs + {outputDir});
          var located := GetSmartPath(modelsDir, folder, made, snapshotEntries);
          if located.SnapshotsNotADirectory? then Stopped(SnapshotsBlocked(located.snapshots), made)
          else
            var refAudio := AbsPath(cwd, args.refAudio);
            if args.command == Clone && refAudio !in made.files then Stopped(RefAudioMissing(refAudio), made)
            else Ready(made, outputDir, TempDirName("temp_cli_", seconds), Chunks(text))
  }

  /** `generate` after `generate_audio` left the filesystem as `produced`: pick the
      produced file, move it to `<outputDir>/<filename>` and remove the temporary
      directory, or remove it and fail when there is nothing to move. */
  function Finish(produced: Fs, tempDir: string, outputDir: string, filename: string): (r: (Outcome, Fs))
    requires produced.Valid()
    ensures r.1.Valid()
  {
    match OutputSource(produced, tempDir)
    case None => (NoOutput, WithoutTree(produced, tempDir))
    case Some(source) =>
      var dest := JoinPath(outputDir, filename);
      if !CanMove(produced, source, dest) then (MoveFailed, produced)
      else (Saved(dest), WithoutTree(Moved(produced, source, dest), tempDir))
  }

  /** The outcome and the filesystem after `generate(args, mode)`, with `now` for the
      clock and `synthesise` for `load_model` and `generate_audio`. */
  function Generated(fs: Fs, args: CliArgs, cwd: string, modelsDir: string, snapshotEntries: seq<string>,
                     now: Clock, seconds: nat, synthesise: Synthesiser): (r: (Outcome, Fs))
    requires fs.Valid() && StartsWith(cwd, "/") && now.Valid() && KeepsValid(synthesise)
    ensures r.1.Valid()
  {
    match Prepare(fs, args, cwd, modelsDir, snapshotEntries, seconds)
    case Stopped(outcome, after) => (outcome, after)
    case Ready(made, outputDir, tempDir, chunked) =>
      Finish(synthesise(made, tempDir, chunked), tempDir, outputDir, CliFilename(args.filename, now, chunked))
  }

  method Generate(disk: Disk, args: CliArgs, cwd: string, modelsDir: string, snapshotEntries: seq<string>,
                  now: Clock, seconds: nat, synthesise: Synthesiser) returns (outcome: Outcome)
    requires disk.View().Valid() && StartsWith(cwd, "/") && now.Valid() && KeepsValid(synthesise)
    modifies disk
    ensures disk.View().Valid()
    ensures (outcome, disk.View()) ==
            Generated(old(disk.View()), args, cwd, modelsDir, snapshotEntries, now, seconds, synthesise)
  {
    ghost var before := disk.View();
    var folder := CliFolder(args.command, args.size);
    if folder.None? {
      return UnknownModel;
    }
    var text := ResolveText(args.text, disk.View());
    if text == [] {
      return EmptyText;
    }
    var outputDir := AbsPath(cwd, args.output);
    var made := disk.MakeDirs(outputDir);
    if !made {
      return OutputDirBlocked;
    }
    var located := GetSmartPath(modelsDir, folder.value, disk.View(), snapshotEntries);
    if located.SnapshotsNotADirectory? {
      return SnapshotsBlocked(located.snapshots);
    }
    text := Chunks(text);
    var tempDir := TempDirName("temp_cli_", seconds);
    if args.command == Clone {
      var refAudio := AbsPath(cwd, args.refAudio);
      if !disk.View().IsFile(refAudio) {
        return RefAudioMissing(refAudio);
      }
    }
    assert Prepare(before, args, cwd, modelsDir, snapshotEntries, seconds)
           == Ready(disk.View(), outputDir, tempDir, text);
    disk.Become(synthesise(disk.View(), tempDir, text));
    ghost var produced := disk.View();
    var source := JoinPath(tempDir, JoinedAudio);
    if !disk.View().Exists(source) {
      source := JoinPath(tempDir, SegmentAudio);
    }
    if !disk.View().Exists(source) {
      assert OutputSource(produced, tempDir).None?;
      disk.RemoveTree(tempDir);
      return NoOutput;
    }
    assert OutputSource(produced, tempDir) == Some(source);
    var filename := if args.filename.Some? && args.filename.value != [] then args.filename.value
                    else MakeFilename(now, text);
    if !EndsWith(filename, ".wav") {
      filename := filename + ".wav";
    }
    assert filename == CliFilename(args.filename, now, text);
    var dest := JoinPath(outputDir, filename);
    var moved, _ := disk.Move(source, dest);
    if !moved {
      return MoveFailed;
    }
    disk.RemoveTree(tempDir);
    outcome := Saved(dest);
  }

  /** The success path: the produced file (the joined one when there is one) is at the
      destination `<outputDir>/<filename>` (inside it, when that names a directory); when
      the synthesiser made the temporary directory, nothing is left at or below it, and
      nothing else outside it changes. A failed run removes the temporary directory too. */
  lemma FinishLifecycle(produced: Fs, tempDir: string, outputDir: string, filename: string)
    requires produced.Valid() && StartsWith(outputDir, "/")
    requires tempDir != [] && tempDir[0] != '/' && !EndsWith(tempDir, "/")
    ensures var (outcome, after) := Finish(produced, tempDir, outputDir, filename);
            var source := OutputSource(produced, tempDir);
            (outcome.NoOutput? <==> source.None?)
            && (outcome.NoOutput? ==> after == WithoutTree(produced, tempDir))
            && (outcome.Saved? <==> source.Some? && CanMove(produced, source.value, JoinPath(outputDir, filename)))
            && (outcome.MoveFailed? <==> source.Some? && !CanMove(produced, source.value, JoinPath(outputDir, filename)))
            && (outcome.MoveFailed? ==> after == produced)
            && (outcome.Saved? ==>
                  source.Some? && source.value in produced.files
                  && outcome.dest == JoinPath(outputDir, filename)
                  && var target := MoveTarget(produced, source.value, outcome.dest);
                     (outcome.dest !in produced.dirs ==> target == outcome.dest)
                     && target in after.files && after.files[target] == produced.files[source.value]
                     && (tempDir in produced.dirs ==>
                           (forall p :: !Under(p, tempDir) && p != target ==>
                                 (p in after.files <==> p in produced.files)
                                 && (p in after.files ==> after.files[p] == produced.files[p]))
                           && (forall p :: !Under(p, tempDir) ==> (p in after.dirs <==> p in produced.dirs))))
            && (tempDir in produced.dirs && !outcome.MoveFailed? ==>
                  forall p :: Under(p, tempDir) ==> !after.Exists(p))
  {
    var (outcome, after) := Finish(produced, tempDir, outputDir, filename);
    if outcome.Saved? {
      var source := OutputSource(produced, tempDir).value;
      var dest := outcome.dest;
      var target := MoveTarget(produced, source, dest);
      JoinPathAbsolute(outputDir, filename);
      if dest in produced.dirs {
        JoinPathAbsolute(dest, Basename(source));
      }
      AbsoluteNotUnder(target, tempDir);
      if tempDir in produced.dirs {
        if source == JoinPath(tempDir, JoinedAudio) {
          JoinedIsUnder(tempDir, JoinedAudio);
        } else {
          JoinedIsUnder(tempDir, SegmentAudio);
        }
        MoveOutOfTree(produced, source, dest, tempDir);
      }
    }
  }

  /** The chunked text is what the synthesiser reads and what the generated name is made
      from; the produced file is saved under `<output>/<filename>`. */
  lemma GeneratedFromPrepared(fs: Fs, args: CliArgs, cwd: string, modelsDir: string, snapshotEntries: seq<string>,
                              now: Clock, seconds: nat, synthesise: Synthesiser)
    requires fs.Valid() && StartsWith(cwd, "/") && now.Valid() && KeepsValid(synthesise)
    ensures var (outcome, after) := Generated(fs, args, cwd, modelsDir, snapshotEntries, now, seconds, synthesise);
            var chunked := Chunks(ResolveText(args.text, fs));
            outcome.Saved? ==>
              outcome.dest == JoinPath(AbsPath(cwd, args.output), CliFilename(args.filename, now, chunked))
              && EndsWith(outcome.dest, ".wav")
  {
    var stage := Prepare(fs, args, cwd, modelsDir, snapshotEntries, seconds);
    if stage.Ready? {
      var filename := CliFilename(args.filename, now, stage.chunked);
      FinishSaved(synthesise(stage.made, stage.tempDir, stage.chunked), stage.tempDir, stage.outputDir, filename);
      JoinPathSuffix(stage.outputDir, filename, ".wav");
    }
  }

  /** When neither candidate output file is a directory and no directory sits at the
      destination, the run saves exactly when the synthesiser produced a file. */
  lemma FinishSaves(produced: Fs, tempDir: string, outputDir: string, filename: string)
    requires produced.Valid()
    requires JoinPath(tempDir, JoinedAudio) !in produced.dirs && JoinPath(tempDir, SegmentAudio) !in produced.dirs
    requires JoinPath(outputDir, filename) !in produced.dirs
    ensures var (outcome, _) := Finish(produced, tempDir, outputDir, filename);
            outcome.Saved? <==> OutputSource(produced, tempDir).Some?
  {
  }

  /** A saved file is saved at `<outputDir>/<filename>`. */
  lemma FinishSaved(produced: Fs, tempDir: string, outputDir: string, filename: string)
    requires produced.Valid()
    ensures var r := Finish(produced, tempDir, outputDir, filename);
            r.0.Saved? ==> r.0.dest == JoinPath(outputDir, filename)
  {
  }
}
