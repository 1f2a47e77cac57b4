/** `save_audio_file` of the interactive sessions: after the synthesiser has written
    `audio_000.wav` into a temporary folder, the file is moved to
    `outputs/<subfolder>/<timestamp>_<snippet>.wav` and the temporary folder is removed. */
module Saving {
  import opened Strings
  import opened Paths
  import opened FileStore
  import opened Naming

  /** How `save_audio_file` ends. */
  datatype SaveOutcome =
    | SaveDirBlocked      // `os.makedirs` raised: a regular file is in the way
    | NothingSaved        // there was no `audio_000.wav` to move
    | MoveFailed          // `shutil.move` raised; the temporary folder is left behind
    | Saved(path: string) // the audio is now at `path`

  /** The file the synthesiser writes when it is not asked to join segments. */
  const SessionAudio: string := "audio_000.wav"

  /** The outcome and the filesystem after `save_audio_file(tempFolder, subfolder, text)`,
      with `baseOutputDir` for `BASE_OUTPUT_DIR` and `now` for the clock. */
  function SaveAudio(fs: Fs, baseOutputDir: string, tempFolder: string, subfolder: string,
                     text: string, now: Clock): (r: (SaveOutcome, Fs))
    requires fs.Valid() && now.Valid()
    ensures r.1.Valid()
  {
    var savePath := JoinPath(baseOutputDir, subfolder);
    if savePath in fs.files then (SaveDirBlocked, fs)
    else
      var made := Fs(fs.files, fs.dirs + {savePath});
      var finalPath := JoinPath(savePath, MakeFilename(now, text));
      var source := JoinPath(tempFolder, SessionAudio);
      if !made.Exists(source) then (NothingSaved, WithoutTree(made, tempFolder))
      else if !CanMove(made, source, finalPath) then (MoveFailed, made)
      else (Saved(MoveTarget(made, source, finalPath)),
            WithoutTree(Moved(made, source, finalPath), tempFolder))
  }

  method SaveAudioFile(disk: Disk, baseOutputDir: string, tempFolder: string, subfolder: string,
                       text: string, now: Clock) returns (outcome: SaveOutcome)
    requires disk.View().Valid() && now.Valid()
    modifies disk
    ensures disk.View().Valid()
    ensures (outcome, disk.View()) == SaveAudio(old(disk.View()), baseOutputDir, tempFolder, subfolder, text, now)
  {
    var savePath := JoinPath(baseOutputDir, subfolder);
    var made := disk.MakeDirs(savePath);
    if !made {
      return SaveDirBlocked;
    }
    var filename := MakeFilename(now, text);
    var finalPath := JoinPath(savePath, filename);
    var source := JoinPath(tempFolder, SessionAudio);
    outcome := NothingSaved;
    if disk.View().Exists(source) {
      var moved, target := disk.Move(source, finalPath);
      if !moved {
        return MoveFailed;
      }
      outcome := Saved(target);
    }
    if disk.View().Exists(tempFolder) {
      disk.RemoveTree(tempFolder);
    }
  }

  /** The promise of `save_audio_file` for an absolute output directory and a relative
      temporary folder that the synthesiser created: the audio ends up at the final path
      exactly when `audio_000.wav` was there, the temporary folder is gone either way, and
      nothing else changes except the output folder, which now exists. */
  lemma SaveLifecycle(fs: Fs, baseOutputDir: string, tempFolder: string, subfolder: string,
                      text: string, now: Clock)
    requires fs.Valid() && now.Valid()
    requires StartsWith(baseOutputDir, "/")
    requires tempFolder != [] && tempFolder[0] != '/' && !EndsWith(tempFolder, "/")
    requires tempFolder in fs.dirs
    requires var savePath := JoinPath(baseOutputDir, subfolder);
             savePath !in fs.files
             && JoinPath(savePath, MakeFilename(now, text)) !in fs.dirs
             && JoinPath(tempFolder, SessionAudio) !in fs.dirs
    ensures var savePath := JoinPath(baseOutputDir, subfolder);
            var finalPath := JoinPath(savePath, MakeFilename(now, text));
            var source := JoinPath(tempFolder, SessionAudio);
            var (outcome, after) := SaveAudio(fs, baseOutputDir, tempFolder, subfolder, text, now);
            (outcome.Saved? <==> source in fs.files)
            && (outcome.Saved? ==> outcome.path == finalPath && finalPath in after.files
                                   && after.files[finalPath] == fs.files[source])
            && (outcome.NothingSaved? <==> source !in fs.files)
            && (forall p :: Under(p, tempFolder) ==> !after.Exists(p))
            && (forall p :: !Under(p, tempFolder) && p != finalPath ==>
                  (p in after.files <==> p in fs.files) && (p in after.files ==> after.files[p] == fs.files[p]))
            && (!outcome.Saved? ==> (finalPath in after.files <==> finalPath in fs.files))
            && (forall p :: !Under(p, tempFolder) ==> (p in after.dirs <==> p in fs.dirs || p == savePath))
  {
    var savePath := JoinPath(baseOutputDir, subfolder);
    var made := Fs(fs.files, fs.dirs + {savePath});
    var name := MakeFilename(now, text);
    var finalPath := JoinPath(savePath, name);
    var source := JoinPath(tempFolder, SessionAudio);
    JoinPathAbsolute(baseOutputDir, subfolder);
    JoinPathAbsolute(savePath, name);
    AbsoluteNotUnder(finalPath, tempFolder);
    AbsoluteNotUnder(savePath, tempFolder);
    JoinedIsUnder(tempFolder, SessionAudio);
    MakeFilenameIsPlain(now, text);
    JoinPathLonger(savePath, name);
    var r := SaveAudio(fs, baseOutputDir, tempFolder, subfolder, text, now);
    if source in fs.files {
      SavedBranch(fs, savePath, source, finalPath, tempFolder);
      assert r == (Saved(finalPath), WithoutTree(Moved(made, source, finalPath), tempFolder));
    } else {
      EmptyBranch(fs, savePath, source, finalPath, tempFolder);
      assert r == (NothingSaved, WithoutTree(made, tempFolder));
    }
    assert Settled(fs, savePath, finalPath, source, tempFolder, r.0, r.1);
  }

  /** The conclusion of `SaveLifecycle` for a given outcome and resulting filesystem. */
  ghost predicate Settled(fs: Fs, savePath: string, finalPath: string, source: string, tempFolder: string,
                          outcome: SaveOutcome, after: Fs)
    requires fs.Valid()
  {
    (outcome.Saved? <==> source in fs.files)
    && (outcome.Saved? ==> outcome.path == finalPath && finalPath in after.files
                           && after.files[finalPath] == fs.files[source])
    && (outcome.NothingSaved? <==> source !in fs.files)
    && (forall p :: Under(p, tempFolder) ==> !after.Exists(p))
    && (forall p :: !Under(p, tempFolder) && p != finalPath ==>
          (p in after.files <==> p in fs.files) && (p in after.files ==> after.files[p] == fs.files[p]))
    && (!outcome.Saved? ==> (finalPath in after.files <==> finalPath in fs.files))
    && (forall p :: !Under(p, tempFolder) ==> (p in after.dirs <==> p in fs.dirs || p == savePath))
  }

  /** A name without `/` joined onto a directory gives a longer path. */
  lemma JoinPathLonger(a: string, name: string)
    requires name != [] && NoChar(name, '/')
    ensures |JoinPath(a, name)| > |a|
  {
    assert name[0] != '/';
  }

  /** The saved case: after making the output folder, moving the audio out of the
      temporary folder and removing that folder. */
  lemma SavedBranch(fs: Fs, savePath: string, source: string, finalPath: string, tempFolder: string)
    requires fs.Valid() && savePath !in fs.files && finalPath !in fs.dirs && |finalPath| > |savePath|
    requires source in fs.files && tempFolder in fs.dirs
    requires Under(source, tempFolder) && !Under(finalPath, tempFolder) && !Under(savePath, tempFolder)
    ensures var made := Fs(fs.files, fs.dirs + {savePath});
            CanMove(made, source, finalPath) && MoveTarget(made, source, finalPath) == finalPath
            && Settled(fs, savePath, finalPath, source, tempFolder, Saved(finalPath),
                       WithoutTree(Moved(made, source, finalPath), tempFolder))
  {
    var made := Fs(fs.files, fs.dirs + {savePath});
    assert finalPath !in made.dirs;
    MoveOutOfTree(made, source, finalPath, tempFolder);
  }

  /** The case without audio: after making the output folder and removing the
      temporary folder. */
  lemma EmptyBranch(fs: Fs, savePath: string, source: string, finalPath: string, tempFolder: string)
    requires fs.Valid() && savePath !in fs.files && tempFolder in fs.dirs && source !in fs.files
    requires !Under(finalPath, tempFolder) && !Under(savePath, tempFolder)
    ensures Settled(fs, savePath, finalPath, source, tempFolder, NothingSaved,
                    WithoutTree(Fs(fs.files, fs.dirs + {savePath}), tempFolder))
  {
  }

  /** The error paths stop before `rmtree`: the output folder is blocked exactly when a
      file sits at its path, and when it is blocked or the move raises, every file and the
      temporary folder stay where they were. */
  lemma SaveFailureKeepsTemp(fs: Fs, baseOutputDir: string, tempFolder: string, subfolder: string,
                             text: string, now: Clock)
    requires fs.Valid() && now.Valid()
    ensures var savePath := JoinPath(baseOutputDir, subfolder);
            var (outcome, after) := SaveAudio(fs, baseOutputDir, tempFolder, subfolder, text, now);
            (outcome.SaveDirBlocked? <==> savePath in fs.files)
            && (outcome.SaveDirBlocked? || outcome.MoveFailed? ==>
                  after.files == fs.files && fs.dirs <= after.dirs
                  && (tempFolder in fs.dirs ==> tempFolder in after.dirs))
  {
  }
}
