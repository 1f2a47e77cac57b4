/** Voice enrolment of the cloning manager: `convert_audio_if_needed`, which accepts a
    readable `.wav` file as it is and has anything else converted to a temporary WAV file,
    and `enroll_new_voice`, which stores the reference clip as `voices/<name>.wav` next to
    its transcript `voices/<name>.txt`; and the way a saved voice is loaded back. */
module Enrollment {
  import opened Strings
  import opened Optional
  import opened Paths
  import opened FileStore
  import opened Sanitize
  import opened Naming

  /** The longest reference path accepted. */
  const MaxRefPathLen: nat := 300

  /** Index of the last `.` of `s`, or -1. */
  function LastDot(s: string): (i: int)
    ensures -1 <= i < |s|
    ensures i >= 0 ==> s[i] == '.'
    ensures forall k :: i < k < |s| ==> s[k] != '.'
  {
    if |s| == 0 then -1
    else if s[|s| - 1] == '.' then |s| - 1
    else LastDot(s[..|s| - 1])
  }

  predicate AllDots(s: string)
  {
    forall k :: 0 <= k < |s| ==> s[k] == '.'
  }

  /** `os.path.splitext(name)[1]` for a file name: from the last dot on, unless nothing
      but dots precedes that dot (so `.wav` has no extension). */
  function Extension(name: string): (ext: string)
    ensures ext == [] || (ext[0] == '.' && EndsWith(name, ext) && NoChar(ext[1..], '.'))
    ensures ext != [] ==> !AllDots(name[..|name| - |ext|])
  {
    var i := LastDot(name);
    if i < 0 || AllDots(name[..i]) then [] else name[i..]
  }

  /** Only `.` lower-cases to `.`, and `w`, `a`, `v` are not dots. */
  lemma LowerDotWav(s: string, w: string)
    requires w == ".wav" && |s| == 4 && Lower(s) == w
    ensures s[0] == '.' && NoChar(s[1..], '.')
  {
    var l := Lower(s);
    LowerAt(s, 0); LowerAt(s, 1); LowerAt(s, 2); LowerAt(s, 3);
    assert LowerChar(s[0]) == '.' && LowerChar(s[1]) == 'w' && LowerChar(s[2]) == 'a' && LowerChar(s[3]) == 'v' by {
      assert l[0] == '.' && l[1] == 'w' && l[2] == 'a' && l[3] == 'v';
    }
    forall k | 0 <= k < |s[1..]| ensures s[1..][k] != '.' {
      assert s[1..][k] == s[k + 1];
    }
  }

  lemma ExtensionIsTail(name: string, ext: string)
    requires ext == Extension(name) && |ext| == 4
    ensures name[|name| - 4..] == ext && !AllDots(name[..|name| - 4])
  {
  }

  lemma WavExtensionSound(name: string, w: string)
    requires w == ".wav" && Lower(Extension(name)) == w
    ensures |name| >= 4 && Lower(name[|name| - 4..]) == w && !AllDots(name[..|name| - 4])
  {
    var ext := Extension(name);
    assert |ext| == 4;
    ExtensionIsTail(name, ext);
  }

  /** A dot followed by three non-dots at the end is the extension's dot. */
  lemma DotBeforeLastThree(name: string, tail: string)
    requires |name| >= 4 && tail == name[|name| - 4..]
    requires tail[0] == '.' && NoChar(tail[1..], '.') && !AllDots(name[..|name| - 4])
    ensures Extension(name) == tail
  {
    var i := |name| - 4;
    forall k | i < k < |name| ensures name[k] != '.' {
      assert name[k] == tail[1..][k - i - 1];
    }
    LastDotIs(name, i);
  }

  lemma WavExtensionComplete(name: string, w: string)
    requires w == ".wav"
    requires |name| >= 4 && Lower(name[|name| - 4..]) == w && !AllDots(name[..|name| - 4])
    ensures Lower(Extension(name)) == w
  {
    var tail := name[|name| - 4..];
    LowerDotWav(tail, w);
    DotBeforeLastThree(name, tail);
  }

  /** `ext.lower() == ".wav"` holds exactly for names whose last four characters are
      `.wav` in any case, with something other than dots before them. */
  lemma WavExtension(name: string)
    ensures Lower(Extension(name)) == ".wav" <==>
            |name| >= 4 && Lower(name[|name| - 4..]) == ".wav" && !AllDots(name[..|name| - 4])
  {
    if Lower(Extension(name)) == ".wav" {
      WavExtensionSound(name, ".wav");
    }
    if |name| >= 4 && Lower(name[|name| - 4..]) == ".wav" && !AllDots(name[..|name| - 4]) {
      WavExtensionComplete(name, ".wav");
    }
  }

  /** The last dot is the dot after which there is none. */
  lemma LastDotIs(s: string, i: nat)
    requires i < |s| && s[i] == '.'
    requires forall k :: i < k < |s| ==> s[k] != '.'
    ensures LastDot(s) == i
  {
  }

  /** What the `wave` module makes of a file: channels, `wave.Error` (or no channels),
      or another exception that nothing catches (an empty file, a directory). */
  datatype WavProbe = ProbeValid | ProbeInvalid | ProbeRaises

  /** How `convert_audio_if_needed` ends. */
  datatype Conversion =
    | SourceMissing          // the path does not exist: `None`
    | AlreadyWav(path: string)
    | Converted(path: string) // `ffmpeg` wrote the temporary WAV file
    | ConversionFailed       // `ffmpeg` failed or is missing: `None`
    | ProbeCrashed           // the `wave` module raised something uncaught

  /** `convert_audio_if_needed(input)` in the working directory `cwd`, with `seconds` for
      `int(time.time())`, `probe` for what `wave.open` makes of a file's contents and
      `ffmpegOutput` for what `ffmpeg` produces (`None` when it fails). */
  function Convert(fs: Fs, input: string, cwd: string, seconds: nat, probe: string -> WavProbe,
                   ffmpegOutput: Option<string>): (r: (Conversion, Fs))
    requires fs.Valid()
    ensures r.1.Valid()
    ensures r.0.SourceMissing? <==> !fs.Exists(input)
    ensures r.0.ProbeCrashed? <==>
              fs.Exists(input) && Lower(Extension(Basename(input))) == ".wav"
              && (input !in fs.files || probe(fs.files[input]) == ProbeRaises)
    ensures r.0.AlreadyWav? <==>
              fs.Exists(input) && Lower(Extension(Basename(input))) == ".wav"
              && input in fs.files && probe(fs.files[input]) == ProbeValid
    ensures r.0.AlreadyWav? ==> r.0.path == input && r.1 == fs
    ensures r.0.Converted? ==>
              r.0.path == JoinPath(cwd, "temp_convert_" + Decimal(seconds) + ".wav")
              && ffmpegOutput.Some? && r.0.path in r.1.files && r.1.files[r.0.path] == ffmpegOutput.value
              && r.1 == Fs(fs.files[r.0.path := ffmpegOutput.value], fs.dirs)
    ensures !r.0.Converted? ==> r.1 == fs
  {
    if !fs.Exists(input) then (SourceMissing, fs)
    else
      var isWavName := Lower(Extension(Basename(input))) == ".wav";
      var probed := if input in fs.files then probe(fs.files[input]) else ProbeRaises;
      if isWavName && probed == ProbeRaises then (ProbeCrashed, fs)
      else if isWavName && probed == ProbeValid then (AlreadyWav(input), fs)
      else
        var tempWav := JoinPath(cwd, "temp_convert_" + Decimal(seconds) + ".wav");
        match ffmpegOutput
        case None => (ConversionFailed, fs)
        case Some(content) =>
          if tempWav in fs.dirs then (ConversionFailed, fs)
          else (Converted(tempWav), Fs(fs.files[tempWav := content], fs.dirs))
  }

  method ConvertAudioIfNeeded(disk: Disk, input: string, cwd: string, seconds: nat, probe: string -> WavProbe,
                              ffmpegOutput: Option<string>) returns (result: Conversion)
    requires disk.View().Valid()
    modifies disk
    ensures disk.View().Valid()
    ensures (result, disk.View()) == Convert(old(disk.View()), input, cwd, seconds, probe, ffmpegOutput)
  {
    if !disk.View().Exists(input) {
      return SourceMissing;
    }
    var filename := Basename(input);
    var ext := Extension(filename);
    if Lower(ext) == ".wav" {
      if input !in disk.files || probe(disk.files[input]) == ProbeRaises {
        return ProbeCrashed;
      }
      if probe(disk.files[input]) == ProbeValid {
        return AlreadyWav(input);
      }
    }
    var tempWav := JoinPath(cwd, "temp_convert_" + Decimal(seconds) + ".wav");
    if ffmpegOutput.None? {
      return ConversionFailed;
    }
    var written := disk.WriteFile(tempWav, ffmpegOutput.value);
    if !written {
      return ConversionFailed;
    }
    result := Converted(tempWav);
  }

  /** How `enroll_new_voice` ends. */
  datatype EnrollOutcome =
    | Cancelled            // empty name
    | InputTooLong         // reference path over 300 characters or holding a newline
    | NoAudio              // missing file, or conversion failed
    | Crashed              // an exception escaped (the `wave` probe)
    | CopyFailed           // `shutil.copy` raised
    | TranscriptFailed     // writing the transcript raised
    | Enrolled(voice: string)

  /** The tail of `enroll_new_voice` once the clip `cleanWav` is a WAV file: make the
      voices directory when it is missing, copy the clip to `<safeName>.wav`, write the
      transcript to `<safeName>.txt` and delete a converted temporary clip. */
  function StoreVoice(fs: Fs, cleanWav: string, rawPath: string, safeName: string, refText: string,
                      voicesDir: string): (r: (EnrollOutcome, Fs))
    requires fs.Valid()
    ensures r.1.Valid()
    ensures r.0 == Enrolled(safeName) || r.0 == CopyFailed || r.0 == TranscriptFailed
  {
    var withDir := if fs.Exists(voicesDir) then fs else Fs(fs.files, fs.dirs + {voicesDir});
    var targetWav := JoinPath(voicesDir, safeName + ".wav");
    var targetTxt := JoinPath(voicesDir, safeName + ".txt");
    var copyTarget := MoveTarget(withDir, cleanWav, targetWav);
    if !(cleanWav in withDir.files && copyTarget !in withDir.dirs && cleanWav != copyTarget) then
      (CopyFailed, withDir)
    else
      var copied := Fs(withDir.files[copyTarget := withDir.files[cleanWav]], withDir.dirs);
      if targetTxt in copied.dirs then (TranscriptFailed, copied)
      else
        var written := Fs(copied.files[targetTxt := refText], copied.dirs);
        if cleanWav != rawPath && written.Exists(cleanWav) then
          (Enrolled(safeName), Fs(written.files - {cleanWav}, written.dirs))
        else (Enrolled(safeName), written)
  }

  /** What `enroll_new_voice` does with the result of `convert_audio_if_needed`: a crash
      propagates, no clip ends the enrolment, and a clip is stored. */
  function StoreClip(conversion: Conversion, converted: Fs, rawPath: string, safeName: string, refText: string,
                     voicesDir: string): (r: (EnrollOutcome, Fs))
    requires converted.Valid()
    ensures r.1.Valid()
    ensures !r.0.Cancelled? && !r.0.InputTooLong?
    ensures r.0.Crashed? <==> conversion.ProbeCrashed?
    ensures r.0.NoAudio? <==> conversion.SourceMissing? || conversion.ConversionFailed?
    ensures !(conversion.AlreadyWav? || conversion.Converted?) ==> r.1 == converted
  {
    if conversion.ProbeCrashed? then (Crashed, converted)
    else if !(conversion.AlreadyWav? || conversion.Converted?) then (NoAudio, converted)
    else StoreVoice(converted, conversion.path, rawPath, safeName, refText, voicesDir)
  }

  /** `enroll_new_voice` once its three answers are cleaned: `name` stripped, `safeName`
      its sanitised form, `rawPath` the cleaned reference path and `refText` the stripped
      transcript. */
  function EnrollCleaned(fs: Fs, name: string, safeName: string, rawPath: string, refText: string, voicesDir: string,
                         cwd: string, seconds: nat, probe: string -> WavProbe, ffmpegOutput: Option<string>): (r: (EnrollOutcome, Fs))
    requires fs.Valid()
    ensures r.1.Valid()
  {
    if name == [] then (Cancelled, fs)
    else if |rawPath| > MaxRefPathLen || !NoChar(rawPath, '\n') then (InputTooLong, fs)
    else
      var c := Convert(fs, rawPath, cwd, seconds, probe, ffmpegOutput);
      StoreClip(c.0, c.1, rawPath, safeName, refText, voicesDir)
  }

  /** The outcome and the filesystem after `enroll_new_voice` read `nameLine`, `refLine`
      and `transcriptLine`, with `voicesDir` for `VOICES_DIR`. */
  function Enroll(fs: Fs, nameLine: string, refLine: string, transcriptLine: string, voicesDir: string,
                  cwd: string, seconds: nat, probe: string -> WavProbe, ffmpegOutput: Option<string>): (r: (EnrollOutcome, Fs))
    requires fs.Valid()
    ensures r.1.Valid()
  {
    var name := Strip(nameLine);
    EnrollCleaned(fs, name, SafeName(name), CleanPath(Strip(refLine)), Strip(transcriptLine), voicesDir,
                  cwd, seconds, probe, ffmpegOutput)
  }

  method SaveVoiceFiles(disk: Disk, cleanWav: string, rawPath: string, safeName: string, refText: string,
                        voicesDir: string) returns (outcome: EnrollOutcome)
    requires disk.View().Valid()
    modifies disk
    ensures disk.View().Valid()
    ensures (outcome, disk.View()) == StoreVoice(old(disk.View()), cleanWav, rawPath, safeName, refText, voicesDir)
  {
    if !disk.View().Exists(voicesDir) {
      var _ := disk.MakeDirs(voicesDir);
    }
    var targetWav := JoinPath(voicesDir, safeName + ".wav");
    var targetTxt := JoinPath(voicesDir, safeName + ".txt");
    var copiedOk, _ := disk.Copy(cleanWav, targetWav);
    if !copiedOk {
      return CopyFailed;
    }
    var writtenOk := disk.WriteFile(targetTxt, refText);
    if !writtenOk {
      return TranscriptFailed;
    }
    if cleanWav != rawPath && disk.View().Exists(cleanWav) {
      var _ := disk.Remove(cleanWav);
    }
    outcome := Enrolled(safeName);
  }

  method EnrollNewVoice(disk: Disk, nameLine: string, refLine: string, transcriptLine: string, voicesDir: string,
                        cwd: string, seconds: nat, probe: string -> WavProbe, ffmpegOutput: Option<string>)
    returns (outcome: EnrollOutcome)
    requires disk.View().Valid()
    modifies disk
    ensures disk.View().Valid()
    ensures (outcome, disk.View()) ==
            Enroll(old(disk.View()), nameLine, refLine, transcriptLine, voicesDir, cwd, seconds, probe, ffmpegOutput)
  {
    var name := Strip(nameLine);
    if name == [] {
      return Cancelled;
    }
    var safeName := SafeName(name);
    var refInput := Strip(refLine);
    var rawPath := CleanPath(refInput);
    if |rawPath| > MaxRefPathLen || !NoChar(rawPath, '\n') {
      return InputTooLong;
    }
    var conversion := ConvertAudioIfNeeded(disk, rawPath, cwd, seconds, probe, ffmpegOutput);
    if conversion.ProbeCrashed? {
      return Crashed;
    }
    if !(conversion.AlreadyWav? || conversion.Converted?) {
      return NoAudio;
    }
    var refText := Strip(transcriptLine);
    outcome := SaveVoiceFiles(disk, conversion.path, rawPath, safeName, refText, voicesDir);
  }

  /** Choosing a saved voice by name (the "Pick from Saved Voices" branch): the reference
      clip path, and the stripped transcript when the `.txt` file exists; `None` when
      that path is a directory and reading it raises. */
  function LoadSavedVoice(fs: Fs, voicesDir: string, name: string): (r: Option<(string, Option<string>)>)
    ensures r.None? <==> JoinPath(voicesDir, name + ".txt") in fs.dirs && JoinPath(voicesDir, name + ".txt") !in fs.files
    ensures r.Some? ==> r.value.0 == JoinPath(voicesDir, name + ".wav")
    ensures r.Some? ==> (r.value.1.Some? <==> JoinPath(voicesDir, name + ".txt") in fs.files)
  {
    var refAudio := JoinPath(voicesDir, name + ".wav");
    var txtPath := JoinPath(voicesDir, name + ".txt");
    if !fs.Exists(txtPath) then Some((refAudio, None))
    else if txtPath in fs.files then Some((refAudio, Some(Strip(fs.files[txtPath]))))
    else None
  }

  /** `voices/<name>.wav` and `voices/<name>.txt` for a sanitised name: two distinct files
      directly inside the voices directory. */
  lemma VoiceFilePaths(voicesDir: string, safeName: string)
    requires voicesDir != [] && !EndsWith(voicesDir, "/") && AllAllowed(safeName)
    ensures JoinPath(voicesDir, safeName + ".wav") == voicesDir + "/" + safeName + ".wav"
    ensures JoinPath(voicesDir, safeName + ".txt") == voicesDir + "/" + safeName + ".txt"
    ensures JoinPath(voicesDir, safeName + ".wav") != JoinPath(voicesDir, safeName + ".txt")
    ensures JoinPath(voicesDir, safeName + ".wav") != voicesDir
    ensures JoinPath(voicesDir, safeName + ".txt") != voicesDir
  {
    var w, t := ".wav", ".txt";
    JoinVoiceFile(voicesDir, safeName, w);
    JoinVoiceFile(voicesDir, safeName, t);
    LastCharDiffers(voicesDir + "/" + safeName, w, t);
  }

  /** `<dir>/<name><ext>` for a sanitised name and a four-character extension. */
  lemma JoinVoiceFile(dir: string, name: string, ext: string)
    requires dir != [] && !EndsWith(dir, "/") && AllAllowed(name) && |ext| == 4 && ext[0] == '.'
    ensures JoinPath(dir, name + ext) == dir + "/" + name + ext
    ensures JoinPath(dir, name + ext) != dir
  {
    var f := name + ext;
    if name != [] {
      assert Allowed(name[0]);
      assert f[0] == name[0];
    }
    assert !StartsWith(f, "/");
    AppendAssoc(dir + "/", name, ext);
  }

  lemma LastCharDiffers(a: string, w: string, t: string)
    requires w == ".wav" && t == ".txt"
    ensures a + w != a + t
  {
    assert (a + w)[|a| + 3] == 'v';
    assert (a + t)[|a| + 3] == 't';
  }

  /** `SaveVoiceFiles` with an existing or creatable voices directory and no directory in
      the way of `<name>.wav`: it succeeds exactly when the clip is a file other than the
      target and no directory sits at `<name>.txt`; then the clip is copied to `<name>.wav`,
      the transcript is in `<name>.txt`, the clip is gone unless it was the user's own
      file, and no other file changes. */
  lemma StoreLifecycle(fs: Fs, cleanWav: string, rawPath: string, safeName: string, refText: string,
                       voicesDir: string)
    requires fs.Valid()
    requires voicesDir != [] && !EndsWith(voicesDir, "/") && voicesDir !in fs.files
    requires AllAllowed(safeName) && JoinPath(voicesDir, safeName + ".wav") !in fs.dirs
    ensures var targetWav := JoinPath(voicesDir, safeName + ".wav");
            var targetTxt := JoinPath(voicesDir, safeName + ".txt");
            var (outcome, after) := StoreVoice(fs, cleanWav, rawPath, safeName, refText, voicesDir);
            (outcome.Enrolled? <==> cleanWav in fs.files && cleanWav != targetWav && targetTxt !in fs.dirs)
            && (outcome.CopyFailed? ==> after.files == fs.files)
            && (outcome.Enrolled? ==>
                  outcome.voice == safeName
                  && after.dirs == fs.dirs + {voicesDir}
                  && targetWav in after.files && after.files[targetWav] == fs.files[cleanWav]
                  && (cleanWav != targetTxt ==> targetTxt in after.files && after.files[targetTxt] == refText)
                  && (cleanWav in after.files <==> cleanWav == rawPath)
                  && forall p :: p != targetWav && p != targetTxt && p != cleanWav ==>
                       (p in after.files <==> p in fs.files) && (p in after.files ==> after.files[p] == fs.files[p]))
  {
    VoiceFilePaths(voicesDir, safeName);
  }

  /** The clip `convert_audio_if_needed` hands on is always named as a WAV file: the
      user's own file ends in `.wav` in some case, the converted one in `.wav`. */
  lemma ClipIsNamedWav(fs: Fs, input: string, cwd: string, seconds: nat, probe: string -> WavProbe,
                       ffmpegOutput: Option<string>, w: string)
    requires fs.Valid() && w == ".wav"
    ensures var c := Convert(fs, input, cwd, seconds, probe, ffmpegOutput).0;
            (c.AlreadyWav? ==> |c.path| >= 4 && Lower(c.path[|c.path| - 4..]) == w)
            && (c.Converted? ==> EndsWith(c.path, w))
  {
    var c := Convert(fs, input, cwd, seconds, probe, ffmpegOutput).0;
    if c.AlreadyWav? {
      BasenameWav(input, w);
    } else if c.Converted? {
      TempWavIsWav(cwd, seconds, w);
    }
  }

  /** A path whose base name has the `.wav` extension ends in `.wav` in some case. */
  lemma BasenameWav(input: string, w: string)
    requires w == ".wav" && Lower(Extension(Basename(input))) == w
    ensures |input| >= 4 && Lower(input[|input| - 4..]) == w
  {
    var b := Basename(input);
    WavExtensionSound(b, w);
    LowerTailOfSuffix(input, b, w);
  }

  lemma LowerTailOfSuffix(s: string, b: string, w: string)
    requires |b| <= |s| && b == s[|s| - |b|..] && |b| >= 4 && Lower(b[|b| - 4..]) == w
    ensures |s| >= 4 && Lower(s[|s| - 4..]) == w
  {
    SuffixOfSuffix(s, b, 4);
  }

  /** The last `n` characters of a suffix are the last `n` of the whole. */
  lemma SuffixOfSuffix(s: string, b: string, n: nat)
    requires |b| <= |s| && b == s[|s| - |b|..] && n <= |b|
    ensures s[|s| - n..] == b[|b| - n..]
  {
    var x, y := s[|s| - n..], b[|b| - n..];
    forall k | 0 <= k < n ensures x[k] == y[k] {
      assert y[k] == b[|b| - n + k] == s[|s| - n + k];
    }
  }

  /** The converted clip `temp_convert_<seconds>.wav` ends in `.wav`. */
  lemma TempWavIsWav(cwd: string, seconds: nat, w: string)
    requires w == ".wav"
    ensures EndsWith(JoinPath(cwd, "temp_convert_" + Decimal(seconds) + w), w)
  {
    var name := "temp_convert_" + Decimal(seconds) + w;
    assert name[|name| - 4..] == w;
    JoinPathSuffix(cwd, name, w);
  }

  /** `enroll_new_voice` gives up without touching anything on an empty name, an overlong
      reference path, missing or unconvertible audio and a crashing probe. */
  lemma EnrollEarlyExits(fs: Fs, name: string, safe: string, rawPath: string, refText: string, voicesDir: string,
                         cwd: string, seconds: nat, probe: string -> WavProbe, ffmpegOutput: Option<string>)
    requires fs.Valid()
    ensures var r := EnrollCleaned(fs, name, safe, rawPath, refText, voicesDir, cwd, seconds, probe, ffmpegOutput);
            (r.0.Cancelled? <==> name == [])
            && (r.0.InputTooLong? <==> name != [] && (|rawPath| > MaxRefPathLen || !NoChar(rawPath, '\n')))
            && (r.0.NoAudio? <==> name != [] && |rawPath| <= MaxRefPathLen && NoChar(rawPath, '\n')
                                  && (!fs.Exists(rawPath) || Convert(fs, rawPath, cwd, seconds, probe, ffmpegOutput).0.ConversionFailed?))
            && (r.0.Cancelled? || r.0.InputTooLong? || r.0.NoAudio? || r.0.Crashed? ==> r.1 == fs)
  {
  }

  /** A clip stored by `SaveVoiceFiles` never lands on the transcript path. */
  lemma WavIsNotTxt(clip: string, target: string, w: string, t: string)
    requires w == ".wav" && t == ".txt"
    requires (|clip| >= 4 && Lower(clip[|clip| - 4..]) == w) || EndsWith(clip, w)
    requires EndsWith(target, t)
    ensures clip != target
  {
    if |clip| >= 4 {
      LowerAt(clip[|clip| - 4..], 3);
    }
  }

  /** Storing the clip `convert_audio_if_needed` produced, with a sanitised name and no
      directory at `<name>.wav`: it succeeds exactly when the clip is not already the
      target and no directory sits at `<name>.txt`; it then stores the clip (the user's WAV
      file, or what `ffmpeg` made of the input) as `voices/<name>.wav` and the transcript
      as `voices/<name>.txt`, and deletes a converted temporary clip. */
  lemma ClipStored(fs: Fs, rawPath: string, safe: string, refText: string, voicesDir: string,
                   cwd: string, seconds: nat, probe: string -> WavProbe, ffmpegOutput: Option<string>)
    requires fs.Valid()
    requires voicesDir != [] && !EndsWith(voicesDir, "/") && !EndsWith(voicesDir, ".wav") && voicesDir !in fs.files
    requires AllAllowed(safe) && JoinPath(voicesDir, safe + ".wav") !in fs.dirs
    requires var c := Convert(fs, rawPath, cwd, seconds, probe, ffmpegOutput).0; c.AlreadyWav? || c.Converted?
    ensures var targetWav := JoinPath(voicesDir, safe + ".wav");
            var targetTxt := JoinPath(voicesDir, safe + ".txt");
            var cv := Convert(fs, rawPath, cwd, seconds, probe, ffmpegOutput);
            var c := cv.0;
            var r := StoreVoice(cv.1, c.path, rawPath, safe, refText, voicesDir);
            (r.0.Enrolled? <==> c.path != targetWav && targetTxt !in fs.dirs)
            && (r.0.Enrolled? ==>
                  r.0.voice == safe && voicesDir in r.1.dirs
                  && targetWav in r.1.files
                  && (c.AlreadyWav? ==> rawPath in fs.files && r.1.files[targetWav] == fs.files[rawPath])
                  && (c.Converted? ==> ffmpegOutput.Some? && r.1.files[targetWav] == ffmpegOutput.value)
                  && (c.Converted? && c.path != rawPath ==> c.path !in r.1.files)
                  && targetTxt in r.1.files && r.1.files[targetTxt] == refText)
  {
    var cv := Convert(fs, rawPath, cwd, seconds, probe, ffmpegOutput);
    ClipIsNamedWav(fs, rawPath, cwd, seconds, probe, ffmpegOutput, ".wav");
    StoreFoundClip(fs, cv.0, cv.1, rawPath, safe, refText, voicesDir, ffmpegOutput);
  }

  /** `ClipStored` for a clip `c` and the file system `converted` it was found or made in. */
  lemma StoreFoundClip(fs: Fs, c: Conversion, converted: Fs, rawPath: string, safe: string, refText: string,
                  voicesDir: string, ffmpegOutput: Option<string>)
    requires fs.Valid() && converted.Valid()
    requires voicesDir != [] && !EndsWith(voicesDir, "/") && !EndsWith(voicesDir, ".wav") && voicesDir !in fs.files
    requires AllAllowed(safe) && JoinPath(voicesDir, safe + ".wav") !in fs.dirs
    requires c.AlreadyWav? || c.Converted?
    requires c.AlreadyWav? ==> |c.path| >= 4 && Lower(c.path[|c.path| - 4..]) == ".wav"
    requires c.Converted? ==> EndsWith(c.path, ".wav")
    requires c.AlreadyWav? ==> c.path == rawPath && rawPath in fs.files && converted == fs
    requires c.Converted? ==>
               ffmpegOutput.Some? && c.path in converted.files && converted.files[c.path] == ffmpegOutput.value
               && converted == Fs(fs.files[c.path := ffmpegOutput.value], fs.dirs)
    ensures var targetWav := JoinPath(voicesDir, safe + ".wav");
            var targetTxt := JoinPath(voicesDir, safe + ".txt");
            var r := StoreVoice(converted, c.path, rawPath, safe, refText, voicesDir);
            (r.0.Enrolled? <==> c.path != targetWav && targetTxt !in fs.dirs)
            && (r.0.Enrolled? ==>
                  r.0.voice == safe && voicesDir in r.1.dirs
                  && targetWav in r.1.files
                  && (c.AlreadyWav? ==> rawPath in fs.files && r.1.files[targetWav] == fs.files[rawPath])
                  && (c.Converted? ==> ffmpegOutput.Some? && r.1.files[targetWav] == ffmpegOutput.value)
                  && (c.Converted? && c.path != rawPath ==> c.path !in r.1.files)
                  && targetTxt in r.1.files && r.1.files[targetTxt] == refText)
  {
    var targetTxt := JoinPath(voicesDir, safe + ".txt");
    VoiceFilePaths(voicesDir, safe);
    assert EndsWith(targetTxt, ".txt");
    WavIsNotTxt(c.path, targetTxt, ".wav", ".txt");
    if c.Converted? {
      assert c.path != voicesDir;
      assert converted.files == fs.files[c.path := ffmpegOutput.value];
    }
    assert voicesDir !in converted.files;
    StoreLifecycle(converted, c.path, rawPath, safe, refText, voicesDir);
    assert c.path in converted.files && converted.dirs == fs.dirs;
  }

  /** A checked enrolment succeeds exactly when a clip was found or converted, it is not
      already the target and no directory sits at `<name>.txt`; see `ClipStored` for what
      it then stores. */
  lemma EnrollStores(fs: Fs, name: string, safe: string, rawPath: string, refText: string, voicesDir: string,
                     cwd: string, seconds: nat, probe: string -> WavProbe, ffmpegOutput: Option<string>)
    requires fs.Valid()
    requires voicesDir != [] && !EndsWith(voicesDir, "/") && !EndsWith(voicesDir, ".wav") && voicesDir !in fs.files
    requires AllAllowed(safe) && JoinPath(voicesDir, safe + ".wav") !in fs.dirs
    ensures var targetWav := JoinPath(voicesDir, safe + ".wav");
            var targetTxt := JoinPath(voicesDir, safe + ".txt");
            var c := Convert(fs, rawPath, cwd, seconds, probe, ffmpegOutput).0;
            var r := EnrollCleaned(fs, name, safe, rawPath, refText, voicesDir, cwd, seconds, probe, ffmpegOutput);
            (r.0.Enrolled? <==> name != [] && |rawPath| <= MaxRefPathLen && NoChar(rawPath, '\n')
                                && (c.AlreadyWav? || c.Converted?) && c.path != targetWav && targetTxt !in fs.dirs)
            && (r.0.Enrolled? ==>
                  r.0.voice == safe && voicesDir in r.1.dirs
                  && targetWav in r.1.files
                  && (c.AlreadyWav? ==> rawPath in fs.files && r.1.files[targetWav] == fs.files[rawPath])
                  && (c.Converted? ==> ffmpegOutput.Some? && r.1.files[targetWav] == ffmpegOutput.value)
                  && (c.Converted? && c.path != rawPath ==> c.path !in r.1.files)
                  && targetTxt in r.1.files && r.1.files[targetTxt] == refText)
  {
    var r := EnrollCleaned(fs, name, safe, rawPath, refText, voicesDir, cwd, seconds, probe, ffmpegOutput);
    if name != [] && |rawPath| <= MaxRefPathLen && NoChar(rawPath, '\n') {
      var cv := Convert(fs, rawPath, cwd, seconds, probe, ffmpegOutput);
      assert r == StoreClip(cv.0, cv.1, rawPath, safe, refText, voicesDir);
      if cv.0.AlreadyWav? || cv.0.Converted? {
        ClipStored(fs, rawPath, safe, refText, voicesDir, cwd, seconds, probe, ffmpegOutput);
        assert r == StoreVoice(cv.1, cv.0.path, rawPath, safe, refText, voicesDir);
      } else {
        assert !r.0.Enrolled?;
      }
    }
  }

  /** A voice enrolled from the menu loads back as its `.wav` clip and the transcript as
      typed, stripped. */
  lemma EnrollThenLoad(fs: Fs, nameLine: string, refLine: string, transcriptLine: string, voicesDir: string,
                       cwd: string, seconds: nat, probe: string -> WavProbe, ffmpegOutput: Option<string>)
    requires fs.Valid()
    requires voicesDir != [] && !EndsWith(voicesDir, "/") && !EndsWith(voicesDir, ".wav") && voicesDir !in fs.files
    requires JoinPath(voicesDir, SafeName(Strip(nameLine)) + ".wav") !in fs.dirs
    ensures var r := Enroll(fs, nameLine, refLine, transcriptLine, voicesDir, cwd, seconds, probe, ffmpegOutput);
            r.0.Enrolled? ==>
              LoadSavedVoice(r.1, voicesDir, r.0.voice)
              == Some((JoinPath(voicesDir, r.0.voice + ".wav"), Some(Strip(transcriptLine))))
  {
    var name, refText := Strip(nameLine), Strip(transcriptLine);
    EnrollStores(fs, name, SafeName(name), CleanPath(Strip(refLine)), refText, voicesDir, cwd, seconds, probe, ffmpegOutput);
    StripIdentity(refText);
  }

  /** A readable file whose name has the `.wav` extension in any case is used as it is. */
  lemma ConvertKeepsReadableWav(fs: Fs, input: string, cwd: string, seconds: nat, probe: string -> WavProbe,
                                ffmpegOutput: Option<string>)
    requires fs.Valid() && input in fs.files
    requires Lower(Extension(Basename(input))) == ".wav" && probe(fs.files[input]) == ProbeValid
    ensures Convert(fs, input, cwd, seconds, probe, ffmpegOutput) == (AlreadyWav(input), fs)
  {
  }

  /** Anything else that exists goes to `ffmpeg`, whose output lands in
      `temp_convert_<seconds>.wav` in the working directory. */
  lemma ConvertOthers(fs: Fs, input: string, cwd: string, seconds: nat, probe: string -> WavProbe,
                      ffmpegOutput: Option<string>)
    requires fs.Valid() && fs.Exists(input)
    requires Lower(Extension(Basename(input))) != ".wav" || (input in fs.files && probe(fs.files[input]) == ProbeInvalid)
    ensures var tempWav := JoinPath(cwd, "temp_convert_" + Decimal(seconds) + ".wav");
            var c := Convert(fs, input, cwd, seconds, probe, ffmpegOutput).0;
            (c.Converted? <==> ffmpegOutput.Some? && tempWav !in fs.dirs)
            && (c.Converted? ==> c.path == tempWav)
            && (!c.Converted? ==> c.ConversionFailed?)
  {
  }
}
