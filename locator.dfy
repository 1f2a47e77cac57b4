/** `get_smart_path`: where to load a model from. A model folder missing from the local
    models directory is fetched by its remote repository id; a downloaded cache folder is
    entered through its first non-hidden snapshot; otherwise the folder itself is used. */
module ModelLocator {
  import opened Strings
  import opened Paths
  import opened FileStore

  const RemoteOrg: string := "mlx-community/"

  datatype Location = Remote(repoId: string) | Local(path: string)

  /** Where the lookup ended: a location, or the `NotADirectoryError` that `os.listdir`
      raises when `snapshots` is a regular file. */
  datatype Located = Found(location: Location) | SnapshotsNotADirectory(snapshots: string)

  predicate Hidden(name: string)
  {
    StartsWith(name, ".")
  }

  /** Index of the first non-hidden entry, or the length when every entry is hidden. */
  function FirstVisible(entries: seq<string>): (k: nat)
    ensures k <= |entries|
    ensures forall j :: 0 <= j < k ==> Hidden(entries[j])
    ensures k < |entries| ==> !Hidden(entries[k])
  {
    if |entries| == 0 || !Hidden(entries[0]) then 0 else 1 + FirstVisible(entries[1..])
  }

  /** `get_smart_path(folder)` against `modelsDir`; `snapshotEntries` is what
      `os.listdir(snapshots_dir)` returns, in the operating system's order. */
  function GetSmartPath(modelsDir: string, folder: string, fs: Fs, snapshotEntries: seq<string>): (r: Located)
    requires fs.Valid()
    ensures var fullPath := JoinPath(modelsDir, folder);
            r == Found(Remote(RemoteOrg + folder)) <==> !fs.Exists(fullPath)
    ensures var snapshots := JoinPath(JoinPath(modelsDir, folder), "snapshots");
            (r.SnapshotsNotADirectory? <==> fs.Exists(JoinPath(modelsDir, folder)) && snapshots in fs.files)
            && (r.SnapshotsNotADirectory? ==> r.snapshots == snapshots)
    ensures var fullPath := JoinPath(modelsDir, folder);
            var snapshots := JoinPath(fullPath, "snapshots");
            var k := FirstVisible(snapshotEntries);
            fs.Exists(fullPath) && snapshots in fs.dirs && k < |snapshotEntries| ==>
              r == Found(Local(JoinPath(snapshots, snapshotEntries[k])))
    ensures var fullPath := JoinPath(modelsDir, folder);
            var snapshots := JoinPath(fullPath, "snapshots");
            fs.Exists(fullPath) && snapshots !in fs.files
            && (snapshots !in fs.dirs || FirstVisible(snapshotEntries) == |snapshotEntries|) ==>
              r == Found(Local(fullPath))
  {
    var fullPath := JoinPath(modelsDir, folder);
    if !fs.Exists(fullPath) then Found(Remote(RemoteOrg + folder))
    else
      var snapshots := JoinPath(fullPath, "snapshots");
      if snapshots in fs.files then SnapshotsNotADirectory(snapshots)
      else if snapshots in fs.dirs && FirstVisible(snapshotEntries) < |snapshotEntries| then
        Found(Local(JoinPath(snapshots, snapshotEntries[FirstVisible(snapshotEntries)])))
      else Found(Local(fullPath))
  }

  function LocationString(l: Location): string
  {
    match l
    case Remote(id) => id
    case Local(p) => p
  }

  lemma JoinPathNonEmpty(a: string, b: string)
    requires a != [] || b != []
    ensures JoinPath(a, b) != []
  {
    if !StartsWith(b, "/") && a == [] {
      assert JoinPath(a, b) == b;
    }
  }

  /** The returned location is never the empty string, so the `if not model_path`
      guard of the interactive sessions cannot fire. */
  lemma SmartPathNeverEmpty(modelsDir: string, folder: string, fs: Fs, entries: seq<string>)
    requires fs.Valid() && modelsDir != []
    ensures var r := GetSmartPath(modelsDir, folder, fs, entries);
            r.Found? ==> LocationString(r.location) != []
  {
    var fullPath := JoinPath(modelsDir, folder);
    JoinPathNonEmpty(modelsDir, folder);
    JoinPathNonEmpty(fullPath, "snapshots");
    var snapshots := JoinPath(fullPath, "snapshots");
    var k := FirstVisible(entries);
    if k < |entries| {
      JoinPathNonEmpty(snapshots, entries[k]);
    }
  }
}
