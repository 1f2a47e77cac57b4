/** The filesystem as the front end sees it: regular files with their contents and
    directories, both named by path strings, and the handful of `os`/`shutil` calls that
    change it (`makedirs`, `shutil.move`, `shutil.copy`, `shutil.rmtree`, writing a file,
    `os.remove`). Parent directories of files are not tracked. */
module FileStore {
  import opened Strings
  import opened Paths

  /** A snapshot: regular files (path to contents) and directories. */
  datatype Fs = Fs(files: map<string, string>, dirs: set<string>)
  {
    /** `os.path.exists` */
    predicate Exists(p: string) { p in files || p in dirs }

    /** `os.path.isfile` */
    predicate IsFile(p: string) { p in files }

    /** A path and a directory never coincide. */
    predicate Valid() { files.Keys !! dirs }
  }

  /** `p` is `d` or lies somewhere below it. */
  predicate Under(p: string, d: string)
  {
    p == d || StartsWith(p, d + "/")
  }

  /** `os.path.basename`: what follows the last `/`. */
  function Basename(p: string): (r: string)
    ensures |r| <= |p| && r == p[|p| - |r|..]
    ensures NoChar(r, '/')
  {
    if |p| == 0 then []
    else if p[|p| - 1] == '/' then []
    else Basename(p[..|p| - 1]) + [p[|p| - 1]]
  }

  /** The state after `shutil.rmtree(d, ignore_errors=True)`: everything at or below a
      directory `d` is gone; if `d` is not a directory nothing happens. */
  function WithoutTree(fs: Fs, d: string): (r: Fs)
    ensures r.Valid() <== fs.Valid()
    ensures d in fs.dirs ==> !r.Exists(d)
    ensures forall p :: p in fs.files && !(d in fs.dirs && Under(p, d)) ==> p in r.files && r.files[p] == fs.files[p]
    ensures forall p :: p in r.files ==> p in fs.files
    ensures forall p :: p in fs.dirs && !(d in fs.dirs && Under(p, d)) ==> p in r.dirs
    ensures forall p :: p in r.dirs ==> p in fs.dirs
    ensures d in fs.dirs ==> forall p :: Under(p, d) ==> !r.Exists(p)
  {
    if d !in fs.dirs then fs
    else Fs(map p | p in fs.files && !Under(p, d) :: fs.files[p],
            set p | p in fs.dirs && !Under(p, d))
  }

  /** A file joined onto a relative directory lies below it. */
  lemma JoinedIsUnder(d: string, name: string)
    requires d != [] && !EndsWith(d, "/") && !StartsWith(name, "/")
    ensures Under(JoinPath(d, name), d)
  {
    var p := JoinPath(d, name);
    assert p[..|d| + 1] == d + "/";
  }

  /** An absolute path never lies below a relative directory. */
  lemma AbsoluteNotUnder(p: string, d: string)
    requires StartsWith(p, "/") && d != [] && d[0] != '/'
    ensures !Under(p, d)
  {
    assert p[0] == '/';
    assert (d + "/")[0] == d[0];
  }

  /** Where `shutil.move(src, dst)` puts a file: into `dst` when `dst` is a directory. */
  function MoveTarget(fs: Fs, src: string, dst: string): string
  {
    if dst in fs.dirs then JoinPath(dst, Basename(src)) else dst
  }

  /** `shutil.move(src, dst)` for a regular file succeeds (an `os.rename`, replacing an
      existing file) unless the target is a directory or, when moving into a directory,
      the target already exists. */
  predicate CanMove(fs: Fs, src: string, dst: string)
  {
    var target := MoveTarget(fs, src, dst);
    src in fs.files && target !in fs.dirs && !(dst in fs.dirs && target in fs.files)
  }

  /** The state after a successful `shutil.move(src, dst)` of a regular file. */
  function Moved(fs: Fs, src: string, dst: string): (r: Fs)
    requires CanMove(fs, src, dst)
    ensures r.Valid() <== fs.Valid()
    ensures r.dirs == fs.dirs
    ensures var target := MoveTarget(fs, src, dst);
            target in r.files && r.files[target] == fs.files[src]
            && (src != target ==> src !in r.files)
            && forall p :: p != src && p != target ==>
                 (p in r.files <==> p in fs.files) && (p in r.files ==> r.files[p] == fs.files[p])
  {
    Fs((fs.files - {src})[MoveTarget(fs, src, dst) := fs.files[src]], fs.dirs)
  }

  /** Moving a file out of a directory tree and then removing the tree: the file is at
      its target, nothing is left at or below the tree, and nothing outside the tree
      other than the target changes. */
  lemma MoveOutOfTree(fs: Fs, src: string, dst: string, d: string)
    requires fs.Valid() && CanMove(fs, src, dst)
    requires d in fs.dirs && Under(src, d) && !Under(MoveTarget(fs, src, dst), d)
    ensures var target := MoveTarget(fs, src, dst);
            var after := WithoutTree(Moved(fs, src, dst), d);
            after.Valid()
            && target in after.files && after.files[target] == fs.files[src]
            && (forall p :: Under(p, d) ==> !after.Exists(p))
            && (forall p :: !Under(p, d) && p != target ==>
                  (p in after.files <==> p in fs.files) && (p in after.files ==> after.files[p] == fs.files[p]))
            && (forall p :: !Under(p, d) ==> (p in after.dirs <==> p in fs.dirs))
  {
  }

  /** The filesystem as a mutable object. */
  class Disk {
    var files: map<string, string>
    var dirs: set<string>

    function View(): Fs
      reads this
    {
      Fs(files, dirs)
    }

    constructor (initial: Fs)
      requires initial.Valid()
      ensures View() == initial
    {
      files := initial.files;
      dirs := initial.dirs;
    }

    /** `os.makedirs(d, exist_ok=True)`: fails only when a file is in the way. */
    method MakeDirs(d: string) returns (ok: bool)
      requires View().Valid()
      modifies this
      ensures View().Valid()
      ensures ok == (d !in old(files))
      ensures files == old(files)
      ensures dirs == if ok then old(dirs) + {d} else old(dirs)
    {
      ok := d !in files;
      if ok {
        dirs := dirs + {d};
      }
    }

    /** `shutil.move(src, dst)` of a regular file. */
    method Move(src: string, dst: string) returns (ok: bool, target: string)
      requires View().Valid()
      modifies this`files
      ensures View().Valid()
      ensures target == MoveTarget(old(View()), src, dst)
      ensures ok == CanMove(old(View()), src, dst)
      ensures View() == if ok then Moved(old(View()), src, dst) else old(View())
    {
      target := MoveTarget(View(), src, dst);
      ok := CanMove(View(), src, dst);
      if ok {
        var content := files[src];
        files := (files - {src})[target := content];
      }
    }

    /** `shutil.copy(src, dst)` of a regular file (into `dst` when it is a directory);
        copying a file onto itself is an error. */
    method Copy(src: string, dst: string) returns (ok: bool, target: string)
      requires View().Valid()
      modifies this`files
      ensures View().Valid()
      ensures target == MoveTarget(old(View()), src, dst)
      ensures ok == (src in old(files) && target !in old(dirs) && src != target)
      ensures ok ==> files == old(files)[target := old(files[src])]
      ensures !ok ==> files == old(files)
    {
      target := MoveTarget(View(), src, dst);
      ok := src in files && target !in dirs && src != target;
      if ok {
        files := files[target := files[src]];
      }
    }

    /** `open(p, "w").write(content)` */
    method WriteFile(p: string, content: string) returns (ok: bool)
      requires View().Valid()
      modifies this`files
      ensures View().Valid()
      ensures ok == (p !in old(dirs))
      ensures files == if ok then old(files)[p := content] else old(files)
    {
      ok := p !in dirs;
      if ok {
        files := files[p := content];
      }
    }

    /** `os.remove(p)` */
    method Remove(p: string) returns (ok: bool)
      requires View().Valid()
      modifies this`files
      ensures View().Valid()
      ensures ok == (p in old(files))
      ensures files == old(files) - {p}
    {
      ok := p in files;
      files := files - {p};
    }

    /** A call into code outside the model leaves the filesystem as `after`. */
    method Become(after: Fs)
      requires after.Valid()
      modifies this
      ensures View() == after
    {
      files, dirs := after.files, after.dirs;
    }

    /** `shutil.rmtree(d, ignore_errors=True)` */
    method RemoveTree(d: string)
      requires View().Valid()
      modifies this
      ensures View().Valid()
      ensures View() == WithoutTree(old(View()), d)
    {
      var after := WithoutTree(View(), d);
      files, dirs := after.files, after.dirs;
    }
  }
}
