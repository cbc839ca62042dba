/** The backup and restore commands of Gogs. */
module BackupRestore {
  import opened Wrappers
  import opened FileTrees

  /** Where an installation keeps its files. */
  datatype Settings = Settings(custom: Path, data: Path, repos: Path)

  datatype Flags = Flags(databaseOnly: bool, excludeRepos: bool)

  const DATA_DIRS := [Attachments, Avatars]

  function BakOf(p: Path): Path
    requires p != []
  {
    Parent(p) + [Bak(p[|p| - 1])]
  }

  // ---- Backup ------------------------------------------------------------------------------------

  /** The database as its dump: a tree of files that dump and import exchange. */
  function WithDatabase(appVer: string, db: Tree): Tree {
    Copy(map[[ArchiveRoot] := Dir, [ArchiveRoot, Metadata] := File(appVer)], [ArchiveRoot, Db], db, [])
  }

  function WithDataDirs(archive: Tree, tree: Tree, data: Path, dirs: seq<Name>): Tree
    decreases |dirs|
  {
    if dirs == [] then archive
    else WithDataDirs(WithDataDir(archive, tree, data, dirs[0]), tree, data, dirs[1..])
  }

  function WithDataDir(archive: Tree, tree: Tree, data: Path, dir: Name): Tree {
    if IsDir(tree, data + [dir]) then Copy(archive, [ArchiveRoot, Data, dir], tree, data + [dir]) else archive
  }

  /** `zip.PackTo` of the repository root, whose last component heads every path. */
  function PackRepositories(tree: Tree, repos: Path): Tree
    requires repos != []
  {
    Copy(map[], [repos[|repos| - 1]], tree, repos)
  }

  function Backup(tree: Tree, db: Tree, s: Settings, f: Flags, appVer: string): Result<Tree>
    requires s.repos != []
  {
    var first := WithDatabase(appVer, db);
    if f.databaseOnly then Ok(first)
    else if !IsDir(tree, s.custom) then Err
    else
      var third := WithDataDirs(Copy(first, [ArchiveRoot, Custom], tree, s.custom), tree, s.data, DATA_DIRS);
      if f.excludeRepos then Ok(third)
      else if s.repos !in tree then Err
      else Ok(third[[ArchiveRoot, Repositories] := Packed(PackRepositories(tree, s.repos))])
  }

  // ---- Restore -------------------------------------------------------------------------------------

  /** How far a step got; a fatal error leaves the files as they are at that moment. */
  datatype Stage = Stage(tree: Tree, ok: bool)

  /** Moves `place` out of the way, if there is one, and `source` into it. */
  function Replace(t: Tree, source: Path, place: Path): Stage
    requires place != []
  {
    var first := if place in t then Rename(t, place, BakOf(place)) else Ok(t);
    match first
    case Err => Stage(t, false)
    case Ok(t1) =>
      match Rename(t1, source, place)
      case Err => Stage(t1, false)
      case Ok(t2) => Stage(t2, true)
  }

  function RestoreDataDir(t: Tree, work: Path, data: Path, dir: Name): Stage {
    if IsDir(t, work + [Data, dir]) then Replace(t, work + [Data, dir], data + [dir]) else Stage(t, true)
  }

  function RestoreDataDirs(t: Tree, work: Path, data: Path, dirs: seq<Name>): Stage
    decreases |dirs|
  {
    if dirs == [] then Stage(t, true)
    else
      var first := RestoreDataDir(t, work, data, dirs[0]);
      if first.ok then RestoreDataDirs(first.tree, work, data, dirs[1..]) else first
  }

  function RestoreRepositories(t: Tree, work: Path, repos: Path, exclude: bool): Stage
    requires repos != []
  {
    var zip := work + [Repositories];
    if exclude || zip !in t then Stage(t, true)
    else if !t[zip].Packed? then Stage(t, false)
    else
      match Extract(t, Parent(repos), t[zip].entries)
      case Err => Stage(t, false)
      case Ok(t1) => Stage(t1, true)
  }

  /** The file part of a restore, after the archive has been extracted to `work` and accepted. */
  function RestoreFiles(t: Tree, work: Path, s: Settings, f: Flags): Stage
    requires s.custom != [] && s.repos != []
  {
    if f.databaseOnly then Stage(Prune(t, work), true)
    else
      var custom := Replace(t, work + [Custom], s.custom);
      if !custom.ok then custom
      else
        var data := RestoreDataDirs(MkdirAll(custom.tree, s.data), work, s.data, DATA_DIRS);
        if !data.ok then data
        else
          var repos := RestoreRepositories(data.tree, work, s.repos, f.excludeRepos);
          if repos.ok then Stage(Prune(repos.tree, work), true) else repos
  }

  /** The archive is one that this version can restore. `older` holds the pairs of versions of
      which the first is lower than the second. */
  predicate Acceptable(t: Tree, work: Path, configSet: bool, appVer: string, older: set<(string, string)>) {
    var meta := work + [Metadata];
    && meta in t && t[meta].File?
    && (appVer, if t[meta].content == "" then "999.0" else t[meta].content) !in older
    && (configSet || work + [Custom, Conf, AppIni] in t)
  }

  datatype Restored = Restored(tree: Tree, db: Tree, ok: bool)

  function Restore(tree: Tree, db: Tree, s: Settings, f: Flags, configSet: bool, tmp: Path, archive: Tree,
                   appVer: string, older: set<(string, string)>): Restored
    requires s.custom != [] && s.repos != []
  {
    var work := tmp + [ArchiveRoot];
    match if tmp in tree then Extract(tree, tmp, archive) else Err
    case Err => Restored(tree, db, false)
    case Ok(t) =>
      if !Acceptable(t, work, configSet, appVer, older) then Restored(t, db, false)
      else
        var imported := Copy(map[], [], t, work + [Db]);
        var files := RestoreFiles(t, work, s, f);
        Restored(files.tree, imported, files.ok)
  }

  // ---- The commands ----------------------------------------------------------------------------------

  /** One installation: its disk and its database. */
  class Installation {
    var tree: Tree
    var db: Tree
    const settings: Settings

    constructor (tree: Tree, db: Tree, settings: Settings)
      ensures this.tree == tree && this.db == db && this.settings == settings
    {
      this.tree, this.db, this.settings := tree, db, settings;
    }

    /** `runBackup`: adds entry after entry to the archive `z`. */
    method RunBackup(f: Flags, appVer: string) returns (archive: Result<Tree>)
      requires settings.repos != []
      ensures archive == Backup(tree, db, settings, f, appVer)
    {
      var z: Tree := map[[ArchiveRoot] := Dir, [ArchiveRoot, Metadata] := File(appVer)];
      z := Copy(z, [ArchiveRoot, Db], db, []);
      if !f.databaseOnly {
        if !IsDir(tree, settings.custom) {
          return Err;
        }
        z := Copy(z, [ArchiveRoot, Custom], tree, settings.custom);
      }
      if !f.databaseOnly {
        ghost var whole := WithDataDirs(z, tree, settings.data, DATA_DIRS);
        var dirs := DATA_DIRS;
        while dirs != []
          invariant WithDataDirs(z, tree, settings.data, dirs) == whole
          decreases |dirs|
        {
          var dirPath := settings.data + [dirs[0]];
          if IsDir(tree, dirPath) {
            z := Copy(z, [ArchiveRoot, Data, dirs[0]], tree, dirPath);
          }
          dirs := dirs[1..];
        }
      }
      if !f.excludeRepos && !f.databaseOnly {
        if settings.repos !in tree {
          return Err;
        }
        z := z[[ArchiveRoot, Repositories] := Packed(PackRepositories(tree, settings.repos))];
      }
      archive := Ok(z);
    }

    /** `os.Rename` on the disk. */
    method Move(from: Path, to: Path) returns (ok: bool)
      requires to != []
      modifies this`tree
      ensures ok == Rename(old(tree), from, to).Ok?
      ensures tree == if ok then Rename(old(tree), from, to).value else old(tree)
    {
      var moved := Rename(tree, from, to);
      if moved.Err? {
        return false;
      }
      tree := moved.value;
      ok := true;
    }

    /** Moves `place` to its `.bak` if it exists, then `source` to `place`. */
    method ReplaceBy(source: Path, place: Path) returns (ok: bool)
      requires place != []
      modifies this`tree
      ensures Stage(tree, ok) == Replace(old(tree), source, place)
    {
      if place in tree {
        ok := Move(place, BakOf(place));
        if !ok {
          return;
        }
      }
      ok := Move(source, place);
    }

    /** `runRestore`; false stands for `log.Fatal`. */
    method RunRestore(f: Flags, configSet: bool, tmp: Path, archive: Tree, appVer: string, older: set<(string, string)>)
      returns (ok: bool)
      requires settings.custom != [] && settings.repos != []
      modifies this
      ensures Restored(tree, db, ok) == Restore(old(tree), old(db), settings, f, configSet, tmp, archive, appVer, older)
    {
      var work := tmp + [ArchiveRoot];
      if tmp !in tree {
        return false;
      }
      var extracted := Extract(tree, tmp, archive);
      if extracted.Err? {
        return false;
      }
      tree := extracted.value;
      if !Acceptable(tree, work, configSet, appVer, older) {
        return false;
      }
      db := Copy(map[], [], tree, work + [Db]);
      ok := RunRestoreFiles(f, work);
    }

    method RunRestoreFiles(f: Flags, work: Path) returns (ok: bool)
      requires settings.custom != [] && settings.repos != []
      modifies this`tree
      ensures Stage(tree, ok) == RestoreFiles(old(tree), work, settings, f)
    {
      if !f.databaseOnly {
        ok := ReplaceBy(work + [Custom], settings.custom);
        if !ok {
          return;
        }
        tree := MkdirAll(tree, settings.data);
        ok := RunRestoreData(work);
        if !ok {
          return;
        }
      }
      var reposPath := work + [Repositories];
      if !f.excludeRepos && !f.databaseOnly && reposPath in tree {
        if !tree[reposPath].Packed? {
          return false;
        }
        var extracted := Extract(tree, Parent(settings.repos), tree[reposPath].entries);
        if extracted.Err? {
          return false;
        }
        tree := extracted.value;
      }
      tree := Prune(tree, work);
      ok := true;
    }

    /** The loop over the data directories. */
    method RunRestoreData(work: Path) returns (ok: bool)
      modifies this`tree
      ensures Stage(tree, ok) == RestoreDataDirs(old(tree), work, settings.data, DATA_DIRS)
    {
      ghost var whole := RestoreDataDirs(tree, work, settings.data, DATA_DIRS);
      var dirs := DATA_DIRS;
      while dirs != []
        invariant RestoreDataDirs(tree, work, settings.data, dirs) == whole
        decreases |dirs|
      {
        var srcPath := work + [Data, dirs[0]];
        if IsDir(tree, srcPath) {
          ok := ReplaceBy(srcPath, settings.data + [dirs[0]]);
          if !ok {
            return;
          }
        }
        dirs := dirs[1..];
      }
      ok := true;
    }
  }
}
