/** The main results about backup and restore. */
module RestoreTheorems {
  import opened Wrappers
  import opened FileTrees
  import opened Regions
  import opened BackupRestore
  import opened BackupArchive
  import opened RestoreInverts
  import opened RoundTrip

  /** A disk to restore to: its places do not overlap, and nothing of an earlier extraction is left.
      There may be `.bak`s of earlier restores. */
  ghost predicate Site(t: Tree, tmp: Path, s: Settings) {
    && s.custom != [] && s.repos != []
    && Separate(Roots(tmp + [ArchiveRoot], s), s.data)
    && tmp in t && Ready(t, tmp + [ArchiveRoot], s)
  }

  /** A site on which no old `.bak` is in the way, whatever the archive holds. */
  ghost predicate Target(t: Tree, tmp: Path, s: Settings) {
    && Site(t, tmp, s)
    && CustomFree(t, s) && !Blocked(t, s.data + [Attachments]) && !Blocked(t, s.data + [Avatars])
  }

  /** On a well-formed disk it is enough to look at single paths. */
  lemma TargetByLooking(t: Tree, tmp: Path, s: Settings)
    requires s.custom != [] && s.repos != []
    requires WellFormed(t) && Separate(Roots(tmp + [ArchiveRoot], s), s.data)
    requires tmp in t && DirsAbove(t, s.data) && tmp + [ArchiveRoot] !in t
    ensures Site(t, tmp, s)
    ensures CustomFree(t, s) && !Blocked(t, s.data + [Attachments]) && !Blocked(t, s.data + [Avatars]) ==> Target(t, tmp, s)
  {
    MissingIsAbsent(t, tmp + [ArchiveRoot]);
  }

  /** The restoring version is not lower than the archive's. */
  predicate VersionAllowed(appVer: string, ver: string, older: set<(string, string)>) {
    (appVer, if ver == "" then "999.0" else ver) !in older
  }

  // ---- The database ----------------------------------------------------------------------------------------

  lemma ImportUndoesDump(t: Tree, place: Path, db: Tree)
    requires SameAt(t, place, db, [])
    ensures Copy(map[], [], t, place) == db
  {
    var imported := Copy(map[], [], t, place);
    forall x: Path
      ensures Lookup(imported, x) == Lookup(db, x)
    {
      CopyLookup(map[], [], t, place, x);
      assert x[0..] == x;
      assert place + x == Below(place, x) && x == Below([], x);
      assert Lookup(t, Below(place, x)) == Lookup(db, Below([], x));
    }
    SameLookups(imported, db);
  }

  lemma SameLookups(t: Tree, u: Tree)
    requires forall x: Path :: Lookup(t, x) == Lookup(u, x)
    ensures t == u
  {
    forall x: Path
      ensures x in t <==> x in u
    {
      assert Lookup(t, x) == Lookup(u, x);
    }
    forall x | x in t
      ensures t[x] == u[x]
    {
      assert Lookup(t, x) == Lookup(u, x);
    }
  }

  // ---- Which archives are accepted -----------------------------------------------------------------------

  lemma AcceptableIff(t: Tree, work: Path, configSet: bool, appVer: string, older: set<(string, string)>,
                      tree: Tree, dir: Path, ver: string)
    requires Lookup(t, work + [Metadata]) == Some(File(ver)) && SameAt(t, work + [Custom], tree, dir)
    ensures Acceptable(t, work, configSet, appVer, older)
            <==> VersionAllowed(appVer, ver, older) && (configSet || dir + [Conf, AppIni] in tree)
  {
    SameAtBelow(t, work + [Custom], tree, dir, [Conf, AppIni]);
    SameAtRoot(t, work + [Custom] + [Conf, AppIni], tree, dir + [Conf, AppIni]);
    assert work + [Custom] + [Conf, AppIni] == work + [Custom, Conf, AppIni];
  }

  /** The configuration is given by a flag, or the archive brings it along. */
  predicate Configured(a: Tree, configSet: bool) {
    configSet || [ArchiveRoot] + [Custom, Conf, AppIni] in a
  }

  /** Whether an archive is accepted can be seen in the archive itself. */
  lemma AcceptableInArchive(a: Tree, t: Tree, work: Path, configSet: bool, appVer: string, older: set<(string, string)>, ver: string)
    requires SameAt(t, work, a, [ArchiveRoot]) && Lookup(a, [ArchiveRoot] + [Metadata]) == Some(File(ver))
    ensures Acceptable(t, work, configSet, appVer, older) <==> VersionAllowed(appVer, ver, older) && Configured(a, configSet)
  {
    SameAtBelow(t, work, a, [ArchiveRoot], [Metadata]);
    SameAtRoot(t, work + [Metadata], a, [ArchiveRoot] + [Metadata]);
    SameAtBelow(t, work, a, [ArchiveRoot], [Custom, Conf, AppIni]);
    SameAtRoot(t, work + [Custom, Conf, AppIni], a, [ArchiveRoot] + [Custom, Conf, AppIni]);
  }

  /** A refused archive is left behind extracted; the database and the rest of the disk are as
      they were. */
  lemma RefusedRestore(a: Tree, ver: string, t: Tree, db: Tree, s: Settings, g: Flags, configSet: bool, tmp: Path, work: Path,
                       appVer: string, older: set<(string, string)>)
    requires AllUnderRoot(a) && Lookup(a, [ArchiveRoot] + [Metadata]) == Some(File(ver))
    requires s.custom != [] && s.repos != [] && tmp in t && work == tmp + [ArchiveRoot] && Absent(t, work)
    requires !VersionAllowed(appVer, ver, older) || !Configured(a, configSet)
    ensures
      var after := Restore(t, db, s, g, configSet, tmp, a, appVer, older);
      !after.ok && after.db == db && Within(t, after.tree, [work])
  {
    ExtractPlaces(t, tmp, a);
    AcceptableInArchive(a, Extract(t, tmp, a).value, work, configSet, appVer, older, ver);
  }

  /** So is an archive without metadata; and without the temporary directory nothing is even
      extracted. */
  lemma UnreadableIsRefused(a: Tree, t: Tree, db: Tree, s: Settings, g: Flags, configSet: bool, tmp: Path, work: Path,
                            appVer: string, older: set<(string, string)>)
    requires s.custom != [] && s.repos != [] && work == tmp + [ArchiveRoot] && AllUnderRoot(a) && Absent(t, work)
    ensures
      var after := Restore(t, db, s, g, configSet, tmp, a, appVer, older);
      && (tmp !in t ==> after == Restored(t, db, false))
      && ([ArchiveRoot] + [Metadata] !in a ==> !after.ok && after.db == db && Within(t, after.tree, [work]))
  {
    ExtractPlaces(t, tmp, a);
    var t1 := Extract(t, tmp, a).value;
    SameAtBelow(t1, work, a, [ArchiveRoot], [Metadata]);
    SameAtRoot(t1, work + [Metadata], a, [ArchiveRoot] + [Metadata]);
  }

  // ---- Restore inverts backup --------------------------------------------------------------------------------

  lemma TheRoots(work: Path, s: Settings)
    requires s.custom != [] && Separate(Roots(work, s), s.data)
    ensures RootsAre(Roots(work, s), work, s)
  {
  }

  /** The extraction of a backup starts a course of restoring it. */
  lemma ExtractionStarts(t: Tree, t1: Tree, l: seq<Path>, s: Settings, skip: bool, tree: Tree, db: Tree,
                         from: Settings, exclude: bool, ver: string) returns (c: seq<Tree>)
    requires s.custom != [] && s.repos != [] && from.repos != []
    requires |l| == 8 && RootsAre(l, l[0], s) && Ready(t, l[0], s)
    requires s.repos[|s.repos| - 1] == from.repos[|from.repos| - 1] && IsDir(tree, from.custom)
    requires Within(t, t1, [l[0]]) && Holds(t1, l[0], tree, db, from, PackedPart(tree, from.repos, exclude), ver)
    ensures |c| == 8 && c[0] == t && c[1] == t1 && Restoring(c, l, s, skip, tree, from, exclude)
  {
    c := CourseOf(t, t1, l, s, skip);
    assert StepOk(c, l, s.data, 1);
    assert l[0] + Part(4) == l[0] + [Data, Attachments];
  }

  /** What every restore of a backup of `tree` does to the trees it replaces, however it ends. */
  ghost predicate TreesRestored(t: Tree, u: Tree, s: Settings, tree: Tree, from: Settings)
    requires s.custom != []
  {
    && Replaced(t, u, s.custom, tree, from.custom)
    && DataDirRestored(t, u, s.data + [Attachments], tree, from.data + [Attachments])
    && DataDirRestored(t, u, s.data + [Avatars], tree, from.data + [Avatars])
  }

  /** Restoring a backup succeeds unless a repository meets a file where it needs a directory, or
      the reverse. The database, the custom directory and the data directories are those backed up;
      what they replaced survives as `.bak`; a data directory that was not backed up is left
      alone. The repositories are overlaid, and so equal those backed up exactly when there were
      no others. Nothing else changes. */
  lemma RestoreInvertsBackup(tree: Tree, db: Tree, from: Settings, exclude: bool, ver: string, t: Tree, db': Tree,
                             s: Settings, skip: bool, configSet: bool, tmp: Path, appVer: string,
                             older: set<(string, string)>)
    requires from.repos != [] && IsDir(tree, from.custom) && (exclude || from.repos in tree)
    requires Target(t, tmp, s) && s.repos[|s.repos| - 1] == from.repos[|from.repos| - 1]
    requires VersionAllowed(appVer, ver, older) && (configSet || from.custom + [Conf, AppIni] in tree)
    ensures Backup(tree, db, from, Flags(false, exclude), ver).Ok?
    ensures
      var archive := Backup(tree, db, from, Flags(false, exclude), ver).value;
      var after := Restore(t, db', s, Flags(false, skip), configSet, tmp, archive, appVer, older);
      && after.db == db
      && TreesRestored(t, after.tree, s, tree, from)
      && OnlyDirsAdded(t, after.tree, Roots(tmp + [ArchiveRoot], s), s.data)
      && (after.ok <==> skip || exclude || Compatible(t, s.repos, tree, from.repos))
      && (after.ok ==> Absent(after.tree, tmp + [ArchiveRoot]))
      && (!after.ok ==> Lookup(after.tree, tmp + [ArchiveRoot] + [Metadata]) == Some(File(ver)))
      && (skip || exclude ==> SameAt(after.tree, s.repos, t, s.repos))
      && (after.ok && !skip && !exclude ==>
            && Overlaid(t, after.tree, s.repos, tree, from.repos)
            && (SameAt(after.tree, s.repos, tree, from.repos) <==> NoStrangers(t, s.repos, tree, from.repos)))
  {
    var work := tmp + [ArchiveRoot];
    BackupIsFull(tree, db, from, exclude, ver);
    var archive := Backup(tree, db, from, Flags(false, exclude), ver).value;
    ExtractPlaces(t, tmp, archive);
    var t1 := Extract(t, tmp, archive).value;
    HoldsMoves(archive, [ArchiveRoot], t1, work, tree, db, from, PackedPart(tree, from.repos, exclude), ver);
    TheRoots(work, s);
    var l := Roots(work, s);
    var c := ExtractionStarts(t, t1, l, s, skip, tree, db, from, exclude, ver);
    AcceptableIff(t1, work, configSet, appVer, older, tree, from.custom, ver);
    ImportUndoesDump(t1, work + [Db], db);
    CourseRestores(c, l, s, skip, tree, from, exclude);
  }

  lemma CourseRestores(c: seq<Tree>, l: seq<Path>, s: Settings, skip: bool, tree: Tree, from: Settings, exclude: bool)
    requires s.custom != [] && s.repos != [] && from.repos != []
    requires Restoring(c, l, s, skip, tree, from, exclude) && Unhindered(c[0], s, tree, from)
    ensures
      var after := RestoreFiles(c[1], l[0], s, Flags(false, skip));
      && TreesRestored(c[0], after.tree, s, tree, from)
      && OnlyDirsAdded(c[0], after.tree, l, s.data)
      && (after.ok <==> skip || exclude || Compatible(c[0], s.repos, tree, from.repos))
      && (after.ok ==> Absent(after.tree, l[0]))
      && (!after.ok ==> Lookup(after.tree, l[0] + [Metadata]) == Lookup(c[1], l[0] + [Metadata]))
      && (skip || exclude ==> SameAt(after.tree, s.repos, c[0], s.repos))
      && (after.ok && !skip && !exclude ==>
            && Overlaid(c[0], after.tree, s.repos, tree, from.repos)
            && (SameAt(after.tree, s.repos, tree, from.repos) <==> NoStrangers(c[0], s.repos, tree, from.repos)))
  {
    StepsTwoToThree(c, l, s, skip, tree, from, exclude);
    StepFour(c, l, s, skip, tree, from, exclude);
    StepFive(c, l, s, skip, tree, from, exclude);
    StepSeven(c, l, s, skip, tree, from, exclude);
    FilesFollowCourse(c, l, s, skip);
    EverythingStays(c, l, s, skip, tree, from, exclude);
    RepositoriesStay(c, l, s, skip, tree, from, exclude);
    NothingElse(c, l, s.data);
    MetadataKept(c, l, s.data, 6);
    if Overlaid(c[0], c[7], l[7], tree, from.repos) {
      OverlaidIsSameIff(c[0], c[7], l[7], tree, from.repos);
    }
  }

  // ---- Old `.bak`s -------------------------------------------------------------------------------------------

  /** How a restore ends that an old `.bak` stops. What its steps before have replaced stays
      replaced; the place that it stops at and those after it are exactly as they were, their
      `.bak`s included; and the extracted archive is left behind. */
  ghost predicate StoppedAtBak(t: Tree, after: Stage, work: Path, s: Settings, tree: Tree, from: Settings, ver: string)
    requires s.custom != []
  {
    var attachments, avatars := s.data + [Attachments], s.data + [Avatars];
    && !after.ok
    && Lookup(after.tree, work + [Metadata]) == Some(File(ver))
    && SameAt(after.tree, s.repos, t, s.repos) && Untouched(t, after.tree, avatars)
    && (if CustomFree(t, s) then Replaced(t, after.tree, s.custom, tree, from.custom) else Within(t, after.tree, [work]))
    && (if AttachmentsHindered(t, s, tree, from) || !CustomFree(t, s) then Untouched(t, after.tree, attachments)
        else DataDirRestored(t, after.tree, attachments, tree, from.data + [Attachments]))
  }

  lemma CourseStops(c: seq<Tree>, l: seq<Path>, s: Settings, skip: bool, tree: Tree, from: Settings, exclude: bool, ver: string)
    requires s.custom != [] && s.repos != [] && from.repos != []
    requires Restoring(c, l, s, skip, tree, from, exclude) && !Unhindered(c[0], s, tree, from)
    requires Lookup(c[1], l[0] + [Metadata]) == Some(File(ver))
    ensures StoppedAtBak(c[0], RestoreFiles(c[1], l[0], s, Flags(false, skip)), l[0], s, tree, from, ver)
  {
    if !CustomFree(c[0], s) {
      StopsFirst(c, l, s, skip, tree, from, exclude);
    } else if AttachmentsHindered(c[0], s, tree, from) {
      StopsAtAttachments(c, l, s, skip, tree, from, exclude);
    } else {
      StopsAtAvatars(c, l, s, skip, tree, from, exclude);
    }
  }

  /** At the custom directory. */
  lemma StopsFirst(c: seq<Tree>, l: seq<Path>, s: Settings, skip: bool, tree: Tree, from: Settings, exclude: bool)
    requires s.custom != [] && s.repos != [] && from.repos != []
    requires Restoring(c, l, s, skip, tree, from, exclude) && !CustomFree(c[0], s)
    ensures RestoreFiles(c[1], l[0], s, Flags(false, skip)) == Stage(c[1], false)
    ensures SameAt(c[1], s.repos, c[0], s.repos)
    ensures Untouched(c[0], c[1], s.data + [Attachments]) && Untouched(c[0], c[1], s.data + [Avatars])
    ensures Within(c[0], c[1], [l[0]])
  {
    CustomPhaseBlocked(c, l, s.data);
    FilesEnd(c[1], l[0], s, skip, Stage(c[1], false), RestoreDataDir(MkdirAll(c[1], s.data), l[0], s.data, Attachments));
    NotReached(c, l, s, 1);
  }

  /** At the attachments. */
  lemma StopsAtAttachments(c: seq<Tree>, l: seq<Path>, s: Settings, skip: bool, tree: Tree, from: Settings, exclude: bool)
    requires s.custom != [] && s.repos != [] && from.repos != []
    requires Restoring(c, l, s, skip, tree, from, exclude) && CustomFree(c[0], s) && AttachmentsHindered(c[0], s, tree, from)
    ensures RestoreFiles(c[1], l[0], s, Flags(false, skip)) == Stage(c[3], false)
    ensures Lookup(c[3], l[0] + [Metadata]) == Lookup(c[1], l[0] + [Metadata])
    ensures SameAt(c[3], s.repos, c[0], s.repos) && Replaced(c[0], c[3], s.custom, tree, from.custom)
    ensures Untouched(c[0], c[3], s.data + [Attachments]) && Untouched(c[0], c[3], s.data + [Avatars])
  {
    StepsTwoToThree(c, l, s, skip, tree, from, exclude);
    DirPhase(c, l, s.data, 4, 3, Attachments, tree, from.data + [Attachments]);
    FilesEnd(c[1], l[0], s, skip, Replace(c[1], l[0] + [Custom], l[1]), Stage(c[3], false));
    CustomStays(c, l, s, 3, tree, from);
    NotReached(c, l, s, 3);
  }

  /** The restore of files ends where a step fails. */
  lemma FilesEnd(t: Tree, work: Path, s: Settings, skip: bool, custom: Stage, first: Stage)
    requires s.custom != [] && s.repos != []
    requires custom == Replace(t, work + [Custom], s.custom)
    requires first == RestoreDataDir(MkdirAll(custom.tree, s.data), work, s.data, Attachments)
    ensures !custom.ok ==> RestoreFiles(t, work, s, Flags(false, skip)) == custom
    ensures custom.ok && !first.ok ==> RestoreFiles(t, work, s, Flags(false, skip)) == first
  {
    BothDirs(MkdirAll(custom.tree, s.data), work, s.data);
  }

  /** At the avatars. */
  lemma StopsAtAvatars(c: seq<Tree>, l: seq<Path>, s: Settings, skip: bool, tree: Tree, from: Settings, exclude: bool)
    requires s.custom != [] && s.repos != [] && from.repos != []
    requires Restoring(c, l, s, skip, tree, from, exclude) && CustomFree(c[0], s)
    requires !AttachmentsHindered(c[0], s, tree, from) && AvatarsHindered(c[0], s, tree, from)
    ensures RestoreFiles(c[1], l[0], s, Flags(false, skip)) == Stage(c[4], false)
    ensures Lookup(c[4], l[0] + [Metadata]) == Lookup(c[1], l[0] + [Metadata])
    ensures SameAt(c[4], s.repos, c[0], s.repos) && Replaced(c[0], c[4], s.custom, tree, from.custom)
    ensures DataDirRestored(c[0], c[4], s.data + [Attachments], tree, from.data + [Attachments])
    ensures Untouched(c[0], c[4], s.data + [Avatars])
  {
    StepsTwoToThree(c, l, s, skip, tree, from, exclude);
    StepFour(c, l, s, skip, tree, from, exclude);
    DirPhase(c, l, s.data, 5, 5, Avatars, tree, from.data + [Avatars]);
    BothDirs(c[3], l[0], s.data);
    CustomStays(c, l, s, 4, tree, from);
    NotReached(c, l, s, 4);
  }

  /** What the first `j` steps leave alone. */
  lemma NotReached(c: seq<Tree>, l: seq<Path>, s: Settings, j: nat)
    requires s.custom != [] && |c| == 8 && |l| == 8 && RootsAre(l, l[0], s) && 1 <= j <= 4 && StepsOk(c, l, s.data, j)
    ensures Lookup(c[j], l[0] + [Metadata]) == Lookup(c[1], l[0] + [Metadata])
    ensures SameAt(c[j], s.repos, c[0], s.repos) && Untouched(c[0], c[j], s.data + [Avatars])
    ensures j <= 3 ==> Untouched(c[0], c[j], s.data + [Attachments])
  {
    MetadataKept(c, l, s.data, j);
    RootKept(c, l, s.data, 7, 0, j);
    PairKept(c, l, s.data, 5, 0, j);
    if j <= 3 {
      PairKept(c, l, s.data, 3, 0, j);
    }
  }

  lemma CustomStays(c: seq<Tree>, l: seq<Path>, s: Settings, j: nat, tree: Tree, from: Settings)
    requires s.custom != [] && |c| == 8 && |l| == 8 && RootsAre(l, l[0], s) && 2 <= j < 8 && StepsOk(c, l, s.data, j)
    requires Replaced(c[0], c[2], s.custom, tree, from.custom)
    ensures Replaced(c[0], c[j], s.custom, tree, from.custom)
  {
    PairKept(c, l, s.data, 1, 2, j);
    UntouchedRefl(c[0], l[1]);
    ReplacedStays(c[0], c[0], c[2], c[j], l[1], tree, from.custom);
  }

  /** When restoring succeeds, whatever is on the disk: exactly when the custom directory has a
      directory to stand in, no old `.bak` is in the way of a tree that is to be replaced, and no
      file meets a directory among the repositories. An old `.bak` stops the restore after the
      database has been imported and before its place is touched. */
  lemma RestoreSucceedsIff(tree: Tree, db: Tree, from: Settings, exclude: bool, ver: string, t: Tree, db': Tree, s: Settings,
                           skip: bool, configSet: bool, tmp: Path, appVer: string, older: set<(string, string)>)
    requires from.repos != [] && IsDir(tree, from.custom) && (exclude || from.repos in tree)
    requires Site(t, tmp, s) && s.repos[|s.repos| - 1] == from.repos[|from.repos| - 1]
    requires VersionAllowed(appVer, ver, older) && (configSet || from.custom + [Conf, AppIni] in tree)
    ensures Backup(tree, db, from, Flags(false, exclude), ver).Ok?
    ensures
      var archive := Backup(tree, db, from, Flags(false, exclude), ver).value;
      var after := Restore(t, db', s, Flags(false, skip), configSet, tmp, archive, appVer, older);
      && after.db == db
      && (after.ok <==> Unhindered(t, s, tree, from) && (skip || exclude || Compatible(t, s.repos, tree, from.repos)))
      && (Unhindered(t, s, tree, from) ==> TreesRestored(t, after.tree, s, tree, from))
      && (!Unhindered(t, s, tree, from) ==>
            StoppedAtBak(t, Stage(after.tree, after.ok), tmp + [ArchiveRoot], s, tree, from, ver))
  {
    var work := tmp + [ArchiveRoot];
    BackupIsFull(tree, db, from, exclude, ver);
    var archive := Backup(tree, db, from, Flags(false, exclude), ver).value;
    ExtractPlaces(t, tmp, archive);
    var t1 := Extract(t, tmp, archive).value;
    HoldsMoves(archive, [ArchiveRoot], t1, work, tree, db, from, PackedPart(tree, from.repos, exclude), ver);
    TheRoots(work, s);
    var l := Roots(work, s);
    var c := ExtractionStarts(t, t1, l, s, skip, tree, db, from, exclude, ver);
    AcceptableIff(t1, work, configSet, appVer, older, tree, from.custom, ver);
    ImportUndoesDump(t1, work + [Db], db);
    if Unhindered(t, s, tree, from) {
      CourseRestores(c, l, s, skip, tree, from, exclude);
    } else {
      CourseStops(c, l, s, skip, tree, from, exclude, ver);
    }
  }

  /** So a second restore of the same backup fails, unless the first one had nothing to replace. */
  lemma SecondRestoreFails(tree: Tree, db: Tree, from: Settings, exclude: bool, ver: string, t: Tree, db': Tree, s: Settings,
                           skip: bool, configSet: bool, tmp: Path, appVer: string, older: set<(string, string)>)
    requires from.repos != [] && IsDir(tree, from.custom) && (exclude || from.repos in tree)
    requires Site(t, tmp, s) && s.repos[|s.repos| - 1] == from.repos[|from.repos| - 1]
    requires VersionAllowed(appVer, ver, older) && (configSet || from.custom + [Conf, AppIni] in tree)
    requires IsDir(t, s.custom) && BakOf(s.custom) in t
    ensures
      var archive := Backup(tree, db, from, Flags(false, exclude), ver).value;
      var after := Restore(t, db', s, Flags(false, skip), configSet, tmp, archive, appVer, older);
      && !after.ok && after.db == db
      && Within(t, after.tree, [tmp + [ArchiveRoot]])
      && Untouched(t, after.tree, s.custom)
  {
    RestoreSucceedsIff(tree, db, from, exclude, ver, t, db', s, skip, configSet, tmp, appVer, older);
    var after := Restore(t, db', s, Flags(false, skip), configSet, tmp, Backup(tree, db, from, Flags(false, exclude), ver).value, appVer, older);
    CustomOutsideWork(t, after.tree, tmp + [ArchiveRoot], s);
  }

  lemma CustomOutsideWork(t: Tree, u: Tree, work: Path, s: Settings)
    requires s.custom != [] && Separate(Roots(work, s), s.data) && Within(t, u, [work])
    ensures Untouched(t, u, s.custom)
  {
    var l := Roots(work, s);
    assert Apart(l[0], l[1]) && Apart(l[0], l[2]);
    RegionKept(t, u, [work], s.custom);
    RegionKept(t, u, [work], BakOf(s.custom));
  }

  // ---- The custom directory has no skip ------------------------------------------------------------------

  /** An archive without a custom directory is not skipped over: unless only the database is asked
      for, restoring it fails. With `--config` it fails after the database has been replaced and
      the custom directory has been moved to its `.bak`; without, before either. */
  lemma CustomIsNotSkipped(tree: Tree, db: Tree, from: Settings, exclude: bool, ver: string, t: Tree, db': Tree, s: Settings,
                           skip: bool, configSet: bool, tmp: Path, appVer: string, older: set<(string, string)>)
    requires from.repos != [] && Target(t, tmp, s) && VersionAllowed(appVer, ver, older)
    ensures Backup(tree, db, from, Flags(true, exclude), ver).Ok?
    ensures
      var archive := Backup(tree, db, from, Flags(true, exclude), ver).value;
      var after := Restore(t, db', s, Flags(false, skip), configSet, tmp, archive, appVer, older);
      && !after.ok
      && (!configSet ==> after.db == db' && Within(t, after.tree, [tmp + [ArchiveRoot]]))
      && (configSet ==> after.db == db)
      && (configSet && s.custom in t ==> Absent(after.tree, s.custom) && SameAt(after.tree, BakOf(s.custom), t, s.custom))
  {
    var work, archive := tmp + [ArchiveRoot], WithDatabase(ver, db);
    if configSet {
      var t1 := DatabaseExtracted(t, tmp, db, ver);
      ImportUndoesDump(t1, work + [Db], db);
      TheRoots(work, s);
      CustomFails(t, t1, Roots(work, s), s, skip);
      StopsAtCustom(t, db', s, skip, tmp, archive, t1, work, appVer, older);
    } else {
      DatabaseArchiveHolds(db, ver);
      DatabaseArchiveLacks(db, ver, Custom);
      NoConfiguration(archive);
      RefusedRestore(archive, ver, t, db', s, Flags(false, skip), false, tmp, work, appVer, older);
    }
  }

  lemma NoConfiguration(a: Tree)
    requires Absent(a, [ArchiveRoot, Custom])
    ensures !Configured(a, false)
  {
    assert [ArchiveRoot] + [Custom, Conf, AppIni] == Below([ArchiveRoot, Custom], [Conf, AppIni]);
  }

  lemma NoRepositories(a: Tree)
    requires Absent(a, [ArchiveRoot, Repositories])
    ensures [ArchiveRoot] + [Repositories] !in a
  {
    assert [ArchiveRoot] + [Repositories] == Below([ArchiveRoot, Repositories], []);
  }

  lemma StopsAtCustom(t: Tree, db: Tree, s: Settings, skip: bool, tmp: Path, archive: Tree, t1: Tree, work: Path,
                      appVer: string, older: set<(string, string)>)
    requires s.custom != [] && s.repos != [] && tmp in t && work == tmp + [ArchiveRoot] && Extract(t, tmp, archive) == Ok(t1)
    requires Acceptable(t1, work, true, appVer, older) && !Replace(t1, work + [Custom], s.custom).ok
    ensures Restore(t, db, s, Flags(false, skip), true, tmp, archive, appVer, older)
            == Restored(Replace(t1, work + [Custom], s.custom).tree, Copy(map[], [], t1, work + [Db]), false)
  {
  }

  /** The parts of the archive that matter to the database, wherever it is placed. */
  lemma DatabasePartMoves(a: Tree, t: Tree, work: Path, db: Tree, ver: string)
    requires SameAt(t, work, a, [ArchiveRoot])
    requires Lookup(a, [ArchiveRoot] + [Metadata]) == Some(File(ver)) && SameAt(a, [ArchiveRoot] + [Db], db, [])
    ensures Lookup(t, work + [Metadata]) == Some(File(ver)) && SameAt(t, work + [Db], db, [])
  {
    SameAtBelow(t, work, a, [ArchiveRoot], [Metadata]);
    SameAtRoot(t, work + [Metadata], a, [ArchiveRoot] + [Metadata]);
    SameAtBelow(t, work, a, [ArchiveRoot], [Db]);
    SameAtTransitive(t, work + [Db], a, [ArchiveRoot] + [Db], db, []);
  }

  lemma DatabaseExtracted(t: Tree, tmp: Path, db: Tree, ver: string) returns (t1: Tree)
    requires Absent(t, tmp + [ArchiveRoot])
    ensures Extract(t, tmp, WithDatabase(ver, db)) == Ok(t1)
    ensures Within(t, t1, [tmp + [ArchiveRoot]])
    ensures Lookup(t1, tmp + [ArchiveRoot] + [Metadata]) == Some(File(ver))
    ensures SameAt(t1, tmp + [ArchiveRoot] + [Db], db, []) && tmp + [ArchiveRoot] + [Custom] !in t1
  {
    var archive := WithDatabase(ver, db);
    DatabaseArchiveHolds(db, ver);
    DatabaseArchiveLacks(db, ver, Custom);
    ExtractPlaces(t, tmp, archive);
    t1 := Extract(t, tmp, archive).value;
    DatabasePartMoves(archive, t1, tmp + [ArchiveRoot], db, ver);
    CustomStaysMissing(archive, t1, tmp + [ArchiveRoot]);
  }

  lemma CustomFails(t: Tree, t1: Tree, l: seq<Path>, s: Settings, skip: bool)
    requires s.custom != [] && s.repos != [] && |l| == 8 && RootsAre(l, l[0], s) && CustomFree(t, s)
    requires Within(t, t1, [l[0]]) && l[0] + [Custom] !in t1
    ensures
      var after := Replace(t1, l[0] + [Custom], s.custom);
      !after.ok && (s.custom in t ==> Absent(after.tree, s.custom) && SameAt(after.tree, BakOf(s.custom), t, s.custom))
  {
    var c := CourseOf(t, t1, l, s, skip);
    assert StepOk(c, l, s.data, 1);
    CustomPhaseFails(c, l, s.data);
  }

  lemma DatabaseArchive(db: Tree, ver: string)
    ensures
      var a := WithDatabase(ver, db);
      && AllUnderRoot(a)
      && Lookup(a, [ArchiveRoot, Metadata]) == Some(File(ver))
      && SameAt(a, [ArchiveRoot, Db], db, [])
  {
    var base, place := Base(ver), [ArchiveRoot, Db];
    var a := Copy(base, place, db, []);
    BaseLacks(ver, place);
    CopyCopies(base, place, db, []);
    ApartAt(place, [ArchiveRoot, Metadata], 1);
    RegionKept(base, a, [place], [ArchiveRoot, Metadata]);
    SameAtRoot(a, [ArchiveRoot, Metadata], base, [ArchiveRoot, Metadata]);
  }

  /** It holds nothing else. */
  lemma DatabaseArchiveLacks(db: Tree, ver: string, n: Name)
    requires n != Metadata && n != Db
    ensures Absent(WithDatabase(ver, db), [ArchiveRoot, n])
  {
    var base, place, missing := Base(ver), [ArchiveRoot, Db], [ArchiveRoot, n];
    BaseLacks(ver, missing);
    CopyCopies(base, place, db, []);
    ApartAt(place, missing, 1);
    RegionKept(base, Copy(base, place, db, []), [place], missing);
    AbsentMoves(base, missing, Copy(base, place, db, []), missing);
  }

  lemma DatabaseArchiveHolds(db: Tree, ver: string)
    ensures
      var a := WithDatabase(ver, db);
      && AllUnderRoot(a)
      && Lookup(a, [ArchiveRoot] + [Metadata]) == Some(File(ver))
      && SameAt(a, [ArchiveRoot] + [Db], db, [])
  {
    DatabaseArchive(db, ver);
    assert [ArchiveRoot] + [Metadata] == [ArchiveRoot, Metadata] && [ArchiveRoot] + [Db] == [ArchiveRoot, Db];
  }

  lemma CustomStaysMissing(a: Tree, t: Tree, work: Path)
    requires SameAt(t, work, a, [ArchiveRoot]) && Absent(a, [ArchiveRoot, Custom])
    ensures work + [Custom] !in t
  {
    assert [ArchiveRoot] + [Custom] == [ArchiveRoot, Custom];
    SameAtBelow(t, work, a, [ArchiveRoot], [Custom]);
    SameAtRoot(t, work + [Custom], a, [ArchiveRoot] + [Custom]);
    assert Below([ArchiveRoot, Custom], []) == [ArchiveRoot, Custom];
  }

  // ---- Only the database --------------------------------------------------------------------------------

  /** Extracting an archive and removing it again leaves the disk as it was. */
  lemma ExtractionIsUndone(t: Tree, tmp: Path, work: Path, archive: Tree)
    requires work == tmp + [ArchiveRoot] && AllUnderRoot(archive) && Absent(t, work)
    ensures Extract(t, tmp, archive).Ok? && Prune(Extract(t, tmp, archive).value, work) == t
  {
    ExtractPlaces(t, tmp, archive);
    var t1 := Extract(t, tmp, archive).value;
    PruneWithin(t1, work);
    var t2 := Prune(t1, work);
    WithinThen(t, t1, t2, [work], [work]);
    forall x: Path
      ensures Lookup(t2, x) == Lookup(t, x)
    {
      if work <= x {
        assert x == Below(work, x[|work|..]);
      } else {
        assert !Under(x, [work] + [work]);
      }
    }
    SameLookups(t2, t);
  }

  /** Every backup holds the version and the database, below its root directory. */
  lemma BackupHoldsDatabase(tree: Tree, db: Tree, from: Settings, f: Flags, ver: string)
    requires from.repos != [] && Backup(tree, db, from, f, ver).Ok?
    ensures
      var a := Backup(tree, db, from, f, ver).value;
      && AllUnderRoot(a)
      && Lookup(a, [ArchiveRoot] + [Metadata]) == Some(File(ver)) && SameAt(a, [ArchiveRoot] + [Db], db, [])
  {
    if f.databaseOnly {
      DatabaseArchiveHolds(db, ver);
    } else {
      BackupIsFull(tree, db, from, f.excludeRepos, ver);
    }
  }

  /** With `--database-only`, restoring any accepted backup replaces the database and leaves every
      file of the disk exactly as it was. */
  lemma DatabaseOnlyRestore(tree: Tree, db: Tree, from: Settings, f: Flags, ver: string, t: Tree, db': Tree, s: Settings, skip: bool,
                            configSet: bool, tmp: Path, appVer: string, older: set<(string, string)>)
    requires from.repos != [] && Backup(tree, db, from, f, ver).Ok?
    requires s.custom != [] && s.repos != [] && tmp in t && Absent(t, tmp + [ArchiveRoot])
    requires VersionAllowed(appVer, ver, older) && Configured(Backup(tree, db, from, f, ver).value, configSet)
    ensures Restore(t, db', s, Flags(true, skip), configSet, tmp, Backup(tree, db, from, f, ver).value, appVer, older)
            == Restored(t, db, true)
  {
    var work, archive := tmp + [ArchiveRoot], Backup(tree, db, from, f, ver).value;
    BackupHoldsDatabase(tree, db, from, f, ver);
    DatabaseComesBack(archive, db, ver, t, db', s, skip, configSet, tmp, work, appVer, older);
  }

  lemma DatabaseComesBack(a: Tree, db: Tree, ver: string, t: Tree, db': Tree, s: Settings, skip: bool, configSet: bool, tmp: Path,
                          work: Path, appVer: string, older: set<(string, string)>)
    requires AllUnderRoot(a) && Lookup(a, [ArchiveRoot] + [Metadata]) == Some(File(ver)) && SameAt(a, [ArchiveRoot] + [Db], db, [])
    requires s.custom != [] && s.repos != [] && tmp in t && work == tmp + [ArchiveRoot] && Absent(t, work)
    requires VersionAllowed(appVer, ver, older) && Configured(a, configSet)
    ensures Restore(t, db', s, Flags(true, skip), configSet, tmp, a, appVer, older) == Restored(t, db, true)
  {
    ExtractPlaces(t, tmp, a);
    var t1 := Extract(t, tmp, a).value;
    AcceptableInArchive(a, t1, work, configSet, appVer, older, ver);
    DatabasePartMoves(a, t1, work, db, ver);
    ImportUndoesDump(t1, work + [Db], db);
    ExtractionIsUndone(t, tmp, work, a);
  }

  // ---- What the command promises about missing parts ------------------------------------------------------

  /** Every place whose files the archive lacks is as it was. */
  ghost predicate LackingKept(t: Tree, u: Tree, a: Tree, s: Settings) {
    && (Absent(a, [ArchiveRoot] + [Custom]) ==> SameAt(u, s.custom, t, s.custom))
    && (Absent(a, [ArchiveRoot] + [Data, Attachments]) ==> SameAt(u, s.data + [Attachments], t, s.data + [Attachments]))
    && (Absent(a, [ArchiveRoot] + [Data, Avatars]) ==> SameAt(u, s.data + [Avatars], t, s.data + [Avatars]))
    && ([ArchiveRoot] + [Repositories] !in a ==> SameAt(u, s.repos, t, s.repos))
  }

  /** Repositories are to be restored, and a file is in the way of a directory or the reverse. */
  ghost predicate Clash(t: Tree, a: Tree, s: Settings, g: Flags, tree: Tree, from: Settings) {
    && !g.databaseOnly && !g.excludeRepos && [ArchiveRoot] + [Repositories] in a
    && !Compatible(t, s.repos, tree, from.repos)
  }

  /** The promise of the command: what the archive lacks is skipped, so that it neither changes nor
      makes the restore fail. */
  ghost predicate LackingIsSkipped(t: Tree, after: Restored, a: Tree, s: Settings, g: Flags, tree: Tree, from: Settings) {
    LackingKept(t, after.tree, a, s) && (after.ok || Clash(t, a, s, g, tree, from))
  }

  lemma ConfiguredByTree(a: Tree, configSet: bool, tree: Tree, custom: Path)
    requires SameAt(a, [ArchiveRoot] + [Custom], tree, custom)
    ensures Configured(a, configSet) <==> configSet || custom + [Conf, AppIni] in tree
  {
    SameAtBelow(a, [ArchiveRoot] + [Custom], tree, custom, [Conf, AppIni]);
    SameAtRoot(a, [ArchiveRoot] + [Custom] + [Conf, AppIni], tree, custom + [Conf, AppIni]);
    assert [ArchiveRoot] + [Custom] + [Conf, AppIni] == [ArchiveRoot] + [Custom, Conf, AppIni];
  }

  /** A directory that was there is not absent from the archive. */
  lemma LackingWasMissing(a: Tree, place: Path, tree: Tree, dir: Path)
    requires DataDirAt(a, place, tree, dir) && Absent(a, place)
    ensures !IsDir(tree, dir)
  {
    assert Below(place, []) == place;
    if IsDir(tree, dir) {
      SameAtRoot(a, place, tree, dir);
    }
  }

  lemma FullBackupSkips(t: Tree, u: Tree, a: Tree, s: Settings, skip: bool, tree: Tree, db: Tree, from: Settings, exclude: bool,
                        ver: string)
    requires s.custom != [] && from.repos != [] && IsDir(tree, from.custom)
    requires Holds(a, [ArchiveRoot], tree, db, from, PackedPart(tree, from.repos, exclude), ver)
    requires TreesRestored(t, u, s, tree, from) && (skip || exclude ==> SameAt(u, s.repos, t, s.repos))
    ensures LackingKept(t, u, a, s)
    ensures [ArchiveRoot] + [Repositories] in a <==> !exclude
  {
    var custom := [ArchiveRoot] + [Custom];
    SameAtRoot(a, custom, tree, from.custom);
    assert Below(custom, []) == custom;
    if Absent(a, [ArchiveRoot] + [Data, Attachments]) {
      LackingWasMissing(a, [ArchiveRoot] + [Data, Attachments], tree, from.data + [Attachments]);
    }
    if Absent(a, [ArchiveRoot] + [Data, Avatars]) {
      LackingWasMissing(a, [ArchiveRoot] + [Data, Avatars], tree, from.data + [Avatars]);
    }
  }

  /** An accepted full backup keeps the promise. */
  lemma FullBackupKeepsPromise(tree: Tree, db: Tree, from: Settings, exclude: bool, ver: string, t: Tree, db': Tree, s: Settings,
                               skip: bool, configSet: bool, tmp: Path, appVer: string, older: set<(string, string)>)
    requires from.repos != [] && Backup(tree, db, from, Flags(false, exclude), ver).Ok?
    requires Target(t, tmp, s) && s.repos[|s.repos| - 1] == from.repos[|from.repos| - 1]
    requires VersionAllowed(appVer, ver, older) && Configured(Backup(tree, db, from, Flags(false, exclude), ver).value, configSet)
    ensures
      var a := Backup(tree, db, from, Flags(false, exclude), ver).value;
      var after := Restore(t, db', s, Flags(false, skip), configSet, tmp, a, appVer, older);
      after.db == db && LackingIsSkipped(t, after, a, s, Flags(false, skip), tree, from)
  {
    var a := Backup(tree, db, from, Flags(false, exclude), ver).value;
    BackupIsFull(tree, db, from, exclude, ver);
    ConfiguredByTree(a, configSet, tree, from.custom);
    RestoreInvertsBackup(tree, db, from, exclude, ver, t, db', s, skip, configSet, tmp, appVer, older);
    var after := Restore(t, db', s, Flags(false, skip), configSet, tmp, a, appVer, older);
    FullBackupSkips(t, after.tree, a, s, skip, tree, db, from, exclude, ver);
  }

  /** A database-only archive breaks it, unless only the database is asked for. */
  lemma DatabaseArchiveBreaksPromise(tree: Tree, db: Tree, from: Settings, exclude: bool, ver: string, t: Tree, db': Tree, s: Settings,
                                     skip: bool, configSet: bool, tmp: Path, appVer: string, older: set<(string, string)>)
    requires from.repos != [] && Target(t, tmp, s) && VersionAllowed(appVer, ver, older)
    requires Backup(tree, db, from, Flags(true, exclude), ver).Ok?
    requires Configured(Backup(tree, db, from, Flags(true, exclude), ver).value, configSet)
    ensures
      var a := Backup(tree, db, from, Flags(true, exclude), ver).value;
      var after := Restore(t, db', s, Flags(false, skip), configSet, tmp, a, appVer, older);
      after.db == db && !LackingIsSkipped(t, after, a, s, Flags(false, skip), tree, from)
  {
    DatabaseArchiveLacks(db, ver, Custom);
    DatabaseArchiveLacks(db, ver, Repositories);
    NoConfiguration(WithDatabase(ver, db));
    NoRepositories(WithDatabase(ver, db));
    CustomIsNotSkipped(tree, db, from, exclude, ver, t, db', s, skip, configSet, tmp, appVer, older);
  }

  /** When the command keeps its promise, for every backup and all flags. A refused archive, one of
      a later version or without a configuration where no flag gives one, changes neither the
      database nor the disk outside the work directory. With an accepted one the database is
      replaced, and what the archive lacks is skipped if and only if only the database is asked for
      or the archive holds more than the database. */
  lemma SkipsWhatIsMissingIff(tree: Tree, db: Tree, from: Settings, f: Flags, ver: string, t: Tree, db': Tree, s: Settings, g: Flags,
                              configSet: bool, tmp: Path, appVer: string, older: set<(string, string)>)
    requires from.repos != [] && Backup(tree, db, from, f, ver).Ok?
    requires Target(t, tmp, s) && s.repos[|s.repos| - 1] == from.repos[|from.repos| - 1]
    ensures
      var a := Backup(tree, db, from, f, ver).value;
      var after := Restore(t, db', s, g, configSet, tmp, a, appVer, older);
      var accepted := VersionAllowed(appVer, ver, older) && Configured(a, configSet);
      && (!accepted ==> !after.ok && after.db == db' && Within(t, after.tree, [tmp + [ArchiveRoot]]))
      && (accepted ==> after.db == db)
      && (accepted ==> (LackingIsSkipped(t, after, a, s, g, tree, from) <==> g.databaseOnly || !f.databaseOnly))
  {
    var a := Backup(tree, db, from, f, ver).value;
    BackupHoldsDatabase(tree, db, from, f, ver);
    if !(VersionAllowed(appVer, ver, older) && Configured(a, configSet)) {
      RefusedRestore(a, ver, t, db', s, g, configSet, tmp, tmp + [ArchiveRoot], appVer, older);
    } else if g.databaseOnly {
      DatabaseOnlyRestore(tree, db, from, f, ver, t, db', s, g.excludeRepos, configSet, tmp, appVer, older);
      NothingChanges(t, a, s);
    } else if !f.databaseOnly {
      FullBackupKeepsPromise(tree, db, from, f.excludeRepos, ver, t, db', s, g.excludeRepos, configSet, tmp, appVer, older);
    } else {
      DatabaseArchiveBreaksPromise(tree, db, from, f.excludeRepos, ver, t, db', s, g.excludeRepos, configSet, tmp, appVer, older);
    }
  }

  lemma NothingChanges(t: Tree, a: Tree, s: Settings)
    ensures LackingKept(t, t, a, s)
  {
  }
}
