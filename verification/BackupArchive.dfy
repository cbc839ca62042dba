/** What a backup archive holds. */
module BackupArchive {
  import opened Wrappers
  import opened FileTrees
  import opened Regions
  import opened BackupRestore

  /** Either the directory's tree or, when it was not there, nothing. */
  ghost predicate DataDirAt(t: Tree, place: Path, tree: Tree, dir: Path) {
    if IsDir(tree, dir) then SameAt(t, place, tree, dir) else Absent(t, place)
  }

  /** Below `root` stands a backup of `tree` and `db`; `packed` is the packed repositories, if they
      were included. */
  ghost predicate Holds(t: Tree, root: Path, tree: Tree, db: Tree, s: Settings, packed: Option<Entry>, appVer: string) {
    && Lookup(t, root + [Metadata]) == Some(File(appVer))
    && SameAt(t, root + [Db], db, [])
    && SameAt(t, root + [Custom], tree, s.custom)
    && DataDirAt(t, root + [Data, Attachments], tree, s.data + [Attachments])
    && DataDirAt(t, root + [Data, Avatars], tree, s.data + [Avatars])
    && Lookup(t, root + [Repositories]) == packed
  }

  /** Everything stands below the archive's root directory. */
  ghost predicate AllUnderRoot(a: Tree) {
    forall x :: x in a ==> [ArchiveRoot] <= x
  }

  lemma DataDirMoves(t: Tree, place: Path, u: Tree, place': Path, tree: Tree, dir: Path)
    requires DataDirAt(t, place, tree, dir) && SameAt(u, place', t, place)
    ensures DataDirAt(u, place', tree, dir)
  {
    if IsDir(tree, dir) {
      SameAtTransitive(u, place', t, place, tree, dir);
    } else {
      AbsentMoves(t, place, u, place');
    }
  }

  /** A backup stays one wherever its tree is placed. */
  lemma HoldsMoves(t: Tree, root: Path, u: Tree, root': Path, tree: Tree, db: Tree, s: Settings,
                   packed: Option<Entry>, appVer: string)
    requires Holds(t, root, tree, db, s, packed, appVer) && SameAt(u, root', t, root)
    ensures Holds(u, root', tree, db, s, packed, appVer)
  {
    SameAtBelow(u, root', t, root, [Metadata]);
    SameAtRoot(u, root' + [Metadata], t, root + [Metadata]);
    SameAtBelow(u, root', t, root, [Repositories]);
    SameAtRoot(u, root' + [Repositories], t, root + [Repositories]);
    SameAtBelow(u, root', t, root, [Db]);
    SameAtTransitive(u, root' + [Db], t, root + [Db], db, []);
    SameAtBelow(u, root', t, root, [Custom]);
    SameAtTransitive(u, root' + [Custom], t, root + [Custom], tree, s.custom);
    SameAtBelow(u, root', t, root, [Data, Attachments]);
    DataDirMoves(t, root + [Data, Attachments], u, root' + [Data, Attachments], tree, s.data + [Attachments]);
    SameAtBelow(u, root', t, root, [Data, Avatars]);
    DataDirMoves(t, root + [Data, Avatars], u, root' + [Data, Avatars], tree, s.data + [Avatars]);
  }

  // ---- Filling one place after another -----------------------------------------------------------

  /** Step `k` fills the place `p[k]` and nothing else. */
  ghost predicate Filling(b: seq<Tree>, p: seq<Path>) {
    && |b| == |p| + 1
    && (forall k :: 0 <= k < |p| ==> StepAt(b, p, k))
    && (forall i, j :: 0 <= i < |p| && 0 <= j < |p| && i != j ==> Apart(p[i], p[j]))
  }

  ghost predicate StepAt(b: seq<Tree>, p: seq<Path>, k: nat)
    requires |b| == |p| + 1 && k < |p|
  {
    Within(b[k], b[k + 1], [p[k]])
  }

  /** The steps from `i` to `j` leave every other place alone. */
  lemma {:induction false} FillingKeeps(b: seq<Tree>, p: seq<Path>, q: Path, i: nat, j: nat)
    requires Filling(b, p) && i <= j <= |p| && forall k :: i <= k < j ==> Apart(p[k], q)
    ensures SameAt(b[j], q, b[i], q)
    decreases j - i
  {
    if i == j {
    } else {
      FillingKeeps(b, p, q, i, j - 1);
      assert StepAt(b, p, j - 1);
      RegionKept(b[j - 1], b[j], [p[j - 1]], q);
      SameAtTransitive(b[j], q, b[j - 1], q, b[i], q);
    }
  }

  /** So each place is filled once: as it was until its step, and as its step made it ever after. */
  lemma FilledOnce(b: seq<Tree>, p: seq<Path>, i: nat)
    requires Filling(b, p) && i < |p|
    ensures SameAt(b[i], p[i], b[0], p[i]) && SameAt(b[|p|], p[i], b[i + 1], p[i])
  {
    FillingKeeps(b, p, p[i], 0, i);
    FillingKeeps(b, p, p[i], i + 1, |p|);
  }

  // ---- The archive, step by step -----------------------------------------------------------------

  function Base(appVer: string): Tree {
    map[[ArchiveRoot] := Dir, [ArchiveRoot, Metadata] := File(appVer)]
  }

  /** The places that the five steps after the metadata fill. */
  ghost predicate ArchivePlaces(p: seq<Path>) {
    && |p| == 5
    && p[0] == [ArchiveRoot, Db] && p[1] == [ArchiveRoot, Custom]
    && p[2] == [ArchiveRoot, Data, Attachments] && p[3] == [ArchiveRoot, Data, Avatars]
    && p[4] == [ArchiveRoot, Repositories]
  }

  lemma PlacesAreApart(p: seq<Path>)
    requires ArchivePlaces(p)
    ensures forall i, j :: 0 <= i < 5 && 0 <= j < 5 && i != j ==> Apart(p[i], p[j])
    ensures forall i :: 0 <= i < 5 ==> Apart(p[i], [ArchiveRoot, Metadata])
  {
    forall i, j | 0 <= i < 5 && 0 <= j < 5 && i != j
      ensures Apart(p[i], p[j])
    {
      ApartAt(p[i], p[j], if i + j == 5 && 2 <= i <= 3 then 2 else 1);
    }
    forall i | 0 <= i < 5
      ensures Apart(p[i], [ArchiveRoot, Metadata])
    {
      ApartAt(p[i], [ArchiveRoot, Metadata], 1);
    }
  }

  /** The first two entries say nothing about the other places. */
  lemma BaseLacks(appVer: string, place: Path)
    requires |place| >= 2 && place[1] != Metadata
    ensures Absent(Base(appVer), place)
  {
    forall x: Path
      ensures Below(place, x) !in Base(appVer)
    {
      assert Below(place, x)[1] == place[1];
    }
  }

  lemma CopyUnderRoot(to: Tree, target: Path, from: Tree, source: Path)
    requires [ArchiveRoot] <= target && AllUnderRoot(to)
    ensures AllUnderRoot(Copy(to, target, from, source))
  {
    forall x | x in Copy(to, target, from, source)
      ensures [ArchiveRoot] <= x
    {
      CopyLookup(to, target, from, source, x);
    }
  }

  /** One copied tree. */
  ghost predicate Copied(t: Tree, u: Tree, place: Path, from: Tree, source: Path) {
    && Within(t, u, [place])
    && (Absent(t, place) ==> SameAt(u, place, from, source))
    && (AllUnderRoot(t) ==> AllUnderRoot(u))
  }

  lemma CopyCopies(t: Tree, place: Path, from: Tree, source: Path)
    requires [ArchiveRoot] <= place
    ensures Copied(t, Copy(t, place, from, source), place, from, source)
  {
    CopyWithin(t, place, from, source);
    if Absent(t, place) {
      CopyPlaces(t, place, from, source);
    }
    if AllUnderRoot(t) {
      CopyUnderRoot(t, place, from, source);
    }
  }

  /** One data directory, copied if it is there. */
  ghost predicate DataDirAdded(t: Tree, u: Tree, place: Path, tree: Tree, dir: Path) {
    && Within(t, u, [place])
    && (Absent(t, place) ==> DataDirAt(u, place, tree, dir))
    && (AllUnderRoot(t) ==> AllUnderRoot(u))
  }

  lemma WithDataDirAdds(t: Tree, tree: Tree, data: Path, d: Name)
    ensures DataDirAdded(t, WithDataDir(t, tree, data, d), [ArchiveRoot, Data, d], tree, data + [d])
  {
    if IsDir(tree, data + [d]) {
      CopyCopies(t, [ArchiveRoot, Data, d], tree, data + [d]);
    }
  }

  lemma TwoDirs(a: Tree, tree: Tree, data: Path)
    ensures WithDataDirs(a, tree, data, DATA_DIRS)
            == WithDataDir(WithDataDir(a, tree, data, Attachments), tree, data, Avatars)
  {
    assert DATA_DIRS[1..] == [Avatars] && [Avatars][1..] == [];
  }

  function WithPacked(t: Tree, place: Path, packed: Option<Entry>): Tree {
    match packed
    case None => t
    case Some(entry) => t[place := entry]
  }

  /** The archive before and after each of the five steps. */
  ghost predicate Steps(b: seq<Tree>, p: seq<Path>, tree: Tree, db: Tree, s: Settings, packed: Option<Entry>) {
    && |b| == 6 && |p| == 5
    && Copied(b[0], b[1], p[0], db, [])
    && Copied(b[1], b[2], p[1], tree, s.custom)
    && DataDirAdded(b[2], b[3], p[2], tree, s.data + [Attachments])
    && DataDirAdded(b[3], b[4], p[3], tree, s.data + [Avatars])
    && b[5] == WithPacked(b[4], p[4], packed) && Within(b[4], b[5], [p[4]])
  }

  lemma StepsFill(b: seq<Tree>, p: seq<Path>, tree: Tree, db: Tree, s: Settings, packed: Option<Entry>)
    requires Steps(b, p, tree, db, s, packed)
    requires forall i, j :: 0 <= i < 5 && 0 <= j < 5 && i != j ==> Apart(p[i], p[j])
    requires forall i :: 0 <= i < 4 ==> Absent(b[0], p[i])
    ensures Filling(b, p)
    ensures SameAt(b[5], p[0], db, []) && SameAt(b[5], p[1], tree, s.custom)
    ensures DataDirAt(b[5], p[2], tree, s.data + [Attachments]) && DataDirAt(b[5], p[3], tree, s.data + [Avatars])
  {
    forall k | 0 <= k < 5
      ensures StepAt(b, p, k)
    {
      assert k == 0 || k == 1 || k == 2 || k == 3 || k == 4;
    }
    forall i | 0 <= i < 4
      ensures Absent(b[i], p[i]) && SameAt(b[5], p[i], b[i + 1], p[i])
    {
      FilledOnce(b, p, i);
      AbsentMoves(b[0], p[i], b[i], p[i]);
    }
    SameAtTransitive(b[5], p[0], b[1], p[0], db, []);
    SameAtTransitive(b[5], p[1], b[2], p[1], tree, s.custom);
    DataDirMoves(b[3], p[2], b[5], p[2], tree, s.data + [Attachments]);
    DataDirMoves(b[4], p[3], b[5], p[3], tree, s.data + [Avatars]);
  }

  /** After the five steps each part stands in its place. */
  lemma ArchiveHolds(b: seq<Tree>, p: seq<Path>, tree: Tree, db: Tree, s: Settings, packed: Option<Entry>, appVer: string)
    requires ArchivePlaces(p) && Steps(b, p, tree, db, s, packed) && b[0] == Base(appVer)
    ensures Lookup(b[5], [ArchiveRoot, Metadata]) == Some(File(appVer)) && Lookup(b[5], p[4]) == packed
    ensures SameAt(b[5], p[0], db, []) && SameAt(b[5], p[1], tree, s.custom)
    ensures DataDirAt(b[5], p[2], tree, s.data + [Attachments]) && DataDirAt(b[5], p[3], tree, s.data + [Avatars])
    ensures AllUnderRoot(b[5])
  {
    PlacesAreApart(p);
    forall i | 0 <= i < 5
      ensures Absent(b[0], p[i])
    {
      BaseLacks(appVer, p[i]);
    }
    StepsFill(b, p, tree, db, s, packed);
    FillingKeeps(b, p, [ArchiveRoot, Metadata], 0, 5);
    FilledOnce(b, p, 4);
    SameAtRoot(b[4], p[4], b[0], p[4]);
    assert Below(p[4], []) == p[4];
    SameAtRoot(b[5], [ArchiveRoot, Metadata], b[0], [ArchiveRoot, Metadata]);
  }

  /** The archives that the backup goes through. */
  lemma BackupSteps(b: seq<Tree>, p: seq<Path>, tree: Tree, db: Tree, s: Settings, packed: Option<Entry>, appVer: string)
    requires ArchivePlaces(p) && |b| == 6
    requires b[0] == Base(appVer)
    requires b[1] == Copy(b[0], p[0], db, [])
    requires b[2] == Copy(b[1], p[1], tree, s.custom)
    requires b[3] == WithDataDir(b[2], tree, s.data, Attachments)
    requires b[4] == WithDataDir(b[3], tree, s.data, Avatars)
    requires b[5] == WithPacked(b[4], p[4], packed)
    ensures Steps(b, p, tree, db, s, packed)
  {
    CopyCopies(b[0], p[0], db, []);
    CopyCopies(b[1], p[1], tree, s.custom);
    WithDataDirAdds(b[2], tree, s.data, Attachments);
    WithDataDirAdds(b[3], tree, s.data, Avatars);
    if packed.Some? {
      UpdateWithin(b[4], p[4], packed.value);
    }
  }

  /** The packed repositories, unless they are excluded. */
  function PackedPart(tree: Tree, repos: Path, exclude: bool): Option<Entry>
    requires repos != []
  {
    if exclude then None else Some(Packed(PackRepositories(tree, repos)))
  }

  /** A backup of more than the database succeeds exactly when there is a custom directory and,
      unless excluded, a repository root; its archive holds everything below its root directory. */
  lemma BackupIsFull(tree: Tree, db: Tree, s: Settings, exclude: bool, appVer: string)
    requires s.repos != []
    ensures
      var a := Backup(tree, db, s, Flags(false, exclude), appVer);
      && (a.Ok? <==> IsDir(tree, s.custom) && (exclude || s.repos in tree))
      && (a.Ok? ==>
            && AllUnderRoot(a.value)
            && Holds(a.value, [ArchiveRoot], tree, db, s, PackedPart(tree, s.repos, exclude), appVer))
  {
    var packed := PackedPart(tree, s.repos, exclude);
    var b, p := BackupGoesThrough(tree, db, s, packed, appVer);
    TwoDirs(b[2], tree, s.data);
    BackupSteps(b, p, tree, db, s, packed, appVer);
    ArchiveHolds(b, p, tree, db, s, packed, appVer);
    HoldsInPlaces(b[5], p, tree, db, s, packed, appVer);
  }

  lemma Six(b0: Tree, b1: Tree, b2: Tree, b3: Tree, b4: Tree, b5: Tree) returns (b: seq<Tree>)
    ensures |b| == 6 && b[0] == b0 && b[1] == b1 && b[2] == b2 && b[3] == b3 && b[4] == b4 && b[5] == b5
  {
    b := [b0, b1, b2, b3, b4, b5];
  }

  lemma ThePlaces() returns (p: seq<Path>)
    ensures ArchivePlaces(p)
  {
    p := [[ArchiveRoot, Db], [ArchiveRoot, Custom], [ArchiveRoot, Data, Attachments], [ArchiveRoot, Data, Avatars], [ArchiveRoot, Repositories]];
  }

  lemma BackupGoesThrough(tree: Tree, db: Tree, s: Settings, packed: Option<Entry>, appVer: string) returns (b: seq<Tree>, p: seq<Path>)
    ensures ArchivePlaces(p) && |b| == 6
    ensures b[0] == Base(appVer)
    ensures b[1] == Copy(b[0], p[0], db, []) == WithDatabase(appVer, db)
    ensures b[2] == Copy(b[1], p[1], tree, s.custom)
    ensures b[3] == WithDataDir(b[2], tree, s.data, Attachments)
    ensures b[4] == WithDataDir(b[3], tree, s.data, Avatars)
    ensures b[5] == WithPacked(b[4], p[4], packed)
  {
    p := ThePlaces();
    var b0 := Base(appVer);
    var b1 := Copy(b0, p[0], db, []);
    var b2 := Copy(b1, p[1], tree, s.custom);
    var b3 := WithDataDir(b2, tree, s.data, Attachments);
    var b4 := WithDataDir(b3, tree, s.data, Avatars);
    b := Six(b0, b1, b2, b3, b4, WithPacked(b4, p[4], packed));
  }

  lemma HoldsInPlaces(a: Tree, p: seq<Path>, tree: Tree, db: Tree, s: Settings, packed: Option<Entry>, appVer: string)
    requires ArchivePlaces(p)
    requires Lookup(a, [ArchiveRoot, Metadata]) == Some(File(appVer))
    requires Lookup(a, p[4]) == packed
    requires SameAt(a, p[0], db, []) && SameAt(a, p[1], tree, s.custom)
    requires DataDirAt(a, p[2], tree, s.data + [Attachments]) && DataDirAt(a, p[3], tree, s.data + [Avatars])
    ensures Holds(a, [ArchiveRoot], tree, db, s, packed, appVer)
  {
    assert [ArchiveRoot] + [Metadata] == [ArchiveRoot, Metadata];
    assert [ArchiveRoot] + [Db] == p[0] && [ArchiveRoot] + [Custom] == p[1];
    assert [ArchiveRoot] + [Data, Attachments] == p[2] && [ArchiveRoot] + [Data, Avatars] == p[3];
    assert [ArchiveRoot] + [Repositories] == p[4];
  }
}
