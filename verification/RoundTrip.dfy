/** Restore inverts backup, step by step and as a whole. */
module RoundTrip {
  import opened Wrappers
  import opened FileTrees
  import opened Regions
  import opened BackupRestore
  import opened BackupArchive
  import opened RestoreInverts

  // ---- The places of a restore -------------------------------------------------------------------------

  /** The eight places that a restore may change. */
  function Roots(work: Path, s: Settings): seq<Path>
    requires s.custom != []
  {
    [work, s.custom, BakOf(s.custom), s.data + [Attachments], BakOf(s.data + [Attachments]),
     s.data + [Avatars], BakOf(s.data + [Avatars]), s.repos]
  }

  /** They do not overlap, and the data directory is in none of them. */
  predicate Separate(l: seq<Path>, data: Path) {
    && (forall i, j :: 0 <= i < |l| && 0 <= j < |l| && i != j ==> Apart(l[i], l[j]))
    && (forall i :: 0 <= i < |l| ==> !(l[i] <= data))
  }

  /** A disk on which nothing of an earlier extraction is left, and the data directory can be made. */
  ghost predicate Ready(t: Tree, work: Path, s: Settings) {
    Absent(t, work) && IsDir(t, []) && DirsAbove(t, s.data)
  }

  /** What exists of the path and its ancestors is directories. */
  ghost predicate DirsAbove(t: Tree, p: Path) {
    forall n :: 0 <= n <= |p| && p[..n] in t ==> t[p[..n]].Dir?
  }

  // ---- The seven steps and what they touch ---------------------------------------------------------------

  /** The parts of the archive: `custom` is taken away at step 2, the data directories at steps 4
      and 5, and the packed repositories are read at step 6. */
  function Part(k: nat): Path {
    if k == 2 then [Custom] else if k == 4 then [Data, Attachments] else if k == 5 then [Data, Avatars]
    else if k == 6 then [Repositories] else [Metadata]
  }

  /** Step 1 extracts the archive, 2 replaces the custom directory, 3 makes the data directory,
      4 and 5 replace its subdirectories, 6 unpacks the repositories and 7 cleans up. */
  function Touched(l: seq<Path>, k: nat): seq<Path>
    requires |l| == 8
  {
    if k == 2 then [l[0] + Part(2), l[1], l[2]]
    else if k == 4 then [l[0] + Part(4), l[3], l[4]]
    else if k == 5 then [l[0] + Part(5), l[5], l[6]]
    else if k == 6 then [l[7]]
    else [l[0]]
  }

  ghost predicate StepOk(t: seq<Tree>, l: seq<Path>, data: Path, k: nat)
    requires |l| == 8 && 1 <= k < |t|
  {
    if k == 3 then t[3] == MkdirAll(t[2], data) else Within(t[k - 1], t[k], Touched(l, k))
  }

  ghost predicate StepsOk(t: seq<Tree>, l: seq<Path>, data: Path, n: nat)
    requires |l| == 8 && n < |t|
  {
    forall k :: 1 <= k <= n ==> StepOk(t, l, data, k)
  }

  lemma OneMoreStep(t: seq<Tree>, l: seq<Path>, data: Path, n: nat)
    requires |l| == 8 && n + 1 < |t| && StepsOk(t, l, data, n) && StepOk(t, l, data, n + 1)
    ensures StepsOk(t, l, data, n + 1)
  {
  }

  ghost predicate Misses(q: Path, l: seq<Path>, data: Path, k: nat)
    requires |l| == 8
  {
    if k == 3 then !(q <= data) else Clear(q, Touched(l, k))
  }

  lemma {:induction false} KeptBetween(t: seq<Tree>, l: seq<Path>, data: Path, q: Path, i: nat, j: nat)
    requires |l| == 8 && i <= j < |t|
    requires forall k :: i < k <= j ==> StepOk(t, l, data, k) && Misses(q, l, data, k)
    ensures SameAt(t[j], q, t[i], q)
    decreases j
  {
    if i < j {
      KeptBetween(t, l, data, q, i, j - 1);
      assert StepOk(t, l, data, j) && Misses(q, l, data, j);
      if j == 3 {
        MkdirAllKeeps(t[2], data, q);
      } else {
        RegionKept(t[j - 1], t[j], Touched(l, j), q);
      }
      SameAtTransitive(t[j], q, t[j - 1], q, t[i], q);
    }
  }

  /** The one step, if any, that may change the place `l[m]` outside the work directory. */
  function StepOf(m: nat): nat {
    if m <= 2 then 2 else if m <= 4 then 4 else if m <= 6 then 5 else 6
  }

  lemma RootMissed(l: seq<Path>, data: Path, m: nat, k: nat)
    requires |l| == 8 && Separate(l, data) && 1 <= m < 8 && k != StepOf(m)
    ensures Misses(l[m], l, data, k)
  {
    ApartDeeper(l[0], l[m], Part(k));
  }

  lemma RootKept(t: seq<Tree>, l: seq<Path>, data: Path, m: nat, i: nat, j: nat)
    requires |l| == 8 && Separate(l, data) && 1 <= m < 8 && i <= j < |t| && !(i < StepOf(m) <= j)
    requires forall k :: i < k <= j ==> StepOk(t, l, data, k)
    ensures SameAt(t[j], l[m], t[i], l[m])
  {
    forall k | i < k <= j
      ensures Misses(l[m], l, data, k)
    {
      RootMissed(l, data, m, k);
    }
    KeptBetween(t, l, data, l[m], i, j);
  }

  lemma PartMissed(l: seq<Path>, data: Path, n: nat, k: nat)
    requires |l| == 8 && Separate(l, data) && 2 <= k < n <= 7 && n != 3
    ensures Misses(l[0] + Part(n), l, data, k)
  {
    var q := l[0] + Part(n);
    PartNotAbove(l[0], Part(n), data);
    forall m | 1 <= m < 8
      ensures Apart(l[m], q)
    {
      ApartDeeper(l[0], l[m], Part(n));
    }
    if k != 3 {
      ApartAt(l[0] + Part(k), q, if k == 4 && n == 5 then |l[0]| + 1 else |l[0]|);
    }
  }

  /** A part of the extracted archive stays put until its own step. */
  lemma PartKept(t: seq<Tree>, l: seq<Path>, data: Path, n: nat)
    requires |l| == 8 && Separate(l, data) && 2 <= n <= 7 && n != 3 && n <= |t|
    requires forall k :: 1 < k < n ==> StepOk(t, l, data, k)
    ensures SameAt(t[n - 1], l[0] + Part(n), t[1], l[0] + Part(n))
  {
    forall k | 1 < k <= n - 1
      ensures Misses(l[0] + Part(n), l, data, k)
    {
      PartMissed(l, data, n, k);
    }
    KeptBetween(t, l, data, l[0] + Part(n), 1, n - 1);
  }

  // ---- Single paths ----------------------------------------------------------------------------------------

  /** No step but the making of the data directory touches a path outside the eight places. */
  lemma PointKept(t: seq<Tree>, l: seq<Path>, data: Path, x: Path, k: nat)
    requires |l| == 8 && 1 <= k < |t| && k != 3 && StepOk(t, l, data, k)
    requires forall m :: 0 <= m < 8 ==> !(l[m] <= x)
    ensures Lookup(t[k], x) == Lookup(t[k - 1], x)
  {
    var roots := Touched(l, k);
    PartNotAbove(l[0], Part(k), x);
    assert !Under(x, roots);
  }

  lemma PartNotAbove(root: Path, part: Path, x: Path)
    ensures root + part <= x ==> root <= x
  {
    assert root <= root + part;
  }

  lemma AboveAncestor(root: Path, p: Path, n: nat)
    requires n <= |p|
    ensures root <= p[..n] ==> root <= p
  {
  }

  /** Steps 1 and 2 leave the data directory and its ancestors as they were. */
  lemma AncestorKept(t: seq<Tree>, l: seq<Path>, data: Path, n: nat)
    requires |l| == 8 && Separate(l, data) && |t| == 8 && n <= |data| && StepOk(t, l, data, 1) && StepOk(t, l, data, 2)
    ensures Lookup(t[2], data[..n]) == Lookup(t[0], data[..n])
  {
    forall m | 0 <= m < 8
      ensures !(l[m] <= data[..n])
    {
      AboveAncestor(l[m], data, n);
    }
    PointKept(t, l, data, data[..n], 1);
    PointKept(t, l, data, data[..n], 2);
  }

  lemma DataDirMade(t: seq<Tree>, l: seq<Path>, data: Path)
    requires |l| == 8 && Separate(l, data) && |t| == 8 && StepOk(t, l, data, 1) && StepOk(t, l, data, 2) && StepOk(t, l, data, 3)
    requires IsDir(t[0], []) && DirsAbove(t[0], data)
    ensures IsDir(t[3], data)
  {
    forall n | 0 <= n <= |data|
      ensures Lookup(t[2], data[..n]) == Lookup(t[0], data[..n])
    {
      AncestorKept(t, l, data, n);
    }
    assert data[..0] == [];
    MkdirAllMakes(t[2], data);
  }

  // ---- Step by step --------------------------------------------------------------------------------------

  lemma ExtractPlaces(t: Tree, tmp: Path, archive: Tree)
    requires AllUnderRoot(archive) && Absent(t, tmp + [ArchiveRoot])
    ensures
      var after := Extract(t, tmp, archive);
      && after.Ok?
      && SameAt(after.value, tmp + [ArchiveRoot], archive, [ArchiveRoot])
      && Within(t, after.value, [tmp + [ArchiveRoot]])
  {
    var work := tmp + [ArchiveRoot];
    forall x | x in archive
      ensures tmp + x !in t
    {
      ArchivePath(tmp, x);
    }
    var u := Extract(t, tmp, archive).value;
    forall r: Path
      ensures Lookup(u, Below(work, r)) == Lookup(archive, Below([ArchiveRoot], r))
    {
      ExtractLookup(t, tmp, archive, Below(work, r));
      assert Below(work, r)[|tmp|..] == Below([ArchiveRoot], r);
      assert Below(work, r) == tmp + Below([ArchiveRoot], r);
      assert Below(work, r) !in t;
    }
    forall x: Path | !Under(x, [work])
      ensures Lookup(u, x) == Lookup(t, x)
    {
      assert [work][0] == work;
      ExtractLookup(t, tmp, archive, x);
      if tmp <= x && x[|tmp|..] in archive {
        ArchivePath(tmp, x[|tmp|..]);
        assert false;
      }
    }
  }

  lemma ArchivePath(tmp: Path, x: Path)
    requires [ArchiveRoot] <= x
    ensures tmp + x == Below(tmp + [ArchiveRoot], x[1..]) && tmp + [ArchiveRoot] <= tmp + x
  {
  }

  /** The place `l[m]` and its `.bak` are untouched by steps that are not theirs. */
  lemma PairKept(t: seq<Tree>, l: seq<Path>, data: Path, m: nat, i: nat, j: nat)
    requires |l| == 8 && Separate(l, data) && i <= j < |t| && StepsOk(t, l, data, j)
    requires m == 1 || m == 3 || m == 5
    requires l[m] != [] && l[m + 1] == BakOf(l[m]) && !(i < StepOf(m) <= j)
    ensures Untouched(t[i], t[j], l[m])
  {
    RootKept(t, l, data, m, i, j);
    RootKept(t, l, data, m + 1, i, j);
  }

  /** The version that the archive was made with stays readable until the end. */
  lemma MetadataKept(t: seq<Tree>, l: seq<Path>, data: Path, j: nat)
    requires |l| == 8 && Separate(l, data) && 1 <= j <= 6 && j < |t| && StepsOk(t, l, data, j)
    ensures Lookup(t[j], l[0] + [Metadata]) == Lookup(t[1], l[0] + [Metadata])
  {
    forall k | 1 < k <= j
      ensures Misses(l[0] + Part(7), l, data, k)
    {
      PartMissed(l, data, 7, k);
    }
    KeptBetween(t, l, data, l[0] + Part(7), 1, j);
    SameAtRoot(t[j], l[0] + [Metadata], t[1], l[0] + [Metadata]);
  }

  /** Whether the custom directory can be replaced does not depend on the extraction. */
  lemma CustomRoom(t: seq<Tree>, l: seq<Path>, data: Path)
    requires |l| == 8 && Separate(l, data) && |t| == 8 && StepOk(t, l, data, 1)
    requires l[1] != [] && l[2] == BakOf(l[1])
    ensures Untouched(t[0], t[1], l[1])
    ensures Blocked(t[1], l[1]) <==> Blocked(t[0], l[1])
    ensures IsDir(t[1], Parent(l[1])) <==> IsDir(t[0], Parent(l[1]))
  {
    PairKept(t, l, data, 1, 0, 1);
    BlockedMoves(t[0], t[1], l[1]);
    ParentNotUnder(l[1], l[0]);
    assert !Under(Parent(l[1]), [l[0]]);
    assert Lookup(t[1], Parent(l[1])) == Lookup(t[0], Parent(l[1]));
  }

  /** Step 2. */
  lemma CustomPhase(t: seq<Tree>, l: seq<Path>, data: Path, tree: Tree, dir: Path)
    requires |l| == 8 && Separate(l, data) && |t| == 8 && StepOk(t, l, data, 1)
    requires l[1] != [] && l[2] == BakOf(l[1]) && IsDir(t[0], Parent(l[1])) && !Blocked(t[0], l[1])
    requires SameAt(t[1], l[0] + [Custom], tree, dir) && dir in tree
    ensures
      var after := Replace(t[1], l[0] + [Custom], l[1]);
      after.ok && Replaced(t[0], after.tree, l[1], tree, dir) && Within(t[1], after.tree, Touched(l, 2))
  {
    var source := l[0] + [Custom];
    SameAtRoot(t[1], source, tree, dir);
    CustomRoom(t, l, data);
    ApartDeeper(l[0], l[1], [Custom]);
    ApartDeeper(l[0], l[2], [Custom]);
    ReplaceWorks(t[1], source, l[1]);
    var u := Replace(t[1], source, l[1]).tree;
    UntouchedRefl(u, l[1]);
    ReplacedStays(t[0], t[1], u, u, l[1], t[1], source);
    SameAtTransitive(u, l[1], t[1], source, tree, dir);
  }

  /** An old `.bak` in the way, or no directory for the custom directory to stand in, ends the
      restore at once. */
  lemma CustomPhaseBlocked(t: seq<Tree>, l: seq<Path>, data: Path)
    requires |l| == 8 && Separate(l, data) && |t| == 8 && StepOk(t, l, data, 1)
    requires l[1] != [] && l[2] == BakOf(l[1]) && (Blocked(t[0], l[1]) || !IsDir(t[0], Parent(l[1])))
    ensures Replace(t[1], l[0] + [Custom], l[1]) == Stage(t[1], false)
  {
    CustomRoom(t, l, data);
    ReplaceBlocked(t[1], l[0] + [Custom], l[1]);
  }

  /** Without the archive's custom directory, step 2 ends the restore after it has moved the
      target's custom directory away. */
  lemma CustomPhaseFails(t: seq<Tree>, l: seq<Path>, data: Path)
    requires |l| == 8 && Separate(l, data) && |t| == 8 && StepOk(t, l, data, 1)
    requires l[1] != [] && l[2] == BakOf(l[1]) && IsDir(t[0], Parent(l[1])) && !Blocked(t[0], l[1])
    requires l[0] + [Custom] !in t[1]
    ensures
      var after := Replace(t[1], l[0] + [Custom], l[1]);
      !after.ok && (l[1] in t[0] ==> Absent(after.tree, l[1]) && SameAt(after.tree, l[2], t[0], l[1]))
  {
    CustomRoom(t, l, data);
    ApartDeeper(l[0], l[1], [Custom]);
    ApartDeeper(l[0], l[2], [Custom]);
    SameAtRoot(t[1], l[1], t[0], l[1]);
    ReplaceNeedsSource(t[1], l[0] + [Custom], l[1]);
    if l[1] in t[0] {
      SameAtTransitive(Replace(t[1], l[0] + [Custom], l[1]).tree, l[2], t[1], l[1], t[0], l[1]);
    }
  }

  /** Before steps 4 and 5 the archive's directory and the target's are as they were. */
  lemma DirReached(t: seq<Tree>, l: seq<Path>, data: Path, k: nat, m: nat, d: Name, tree: Tree, dir: Path)
    requires |l| == 8 && Separate(l, data) && |t| == 8 && 1 <= k <= 5 && StepsOk(t, l, data, k - 1)
    requires (k == 4 && m == 3) || (k == 5 && m == 5)
    requires Part(k) == [Data, d] && l[m] == data + [d] && l[m + 1] == BakOf(l[m])
    requires DataDirAt(t[1], l[0] + [Data, d], tree, dir)
    ensures Untouched(t[0], t[k - 1], l[m]) && DataDirAt(t[k - 1], l[0] + [Data, d], tree, dir)
    ensures Hindered(t[k - 1], l[m], tree, dir) <==> Hindered(t[0], l[m], tree, dir)
  {
    PairKept(t, l, data, m, 0, k - 1);
    BlockedMoves(t[0], t[k - 1], l[m]);
    PartKept(t, l, data, k);
    DataDirMoves(t[1], l[0] + [Data, d], t[k - 1], l[0] + [Data, d], tree, dir);
  }

  /** Steps 4 and 5, for the place `l[m]`. */
  lemma DirPhase(t: seq<Tree>, l: seq<Path>, data: Path, k: nat, m: nat, d: Name, tree: Tree, dir: Path)
    requires |l| == 8 && Separate(l, data) && |t| == 8 && 1 <= k <= 5 && StepsOk(t, l, data, k - 1)
    requires (k == 4 && m == 3) || (k == 5 && m == 5)
    requires Part(k) == [Data, d] && l[m] == data + [d] && l[m + 1] == BakOf(l[m])
    requires DataDirAt(t[1], l[0] + [Data, d], tree, dir) && IsDir(t[k - 1], data)
    ensures
      var after := RestoreDataDir(t[k - 1], l[0], data, d);
      if Hindered(t[0], l[m], tree, dir) then after == Stage(t[k - 1], false)
      else
        && after.ok
        && DataDirRestored(t[0], after.tree, l[m], tree, dir)
        && Within(t[k - 1], after.tree, Touched(l, k))
  {
    var now := t[k - 1];
    DirReached(t, l, data, k, m, d, tree, dir);
    if Hindered(t[0], l[m], tree, dir) {
      DataDirHindered(now, l[0], data, d, tree, dir);
    } else {
      ApartDeeper(l[0], l[m], [Data, d]);
      ApartDeeper(l[0], l[m + 1], [Data, d]);
      DataDirWorks(now, l[0], data, d, tree, dir);
      var u := RestoreDataDir(now, l[0], data, d).tree;
      UntouchedRefl(u, l[m]);
      DataDirStays(t[0], now, u, u, l[m], tree, dir);
    }
  }

  lemma UntouchedRefl(t: Tree, place: Path)
    requires place != []
    ensures Untouched(t, t, place)
  {
  }

  // ---- The repositories --------------------------------------------------------------------------------

  lemma CompatibleMoves(t0: Tree, t: Tree, place: Path, tree: Tree, source: Path)
    requires SameAt(t, place, t0, place)
    ensures Compatible(t, place, tree, source) <==> Compatible(t0, place, tree, source)
  {
    assert forall r: Path :: Lookup(t, Below(place, r)) == Lookup(t0, Below(place, r));
    if Compatible(t0, place, tree, source) {
      forall r: Path | Below(place, r) in t && Below(source, r) in tree
        ensures t[Below(place, r)].Dir? == tree[Below(source, r)].Dir?
      {
        assert Lookup(t, Below(place, r)) == Lookup(t0, Below(place, r));
      }
    }
    if Compatible(t, place, tree, source) {
      forall r: Path | Below(place, r) in t0 && Below(source, r) in tree
        ensures t0[Below(place, r)].Dir? == tree[Below(source, r)].Dir?
      {
        assert Lookup(t, Below(place, r)) == Lookup(t0, Below(place, r));
      }
    }
  }

  /** `u` has the source's entries at `place`, and otherwise what `t` had there. */
  ghost predicate Overlaid(t: Tree, u: Tree, place: Path, tree: Tree, source: Path) {
    forall r: Path :: Lookup(u, Below(place, r))
      == if Below(source, r) in tree then Lookup(tree, Below(source, r)) else Lookup(t, Below(place, r))
  }

  /** Overlaying gives the source's subtree exactly when nothing else was there. */
  lemma OverlaidIsSameIff(t: Tree, u: Tree, place: Path, tree: Tree, source: Path)
    requires Overlaid(t, u, place, tree, source)
    ensures SameAt(u, place, tree, source) <==> NoStrangers(t, place, tree, source)
  {
    if NoStrangers(t, place, tree, source) {
      forall r: Path
        ensures Lookup(u, Below(place, r)) == Lookup(tree, Below(source, r))
      {
        assert Below(place, r) in t ==> Below(source, r) in tree;
      }
    } else {
      var r :| Below(place, r) in t && Below(source, r) !in tree;
      assert Lookup(u, Below(place, r)) == Lookup(t, Below(place, r));
      assert Lookup(u, Below(place, r)) != Lookup(tree, Below(source, r));
    }
  }

  /** Step 6. */
  lemma RepositoriesPhase(t: seq<Tree>, l: seq<Path>, data: Path, skip: bool, exclude: bool, tree: Tree, source: Path)
    requires |l| == 8 && Separate(l, data) && |t| == 8 && StepsOk(t, l, data, 5)
    requires l[7] != [] && source != [] && l[7][|l[7]| - 1] == source[|source| - 1]
    requires Lookup(t[1], l[0] + [Repositories]) == PackedPart(tree, source, exclude)
    ensures
      var after := RestoreRepositories(t[5], l[0], l[7], skip);
      && Within(t[5], after.tree, Touched(l, 6))
      && (skip || exclude ==> after.ok && SameAt(after.tree, l[7], t[0], l[7]))
      && (!skip && !exclude ==>
            && (after.ok <==> Compatible(t[0], l[7], tree, source))
            && (after.ok ==> Overlaid(t[0], after.tree, l[7], tree, source)))
  {
    PartKept(t, l, data, 6);
    var zip := l[0] + [Repositories];
    SameAtRoot(t[5], zip, t[1], zip);
    RootKept(t, l, data, 7, 0, 5);
    if !skip && !exclude {
      assert t[5][zip] == Packed(PackRepositories(tree, source));
      UnpackPhase(t[0], t[5], l[7], tree, source);
    }
  }

  lemma UnpackPhase(t0: Tree, t: Tree, repos: Path, tree: Tree, source: Path)
    requires repos != [] && source != [] && repos[|repos| - 1] == source[|source| - 1] && SameAt(t, repos, t0, repos)
    ensures
      var after := Extract(t, Parent(repos), PackRepositories(tree, source));
      && (after.Ok? <==> Compatible(t0, repos, tree, source))
      && (after.Ok? ==> Overlaid(t0, after.value, repos, tree, source) && Within(t, after.value, [repos]))
  {
    CompatibleMoves(t0, t, repos, tree, source);
    UnpacksIffCompatible(t, repos, tree, source);
    var after := Extract(t, Parent(repos), PackRepositories(tree, source));
    if after.Ok? {
      UnpackWithin(t, repos, tree, source);
      forall r: Path
        ensures Lookup(after.value, Below(repos, r))
                == if Below(source, r) in tree then Lookup(tree, Below(source, r)) else Lookup(t0, Below(repos, r))
      {
        UnpackOverlays(t, repos, tree, source, r);
        assert Lookup(t, Below(repos, r)) == Lookup(t0, Below(repos, r));
      }
    }
  }

  // ---- The whole restore -------------------------------------------------------------------------------

  /** The disk before and after each step. */
  ghost predicate Course(t: seq<Tree>, l: seq<Path>, s: Settings, skip: bool)
    requires |l| == 8 && l[1] != [] && l[7] != []
  {
    && |t| == 8
    && t[2] == Replace(t[1], l[0] + [Custom], l[1]).tree
    && t[3] == MkdirAll(t[2], s.data)
    && t[4] == RestoreDataDir(t[3], l[0], s.data, Attachments).tree
    && t[5] == RestoreDataDir(t[4], l[0], s.data, Avatars).tree
    && t[6] == RestoreRepositories(t[5], l[0], l[7], skip).tree
    && t[7] == if RestoreRepositories(t[5], l[0], l[7], skip).ok then Prune(t[6], l[0]) else t[6]
  }

  lemma CourseOf(t0: Tree, t1: Tree, l: seq<Path>, s: Settings, skip: bool) returns (t: seq<Tree>)
    requires |l| == 8 && l[1] != [] && l[7] != []
    ensures Course(t, l, s, skip) && t[0] == t0 && t[1] == t1
  {
    var t2 := Replace(t1, l[0] + [Custom], l[1]).tree;
    var t3 := MkdirAll(t2, s.data);
    var t4 := RestoreDataDir(t3, l[0], s.data, Attachments).tree;
    var t5 := RestoreDataDir(t4, l[0], s.data, Avatars).tree;
    var r := RestoreRepositories(t5, l[0], l[7], skip);
    t := [t0, t1, t2, t3, t4, t5, r.tree, if r.ok then Prune(r.tree, l[0]) else r.tree];
  }

  lemma BothDirs(t: Tree, work: Path, data: Path)
    ensures
      var first := RestoreDataDir(t, work, data, Attachments);
      RestoreDataDirs(t, work, data, DATA_DIRS)
      == if first.ok then RestoreDataDir(first.tree, work, data, Avatars) else first
  {
    assert DATA_DIRS[1..] == [Avatars] && [Avatars][1..] == [];
  }

  /** The restore of files goes through the course, if steps 2, 4 and 5 succeed. */
  lemma FilesFollowCourse(t: seq<Tree>, l: seq<Path>, s: Settings, skip: bool)
    requires |l| == 8 && l[1] != [] && l[7] != [] && l[1] == s.custom && l[7] == s.repos && Course(t, l, s, skip)
    requires Replace(t[1], l[0] + [Custom], l[1]).ok
    requires RestoreDataDir(t[3], l[0], s.data, Attachments).ok && RestoreDataDir(t[4], l[0], s.data, Avatars).ok
    ensures RestoreFiles(t[1], l[0], s, Flags(false, skip)) == Stage(t[7], RestoreRepositories(t[5], l[0], l[7], skip).ok)
  {
    BothDirs(t[3], l[0], s.data);
  }

  ghost predicate RootsAre(l: seq<Path>, work: Path, s: Settings)
    requires s.custom != []
  {
    && |l| == 8 && Separate(l, s.data)
    && l[0] == work
    && l[1] == s.custom && l[2] == BakOf(s.custom)
    && l[3] == s.data + [Attachments] && l[4] == BakOf(s.data + [Attachments])
    && l[5] == s.data + [Avatars] && l[6] == BakOf(s.data + [Avatars])
    && l[7] == s.repos
  }

  /** A course that starts on a ready disk with the extraction of a backup of `tree`. */
  ghost predicate Restoring(t: seq<Tree>, l: seq<Path>, s: Settings, skip: bool, tree: Tree, from: Settings, exclude: bool)
    requires s.custom != [] && s.repos != [] && from.repos != []
  {
    && |t| == 8 && |l| == 8 && RootsAre(l, l[0], s) && Course(t, l, s, skip)
    && Ready(t[0], l[0], s) && StepOk(t, l, s.data, 1)
    && s.repos[|s.repos| - 1] == from.repos[|from.repos| - 1]
    && DataDirAt(t[1], l[0] + [Data, Attachments], tree, from.data + [Attachments])
    && DataDirAt(t[1], l[0] + [Data, Avatars], tree, from.data + [Avatars])
    && Lookup(t[1], l[0] + [Repositories]) == PackedPart(tree, from.repos, exclude)
    && SameAt(t[1], l[0] + [Custom], tree, from.custom) && from.custom in tree
  }

  /** The custom directory has somewhere to stand, and can be moved aside. */
  predicate CustomFree(t: Tree, s: Settings)
    requires s.custom != []
  {
    IsDir(t, Parent(s.custom)) && !Blocked(t, s.custom)
  }

  predicate AttachmentsHindered(t: Tree, s: Settings, tree: Tree, from: Settings) {
    Hindered(t, s.data + [Attachments], tree, from.data + [Attachments])
  }

  predicate AvatarsHindered(t: Tree, s: Settings, tree: Tree, from: Settings) {
    Hindered(t, s.data + [Avatars], tree, from.data + [Avatars])
  }

  /** Nothing is in the way of the first five steps. */
  predicate Unhindered(t: Tree, s: Settings, tree: Tree, from: Settings)
    requires s.custom != []
  {
    CustomFree(t, s) && !AttachmentsHindered(t, s, tree, from) && !AvatarsHindered(t, s, tree, from)
  }

  lemma StepsTwoToThree(t: seq<Tree>, l: seq<Path>, s: Settings, skip: bool, tree: Tree, from: Settings, exclude: bool)
    requires s.custom != [] && s.repos != [] && from.repos != []
    requires Restoring(t, l, s, skip, tree, from, exclude)
    requires CustomFree(t[0], s)
    ensures StepsOk(t, l, s.data, 3) && IsDir(t[3], s.data)
    ensures Replace(t[1], l[0] + [Custom], l[1]).ok && Replaced(t[0], t[2], l[1], tree, from.custom)
  {
    CustomPhase(t, l, s.data, tree, from.custom);
    DataDirMade(t, l, s.data);
  }

  lemma DataDirStaysDir(t: seq<Tree>, l: seq<Path>, data: Path)
    requires |t| == 8 && |l| == 8 && Separate(l, data) && StepOk(t, l, data, 4) && IsDir(t[3], data)
    ensures IsDir(t[4], data)
  {
    PointKept(t, l, data, data, 4);
  }

  lemma RootKept67(t: seq<Tree>, l: seq<Path>, data: Path)
    requires |t| == 8 && |l| == 8 && Separate(l, data) && StepOk(t, l, data, 7)
    ensures SameAt(t[7], l[7], t[6], l[7])
  {
    RootKept(t, l, data, 7, 6, 7);
  }

  lemma StepFour(t: seq<Tree>, l: seq<Path>, s: Settings, skip: bool, tree: Tree, from: Settings, exclude: bool)
    requires s.custom != [] && s.repos != [] && from.repos != []
    requires Restoring(t, l, s, skip, tree, from, exclude)
    requires CustomFree(t[0], s) && !AttachmentsHindered(t[0], s, tree, from)
    ensures StepsOk(t, l, s.data, 4) && IsDir(t[4], s.data)
    ensures RestoreDataDir(t[3], l[0], s.data, Attachments).ok && DataDirRestored(t[0], t[4], l[3], tree, from.data + [Attachments])
  {
    StepsTwoToThree(t, l, s, skip, tree, from, exclude);
    DirPhase(t, l, s.data, 4, 3, Attachments, tree, from.data + [Attachments]);
    OneMoreStep(t, l, s.data, 3);
    DataDirStaysDir(t, l, s.data);
  }

  lemma StepFive(t: seq<Tree>, l: seq<Path>, s: Settings, skip: bool, tree: Tree, from: Settings, exclude: bool)
    requires s.custom != [] && s.repos != [] && from.repos != []
    requires Restoring(t, l, s, skip, tree, from, exclude)
    requires Unhindered(t[0], s, tree, from)
    ensures StepsOk(t, l, s.data, 5)
    ensures RestoreDataDir(t[4], l[0], s.data, Avatars).ok && DataDirRestored(t[0], t[5], l[5], tree, from.data + [Avatars])
  {
    StepFour(t, l, s, skip, tree, from, exclude);
    DirPhase(t, l, s.data, 5, 5, Avatars, tree, from.data + [Avatars]);
    OneMoreStep(t, l, s.data, 4);
  }

  /** Step 6 and the repositories after it. */
  ghost predicate SixDone(t: seq<Tree>, l: seq<Path>, data: Path, ok: bool, skip: bool, exclude: bool, tree: Tree, source: Path)
    requires |t| == 8 && |l| == 8
  {
    && StepsOk(t, l, data, 6)
    && (skip || exclude ==> ok && SameAt(t[6], l[7], t[0], l[7]))
    && (!skip && !exclude ==>
          && (ok <==> Compatible(t[0], l[7], tree, source))
          && (ok ==> Overlaid(t[0], t[6], l[7], tree, source)))
  }

  lemma RepositoriesDone(t: seq<Tree>, l: seq<Path>, data: Path, skip: bool, exclude: bool, tree: Tree, source: Path)
    requires |l| == 8 && Separate(l, data) && |t| == 8 && StepsOk(t, l, data, 5)
    requires l[7] != [] && source != [] && l[7][|l[7]| - 1] == source[|source| - 1]
    requires Lookup(t[1], l[0] + [Repositories]) == PackedPart(tree, source, exclude)
    requires t[6] == RestoreRepositories(t[5], l[0], l[7], skip).tree
    ensures SixDone(t, l, data, RestoreRepositories(t[5], l[0], l[7], skip).ok, skip, exclude, tree, source)
  {
    RepositoriesPhase(t, l, data, skip, exclude, tree, source);
    OneMoreStep(t, l, data, 5);
  }

  lemma StepSix(t: seq<Tree>, l: seq<Path>, s: Settings, skip: bool, tree: Tree, from: Settings, exclude: bool)
    requires s.custom != [] && s.repos != [] && from.repos != []
    requires Restoring(t, l, s, skip, tree, from, exclude)
    requires Unhindered(t[0], s, tree, from)
    ensures SixDone(t, l, s.data, RestoreRepositories(t[5], l[0], l[7], skip).ok, skip, exclude, tree, from.repos)
  {
    StepFive(t, l, s, skip, tree, from, exclude);
    RepositoriesDone(t, l, s.data, skip, exclude, tree, from.repos);
  }

  lemma CleanUp(t: seq<Tree>, l: seq<Path>, data: Path, ok: bool)
    requires |t| == 8 && |l| == 8 && t[7] == if ok then Prune(t[6], l[0]) else t[6]
    ensures StepOk(t, l, data, 7) && (ok ==> Absent(t[7], l[0]))
  {
    PruneWithin(t[6], l[0]);
  }

  lemma StepSeven(t: seq<Tree>, l: seq<Path>, s: Settings, skip: bool, tree: Tree, from: Settings, exclude: bool)
    requires s.custom != [] && s.repos != [] && from.repos != []
    requires Restoring(t, l, s, skip, tree, from, exclude)
    requires Unhindered(t[0], s, tree, from)
    ensures StepsOk(t, l, s.data, 7) && SameAt(t[7], l[7], t[6], l[7])
    ensures RestoreRepositories(t[5], l[0], l[7], skip).ok ==> Absent(t[7], l[0])
  {
    StepSix(t, l, s, skip, tree, from, exclude);
    CleanUp(t, l, s.data, RestoreRepositories(t[5], l[0], l[7], skip).ok);
    OneMoreStep(t, l, s.data, 6);
    RootKept67(t, l, s.data);
  }

  lemma RepositoriesStay(t: seq<Tree>, l: seq<Path>, s: Settings, skip: bool, tree: Tree, from: Settings, exclude: bool)
    requires s.custom != [] && s.repos != [] && from.repos != []
    requires Restoring(t, l, s, skip, tree, from, exclude)
    requires Unhindered(t[0], s, tree, from)
    ensures
      var ok := RestoreRepositories(t[5], l[0], l[7], skip).ok;
      && (skip || exclude ==> ok && SameAt(t[7], l[7], t[0], l[7]))
      && (!skip && !exclude ==>
            && (ok <==> Compatible(t[0], l[7], tree, from.repos))
            && (ok ==> Overlaid(t[0], t[7], l[7], tree, from.repos)))
  {
    StepSix(t, l, s, skip, tree, from, exclude);
    StepSeven(t, l, s, skip, tree, from, exclude);
    SameAtTransitive2(t[7], t[6], t[0], l[7]);
    if Overlaid(t[0], t[6], l[7], tree, from.repos) {
      OverlaidStays(t[0], t[6], t[7], l[7], tree, from.repos);
    }
  }

  lemma SameAtTransitive2(t: Tree, u: Tree, v: Tree, p: Path)
    requires SameAt(t, p, u, p)
    ensures SameAt(u, p, v, p) ==> SameAt(t, p, v, p)
  {
    if SameAt(u, p, v, p) {
      SameAtTransitive(t, p, u, p, v, p);
    }
  }

  lemma OverlaidStays(t: Tree, u: Tree, v: Tree, place: Path, tree: Tree, source: Path)
    requires Overlaid(t, u, place, tree, source) && SameAt(v, place, u, place)
    ensures Overlaid(t, v, place, tree, source)
  {
    forall r: Path
      ensures Lookup(v, Below(place, r))
              == if Below(source, r) in tree then Lookup(tree, Below(source, r)) else Lookup(t, Below(place, r))
    {
      assert Lookup(v, Below(place, r)) == Lookup(u, Below(place, r));
    }
  }

  /** What the first five steps did is still there at the end. */
  lemma EverythingStays(t: seq<Tree>, l: seq<Path>, s: Settings, skip: bool, tree: Tree, from: Settings, exclude: bool)
    requires s.custom != [] && s.repos != [] && from.repos != []
    requires Restoring(t, l, s, skip, tree, from, exclude)
    requires Unhindered(t[0], s, tree, from)
    ensures Replaced(t[0], t[7], s.custom, tree, from.custom)
    ensures DataDirRestored(t[0], t[7], s.data + [Attachments], tree, from.data + [Attachments])
    ensures DataDirRestored(t[0], t[7], s.data + [Avatars], tree, from.data + [Avatars])
  {
    StepsTwoToThree(t, l, s, skip, tree, from, exclude);
    StepFour(t, l, s, skip, tree, from, exclude);
    StepFive(t, l, s, skip, tree, from, exclude);
    StepSeven(t, l, s, skip, tree, from, exclude);
    PairKept(t, l, s.data, 1, 2, 7);
    UntouchedRefl(t[0], l[1]);
    ReplacedStays(t[0], t[0], t[2], t[7], l[1], tree, from.custom);
    DirStays(t, l, s.data, 3, 4, tree, from.data + [Attachments]);
    DirStays(t, l, s.data, 5, 5, tree, from.data + [Avatars]);
  }

  lemma DirStays(t: seq<Tree>, l: seq<Path>, data: Path, m: nat, k: nat, tree: Tree, dir: Path)
    requires |t| == 8 && |l| == 8 && Separate(l, data) && StepsOk(t, l, data, 7)
    requires (m == 3 && k == 4) || (m == 5 && k == 5)
    requires l[m] != [] && l[m + 1] == BakOf(l[m]) && DataDirRestored(t[0], t[k], l[m], tree, dir)
    ensures DataDirRestored(t[0], t[7], l[m], tree, dir)
  {
    PairKept(t, l, data, m, k, 7);
    UntouchedRefl(t[0], l[m]);
    DataDirStays(t[0], t[0], t[k], t[7], l[m], tree, dir);
  }

  /** Outside the eight places only missing directories on the way to the data directory appear. */
  ghost predicate OnlyDirsAdded(t: Tree, u: Tree, l: seq<Path>, data: Path) {
    forall x: Path :: !Under(x, l) ==>
      Lookup(u, x) == Lookup(t, x) || (x !in t && x <= data && Lookup(u, x) == Some(Dir))
  }

  lemma NothingElse(t: seq<Tree>, l: seq<Path>, data: Path)
    requires |t| == 8 && |l| == 8 && StepsOk(t, l, data, 7)
    ensures OnlyDirsAdded(t[0], t[7], l, data)
  {
    forall x: Path | !Under(x, l)
      ensures Lookup(t[7], x) == Lookup(t[0], x) || (x !in t[0] && x <= data && Lookup(t[7], x) == Some(Dir))
    {
      forall k | 1 <= k < 8 && k != 3
        ensures Lookup(t[k], x) == Lookup(t[k - 1], x)
      {
        PointKept(t, l, data, x, k);
      }
      assert StepOk(t, l, data, 3);
      MkdirAllAdds(t[2], data, x);
      assert Lookup(t[1], x) == Lookup(t[0], x) && Lookup(t[2], x) == Lookup(t[1], x);
      assert Lookup(t[4], x) == Lookup(t[3], x) && Lookup(t[5], x) == Lookup(t[4], x);
      assert Lookup(t[6], x) == Lookup(t[5], x) && Lookup(t[7], x) == Lookup(t[6], x);
    }
  }
}
