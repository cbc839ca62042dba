/** Restoring a backup gives the backed-up trees back, and what it replaces survives. */
module RestoreInverts {
  import opened FileTrees
  import opened Regions
  import opened BackupRestore
  import opened BackupArchive

  // ---- Replacing one place ---------------------------------------------------------------------------

  /** The place and its `.bak` stand side by side. */
  lemma BakIsApart(p: Path)
    requires p != []
    ensures Apart(p, BakOf(p)) && Parent(BakOf(p)) == Parent(p) && BakOf(p) != []
  {
    NameIsNotItsBak(p[|p| - 1]);
    assert BakOf(p)[|p| - 1] == Bak(p[|p| - 1]);
  }

  lemma {:induction false} NameIsNotItsBak(n: Name)
    ensures Bak(n) != n
  {
    match n
    case Bak(m) => NameIsNotItsBak(m);
    case _ =>
  }

  /** An old `.bak` is in the way of moving the place aside: something stands at both, and one of
      the two is a directory. */
  predicate Blocked(t: Tree, place: Path)
    requires place != []
  {
    place in t && BakOf(place) in t && (IsDir(t, place) || IsDir(t, BakOf(place)))
  }

  /** The place holds the source's tree, and its `.bak` what the place held in `t`; if that was
      nothing, the `.bak` is as it was. */
  ghost predicate Replaced(t: Tree, u: Tree, place: Path, from: Tree, source: Path)
    requires place != []
  {
    SameAt(u, place, from, source) && SameAt(u, BakOf(place), t, if place in t then place else BakOf(place))
  }

  /** The place and its `.bak` are as they were. */
  ghost predicate Untouched(t: Tree, u: Tree, place: Path)
    requires place != []
  {
    SameAt(u, place, t, place) && SameAt(u, BakOf(place), t, BakOf(place))
  }

  /** Replacing a place moves the source there, keeps what it replaces as `.bak`, and changes
      nothing else. */
  lemma ReplaceWorks(t: Tree, source: Path, place: Path)
    requires place != [] && source in t && IsDir(t, Parent(place)) && !Blocked(t, place)
    requires Apart(source, place) && Apart(source, BakOf(place))
    ensures
      var after := Replace(t, source, place);
      && after.ok
      && Replaced(t, after.tree, place, t, source)
      && Within(t, after.tree, [source, place, BakOf(place)])
  {
    var bak := BakOf(place);
    BakIsApart(place);
    if place in t {
      RenameMoves(t, place, bak);
      var t1 := Rename(t, place, bak).value;
      MovedWithin(t, t1, place, bak);
      RegionKept(t, t1, [place, bak], source);
      SameAtRoot(t1, source, t, source);
      ParentNotUnder(place, bak);
      StillDir(t, t1, [place, bak], Parent(place));
      RenameMoves(t1, source, place);
      var t2 := Rename(t1, source, place).value;
      MovedWithin(t1, t2, source, place);
      RegionKept(t1, t2, [source, place], bak);
      SameAtTransitive(t2, bak, t1, bak, t, place);
      SameAtTransitive(t2, place, t1, source, t, source);
      WithinThen(t, t1, t2, [place, bak], [source, place]);
      Regroup(t, t2, source, place, bak);
    } else {
      RenameMoves(t, source, place);
      var t2 := Rename(t, source, place).value;
      MovedWithin(t, t2, source, place);
      RegionKept(t, t2, [source, place], bak);
      WithinMore(t, t2, [source, place], [bak]);
      assert [source, place] + [bak] == [source, place, bak];
    }
  }

  lemma MovedWithin(t: Tree, u: Tree, from: Path, to: Path)
    requires forall x: Path :: !(from <= x) && !(to <= x) ==> Lookup(u, x) == Lookup(t, x)
    ensures Within(t, u, [from, to])
  {
    forall x: Path | !Under(x, [from, to])
      ensures Lookup(u, x) == Lookup(t, x)
    {
      assert [from, to][0] == from && [from, to][1] == to;
    }
  }

  lemma WithinMore(t: Tree, u: Tree, roots: seq<Path>, more: seq<Path>)
    requires Within(t, u, roots)
    ensures Within(t, u, roots + more)
  {
    forall x: Path | !Under(x, roots + more)
      ensures Lookup(u, x) == Lookup(t, x)
    {
      forall i | 0 <= i < |roots|
        ensures !(roots[i] <= x)
      {
        assert (roots + more)[i] == roots[i];
      }
    }
  }

  lemma Regroup(t: Tree, u: Tree, source: Path, place: Path, bak: Path)
    requires Within(t, u, [place, bak] + [source, place])
    ensures Within(t, u, [source, place, bak])
  {
    forall x: Path | !Under(x, [source, place, bak])
      ensures Lookup(u, x) == Lookup(t, x)
    {
      var roots := [source, place, bak];
      assert roots[0] == source && roots[1] == place && roots[2] == bak;
    }
  }

  /** The parent of a path is under nothing that is apart from the path. */
  lemma ParentNotUnder(p: Path, root: Path)
    requires p != [] && Apart(root, p)
    ensures !(root <= Parent(p)) && !(p <= Parent(p))
  {
    assert Parent(p) <= p;
    assert root <= Parent(p) ==> root <= p;
  }

  lemma StillDir(t: Tree, u: Tree, roots: seq<Path>, x: Path)
    requires Within(t, u, roots) && IsDir(t, x) && forall i :: 0 <= i < |roots| ==> !(roots[i] <= x)
    ensures IsDir(u, x)
  {
    assert !Under(x, roots);
    assert Lookup(u, x) == Lookup(t, x);
  }

  /** Blocked, or without a directory to stand in, the place is not replaced, and nothing changes. */
  lemma ReplaceBlocked(t: Tree, source: Path, place: Path)
    requires place != [] && (Blocked(t, place) || !IsDir(t, Parent(place)))
    ensures Replace(t, source, place) == Stage(t, false)
  {
    BakIsApart(place);
  }

  /** Without the source the replacement is fatal, and whatever was at the place has already
      been moved away. */
  lemma ReplaceNeedsSource(t: Tree, source: Path, place: Path)
    requires place != [] && source !in t && Apart(source, place) && Apart(source, BakOf(place))
    requires IsDir(t, Parent(place)) && !Blocked(t, place)
    ensures
      var after := Replace(t, source, place);
      && !after.ok
      && (place in t ==> Absent(after.tree, place) && SameAt(after.tree, BakOf(place), t, place))
  {
    BakIsApart(place);
    if place in t {
      RenameMoves(t, place, BakOf(place));
    }
  }

  // ---- One data directory ----------------------------------------------------------------------------

  /** A data directory of the archive has been restored; one that the archive lacks has been
      left alone. */
  ghost predicate DataDirRestored(t: Tree, u: Tree, place: Path, tree: Tree, dir: Path)
    requires place != []
  {
    if IsDir(tree, dir) then Replaced(t, u, place, tree, dir)
    else Untouched(t, u, place)
  }

  /** A data directory is to be restored, and an old `.bak` is in the way. */
  predicate Hindered(t: Tree, place: Path, tree: Tree, dir: Path)
    requires place != []
  {
    IsDir(tree, dir) && Blocked(t, place)
  }

  lemma DataDirWorks(t: Tree, work: Path, data: Path, d: Name, tree: Tree, dir: Path)
    requires DataDirAt(t, work + [Data, d], tree, dir) && IsDir(t, data) && !Hindered(t, data + [d], tree, dir)
    requires Apart(work + [Data, d], data + [d]) && Apart(work + [Data, d], BakOf(data + [d]))
    ensures
      var after := RestoreDataDir(t, work, data, d);
      && after.ok
      && DataDirRestored(t, after.tree, data + [d], tree, dir)
      && Within(t, after.tree, [work + [Data, d], data + [d], BakOf(data + [d])])
  {
    var source, place := work + [Data, d], data + [d];
    assert Parent(place) == data;
    if IsDir(tree, dir) {
      SameAtRoot(t, source, tree, dir);
      ReplaceWorks(t, source, place);
      SameAtTransitive(Replace(t, source, place).tree, place, t, source, tree, dir);
    } else {
      assert Below(source, []) == source;
    }
  }

  lemma DataDirHindered(t: Tree, work: Path, data: Path, d: Name, tree: Tree, dir: Path)
    requires DataDirAt(t, work + [Data, d], tree, dir) && Hindered(t, data + [d], tree, dir)
    ensures RestoreDataDir(t, work, data, d) == Stage(t, false)
  {
    SameAtRoot(t, work + [Data, d], tree, dir);
    ReplaceBlocked(t, work + [Data, d], data + [d]);
  }

  lemma BlockedMoves(t0: Tree, t: Tree, place: Path)
    requires place != [] && Untouched(t0, t, place)
    ensures Blocked(t, place) <==> Blocked(t0, place)
  {
    SameAtRoot(t, place, t0, place);
    SameAtRoot(t, BakOf(place), t0, BakOf(place));
  }

  /** What was replaced stays replaced while its places are left alone, before and after. */
  lemma ReplacedStays(t0: Tree, t: Tree, u: Tree, v: Tree, place: Path, from: Tree, source: Path)
    requires place != [] && Replaced(t, u, place, from, source) && Untouched(t0, t, place) && Untouched(u, v, place)
    ensures Replaced(t0, v, place, from, source)
  {
    var bak, kept := BakOf(place), if place in t then place else BakOf(place);
    SameAtRoot(t, place, t0, place);
    SameAtTransitive(v, place, u, place, from, source);
    SameAtTransitive(v, bak, u, bak, t, kept);
    SameAtTransitive(v, bak, t, kept, t0, kept);
  }

  /** What was restored stays restored while its places are left alone, before and after. */
  lemma DataDirStays(t0: Tree, t: Tree, u: Tree, v: Tree, place: Path, tree: Tree, dir: Path)
    requires place != [] && DataDirRestored(t, u, place, tree, dir) && Untouched(t0, t, place) && Untouched(u, v, place)
    ensures DataDirRestored(t0, v, place, tree, dir)
  {
    if IsDir(tree, dir) {
      ReplacedStays(t0, t, u, v, place, tree, dir);
    } else {
      UntouchedThrough(t, u, v, place);
      UntouchedThrough(t0, t, v, place);
    }
  }

  lemma UntouchedThrough(t: Tree, u: Tree, v: Tree, place: Path)
    requires place != [] && Untouched(t, u, place) && Untouched(u, v, place)
    ensures Untouched(t, v, place)
  {
    SameAtTransitive(v, place, u, place, t, place);
    SameAtTransitive(v, BakOf(place), u, BakOf(place), t, BakOf(place));
  }

  // ---- The repositories --------------------------------------------------------------------------------

  /** Nothing is a file on one side and a directory on the other. */
  ghost predicate Compatible(t: Tree, place: Path, tree: Tree, source: Path) {
    forall r: Path :: Below(place, r) in t && Below(source, r) in tree ==>
      t[Below(place, r)].Dir? == tree[Below(source, r)].Dir?
  }

  /** Whatever stands below `place` also stands below `source`. */
  ghost predicate NoStrangers(t: Tree, place: Path, tree: Tree, source: Path) {
    forall r: Path :: Below(place, r) in t ==> Below(source, r) in tree
  }

  lemma PackedLookup(tree: Tree, repos: Path, x: Path)
    requires repos != []
    ensures x in PackRepositories(tree, repos) <==>
            x != [] && x[0] == repos[|repos| - 1] && Below(repos, x[1..]) in tree
    ensures x in PackRepositories(tree, repos) ==> PackRepositories(tree, repos)[x] == tree[Below(repos, x[1..])]
  {
    var head := [repos[|repos| - 1]];
    CopyLookup(map[], head, tree, repos, x);
    assert x != [] ==> (head <= x <==> x[0] == head[0]);
  }

  /** A path of the packed repositories, seen from the parent of the repository root. */
  lemma Unpacked(repos: Path, x: Path)
    requires repos != [] && x != [] && x[0] == repos[|repos| - 1]
    ensures Parent(repos) + x == Below(repos, x[1..]) && repos <= Parent(repos) + x
  {
    assert repos == Parent(repos) + [repos[|repos| - 1]];
    assert x == [x[0]] + x[1..];
  }

  lemma Packing(repos: Path, r: Path)
    requires repos != []
    ensures
      var x := [repos[|repos| - 1]] + r;
      && x != [] && x[0] == repos[|repos| - 1] && x[1..] == r
      && Parent(repos) + x == Below(repos, r) && Below(repos, r)[|Parent(repos)|..] == x
  {
    Unpacked(repos, [repos[|repos| - 1]] + r);
  }

  lemma UnpacksIffCompatible(t: Tree, repos: Path, tree: Tree, source: Path)
    requires repos != [] && source != [] && repos[|repos| - 1] == source[|source| - 1]
    ensures Extract(t, Parent(repos), PackRepositories(tree, source)).Ok? <==> Compatible(t, repos, tree, source)
  {
    var packed := PackRepositories(tree, source);
    if Compatible(t, repos, tree, source) {
      forall x | x in packed && Parent(repos) + x in t
        ensures t[Parent(repos) + x].Dir? == packed[x].Dir?
      {
        PackedLookup(tree, source, x);
        Unpacked(repos, x);
        assert Below(repos, x[1..]) in t;
      }
    } else {
      var r :| Below(repos, r) in t && Below(source, r) in tree
               && t[Below(repos, r)].Dir? != tree[Below(source, r)].Dir?;
      Packing(repos, r);
      PackedLookup(tree, source, [repos[|repos| - 1]] + r);
    }
  }

  /** Unpacking overlays the repositories, and touches nothing else. */
  lemma UnpackOverlays(t: Tree, repos: Path, tree: Tree, source: Path, r: Path)
    requires repos != [] && source != [] && repos[|repos| - 1] == source[|source| - 1]
    requires Extract(t, Parent(repos), PackRepositories(tree, source)).Ok?
    ensures
      var u := Extract(t, Parent(repos), PackRepositories(tree, source)).value;
      Lookup(u, Below(repos, r))
      == if Below(source, r) in tree then Lookup(tree, Below(source, r)) else Lookup(t, Below(repos, r))
  {
    Packing(repos, r);
    ExtractLookup(t, Parent(repos), PackRepositories(tree, source), Below(repos, r));
    PackedLookup(tree, source, [repos[|repos| - 1]] + r);
    assert Parent(repos) <= Below(repos, r);
  }

  lemma UnpackWithin(t: Tree, repos: Path, tree: Tree, source: Path)
    requires repos != [] && source != [] && repos[|repos| - 1] == source[|source| - 1]
    requires Extract(t, Parent(repos), PackRepositories(tree, source)).Ok?
    ensures Within(t, Extract(t, Parent(repos), PackRepositories(tree, source)).value, [repos])
  {
    var packed := PackRepositories(tree, source);
    forall x: Path | !Under(x, [repos])
      ensures Lookup(Extract(t, Parent(repos), packed).value, x) == Lookup(t, x)
    {
      assert [repos][0] == repos;
      ExtractLookup(t, Parent(repos), packed, x);
      if Parent(repos) <= x {
        var y := x[|Parent(repos)|..];
        PackedLookup(tree, source, y);
        assert x == Parent(repos) + y;
        if y in packed {
          Unpacked(repos, y);
        }
      }
    }
  }
}
