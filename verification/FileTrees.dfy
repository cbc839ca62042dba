/** File trees as maps from paths to entries, and the operations that backup and restore
    perform on them. */
module FileTrees {
  import opened Wrappers

  /** A path component. The names that the programs spell out are constructors of their own, so
      that different names differ by construction; `Bak(n)` is `n` with `.bak` appended. */
  datatype Name =
    | Named(s: string)
    | Bak(of: Name)
    | ArchiveRoot
    | Metadata
    | Db
    | Custom
    | Data
    | Attachments
    | Avatars
    | Repositories
    | Conf
    | AppIni

  type Path = seq<Name>

  /** A packed archive is itself a file; packing and extracting are inverses by construction. */
  datatype Entry = Dir | File(content: string) | Packed(entries: map<Path, Entry>)

  type Tree = map<Path, Entry>

  function Lookup(t: Tree, p: Path): Option<Entry> {
    if p in t then Some(t[p]) else None
  }

  predicate IsDir(t: Tree, p: Path) {
    p in t && t[p].Dir?
  }

  function Parent(p: Path): Path
    requires p != []
  {
    p[..|p| - 1]
  }

  /** The paths of the subtree at `source`, seen from `target`. */
  function Relocated(from: Tree, source: Path, target: Path): (places: set<Path>)
    ensures forall x: Path :: x in places <==> target <= x && source + x[|target|..] in from
  {
    var places := set y | y in from && source <= y :: target + y[|source|..];
    assert forall x: Path :: x in places <==> target <= x && source + x[|target|..] in from by {
      forall x: Path
        ensures x in places <==> target <= x && source + x[|target|..] in from
      {
        RelocatedOne(from, source, target, places, x);
      }
    }
    places
  }

  lemma RelocatedOne(from: Tree, source: Path, target: Path, places: set<Path>, x: Path)
    requires places == set y | y in from && source <= y :: target + y[|source|..]
    ensures x in places <==> target <= x && source + x[|target|..] in from
  {
    if target <= x && source + x[|target|..] in from {
      var y := source + x[|target|..];
      assert y[|source|..] == x[|target|..];
      assert x == target + y[|source|..];
    }
    if x in places {
      var y :| y in from && source <= y && target + y[|source|..] == x;
      assert x[|target|..] == y[|source|..];
      assert source + x[|target|..] == y;
    }
  }

  /** `to` overlaid with everything of `from`'s subtree at `source`, placed at `target`. */
  function Copy(to: Tree, target: Path, from: Tree, source: Path): Tree {
    to + map x | x in Relocated(from, source, target) :: from[source + x[|target|..]]
  }

  /** `os.RemoveAll`. */
  function Prune(t: Tree, p: Path): Tree {
    map x | x in t && !(p <= x) :: t[x]
  }

  /** `os.Rename`: refuses a missing source, a missing target directory, an existing target
      directory, a directory over a file, and a move into itself. */
  function Rename(t: Tree, from: Path, to: Path): Result<Tree>
    requires to != []
  {
    if from !in t || !IsDir(t, Parent(to)) then Err
    else if IsDir(t, to) || (to in t && t[from].Dir?) then Err
    else if from <= to then (if from == to then Ok(t) else Err)
    else Ok(Copy(Prune(Prune(t, from), to), to, t, from))
  }

  /** Extraction overlays the archive; a file in the place of a directory, or the reverse, makes
      it fail. */
  function Extract(t: Tree, dir: Path, archive: Tree): Result<Tree> {
    if exists x :: x in archive && dir + x in t && t[dir + x].Dir? != archive[x].Dir? then Err
    else Ok(Copy(t, dir, archive, []))
  }

  /** `os.MkdirAll`, whose error the caller ignores: it stops below a file. */
  function MkdirAll(t: Tree, p: Path): Tree {
    if p == [] || p in t then t
    else
      var above := MkdirAll(t, Parent(p));
      if IsDir(above, Parent(p)) then above[p := Dir] else above
  }

  // ---- What the operations do, path by path --------------------------------------------------------

  lemma CopyLookup(to: Tree, target: Path, from: Tree, source: Path, x: Path)
    ensures Lookup(Copy(to, target, from, source), x)
            == if target <= x && source + x[|target|..] in from then Some(from[source + x[|target|..]]) else Lookup(to, x)
  {
  }

  /** The path `r` inside `p`. */
  function Below(p: Path, r: Path): Path {
    p + r
  }

  /** The subtree at `p` of `t` is the subtree at `q` of `u`. */
  ghost predicate SameAt(t: Tree, p: Path, u: Tree, q: Path) {
    forall r: Path :: Lookup(t, Below(p, r)) == Lookup(u, Below(q, r))
  }

  /** Nothing exists at or below `p`. */
  ghost predicate Absent(t: Tree, p: Path) {
    forall r: Path :: Below(p, r) !in t
  }

  /** Neither path is inside the other. */
  predicate Apart(p: Path, q: Path) {
    !(p <= q) && !(q <= p)
  }

  /** A path below one of two apart paths is not below the other. */
  lemma BelowApart(p: Path, q: Path, r: Path)
    requires Apart(p, q)
    ensures !(q <= Below(p, r))
  {
    assert (p + r)[..|p|] == p;
    if |q| <= |p| {
      assert (p + r)[..|q|] == p[..|q|];
    }
  }

  /** A rename to a place where no directory stands, and no file either if a directory is moved,
      moves the whole subtree and touches nothing else. */
  lemma RenameMoves(t: Tree, from: Path, to: Path)
    requires to != [] && from in t && IsDir(t, Parent(to)) && Apart(from, to)
    requires to in t ==> !IsDir(t, to) && !IsDir(t, from)
    ensures Rename(t, from, to).Ok?
    ensures
      var t' := Rename(t, from, to).value;
      && SameAt(t', to, t, from)
      && Absent(t', from)
      && (forall x: Path :: !(from <= x) && !(to <= x) ==> Lookup(t', x) == Lookup(t, x))
  {
    var t' := Rename(t, from, to).value;
    var rest := Prune(Prune(t, from), to);
    forall r: Path
      ensures Lookup(t', Below(to, r)) == Lookup(t, Below(from, r))
    {
      CopyLookup(rest, to, t, from, Below(to, r));
      assert Below(to, r)[|to|..] == r;
    }
    forall r: Path
      ensures Below(from, r) !in t'
    {
      BelowApart(from, to, r);
      CopyLookup(rest, to, t, from, Below(from, r));
    }
    forall x: Path | !(from <= x) && !(to <= x)
      ensures Lookup(t', x) == Lookup(t, x)
    {
      CopyLookup(rest, to, t, from, x);
    }
  }

  /** Extraction gives every archived path its archived entry and keeps every other path. */
  lemma ExtractLookup(t: Tree, dir: Path, archive: Tree, x: Path)
    requires Extract(t, dir, archive).Ok?
    ensures Lookup(Extract(t, dir, archive).value, x)
            == if dir <= x && x[|dir|..] in archive then Some(archive[x[|dir|..]]) else Lookup(t, x)
  {
    CopyLookup(t, dir, archive, [], x);
    if dir <= x {
      assert [] + x[|dir|..] == x[|dir|..];
    }
  }

  /** Making directories adds only missing ancestors-or-self of the path. */
  lemma {:induction false} MkdirAllAdds(t: Tree, p: Path, x: Path)
    ensures Lookup(MkdirAll(t, p), x) == Lookup(t, x)
            || (x !in t && x <= p && Lookup(MkdirAll(t, p), x) == Some(Dir))
  {
    if p == [] || p in t {
    } else {
      MkdirAllAdds(t, Parent(p), x);
    }
  }

  /** It stops at a file: nothing is made below one. */
  lemma {:induction false} MkdirAllStopsAtFile(t: Tree, p: Path, file: Path)
    requires file <= p && file in t && !IsDir(t, file)
    requires forall n :: |file| < n <= |p| ==> p[..n] !in t
    ensures MkdirAll(t, p) == t
  {
    assert p[..|p|] == p;
    if p == file {
    } else {
      var above := Parent(p);
      assert file <= above;
      forall n | |file| < n <= |above|
        ensures above[..n] !in t
      {
        assert above[..n] == p[..n];
      }
      MkdirAllStopsAtFile(t, above, file);
      if above != file {
        assert p[..|above|] == above;
      }
    }
  }

  /** It succeeds when the ancestors that exist are directories. */
  lemma {:induction false} MkdirAllMakes(t: Tree, p: Path)
    requires IsDir(t, []) && forall n :: 0 <= n <= |p| && p[..n] in t ==> t[p[..n]].Dir?
    ensures IsDir(MkdirAll(t, p), p)
  {
    assert p[..|p|] == p;
    if p == [] || p in t {
    } else {
      var above := Parent(p);
      forall n | 0 <= n <= |above| && above[..n] in t
        ensures t[above[..n]].Dir?
      {
        assert above[..n] == p[..n];
      }
      MkdirAllMakes(t, above);
    }
  }
}
