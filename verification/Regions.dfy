/** Regions of a disk: what a step that only touches some subtrees leaves alone. */
module Regions {
  import opened FileTrees

  /** The path is at or below one of the roots. */
  predicate Under(x: Path, roots: seq<Path>) {
    exists i :: 0 <= i < |roots| && roots[i] <= x
  }

  /** The trees differ at most below the given roots. */
  ghost predicate Within(t: Tree, u: Tree, roots: seq<Path>) {
    forall x: Path :: !Under(x, roots) ==> Lookup(u, x) == Lookup(t, x)
  }

  /** The region at `q` meets none of the roots. */
  predicate Clear(q: Path, roots: seq<Path>) {
    forall i :: 0 <= i < |roots| ==> Apart(roots[i], q)
  }

  lemma RegionKept(t: Tree, u: Tree, roots: seq<Path>, q: Path)
    requires Within(t, u, roots) && Clear(q, roots)
    ensures SameAt(u, q, t, q)
  {
    forall r: Path
      ensures Lookup(u, Below(q, r)) == Lookup(t, Below(q, r))
    {
      forall i | 0 <= i < |roots|
        ensures !(roots[i] <= Below(q, r))
      {
        BelowApart(q, roots[i], r);
      }
    }
  }

  lemma WithinThen(t: Tree, u: Tree, v: Tree, first: seq<Path>, second: seq<Path>)
    requires Within(t, u, first) && Within(u, v, second)
    ensures Within(t, v, first + second)
  {
    forall x: Path | !Under(x, first + second)
      ensures Lookup(v, x) == Lookup(t, x)
    {
      forall i | 0 <= i < |first|
        ensures !(first[i] <= x)
      {
        assert (first + second)[i] == first[i];
      }
      forall i | 0 <= i < |second|
        ensures !(second[i] <= x)
      {
        assert (first + second)[|first| + i] == second[i];
      }
    }
  }

  /** Paths that differ at one position are apart. */
  lemma ApartAt(p: Path, q: Path, i: nat)
    requires i < |p| && i < |q| && p[i] != q[i]
    ensures Apart(p, q)
  {
  }

  /** Going deeper keeps paths apart. */
  lemma ApartDeeper(p: Path, q: Path, r: Path)
    requires Apart(p, q)
    ensures Apart(p + r, q) && Apart(q, p + r)
  {
    BelowApart(p, q, r);
    assert Below(p, r) == p + r;
    assert (p + r)[..|p|] == p;
    assert p + r <= q ==> p <= q;
  }

  // ---- Equal and empty subtrees ------------------------------------------------------------------

  lemma SameAtRoot(t: Tree, p: Path, u: Tree, q: Path)
    requires SameAt(t, p, u, q)
    ensures Lookup(t, p) == Lookup(u, q)
  {
    assert Below(p, []) == p && Below(q, []) == q;
  }

  lemma SameAtBelow(t: Tree, p: Path, u: Tree, q: Path, r: Path)
    requires SameAt(t, p, u, q)
    ensures SameAt(t, p + r, u, q + r)
  {
    forall x: Path
      ensures Lookup(t, Below(p + r, x)) == Lookup(u, Below(q + r, x))
    {
      assert Below(p + r, x) == Below(p, r + x) && Below(q + r, x) == Below(q, r + x);
    }
  }

  lemma SameAtTransitive(t: Tree, p: Path, u: Tree, q: Path, v: Tree, w: Path)
    requires SameAt(t, p, u, q) && SameAt(u, q, v, w)
    ensures SameAt(t, p, v, w)
  {
    forall r: Path
      ensures Lookup(t, Below(p, r)) == Lookup(v, Below(w, r))
    {
      assert Lookup(t, Below(p, r)) == Lookup(u, Below(q, r));
    }
  }

  lemma AbsentMoves(t: Tree, p: Path, u: Tree, q: Path)
    requires Absent(t, p) && SameAt(u, q, t, p)
    ensures Absent(u, q)
  {
    forall r: Path
      ensures Below(q, r) !in u
    {
      assert Lookup(u, Below(q, r)) == Lookup(t, Below(p, r));
    }
  }

  /** In a well-formed tree whatever exists has a directory above it. */
  ghost predicate WellFormed(t: Tree) {
    IsDir(t, []) && forall x: Path :: x in t && x != [] ==> IsDir(t, Parent(x))
  }

  lemma MissingIsAbsent(t: Tree, p: Path)
    requires WellFormed(t) && p !in t
    ensures Absent(t, p)
  {
    forall r: Path
      ensures Below(p, r) !in t
    {
      MissingBelow(t, p, r);
    }
  }

  lemma {:induction false} MissingBelow(t: Tree, p: Path, r: Path)
    requires WellFormed(t) && p !in t
    ensures Below(p, r) !in t
  {
    if r == [] {
      assert Below(p, r) == p;
    } else {
      MissingBelow(t, p, Parent(r));
      assert Parent(Below(p, r)) == Below(p, Parent(r));
    }
  }

  // ---- What the operations touch ---------------------------------------------------------------------

  lemma CopyPlaces(to: Tree, target: Path, from: Tree, source: Path)
    requires Absent(to, target)
    ensures SameAt(Copy(to, target, from, source), target, from, source)
  {
    forall r: Path
      ensures Lookup(Copy(to, target, from, source), Below(target, r)) == Lookup(from, Below(source, r))
    {
      CopyLookup(to, target, from, source, Below(target, r));
      assert Below(target, r)[|target|..] == r;
    }
  }

  lemma CopyWithin(to: Tree, target: Path, from: Tree, source: Path)
    ensures Within(to, Copy(to, target, from, source), [target])
  {
    forall x: Path | !Under(x, [target])
      ensures Lookup(Copy(to, target, from, source), x) == Lookup(to, x)
    {
      assert [target][0] == target;
      CopyLookup(to, target, from, source, x);
    }
  }

  lemma UpdateWithin(t: Tree, p: Path, e: Entry)
    ensures Within(t, t[p := e], [p])
  {
    forall x: Path | !Under(x, [p])
      ensures Lookup(t[p := e], x) == Lookup(t, x)
    {
      assert [p][0] == p;
    }
  }

  lemma PruneWithin(t: Tree, p: Path)
    ensures Within(t, Prune(t, p), [p]) && Absent(Prune(t, p), p)
  {
    forall x: Path | !Under(x, [p])
      ensures Lookup(Prune(t, p), x) == Lookup(t, x)
    {
      assert [p][0] == p;
    }
  }

  /** Making directories leaves every region alone that does not start at or above the path. */
  lemma MkdirAllKeeps(t: Tree, p: Path, q: Path)
    requires !(q <= p)
    ensures SameAt(MkdirAll(t, p), q, t, q)
  {
    forall r: Path
      ensures Lookup(MkdirAll(t, p), Below(q, r)) == Lookup(t, Below(q, r))
    {
      MkdirAllAdds(t, p, Below(q, r));
      assert Below(q, r)[..|q|] == q;
      assert Below(q, r) <= p ==> q <= p;
    }
  }
}
