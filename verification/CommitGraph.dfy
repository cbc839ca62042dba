/** Commits as an immutable graph, and the reachability question behind `git rev-list`. */
module CommitGraph {
  import opened Wrappers

  type Commit = string
  /** Every known commit with its parents. */
  type Graph = map<Commit, set<Commit>>

  ghost predicate Closed(g: Graph) {
    forall c :: c in g ==> g[c] <= g.Keys
  }

  /** The i-th step of `p` goes from a commit to one of its parents. */
  ghost predicate ParentStep(g: Graph, p: seq<Commit>, i: nat)
    requires i + 1 < |p|
  {
    p[i] in g && p[i + 1] in g[p[i]]
  }

  /** `p` walks from a commit to a parent, again and again. */
  ghost predicate IsPath(g: Graph, p: seq<Commit>) {
    && p != []
    && (forall i :: 0 <= i < |p| ==> p[i] in g)
    && (forall i: nat :: i + 1 < |p| ==> ParentStep(g, p, i))
  }

  /** `to` is `from` or one of its ancestors. */
  ghost predicate Reaches(g: Graph, from: Commit, to: Commit) {
    exists p :: IsPath(g, p) && p[0] == from && p[|p| - 1] == to
  }

  lemma ReachesSelf(g: Graph, c: Commit)
    requires c in g
    ensures Reaches(g, c, c)
  {
    assert IsPath(g, [c]);
  }

  lemma ReachesTransitive(g: Graph, a: Commit, b: Commit, c: Commit)
    requires Reaches(g, a, b) && Reaches(g, b, c)
    ensures Reaches(g, a, c)
  {
    var p :| IsPath(g, p) && p[0] == a && p[|p| - 1] == b;
    var q :| IsPath(g, q) && q[0] == b && q[|q| - 1] == c;
    var r := p + q[1..];
    forall i: nat | i + 1 < |r|
      ensures ParentStep(g, r, i)
    {
      if i + 1 < |p| {
        assert ParentStep(g, p, i);
      } else {
        var k := i + 1 - |p|;
        assert ParentStep(g, q, k);
        assert r[i + 1] == q[k + 1] && r[i] == q[k];
      }
    }
    assert IsPath(g, r);
  }

  lemma ReachesParent(g: Graph, a: Commit, b: Commit, c: Commit)
    requires Closed(g) && Reaches(g, a, b) && b in g && c in g[b]
    ensures Reaches(g, a, c)
  {
    assert ParentStep(g, [b, c], 0);
    assert IsPath(g, [b, c]);
    assert Reaches(g, b, c);
    ReachesTransitive(g, a, b, c);
  }

  /** A set that contains `from` and every parent of its members contains all that `from` reaches. */
  lemma {:induction false} ClosedSetHolds(g: Graph, s: set<Commit>, p: seq<Commit>)
    requires IsPath(g, p) && p[0] in s && forall c :: c in s && c in g ==> g[c] <= s
    ensures p[|p| - 1] in s
    decreases |p|
  {
    if |p| == 1 {
    } else {
      var q := p[1..];
      assert ParentStep(g, p, 0);
      forall i: nat | i + 1 < |q|
        ensures ParentStep(g, q, i)
      {
        assert ParentStep(g, p, i + 1);
      }
      ClosedSetHolds(g, s, q);
    }
  }

  /** The commits that `start` reaches, by graph search. */
  method Ancestors(g: Graph, start: Commit) returns (seen: set<Commit>)
    requires Closed(g) && start in g
    ensures forall c :: c in seen <==> Reaches(g, start, c)
  {
    seen := {start};
    var todo := {start};
    ReachesSelf(g, start);
    while todo != {}
      invariant start in seen && todo <= seen <= g.Keys
      invariant forall c :: c in seen ==> Reaches(g, start, c)
      invariant forall c :: c in seen && c !in todo ==> g[c] <= seen
      decreases g.Keys - seen, todo
    {
      var c :| c in todo;
      var found := g[c] - seen;
      forall d | d in found
        ensures Reaches(g, start, d)
      {
        ReachesParent(g, start, c, d);
      }
      seen, todo := seen + found, todo - {c} + found;
    }
    forall c | Reaches(g, start, c)
      ensures c in seen
    {
      var p :| IsPath(g, p) && p[0] == start && p[|p| - 1] == c;
      ClosedSetHolds(g, seen, p);
    }
  }

  /** `git rev-list --max-count=1 from ^not`: at most one commit that `from` reaches and `not`
      does not; an error when either name is not a commit of the repository. */
  method RevList(g: Graph, from: Commit, not: Commit) returns (output: Result<seq<Commit>>)
    requires Closed(g)
    ensures output.Err? <==> from !in g || not !in g
    ensures output.Ok? ==> (output.value == [] <==> Reaches(g, not, from))
    ensures output.Ok? ==> |output.value| <= 1
    ensures output.Ok? ==> forall c :: c in output.value ==> Reaches(g, from, c) && !Reaches(g, not, c)
  {
    if from !in g || not !in g {
      return Err;
    }
    var wanted := Ancestors(g, from);
    var hidden := Ancestors(g, not);
    ReachesSelf(g, from);
    NothingNewIffAncestor(g, from, not);
    var shown := wanted - hidden;
    if shown == {} {
      forall c | c in wanted
        ensures c in hidden
      {
        assert c !in shown;
      }
      return Ok([]);
    }
    var c :| c in shown;
    output := Ok([c]);
  }

  /** An empty `rev-list from ^not` means exactly that `from` is an ancestor of `not`. */
  lemma NothingNewIffAncestor(g: Graph, from: Commit, not: Commit)
    requires from in g
    ensures (forall c :: Reaches(g, from, c) ==> Reaches(g, not, c)) <==> Reaches(g, not, from)
  {
    ReachesSelf(g, from);
    if Reaches(g, not, from) {
      forall c | Reaches(g, from, c)
        ensures Reaches(g, not, c)
      {
        ReachesTransitive(g, not, from, c);
      }
    }
  }

  /** Commits are immutable: a later graph knows at least as many, with the same parents. */
  ghost predicate Grows(g: Graph, later: Graph) {
    forall c :: c in g ==> c in later && later[c] == g[c]
  }

  lemma ReachesGrows(g: Graph, later: Graph, a: Commit, b: Commit)
    requires Grows(g, later) && Reaches(g, a, b)
    ensures Reaches(later, a, b)
  {
    var p :| IsPath(g, p) && p[0] == a && p[|p| - 1] == b;
    forall i: nat | i + 1 < |p|
      ensures ParentStep(later, p, i)
    {
      assert ParentStep(g, p, i);
    }
    assert IsPath(later, p);
  }

  /** Growth adds no ancestor to a known commit of a closed graph. */
  lemma AncestorsAreFixed(g: Graph, later: Graph, a: Commit, b: Commit)
    requires Closed(g) && Grows(g, later) && a in g
    ensures Reaches(g, a, b) <==> Reaches(later, a, b)
  {
    if Reaches(g, a, b) {
      ReachesGrows(g, later, a, b);
    }
    if Reaches(later, a, b) {
      var p :| IsPath(later, p) && p[0] == a && p[|p| - 1] == b;
      StaysInside(g, later, p);
    }
  }

  lemma StaysInside(g: Graph, later: Graph, p: seq<Commit>)
    requires Closed(g) && Grows(g, later) && IsPath(later, p) && p[0] in g
    ensures IsPath(g, p)
  {
    forall i: nat | i < |p|
      ensures p[i] in g
    {
      AllInside(g, later, p, i);
    }
    forall i: nat | i + 1 < |p|
      ensures ParentStep(g, p, i)
    {
      assert ParentStep(later, p, i);
    }
  }

  lemma {:induction false} AllInside(g: Graph, later: Graph, p: seq<Commit>, i: nat)
    requires Closed(g) && Grows(g, later) && IsPath(later, p) && p[0] in g && i < |p|
    ensures p[i] in g
  {
    if i == 0 {
    } else {
      AllInside(g, later, p, i - 1);
      assert ParentStep(later, p, i - 1);
    }
  }
}
