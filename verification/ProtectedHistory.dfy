/** Whole histories of pushes through the gate: what branch protection guarantees in the end. */
module ProtectedHistory {
  import opened Wrappers
  import opened GoStrings
  import opened LineScanners
  import opened CommitGraph
  import opened PreReceive

  /** A repository: its commits and its refs. */
  datatype Server = Server(graph: Graph, refs: map<string, Commit>)

  function Tip(refs: map<string, Commit>, ref: string): Commit {
    if ref in refs then refs[ref] else EmptySHA()
  }

  /** A line as Git writes it for one update: two object names and the ref, with one space
      between them. The ref is everything after the second space. */
  function GitLine(oldID: Commit, newID: Commit, ref: string): string {
    oldID + " " + newID + " " + ref
  }

  predicate IsObjectName(s: string) {
    |s| == 40 && forall i :: 0 <= i < 40 ==> '0' <= s[i] <= '9' || 'a' <= s[i] <= 'f'
  }

  predicate IsGitLine(line: string) {
    && |line| > 82 && line[40] == ' ' && line[81] == ' '
    && IsObjectName(line[..40]) && IsObjectName(line[41..81])
  }

  /** What Git does with one accepted line, whatever the gate has read in it: it moves the ref if
      the old value named in the line is still the current one. */
  function ApplyLine(refs: map<string, Commit>, line: string): map<string, Commit> {
    if !IsGitLine(line) then refs else ApplyUpdate(refs, line[..40], line[41..81], line[82..])
  }

  function ApplyUpdate(refs: map<string, Commit>, oldID: Commit, newID: Commit, ref: string): map<string, Commit> {
    if Tip(refs, ref) != oldID then refs
    else if newID == EmptySHA() then refs - {ref}
    else refs[ref := newID]
  }

  function ApplyLines(refs: map<string, Commit>, lines: seq<string>): map<string, Commit>
    decreases |lines|
  {
    if lines == [] then refs else ApplyLines(ApplyLine(refs, lines[0]), lines[1..])
  }

  /** A rejected push leaves the repository as it was. */
  ghost function AfterPush(server: Server, push: Push): Server {
    if HookVerdict(push) == Accepted then Server(push.graph, ApplyLines(server.refs, Lines(push.stdin))) else server
  }

  ghost function AfterPushes(server: Server, pushes: seq<Push>): Server
    decreases |pushes|
  {
    if pushes == [] then server else AfterPushes(AfterPush(server, pushes[0]), pushes[1..])
  }

  /** Every push brings its commits on top of what the repository has, and throughout the run
      `branch` is protected and pushes come over SSH to the repository, not to its wiki. */
  ghost predicate ProtectedRun(server: Server, pushes: seq<Push>, branch: string)
    decreases |pushes|
  {
    pushes != [] ==>
      && ProtectedPush(server, pushes[0], branch)
      && ProtectedRun(AfterPush(server, pushes[0]), pushes[1..], branch)
  }

  ghost predicate ProtectedPush(server: Server, push: Push, branch: string) {
    && Closed(push.graph) && Grows(server.graph, push.graph)
    && EmptySHA() !in push.graph
    && push.ssh && !push.wiki
    && IsProtected(push, branch)
  }

  predicate IsProtected(push: Push, branch: string) {
    RuleOf(push, branch).Rule? && RuleOf(push, branch).isProtected
  }

  /** The later tip keeps everything that the earlier one reached. */
  ghost predicate KeepsHistory(g: Graph, tip: Commit, g': Graph, tip': Commit) {
    tip' in g' && forall c :: Reaches(g, tip, c) ==> Reaches(g', tip', c)
  }

  // ---- What the gate reads in a line of Git ------------------------------------------------------------

  lemma GitLineParts(oldID: Commit, newID: Commit, ref: string)
    requires IsObjectName(oldID) && IsObjectName(newID) && ref != ""
    ensures
      var line := GitLine(oldID, newID, ref);
      IsGitLine(line) && line[..40] == oldID && line[41..81] == newID && line[82..] == ref
  {
  }

  lemma PartsOfGitLine(line: string)
    requires IsGitLine(line)
    ensures line == GitLine(line[..40], line[41..81], line[82..])
  {
  }

  lemma ObjectNameHasNoSpace(s: string)
    requires IsObjectName(s)
    ensures s != "" && NoSpace(s)
  {
  }

  lemma GitLineFields(oldID: Commit, newID: Commit, ref: string)
    requires IsObjectName(oldID) && IsObjectName(newID)
    ensures Fields(GitLine(oldID, newID, ref)) == [oldID, newID] + Fields(ref)
  {
    ObjectNameHasNoSpace(oldID);
    ObjectNameHasNoSpace(newID);
    assert GitLine(oldID, newID, ref) == oldID + " " + (newID + " " + ref);
    FieldsThree(oldID, newID, ref, newID + " " + ref);
  }

  lemma FieldsThree(a: string, b: string, ref: string, rest: string)
    requires a != "" && NoSpace(a) && b != "" && NoSpace(b) && rest == b + " " + ref
    ensures Fields(a + " " + rest) == [a, b] + Fields(ref)
  {
    FieldsTwo(a, rest);
    FieldsTwo(b, ref);
    assert [a] + ([b] + Fields(ref)) == [a, b] + Fields(ref);
  }

  lemma FieldsTwo(w: string, rest: string)
    requires w != "" && NoSpace(w)
    ensures Fields(w + " " + rest) == [w] + Fields(rest)
  {
    var tail := " " + rest;
    assert w + " " + rest == w + tail && tail[0] == ' ' && tail[1..] == rest;
    FieldsCons(w, tail);
  }

  /** The gate reads the three parts that Git has written exactly when the ref has no white space
      in it, of which Git forbids only the ASCII kind. */
  lemma GateReadsUpdateIff(oldID: Commit, newID: Commit, ref: string)
    requires IsObjectName(oldID) && IsObjectName(newID) && ref != ""
    ensures Fields(GitLine(oldID, newID, ref)) == [oldID, newID, ref] <==> NoSpace(ref)
  {
    GitLineFields(oldID, newID, ref);
    OneField(ref);
    var tail := Fields(GitLine(oldID, newID, ref))[2..];
    assert tail == Fields(ref);
    assert [oldID, newID] + [ref] == [oldID, newID, ref];
  }

  lemma RefHasNoSpaceIff(branch: string)
    ensures NoSpace(BRANCH_PREFIX + branch) <==> NoSpace(branch)
  {
    var ref, n := BRANCH_PREFIX + branch, |BRANCH_PREFIX|;
    assert NoSpace(BRANCH_PREFIX);
    assert forall i :: 0 <= i < |branch| ==> ref[n + i] == branch[i];
    if NoSpace(ref) {
      forall i | 0 <= i < |branch|
        ensures !IsSpace(branch[i])
      {
        assert !IsSpace(ref[n + i]);
      }
    }
  }

  /** So a line that moves a branch without white space is read as it is meant. */
  lemma GateReadsBranch(line: string, branch: string)
    requires NoSpace(branch) && IsGitLine(line) && line[82..] == BRANCH_PREFIX + branch
    ensures Fields(line) == [line[..40], line[41..81], BRANCH_PREFIX + branch]
  {
    PartsOfGitLine(line);
    RefHasNoSpaceIff(branch);
    GateReadsUpdateIff(line[..40], line[41..81], BRANCH_PREFIX + branch);
  }

  // ---- One push -----------------------------------------------------------------------------------

  lemma BranchOfRef(branch: string)
    ensures TrimPrefix(BRANCH_PREFIX + branch, BRANCH_PREFIX) == branch
  {
  }

  /** An allowed line keeps a protected branch that the gate can read, with the old tip in its
      history. */
  lemma LineKeepsBranch(push: Push, refs: map<string, Commit>, line: string, branch: string)
    requires NoSpace(branch)
    requires IsProtected(push, branch) && EmptySHA() !in push.graph && LineAllowed(push, line)
    ensures
      var ref, refs' := BRANCH_PREFIX + branch, ApplyLine(refs, line);
      && (ref in refs && refs[ref] in push.graph ==>
            ref in refs' && refs'[ref] in push.graph && Reaches(push.graph, refs'[ref], refs[ref]))
      && (ref !in refs ==> ref !in refs')
  {
    var ref := BRANCH_PREFIX + branch;
    if ref in refs && refs[ref] in push.graph {
      ReachesSelf(push.graph, refs[ref]);
    }
    if IsGitLine(line) && line[82..] == ref {
      ReadBranchIsAllowed(push, line, branch);
    }
  }

  /** The gate has checked an allowed line against the rule of the branch that it moves. */
  lemma ReadBranchIsAllowed(push: Push, line: string, branch: string)
    requires NoSpace(branch) && LineAllowed(push, line) && IsGitLine(line) && line[82..] == BRANCH_PREFIX + branch
    ensures UpdateAllowed(push, line[..40], line[41..81], branch)
  {
    GateReadsBranch(line, branch);
    BranchOfRef(branch);
  }

  lemma {:induction false} LinesKeepBranch(push: Push, refs: map<string, Commit>, lines: seq<string>, branch: string)
    requires NoSpace(branch)
    requires IsProtected(push, branch) && EmptySHA() !in push.graph
    requires forall line :: line in lines ==> LineAllowed(push, line)
    ensures
      var ref, refs' := BRANCH_PREFIX + branch, ApplyLines(refs, lines);
      && (ref in refs && refs[ref] in push.graph ==>
            ref in refs' && refs'[ref] in push.graph && Reaches(push.graph, refs'[ref], refs[ref]))
      && (ref !in refs ==> ref !in refs')
    decreases |lines|
  {
    var ref := BRANCH_PREFIX + branch;
    if lines == [] {
      if ref in refs && refs[ref] in push.graph {
        ReachesSelf(push.graph, refs[ref]);
      }
    } else {
      var mid := ApplyLine(refs, lines[0]);
      assert lines[0] in lines;
      LineKeepsBranch(push, refs, lines[0], branch);
      LinesKeepBranch(push, mid, lines[1..], branch);
      if ref in refs && refs[ref] in push.graph {
        ReachesTransitive(push.graph, ApplyLines(mid, lines[1..])[ref], mid[ref], refs[ref]);
      }
    }
  }

  lemma PushKeepsBranch(server: Server, push: Push, branch: string)
    requires NoSpace(branch) && ProtectedPush(server, push, branch)
    ensures
      var ref, server' := BRANCH_PREFIX + branch, AfterPush(server, push);
      && (ref in server.refs && server.refs[ref] in server.graph ==>
            && ref in server'.refs
            && KeepsHistory(server.graph, server.refs[ref], server'.graph, server'.refs[ref]))
      && (ref !in server.refs ==> ref !in server'.refs)
  {
    var ref := BRANCH_PREFIX + branch;
    if HookVerdict(push) == Accepted {
      AcceptedIff(push);
      LinesKeepBranch(push, server.refs, Lines(push.stdin), branch);
      if ref in server.refs && server.refs[ref] in server.graph {
        var tip, tip' := server.refs[ref], AfterPush(server, push).refs[ref];
        forall c | Reaches(server.graph, tip, c)
          ensures Reaches(push.graph, tip', c)
        {
          ReachesGrows(server.graph, push.graph, tip, c);
          ReachesTransitive(push.graph, tip', tip, c);
        }
      }
    }
  }

  // ---- Whole runs ----------------------------------------------------------------------------------

  /** The branch exists, and its tip is a commit. */
  predicate HasBranch(server: Server, branch: string) {
    BRANCH_PREFIX + branch in server.refs && server.refs[BRANCH_PREFIX + branch] in server.graph
  }

  /** The branch is still there, and everything its old tip reached is reached by its new tip. */
  ghost predicate BranchKept(server: Server, final: Server, branch: string)
    requires HasBranch(server, branch)
  {
    var ref := BRANCH_PREFIX + branch;
    ref in final.refs && KeepsHistory(server.graph, server.refs[ref], final.graph, final.refs[ref])
  }

  /** Over every run in which a branch stays protected, it is never deleted, and everything its
      old tip reached is reached by its new tip, if its name has no white space in it. */
  lemma {:induction false} ProtectedHistoryOnlyGrows(server: Server, pushes: seq<Push>, branch: string)
    requires NoSpace(branch) && ProtectedRun(server, pushes, branch) && HasBranch(server, branch)
    ensures BranchKept(server, AfterPushes(server, pushes), branch)
    decreases |pushes|
  {
    if pushes == [] {
    } else {
      var next := AfterPush(server, pushes[0]);
      PushKeepsBranch(server, pushes[0], branch);
      ProtectedHistoryOnlyGrows(next, pushes[1..], branch);
    }
  }

  /** The other side of the same rule: a protected branch that does not exist cannot be pushed,
      because `rev-list` does not know the all-zero old tip of a creation. */
  lemma {:induction false} ProtectedBranchIsNeverCreated(server: Server, pushes: seq<Push>, branch: string)
    requires NoSpace(branch) && ProtectedRun(server, pushes, branch) && BRANCH_PREFIX + branch !in server.refs
    ensures BRANCH_PREFIX + branch !in AfterPushes(server, pushes).refs
    decreases |pushes|
  {
    if pushes == [] {
    } else {
      PushKeepsBranch(server, pushes[0], branch);
      ProtectedBranchIsNeverCreated(AfterPush(server, pushes[0]), pushes[1..], branch);
    }
  }

  /** Nobody in the run may push `branch` directly. */
  predicate NoDirectPush(push: Push, branch: string) {
    IsProtected(push, branch)
    && if RuleOf(push, branch).enableWhitelist then (push.userID, branch) !in push.whitelist
       else RuleOf(push, branch).requirePullRequest
  }

  lemma {:induction false} LinesLeaveBranch(push: Push, refs: map<string, Commit>, lines: seq<string>, branch: string)
    requires NoSpace(branch) && NoDirectPush(push, branch) && forall line :: line in lines ==> LineAllowed(push, line)
    ensures Tip(ApplyLines(refs, lines), BRANCH_PREFIX + branch) == Tip(refs, BRANCH_PREFIX + branch)
    decreases |lines|
  {
    if lines == [] {
    } else {
      var line := lines[0];
      assert line in lines;
      if IsGitLine(line) && line[82..] == BRANCH_PREFIX + branch {
        ReadBranchIsAllowed(push, line, branch);
        assert false;
      }
      LinesLeaveBranch(push, ApplyLine(refs, line), lines[1..], branch);
    }
  }

  /** When every pusher is outside the whitelist, or pull requests are required and no whitelist
      is in force, no run of pushes moves the branch at all. */
  lemma {:induction false} PullRequestOnlyIsFrozen(server: Server, pushes: seq<Push>, branch: string)
    requires NoSpace(branch) && ProtectedRun(server, pushes, branch)
    requires forall push :: push in pushes ==> NoDirectPush(push, branch)
    ensures Tip(AfterPushes(server, pushes).refs, BRANCH_PREFIX + branch) == Tip(server.refs, BRANCH_PREFIX + branch)
    decreases |pushes|
  {
    if pushes == [] {
    } else {
      assert pushes[0] in pushes;
      if HookVerdict(pushes[0]) == Accepted {
        AcceptedIff(pushes[0]);
        LinesLeaveBranch(pushes[0], server.refs, Lines(pushes[0].stdin), branch);
      }
      PullRequestOnlyIsFrozen(AfterPush(server, pushes[0]), pushes[1..], branch);
    }
  }

  // ---- White space in a branch name -----------------------------------------------------------------------

  /** Of what Git forbids in the name of a ref, control characters and the space matter here. White
      space that is not ASCII, such as U+00A0 or U+3000, it allows. */
  predicate GitAllows(branch: string) {
    forall i :: 0 <= i < |branch| ==> branch[i] > ' '
  }

  /** The push of somebody who may not push directly: one update of the branch. */
  function Intrusion(g: Graph, oldID: Commit, newID: Commit, branch: string): Push {
    Push(true, false, 0, GitLine(oldID, newID, BRANCH_PREFIX + branch) + "\n", g, map[branch := Rule(true, true, true)], {}, None)
  }

  lemma OneLine(line: string)
    requires '\n' !in line && line != "" && line[|line| - 1] != '\r'
    ensures Lines(line + "\n") == [line]
  {
    LinesCons(line, "");
    assert line + "\n" + "" == line + "\n";
    assert Lines("") == [];
  }

  lemma GitLineIsOneLine(oldID: Commit, newID: Commit, branch: string)
    requires IsObjectName(oldID) && IsObjectName(newID) && branch != "" && GitAllows(branch)
    ensures Lines(GitLine(oldID, newID, BRANCH_PREFIX + branch) + "\n") == [GitLine(oldID, newID, BRANCH_PREFIX + branch)]
  {
    var ref := BRANCH_PREFIX + branch;
    var line := GitLine(oldID, newID, ref);
    GitLineParts(oldID, newID, ref);
    assert '\n' !in oldID && '\n' !in newID && '\n' !in BRANCH_PREFIX && '\n' !in branch;
    assert line[|line| - 1] == branch[|branch| - 1];
    OneLine(line);
  }

  /** A field has no white space, and so it never names a branch that has some. */
  lemma FieldIsOtherBranch(s: string, f: string, branch: string)
    requires f in Fields(s) && !NoSpace(branch)
    ensures TrimPrefix(f, BRANCH_PREFIX) != branch
  {
    FieldsAreWords(s);
    var trimmed, n := TrimPrefix(f, BRANCH_PREFIX), |f| - |TrimPrefix(f, BRANCH_PREFIX)|;
    assert forall i :: 0 <= i < |trimmed| ==> trimmed[i] == f[n + i];
    assert NoSpace(trimmed);
  }

  /** The gate lets it pass unchecked: it finds more than three fields, or the name of another
      branch. */
  lemma IntrusionIsAccepted(g: Graph, oldID: Commit, newID: Commit, branch: string)
    requires IsObjectName(oldID) && IsObjectName(newID) && GitAllows(branch) && !NoSpace(branch)
    ensures HookVerdict(Intrusion(g, oldID, newID, branch)) == Accepted
    ensures NoDirectPush(Intrusion(g, oldID, newID, branch), branch)
  {
    var push := Intrusion(g, oldID, newID, branch);
    var line := GitLine(oldID, newID, BRANCH_PREFIX + branch);
    GitLineIsOneLine(oldID, newID, branch);
    if |Fields(line)| == 3 {
      FieldIsOtherBranch(line, Fields(line)[2], branch);
      assert RuleOf(push, TrimPrefix(Fields(line)[2], BRANCH_PREFIX)) == NoRule;
    }
    assert LineAllowed(push, line);
    AcceptedIff(push);
  }

  /** And Git carries it out. */
  lemma IntrusionIsApplied(server: Server, oldID: Commit, newID: Commit, branch: string)
    requires IsObjectName(oldID) && IsObjectName(newID) && GitAllows(branch) && !NoSpace(branch)
    ensures AfterPush(server, Intrusion(server.graph, oldID, newID, branch))
            == Server(server.graph, ApplyUpdate(server.refs, oldID, newID, BRANCH_PREFIX + branch))
  {
    var ref := BRANCH_PREFIX + branch;
    var line := GitLine(oldID, newID, ref);
    GitLineIsOneLine(oldID, newID, branch);
    GitLineParts(oldID, newID, ref);
    IntrusionIsAccepted(server.graph, oldID, newID, branch);
    assert [line][1..] == [];
    assert ApplyLines(server.refs, [line]) == ApplyLine(server.refs, line);
  }

  /** A branch with white space in its name is protected by no rule: on every server somebody whom
      the whitelist keeps out deletes it in one accepted push. */
  lemma SpacedBranchIsDeleted(server: Server, branch: string) returns (push: Push)
    requires GitAllows(branch) && !NoSpace(branch)
    requires Closed(server.graph) && EmptySHA() !in server.graph
    requires HasBranch(server, branch) && IsObjectName(server.refs[BRANCH_PREFIX + branch])
    ensures ProtectedPush(server, push, branch) && NoDirectPush(push, branch) && HookVerdict(push) == Accepted
    ensures AfterPush(server, push) == Server(server.graph, server.refs - {BRANCH_PREFIX + branch})
  {
    var tip := server.refs[BRANCH_PREFIX + branch];
    push := Intrusion(server.graph, tip, EmptySHA(), branch);
    IntrusionIsAccepted(server.graph, tip, EmptySHA(), branch);
    IntrusionIsApplied(server, tip, EmptySHA(), branch);
  }

  /** Or creates it, at any commit. */
  lemma SpacedBranchIsCreated(server: Server, branch: string, newID: Commit) returns (push: Push)
    requires GitAllows(branch) && !NoSpace(branch)
    requires Closed(server.graph) && EmptySHA() !in server.graph
    requires BRANCH_PREFIX + branch !in server.refs && newID in server.graph && IsObjectName(newID)
    ensures ProtectedPush(server, push, branch) && NoDirectPush(push, branch) && HookVerdict(push) == Accepted
    ensures AfterPush(server, push) == Server(server.graph, server.refs[BRANCH_PREFIX + branch := newID])
  {
    push := Intrusion(server.graph, EmptySHA(), newID, branch);
    IntrusionIsAccepted(server.graph, EmptySHA(), newID, branch);
    IntrusionIsApplied(server, EmptySHA(), newID, branch);
  }

  // ---- Which branches the gate protects ---------------------------------------------------------------------

  ghost predicate HistoryGuarded(branch: string) {
    forall server, pushes :: ProtectedRun(server, pushes, branch) && HasBranch(server, branch) ==>
      BranchKept(server, AfterPushes(server, pushes), branch)
  }

  ghost predicate CreationGuarded(branch: string) {
    forall server, pushes :: ProtectedRun(server, pushes, branch) && BRANCH_PREFIX + branch !in server.refs ==>
      BRANCH_PREFIX + branch !in AfterPushes(server, pushes).refs
  }

  ghost predicate DirectPushGuarded(branch: string) {
    forall server, pushes :: ProtectedRun(server, pushes, branch) && (forall push :: push in pushes ==> NoDirectPush(push, branch)) ==>
      Tip(AfterPushes(server, pushes).refs, BRANCH_PREFIX + branch) == Tip(server.refs, BRANCH_PREFIX + branch)
  }

  function Ones(): string {
    seq(40, _ => '1')
  }

  function OneCommitGraph(): Graph {
    map[Ones() := {}]
  }

  lemma OneCommit()
    ensures IsObjectName(Ones()) && Ones() != EmptySHA()
    ensures Closed(OneCommitGraph()) && EmptySHA() !in OneCommitGraph()
  {
    assert Ones()[0] != EmptySHA()[0];
  }

  lemma RunOfOne(server: Server, push: Push, branch: string)
    requires ProtectedPush(server, push, branch)
    ensures ProtectedRun(server, [push], branch) && AfterPushes(server, [push]) == AfterPush(server, push)
  {
    assert [push][1..] == [];
  }

  /** Protection keeps the history of exactly the branches whose names have no white space. */
  lemma HistoryGuardedIff(branch: string)
    requires GitAllows(branch)
    ensures HistoryGuarded(branch) <==> NoSpace(branch)
  {
    if NoSpace(branch) {
      forall server, pushes | ProtectedRun(server, pushes, branch) && HasBranch(server, branch)
        ensures BranchKept(server, AfterPushes(server, pushes), branch)
      {
        ProtectedHistoryOnlyGrows(server, pushes, branch);
      }
    } else {
      OneCommit();
      var server := Server(OneCommitGraph(), map[BRANCH_PREFIX + branch := Ones()]);
      var push := SpacedBranchIsDeleted(server, branch);
      RunOfOne(server, push, branch);
      assert !BranchKept(server, AfterPushes(server, [push]), branch);
    }
  }

  /** It keeps exactly these from being created. */
  lemma CreationGuardedIff(branch: string)
    requires GitAllows(branch)
    ensures CreationGuarded(branch) <==> NoSpace(branch)
  {
    if NoSpace(branch) {
      forall server, pushes | ProtectedRun(server, pushes, branch) && BRANCH_PREFIX + branch !in server.refs
        ensures BRANCH_PREFIX + branch !in AfterPushes(server, pushes).refs
      {
        ProtectedBranchIsNeverCreated(server, pushes, branch);
      }
    } else {
      OneCommit();
      var server := Server(OneCommitGraph(), map[]);
      var push := SpacedBranchIsCreated(server, branch, Ones());
      RunOfOne(server, push, branch);
      assert BRANCH_PREFIX + branch in AfterPushes(server, [push]).refs;
    }
  }

  /** And it holds exactly these in place against people who may not push directly. */
  lemma DirectPushGuardedIff(branch: string)
    requires GitAllows(branch)
    ensures DirectPushGuarded(branch) <==> NoSpace(branch)
  {
    if NoSpace(branch) {
      forall server, pushes | ProtectedRun(server, pushes, branch) && (forall push :: push in pushes ==> NoDirectPush(push, branch))
        ensures Tip(AfterPushes(server, pushes).refs, BRANCH_PREFIX + branch) == Tip(server.refs, BRANCH_PREFIX + branch)
      {
        PullRequestOnlyIsFrozen(server, pushes, branch);
      }
    } else {
      OneCommit();
      var server := Server(OneCommitGraph(), map[BRANCH_PREFIX + branch := Ones()]);
      var push := SpacedBranchIsDeleted(server, branch);
      RunOfOne(server, push, branch);
      assert Tip(AfterPushes(server, [push]).refs, BRANCH_PREFIX + branch) == EmptySHA();
    }
  }
}
