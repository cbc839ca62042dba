/** What the hooks make of the pushes that Git writes, update by update and in plain terms. */
module PushVerdicts {
  import opened Wrappers
  import opened GoStrings
  import opened LineScanners
  import opened CommitGraph
  import opened PreReceive
  import opened ProtectedHistory

  // ---- Pushes as Git writes them ------------------------------------------------------------------------

  /** One update of a push. */
  datatype Update = Update(oldID: Commit, newID: Commit, ref: string)

  /** The standard input of the hooks. */
  function Written(us: seq<Update>): string {
    if us == [] then "" else us[0].oldID + " " + us[0].newID + " " + us[0].ref + "\n" + Written(us[1..])
  }

  /** Git writes object names, and no ref with a control character or a space. The gate reads the ref
      if it has no other white space either. */
  predicate Readable(u: Update) {
    IsObjectName(u.oldID) && IsObjectName(u.newID) && u.ref != "" && GitAllows(u.ref) && NoSpace(u.ref)
  }

  predicate AllReadable(us: seq<Update>) {
    forall i :: 0 <= i < |us| ==> Readable(us[i])
  }

  /** The name under which protection rules are kept. */
  function BranchName(ref: string): string {
    if "refs/heads/" <= ref then ref[11..] else ref
  }

  /** The all-zero name: no commit. */
  predicate IsZero(id: Commit) {
    forall i :: 0 <= i < |id| ==> id[i] == '0'
  }

  lemma ZeroIsEmpty(id: Commit)
    requires IsObjectName(id)
    ensures IsZero(id) <==> id == EmptySHA()
  {
  }

  function GitLines(us: seq<Update>): (lines: seq<string>)
    ensures |lines| == |us|
    ensures forall i :: 0 <= i < |us| ==> lines[i] == GitLine(us[i].oldID, us[i].newID, us[i].ref)
  {
    seq(|us|, i requires 0 <= i < |us| => GitLine(us[i].oldID, us[i].newID, us[i].ref))
  }

  lemma ReadableLine(u: Update)
    requires Readable(u)
    ensures
      var line := GitLine(u.oldID, u.newID, u.ref);
      '\n' !in line && DropCR(line) == line && Fields(line) == [u.oldID, u.newID, u.ref]
  {
    var line := GitLine(u.oldID, u.newID, u.ref);
    GateReadsUpdateIff(u.oldID, u.newID, u.ref);
    assert '\n' !in u.oldID && '\n' !in u.newID && '\n' !in u.ref;
    assert line[|line| - 1] == u.ref[|u.ref| - 1];
  }

  /** The scanner gives the hooks one line for each update. */
  lemma {:induction false} LinesOfWritten(us: seq<Update>)
    requires AllReadable(us)
    ensures Lines(Written(us)) == GitLines(us)
  {
    if us == [] {
    } else {
      var line := GitLine(us[0].oldID, us[0].newID, us[0].ref);
      assert Readable(us[0]);
      ReadableLine(us[0]);
      LinesOfWritten(us[1..]);
      LinesCons(line, Written(us[1..]));
      assert Written(us) == line + "\n" + Written(us[1..]);
      assert GitLines(us) == [line] + GitLines(us[1..]);
    }
  }

  // ---- The pre-receive hook ------------------------------------------------------------------------------

  /** The pusher may push to the branch directly: as a member of the whitelist, where there is one,
      whether pull requests are required or not; and otherwise if they are not required. */
  predicate DirectPushAllowed(push: Push, branch: string)
    requires branch in push.rules && push.rules[branch].Rule?
  {
    if push.rules[branch].enableWhitelist then (push.userID, branch) in push.whitelist else !push.rules[branch].requirePullRequest
  }

  /** What may be pushed: anything where there is no rule or the rule is switched off, deletions and
      forced updates included; and else an update by somebody who may push directly, to a commit that
      has the old one in its history. */
  ghost predicate Permitted(push: Push, u: Update) {
    var branch := BranchName(u.ref);
    || branch !in push.rules || push.rules[branch] == NoRule
    || (push.rules[branch].Rule? && !push.rules[branch].isProtected)
    || (push.rules[branch].Rule? && DirectPushAllowed(push, branch) && !IsZero(u.newID) && Reaches(push.graph, u.newID, u.oldID))
  }

  lemma BranchNameIsTrimmed(ref: string)
    ensures TrimPrefix(ref, BRANCH_PREFIX) == BranchName(ref)
  {
  }

  lemma LineAllowedIff(push: Push, u: Update)
    requires Readable(u)
    ensures LineAllowed(push, GitLine(u.oldID, u.newID, u.ref)) <==> Permitted(push, u)
  {
    ReadableLine(u);
    BranchNameIsTrimmed(u.ref);
    ZeroIsEmpty(u.newID);
    if Reaches(push.graph, u.newID, u.oldID) {
      var p :| IsPath(push.graph, p) && p[0] == u.newID && p[|p| - 1] == u.oldID;
      assert u.newID in push.graph && u.oldID in push.graph;
    }
  }

  /** A push over SSH to a repository is accepted exactly when every update is permitted and no
      custom hook fails. */
  lemma PushAcceptedIff(push: Push, us: seq<Update>)
    requires push.ssh && !push.wiki && AllReadable(us) && push.stdin == Written(us)
    ensures HookVerdict(push) == Accepted
            <==> push.customHook != Some(false) && forall i :: 0 <= i < |us| ==> Permitted(push, us[i])
  {
    var lines := GitLines(us);
    LinesOfWritten(us);
    AcceptedIff(push);
    forall i | 0 <= i < |us|
      ensures LineAllowed(push, lines[i]) <==> Permitted(push, us[i])
    {
      LineAllowedIff(push, us[i]);
    }
    if forall line :: line in lines ==> LineAllowed(push, line) {
      forall i | 0 <= i < |us|
        ensures Permitted(push, us[i])
      {
        assert lines[i] in lines;
      }
    }
  }

  /** Pushes that do not come over SSH, or go to a wiki, are not checked. */
  lemma UncheckedPush(push: Push)
    requires !push.ssh || push.wiki
    ensures HookVerdict(push) == if push.ssh && push.customHook == Some(false) then InternalError else Accepted
  {
  }

  /** The first update that is not permitted decides the verdict, by the first check that it fails. */
  lemma RefusalSaysWhy(push: Push, us: seq<Update>, i: nat)
    requires push.ssh && !push.wiki && AllReadable(us) && push.stdin == Written(us)
    requires i < |us| && !Permitted(push, us[i]) && forall j :: 0 <= j < i ==> Permitted(push, us[j])
    ensures
      var branch, verdict := BranchName(us[i].ref), HookVerdict(push);
      var rule := push.rules[branch];
      && (rule == LookupFailed ==> verdict == InternalError)
      && (rule.Rule? && !DirectPushAllowed(push, branch) && rule.enableWhitelist ==> verdict == NotInWhitelist(branch))
      && (rule.Rule? && !DirectPushAllowed(push, branch) && !rule.enableWhitelist ==> verdict == PullRequestOnly(branch))
      && (rule.Rule? && DirectPushAllowed(push, branch) ==>
            verdict == if IsZero(us[i].newID) then NoDeletion(branch)
                       else if us[i].oldID !in push.graph || us[i].newID !in push.graph then InternalError
                       else NoForcePush(branch))
  {
    var lines := GitLines(us);
    LinesOfWritten(us);
    VerdictIsConjunction(push, lines);
    forall j | 0 <= j <= i
      ensures LineAllowed(push, lines[j]) <==> Permitted(push, us[j])
    {
      LineAllowedIff(push, us[j]);
    }
    assert lines[i] in lines;
    assert FirstComplaint(push, lines) == Complaint(push, lines[i]);
    ReadableLine(us[i]);
    assert Readable(us[i]);
    BranchNameIsTrimmed(us[i].ref);
    ZeroIsEmpty(us[i].newID);
  }

  // ---- What it does to the repository -----------------------------------------------------------------------

  /** The ref moves, appears or goes, if it is where the update says. */
  function Moved(refs: map<string, Commit>, u: Update): map<string, Commit> {
    if (if u.ref in refs then refs[u.ref] != u.oldID else !IsZero(u.oldID)) then refs
    else if IsZero(u.newID) then refs - {u.ref}
    else refs[u.ref := u.newID]
  }

  function AllMoved(refs: map<string, Commit>, us: seq<Update>): map<string, Commit>
    decreases |us|
  {
    if us == [] then refs else AllMoved(Moved(refs, us[0]), us[1..])
  }

  lemma {:induction false} LinesMove(refs: map<string, Commit>, us: seq<Update>)
    requires AllReadable(us)
    ensures ApplyLines(refs, GitLines(us)) == AllMoved(refs, us)
    decreases |us|
  {
    if us == [] {
    } else {
      var u, lines := us[0], GitLines(us);
      assert Readable(u);
      GitLineParts(u.oldID, u.newID, u.ref);
      ZeroIsEmpty(u.oldID);
      ZeroIsEmpty(u.newID);
      assert lines[0] == GitLine(u.oldID, u.newID, u.ref) && lines[1..] == GitLines(us[1..]);
      LinesMove(Moved(refs, u), us[1..]);
    }
  }

  /** A push whose updates are all permitted is carried out; one with an update that is not leaves
      the repository as it was. */
  lemma PushMovesRefs(server: Server, push: Push, us: seq<Update>)
    requires push.ssh && !push.wiki && AllReadable(us) && push.stdin == Written(us) && push.customHook != Some(false)
    ensures AfterPush(server, push)
            == if forall i :: 0 <= i < |us| ==> Permitted(push, us[i]) then Server(push.graph, AllMoved(server.refs, us)) else server
  {
    PushAcceptedIff(push, us);
    LinesOfWritten(us);
    LinesMove(server.refs, us);
  }

  // ---- The post-receive hook -------------------------------------------------------------------------------

  lemma {:induction false} UpdatesOfLines(us: seq<Update>)
    requires AllReadable(us)
    ensures |UpdatesOf(GitLines(us))| == |us|
    ensures forall i :: 0 <= i < |us| ==>
              var call := UpdatesOf(GitLines(us))[i];
              call.oldCommitID == us[i].oldID && call.newCommitID == us[i].newID && call.refFullName == us[i].ref
  {
    if us == [] {
    } else {
      var lines := GitLines(us);
      assert Readable(us[0]);
      ReadableLine(us[0]);
      UpdatesOfLines(us[1..]);
      assert lines[1..] == GitLines(us[1..]);
      assert UpdatesOf(lines) == UpdateOf(lines[0]) + UpdatesOf(lines[1..]);
    }
  }

  /** It asks for one push update for each update of the push, in order, with the old and the new
      commit and the full name of the ref. */
  lemma PostReceiveReportsUpdates(us: seq<Update>)
    requires AllReadable(us)
    ensures |UpdatesOf(Lines(Written(us)))| == |us|
    ensures forall i :: 0 <= i < |us| ==>
              var call := UpdatesOf(Lines(Written(us)))[i];
              call.oldCommitID == us[i].oldID && call.newCommitID == us[i].newID && call.refFullName == us[i].ref
  {
    LinesOfWritten(us);
    UpdatesOfLines(us);
  }
}
