/** The Git hooks of Gogs: the pre-receive gate that enforces branch protection, and the
    buffering of their standard input for the custom hooks. */
module PreReceive {
  import opened Wrappers
  import opened GoStrings
  import opened LineScanners
  import opened CommitGraph

  const BRANCH_PREFIX := "refs/heads/"

  /** Forty zeros, the name Git uses for "no commit". */
  function EmptySHA(): string {
    seq(40, _ => '0')
  }

  /** What the database says about a branch. */
  datatype Protection =
    | NoRule
    | LookupFailed
    | Rule(isProtected: bool, enableWhitelist: bool, requirePullRequest: bool)

  /** One push as the hook sees it: its environment, its standard input, the commits visible in
      the repository (those being pushed included) and the result of a custom hook, if any. */
  datatype Push = Push(
    ssh: bool,
    wiki: bool,
    userID: int,
    stdin: string,
    graph: Graph,
    rules: map<string, Protection>,
    whitelist: set<(int, string)>,
    customHook: Option<bool>)

  /** How the hook process ends. `fail` never returns, so the first failure is the verdict. */
  datatype Verdict =
    | Accepted
    | NotInWhitelist(branch: string)
    | PullRequestOnly(branch: string)
    | NoDeletion(branch: string)
    | NoForcePush(branch: string)
    | InternalError

  function RuleOf(push: Push, branch: string): Protection {
    if branch in push.rules then push.rules[branch] else NoRule
  }

  // ---- The rule for one line, stated at once -----------------------------------------------------

  /** What protection demands of an update of a branch: a user who may push directly, a new tip
      that is a commit, and an old tip that stays in its history. */
  ghost predicate UpdateAllowed(push: Push, oldID: Commit, newID: Commit, branch: string) {
    match RuleOf(push, branch)
    case NoRule => true
    case LookupFailed => false
    case Rule(isProtected, enableWhitelist, requirePullRequest) =>
      isProtected ==>
        && (if enableWhitelist then (push.userID, branch) in push.whitelist else !requirePullRequest)
        && newID != EmptySHA()
        && oldID in push.graph && newID in push.graph
        && Reaches(push.graph, newID, oldID)
  }

  ghost predicate LineAllowed(push: Push, line: string) {
    var fields := Fields(line);
    |fields| == 3 ==> UpdateAllowed(push, fields[0], fields[1], TrimPrefix(fields[2], BRANCH_PREFIX))
  }

  /** The gate's verdict as a conjunction over the pushed lines. */
  ghost predicate GateAllows(push: Push) {
    push.ssh && !push.wiki ==> forall line :: line in Lines(push.stdin) ==> LineAllowed(push, line)
  }

  /** The message for a line that is not allowed: the first check that fails. */
  ghost function Complaint(push: Push, line: string): (verdict: Verdict)
    requires !LineAllowed(push, line)
    ensures verdict != Accepted
  {
    var fields := Fields(line);
    var oldID, newID, branch := fields[0], fields[1], TrimPrefix(fields[2], BRANCH_PREFIX);
    var rule := RuleOf(push, branch);
    if rule.LookupFailed? then InternalError
    else if rule.enableWhitelist && (push.userID, branch) !in push.whitelist then NotInWhitelist(branch)
    else if !rule.enableWhitelist && rule.requirePullRequest then PullRequestOnly(branch)
    else if newID == EmptySHA() then NoDeletion(branch)
    else if oldID !in push.graph || newID !in push.graph then InternalError
    else NoForcePush(branch)
  }

  // ---- The hook ------------------------------------------------------------------------------------

  /** The checks of one scanned line. */
  method CheckLine(push: Push, line: string) returns (verdict: Verdict)
    requires Closed(push.graph)
    ensures verdict == if LineAllowed(push, line) then Accepted else Complaint(push, line)
  {
    var fields := Fields(line);
    if |fields| != 3 {
      return Accepted;
    }
    var oldCommitID, newCommitID := fields[0], fields[1];
    var branchName := TrimPrefix(fields[2], BRANCH_PREFIX);

    var protectBranch := RuleOf(push, branchName);
    match protectBranch {
      case NoRule =>
        return Accepted;
      case LookupFailed =>
        return InternalError;
      case Rule(isProtected, enableWhitelist, requirePullRequest) =>
        if !isProtected {
          return Accepted;
        }
        var bypassRequirePullRequest := false;
        if enableWhitelist {
          if (push.userID, branchName) !in push.whitelist {
            return NotInWhitelist(branchName);
          }
          bypassRequirePullRequest := true;
        }
        if !bypassRequirePullRequest && requirePullRequest {
          return PullRequestOnly(branchName);
        }
        if newCommitID == EmptySHA() {
          return NoDeletion(branchName);
        }
        var output := RevList(push.graph, oldCommitID, newCommitID);
        if output.Err? {
          return InternalError;
        } else if |output.value| > 0 {
          return NoForcePush(branchName);
        }
        return Accepted;
    }
  }

  /** The verdict of the loop: the complaint about the first line that is not allowed. */
  ghost function FirstComplaint(push: Push, lines: seq<string>): Verdict {
    if lines == [] then Accepted
    else if !LineAllowed(push, lines[0]) then Complaint(push, lines[0])
    else FirstComplaint(push, lines[1..])
  }

  /** The verdict of the process: the loop's first, then the custom hook's. */
  ghost function HookVerdict(push: Push): Verdict {
    if !push.ssh then Accepted
    else if !push.wiki && FirstComplaint(push, Lines(push.stdin)) != Accepted then FirstComplaint(push, Lines(push.stdin))
    else if push.customHook == Some(false) then InternalError
    else Accepted
  }

  /** `runHookPreReceive`. `buf` is what has been buffered for the custom hook. */
  method RunHookPreReceive(push: Push) returns (verdict: Verdict, buf: string)
    requires Closed(push.graph)
    ensures verdict == HookVerdict(push)
    ensures push.ssh && (push.wiki || FirstComplaint(push, Lines(push.stdin)) == Accepted) ==> buf == Unlines(Lines(push.stdin))
  {
    buf := "";
    if !push.ssh {
      return Accepted, buf;
    }
    ghost var lines, whole, complaint := Lines(push.stdin), Unlines(Lines(push.stdin)), FirstComplaint(push, Lines(push.stdin));
    var scanner := new LineScanner(push.stdin);
    var more := scanner.Scan();
    while more
      invariant scanner.Valid() && fresh(scanner)
      invariant lines == if more then [scanner.Token()] + Lines(scanner.Unread()) else []
      invariant whole == buf + Unlines(lines)
      invariant !push.wiki ==> complaint == FirstComplaint(push, lines)
      decreases |lines|
    {
      var line := scanner.data[scanner.start..scanner.end];
      assert line == lines[0];
      Buffered(whole, buf, lines);
      buf := buf + line + "\n";
      if !push.wiki {
        verdict := CheckLine(push, line);
        if verdict != Accepted {
          return;
        }
        AllowedIsSkipped(push, lines);
      }
      lines := lines[1..];
      more := scanner.Scan();
    }
    verdict := if push.customHook == Some(false) then InternalError else Accepted;
  }

  lemma AllowedIsSkipped(push: Push, lines: seq<string>)
    requires lines != [] && LineAllowed(push, lines[0])
    ensures FirstComplaint(push, lines) == FirstComplaint(push, lines[1..])
  {
  }

  /** One more line in the buffer. */
  lemma Buffered(whole: string, buf: string, lines: seq<string>)
    requires lines != [] && whole == buf + Unlines(lines)
    ensures whole == (buf + lines[0] + "\n") + Unlines(lines[1..])
  {
  }

  /** One call of `models.PushUpdate` by the post-receive hook. */
  datatype PushUpdate = PushUpdate(oldCommitID: string, newCommitID: string, refFullName: string)

  function UpdateOf(line: string): seq<PushUpdate> {
    var fields := Fields(line);
    if |fields| == 3 then [PushUpdate(fields[0], fields[1], fields[2])] else []
  }

  function UpdatesOf(lines: seq<string>): seq<PushUpdate> {
    if lines == [] then [] else UpdateOf(lines[0]) + UpdatesOf(lines[1..])
  }

  lemma OneMoreUpdate(all: seq<PushUpdate>, updates: seq<PushUpdate>, lines: seq<string>)
    requires lines != [] && all == updates + UpdatesOf(lines)
    ensures all == (updates + UpdateOf(lines[0])) + UpdatesOf(lines[1..])
  {
  }

  /** The buffering loop of `runHookPostReceive`, with the push updates it asks for. */
  method RunHookPostReceive(ssh: bool, wiki: bool, stdin: string) returns (buf: string, updates: seq<PushUpdate>)
    ensures !ssh ==> buf == "" && updates == []
    ensures ssh ==> buf == Unlines(Lines(stdin))
    ensures ssh ==> updates == if wiki then [] else UpdatesOf(Lines(stdin))
  {
    buf, updates := "", [];
    if !ssh {
      return;
    }
    ghost var lines, whole, all := Lines(stdin), Unlines(Lines(stdin)), UpdatesOf(Lines(stdin));
    var scanner := new LineScanner(stdin);
    var more := scanner.Scan();
    while more
      invariant scanner.Valid() && fresh(scanner)
      invariant lines == if more then [scanner.Token()] + Lines(scanner.Unread()) else []
      invariant whole == buf + Unlines(lines)
      invariant if wiki then updates == [] else all == updates + UpdatesOf(lines)
      decreases |lines|
    {
      var line := scanner.data[scanner.start..scanner.end];
      assert line == lines[0];
      Buffered(whole, buf, lines);
      buf := buf + line + "\n";
      if !wiki {
        OneMoreUpdate(all, updates, lines);
        ghost var before := updates;
        var fields := Fields(line);
        if |fields| == 3 {
          updates := updates + [PushUpdate(fields[0], fields[1], fields[2])];
        }
        assert updates == before + UpdateOf(line);
      }
      lines := lines[1..];
      more := scanner.Scan();
    }
  }

  // ---- Properties of the gate --------------------------------------------------------------------

  /** The early-exit loop accepts exactly when every line is allowed; otherwise it complains
      about the first line that is not. */
  lemma {:induction false} VerdictIsConjunction(push: Push, lines: seq<string>)
    ensures FirstComplaint(push, lines) == Accepted <==> forall line :: line in lines ==> LineAllowed(push, line)
    ensures FirstComplaint(push, lines) != Accepted ==>
              exists i :: 0 <= i < |lines| && !LineAllowed(push, lines[i])
                          && FirstComplaint(push, lines) == Complaint(push, lines[i])
                          && forall j :: 0 <= j < i ==> LineAllowed(push, lines[j])
  {
    if lines == [] {
    } else {
      if LineAllowed(push, lines[0]) {
        VerdictIsConjunction(push, lines[1..]);
        if FirstComplaint(push, lines) != Accepted {
          var k :| 0 <= k < |lines[1..]| && !LineAllowed(push, lines[1..][k])
                   && FirstComplaint(push, lines[1..]) == Complaint(push, lines[1..][k])
                   && forall j :: 0 <= j < k ==> LineAllowed(push, lines[1..][j]);
          assert forall j :: 0 < j < k + 1 ==> lines[j] == lines[1..][j - 1];
          assert lines[k + 1] == lines[1..][k];
        }
      } else {
        assert lines[0] in lines;
      }
    }
  }

  /** The process succeeds exactly when the gate allows the push and no custom hook fails. */
  lemma AcceptedIff(push: Push)
    ensures HookVerdict(push) == Accepted <==> GateAllows(push) && (push.ssh ==> push.customHook != Some(false))
  {
    VerdictIsConjunction(push, Lines(push.stdin));
  }

  /** Only the message may depend on the order of the lines, never the verdict. */
  lemma VerdictIgnoresOrder(push: Push, other: Push)
    requires other == push.(stdin := other.stdin)
    requires multiset(Lines(push.stdin)) == multiset(Lines(other.stdin))
    ensures GateAllows(push) <==> GateAllows(other)
  {
    var a, b := Lines(push.stdin), Lines(other.stdin);
    forall line
      ensures line in a <==> line in b
    {
      assert line in a <==> line in multiset(a);
      assert line in b <==> line in multiset(b);
    }
    forall line
      ensures LineAllowed(push, line) <==> LineAllowed(other, line)
    {
      var fields := Fields(line);
      if |fields| == 3 {
        assert RuleOf(push, TrimPrefix(fields[2], BRANCH_PREFIX)) == RuleOf(other, TrimPrefix(fields[2], BRANCH_PREFIX));
      }
    }
  }

  /** Whatever way each line took through the loop, the custom hook reads the whole push: the
      input itself, with a missing final newline added, exactly when the input has no carriage
      return before a line end. */
  lemma CustomHookSeesInput(stdin: string)
    ensures Unlines(Lines(stdin)) == Terminated(stdin) <==> !HasTrailingCR(stdin)
  {
    UnlinesOfLines(stdin);
  }

  /** It reads the same lines exactly when no scanned line still ends in a carriage return. */
  lemma CustomHookSeesLines(stdin: string)
    ensures Lines(Unlines(Lines(stdin))) == Lines(stdin) <==> forall l :: l in Lines(stdin) ==> !EndsInCR(l)
  {
    LinesHaveNoNewline(stdin);
    UnlinesRescan(Lines(stdin));
  }
}
