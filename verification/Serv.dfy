/** The SSH front end of Gogs: parsing of the requested command and the access decision. */
module Serv {
  import opened Wrappers
  import opened GoStrings

  const GIT_SUFFIX := ".git"
  const WIKI_SUFFIX := ".wiki"

  // ---- Parsing ------------------------------------------------------------------------------------

  datatype Command = Command(verb: string, args: string)

  /** `parseSSHCmd`: the verb, and the argument without a slash after its first quote. */
  function ParseSSHCmd(cmd: string): Command {
    var ss := SplitTwo(cmd, ' ');
    if |ss| != 2 then Command("", "") else Command(ss[0], ReplaceFirst(ss[1], "'/", "'"))
  }

  /** Owner and repository named by the argument; `None` when it has no slash. */
  function ParseRepository(args: string): Option<(string, string)> {
    var repoFields := SplitTwo(ToLower(Trim(args, '\'')), '/');
    if |repoFields| != 2 then None
    else Some((ToLower(repoFields[0]), StripSuffixes(ToLower(repoFields[1]))))
  }

  function StripSuffixes(name: string): string {
    TrimSuffix(TrimSuffix(name, GIT_SUFFIX), WIKI_SUFFIX)
  }

  /** The command line that a Git client sends for a repository. */
  function PrintCommand(verb: string, leadingSlash: bool, owner: string, repo: string, suffix: string): string {
    verb + " " + PrintPath(leadingSlash, owner, repo, suffix)
  }

  function PrintPath(leadingSlash: bool, owner: string, repo: string, suffix: string): string {
    "'" + (if leadingSlash then "/" else "") + (owner + "/" + repo + suffix) + "'"
  }

  predicate IsSuffix(suffix: string) {
    suffix == "" || suffix == ".git" || suffix == ".wiki" || suffix == ".wiki.git"
  }

  /** The names for which stripping the suffixes gives back the name. */
  predicate SurvivesStripping(name: string, suffix: string) {
    if suffix == "" then !HasSuffix(name, ".git") && !HasSuffix(name, ".wiki")
    else if suffix == ".git" then !HasSuffix(name, ".wiki")
    else true
  }

  /** The first occurrence of a separator that does not occur before. */
  lemma SplitAt(a: string, sep: char, b: string)
    requires sep !in a
    ensures SplitTwo(a + [sep] + b, sep) == [a, b]
  {
    var s := a + [sep] + b;
    assert At(s, [sep], |a|);
    var i := Index(s, [sep]);
    assert At(s, [sep], i);
    assert s[i..i + 1][0] == s[i] == sep;
    assert a == s[..|a|];
    assert s[..i] == a && s[i + 1..] == b;
  }

  /** With one quote at each end and no slash after the first, `'/` does not occur. */
  lemma NoQuotedSlash(s: string, i: int)
    requires |s| >= 2 && s[1] != '/' && '\'' !in s[1..|s| - 1]
    ensures !At(s, "'/", i)
  {
    if 0 <= i && i + 2 <= |s| {
      var pair := s[i..i + 2];
      assert pair[0] == s[i] && pair[1] == s[i + 1];
      assert i > 0 ==> s[i] == s[1..|s| - 1][i - 1];
    }
  }

  /** A slash right after the opening quote is dropped; without one nothing changes. */
  lemma LeadingSlashIsDropped(leadingSlash: bool, body: string)
    requires body != "" && '\'' !in body && (!leadingSlash ==> body[0] != '/')
    ensures ReplaceFirst("'" + (if leadingSlash then "/" else "") + body + "'", "'/", "'") == "'" + body + "'"
  {
    var s := "'" + (if leadingSlash then "/" else "") + body + "'";
    var i := Index(s, "'/");
    if leadingSlash {
      assert s[0..2] == "'/";
      assert At(s, "'/", 0);
      assert "'" + s[2..] == "'" + body + "'";
      assert s[..0] + "'" + s[2..] == "'" + body + "'";
    } else {
      NoQuotedSlash(s, i);
      assert s == "'" + body + "'";
    }
  }

  lemma TrimQuotes(body: string)
    requires body != "" && '\'' !in body
    ensures Trim("'" + body + "'", '\'') == body
  {
    var s := "'" + body + "'";
    var left := body + "'";
    assert s[1..] == left;
    assert left[0] == body[0] != '\'';
    assert TrimLeft(s, '\'') == TrimLeft(left, '\'') == left;
    assert left[..|left| - 1] == body;
    assert TrimRight(body, '\'') == body;
  }

  lemma LowerConcat(a: string, b: string)
    ensures ToLower(a + b) == ToLower(a) + ToLower(b)
  {
  }

  lemma LowerTwice(s: string)
    ensures ToLower(ToLower(s)) == ToLower(s)
  {
  }

  lemma LowerKeepsAbsent(s: string, c: char)
    requires c !in s && !('a' <= c <= 'z')
    ensures c !in ToLower(s)
  {
  }

  lemma LowerSuffix(suffix: string)
    requires IsSuffix(suffix)
    ensures ToLower(suffix) == suffix && '\'' !in suffix
  {
  }

  /** What the two trims make of a name with each suffix. */
  lemma StripResult(name: string, suffix: string)
    requires IsSuffix(suffix)
    ensures StripSuffixes(name + suffix) == name <==> SurvivesStripping(name, suffix)
  {
    if suffix == "" {
      assert name + suffix == name;
    } else if suffix == GIT_SUFFIX {
      TrimAppended(name, GIT_SUFFIX);
    } else if suffix == WIKI_SUFFIX {
      assert (name + suffix)[|name| + 1] == 'w';
      TrimAppended(name, WIKI_SUFFIX);
    } else {
      assert name + suffix == (name + WIKI_SUFFIX) + GIT_SUFFIX;
      TrimAppended(name + WIKI_SUFFIX, GIT_SUFFIX);
      TrimAppended(name, WIKI_SUFFIX);
    }
  }

  lemma TrimAppended(s: string, suffix: string)
    ensures TrimSuffix(s + suffix, suffix) == s
  {
  }

  /** Printing a command and parsing it returns the verb and the lower-cased owner, and returns
      the lower-cased repository exactly when its name survives the stripping of suffixes. */
  lemma CommandRoundTrip(verb: string, leadingSlash: bool, owner: string, repo: string, suffix: string)
    requires ' ' !in verb && '\'' !in owner && '/' !in owner && '\'' !in repo && IsSuffix(suffix)
    requires owner != "" || leadingSlash
    ensures
      var cmd := ParseSSHCmd(PrintCommand(verb, leadingSlash, owner, repo, suffix));
      var parsed := ParseRepository(cmd.args);
      && cmd.verb == verb
      && parsed.Some? && parsed.value.0 == ToLower(owner)
      && (parsed.value.1 == ToLower(repo) <==> SurvivesStripping(ToLower(repo), suffix))
  {
    var body := owner + "/" + repo + suffix;
    var path := PrintPath(leadingSlash, owner, repo, suffix);
    LowerSuffix(suffix);
    assert PrintCommand(verb, leadingSlash, owner, repo, suffix) == verb + [' '] + path;
    SplitAt(verb, ' ', path);
    assert body[0] == if owner == "" then '/' else owner[0];
    LeadingSlashIsDropped(leadingSlash, body);
    TrimQuotes(body);
    BodyParses(owner, repo, suffix);
    StripResult(ToLower(repo), suffix);
  }

  lemma BodyParses(owner: string, repo: string, suffix: string)
    requires '/' !in owner && IsSuffix(suffix)
    ensures SplitTwo(ToLower(owner + "/" + repo + suffix), '/') == [ToLower(owner), ToLower(repo) + suffix]
    ensures ToLower(ToLower(owner)) == ToLower(owner)
    ensures ToLower(ToLower(repo) + suffix) == ToLower(repo) + suffix
  {
    var rest := repo + suffix;
    assert owner + "/" + repo + suffix == owner + ("/" + rest);
    LowerConcat(owner, "/" + rest);
    LowerConcat("/", rest);
    LowerConcat(repo, suffix);
    LowerSuffix(suffix);
    LowerKeepsAbsent(owner, '/');
    assert ToLower("/") == "/";
    assert ToLower(owner) + ("/" + ToLower(rest)) == ToLower(owner) + ['/'] + ToLower(rest);
    SplitAt(ToLower(owner), '/', ToLower(rest));
    LowerTwice(owner);
    LowerTwice(repo);
    LowerConcat(ToLower(repo), suffix);
  }

  // ---- The access decision ---------------------------------------------------------------------------

  /** Access modes in the order none, read, write. */
  type AccessMode = nat
  const READ: AccessMode := 1
  const WRITE: AccessMode := 2

  datatype Repository = Repository(id: int, isMirror: bool, isPrivate: bool)
  datatype PublicKey = PublicKey(id: int, isDeploy: bool, mode: AccessMode)

  /** What the database answers. A missing entry is an error return of the query. */
  datatype Database = Database(
    users: map<string, int>,
    repositories: map<(int, string), Repository>,
    keys: map<int, PublicKey>,
    deployKeys: set<(int, int)>,
    keyOwners: map<int, int>,
    access: map<(int, int), AccessMode>,
    requireSignInView: bool)

  datatype Served = NoShell | Failed | Granted(verb: string, repo: Repository, mode: AccessMode)

  function AllowedCommand(verb: string): Option<AccessMode> {
    if verb == "git-upload-pack" || verb == "git-upload-archive" then Some(READ)
    else if verb == "git-receive-pack" then Some(WRITE)
    else None
  }

  /** Who may do what: nobody pushes to a mirror; a deploy key reaches only the repositories it
      is attached to, up to its own mode, except for public reads on an open site; a user key
      needs its owner's access level unless the read is public. */
  predicate MayAccess(db: Database, repo: Repository, key: PublicKey, mode: AccessMode) {
    && (mode > READ ==> !repo.isMirror)
    && if key.isDeploy then
         if mode == WRITE || repo.isPrivate
         then key.mode >= mode && (key.id, repo.id) in db.deployKeys
         else db.requireSignInView ==> (key.id, repo.id) in db.deployKeys
       else
         (mode == WRITE || repo.isPrivate) ==>
           && key.id in db.keyOwners
           && (db.keyOwners[key.id], repo.id) in db.access
           && db.access[(db.keyOwners[key.id], repo.id)] >= mode
  }

  /** The repository that a command names, if it exists. */
  function Requested(db: Database, args: string): Option<Repository> {
    match ParseRepository(args)
    case None => None
    case Some((owner, name)) =>
      if owner in db.users && (db.users[owner], name) in db.repositories
      then Some(db.repositories[(db.users[owner], name)]) else None
  }

  /** The decision, stated at once. */
  function Decision(db: Database, sshCmd: string, keyID: int): Served {
    if sshCmd == "" then NoShell
    else
      var cmd := ParseSSHCmd(sshCmd);
      var repo, mode := Requested(db, cmd.args), AllowedCommand(cmd.verb);
      if repo.Some? && mode.Some? && keyID in db.keys && MayAccess(db, repo.value, db.keys[keyID], mode.value)
      then Granted(cmd.verb, repo.value, mode.value) else Failed
  }

  /** `runServ` up to the start of the Git process. */
  method RunServ(db: Database, sshCmd: string, keyID: int) returns (r: Served)
    ensures r == Decision(db, sshCmd, keyID)
  {
    if |sshCmd| == 0 {
      return NoShell;
    }
    var cmd := ParseSSHCmd(sshCmd);
    var parsed := ParseRepository(cmd.args);
    if parsed.None? {
      return Failed;
    }
    var (ownerName, repoName) := parsed.value;
    if ownerName !in db.users {
      return Failed;
    }
    var ownerID := db.users[ownerName];
    if (ownerID, repoName) !in db.repositories {
      return Failed;
    }
    var repo := db.repositories[(ownerID, repoName)];
    var allowed := AllowedCommand(cmd.verb);
    if allowed.None? {
      return Failed;
    }
    var requestMode := allowed.value;
    if requestMode > READ && repo.isMirror {
      return Failed;
    }
    if keyID !in db.keys {
      return Failed;
    }
    var key := db.keys[keyID];
    if requestMode == WRITE || repo.isPrivate {
      if key.isDeploy {
        if key.mode < requestMode {
          return Failed;
        }
        if (key.id, repo.id) !in db.deployKeys {
          return Failed;
        }
      } else {
        if key.id !in db.keyOwners {
          return Failed;
        }
        var user := db.keyOwners[key.id];
        if (user, repo.id) !in db.access {
          return Failed;
        }
        if db.access[(user, repo.id)] < requestMode {
          return Failed;
        }
      }
    } else {
      if key.isDeploy && db.requireSignInView {
        if (key.id, repo.id) !in db.deployKeys {
          return Failed;
        }
      }
    }
    r := Granted(cmd.verb, repo, requestMode);
  }
}
