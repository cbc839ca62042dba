/** Who is served over SSH, in terms of the database. */
module AccessDecisions {
  import opened Wrappers
  import opened GoStrings
  import opened Serv

  /** The requested repository and the key are in the database. */
  predicate Known(db: Database, owner: string, repo: string, keyID: int) {
    && ToLower(owner) in db.users
    && (db.users[ToLower(owner)], ToLower(repo)) in db.repositories
    && keyID in db.keys
  }

  function RepositoryOf(db: Database, owner: string, repo: string): Repository
    requires ToLower(owner) in db.users && (db.users[ToLower(owner)], ToLower(repo)) in db.repositories
  {
    db.repositories[(db.users[ToLower(owner)], ToLower(repo))]
  }

  /** The owner of the key has at least the level on the repository. */
  predicate OwnerHas(db: Database, keyID: int, repoID: int, level: nat) {
    keyID in db.keyOwners && (db.keyOwners[keyID], repoID) in db.access && db.access[(db.keyOwners[keyID], repoID)] >= level
  }

  /** The names of a request that survives parsing. */
  predicate Requestable(leadingSlash: bool, owner: string, repo: string, suffix: string) {
    && '\'' !in owner && '/' !in owner && '\'' !in repo && IsSuffix(suffix) && (owner != "" || leadingSlash)
    && SurvivesStripping(ToLower(repo), suffix)
  }

  lemma RequestIsUnderstood(verb: string, leadingSlash: bool, owner: string, repo: string, suffix: string, db: Database)
    requires ' ' !in verb && Requestable(leadingSlash, owner, repo, suffix)
    ensures
      var sshCmd := PrintCommand(verb, leadingSlash, owner, repo, suffix);
      var cmd := ParseSSHCmd(sshCmd);
      && sshCmd != "" && cmd.verb == verb
      && Requested(db, cmd.args)
         == if ToLower(owner) in db.users && (db.users[ToLower(owner)], ToLower(repo)) in db.repositories
            then Some(RepositoryOf(db, owner, repo)) else None
  {
    CommandRoundTrip(verb, leadingSlash, owner, repo, suffix);
  }

  /** A push is served exactly when the repository is no mirror and the key may write: a deploy key
      that is attached to the repository and itself has write mode, or the key of a user with write
      access. */
  lemma PushServedIff(verb: string, leadingSlash: bool, owner: string, repo: string, suffix: string, db: Database, keyID: int)
    requires verb == "git-receive-pack" && Requestable(leadingSlash, owner, repo, suffix)
    ensures
      var served := Decision(db, PrintCommand(verb, leadingSlash, owner, repo, suffix), keyID);
      if !Known(db, owner, repo, keyID) then served == Failed
      else
        var r, key := RepositoryOf(db, owner, repo), db.keys[keyID];
        served == if !r.isMirror && (if key.isDeploy then key.mode >= 2 && (key.id, r.id) in db.deployKeys
                                     else OwnerHas(db, key.id, r.id, 2))
                  then Granted(verb, r, 2) else Failed
  {
    RequestIsUnderstood(verb, leadingSlash, owner, repo, suffix, db);
  }

  /** A fetch is served exactly when the key may read: of a public repository every key may, except
      that on a site that requires signing in a deploy key must be attached to it; of a private one a
      deploy key that is attached and has at least read mode, or the key of a user with at least read
      access. */
  lemma FetchServedIff(verb: string, leadingSlash: bool, owner: string, repo: string, suffix: string, db: Database, keyID: int)
    requires (verb == "git-upload-pack" || verb == "git-upload-archive") && Requestable(leadingSlash, owner, repo, suffix)
    ensures
      var served := Decision(db, PrintCommand(verb, leadingSlash, owner, repo, suffix), keyID);
      if !Known(db, owner, repo, keyID) then served == Failed
      else
        var r, key := RepositoryOf(db, owner, repo), db.keys[keyID];
        var attached := (key.id, r.id) in db.deployKeys;
        served == if (if r.isPrivate then (if key.isDeploy then key.mode >= 1 && attached else OwnerHas(db, key.id, r.id, 1))
                      else !key.isDeploy || !db.requireSignInView || attached)
                  then Granted(verb, r, 1) else Failed
  {
    RequestIsUnderstood(verb, leadingSlash, owner, repo, suffix, db);
  }

  /** Nothing else is served, whoever asks. */
  lemma OtherVerbsFail(verb: string, leadingSlash: bool, owner: string, repo: string, suffix: string, db: Database, keyID: int)
    requires ' ' !in verb && verb != "git-receive-pack" && verb != "git-upload-pack" && verb != "git-upload-archive"
    requires Requestable(leadingSlash, owner, repo, suffix)
    ensures Decision(db, PrintCommand(verb, leadingSlash, owner, repo, suffix), keyID) == Failed
  {
    RequestIsUnderstood(verb, leadingSlash, owner, repo, suffix, db);
  }

  lemma OneCharacterAt(s: string, c: char, i: nat)
    requires i < |s|
    ensures At(s, [c], i) <==> s[i] == c
  {
    assert s[i..i + 1] == [s[i]];
  }

  lemma SingleWord(word: string, sep: char)
    requires sep !in word
    ensures SplitTwo(word, sep) == [word]
  {
    forall i | 0 <= i < |word|
      ensures !At(word, [sep], i)
    {
      OneCharacterAt(word, sep, i);
    }
  }

  lemma NothingRequested(db: Database)
    ensures Requested(db, "") == None
  {
    SingleWord("", '/');
    assert Trim("", '\'') == "" && ToLower("") == "";
    assert ParseRepository("") == None;
  }

  /** Without a command the user is told that there is no shell; a single word is no command. */
  lemma NoCommand(db: Database, word: string, keyID: int)
    requires ' ' !in word
    ensures Decision(db, word, keyID) == if word == "" then NoShell else Failed
  {
    SingleWord(word, ' ');
    assert ParseSSHCmd(word).args == "";
    NothingRequested(db);
  }
}
