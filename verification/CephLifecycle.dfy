/** Whole runs of CephFS provisioners that share the same stores. */
module CephLifecycle {
  import opened Wrappers
  import opened GoStrings
  import opened CephParameters
  import opened CephProvisioner

  /** A volume is `Lost` when the provisioner crashed before returning it. `Attempted` says that a
      deletion has begun and failed. */
  datatype Status = Stored | Attempted | Lost

  /** A provisioned volume, and what its own `Provision` made for it. */
  datatype Record = Record(volume: Volume, share: string, user: string, ref: Ref, status: Status)

  /** The names used so far are kept to say what a fresh one is; the names left behind are those of
      shares and users that belong to no volume. */
  datatype State = State(world: World, records: seq<Record>, usedShares: set<string>, usedUsers: set<string>,
                         leftShares: set<string>, leftUsers: set<string>)

  // ---- How far a creation gets -----------------------------------------------------------------------------

  /** The creation reaches the command. */
  predicate CommandRuns(w: World, p: Config, claim: Claim, parameters: seq<(string, string)>, a: Answers<CreateOutcome>) {
    !claim.selector && Parsed(p.client && a.readable, w.secrets, parameters).Ok?
  }

  predicate ValidOutput(out: Output) {
    out.Output? && out.user != "" && out.secret != "" && out.path != ""
  }

  /** It gets as far as making the secret. */
  predicate SecretMade(w: World, p: Config, claim: Claim, parameters: seq<(string, string)>, userId: string, a: Answers<CreateOutcome>) {
    && CommandRuns(w, p, claim, parameters, a)
    && a.command.Exited? && ValidOutput(a.command.output)
    && Ref(SecretNamespace(p, claim), SecretName(UserName(userId))) !in w.secrets && a.accepts
  }

  /** It leaves a share behind that belongs to no volume: the command made one, and no secret was
      made for it. */
  predicate LeavesShare(w: World, p: Config, claim: Claim, parameters: seq<(string, string)>, userId: string, a: Answers<CreateOutcome>) {
    && CommandRuns(w, p, claim, parameters, a) && !SecretMade(w, p, claim, parameters, userId, a)
    && (a.command.Exited? || a.command.share)
  }

  predicate LeavesUser(w: World, p: Config, claim: Claim, parameters: seq<(string, string)>, userId: string, a: Answers<CreateOutcome>) {
    && CommandRuns(w, p, claim, parameters, a) && !SecretMade(w, p, claim, parameters, userId, a)
    && (a.command.Exited? || a.command.user)
  }

  // ---- Operations ------------------------------------------------------------------------------------------

  /** `keeps`: the API server stores the namespace of a secret reference (older ones drop it). The
      controller binds the volume to its claim. */
  function AsStored(v: Volume, claim: Claim, keeps: bool): Volume {
    var bound := v.(claimNamespace := Some(claim.namespace));
    if keeps || v.source.None? || v.source.value.secretRef.None? then bound
    else
      var ref := v.source.value.secretRef.value;
      bound.(source := Some(v.source.value.(secretRef := Some(ref.(namespace := "")))))
  }

  datatype Op =
    | Create(p: Config, claim: Claim, parameters: seq<(string, string)>, shareId: string, userId: string,
             created: Answers<CreateOutcome>, keeps: bool)
    | Remove(p: Config, which: nat, class_: Result<seq<(string, string)>>, removed: Answers<RemoveOutcome>)

  function Without(rs: seq<Record>, i: nat): seq<Record>
    requires i < |rs|
  {
    rs[..i] + rs[i + 1..]
  }

  /** A creation leaves a record if it gets as far as the secret. Only a stored volume can be
      deleted; a successful deletion removes its record. */
  function AfterOp(s: State, op: Op): State {
    match op
    case Create(p, claim, parameters, shareId, userId, a, keeps) =>
      var share, user := ShareName(shareId), UserName(userId);
      var (w, r) := AfterProvision(s.world, p, claim, parameters, shareId, userId, a);
      var added := if SecretMade(s.world, p, claim, parameters, userId, a) then NewRecord(p, claim, share, user, r, keeps) else [];
      State(w, s.records + added, s.usedShares + {share}, s.usedUsers + {user},
            s.leftShares + (if LeavesShare(s.world, p, claim, parameters, userId, a) then {share} else {}),
            s.leftUsers + (if LeavesUser(s.world, p, claim, parameters, userId, a) then {user} else {}))
    case Remove(p, which, class_, a) =>
      if which >= |s.records| || s.records[which].status.Lost? then s
      else
        var record := s.records[which];
        var (w, r) := AfterDelete(s.world, p, record.volume, class_, a);
        match r
        case Done(_) => s.(world := w, records := Without(s.records, which))
        case Ignored => s.(world := w)
        case _ => s.(world := w, records := s.records[which := record.(status := Attempted)])
  }

  /** The record of a creation that made its secret: of the volume it returned, or of the one lost
      in a crash. */
  function NewRecord(p: Config, claim: Claim, share: string, user: string, r: Reply<Volume>, keeps: bool): seq<Record> {
    var ref := Ref(SecretNamespace(p, claim), SecretName(user));
    match r
    case Done(v) => [Record(AsStored(v, claim, keeps), share, user, ref, Stored)]
    case _ => [Record(Volume(None, None, None, None), share, user, ref, Lost)]
  }

  function Start(w: World): State {
    State(w, [], w.shares, w.users, {}, {})
  }

  function RunFrom(s: State, ops: seq<Op>): State
    decreases |ops|
  {
    if ops == [] then s else RunFrom(AfterOp(s, ops[0]), ops[1..])
  }

  // ---- Freshness -----------------------------------------------------------------------------------------

  /** The names of the operation are in use neither now nor in the initial world. */
  ghost predicate Fresh(s: State, w0: World, op: Op) {
    op.Create? ==>
      && ShareName(op.shareId) !in s.usedShares
      && UserName(op.userId) !in s.usedUsers
      && NoSecretFor(w0, UserName(op.userId))
  }

  ghost predicate NoSecretFor(w: World, user: string) {
    forall r :: r in w.secrets ==> r.name != SecretName(user)
  }

  /** What the identifier generator gives: identifiers that are new and all different. */
  ghost predicate FreshIds(w0: World, ops: seq<Op>) {
    && (forall i :: 0 <= i < |ops| ==> Fresh(Start(w0), w0, ops[i]))
    && (forall i, j :: 0 <= i < j < |ops| && ops[i].Create? && ops[j].Create? ==>
          ops[i].shareId != ops[j].shareId && ops[i].userId != ops[j].userId)
  }

  // ---- The invariant ---------------------------------------------------------------------------------------

  /** The stored volume names what its provisioning made. */
  predicate Sound(r: Record) {
    && r.ref.name == SecretName(r.user)
    && (r.status.Lost? || VolumeNames(r))
  }

  predicate VolumeNames(r: Record) {
    && r.volume.share == Some(r.share)
    && r.volume.source.Some? && r.volume.source.value.user == r.user
    && r.volume.source.value.secretRef.Some?
    && r.volume.claimNamespace.Some?
    && var ref := r.volume.source.value.secretRef.value;
       ref.name == r.ref.name && (ref.namespace == r.ref.namespace || ref.namespace == "")
  }

  /** The volume's share, user and secret are there; a failed deletion may already have removed the
      first two. */
  predicate Present(w: World, r: Record) {
    && r.ref in w.secrets
    && (!r.status.Attempted? ==> r.share in w.shares && r.user in w.users)
  }

  predicate NamesUsed(s: State, r: Record) {
    r.share in s.usedShares - s.leftShares && r.user in s.usedUsers - s.leftUsers
  }

  ghost predicate NotInitial(w0: World, r: Record) {
    r.share !in w0.shares && r.user !in w0.users && NoSecretFor(w0, r.user)
  }

  predicate Different(a: Record, b: Record) {
    a.share != b.share && a.user != b.user && a.ref != b.ref
  }

  /** Every secret is an initial one or belongs to a record. */
  ghost predicate SecretsAccounted(s: State, w0: World) {
    forall r :: r in s.world.secrets ==> r in w0.secrets || Owned(s.records, r)
  }

  predicate Owned(rs: seq<Record>, r: Ref) {
    exists i :: 0 <= i < |rs| && rs[i].ref == r
  }

  predicate OwnedShare(rs: seq<Record>, share: string) {
    exists i :: 0 <= i < |rs| && rs[i].share == share
  }

  predicate OwnedUser(rs: seq<Record>, user: string) {
    exists i :: 0 <= i < |rs| && rs[i].user == user
  }

  /** Every share and user is an initial one, belongs to a record, or was left behind; and whatever
      was left behind is still there. */
  ghost predicate NamesAccounted(s: State, w0: World) {
    && (forall x :: x in s.world.shares ==> x in w0.shares || x in s.leftShares || OwnedShare(s.records, x))
    && (forall x :: x in s.world.users ==> x in w0.users || x in s.leftUsers || OwnedUser(s.records, x))
    && s.leftShares <= s.world.shares && s.leftUsers <= s.world.users
  }

  /** Nothing that was there before has been touched. */
  predicate InitialKept(w: World, w0: World) {
    && w0.shares <= w.shares && w0.users <= w.users
    && forall r :: r in w0.secrets ==> r in w.secrets && w.secrets[r] == w0.secrets[r]
  }

  ghost predicate RecordOk(s: State, w0: World, r: Record) {
    Sound(r) && Present(s.world, r) && NamesUsed(s, r) && NotInitial(w0, r)
  }

  ghost predicate Inv(s: State, w0: World) {
    && (forall i :: 0 <= i < |s.records| ==> RecordOk(s, w0, s.records[i]))
    && (forall i, j :: 0 <= i < j < |s.records| ==> Different(s.records[i], s.records[j]))
    && SecretsAccounted(s, w0) && NamesAccounted(s, w0)
    && InitialKept(s.world, w0)
    && w0.shares + s.leftShares <= s.usedShares && w0.users + s.leftUsers <= s.usedUsers
  }

  // ---- Creation keeps it ---------------------------------------------------------------------------------

  /** What a creation may do to the stores: it adds its own names and nothing else. */
  lemma CreationAdds(w: World, p: Config, claim: Claim, parameters: seq<(string, string)>, shareId: string, userId: string,
                     a: Answers<CreateOutcome>)
    ensures
      var (w', r) := AfterProvision(w, p, claim, parameters, shareId, userId, a);
      var share, user := ShareName(shareId), UserName(userId);
      var ref := Ref(SecretNamespace(p, claim), SecretName(user));
      var made := SecretMade(w, p, claim, parameters, userId, a);
      && w'.shares == w.shares + (if made || LeavesShare(w, p, claim, parameters, userId, a) then {share} else {})
      && w'.users == w.users + (if made || LeavesUser(w, p, claim, parameters, userId, a) then {user} else {})
      && w'.secrets.Keys == w.secrets.Keys + (if made then {ref} else {})
      && (forall x :: x in w.secrets ==> w'.secrets[x] == w.secrets[x])
      && (r.Done? ==>
            && made
            && r.value.identity == Some(p.identity) && r.value.share == Some(share)
            && r.value.source.Some? && r.value.source.value.user == user
            && r.value.source.value.secretRef == Some(ref)
            && "/" <= r.value.source.value.path)
  {
  }

  lemma NewRecordIsSound(p: Config, claim: Claim, share: string, user: string, r: Reply<Volume>, keeps: bool)
    requires r.Done? ==>
               && r.value.share == Some(share) && r.value.source.Some? && r.value.source.value.user == user
               && r.value.source.value.secretRef == Some(Ref(SecretNamespace(p, claim), SecretName(user)))
    ensures
      var added := NewRecord(p, claim, share, user, r, keeps);
      |added| == 1
      && forall x :: x in added ==>
           && x.share == share && x.user == user && x.ref == Ref(SecretNamespace(p, claim), SecretName(user))
           && Sound(x) && !x.status.Attempted?
  {
  }

  lemma CreateKeepsInv(s: State, w0: World, op: Op)
    requires Inv(s, w0) && op.Create? && Fresh(s, w0, op)
    ensures Inv(AfterOp(s, op), w0)
  {
    var share, user := ShareName(op.shareId), UserName(op.userId);
    var ref := Ref(SecretNamespace(op.p, op.claim), SecretName(user));
    var made := SecretMade(s.world, op.p, op.claim, op.parameters, op.userId, op.created);
    var (w, r) := AfterProvision(s.world, op.p, op.claim, op.parameters, op.shareId, op.userId, op.created);
    CreationAdds(s.world, op.p, op.claim, op.parameters, op.shareId, op.userId, op.created);
    var added := if made then NewRecord(op.p, op.claim, share, user, r, op.keeps) else [];
    if made {
      NewRecordIsSound(op.p, op.claim, share, user, r, op.keeps);
    }
    AddingKeepsInv(s, AfterOp(s, op), w0, share, user, ref, added);
  }

  /** Adding fresh names, which are then left behind or belong to a new record. */
  lemma AddingKeepsInv(s: State, s': State, w0: World, share: string, user: string, ref: Ref, added: seq<Record>)
    requires Inv(s, w0)
    requires s'.records == s.records + added && s'.usedShares == s.usedShares + {share} && s'.usedUsers == s.usedUsers + {user}
    requires s'.leftShares == s.leftShares || s'.leftShares == s.leftShares + {share}
    requires s'.leftUsers == s.leftUsers || s'.leftUsers == s.leftUsers + {user}
    requires share !in s.usedShares && user !in s.usedUsers && NoSecretFor(w0, user) && ref.name == SecretName(user)
    requires s'.world.shares == s.world.shares + s'.leftShares + (if added == [] then {} else {share})
    requires s'.world.users == s.world.users + s'.leftUsers + (if added == [] then {} else {user})
    requires s'.world.secrets.Keys == s.world.secrets.Keys + (if added == [] then {} else {ref})
    requires forall x :: x in s.world.secrets ==> s'.world.secrets[x] == s.world.secrets[x]
    requires |added| <= 1
    requires forall r :: r in added ==>
               r.share == share && r.user == user && r.ref == ref && Sound(r) && !r.status.Attempted?
               && share !in s'.leftShares && user !in s'.leftUsers
    ensures Inv(s', w0)
  {
    forall i | 0 <= i < |s'.records|
      ensures RecordOk(s', w0, s'.records[i])
    {
      NewRecordOk(s, s', w0, share, user, ref, added, i);
    }
    forall i, j | 0 <= i < j < |s'.records|
      ensures Different(s'.records[i], s'.records[j])
    {
      if j < |s.records| {
        assert Different(s.records[i], s.records[j]);
      } else {
        assert s'.records[j] in added && RecordOk(s, w0, s.records[i]);
        SecretNameInjective(s.records[i].user, user);
      }
    }
    AddedIsOwned(s, s', w0, share, user, ref, added);
  }

  lemma NewRecordOk(s: State, s': State, w0: World, share: string, user: string, ref: Ref, added: seq<Record>, i: nat)
    requires Inv(s, w0) && i < |s'.records|
    requires s'.records == s.records + added && s'.usedShares == s.usedShares + {share} && s'.usedUsers == s.usedUsers + {user}
    requires s'.leftShares <= s.leftShares + {share} && s'.leftUsers <= s.leftUsers + {user}
    requires share !in s.usedShares && user !in s.usedUsers && NoSecretFor(w0, user)
    requires s.world.shares <= s'.world.shares && s.world.users <= s'.world.users
    requires s.world.secrets.Keys <= s'.world.secrets.Keys
    requires forall r :: r in added ==>
               r.share == share && r.user == user && r.ref == ref && Sound(r) && !r.status.Attempted?
               && share !in s'.leftShares && user !in s'.leftUsers
               && share in s'.world.shares && user in s'.world.users && ref in s'.world.secrets
    ensures RecordOk(s', w0, s'.records[i])
  {
    if i < |s.records| {
      assert RecordOk(s, w0, s.records[i]);
    } else {
      assert s'.records[i] in added;
    }
  }

  lemma AddedIsOwned(s: State, s': State, w0: World, share: string, user: string, ref: Ref, added: seq<Record>)
    requires SecretsAccounted(s, w0) && NamesAccounted(s, w0) && s'.records == s.records + added
    requires s.leftShares <= s'.leftShares && s.leftUsers <= s'.leftUsers
    requires s'.world.shares == s.world.shares + s'.leftShares + (if added == [] then {} else {share})
    requires s'.world.users == s.world.users + s'.leftUsers + (if added == [] then {} else {user})
    requires s'.world.secrets.Keys == s.world.secrets.Keys + (if added == [] then {} else {ref})
    requires forall r :: r in added ==> r.share == share && r.user == user && r.ref == ref
    ensures SecretsAccounted(s', w0) && NamesAccounted(s', w0)
  {
    StillOwned(s.records, added);
    if added != [] {
      var n := |s.records|;
      assert added[0] in added && s'.records[n] == added[0];
    }
  }

  lemma StillOwned(rs: seq<Record>, more: seq<Record>)
    ensures forall x :: Owned(rs, x) ==> Owned(rs + more, x)
    ensures forall x :: OwnedShare(rs, x) ==> OwnedShare(rs + more, x)
    ensures forall x :: OwnedUser(rs, x) ==> OwnedUser(rs + more, x)
  {
    var all := rs + more;
    assert forall i :: 0 <= i < |rs| ==> all[i] == rs[i];
    forall x | Owned(rs, x)
      ensures Owned(all, x)
    {
      var i :| 0 <= i < |rs| && rs[i].ref == x;
      assert all[i].ref == x;
    }
    forall x | OwnedShare(rs, x)
      ensures OwnedShare(all, x)
    {
      var i :| 0 <= i < |rs| && rs[i].share == x;
      assert all[i].share == x;
    }
    forall x | OwnedUser(rs, x)
      ensures OwnedUser(all, x)
    {
      var i :| 0 <= i < |rs| && rs[i].user == x;
      assert all[i].user == x;
    }
  }

  // ---- Deletion keeps it -----------------------------------------------------------------------------------

  /** A deletion removes at most the volume's share and user and one secret; the secret goes exactly
      when the deletion succeeds, and it is the one that the stored volume refers to. */
  lemma DeletionRemoves(w: World, p: Config, r: Record, class_: Result<seq<(string, string)>>, a: Answers<RemoveOutcome>)
    requires VolumeNames(r)
    ensures
      var (w', reply) := AfterDelete(w, p, r.volume, class_, a);
      && w.shares - {r.share} <= w'.shares <= w.shares
      && w.users - {r.user} <= w'.users <= w.users
      && !reply.Crashed?
      && (reply.Ignored? <==> r.volume.identity.Some? && r.volume.identity != Some(p.identity))
      && (reply.Ignored? ==> w' == w)
      && (reply.Done? ==>
            && SecretOf(r.volume).Ok? && SecretOf(r.volume).value in w.secrets
            && w'.shares == w.shares - {r.share} && w'.users == w.users - {r.user}
            && w'.secrets == w.secrets - {SecretOf(r.volume).value})
      && (!reply.Done? ==> w'.secrets == w.secrets)
  {
  }

  /** The secret that a stored volume refers to is its own, or does not exist. */
  lemma OwnSecretOrNone(s: State, w0: World, i: nat)
    requires Inv(s, w0) && i < |s.records| && VolumeNames(s.records[i])
    requires SecretOf(s.records[i].volume).Ok? && SecretOf(s.records[i].volume).value in s.world.secrets
    ensures SecretOf(s.records[i].volume).value == s.records[i].ref
  {
    var r, x := s.records[i], SecretOf(s.records[i].volume).value;
    assert RecordOk(s, w0, r);
    assert x.name == SecretName(r.user);
    assert x !in w0.secrets;
    var j :| 0 <= j < |s.records| && s.records[j].ref == x;
    assert RecordOk(s, w0, s.records[j]);
    SecretNameInjective(s.records[j].user, r.user);
    assert i < j ==> Different(s.records[i], s.records[j]);
    assert j < i ==> Different(s.records[j], s.records[i]);
  }

  lemma RemoveKeepsInv(s: State, w0: World, op: Op)
    requires Inv(s, w0) && op.Remove?
    ensures Inv(AfterOp(s, op), w0)
  {
    if op.which < |s.records| && !s.records[op.which].status.Lost? {
      var r := s.records[op.which];
      assert RecordOk(s, w0, r);
      var (w, reply) := AfterDelete(s.world, op.p, r.volume, op.class_, op.removed);
      DeletionRemoves(s.world, op.p, r, op.class_, op.removed);
      match reply
      case Done(_) =>
        OwnSecretOrNone(s, w0, op.which);
        TakingKeepsInv(s, s.(world := w, records := Without(s.records, op.which)), w0, op.which);
      case Ignored =>
        assert s.(world := s.world) == s;
      case Crashed =>
        assert false;
      case Failed =>
        AttemptKeepsInv(s, s.(world := w, records := s.records[op.which := r.(status := Attempted)]), w0, op.which);
    }
  }

  /** Where the record at `k` was before the one at `i` was taken out. */
  function Before(i: nat, k: nat): nat {
    if k < i then k else k + 1
  }

  lemma WithoutAt(rs: seq<Record>, i: nat)
    requires i < |rs|
    ensures |Without(rs, i)| == |rs| - 1
    ensures forall k :: 0 <= k < |rs| - 1 ==> Without(rs, i)[k] == rs[Before(i, k)]
  {
  }

  /** The other records still own what they owned. */
  lemma OthersOwn(rs: seq<Record>, i: nat)
    requires i < |rs|
    ensures forall x :: Owned(rs, x) && x != rs[i].ref ==> Owned(Without(rs, i), x)
    ensures forall x :: OwnedShare(rs, x) && x != rs[i].share ==> OwnedShare(Without(rs, i), x)
    ensures forall x :: OwnedUser(rs, x) && x != rs[i].user ==> OwnedUser(Without(rs, i), x)
  {
    var left := Without(rs, i);
    forall j | 0 <= j < |rs| && j != i
      ensures rs[j] in left
    {
      assert left[if j < i then j else j - 1] == rs[j];
    }
    forall x | Owned(rs, x) && x != rs[i].ref
      ensures Owned(left, x)
    {
      var j :| 0 <= j < |rs| && rs[j].ref == x;
      assert rs[j] in left;
    }
    forall x | OwnedShare(rs, x) && x != rs[i].share
      ensures OwnedShare(left, x)
    {
      var j :| 0 <= j < |rs| && rs[j].share == x;
      assert rs[j] in left;
    }
    forall x | OwnedUser(rs, x) && x != rs[i].user
      ensures OwnedUser(left, x)
    {
      var j :| 0 <= j < |rs| && rs[j].user == x;
      assert rs[j] in left;
    }
  }

  predicate SameNames(s: State, s': State) {
    && s'.usedShares == s.usedShares && s'.usedUsers == s.usedUsers
    && s'.leftShares == s.leftShares && s'.leftUsers == s.leftUsers
  }

  lemma TakingKeepsInv(s: State, s': State, w0: World, i: nat)
    requires Inv(s, w0) && i < |s.records|
    requires s'.records == Without(s.records, i) && SameNames(s, s')
    requires s'.world.shares == s.world.shares - {s.records[i].share} && s'.world.users == s.world.users - {s.records[i].user}
    requires s'.world.secrets == s.world.secrets - {s.records[i].ref}
    ensures Inv(s', w0)
  {
    var r := s.records[i];
    assert RecordOk(s, w0, r);
    WithoutAt(s.records, i);
    OthersOwn(s.records, i);
    forall k | 0 <= k < |s'.records|
      ensures RecordOk(s', w0, s'.records[k])
    {
      OthersStay(s, s', w0, i, Before(i, k));
    }
    OthersDiffer(s.records, i);
  }

  lemma OthersDiffer(rs: seq<Record>, i: nat)
    requires i < |rs| && forall k, l :: 0 <= k < l < |rs| ==> Different(rs[k], rs[l])
    ensures forall k, l :: 0 <= k < l < |Without(rs, i)| ==> Different(Without(rs, i)[k], Without(rs, i)[l])
  {
    WithoutAt(rs, i);
    forall k, l | 0 <= k < l < |Without(rs, i)|
      ensures Different(Without(rs, i)[k], Without(rs, i)[l])
    {
      assert Different(rs[Before(i, k)], rs[Before(i, l)]);
    }
  }

  /** Whatever happens to one record's share, user and secret, the other records are not touched. */
  lemma OthersStay(s: State, s': State, w0: World, i: nat, j: nat)
    requires Inv(s, w0) && i < |s.records| && j < |s.records| && i != j && SameNames(s, s')
    requires s.world.shares - {s.records[i].share} <= s'.world.shares
    requires s.world.users - {s.records[i].user} <= s'.world.users
    requires s.world.secrets.Keys - {s.records[i].ref} <= s'.world.secrets.Keys
    ensures RecordOk(s', w0, s.records[j])
  {
    assert RecordOk(s, w0, s.records[j]);
    assert if j < i then Different(s.records[j], s.records[i]) else Different(s.records[i], s.records[j]);
  }

  lemma AttemptKeepsInv(s: State, s': State, w0: World, i: nat)
    requires Inv(s, w0) && i < |s.records| && !s.records[i].status.Lost?
    requires SameOwnership(s.records, s'.records) && SameNames(s, s')
    requires forall k :: 0 <= k < |s.records| && k != i ==> s'.records[k] == s.records[k]
    requires s'.records[i] == s.records[i].(status := Attempted)
    requires s.world.shares - {s.records[i].share} <= s'.world.shares <= s.world.shares
    requires s.world.users - {s.records[i].user} <= s'.world.users <= s.world.users
    requires s'.world.secrets == s.world.secrets
    ensures Inv(s', w0)
  {
    var r := s.records[i];
    assert RecordOk(s, w0, r);
    forall k | 0 <= k < |s'.records|
      ensures RecordOk(s', w0, s'.records[k])
    {
      if k != i {
        OthersStay(s, s', w0, i, k);
      }
    }
    SameNamesDiffer(s.records, s'.records);
    SameOwners(s.records, s'.records);
  }

  predicate SameOwnership(rs: seq<Record>, rs': seq<Record>) {
    && |rs| == |rs'|
    && forall k :: 0 <= k < |rs| ==> rs'[k].ref == rs[k].ref && rs'[k].share == rs[k].share && rs'[k].user == rs[k].user
  }

  lemma SameNamesDiffer(rs: seq<Record>, rs': seq<Record>)
    requires SameOwnership(rs, rs') && forall k, l :: 0 <= k < l < |rs| ==> Different(rs[k], rs[l])
    ensures forall k, l :: 0 <= k < l < |rs'| ==> Different(rs'[k], rs'[l])
  {
    forall k, l | 0 <= k < l < |rs'|
      ensures Different(rs'[k], rs'[l])
    {
      assert Different(rs[k], rs[l]);
    }
  }

  lemma SameOwners(rs: seq<Record>, rs': seq<Record>)
    requires SameOwnership(rs, rs')
    ensures forall x :: Owned(rs, x) ==> Owned(rs', x)
    ensures forall x :: OwnedShare(rs, x) ==> OwnedShare(rs', x)
    ensures forall x :: OwnedUser(rs, x) ==> OwnedUser(rs', x)
  {
    forall x | Owned(rs, x)
      ensures Owned(rs', x)
    {
      var j :| 0 <= j < |rs| && rs[j].ref == x;
      assert rs'[j].ref == x;
    }
    forall x | OwnedShare(rs, x)
      ensures OwnedShare(rs', x)
    {
      var j :| 0 <= j < |rs| && rs[j].share == x;
      assert rs'[j].share == x;
    }
    forall x | OwnedUser(rs, x)
      ensures OwnedUser(rs', x)
    {
      var j :| 0 <= j < |rs| && rs[j].user == x;
      assert rs'[j].user == x;
    }
  }

  // ---- Runs ------------------------------------------------------------------------------------------------

  /** Names that no earlier operation has used are still fresh. */
  lemma FreshLater(s: State, w0: World, op: Op, next: Op)
    requires Fresh(s, w0, next)
    requires op.Create? && next.Create? ==> op.shareId != next.shareId && op.userId != next.userId
    ensures Fresh(AfterOp(s, op), w0, next)
  {
    if op.Create? && next.Create? {
      ShareNameInjective(op.shareId, next.shareId);
      UserNameInjective(op.userId, next.userId);
    }
  }

  ghost predicate AllFresh(s: State, w0: World, ops: seq<Op>) {
    && (forall i :: 0 <= i < |ops| ==> Fresh(s, w0, ops[i]))
    && (forall i, j :: 0 <= i < j < |ops| && ops[i].Create? && ops[j].Create? ==>
          ops[i].shareId != ops[j].shareId && ops[i].userId != ops[j].userId)
  }

  lemma {:induction false} RunKeepsInv(s: State, w0: World, ops: seq<Op>)
    requires Inv(s, w0) && AllFresh(s, w0, ops)
    ensures Inv(RunFrom(s, ops), w0)
    decreases |ops|
  {
    if ops == [] {
    } else {
      var op := ops[0];
      if op.Create? {
        CreateKeepsInv(s, w0, op);
      } else {
        RemoveKeepsInv(s, w0, op);
      }
      forall i | 0 <= i < |ops[1..]|
        ensures Fresh(AfterOp(s, op), w0, ops[1..][i])
      {
        FreshLater(s, w0, op, ops[i + 1]);
      }
      RunKeepsInv(AfterOp(s, op), w0, ops[1..]);
    }
  }

  /** After every run with fresh identifiers, the provisioned volumes have different shares, users
      and secrets, all present unless a deletion has begun; every secret is an initial one or a
      volume's, or was left by a crash; every share and user is an initial one or a volume's, or was
      left behind by a creation of the kinds that `LeavesShare` and `LeavesUser` name; and nothing
      that was there before has changed. */
  lemma EveryRun(w0: World, ops: seq<Op>)
    requires FreshIds(w0, ops)
    ensures Inv(RunFrom(Start(w0), ops), w0)
  {
    RunKeepsInv(Start(w0), w0, ops);
  }

  /** When all volumes are gone, exactly the initial secrets remain. */
  lemma NoSecretLeaks(w0: World, ops: seq<Op>)
    requires FreshIds(w0, ops) && RunFrom(Start(w0), ops).records == []
    ensures RunFrom(Start(w0), ops).world.secrets == w0.secrets
  {
    EveryRun(w0, ops);
    var s := RunFrom(Start(w0), ops);
    forall r | r in s.world.secrets
      ensures r in w0.secrets
    {
      assert !Owned(s.records, r);
    }
  }

  /** Of shares and users exactly the initial ones and those left behind remain. */
  lemma OnlyLeftoversRemain(w0: World, ops: seq<Op>)
    requires FreshIds(w0, ops) && RunFrom(Start(w0), ops).records == []
    ensures
      var s := RunFrom(Start(w0), ops);
      s.world.shares == w0.shares + s.leftShares && s.world.users == w0.users + s.leftUsers
  {
    EveryRun(w0, ops);
    var s := RunFrom(Start(w0), ops);
    assert forall x :: !OwnedShare(s.records, x) && !OwnedUser(s.records, x);
  }

  /** A fresh share or user ends up with no volume to own it exactly when its creation is one that
      leaves it behind. */
  lemma LeavesBehindIff(s: State, w0: World, op: Op)
    requires Inv(s, w0) && op.Create? && Fresh(s, w0, op)
    ensures
      var s', share, user := AfterOp(s, op), ShareName(op.shareId), UserName(op.userId);
      && (share in s'.world.shares && !OwnedShare(s'.records, share)
          <==> LeavesShare(s.world, op.p, op.claim, op.parameters, op.userId, op.created))
      && (user in s'.world.users && !OwnedUser(s'.records, user)
          <==> LeavesUser(s.world, op.p, op.claim, op.parameters, op.userId, op.created))
  {
    var s', share, user := AfterOp(s, op), ShareName(op.shareId), UserName(op.userId);
    CreateKeepsInv(s, w0, op);
    CreationAdds(s.world, op.p, op.claim, op.parameters, op.shareId, op.userId, op.created);
    NotYetThere(s, w0, share, user);
    if SecretMade(s.world, op.p, op.claim, op.parameters, op.userId, op.created) {
      var n := |s.records|;
      assert s'.records[n].share == share && s'.records[n].user == user;
    } else {
      assert s'.records == s.records;
    }
  }

  lemma NotYetThere(s: State, w0: World, share: string, user: string)
    requires Inv(s, w0)
    ensures share !in s.usedShares ==> share !in s.world.shares && !OwnedShare(s.records, share)
    ensures user !in s.usedUsers ==> user !in s.world.users && !OwnedUser(s.records, user)
  {
    forall i | 0 <= i < |s.records|
      ensures s.records[i].share in s.usedShares && s.records[i].user in s.usedUsers
    {
      assert RecordOk(s, w0, s.records[i]);
    }
  }

  /** A successful deletion removes exactly the share, the user and the secret that the volume's own
      provisioning made, whichever namespace the secret is in. */
  lemma DeleteRemovesItsOwn(w0: World, ops: seq<Op>, op: Op)
    requires FreshIds(w0, ops) && op.Remove?
    requires op.which < |RunFrom(Start(w0), ops).records|
    requires !RunFrom(Start(w0), ops).records[op.which].status.Lost?
    ensures
      var s := RunFrom(Start(w0), ops);
      var r := s.records[op.which];
      var (w', reply) := AfterDelete(s.world, op.p, r.volume, op.class_, op.removed);
      reply.Done? ==>
        && w'.shares == s.world.shares - {r.share}
        && w'.users == s.world.users - {r.user}
        && r.ref in s.world.secrets && w'.secrets == s.world.secrets - {r.ref}
  {
    EveryRun(w0, ops);
    var s := RunFrom(Start(w0), ops);
    var r := s.records[op.which];
    assert RecordOk(s, w0, r);
    DeletionRemoves(s.world, op.p, r, op.class_, op.removed);
    var (_, reply) := AfterDelete(s.world, op.p, r.volume, op.class_, op.removed);
    if reply.Done? {
      OwnSecretOrNone(s, w0, op.which);
    }
  }

  // ---- When operations succeed -----------------------------------------------------------------------------

  /** Creation returns a volume exactly when it makes the secret and the path has a slash. It crashes
      without the slash, leaving the secret behind, and when the command prints `null`. */
  lemma ProvisionSucceedsIff(w: World, p: Config, claim: Claim, parameters: seq<(string, string)>, shareId: string, userId: string,
                             a: Answers<CreateOutcome>)
    ensures
      var (_, r) := AfterProvision(w, p, claim, parameters, shareId, userId, a);
      var made := SecretMade(w, p, claim, parameters, userId, a);
      && (r.Done? <==> made && Contains(a.command.output.path, "/"))
      && (r.Crashed? <==>
            || (made && !Contains(a.command.output.path, "/"))
            || (CommandRuns(w, p, claim, parameters, a) && a.command == Exited(Null)))
  {
    if a.command.Exited? && a.command.output.Output? {
      NoOccurrence(a.command.output.path, "/");
    }
  }

  /** The stored volume still leads to its secret exactly when the API server kept the namespace, or
      the claim's namespace is where the secret was put. */
  lemma StoredVolumeResolvesIff(w: World, p: Config, claim: Claim, parameters: seq<(string, string)>, shareId: string,
                                                   userId: string, a: Answers<CreateOutcome>, keeps: bool)
    requires AfterProvision(w, p, claim, parameters, shareId, userId, a).1.Done?
    ensures
      var v := AfterProvision(w, p, claim, parameters, shareId, userId, a).1.value;
      var ref := Ref(SecretNamespace(p, claim), SecretName(UserName(userId)));
      SecretOf(AsStored(v, claim, keeps)) == Ok(ref)
      <==> if keeps then ref.namespace != "" else claim.namespace != "" && (p.secretNamespace == "" || p.secretNamespace == claim.namespace)
  {
  }

  /** After every run, a deletion that everybody serves succeeds exactly when the stored volume still
      leads to its secret. */
  lemma DeleteSucceedsIff(w0: World, ops: seq<Op>, op: Op)
    requires FreshIds(w0, ops) && op.Remove?
    requires op.which < |RunFrom(Start(w0), ops).records|
    requires !RunFrom(Start(w0), ops).records[op.which].status.Lost?
    requires
      var s := RunFrom(Start(w0), ops);
      && s.records[op.which].volume.identity == Some(op.p.identity)
      && op.class_.Ok? && Parsed(op.p.client && op.removed.readable, s.world.secrets, op.class_.value).Ok?
      && op.removed.command.Removed? && op.removed.accepts
    ensures
      var s := RunFrom(Start(w0), ops);
      var r := s.records[op.which];
      AfterDelete(s.world, op.p, r.volume, op.class_, op.removed).1.Done? <==> SecretOf(r.volume) == Ok(r.ref)
  {
    EveryRun(w0, ops);
    var s := RunFrom(Start(w0), ops);
    var r := s.records[op.which];
    assert RecordOk(s, w0, r);
    if SecretOf(r.volume).Ok? && SecretOf(r.volume).value in s.world.secrets {
      OwnSecretOrNone(s, w0, op.which);
    }
  }

  /** Deleting a freshly provisioned volume gives the stores back as they were. */
  lemma DeleteUndoesProvision(w: World, p: Config, claim: Claim, parameters: seq<(string, string)>, shareId: string,
                                                 userId: string, a: Answers<CreateOutcome>, keeps: bool, q: Config,
                                                 class_: Result<seq<(string, string)>>, b: Answers<RemoveOutcome>)
    requires AfterProvision(w, p, claim, parameters, shareId, userId, a).1.Done?
    requires ShareName(shareId) !in w.shares && UserName(userId) !in w.users && NoSecretFor(w, UserName(userId))
    ensures
      var (w1, r) := AfterProvision(w, p, claim, parameters, shareId, userId, a);
      var (w2, reply) := AfterDelete(w1, q, AsStored(r.value, claim, keeps), class_, b);
      reply.Done? ==> w2.shares == w.shares && w2.users == w.users && w2.secrets == w.secrets
  {
    assert forall r :: r in w.secrets ==> r.name != SecretName(UserName(userId));
  }
}
