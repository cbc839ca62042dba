/** What `Provision` and `Delete` return, log and leave in the stores, in plain terms. */
module ProvisionResults {
  import opened Wrappers
  import opened GoStrings
  import opened CephParameters
  import opened CephProvisioner
  import opened CephLifecycle

  // ---- Provision ---------------------------------------------------------------------------------------

  /** The run of the command to create, with the share and user of the given identifiers and the
      parameters of the storage class. */
  predicate CreationCall(call: Call, shareId: string, userId: string, par: Parameters) {
    && !call.remove
    && call.share == "kubernetes-dynamic-pvc-" + shareId && call.user == "kubernetes-dynamic-user-" + userId
    && call.cluster == par.cluster && call.monitors == Join(par.monitors, ',')
    && call.adminId == par.adminId && call.adminKey == par.adminSecret
  }

  /** The command runs once, if the claim has no selector and the parameters can be read. Otherwise
      nothing happens at all. */
  lemma CommandRunsOnce(w: World, p: Config, claim: Claim, parameters: seq<(string, string)>, shareId: string, userId: string,
                        a: Answers<CreateOutcome>)
    ensures
      var (w', r) := AfterProvision(w, p, claim, parameters, shareId, userId, a);
      var parsed := Parsed(p.client && a.readable, w.secrets, parameters);
      if claim.selector || parsed.Err? then w' == w && r == Failed
      else
        && |w'.calls| == |w.calls| + 1 && w'.calls[..|w.calls|] == w.calls
        && CreationCall(w'.calls[|w.calls|], shareId, userId, parsed.value)
  {
    var share, user := ShareName(shareId), UserName(userId);
    var parsed := Parsed(p.client && a.readable, w.secrets, parameters);
    if !claim.selector && parsed.Ok? {
      assert CreationCall(CallOf(false, share, user, parsed.value), shareId, userId, parsed.value);
    }
  }

  /** The path is what the command printed, from the first slash on. */
  predicate FromFirstSlash(printed: string, path: string) {
    && path != "" && path[0] == '/'
    && |path| <= |printed| && printed == printed[..|printed| - |path|] + path
    && '/' !in printed[..|printed| - |path|]
  }

  lemma CutAtFirstSlash(printed: string)
    requires Index(printed, "/") >= 0
    ensures FromFirstSlash(printed, printed[Index(printed, "/")..])
  {
    var i := Index(printed, "/");
    assert printed[i..i + 1][0] == '/';
    assert printed[..|printed| - |printed[i..]|] == printed[..i];
    forall j | 0 <= j < i
      ensures printed[j] != '/'
    {
      assert !At(printed, "/", j);
      assert printed[j..j + 1] == [printed[j]];
    }
  }

  /** A returned volume: it carries the provisioner's identity and the share, mounts the printed path
      from its first slash on through the given monitors, and refers to a new secret that holds the
      printed key. The controller, not the provisioner, binds it to its claim. */
  lemma ReturnedVolume(w: World, p: Config, claim: Claim, parameters: seq<(string, string)>, shareId: string, userId: string,
                       a: Answers<CreateOutcome>)
    requires AfterProvision(w, p, claim, parameters, shareId, userId, a).1.Done?
    ensures
      var (w', r) := AfterProvision(w, p, claim, parameters, shareId, userId, a);
      var out, user := a.command.output, "kubernetes-dynamic-user-" + userId;
      var v, source := r.value, r.value.source.value;
      var ref := source.secretRef.value;
      && v.identity == Some(p.identity) && v.share == Some("kubernetes-dynamic-pvc-" + shareId) && v.claimNamespace == None
      && source.user == user && FromFirstSlash(out.path, source.path)
      && source.monitors == Parsed(p.client && a.readable, w.secrets, parameters).value.monitors
      && ref.name == "ceph-" + user + "-secret"
      && ref.namespace == (if p.secretNamespace != "" then p.secretNamespace else claim.namespace)
      && ref !in w.secrets && w'.secrets == w.secrets[ref := [out.secret]]
  {
    CutAtFirstSlash(a.command.output.path);
  }

  // ---- Delete --------------------------------------------------------------------------------------------

  /** The secret that a volume refers to: in the namespace of the reference if it has one, or else in
      that of the claim. */
  lemma SecretOfIff(v: Volume, r: Ref)
    ensures SecretOf(v) == Ok(r) <==>
      && v.source.Some? && v.source.value.secretRef.Some? && r.namespace != ""
      && r.name == v.source.value.secretRef.value.name
      && (if v.source.value.secretRef.value.namespace != "" then r.namespace == v.source.value.secretRef.value.namespace
          else v.claimNamespace == Some(r.namespace))
  {
  }

  /** The deletion gets as far as the command. */
  predicate RemovalRuns(w: World, p: Config, v: Volume, class_: Result<seq<(string, string)>>, a: Answers<RemoveOutcome>) {
    && v.identity == Some(p.identity) && v.share.Some? && v.source.Some?
    && class_.Ok? && Parsed(p.client && a.readable, w.secrets, class_.value).Ok?
  }

  /** A deletion runs the command with the volume's share and user and the parameters of its class;
      if it does not get there, nothing happens. It succeeds exactly when the command has removed
      both and the secret that the volume refers to was there and could be deleted. It ignores
      exactly the volumes of other provisioners. */
  lemma DeletionIs(w: World, p: Config, v: Volume, class_: Result<seq<(string, string)>>, a: Answers<RemoveOutcome>)
    ensures
      var (w', r) := AfterDelete(w, p, v, class_, a);
      && (r.Ignored? <==> v.identity.Some? && v.identity.value != p.identity)
      && (r.Done? <==> RemovalRuns(w, p, v, class_, a) && a.command.Removed?
                       && SecretOf(v).Ok? && SecretOf(v).value in w.secrets && a.accepts)
      && (r.Crashed? <==> v.identity == Some(p.identity) && v.share.Some? && v.source.None?
                          && class_.Ok? && Parsed(p.client && a.readable, w.secrets, class_.value).Ok?)
      && (!RemovalRuns(w, p, v, class_, a) ==> w' == w)
      && (RemovalRuns(w, p, v, class_, a) ==>
            var par := Parsed(p.client && a.readable, w.secrets, class_.value).value;
            && |w'.calls| == |w.calls| + 1 && w'.calls[..|w.calls|] == w.calls
            && w'.calls[|w.calls|] == Call(true, v.share.value, v.source.value.user, par.cluster, Join(par.monitors, ','),
                                           par.adminId, par.adminSecret)
            && w'.shares == (if a.command == RemoveFailed(false, false) || a.command == RemoveFailed(false, true) then w.shares
                             else w.shares - {v.share.value})
            && w'.users == (if a.command == RemoveFailed(false, false) || a.command == RemoveFailed(true, false) then w.users
                            else w.users - {v.source.value.user}))
      && w'.secrets == (if r.Done? then w.secrets - {SecretOf(v).value} else w.secrets)
  {
  }
}
