/** The CephFS provisioner: `Provision` and `Delete` over the Ceph cluster and the Kubernetes
    secrets. What the command and the API answer are parameters. */
module CephProvisioner {
  import opened Wrappers
  import opened GoStrings
  import opened CephParameters

  /** One run of the provisioning command, with its arguments and environment. */
  datatype Call = Call(remove: bool, share: string, user: string, cluster: string, monitors: string, adminId: string, adminKey: string)

  datatype World = World(shares: set<string>, users: set<string>, secrets: Secrets, calls: seq<Call>)

  datatype Config = Config(identity: string, secretNamespace: string, client: bool)

  datatype Claim = Claim(namespace: string, selector: bool)

  /** What the command prints. `Null` is the JSON value `null`, which takes away the record that the
      output is parsed into; output that cannot be parsed counts as three empty fields. */
  datatype Output = Null | Output(path: string, user: string, secret: string)

  /** A command that exits well has made both; one that fails may have made either. */
  datatype CreateOutcome = Exited(output: Output) | CreateFailed(share: bool, user: bool)

  /** The same for removal. */
  datatype RemoveOutcome = Removed | RemoveFailed(share: bool, user: bool)

  /** `readable`: the API serves the admin secret; `accepts`: it serves the creation or deletion of the
      volume's own secret, if that is possible at all. */
  datatype Answers<T> = Answers(readable: bool, command: T, accepts: bool)

  datatype Source = Source(user: string, path: string, monitors: seq<string>, secretRef: Option<Ref>)

  /** The parts of a persistent volume that the provisioner writes or reads. */
  datatype Volume = Volume(identity: Option<string>, share: Option<string>, source: Option<Source>, claimNamespace: Option<string>)

  datatype Reply<T> = Done(value: T) | Ignored | Failed | Crashed

  // ---- Names -------------------------------------------------------------------------------------------

  function ShareName(id: string): string { "kubernetes-dynamic-pvc-" + id }

  function UserName(id: string): string { "kubernetes-dynamic-user-" + id }

  /** `generateSecretName`. */
  function SecretName(user: string): string { "ceph-" + user + "-secret" }

  lemma NamesInjective(prefix: string, a: string, b: string, suffix: string)
    ensures prefix + a + suffix == prefix + b + suffix ==> a == b
  {
    var x, y := prefix + a + suffix, prefix + b + suffix;
    assert x[|prefix|..|x| - |suffix|] == a;
    assert y[|prefix|..|y| - |suffix|] == b;
  }

  lemma ShareNameInjective(a: string, b: string)
    ensures ShareName(a) == ShareName(b) <==> a == b
  {
    NamesInjective("kubernetes-dynamic-pvc-", a, b, "");
  }

  lemma UserNameInjective(a: string, b: string)
    ensures UserName(a) == UserName(b) <==> a == b
  {
    NamesInjective("kubernetes-dynamic-user-", a, b, "");
  }

  /** Different users have different secrets. */
  lemma SecretNameInjective(a: string, b: string)
    ensures SecretName(a) == SecretName(b) <==> a == b
  {
    NamesInjective("ceph-", a, b, "-secret");
  }

  // ---- Provision -----------------------------------------------------------------------------------------

  /** The namespace in which the volume's secret is created. */
  function SecretNamespace(p: Config, claim: Claim): string {
    if p.secretNamespace == "" then claim.namespace else p.secretNamespace
  }

  function CallOf(remove: bool, share: string, user: string, par: Parameters): Call {
    Call(remove, share, user, par.cluster, Join(par.monitors, ','), par.adminId, par.adminSecret)
  }

  /** The world after the command has run. */
  function AfterCreate(w: World, call: Call, outcome: CreateOutcome): World {
    var share := outcome.Exited? || outcome.share;
    var user := outcome.Exited? || outcome.user;
    World(if share then w.shares + {call.share} else w.shares, if user then w.users + {call.user} else w.users,
          w.secrets, w.calls + [call])
  }

  function AfterRemove(w: World, call: Call, outcome: RemoveOutcome): World {
    var share := outcome.Removed? || outcome.share;
    var user := outcome.Removed? || outcome.user;
    World(if share then w.shares - {call.share} else w.shares, if user then w.users - {call.user} else w.users,
          w.secrets, w.calls + [call])
  }

  /** The last part of `Provision`, once the command has answered. `null` crashes it at once, a path
      without a slash after the secret has been created. */
  function Finish(w: World, p: Config, claim: Claim, share: string, user: string, monitors: seq<string>, out: Output,
                  accepts: bool): (World, Reply<Volume>)
  {
    var ref := Ref(SecretNamespace(p, claim), SecretName(user));
    if out.Null? then (w, Crashed)
    else if out.user == "" || out.secret == "" || out.path == "" then (w, Failed)
    else if ref in w.secrets || !accepts then (w, Failed)
    else
      var w' := w.(secrets := w.secrets[ref := [out.secret]]);
      var slash := Index(out.path, "/");
      if slash < 0 then (w', Crashed)
      else (w', Done(Volume(Some(p.identity), Some(share), Some(Source(user, out.path[slash..], monitors, Some(ref))), None)))
  }

  function AfterProvision(w: World, p: Config, claim: Claim, parameters: seq<(string, string)>, shareId: string, userId: string,
                          a: Answers<CreateOutcome>): (World, Reply<Volume>)
  {
    if claim.selector then (w, Failed)
    else
      match Parsed(p.client && a.readable, w.secrets, parameters)
      case Err => (w, Failed)
      case Ok(par) =>
        var share, user := ShareName(shareId), UserName(userId);
        var w1 := AfterCreate(w, CallOf(false, share, user, par), a.command);
        match a.command
        case CreateFailed(_, _) => (w1, Failed)
        case Exited(out) => Finish(w1, p, claim, share, user, par.monitors, out, a.accepts)
  }

  // ---- Delete --------------------------------------------------------------------------------------------

  /** `getSecretFromCephFSPersistentVolume`: the secret's own namespace, or else the claim's. */
  function SecretOf(v: Volume): Result<Ref> {
    match v.source
    case None => Err
    case Some(source) =>
      match source.secretRef
      case None => Err
      case Some(ref) =>
        if ref.namespace != "" then Ok(ref)
        else if v.claimNamespace.None? || v.claimNamespace.value == "" then Err
        else Ok(Ref(v.claimNamespace.value, ref.name))
  }

  /** The last part of `Delete`. */
  function Forget(w: World, v: Volume, accepts: bool): (World, Reply<()>) {
    match SecretOf(v)
    case Err => (w, Failed)
    case Ok(ref) =>
      if ref !in w.secrets || !accepts then (w, Failed) else (w.(secrets := w.secrets - {ref}), Done(()))
  }

  /** `class`: the parameters of the volume's storage class, if the API finds it. A volume that is
      not a CephFS volume crashes it. */
  function AfterDelete(w: World, p: Config, v: Volume, class_: Result<seq<(string, string)>>, a: Answers<RemoveOutcome>):
    (World, Reply<()>)
  {
    if v.identity.None? then (w, Failed)
    else if v.identity.value != p.identity then (w, Ignored)
    else if v.share.None? || class_.Err? then (w, Failed)
    else
      match Parsed(p.client && a.readable, w.secrets, class_.value)
      case Err => (w, Failed)
      case Ok(par) =>
        if v.source.None? then (w, Crashed)
        else
          var w1 := AfterRemove(w, CallOf(true, v.share.value, v.source.value.user, par), a.command);
          if a.command.Removed? then Forget(w1, v, a.accepts) else (w1, Failed)
  }

  // ---- The two stores and the provisioner ------------------------------------------------------------------

  class Stores {
    var shares: set<string>
    var users: set<string>
    var secrets: Secrets
    var calls: seq<Call>

    constructor (w: World)
      ensures Now() == w
    {
      shares, users, secrets, calls := w.shares, w.users, w.secrets, w.calls;
    }

    function Now(): World
      reads this
    {
      World(shares, users, secrets, calls)
    }

    /** Runs the command to create a share and its user. */
    method RunCreate(call: Call, outcome: CreateOutcome)
      modifies this
      ensures Now() == AfterCreate(old(Now()), call, outcome)
    {
      calls := calls + [call];
      if outcome.Exited? || outcome.share {
        shares := shares + {call.share};
      }
      if outcome.Exited? || outcome.user {
        users := users + {call.user};
      }
    }

    /** Runs it to remove them. */
    method RunRemove(call: Call, outcome: RemoveOutcome)
      modifies this
      ensures Now() == AfterRemove(old(Now()), call, outcome)
    {
      calls := calls + [call];
      if outcome.Removed? || outcome.share {
        shares := shares - {call.share};
      }
      if outcome.Removed? || outcome.user {
        users := users - {call.user};
      }
    }
  }

  class CephFSProvisioner {
    const stores: Stores
    const config: Config

    constructor (stores: Stores, config: Config)
      ensures this.stores == stores && this.config == config
    {
      this.stores, this.config := stores, config;
    }

    method Provision(claim: Claim, parameters: seq<(string, string)>, shareId: string, userId: string, a: Answers<CreateOutcome>)
      returns (r: Reply<Volume>)
      modifies stores
      ensures (stores.Now(), r) == AfterProvision(old(stores.Now()), config, claim, parameters, shareId, userId, a)
    {
      if claim.selector {
        return Failed;
      }
      var parsed := ParseParameters(config.client && a.readable, stores.secrets, parameters);
      if parsed.Err? {
        return Failed;
      }
      var par := parsed.value;
      var share, user := ShareName(shareId), UserName(userId);
      stores.RunCreate(CallOf(false, share, user, par), a.command);
      if a.command.CreateFailed? {
        return Failed;
      }
      var out := a.command.output;
      if out.Null? {
        return Crashed;
      }
      if out.user == "" || out.secret == "" || out.path == "" {
        return Failed;
      }
      var nameSpace := config.secretNamespace;
      if nameSpace == "" {
        nameSpace := claim.namespace;
      }
      var ref := Ref(nameSpace, SecretName(user));
      if ref in stores.secrets || !a.accepts {
        return Failed;
      }
      stores.secrets := stores.secrets[ref := [out.secret]];
      var slash := Index(out.path, "/");
      if slash < 0 {
        return Crashed;
      }
      r := Done(Volume(Some(config.identity), Some(share), Some(Source(user, out.path[slash..], par.monitors, Some(ref))), None));
    }

    method Delete(v: Volume, class_: Result<seq<(string, string)>>, a: Answers<RemoveOutcome>) returns (r: Reply<()>)
      modifies stores
      ensures (stores.Now(), r) == AfterDelete(old(stores.Now()), config, v, class_, a)
    {
      if v.identity.None? {
        return Failed;
      }
      if v.identity.value != config.identity {
        return Ignored;
      }
      if v.share.None? || class_.Err? {
        return Failed;
      }
      var parsed := ParseParameters(config.client && a.readable, stores.secrets, class_.value);
      if parsed.Err? {
        return Failed;
      }
      if v.source.None? {
        return Crashed;
      }
      stores.RunRemove(CallOf(true, v.share.value, v.source.value.user, parsed.value), a.command);
      if a.command.RemoveFailed? {
        return Failed;
      }
      var ref := SecretOf(v);
      if ref.Err? || ref.value !in stores.secrets || !a.accepts {
        return Failed;
      }
      stores.secrets := stores.secrets - {ref.value};
      r := Done(());
    }
  }
}
