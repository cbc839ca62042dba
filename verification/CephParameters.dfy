/** The storage class parameters of the CephFS provisioner. Go visits a map in no fixed order, so a
    parse works on one enumeration of the parameters. */
module CephParameters {
  import opened Wrappers
  import opened Sequences
  import opened GoStrings

  datatype Key = Cluster | Monitors | AdminId | AdminSecretName | AdminSecretNamespace | Unknown

  function KeyOf(k: string): Key {
    var l := ToLower(k);
    if l == "cluster" then Cluster
    else if l == "monitors" then Monitors
    else if l == "adminid" then AdminId
    else if l == "adminsecretname" then AdminSecretName
    else if l == "adminsecretnamespace" then AdminSecretNamespace
    else Unknown
  }

  /** `strings.Split`: never empty. */
  function Split(s: string, sep: char): (parts: seq<string>)
    ensures parts != []
  {
    if s == "" then [""]
    else
      var rest := Split(s[1..], sep);
      if s[0] == sep then [""] + rest else [[s[0]] + rest[0]] + rest[1..]
  }

  function Join(parts: seq<string>, sep: char): string {
    if parts == [] then "" else if |parts| == 1 then parts[0] else parts[0] + [sep] + Join(parts[1..], sep)
  }

  /** Joining undoes splitting: `CEPH_MON` is the `monitors` parameter as it was written. */
  lemma {:induction false} JoinUndoesSplit(s: string, sep: char)
    ensures Join(Split(s, sep), sep) == s
  {
    if s == "" {
    } else {
      JoinUndoesSplit(s[1..], sep);
      var rest := Split(s[1..], sep);
      if s[0] == sep {
        assert ([""] + rest)[1..] == rest;
      } else {
        var parts := [[s[0]] + rest[0]] + rest[1..];
        assert parts[1..] == rest[1..];
      }
    }
  }

  datatype Options = Options(cluster: string, adminId: string, secretName: string, secretNamespace: string, monitors: seq<string>)

  const DEFAULTS := Options("ceph", "admin", "", "default", [])

  /** A parameter after its key has been recognised. */
  datatype Setting = Setting(key: Key, value: string)

  function Apply(o: Options, e: Setting): Result<Options> {
    match e.key
    case Cluster => Ok(o.(cluster := e.value))
    case Monitors => Ok(o.(monitors := o.monitors + Split(e.value, ',')))
    case AdminId => Ok(o.(adminId := e.value))
    case AdminSecretName => Ok(o.(secretName := e.value))
    case AdminSecretNamespace => Ok(o.(secretNamespace := e.value))
    case Unknown => Err
  }

  function ApplyAll(o: Options, es: seq<Setting>): Result<Options>
    decreases |es|
  {
    if es == [] then Ok(o)
    else
      match Apply(o, es[0])
      case Err => Err
      case Ok(o') => ApplyAll(o', es[1..])
  }

  function Recognised(entries: seq<(string, string)>): (es: seq<Setting>)
    ensures |es| == |entries|
    ensures forall i :: 0 <= i < |es| ==> es[i] == Setting(KeyOf(entries[i].0), entries[i].1)
  {
    if entries == [] then [] else [Setting(KeyOf(entries[0].0), entries[0].1)] + Recognised(entries[1..])
  }

  /** Where a secret is kept. */
  datatype Ref = Ref(namespace: string, name: string)

  /** The secrets of the Kubernetes cluster, each with one enumeration of its data. */
  type Secrets = map<Ref, seq<string>>

  /** `parsePVSecret`: the first value that the enumeration of the data meets. */
  function ParsePVSecret(client: bool, secrets: Secrets, r: Ref): Result<string> {
    if !client || r !in secrets || secrets[r] == [] then Err else Ok(secrets[r][0])
  }

  datatype Parameters = Parameters(cluster: string, adminId: string, adminSecret: string, monitors: seq<string>)

  /** The checks after the loop. */
  function Checked(client: bool, secrets: Secrets, o: Options): Result<Parameters> {
    if o.secretName == "" then Err
    else
      match ParsePVSecret(client, secrets, Ref(o.secretNamespace, o.secretName))
      case Err => Err
      case Ok(secret) => if o.monitors == [] then Err else Ok(Parameters(o.cluster, o.adminId, secret, o.monitors))
  }

  function Parsed(client: bool, secrets: Secrets, entries: seq<(string, string)>): Result<Parameters> {
    match ApplyAll(DEFAULTS, Recognised(entries))
    case Err => Err
    case Ok(o) => Checked(client, secrets, o)
  }

  /** The inner loop of `parseParameters`. */
  method AppendMonitors(before: seq<string>, v: string) returns (monitors: seq<string>)
    ensures monitors == before + Split(v, ',')
  {
    monitors := before;
    var arr := Split(v, ',');
    for j := 0 to |arr|
      invariant monitors == before + arr[..j]
    {
      monitors := monitors + [arr[j]];
    }
  }

  /** `parseParameters`. */
  method ParseParameters(client: bool, secrets: Secrets, entries: seq<(string, string)>) returns (r: Result<Parameters>)
    ensures r == Parsed(client, secrets, entries)
  {
    var cluster, adminId, secretName, secretNamespace := "ceph", "admin", "", "default";
    var monitors: seq<string> := [];
    ghost var es := Recognised(entries);
    for i := 0 to |entries|
      invariant ApplyAll(Options(cluster, adminId, secretName, secretNamespace, monitors), es[i..]) == ApplyAll(DEFAULTS, es)
    {
      var (k, v) := entries[i];
      var key := KeyOf(k);
      assert es[i..][0] == Setting(key, v) && es[i..][1..] == es[i + 1..];
      match key
      case Cluster => cluster := v;
      case Monitors => monitors := AppendMonitors(monitors, v);
      case AdminId => adminId := v;
      case AdminSecretName => secretName := v;
      case AdminSecretNamespace => secretNamespace := v;
      case Unknown => return Err;
    }
    r := Checked(client, secrets, Options(cluster, adminId, secretName, secretNamespace, monitors));
  }

  // ---- What the options mean ---------------------------------------------------------------------------

  predicate AllKnown(es: seq<Setting>) {
    forall i :: 0 <= i < |es| ==> es[i].key != Unknown
  }

  /** The option of a key, as the list of monitors or a list of one. */
  function OptionOf(o: Options, key: Key): seq<string>
    requires key != Unknown
  {
    match key
    case Cluster => [o.cluster]
    case Monitors => o.monitors
    case AdminId => [o.adminId]
    case AdminSecretName => [o.secretName]
    case AdminSecretNamespace => [o.secretNamespace]
  }

  /** A parameter that is not given keeps its default. */
  lemma {:induction false} MissingIsDefault(o: Options, es: seq<Setting>, key: Key)
    requires key != Unknown && AllKnown(es) && forall i :: 0 <= i < |es| ==> es[i].key != key
    ensures ApplyAll(o, es).Ok? && OptionOf(ApplyAll(o, es).value, key) == OptionOf(o, key)
    decreases |es|
  {
    if es == [] {
    } else {
      MissingIsDefault(Apply(o, es[0]).value, es[1..], key);
    }
  }

  /** A parameter that is given once is the option, wherever it stands. */
  lemma {:induction false} GivenIsOption(o: Options, es: seq<Setting>, i: nat)
    requires i < |es| && AllKnown(es) && forall j :: 0 <= j < |es| && j != i ==> es[j].key != es[i].key
    ensures ApplyAll(o, es).Ok?
    ensures OptionOf(ApplyAll(o, es).value, es[i].key)
            == if es[i].key == Monitors then o.monitors + Split(es[i].value, ',') else [es[i].value]
    decreases i
  {
    var o1 := Apply(o, es[0]).value;
    if i == 0 {
      MissingIsDefault(o1, es[1..], es[0].key);
    } else {
      GivenIsOption(o1, es[1..], i - 1);
    }
  }

  // ---- When the order of the parameters matters ----------------------------------------------------

  /** Exchanging the two settings makes no difference. */
  predicate Commute(e: Setting, f: Setting) {
    || e.key != f.key
    || e.value == f.value
    || (e.key == Monitors && Split(e.value, ',') + Split(f.value, ',') == Split(f.value, ',') + Split(e.value, ','))
  }

  predicate AllCommute(es: seq<Setting>) {
    forall i, j :: 0 <= i < |es| && 0 <= j < |es| ==> Commute(es[i], es[j])
  }

  ghost predicate SameInEveryOrder(es: seq<Setting>) {
    forall fs: seq<Setting> :: multiset(fs) == multiset(es) ==> ApplyAll(DEFAULTS, fs) == ApplyAll(DEFAULTS, es)
  }

  lemma {:induction false} AppliesIffKnown(o: Options, es: seq<Setting>)
    ensures ApplyAll(o, es).Ok? <==> AllKnown(es)
    decreases |es|
  {
    if es == [] || es[0].key == Unknown {
    } else {
      AppliesIffKnown(Apply(o, es[0]).value, es[1..]);
      assert AllKnown(es) <==> AllKnown(es[1..]) by {
        assert es == [es[0]] + es[1..];
      }
    }
  }

  lemma KnownInEveryOrder(es: seq<Setting>, fs: seq<Setting>)
    requires multiset(es) == multiset(fs) && AllKnown(es)
    ensures AllKnown(fs)
  {
    forall i | 0 <= i < |fs|
      ensures fs[i].key != Unknown
    {
      assert fs[i] in multiset(fs);
    }
  }

  lemma ApplyTwo(o: Options, e: Setting, f: Setting)
    requires Commute(e, f) && e.key != Unknown && f.key != Unknown
    ensures Apply(Apply(o, e).value, f) == Apply(Apply(o, f).value, e)
  {
    if e.key == Monitors && f.key == Monitors {
      var a, b := Split(e.value, ','), Split(f.value, ',');
      assert o.monitors + a + b == o.monitors + (a + b);
      assert o.monitors + b + a == o.monitors + (b + a);
    }
  }

  lemma CutBehindHead(es: seq<Setting>, i: nat)
    requires 0 < i < |es|
    ensures es[..i] + es[i + 1..] == [es[0]] + (es[1..i] + es[i + 1..])
    ensures es[1..][..i - 1] + es[1..][i..] == es[1..i] + es[i + 1..]
  {
  }

  /** A setting that commutes with all before it can come first. */
  lemma {:induction false} Advance(o: Options, es: seq<Setting>, i: nat)
    requires i < |es| && AllKnown(es) && AllCommute(es)
    ensures ApplyAll(o, es) == ApplyAll(o, [es[i]] + (es[..i] + es[i + 1..]))
    decreases i
  {
    if i == 0 {
      assert [es[0]] + (es[..0] + es[1..]) == es;
    } else {
      CutBehindHead(es, i);
      Advance(Apply(o, es[0]).value, es[1..], i - 1);
      ExchangeFirstTwo(o, es[0], es[i], es[1..i] + es[i + 1..]);
    }
  }

  lemma ExchangeFirstTwo(o: Options, e: Setting, f: Setting, tail: seq<Setting>)
    requires Commute(e, f) && e.key != Unknown && f.key != Unknown
    ensures ApplyAll(Apply(o, e).value, [f] + tail) == ApplyAll(o, [f] + ([e] + tail))
  {
    ApplyTwo(o, e, f);
    assert ([f] + tail)[1..] == tail && ([f] + ([e] + tail))[1..] == [e] + tail && ([e] + tail)[1..] == tail;
  }

  lemma {:induction false} OrderIgnored(o: Options, es: seq<Setting>, fs: seq<Setting>)
    requires multiset(es) == multiset(fs) && AllKnown(es) && AllKnown(fs) && AllCommute(fs)
    ensures ApplyAll(o, es) == ApplyAll(o, fs)
    decreases |es|
  {
    if es == [] {
      assert |multiset(fs)| == 0;
    } else {
      var i := FindFirst(es, fs);
      Advance(o, fs, i);
      var rest := fs[..i] + fs[i + 1..];
      assert AllKnown(rest) && AllCommute(rest) by {
        forall k | 0 <= k < |rest|
          ensures rest[k] == fs[if k < i then k else k + 1]
        {
        }
      }
      assert ([fs[i]] + rest)[1..] == rest;
      OrderIgnored(Apply(o, es[0]).value, es[1..], rest);
    }
  }

  lemma {:induction false} ApplyAllAppend(o: Options, es: seq<Setting>, fs: seq<Setting>)
    ensures ApplyAll(o, es + fs) == if ApplyAll(o, es).Ok? then ApplyAll(ApplyAll(o, es).value, fs) else Err
    decreases |es|
  {
    if es == [] {
      assert es + fs == fs;
    } else {
      assert (es + fs)[1..] == es[1..] + fs;
      if Apply(o, es[0]).Ok? {
        ApplyAllAppend(Apply(o, es[0]).value, es[1..], fs);
      }
    }
  }

  lemma ApplyPair(o: Options, e: Setting, f: Setting)
    requires e.key != Unknown && f.key != Unknown
    ensures ApplyAll(o, [e, f]) == Apply(Apply(o, e).value, f)
  {
    var o1 := Apply(o, e).value;
    assert ApplyAll(o1, [f]) == ApplyAll(Apply(o1, f).value, []);
    assert [e, f][1..] == [f];
  }

  /** Two settings that do not commute give different results when they come last. */
  lemma LastTwoMatter(o: Options, e: Setting, f: Setting)
    requires !Commute(e, f) && e.key != Unknown
    ensures ApplyAll(o, [e, f]) != ApplyAll(o, [f, e])
  {
    ApplyPair(o, e, f);
    ApplyPair(o, f, e);
    if e.key == Monitors {
      var a, b := Split(e.value, ','), Split(f.value, ',');
      assert o.monitors + a + b == o.monitors + (a + b);
      assert o.monitors + b + a == o.monitors + (b + a);
      assert (o.monitors + (a + b))[|o.monitors|..] == a + b;
      assert (o.monitors + (b + a))[|o.monitors|..] == b + a;
    }
  }

  /** The loop gives the same options in every order of the parameters exactly when one of them is
      invalid or any two for the same option agree. */
  lemma OrderIgnoredIff(es: seq<Setting>)
    ensures SameInEveryOrder(es) <==> !AllKnown(es) || AllCommute(es)
  {
    if !AllKnown(es) || AllCommute(es) {
      forall fs: seq<Setting> | multiset(fs) == multiset(es)
        ensures ApplyAll(DEFAULTS, fs) == ApplyAll(DEFAULTS, es)
      {
        AppliesIffKnown(DEFAULTS, es);
        AppliesIffKnown(DEFAULTS, fs);
        if AllKnown(es) {
          KnownInEveryOrder(es, fs);
          OrderIgnored(DEFAULTS, fs, es);
        } else if AllKnown(fs) {
          KnownInEveryOrder(fs, es);
        }
      }
    } else {
      var i, j :| 0 <= i < |es| && 0 <= j < |es| && !Commute(es[i], es[j]);
      CommuteSymmetric(es[i], es[j]);
      if i < j {
        TwoOrders(es, i, j);
      } else {
        TwoOrders(es, j, i);
      }
    }
  }

  lemma CommuteSymmetric(e: Setting, f: Setting)
    ensures Commute(e, f) <==> Commute(f, e)
  {
  }

  /** Any two settings can be put last, in either order. */
  lemma PutLast(es: seq<Setting>, i: nat, j: nat) returns (rest: seq<Setting>)
    requires i < j < |es|
    ensures multiset(rest + [es[i], es[j]]) == multiset(es) == multiset(rest + [es[j], es[i]])
  {
    var e, f := es[i], es[j];
    var shorter := es[..j] + es[j + 1..];
    rest := shorter[..i] + shorter[i + 1..];
    LastIsCut(rest, e);
    CutBoth(rest + [e], |rest|, shorter, i);
    LastIsCut(rest + [e], f);
    CutBoth(rest + [e] + [f], |rest| + 1, es, j);
    assert rest + [e, f] == rest + [e] + [f];
    SwapLast(rest, e, f);
  }

  lemma LastIsCut(s: seq<Setting>, e: Setting)
    ensures (s + [e])[..|s|] + (s + [e])[|s| + 1..] == s
  {
  }

  lemma SwapLast(s: seq<Setting>, e: Setting, f: Setting)
    ensures multiset(s + [e, f]) == multiset(s + [f, e])
  {
    assert s + [e, f] == s + [e] + [f] && s + [f, e] == s + [f] + [e];
  }

  lemma TwoOrders(es: seq<Setting>, i: nat, j: nat)
    requires i < j < |es| && AllKnown(es) && !Commute(es[i], es[j])
    ensures !SameInEveryOrder(es)
  {
    var rest := PutLast(es, i, j);
    KnownInEveryOrder(es, rest + [es[i], es[j]]);
    OrdersDiffer(rest, es[i], es[j]);
    assert ApplyAll(DEFAULTS, rest + [es[i], es[j]]) != ApplyAll(DEFAULTS, rest + [es[j], es[i]]);
  }

  lemma OrdersDiffer(rest: seq<Setting>, e: Setting, f: Setting)
    requires AllKnown(rest + [e, f]) && !Commute(e, f)
    ensures ApplyAll(DEFAULTS, rest + [e, f]) != ApplyAll(DEFAULTS, rest + [f, e])
  {
    AppliesIffKnown(DEFAULTS, rest + [e, f]);
    ApplyAllAppend(DEFAULTS, rest, [e, f]);
    ApplyAllAppend(DEFAULTS, rest, [f, e]);
    assert e.key != Unknown by {
      assert (rest + [e, f])[|rest|] == e;
    }
    LastTwoMatter(ApplyAll(DEFAULTS, rest).value, e, f);
  }

  // ---- The whole parse ------------------------------------------------------------------------------

  /** No two keys are the same in lower case. */
  predicate KeysDiffer(entries: seq<(string, string)>) {
    forall i, j :: 0 <= i < j < |entries| ==> ToLower(entries[i].0) != ToLower(entries[j].0)
  }

  /** The same secrets, their data enumerated in another order. */
  predicate SameSecrets(a: Secrets, b: Secrets) {
    a.Keys == b.Keys && forall r :: r in a ==> multiset(a[r]) == multiset(b[r])
  }

  /** The admin secret that the parameters name has at most one entry. */
  predicate OneEntryAdminSecret(secrets: Secrets, entries: seq<(string, string)>) {
    match ApplyAll(DEFAULTS, Recognised(entries))
    case Err => true
    case Ok(o) =>
      var r := Ref(o.secretNamespace, o.secretName);
      r in secrets ==> |secrets[r]| <= 1
  }

  /** With keys that differ in lower case and an admin secret of one entry, neither the order of the
      parameters nor that of the secret data matters. */
  lemma ParametersIgnoreOrder(client: bool, secrets: Secrets, secrets': Secrets,
                              entries: seq<(string, string)>, entries': seq<(string, string)>)
    requires multiset(entries) == multiset(entries') && KeysDiffer(entries)
    requires SameSecrets(secrets, secrets') && OneEntryAdminSecret(secrets, entries)
    ensures Parsed(client, secrets, entries) == Parsed(client, secrets', entries')
  {
    var es, fs := Recognised(entries), Recognised(entries');
    RecognisedInEveryOrder(entries, entries');
    if AllKnown(es) {
      DifferentKeysCommute(entries);
    }
    OrderIgnoredIff(es);
    assert ApplyAll(DEFAULTS, fs) == ApplyAll(DEFAULTS, es);
    if ApplyAll(DEFAULTS, es).Ok? {
      OneEntryIsFound(client, secrets, secrets', ApplyAll(DEFAULTS, es).value);
    }
  }

  lemma DifferentKeysCommute(entries: seq<(string, string)>)
    requires KeysDiffer(entries) && AllKnown(Recognised(entries))
    ensures AllCommute(Recognised(entries))
  {
    var es := Recognised(entries);
    forall i, j | 0 <= i < |es| && 0 <= j < |es|
      ensures Commute(es[i], es[j])
    {
      if i < j {
        KnownKeysDiffer(entries[i].0, entries[j].0);
      } else if j < i {
        KnownKeysDiffer(entries[j].0, entries[i].0);
      }
    }
  }

  lemma OneEntryIsFound(client: bool, secrets: Secrets, secrets': Secrets, o: Options)
    requires SameSecrets(secrets, secrets')
    requires var r := Ref(o.secretNamespace, o.secretName); r in secrets ==> |secrets[r]| <= 1
    ensures Checked(client, secrets, o) == Checked(client, secrets', o)
  {
    var r := Ref(o.secretNamespace, o.secretName);
    if r in secrets {
      OneEntry(secrets[r], secrets'[r]);
    }
  }

  lemma OneEntry(a: seq<string>, b: seq<string>)
    requires multiset(a) == multiset(b) && |a| <= 1
    ensures a == b
  {
    assert |multiset(a)| == |multiset(b)| == |b|;
    if |a| == 1 {
      assert b[0] in multiset(a);
    }
  }

  lemma KnownKeysDiffer(k: string, k': string)
    requires ToLower(k) != ToLower(k') && KeyOf(k) != Unknown
    ensures KeyOf(k) != KeyOf(k')
  {
  }

  lemma {:induction false} RecognisedInEveryOrder(entries: seq<(string, string)>, entries': seq<(string, string)>)
    requires multiset(entries) == multiset(entries')
    ensures multiset(Recognised(entries)) == multiset(Recognised(entries'))
    decreases |entries|
  {
    if entries == [] {
      assert |multiset(entries')| == 0;
    } else {
      var i := FindFirst(entries, entries');
      var rest := entries'[..i] + entries'[i + 1..];
      RecognisedInEveryOrder(entries[1..], rest);
      var es, fs := Recognised(entries), Recognised(entries');
      assert Recognised(rest) == fs[..i] + fs[i + 1..];
      assert es[..0] + es[1..] == Recognised(entries[1..]);
      CutBoth(es, 0, fs, i);
    }
  }
}
