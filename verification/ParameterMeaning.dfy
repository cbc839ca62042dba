/** What the parameters of a storage class mean, stated through their texts alone. */
module ParameterMeaning {
  import opened Wrappers
  import opened GoStrings
  import opened CephParameters

  /** The value given under a name, whatever the case of its letters. */
  function Given(entries: seq<(string, string)>, name: string): Option<string> {
    if entries == [] then None
    else if ToLower(entries[0].0) == name then Some(entries[0].1)
    else Given(entries[1..], name)
  }

  function GivenOr(entries: seq<(string, string)>, name: string, default: string): string {
    match Given(entries, name)
    case Some(v) => v
    case None => default
  }

  predicate IsOption(k: string) {
    var l := ToLower(k);
    l == "cluster" || l == "monitors" || l == "adminid" || l == "adminsecretname" || l == "adminsecretnamespace"
  }

  /** What the parameters must be, and what they come to. */
  function Meaning(client: bool, secrets: Secrets, entries: seq<(string, string)>): Result<Parameters> {
    var ref := Ref(GivenOr(entries, "adminsecretnamespace", "default"), GivenOr(entries, "adminsecretname", ""));
    var monitors := Given(entries, "monitors");
    if (forall i :: 0 <= i < |entries| ==> IsOption(entries[i].0)) && ref.name != ""
       && client && ref in secrets && secrets[ref] != [] && monitors.Some?
    then Ok(Parameters(GivenOr(entries, "cluster", "ceph"), GivenOr(entries, "adminid", "admin"), secrets[ref][0],
                       Split(monitors.value, ',')))
    else Err
  }

  // ---- Names and keys --------------------------------------------------------------------------------

  function NameOf(key: Key): string
    requires key != Unknown
  {
    match key
    case Cluster => "cluster"
    case Monitors => "monitors"
    case AdminId => "adminid"
    case AdminSecretName => "adminsecretname"
    case AdminSecretNamespace => "adminsecretnamespace"
  }

  lemma KeyOfIff(k: string, key: Key)
    requires key != Unknown
    ensures KeyOf(k) == key <==> ToLower(k) == NameOf(key)
  {
  }

  lemma KnownIff(k: string)
    ensures KeyOf(k) != Unknown <==> IsOption(k)
  {
  }

  lemma {:induction false} GivenAt(entries: seq<(string, string)>, name: string)
    ensures Given(entries, name) == None <==> forall i :: 0 <= i < |entries| ==> ToLower(entries[i].0) != name
    ensures Given(entries, name).Some? ==>
              exists i :: 0 <= i < |entries| && ToLower(entries[i].0) == name && Given(entries, name) == Some(entries[i].1)
  {
    if entries == [] {
    } else {
      var rest := entries[1..];
      GivenAt(rest, name);
      assert forall i :: 0 < i < |entries| ==> entries[i] == rest[i - 1];
      if ToLower(entries[0].0) != name && Given(rest, name).Some? {
        var i :| 0 <= i < |rest| && ToLower(rest[i].0) == name && Given(rest, name) == Some(rest[i].1);
        assert entries[i + 1] == rest[i];
      }
    }
  }

  /** One option: the value given under its name, or its default. */
  lemma OptionIsGiven(o: Options, entries: seq<(string, string)>, key: Key)
    requires KeysDiffer(entries) && AllKnown(Recognised(entries)) && key != Unknown
    ensures ApplyAll(o, Recognised(entries)).Ok?
    ensures
      var given := Given(entries, NameOf(key));
      OptionOf(ApplyAll(o, Recognised(entries)).value, key)
      == if given.None? then OptionOf(o, key)
         else if key == Monitors then o.monitors + Split(given.value, ',') else [given.value]
  {
    var es := Recognised(entries);
    GivenAt(entries, NameOf(key));
    forall i | 0 <= i < |entries|
      ensures es[i].key == key <==> ToLower(entries[i].0) == NameOf(key)
    {
      KeyOfIff(entries[i].0, key);
    }
    if Given(entries, NameOf(key)).None? {
      MissingIsDefault(o, es, key);
    } else {
      var i :| 0 <= i < |entries| && ToLower(entries[i].0) == NameOf(key) && Given(entries, NameOf(key)) == Some(entries[i].1);
      GivenIsOption(o, es, i);
    }
  }

  lemma AllKnownIff(entries: seq<(string, string)>)
    ensures AllKnown(Recognised(entries)) <==> forall i :: 0 <= i < |entries| ==> IsOption(entries[i].0)
  {
    forall i | 0 <= i < |entries|
      ensures Recognised(entries)[i].key != Unknown <==> IsOption(entries[i].0)
    {
      KnownIff(entries[i].0);
    }
    if AllKnown(Recognised(entries)) {
      forall i | 0 <= i < |entries|
        ensures IsOption(entries[i].0)
      {
        assert Recognised(entries)[i].key != Unknown;
      }
    }
  }

  lemma OptionsAreGiven(entries: seq<(string, string)>)
    requires KeysDiffer(entries) && AllKnown(Recognised(entries))
    ensures
      var r := ApplyAll(DEFAULTS, Recognised(entries));
      && r.Ok?
      && r.value.cluster == GivenOr(entries, NameOf(Cluster), "ceph")
      && r.value.adminId == GivenOr(entries, NameOf(AdminId), "admin")
      && r.value.secretName == GivenOr(entries, NameOf(AdminSecretName), "")
      && r.value.secretNamespace == GivenOr(entries, NameOf(AdminSecretNamespace), "default")
      && r.value.monitors == (match Given(entries, NameOf(Monitors)) case Some(v) => Split(v, ',') case None => [])
  {
    OptionIsGiven(DEFAULTS, entries, Cluster);
    OptionIsGiven(DEFAULTS, entries, AdminId);
    OptionIsGiven(DEFAULTS, entries, AdminSecretName);
    OptionIsGiven(DEFAULTS, entries, AdminSecretNamespace);
    OptionIsGiven(DEFAULTS, entries, Monitors);
  }

  /** Parsing parameters whose keys differ in lower case gives exactly what they mean. */
  lemma ParsedIsMeaning(client: bool, secrets: Secrets, entries: seq<(string, string)>)
    requires KeysDiffer(entries)
    ensures Parsed(client, secrets, entries) == Meaning(client, secrets, entries)
  {
    AllKnownIff(entries);
    if AllKnown(Recognised(entries)) {
      OptionsAreGiven(entries);
    } else {
      AppliesIffKnown(DEFAULTS, Recognised(entries));
    }
  }

  // ---- The list of monitors -----------------------------------------------------------------------------

  /** Joining the monitors gives the parameter back (`JoinUndoesSplit`), and no monitor has the
      separator in it. */
  lemma {:induction false} SplitIsApart(s: string, sep: char)
    ensures forall part :: part in Split(s, sep) ==> sep !in part
  {
    if s == "" {
    } else {
      SplitIsApart(s[1..], sep);
      var rest := Split(s[1..], sep);
      assert rest[0] in rest;
      if s[0] != sep {
        forall part | part in Split(s, sep)
          ensures sep !in part
        {
          assert part == [s[0]] + rest[0] || part in rest[1..];
        }
      }
    }
  }

  /** Upper-case ASCII letters become their lower-case ones, and no other character changes. */
  lemma LowerCases(i: nat, c: char)
    requires i < 26
    ensures LowerChar((65 + i) as char) == (97 + i) as char
    ensures c < 'A' || 'Z' < c ==> LowerChar(c) == c
  {
  }
}
