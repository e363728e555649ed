/** The middle of `migrate_env_to_toml`: parsed assignments are sorted into top-level fields, two sections and secrets. */
module EnvMigration {
  import opened Basics
  import opened TomlText
  import opened TomlConfig

  const PREFIX := "WHILLY_"

  /** The configuration fields, and how the text given for one becomes a value (None stands for a ValueError) */
  datatype Fields = Fields(names: set<string>, coerce: (string, string) -> Option<Value>)

  /** What is written, and which variables have to go to the secret store */
  datatype Sorted = Sorted(scalars: Dict, github: Dict, jira: Dict, secrets: seq<string>)

  const NOTHING := Sorted([], [], [], [])

  /** A variable of `_SECRET_ENV_VARS` */
  predicate Secret(key: string) {
    key == "GITHUB_TOKEN" || key == "WHILLY_GH_TOKEN" || key == "JIRA_API_TOKEN"
  }

  /** `d[key] = value`: a new key goes to the end. */
  function Set(d: Dict, key: string, value: Value): Dict {
    if d == [] then [(key, value)]
    else if d[0].0 == key then [(key, value)] + d[1..]
    else [d[0]] + Set(d[1..], key, value)
  }

  /** One assignment sorted in */
  function SortIn(f: Fields, s: Sorted, key: string, raw: string): Option<Sorted> {
    if Secret(key) && raw != "" then
      var s := s.(secrets := s.secrets + [key]);
      if key == "JIRA_API_TOKEN" then Some(s.(jira := Set(s.jira, "token", Text("keyring:whilly/jira"))))
      else Some(s.(github := Set(s.github, "token", Text("keyring:whilly/github"))))
    else if !(|PREFIX| <= |key| && key[..|PREFIX|] == PREFIX) then
      if key == "JIRA_SERVER_URL" && raw != "" then Some(s.(jira := Set(s.jira, "server_url", Text(raw))))
      else if key == "JIRA_USERNAME" && raw != "" then Some(s.(jira := Set(s.jira, "username", Text(raw))))
      else Some(s)
    else if key[|PREFIX|..] in f.names then
      var value :- f.coerce(key[|PREFIX|..], raw);
      Some(s.(scalars := Set(s.scalars, key[|PREFIX|..], value)))
    else Some(s)
  }

  function SortAll(f: Fields, parsed: seq<(string, string)>): Option<Sorted> {
    if parsed == [] then Some(NOTHING)
    else
      var s :- SortAll(f, parsed[..|parsed| - 1]);
      SortIn(f, s, parsed[|parsed| - 1].0, parsed[|parsed| - 1].1)
  }

  /** The loop over the parsed assignments */
  method SortAssignments(f: Fields, parsed: seq<(string, string)>) returns (r: Option<Sorted>)
    ensures r == SortAll(f, parsed)
  {
    hide SortIn;
    r := Some(NOTHING);
    var i := 0;
    while i < |parsed|
      invariant i <= |parsed| && r == SortAll(f, parsed[..i]) && r.Some?
    {
      var prefix := parsed[..i + 1];
      assert prefix[..i] == parsed[..i] && prefix[i] == parsed[i];
      r := SortIn(f, r.value, parsed[i].0, parsed[i].1);
      i := i + 1;
      if r.None? {
        Fails(f, parsed, i);
        return;
      }
    }
    assert parsed[..i] == parsed;
  }

  lemma {:induction false} Fails(f: Fields, parsed: seq<(string, string)>, i: nat)
    requires i <= |parsed| && SortAll(f, parsed[..i]) == None
    ensures SortAll(f, parsed) == None
  {
    hide SortIn;
    if i == |parsed| {
      assert parsed[..i] == parsed;
    } else {
      assert parsed[..|parsed| - 1][..i] == parsed[..i];
      Fails(f, parsed[..|parsed| - 1], i);
    }
  }

  // ----- Secrets stay out of the file -----

  /** The same variables with the same values, except that set secrets may have other values */
  predicate SameButSecrets(a: seq<(string, string)>, b: seq<(string, string)>) {
    && |a| == |b|
    && forall i :: 0 <= i < |a| ==>
         && a[i].0 == b[i].0
         && (a[i].1 == b[i].1 || (a[i].0 in {"GITHUB_TOKEN", "WHILLY_GH_TOKEN", "JIRA_API_TOKEN"} && a[i].1 != "" && b[i].1 != ""))
  }

  /** The values of set secrets do not show: neither in what is written nor in what is reported. */
  lemma {:induction false} SecretsDoNotShow(f: Fields, a: seq<(string, string)>, b: seq<(string, string)>)
    requires SameButSecrets(a, b)
    ensures SortAll(f, a) == SortAll(f, b)
  {
    if a != [] {
      SecretsDoNotShow(f, a[..|a| - 1], b[..|b| - 1]);
    }
  }

  // ----- Where each variable goes -----

  lemma {:induction false} AtSet(d: Dict, key: string, value: Value, k: string)
    requires k in Keys(Set(d, key, value)) && (k != key ==> k in Keys(d))
    ensures At(Set(d, key, value), k) == if k == key then value else At(d, k)
  {
    if d != [] && d[0].0 != key && d[0].0 != k {
      var e := Set(d, key, value);
      assert Keys(d) == [d[0].0] + Keys(d[1..]) && Keys(e) == [e[0].0] + Keys(e[1..]);
      AtSet(d[1..], key, value, k);
    }
  }

  /** Setting a key of a dictionary in insertion order is the update of the map. */
  lemma SetIsUpdate(d: Dict, key: string, value: Value)
    ensures ToMap(Set(d, key, value)) == ToMap(d)[key := value]
  {
    hide Keys, Set, At;
    SetKeys(d, key, value);
    forall k | k in Keys(Set(d, key, value)) { AtSet(d, key, value, k); }
  }

  /** One of the variables is there with a value that is not empty. */
  ghost predicate SomeSet(parsed: seq<(string, string)>, keys: set<string>) {
    exists v :: v in parsed && v.0 in keys && v.1 != ""
  }

  /** The entry is there exactly if the variable is set, and has its value. */
  ghost predicate Copied(parsed: seq<(string, string)>, key: string, m: map<string, Value>, name: string) {
    && (name in m <==> SomeSet(parsed, {key}))
    && forall v :: v in parsed && v.0 == key && v.1 != "" ==> name in m && m[name] == Text(v.1)
  }

  /** The entry is there exactly if one of the token variables is set, and refers to the secret store. */
  ghost predicate Referred(parsed: seq<(string, string)>, keys: set<string>, m: map<string, Value>, reference: string) {
    && ("token" in m <==> SomeSet(parsed, keys))
    && ("token" in m ==> m["token"] == Text(reference))
  }

  /** The variable gives the top-level field. */
  ghost predicate IsField(f: Fields, v: (string, string), name: string) {
    v.0 == "WHILLY_" + name && name in f.names && !(v.0 == "WHILLY_GH_TOKEN" && v.1 != "")
  }

  ghost predicate FieldsAre(f: Fields, parsed: seq<(string, string)>, m: map<string, Value>) {
    && (forall name :: name in m <==> exists v :: v in parsed && IsField(f, v, name))
    && (forall v, name :: v in parsed && IsField(f, v, name) ==> name in m && f.coerce(name, v.1) == Some(m[name]))
  }

  ghost predicate IsSecret(v: (string, string)) {
    v.0 in {"GITHUB_TOKEN", "WHILLY_GH_TOKEN", "JIRA_API_TOKEN"} && v.1 != ""
  }

  /** The `jira` section holds the reference to the token, and the server and the user as they are given. */
  ghost predicate JiraIs(parsed: seq<(string, string)>, jira: map<string, Value>) {
    && jira.Keys <= {"token", "server_url", "username"}
    && Referred(parsed, {"JIRA_API_TOKEN"}, jira, "keyring:whilly/jira")
    && Copied(parsed, "JIRA_SERVER_URL", jira, "server_url") && Copied(parsed, "JIRA_USERNAME", jira, "username")
  }

  /** Where the variables of a file have gone */
  ghost predicate Placed(f: Fields, parsed: seq<(string, string)>, s: Sorted) {
    var github, jira := ToMap(s.github), ToMap(s.jira);
    && FieldsAre(f, parsed, ToMap(s.scalars))
    && github.Keys <= {"token"} && Referred(parsed, {"GITHUB_TOKEN", "WHILLY_GH_TOKEN"}, github, "keyring:whilly/github")
    && JiraIs(parsed, jira)
    && forall key :: key in s.secrets <==> exists v :: v in parsed && v.0 == key && IsSecret(v)
  }

  ghost predicate DistinctVariables(parsed: seq<(string, string)>) {
    forall i, j :: 0 <= i < j < |parsed| ==> parsed[i].0 != parsed[j].0
  }

  lemma OneMoreSet(parsed: seq<(string, string)>, v: (string, string), keys: set<string>)
    ensures SomeSet(parsed + [v], keys) <==> SomeSet(parsed, keys) || (v.0 in keys && v.1 != "")
  {
    if u :| u in parsed && u.0 in keys && u.1 != "" {
      assert u in parsed + [v];
    }
    if v.0 in keys && v.1 != "" {
      assert v in parsed + [v];
    }
  }

  lemma CopiedStep(parsed: seq<(string, string)>, v: (string, string), key: string, m: map<string, Value>, name: string)
    requires Copied(parsed, key, m, name) && forall u :: u in parsed ==> u.0 != v.0
    ensures v.0 == key && v.1 != "" ==> Copied(parsed + [v], key, m[name := Text(v.1)], name)
    ensures !(v.0 == key && v.1 != "") ==> Copied(parsed + [v], key, m, name)
  {
    OneMoreSet(parsed, v, {key});
    hide SomeSet;
  }

  lemma ReferredStep(parsed: seq<(string, string)>, v: (string, string), keys: set<string>, m: map<string, Value>, ref: string)
    requires Referred(parsed, keys, m, ref)
    ensures v.0 in keys && v.1 != "" ==> Referred(parsed + [v], keys, m["token" := Text(ref)], ref)
    ensures !(v.0 in keys && v.1 != "") ==> Referred(parsed + [v], keys, m, ref)
  {
    OneMoreSet(parsed, v, keys);
    hide SomeSet;
  }

  lemma FieldsStep(f: Fields, parsed: seq<(string, string)>, v: (string, string), m: map<string, Value>, name: string, x: Value)
    requires FieldsAre(f, parsed, m) && forall u :: u in parsed ==> u.0 != v.0
    ensures IsField(f, v, name) && f.coerce(name, v.1) == Some(x) ==> FieldsAre(f, parsed + [v], m[name := x])
    ensures (forall n :: !IsField(f, v, n)) ==> FieldsAre(f, parsed + [v], m)
  {
    hide IsField;
    forall n, u | u in parsed && IsField(f, u, n)
      ensures !IsField(f, v, n)
    {
      if IsField(f, v, n) {
        OneName(f, u, v, n);
      }
    }
    if IsField(f, v, name) {
      forall n | IsField(f, v, n)
        ensures n == name
      {
        SameName(f, v, n, name);
      }
      assert v in parsed + [v];
    }
  }

  lemma OneName(f: Fields, u: (string, string), v: (string, string), name: string)
    requires IsField(f, u, name) && IsField(f, v, name)
    ensures u.0 == v.0
  {
  }

  lemma SameName(f: Fields, v: (string, string), a: string, b: string)
    requires IsField(f, v, a) && IsField(f, v, b)
    ensures a == b
  {
    assert v.0[7..] == a && v.0[7..] == b;
  }

  lemma SecretsStep(parsed: seq<(string, string)>, v: (string, string), secrets: seq<string>)
    requires forall key :: key in secrets <==> exists u :: u in parsed && u.0 == key && IsSecret(u)
    ensures var after := if IsSecret(v) then secrets + [v.0] else secrets;
            forall key :: key in after <==> exists u :: u in parsed + [v] && u.0 == key && IsSecret(u)
  {
    hide IsSecret;
    var after := if IsSecret(v) then secrets + [v.0] else secrets;
    forall key
      ensures key in after <==> exists u :: u in parsed + [v] && u.0 == key && IsSecret(u)
    {
      if u :| u in parsed && u.0 == key && IsSecret(u) {
        assert u in parsed + [v];
      }
      if IsSecret(v) && v.0 == key {
        assert v in parsed + [v];
      }
    }
  }

  /** What one variable changes: the sections, the fields and the secrets, each as a map */
  lemma SortInChanges(f: Fields, s: Sorted, v: (string, string))
    ensures SortIn(f, s, v.0, v.1) == None <==> exists name: string :: IsField(f, v, name) && f.coerce(name, v.1) == None
    ensures SortIn(f, s, v.0, v.1).Some? ==>
              var t := SortIn(f, s, v.0, v.1).value;
              && ToMap(t.github) ==
                 (if v.0 in {"GITHUB_TOKEN", "WHILLY_GH_TOKEN"} && v.1 != ""
                  then ToMap(s.github)["token" := Text("keyring:whilly/github")] else ToMap(s.github))
              && ToMap(t.jira) ==
                 (if v.1 == "" then ToMap(s.jira)
                  else if v.0 == "JIRA_API_TOKEN" then ToMap(s.jira)["token" := Text("keyring:whilly/jira")]
                  else if v.0 == "JIRA_SERVER_URL" then ToMap(s.jira)["server_url" := Text(v.1)]
                  else if v.0 == "JIRA_USERNAME" then ToMap(s.jira)["username" := Text(v.1)]
                  else ToMap(s.jira))
              && t.secrets == (if IsSecret(v) then s.secrets + [v.0] else s.secrets)
              && (forall name: string | IsField(f, v, name) ::
                    f.coerce(name, v.1).Some? && ToMap(t.scalars) == ToMap(s.scalars)[name := f.coerce(name, v.1).value])
              && ((forall name: string :: !IsField(f, v, name)) ==> t.scalars == s.scalars)
  {
    hide Set, ToMap;
    NotPrefixed();
    PrefixIs(v.0);
    SetIsUpdate(s.github, "token", Text("keyring:whilly/github"));
    SetIsUpdate(s.jira, "token", Text("keyring:whilly/jira"));
    SetIsUpdate(s.jira, "server_url", Text(v.1));
    SetIsUpdate(s.jira, "username", Text(v.1));
    if HasPrefix(v.0) {
      var name := v.0[|PREFIX|..];
      assert v.0 == "WHILLY_" + name;
      assert forall n: string | IsField(f, v, n) :: n == name;
      if f.coerce(name, v.1).Some? {
        SetIsUpdate(s.scalars, name, f.coerce(name, v.1).value);
      }
    }
  }

  predicate HasPrefix(key: string) {
    |PREFIX| <= |key| && key[..|PREFIX|] == PREFIX
  }

  lemma PrefixIs(key: string)
    ensures HasPrefix(key) ==> key == "WHILLY_" + key[|PREFIX|..]
    ensures forall name: string :: key == "WHILLY_" + name ==> HasPrefix(key) && key[|PREFIX|..] == name
  {
  }

  lemma NotPrefixed()
    ensures !HasPrefix("GITHUB_TOKEN") && !HasPrefix("JIRA_API_TOKEN") && !HasPrefix("JIRA_SERVER_URL") && !HasPrefix("JIRA_USERNAME")
  {
    assert "GITHUB_TOKEN"[0] == 'G' && "JIRA_API_TOKEN"[0] == 'J' && "JIRA_SERVER_URL"[0] == 'J' && "JIRA_USERNAME"[0] == 'J';
  }

  lemma SameEntry(parsed: seq<(string, string)>, m: map<string, Value>, other: string, x: Value)
    ensures other != "server_url" && Copied(parsed, "JIRA_SERVER_URL", m, "server_url") ==>
              Copied(parsed, "JIRA_SERVER_URL", m[other := x], "server_url")
    ensures other != "username" && Copied(parsed, "JIRA_USERNAME", m, "username") ==>
              Copied(parsed, "JIRA_USERNAME", m[other := x], "username")
    ensures other != "token" && Referred(parsed, {"JIRA_API_TOKEN"}, m, "keyring:whilly/jira") ==>
              Referred(parsed, {"JIRA_API_TOKEN"}, m[other := x], "keyring:whilly/jira")
  {
    hide SomeSet;
  }

  lemma JiraStep(parsed: seq<(string, string)>, v: (string, string), m: map<string, Value>)
    requires JiraIs(parsed, m) && forall u :: u in parsed ==> u.0 != v.0
    ensures JiraIs(parsed + [v],
                   if v.1 == "" then m
                   else if v.0 == "JIRA_API_TOKEN" then m["token" := Text("keyring:whilly/jira")]
                   else if v.0 == "JIRA_SERVER_URL" then m["server_url" := Text(v.1)]
                   else if v.0 == "JIRA_USERNAME" then m["username" := Text(v.1)]
                   else m)
  {
    ReferredStep(parsed, v, {"JIRA_API_TOKEN"}, m, "keyring:whilly/jira");
    CopiedStep(parsed, v, "JIRA_SERVER_URL", m, "server_url");
    CopiedStep(parsed, v, "JIRA_USERNAME", m, "username");
    SameEntry(parsed + [v], m, "token", Text("keyring:whilly/jira"));
    SameEntry(parsed + [v], m, "server_url", Text(v.1));
    SameEntry(parsed + [v], m, "username", Text(v.1));
    hide Referred, Copied;
  }

  lemma PlacedStep(f: Fields, parsed: seq<(string, string)>, v: (string, string), s: Sorted)
    requires Placed(f, parsed, s) && (forall u :: u in parsed ==> u.0 != v.0) && SortIn(f, s, v.0, v.1).Some?
    ensures Placed(f, parsed + [v], SortIn(f, s, v.0, v.1).value)
  {
    hide SortIn, ToMap, Referred, Copied, JiraIs, IsField, FieldsAre, IsSecret;
    SortInChanges(f, s, v);
    ReferredStep(parsed, v, {"GITHUB_TOKEN", "WHILLY_GH_TOKEN"}, ToMap(s.github), "keyring:whilly/github");
    JiraStep(parsed, v, ToMap(s.jira));
    SecretsStep(parsed, v, s.secrets);
    FieldsPlaced(f, parsed, v, s);
  }

  lemma FieldsPlaced(f: Fields, parsed: seq<(string, string)>, v: (string, string), s: Sorted)
    requires FieldsAre(f, parsed, ToMap(s.scalars)) && (forall u :: u in parsed ==> u.0 != v.0) && SortIn(f, s, v.0, v.1).Some?
    ensures FieldsAre(f, parsed + [v], ToMap(SortIn(f, s, v.0, v.1).value.scalars))
  {
    hide SortIn, ToMap, IsField, FieldsAre;
    SortInChanges(f, s, v);
    if name: string :| IsField(f, v, name) {
      FieldsStep(f, parsed, v, ToMap(s.scalars), name, f.coerce(name, v.1).value);
    } else {
      FieldsStep(f, parsed, v, ToMap(s.scalars), "", Text(""));
    }
  }

  /** The migration stops at a value that its field does not take.  Otherwise every variable of the file, whose names are
      distinct, goes where it belongs: a set token to the secrets, with a reference to the secret store in its section,
      the server and the user to the `jira` section, a field's variable to the top level; and nothing else is there. */
  lemma {:induction false} EverythingIsPlaced(f: Fields, parsed: seq<(string, string)>)
    requires DistinctVariables(parsed)
    ensures SortAll(f, parsed) == None <==>
            exists v, name: string :: v in parsed && IsField(f, v, name) && f.coerce(name, v.1) == None
    ensures SortAll(f, parsed).Some? ==> Placed(f, parsed, SortAll(f, parsed).value)
  {
    hide SortIn, Placed, IsField;
    if parsed == [] {
      NothingPlaced(f);
    } else {
      var front, v := parsed[..|parsed| - 1], parsed[|parsed| - 1];
      assert parsed == front + [v];
      EverythingIsPlaced(f, front);
      if SortAll(f, front).Some? {
        var s := SortAll(f, front).value;
        SortInChanges(f, s, v);
        if SortIn(f, s, v.0, v.1).Some? {
          PlacedStep(f, front, v, s);
        }
      }
    }
  }

  lemma NothingPlaced(f: Fields)
    ensures Placed(f, [], NOTHING)
  {
    assert Keys([]) == [];
  }

  // ----- The written file can be read -----

  /** The field names are bare keys, and none is the name of a table. */
  ghost predicate GoodFields(f: Fields) {
    (forall k :: k in f.names ==> BareKey(k)) && "github" !in f.names && "jira" !in f.names
  }

  lemma {:induction false} SetKeys(d: Dict, key: string, value: Value)
    ensures forall k :: k in Keys(Set(d, key, value)) <==> k in Keys(d) || k == key
  {
    if d == [] {
      assert Keys([(key, value)]) == [key];
    } else {
      SetKeys(d[1..], key, value);
      assert Keys(d) == [d[0].0] + Keys(d[1..]);
      var e := Set(d, key, value);
      assert Keys(e) == [e[0].0] + Keys(e[1..]);
    }
  }

  lemma {:induction false} SetKeepsDistinct(d: Dict, key: string, value: Value)
    requires NoRepetition(Keys(d))
    ensures NoRepetition(Keys(Set(d, key, value)))
  {
    hide NoRepetition;
    var e := Set(d, key, value);
    assert Keys(e) == [e[0].0] + Keys(e[1..]);
    if d == [] {
      NoRepetitionCons(key, []);
      assert Keys(e[1..]) == [];
      OneKey();
    } else {
      assert Keys(d) == [d[0].0] + Keys(d[1..]);
      NoRepetitionCons(d[0].0, Keys(d[1..]));
      NoRepetitionCons(e[0].0, Keys(e[1..]));
      if d[0].0 != key {
        SetKeepsDistinct(d[1..], key, value);
        SetKeys(d[1..], key, value);
      }
    }
  }

  lemma OneKey()
    ensures NoRepetition<string>([])
  {
  }

  lemma SetKeepsGood(d: Dict, key: string, value: Value)
    requires GoodDict(d) && BareKey(key)
    ensures GoodDict(Set(d, key, value))
  {
    hide BareKey, Keys, Set;
    SetKeys(d, key, value);
    SetKeepsDistinct(d, key, value);
  }

  ghost predicate GoodSorted(s: Sorted) {
    GoodConfig(s.scalars, s.github, s.jira)
  }

  lemma SortInKeepsGood(f: Fields, s: Sorted, key: string, raw: string)
    requires GoodFields(f) && GoodSorted(s)
    ensures SortIn(f, s, key, raw).Some? ==> GoodSorted(SortIn(f, s, key, raw).value)
  {
    SectionKeys();
    hide BareKey, Keys, GoodDict, Set;
    SetKeepsGood(s.github, "token", Text("keyring:whilly/github"));
    SetKeepsGood(s.jira, "token", Text("keyring:whilly/jira"));
    SetKeepsGood(s.jira, "server_url", Text(raw));
    SetKeepsGood(s.jira, "username", Text(raw));
    if |PREFIX| <= |key| && key[|PREFIX|..] in f.names {
      var field := key[|PREFIX|..];
      var v := f.coerce(field, raw);
      if v.Some? {
        SetKeepsGood(s.scalars, field, v.value);
        SetKeys(s.scalars, field, v.value);
      }
    }
  }

  lemma SectionKeys()
    ensures BareKey("token") && BareKey("server_url") && BareKey("username")
  {
  }

  lemma {:induction false} SortedIsGood(f: Fields, parsed: seq<(string, string)>)
    requires GoodFields(f)
    ensures SortAll(f, parsed).Some? ==> GoodSorted(SortAll(f, parsed).value)
  {
    hide SortIn, GoodFields, GoodConfig;
    if parsed == [] {
      NothingIsGood();
    } else {
      var front, last := parsed[..|parsed| - 1], parsed[|parsed| - 1];
      SortedIsGood(f, front);
      if SortAll(f, front).Some? {
        SortInKeepsGood(f, SortAll(f, front).value, last.0, last.1);
      }
    }
  }

  lemma NothingIsGood()
    ensures GoodSorted(NOTHING)
  {
    assert Keys([]) == [];
  }

  /** The migrated file reads back as exactly the fields and sections that were sorted out, unless some value holds a
      control character other than tab; then it cannot be read at all. */
  lemma MigratedFileReadsBack(f: Fields, parsed: seq<(string, string)>)
    requires GoodFields(f) && SortAll(f, parsed).Some?
    ensures var s := SortAll(f, parsed).value;
            ParseToml(Render(s.scalars, s.github, s.jira)) ==
            if CleanDict(s.scalars) && CleanDict(s.github) && CleanDict(s.jira)
            then Some((ToMap(s.scalars), Tables(s.github, s.jira))) else None
  {
    hide SortAll, GoodFields, GoodConfig, CleanDict, ParseToml, Render, ToMap, Tables;
    SortedIsGood(f, parsed);
    var s := SortAll(f, parsed).value;
    if CleanDict(s.scalars) && CleanDict(s.github) && CleanDict(s.jira) {
      CleanRoundTrip(s.scalars, s.github, s.jira);
    } else {
      UncleanIsInvalid(s.scalars, s.github, s.jira);
    }
  }
}
