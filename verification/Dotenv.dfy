/** The two loops that read a `.env` file: the loader into the environment and the migration to TOML. */
module Dotenv {
  import opened Basics
  import opened Text

  datatype Pair = Pair(key: string, value: string)

  /** The index of the first `=`; |s| if there is none */
  function EqualsAt(s: string): (i: nat)
    ensures i <= |s|
    ensures i < |s| ==> s[i] == '='
  {
    if s == "" || s[0] == '=' then 0 else 1 + EqualsAt(s[1..])
  }

  /** One pair of matching quotes removed */
  function Unquoted(v: string): string {
    if |v| >= 2 && v[0] == v[|v| - 1] && (v[0] == '\'' || v[0] == '"') then v[1..|v| - 1] else v
  }

  /** The assignment on a line, if it has one */
  function Assignment(raw: string): Option<Pair> {
    var line := Strip(raw);
    if line == "" || line[0] == '#' then None
    else
      var body := if "export " <= line then LStrip(line[7..]) else line;
      var i := EqualsAt(body);
      if i == |body| then None
      else
        var key := Strip(body[..i]);
        if key == "" then None else Some(Pair(key, Unquoted(Strip(body[i + 1..]))))
  }

  /** The assignments of a file, in order */
  function Assignments(lines: seq<string>): seq<Pair> {
    if lines == [] then []
    else
      var a := Assignment(lines[|lines| - 1]);
      Assignments(lines[..|lines| - 1]) + if a.Some? then [a.value] else []
  }

  // ----- What an assignment is -----

  /** `r` is `v` without one pair of matching quotes around it; without such a pair it is `v`. */
  ghost predicate Unquotes(v: string, r: string) {
    || v == "'" + r + "'"
    || v == "\"" + r + "\""
    || (v == r && forall w: string :: v != "'" + w + "'" && v != "\"" + w + "\"")
  }

  /** The line is no comment; after an optional `export` it has a key, the first `=` and the value. */
  ghost predicate Assigns(raw: string, p: Pair) {
    var line := Strip(raw);
    && line != "" && line[0] != '#'
    && var body := if |line| >= 7 && line[..7] == "export " then LStrip(line[7..]) else line;
       HasKeyAndValue(body, p)
  }

  ghost predicate HasKeyAndValue(body: string, p: Pair) {
    exists i :: KeyAndValue(body, i, p)
  }

  ghost predicate KeyAndValue(body: string, i: int, p: Pair) {
    && 0 <= i < |body| && body[i] == '=' && '=' !in body[..i]
    && p.key == Strip(body[..i]) && p.key != "" && Unquotes(Strip(body[i + 1..]), p.value)
  }

  lemma {:induction false} EqualsIsFirst(s: string)
    ensures '=' !in s[..EqualsAt(s)]
    ensures EqualsAt(s) == |s| ==> '=' !in s
  {
    if s != "" && s[0] != '=' {
      EqualsIsFirst(s[1..]);
      var k := EqualsAt(s[1..]);
      assert s[..1 + k] == [s[0]] + s[1..][..k] && s == [s[0]] + s[1..];
    }
  }

  lemma {:induction false} FirstEquals(s: string, i: nat)
    requires i < |s| && s[i] == '=' && '=' !in s[..i]
    ensures EqualsAt(s) == i
  {
    if i > 0 {
      assert s[..i][0] == s[0] && s[..i] == [s[0]] + s[1..][..i - 1];
      FirstEquals(s[1..], i - 1);
    }
  }

  lemma UnquotedIs(v: string, r: string)
    ensures Unquotes(v, r) <==> r == Unquoted(v)
  {
    forall w: string
      ensures v == "'" + w + "'" ==> Unquoted(v) == w
      ensures v == "\"" + w + "\"" ==> Unquoted(v) == w
    {
      assert ("'" + w + "'")[1..|w| + 1] == w && ("\"" + w + "\"")[1..|w| + 1] == w;
    }
    if Unquoted(v) != v {
      assert v == [v[0]] + Unquoted(v) + [v[0]];
    }
  }

  lemma KeyAndValueIs(body: string, p: Pair)
    ensures HasKeyAndValue(body, p) <==>
            && EqualsAt(body) < |body|
            && p.key == Strip(body[..EqualsAt(body)]) && p.key != "" && p.value == Unquoted(Strip(body[EqualsAt(body) + 1..]))
  {
    hide Strip, Unquotes, Unquoted, EqualsAt;
    var n := EqualsAt(body);
    EqualsIsFirst(body);
    forall i | 0 <= i < |body| && body[i] == '=' && '=' !in body[..i] { FirstEquals(body, i); }
    if n < |body| {
      UnquotedIs(Strip(body[n + 1..]), p.value);
      assert KeyAndValue(body, n, p) <==>
             p.key == Strip(body[..n]) && p.key != "" && p.value == Unquoted(Strip(body[n + 1..]));
    }
  }

  /** A line gives an assignment exactly if it has the form of one. */
  lemma AssignmentIs(raw: string, p: Pair)
    ensures Assignment(raw) == Some(p) <==> Assigns(raw, p)
  {
    hide Strip, LStrip, Unquoted, EqualsAt, HasKeyAndValue;
    var line := Strip(raw);
    assert "export " <= line <==> |line| >= 7 && line[..7] == "export ";
    var body := if |line| >= 7 && line[..7] == "export " then LStrip(line[7..]) else line;
    KeyAndValueIs(body, p);
  }

  /** The assignments of a file are those of its parts, in order. */
  lemma {:induction false} AssignmentsPartByPart(a: seq<string>, b: seq<string>, raw: string)
    ensures Assignments(a + b) == Assignments(a) + Assignments(b)
    ensures Assignments([raw]) == match Assignment(raw) { case Some(p) => [p] case None => [] }
  {
    hide Assignment;
    assert [raw][..0] == [];
    if b == [] {
      assert a + b == a;
    } else {
      var front, last := b[..|b| - 1], Assignment(b[|b| - 1]);
      AssignmentsPartByPart(a, front, raw);
      assert (a + b)[..|a + b| - 1] == a + front;
      Associate(Assignments(a), Assignments(front), if last.Some? then [last.value] else []);
    }
  }

  // ----- The loader -----

  /** The environment takes the assignment; text with a null character raises a ValueError. */
  predicate Settable(p: Pair) {
    '\0' !in p.key && '\0' !in p.value
  }

  /** The environment after the assignments, how many took effect, and whether one raised */
  datatype Load = Load(env: map<string, string>, count: nat, failed: bool)

  function LoadOne(r: Load, p: Pair, override: bool): Load {
    if r.failed || (!override && p.key in r.env) then r
    else if !Settable(p) then r.(failed := true)
    else Load(r.env[p.key := p.value], r.count + 1, false)
  }

  function Loaded(env: map<string, string>, pairs: seq<Pair>, override: bool): Load {
    if pairs == [] then Load(env, 0, false)
    else LoadOne(Loaded(env, pairs[..|pairs| - 1], override), pairs[|pairs| - 1], override)
  }

  /** `load_dotenv` on a file with the given lines, or on a missing file */
  method LoadDotenv(file: Option<seq<string>>, environ: map<string, string>, override: bool)
    returns (env: map<string, string>, count: nat, failed: bool)
    ensures file.None? ==> env == environ && count == 0 && !failed
    ensures file.Some? ==> Load(env, count, failed) == Loaded(environ, Assignments(file.value), override)
  {
    hide Strip, LStrip, EqualsAt, Unquoted, Loaded, Assignments, Settable;
    env, count, failed := environ, 0, false;
    NothingRead(environ, override);
    if file.None? {
      return;
    }
    var lines, i := file.value, 0;
    assert lines[..0] == [];
    while i < |lines|
      invariant i <= |lines| && !failed
      invariant Load(env, count, failed) == Loaded(environ, Assignments(lines[..i]), override)
    {
      var raw := lines[i];
      assert lines[..i + 1][..i] == lines[..i];
      AssignmentsStep(environ, lines[..i], raw, override);
      assert lines[..i + 1] == lines[..i] + [raw];
      i := i + 1;
      var line := Strip(raw);
      if line == "" || line[0] == '#' {
        continue;
      }
      if "export " <= line {
        line := LStrip(line[7..]);
      }
      var k := EqualsAt(line);
      if k == |line| {
        continue;
      }
      var key, value := Strip(line[..k]), Strip(line[k + 1..]);
      value := Unquoted(value);
      if key == "" {
        continue;
      }
      if !override && key in env {
        continue;
      }
      if !Settable(Pair(key, value)) {
        failed := true;
        FailureStays(environ, lines, i, override);
        return;
      }
      env := env[key := value];
      count := count + 1;
    }
    assert lines[..i] == lines;
  }

  lemma NothingRead(env: map<string, string>, override: bool)
    ensures Loaded(env, Assignments([]), override) == Load(env, 0, false) && Parsed(Assignments([])) == map[]
  {
  }

  lemma AssignmentsStep(env: map<string, string>, lines: seq<string>, raw: string, override: bool)
    ensures Assignments(lines + [raw]) == Assignments(lines) + match Assignment(raw) { case Some(p) => [p] case None => [] }
    ensures Loaded(env, Assignments(lines + [raw]), override) ==
            match Assignment(raw)
            case None => Loaded(env, Assignments(lines), override)
            case Some(p) => LoadOne(Loaded(env, Assignments(lines), override), p, override)
    ensures Parsed(Assignments(lines + [raw])) ==
            match Assignment(raw)
            case None => Parsed(Assignments(lines))
            case Some(p) => Parsed(Assignments(lines))[p.key := p.value]
  {
    hide Assignment, LoadOne;
    assert (lines + [raw])[..|lines|] == lines;
    var pairs, a := Assignments(lines), Assignment(raw);
    if a.Some? {
      assert (pairs + [a.value])[..|pairs|] == pairs;
    } else {
      assert pairs + [] == pairs;
    }
  }

  /** Nothing happens after an assignment that raised. */
  lemma {:induction false} FailureStays(env: map<string, string>, lines: seq<string>, i: nat, override: bool)
    requires i <= |lines| && Loaded(env, Assignments(lines[..i]), override).failed
    ensures Loaded(env, Assignments(lines), override) == Loaded(env, Assignments(lines[..i]), override)
  {
    hide Assignments, Loaded, Assignment;
    if i == |lines| {
      assert lines[..i] == lines;
    } else {
      var front := lines[..|lines| - 1];
      assert front[..i] == lines[..i] && lines == front + [lines[|lines| - 1]];
      FailureStays(env, front, i, override);
      AssignmentsStep(env, front, lines[|lines| - 1], override);
    }
  }

  // ----- The migration -----

  function Parsed(pairs: seq<Pair>): map<string, string> {
    if pairs == [] then map[]
    else Parsed(pairs[..|pairs| - 1])[pairs[|pairs| - 1].key := pairs[|pairs| - 1].value]
  }

  /** The parse loop of `migrate_env_to_toml` */
  method ParseEnvFile(file: Option<seq<string>>) returns (parsed: map<string, string>)
    ensures parsed == if file.Some? then Parsed(Assignments(file.value)) else map[]
  {
    hide Strip, LStrip, EqualsAt, Unquoted, Parsed, Assignments;
    parsed := map[];
    NothingRead(map[], true);
    if file.None? {
      return;
    }
    var lines, i := file.value, 0;
    assert lines[..0] == [];
    while i < |lines|
      invariant i <= |lines| && parsed == Parsed(Assignments(lines[..i]))
    {
      var raw := lines[i];
      AssignmentsStep(map[], lines[..i], raw, true);
      assert lines[..i + 1] == lines[..i] + [raw];
      i := i + 1;
      var line := Strip(raw);
      if line == "" || line[0] == '#' {
        continue;
      }
      if "export " <= line {
        line := LStrip(line[7..]);
      }
      var k := EqualsAt(line);
      if k == |line| {
        continue;
      }
      var key, value := Strip(line[..k]), Strip(line[k + 1..]);
      value := Unquoted(value);
      if key != "" {
        parsed := parsed[key := value];
      }
    }
    assert lines[..i] == lines;
  }

  // ----- How the two compare -----

  function FirstValue(pairs: seq<Pair>, key: string): Option<string> {
    if pairs == [] then None
    else if pairs[0].key == key then Some(pairs[0].value)
    else FirstValue(pairs[1..], key)
  }

  function LastValue(pairs: seq<Pair>, key: string): Option<string> {
    if pairs == [] then None
    else if pairs[|pairs| - 1].key == key then Some(pairs[|pairs| - 1].value)
    else LastValue(pairs[..|pairs| - 1], key)
  }

  lemma {:induction false} FirstValueAppend(pairs: seq<Pair>, p: Pair, key: string)
    ensures FirstValue(pairs + [p], key) ==
            if FirstValue(pairs, key).Some? then FirstValue(pairs, key)
            else if p.key == key then Some(p.value) else None
  {
    if pairs != [] {
      FirstValueAppend(pairs[1..], p, key);
      assert (pairs + [p])[1..] == pairs[1..] + [p];
    }
  }

  /** The value of the first assignment of a key */
  lemma {:induction false} FirstValueIs(pairs: seq<Pair>, key: string, value: string)
    ensures FirstValue(pairs, key) == Some(value) <==>
            exists i :: 0 <= i < |pairs| && pairs[i] == Pair(key, value) && forall j :: 0 <= j < i ==> pairs[j].key != key
  {
    if pairs != [] && pairs[0].key != key {
      var rest := pairs[1..];
      FirstValueIs(rest, key, value);
      if i :| 0 <= i < |rest| && rest[i] == Pair(key, value) && forall j :: 0 <= j < i ==> rest[j].key != key {
        assert pairs[i + 1] == rest[i] && forall j :: 1 <= j < i + 1 ==> pairs[j] == rest[j - 1];
      }
      if i :| 0 <= i < |pairs| && pairs[i] == Pair(key, value) && forall j :: 0 <= j < i ==> pairs[j].key != key {
        assert rest[i - 1] == pairs[i] && forall j :: 0 <= j < i - 1 ==> rest[j] == pairs[j + 1];
      }
    }
  }

  /** The value of the last assignment of a key */
  lemma {:induction false} LastValueIs(pairs: seq<Pair>, key: string, value: string)
    ensures LastValue(pairs, key) == Some(value) <==> exists i :: LastAt(pairs, key, value, i)
  {
    hide LastAt;
    if pairs == [] {
      NoneAt(key, value);
    } else {
      var front := pairs[..|pairs| - 1];
      LastValueIs(front, key, value);
      LastAtStep(pairs, key, value, |front|);
      if i :| LastAt(front, key, value, i) {
        LastAtStep(pairs, key, value, i);
      }
      if i :| LastAt(pairs, key, value, i) {
        LastAtStep(pairs, key, value, i);
      }
    }
  }

  ghost predicate LastAt(pairs: seq<Pair>, key: string, value: string, i: int) {
    0 <= i < |pairs| && pairs[i] == Pair(key, value) && forall j :: i < j < |pairs| ==> pairs[j].key != key
  }

  lemma NoneAt(key: string, value: string)
    ensures forall i :: !LastAt([], key, value, i)
  {
  }

  lemma LastAtStep(pairs: seq<Pair>, key: string, value: string, i: int)
    requires pairs != []
    ensures var n := |pairs| - 1;
            LastAt(pairs, key, value, i) <==>
            if pairs[n].key == key then i == n && pairs[n].value == value else LastAt(pairs[..n], key, value, i)
  {
  }

  /** The migration keeps the last assignment of a key. */
  lemma {:induction false} MigrationKeepsLast(pairs: seq<Pair>, key: string)
    ensures Lookup(Parsed(pairs), key) == LastValue(pairs, key)
  {
    if pairs != [] {
      MigrationKeepsLast(pairs[..|pairs| - 1], key);
    }
  }

  lemma LoadedStep(env: map<string, string>, front: seq<Pair>, p: Pair, override: bool)
    ensures Loaded(env, front + [p], override) == LoadOne(Loaded(env, front, override), p, override)
  {
    hide LoadOne;
    assert (front + [p])[..|front|] == front;
  }

  /** Unless it raises, the loader keeps what the environment has, and else the first assignment of a key. */
  lemma {:induction false} LoaderKeepsFirst(env: map<string, string>, pairs: seq<Pair>, key: string)
    ensures !Loaded(env, pairs, false).failed ==>
              Lookup(Loaded(env, pairs, false).env, key) == if key in env then Some(env[key]) else FirstValue(pairs, key)
  {
    hide Settable;
    if pairs != [] {
      var front, p := pairs[..|pairs| - 1], pairs[|pairs| - 1];
      LoaderKeepsFirst(env, front, key);
      FirstValueAppend(front, p, key);
      assert pairs == front + [p];
    }
  }

  ghost predicate HasNull(p: Pair) {
    exists c :: c == '\0' && (c in p.key || c in p.value)
  }

  lemma SettableIs(p: Pair)
    ensures Settable(p) <==> !HasNull(p)
  {
  }

  /** `i` is the first assignment of a variable that is not set, and it cannot be carried out. */
  ghost predicate Raising(env: map<string, string>, pairs: seq<Pair>, i: nat) {
    && i < |pairs| && HasNull(pairs[i]) && pairs[i].key !in env
    && forall j :: 0 <= j < i ==> pairs[j].key != pairs[i].key
  }

  lemma {:induction false} FirstValueKey(pairs: seq<Pair>, key: string)
    ensures FirstValue(pairs, key).Some? <==> exists j :: 0 <= j < |pairs| && pairs[j].key == key
  {
    if pairs != [] && pairs[0].key != key {
      FirstValueKey(pairs[1..], key);
      if j :| 0 <= j < |pairs| && pairs[j].key == key {
        assert pairs[1..][j - 1].key == key;
      }
    }
  }

  /** When the loader raises: exactly if the first assignment of some unset variable holds a null character. */
  lemma {:induction false} LoaderRaisesIff(env: map<string, string>, pairs: seq<Pair>)
    ensures Loaded(env, pairs, false).failed <==> exists i: nat :: Raising(env, pairs, i)
  {
    forall p { SettableIs(p); }
    hide Settable, HasNull, FirstValue, Loaded;
    if pairs == [] {
      NothingRead(env, false);
      NothingLoaded(env, false);
    } else {
      var front, p := pairs[..|pairs| - 1], pairs[|pairs| - 1];
      assert pairs == front + [p];
      LoaderRaisesIff(env, front);
      LoadedStep(env, front, p, false);
      LoaderKeepsFirst(env, front, p.key);
      FirstValueKey(front, p.key);
      forall i: nat
        ensures Raising(env, front, i) ==> Raising(env, pairs, i)
        ensures Raising(env, pairs, i) && i < |front| ==> Raising(env, front, i)
      {
      }
      assert Raising(env, pairs, |front|) <==>
             HasNull(p) && p.key !in env && !exists j :: 0 <= j < |front| && front[j].key == p.key;
      if i: nat :| Raising(env, pairs, i) {
        assert i < |front| || i == |front|;
      }
    }
  }

  lemma NothingLoaded(env: map<string, string>, override: bool)
    ensures Loaded(env, [], override) == Load(env, 0, false)
  {
  }

  lemma AddedKey(old_: set<string>, new_: set<string>, key: string)
    requires old_ <= new_ && key !in new_
    ensures old_ <= new_ + {key} && |new_ + {key} - old_| == |new_ - old_| + 1
  {
    assert new_ + {key} - old_ == (new_ - old_) + {key};
  }

  lemma CountStep(env: map<string, string>, r: Load, p: Pair)
    requires env.Keys <= r.env.Keys && r.count == |r.env.Keys - env.Keys|
    ensures var r' := LoadOne(r, p, false); env.Keys <= r'.env.Keys && r'.count == |r'.env.Keys - env.Keys|
  {
    hide Settable;
    var r' := LoadOne(r, p, false);
    if r.failed || p.key in r.env || !Settable(p) {
      assert r'.env == r.env && r'.count == r.count;
    } else {
      assert r' == Load(r.env[p.key := p.value], r.count + 1, false);
      UpdatedKeys(r.env, p.key, p.value);
      AddedKey(env.Keys, r.env.Keys, p.key);
    }
  }

  lemma UpdatedKeys(m: map<string, string>, key: string, value: string)
    ensures m[key := value].Keys == m.Keys + {key}
  {
  }

  /** The count is the number of keys added. */
  lemma {:induction false} LoaderCount(env: map<string, string>, pairs: seq<Pair>)
    ensures env.Keys <= Loaded(env, pairs, false).env.Keys
    ensures Loaded(env, pairs, false).count == |Loaded(env, pairs, false).env.Keys - env.Keys|
  {
    hide LoadOne;
    if pairs == [] {
      assert env.Keys - env.Keys == {};
    } else {
      var front, p := pairs[..|pairs| - 1], pairs[|pairs| - 1];
      LoaderCount(env, front);
      CountStep(env, Loaded(env, front, false), p);
    }
  }

  lemma {:induction false} SameKeys(pairs: seq<Pair>, key: string)
    ensures FirstValue(pairs, key).Some? <==> LastValue(pairs, key).Some?
  {
    if pairs != [] {
      var front, p := pairs[..|pairs| - 1], pairs[|pairs| - 1];
      SameKeys(front, key);
      FirstValueAppend(front, p, key);
      assert pairs == front + [p];
    }
  }

  /** Where the loader raised, a variable that the file assigns stays unset. */
  lemma {:induction false} FailedKey(env: map<string, string>, pairs: seq<Pair>) returns (key: string)
    requires Loaded(env, pairs, false).failed
    ensures key !in env && key !in Loaded(env, pairs, false).env && FirstValue(pairs, key).Some?
  {
    hide Settable, FirstValue;
    var front, p := pairs[..|pairs| - 1], pairs[|pairs| - 1];
    assert pairs == front + [p];
    if Loaded(env, front, false).failed {
      key := FailedKey(env, front);
    } else {
      key := p.key;
      LoaderCount(env, front);
    }
    FirstValueAppend(front, p, key);
  }

  /** The loader adds to the environment exactly the map that the migration parses, if and only if it does not raise and
      every key that the environment lacks has the same value in its first and its last assignment. */
  lemma LoaderAgreesIff(env: map<string, string>, pairs: seq<Pair>)
    ensures Loaded(env, pairs, false).env == Parsed(pairs) + env <==>
            && (forall i: nat :: !Raising(env, pairs, i))
            && (forall key :: key !in env ==> FirstValue(pairs, key) == LastValue(pairs, key))
  {
    hide Loaded, Parsed, FirstValue, LastValue, Raising;
    LoaderRaisesIff(env, pairs);
    if Loaded(env, pairs, false).failed {
      var key := FailedKey(env, pairs);
      SameKeys(pairs, key);
      MigrationKeepsLast(pairs, key);
      assert key in Parsed(pairs) + env;
    } else {
      LoadedAgreesIff(env, pairs);
    }
  }

  lemma LoadedAgreesIff(env: map<string, string>, pairs: seq<Pair>)
    requires !Loaded(env, pairs, false).failed
    ensures Loaded(env, pairs, false).env == Parsed(pairs) + env <==>
            forall key :: key !in env ==> FirstValue(pairs, key) == LastValue(pairs, key)
  {
    hide Loaded, Parsed, FirstValue, LastValue;
    var e, m := Loaded(env, pairs, false).env, Parsed(pairs) + env;
    forall key
      ensures Lookup(e, key) == if key in env then Some(env[key]) else FirstValue(pairs, key)
      ensures Lookup(m, key) == if key in env then Some(env[key]) else LastValue(pairs, key)
    {
      LoaderKeepsFirst(env, pairs, key);
      MigrationKeepsLast(pairs, key);
    }
    if forall key :: key !in env ==> FirstValue(pairs, key) == LastValue(pairs, key) {
      forall key
        ensures key in e <==> key in m
        ensures key in e ==> e[key] == m[key]
      {
        assert Lookup(e, key) == Lookup(m, key);
      }
      assert e == m;
    }
    if e == m {
      forall key | key !in env
        ensures FirstValue(pairs, key) == LastValue(pairs, key)
      {
        assert Lookup(e, key) == Lookup(m, key);
      }
    }
  }

  predicate NoRepeatedKey(pairs: seq<Pair>) {
    forall i, j :: 0 <= i < j < |pairs| ==> pairs[i].key != pairs[j].key
  }

  lemma {:induction false} OnlyValue(pairs: seq<Pair>, key: string)
    requires NoRepeatedKey(pairs)
    ensures FirstValue(pairs, key) == LastValue(pairs, key)
  {
    if pairs != [] {
      var front, p := pairs[..|pairs| - 1], pairs[|pairs| - 1];
      OnlyValue(front, key);
      FirstValueAppend(front, p, key);
      assert pairs == front + [p];
      if p.key == key {
        NotAmong(front, key);
      }
    }
  }

  lemma {:induction false} NotAmong(pairs: seq<Pair>, key: string)
    requires forall i :: 0 <= i < |pairs| ==> pairs[i].key != key
    ensures FirstValue(pairs, key).None?
  {
    if pairs != [] {
      NotAmong(pairs[1..], key);
    }
  }

  /** Without repeated keys, an environment that has none of the keys gets exactly the migration's map, and the count
      is its size; the loader raises exactly if some assignment holds a null character. */
  lemma LoaderAgreesWithoutRepeats(env: map<string, string>, pairs: seq<Pair>)
    requires NoRepeatedKey(pairs) && forall i :: 0 <= i < |pairs| ==> pairs[i].key !in env
    ensures var r := Loaded(env, pairs, false);
            && (r.failed <==> exists i :: 0 <= i < |pairs| && HasNull(pairs[i]))
            && (!r.failed ==> r.env == env + Parsed(pairs) && r.count == |Parsed(pairs)|)
  {
    hide Loaded, Parsed, HasNull;
    LoaderRaisesIff(env, pairs);
    if i :| 0 <= i < |pairs| && HasNull(pairs[i]) {
      assert Raising(env, pairs, i);
    }
    hide NoRepeatedKey;
    forall key
      ensures FirstValue(pairs, key) == LastValue(pairs, key)
    {
      OnlyValue(pairs, key);
    }
    if Loaded(env, pairs, false).failed {
      return;
    }
    LoadedAgreesIff(env, pairs);
    LoaderCount(env, pairs);
    forall key | key in Parsed(pairs)
      ensures key !in env
    {
      MigrationKeepsLast(pairs, key);
      LastValueKey(pairs, key);
    }
    DisjointUnion(env, Parsed(pairs));
  }

  lemma DisjointUnion(env: map<string, string>, m: map<string, string>)
    requires forall key :: key in m ==> key !in env
    ensures m + env == env + m && (m + env).Keys - env.Keys == m.Keys && |m.Keys| == |m|
  {
    assert (m + env).Keys - env.Keys == m.Keys;
  }

  lemma {:induction false} LastValueKey(pairs: seq<Pair>, key: string)
    requires LastValue(pairs, key).Some?
    ensures exists i :: 0 <= i < |pairs| && pairs[i].key == key
  {
    if pairs[|pairs| - 1].key != key {
      LastValueKey(pairs[..|pairs| - 1], key);
      var i :| 0 <= i < |pairs| - 1 && pairs[..|pairs| - 1][i].key == key;
      assert pairs[i].key == key;
    }
  }

  /** With `override` the loader raises exactly if some assignment holds a null character. */
  lemma {:induction false} OverrideRaisesIff(env: map<string, string>, pairs: seq<Pair>)
    ensures Loaded(env, pairs, true).failed <==>
            exists i :: 0 <= i < |pairs| && HasNull(pairs[i])
  {
    forall p { SettableIs(p); }
    hide Settable, HasNull;
    if pairs != [] {
      var front, last := pairs[..|pairs| - 1], pairs[|pairs| - 1];
      OverrideRaisesIff(env, front);
      if i :| 0 <= i < |pairs| && HasNull(pairs[i]) {
        assert i < |front| ==> front[i] == pairs[i];
      }
      if i :| 0 <= i < |front| && HasNull(front[i]) {
        assert pairs[i] == front[i];
      }
    }
  }

  /** Unless it raises, with `override` the loader agrees with the migration. */
  lemma {:induction false} OverrideAgrees(env: map<string, string>, pairs: seq<Pair>)
    ensures var r := Loaded(env, pairs, true); !r.failed ==> r.env == env + Parsed(pairs) && r.count == |pairs|
  {
    hide LoadOne;
    if pairs != [] {
      var front, p := pairs[..|pairs| - 1], pairs[|pairs| - 1];
      OverrideAgrees(env, front);
      OverrideStep(Loaded(env, front, true), p);
    }
  }

  lemma OverrideStep(r: Load, p: Pair)
    ensures !LoadOne(r, p, true).failed ==>
              !r.failed && LoadOne(r, p, true).env == r.env[p.key := p.value] && LoadOne(r, p, true).count == r.count + 1
  {
  }
}
