/** `_render_toml` and the reading of whole documents. */
module TomlConfig {
  import opened Basics
  import opened StableSort
  import opened TomlText

  /** A dictionary in insertion order; its keys are distinct. */
  type Dict = seq<(string, Value)>

  function Keys(d: Dict): seq<string> {
    seq(|d|, i requires 0 <= i < |d| => d[i].0)
  }

  /** `d[key]` */
  function At(d: Dict, key: string): Value
    requires key in Keys(d)
  {
    if d[0].0 == key then d[0].1
    else
      assert Keys(d) == [d[0].0] + Keys(d[1..]);
      At(d[1..], key)
  }

  /** `sorted(d)` */
  function SortedKeys(d: Dict): (ks: seq<string>)
  {
    Sort(StringLe, Keys(d))
  }

  lemma StringLeOrder()
    ensures TotalPreorder(StringLe)
  {
    forall a, b
      ensures StringLe(a, b) || StringLe(b, a)
    {
      StringLeTotal(a, b);
    }
    forall a, b, c | StringLe(a, b) && StringLe(b, c)
      ensures StringLe(a, c)
    {
      StringLeTransitive(a, b, c);
    }
  }

  lemma SortedKeysMembers(d: Dict)
    ensures forall k :: k in SortedKeys(d) <==> k in Keys(d)
    ensures multiset(SortedKeys(d)) == multiset(Keys(d))
  {
    hide StringLe;
    StringLeOrder();
    SortIsSorted(StringLe, Keys(d));
    forall k
      ensures k in SortedKeys(d) <==> k in Keys(d)
    {
      assert k in SortedKeys(d) <==> k in multiset(SortedKeys(d));
      assert k in Keys(d) <==> k in multiset(Keys(d));
    }
  }

  // ----- Printing -----

  function ItemText(key: string, v: Value): string {
    key + " = " + Fmt(v)
  }

  function ItemLines(d: Dict, keys: seq<string>): seq<string>
    requires forall k :: k in keys ==> k in Keys(d)
  {
    if keys == [] then []
    else
      assert keys[0] in keys;
      [ItemText(keys[0], At(d, keys[0]))] + ItemLines(d, keys[1..])
  }

  /** The lines of one table, if it has items */
  function TableLines(name: string, d: Dict): seq<string> {
    SortedKeysMembers(d);
    if d == [] then [] else ["", "[" + name + "]"] + ItemLines(d, SortedKeys(d))
  }

  // The two comment lines are joined from short literals: that a text is free of control characters is proved literal by
  // literal, and the verifier does not look through long ones.
  const GENERATED_BY := "# Auto-generated by " + "`whilly --config" + " migrate`."

  const EDIT_FREELY := "# Edit freely; rerun" + " the migration " + "command to regenerate" + " from an updated .env."

  const HEADER := [GENERATED_BY, EDIT_FREELY, ""]

  function RenderLines(scalars: Dict, github: Dict, jira: Dict): seq<string> {
    SortedKeysMembers(scalars);
    HEADER + ItemLines(scalars, SortedKeys(scalars)) + TableLines("github", github) + TableLines("jira", jira)
  }

  /** `"\n".join(lines)` */
  function Join(lines: seq<string>): string {
    if lines == [] then "" else if |lines| == 1 then lines[0] else lines[0] + "\n" + Join(lines[1..])
  }

  function Render(scalars: Dict, github: Dict, jira: Dict): string {
    Join(RenderLines(scalars, github, jira)) + "\n"
  }

  method RenderToml(scalars: Dict, github: Dict, jira: Dict) returns (text: string)
    ensures text == Render(scalars, github, jira)
  {
    hide ItemLines, SortedKeys;
    var lines := HEADER;
    var items := Items(scalars);
    lines := lines + items;
    if github != [] {
      lines := lines + ["", "[github]"];
      items := Items(github);
      lines := lines + items;
    }
    if jira != [] {
      lines := lines + ["", "[jira]"];
      items := Items(jira);
      lines := lines + items;
    }
    assert "[" + "github" + "]" == "[github]" && "[" + "jira" + "]" == "[jira]";
    assert lines == RenderLines(scalars, github, jira);
    return Join(lines) + "\n";
  }

  /** The loop over the sorted keys of one dictionary */
  method Items(d: Dict) returns (lines: seq<string>)
    ensures (forall k :: k in SortedKeys(d) ==> k in Keys(d)) && lines == ItemLines(d, SortedKeys(d))
  {
    hide SortedKeys, Keys;
    SortedKeysMembers(d);
    lines := [];
    var keys, i := SortedKeys(d), 0;
    assert keys[0..] == keys;
    while i < |keys|
      invariant i <= |keys|
      invariant lines + ItemLines(d, keys[i..]) == ItemLines(d, keys)
    {
      assert keys[i..][1..] == keys[i + 1..];
      lines := lines + [ItemText(keys[i], At(d, keys[i]))];
      i := i + 1;
    }
  }

  // ----- Reading -----

  /** A document being read: its top-level keys, its tables, and the table that items go to */
  datatype Doc = Doc(top: map<string, Value>, tables: map<string, map<string, Value>>, current: Option<string>)

  /** One more line; a key or a table may be defined only once. */
  function Apply(doc: Doc, line: Line): Option<Doc> {
    match line
    case Blank => Some(doc)
    case Header(name) =>
      if name in doc.tables || name in doc.top then None
      else Some(Doc(doc.top, doc.tables[name := map[]], Some(name)))
    case Item(key, value) =>
      if doc.current.None? then
        if key in doc.top || key in doc.tables then None else Some(doc.(top := doc.top[key := value]))
      else
        var name := doc.current.value;
        if name !in doc.tables || key in doc.tables[name] then None
        else Some(doc.(tables := doc.tables[name := doc.tables[name][key := value]]))
  }

  /** The length of the first line, without its newline */
  function LineEnd(text: string): (n: nat)
    ensures n <= |text| && '\n' !in text[..n]
    ensures n < |text| ==> text[n] == '\n'
  {
    if text == "" || text[0] == '\n' then 0
    else
      var n := LineEnd(text[1..]);
      assert text[..n + 1] == [text[0]] + text[1..][..n];
      n + 1
  }

  function ReadText(text: string, doc: Doc): Option<Doc>
    decreases |text|
  {
    if text == "" then Some(doc)
    else
      var n := LineEnd(text);
      match ReadLine(text[..n])
      case None => None
      case Some(line) =>
        match Apply(doc, line)
        case None => None
        case Some(next) => ReadText(if n < |text| then text[n + 1..] else "", next)
  }

  const EMPTY := Doc(map[], map[], None)

  /** The top-level keys and the tables of a document; None if it is not valid */
  function ParseToml(text: string): Option<(map<string, Value>, map<string, map<string, Value>>)> {
    match ReadText(text, EMPTY)
    case None => None
    case Some(doc) => Some((doc.top, doc.tables))
  }

  // ----- One line -----

  predicate BareKey(k: string) {
    k != "" && forall i :: 0 <= i < |k| ==> BareKeyChar(k[i])
  }

  lemma {:induction false} WordThen(k: string, rest: string, p: char -> bool)
    requires (forall i :: 0 <= i < |k| ==> p(k[i])) && (rest == "" || !p(rest[0]))
    ensures WordLength(k + rest, p) == |k|
  {
    if k == "" {
      assert k + rest == rest;
    } else {
      WordThen(k[1..], rest, p);
      assert (k + rest)[1..] == k[1..] + rest;
    }
  }

  /** A line that starts with a bare key and ` = ` is read as an item if a value can be read from the rest. */
  lemma ReadKeyLine(k: string, f: string)
    requires BareKey(k) && f != "" && f[0] != ' ' && f[0] != '\t'
    ensures ReadLine(k + " = " + f) ==
            match ReadValue(f)
            case None => None
            case Some(v) => if Ends(v.rest) then Some(Item(k, v.value)) else None
  {
    hide ReadValue, Ends, WordLength, ReadHeader, ReadItem;
    var line := k + " = " + f;
    assert line[0] == k[0] && BareKeyChar(k[0]);
    assert SkipBlanks(line) == line;
    ReadKeyItem(k, f);
  }

  lemma ReadKeyItem(k: string, f: string)
    requires BareKey(k) && f != "" && f[0] != ' ' && f[0] != '\t'
    ensures ReadItem(k + " = " + f) ==
            match ReadValue(f)
            case None => None
            case Some(v) => if Ends(v.rest) then Some(Item(k, v.value)) else None
  {
    hide ReadValue, Ends, WordLength;
    var line, t := k + " = " + f, "= " + f;
    assert line == k + (" = " + f);
    WordThen(k, " = " + f, BareKeyChar);
    assert line[|k|..] == " = " + f && line[..|k|] == k;
    SkipOne(' ', t);
    assert " = " + f == " " + t;
    assert t[1..] == " " + f;
    SkipOne(' ', f);
  }

  lemma SkipOne(blank: char, s: string)
    requires blank == ' ' && s != "" && s[0] != ' ' && s[0] != '\t'
    ensures SkipBlanks([blank] + s) == s
  {
    assert ([blank] + s)[1..] == s;
  }

  lemma ReadItemText(k: string, v: Value)
    requires BareKey(k) && Printable(v)
    ensures ReadLine(ItemText(k, v)) == Some(Item(k, v))
    ensures '\n' !in ItemText(k, v)
  {
    hide ReadLine, ReadValue, Fmt;
    ReadPrinted(v);
    ReadKeyLine(k, Fmt(v));
    assert Ends("");
    assert forall i :: 0 <= i < |k| ==> k[i] != '\n';
  }

  lemma ReadTableHeader(name: string)
    requires BareKey(name)
    ensures ReadLine("[" + name + "]") == Some(Header(name))
    ensures '\n' !in "[" + name + "]"
  {
    var line := "[" + name + "]";
    assert line[1..] == name + "]";
    WordThen(name, "]", BareKeyChar);
    assert (name + "]")[|name| + 1..] == "" && (name + "]")[..|name|] == name;
    assert forall i :: 0 <= i < |name| ==> name[i] != '\n';
  }

  /** The part of a text before its first newline is all that its line shows. */
  lemma {:induction false} LineEndOf(line: string, rest: string)
    requires '\n' !in line
    ensures LineEnd(line + "\n" + rest) == |line|
  {
    if line == "" {
      assert line + "\n" + rest == "\n" + rest;
    } else {
      LineEndOf(line[1..], rest);
      assert (line + "\n" + rest)[1..] == line[1..] + "\n" + rest;
    }
  }

  /** Reading a whole line and going on */
  lemma ReadTextLine(line: string, rest: string, doc: Doc)
    requires '\n' !in line
    ensures ReadText(line + "\n" + rest, doc) ==
            match ReadLine(line)
            case None => None
            case Some(l) =>
              match Apply(doc, l)
              case None => None
              case Some(next) => ReadText(rest, next)
  {
    hide ReadLine, Apply;
    LineEndOf(line, rest);
    var text := line + "\n" + rest;
    assert text[..|line|] == line && text[|line| + 1..] == rest;
  }

  // ----- The lines of a printed document -----

  /** Every line followed by a newline */
  function Lines(lines: seq<string>): string {
    if lines == [] then "" else lines[0] + "\n" + Lines(lines[1..])
  }

  lemma {:induction false} JoinIsLines(lines: seq<string>)
    requires lines != []
    ensures Join(lines) + "\n" == Lines(lines)
  {
    if |lines| > 1 {
      JoinIsLines(lines[1..]);
      assert lines[0] + "\n" + Join(lines[1..]) + "\n" == lines[0] + "\n" + (Join(lines[1..]) + "\n");
    } else {
      assert Lines(lines[1..]) == "";
    }
  }

  lemma {:induction false} LinesOfConcat(a: seq<string>, b: seq<string>)
    ensures Lines(a + b) == Lines(a) + Lines(b)
  {
    if a == [] {
      assert a + b == b;
    } else {
      LinesOfConcat(a[1..], b);
      assert (a + b)[1..] == a[1..] + b;
      Associate(a[0] + "\n", Lines(a[1..]), Lines(b));
    }
  }

  lemma LinesOfCons(first: string, rest: seq<string>)
    ensures Lines([first] + rest) == first + "\n" + Lines(rest)
  {
    assert ([first] + rest)[1..] == rest;
  }

  /** The table that items go to */
  function CurrentTable(doc: Doc): map<string, Value>
    requires doc.current.Some? ==> doc.current.value in doc.tables
  {
    if doc.current.None? then doc.top else doc.tables[doc.current.value]
  }

  function WithTable(doc: Doc, m: map<string, Value>): Doc {
    if doc.current.None? then doc.(top := m) else doc.(tables := doc.tables[doc.current.value := m])
  }

  /** The entries of `d` for the given keys */
  function Entries(d: Dict, keys: seq<string>): map<string, Value>
    requires forall k :: k in keys ==> k in Keys(d)
  {
    map k | k in keys :: At(d, k)
  }

  predicate NewKeys(doc: Doc, keys: seq<string>) {
    && (doc.current.Some? ==> doc.current.value in doc.tables)
    && (forall k :: k in keys ==> k !in CurrentTable(doc) && (doc.current.None? ==> k !in doc.tables))
    && NoRepetition(keys)
  }

  ghost predicate GoodKeys(d: Dict, keys: seq<string>) {
    forall k :: k in keys ==> k in Keys(d) && BareKey(k)
  }

  /** Reading the printed items of clean values adds exactly them. */
  lemma {:induction false} ReadItems(d: Dict, keys: seq<string>, rest: string, doc: Doc)
    requires GoodKeys(d, keys) && NewKeys(doc, keys)
    requires forall k :: k in keys ==> Printable(At(d, k))
    ensures ReadText(Lines(ItemLines(d, keys)) + rest, doc) ==
            ReadText(rest, WithTable(doc, CurrentTable(doc) + Entries(d, keys)))
    decreases |keys|
  {
    hide ReadText, BareKey, Printable, At, ItemText, Keys;
    if keys == [] {
      assert Lines([]) + rest == rest;
      NoEntries(d, doc);
    } else {
      var k, ks := keys[0], keys[1..];
      assert keys == [k] + ks && k in keys;
      var text := Lines(ItemLines(d, ks)) + rest;
      LinesOfCons(ItemText(k, At(d, k)), ItemLines(d, ks));
      assert Lines(ItemLines(d, keys)) + rest == ItemText(k, At(d, k)) + "\n" + text;
      ReadItemText(k, At(d, k));
      ReadTextLine(ItemText(k, At(d, k)), text, doc);
      AddedKey(d, keys, doc);
      var next := WithTable(doc, CurrentTable(doc)[k := At(d, k)]);
      ReadItems(d, ks, rest, next);
    }
  }

  lemma NoEntries(d: Dict, doc: Doc)
    requires NewKeys(doc, [])
    ensures WithTable(doc, CurrentTable(doc) + Entries(d, [])) == doc
  {
    assert CurrentTable(doc) + Entries(d, []) == CurrentTable(doc);
    assert doc.current.Some? ==> doc.tables[doc.current.value := CurrentTable(doc)] == doc.tables;
  }

  lemma WithTableTwice(doc: Doc, m: map<string, Value>, n: map<string, Value>)
    requires doc.current.Some? ==> doc.current.value in doc.tables
    ensures WithTable(WithTable(doc, m), n) == WithTable(doc, n) && CurrentTable(WithTable(doc, m)) == m
  {
  }

  lemma ApplyNew(doc: Doc, k: string, v: Value)
    requires NewKeys(doc, [k])
    ensures Apply(doc, Item(k, v)) == Some(WithTable(doc, CurrentTable(doc)[k := v]))
  {
    assert k in [k];
  }

  lemma NewKeysRest(doc: Doc, k: string, ks: seq<string>, v: Value)
    requires NewKeys(doc, [k] + ks)
    ensures NewKeys(WithTable(doc, CurrentTable(doc)[k := v]), ks) && k !in ks
    ensures Apply(doc, Item(k, v)) == Some(WithTable(doc, CurrentTable(doc)[k := v]))
  {
    hide Apply, NoRepetition;
    assert k in [k] + ks && forall x :: x in ks ==> x in [k] + ks;
    NoRepetitionCons(k, ks);
    assert NewKeys(doc, [k]) by {
      SingleKey(k);
    }
    ApplyNew(doc, k, v);
  }

  lemma SingleKey(k: string)
    ensures NoRepetition([k])
  {
  }

  lemma EntriesOfCons(d: Dict, k: string, ks: seq<string>, m: map<string, Value>)
    requires k in Keys(d) && (forall x :: x in ks ==> x in Keys(d)) && k !in ks
    ensures forall x :: x in [k] + ks ==> x in Keys(d)
    ensures m[k := At(d, k)] + Entries(d, ks) == m + Entries(d, [k] + ks)
  {
    hide At, Keys;
  }

  lemma AddedKey(d: Dict, keys: seq<string>, doc: Doc)
    requires keys != [] && GoodKeys(d, keys) && NewKeys(doc, keys)
    ensures keys[0] in Keys(d)
    ensures var k, v := keys[0], At(d, keys[0]);
            var next := WithTable(doc, CurrentTable(doc)[k := v]);
            && Apply(doc, Item(k, v)) == Some(next)
            && GoodKeys(d, keys[1..]) && NewKeys(next, keys[1..])
            && WithTable(next, CurrentTable(next) + Entries(d, keys[1..])) ==
               WithTable(doc, CurrentTable(doc) + Entries(d, keys))
  {
    var k, ks := keys[0], keys[1..];
    assert keys == [k] + ks && k in keys;
    assert (forall x :: x in ks ==> x in keys) && (doc.current.Some? ==> doc.current.value in doc.tables);
    hide BareKey, At, Keys, Apply, NewKeys, Entries, CurrentTable, WithTable;
    var v := At(d, k);
    NewKeysRest(doc, k, ks, v);
    EntriesOfCons(d, k, ks, CurrentTable(doc));
    WithTableTwice(doc, CurrentTable(doc)[k := v], CurrentTable(doc) + Entries(d, keys));
  }

  // ----- Whole documents -----

  /** What the printer needs of a dictionary: distinct bare keys */
  ghost predicate GoodDict(d: Dict) {
    && (forall k :: k in Keys(d) ==> BareKey(k))
    && NoRepetition(Keys(d))
  }

  /** The values hold no forbidden character. */
  ghost predicate CleanDict(d: Dict) {
    forall k :: k in Keys(d) ==> Printable(At(d, k))
  }

  /** A dictionary as a map */
  function ToMap(d: Dict): map<string, Value> {
    Entries(d, Keys(d))
  }

  // ----- Dictionaries and the printed text, item by item -----

  /** The items come in the order of their keys. */
  lemma SortedKeysAre(d: Dict)
    ensures multiset(SortedKeys(d)) == multiset(Keys(d))
    ensures forall x, y | Before(SortedKeys(d), x, y) :: x <= y || exists n :: 0 <= n < |x| && n < |y| && x[..n] == y[..n] && x[n] < y[n]
  {
    hide StringLe, Keys;
    StringLeOrder();
    SortIsSorted(StringLe, Keys(d));
    forall x, y | Before(SortedKeys(d), x, y)
      ensures x <= y || exists n :: 0 <= n < |x| && n < |y| && x[..n] == y[..n] && x[n] < y[n]
    {
      StringLeIs(x, y);
    }
  }

  lemma TablesAre(github: Dict, jira: Dict)
    ensures Tables(github, jira).Keys == (if github != [] then {"github"} else {}) + (if jira != [] then {"jira"} else {})
    ensures github != [] ==> Tables(github, jira)["github"] == ToMap(github)
    ensures jira != [] ==> Tables(github, jira)["jira"] == ToMap(jira)
  {
    hide ToMap;
  }

  lemma {:induction false} AtIs(d: Dict, i: nat)
    requires i < |d| && NoRepetition(Keys(d))
    ensures d[i].0 in Keys(d) && At(d, d[i].0) == d[i].1
  {
    assert Keys(d)[i] == d[i].0;
    assert Keys(d)[0] == d[0].0;
    if i > 0 {
      assert Keys(d) == [d[0].0] + Keys(d[1..]);
      NoRepetitionCons(d[0].0, Keys(d[1..]));
      AtIs(d[1..], i - 1);
    }
  }

  lemma KeyHasIndex(d: Dict, k: string) returns (i: nat)
    requires k in Keys(d)
    ensures i < |d| && d[i].0 == k
  {
    i :| 0 <= i < |d| && Keys(d)[i] == k;
  }

  /** A dictionary with distinct keys as a map: its entries and no others. */
  lemma ToMapIs(d: Dict)
    requires NoRepetition(Keys(d))
    ensures forall i :: 0 <= i < |d| ==> d[i].0 in ToMap(d) && ToMap(d)[d[i].0] == d[i].1
    ensures forall k :: k in ToMap(d) ==> exists i :: 0 <= i < |d| && d[i].0 == k
  {
    hide At, Keys;
    forall i | 0 <= i < |d|
      ensures d[i].0 in ToMap(d) && ToMap(d)[d[i].0] == d[i].1
    {
      AtIs(d, i);
    }
    forall k | k in ToMap(d)
      ensures exists i :: 0 <= i < |d| && d[i].0 == k
    {
      var i := KeyHasIndex(d, k);
    }
  }

  /** When a dictionary is clean: no text in it has a control character other than tab. */
  lemma CleanDictIs(d: Dict)
    requires NoRepetition(Keys(d))
    ensures CleanDict(d) <==>
            forall i, c | 0 <= i < |d| && d[i].1.Text? && c in d[i].1.s :: c as int !in CONTROLS
  {
    forall c { ForbiddenIs(c); }
    forall i | 0 <= i < |d| { AtIs(d, i); }
    hide At, Keys, Forbidden, CONTROLS;
    if forall i, c | 0 <= i < |d| && d[i].1.Text? && c in d[i].1.s :: c as int !in CONTROLS {
      forall k | k in Keys(d)
        ensures Printable(At(d, k))
      {
        var i := KeyHasIndex(d, k);
      }
    }
    if CleanDict(d) {
      forall i, c | 0 <= i < |d| && d[i].1.Text? && c in d[i].1.s
        ensures c as int !in CONTROLS
      {
        assert Printable(At(d, d[i].0));
      }
    }
  }

  /** The items of a dictionary, each on its line, in the order of the keys */
  function ItemsText(d: Dict): string {
    SortedKeysMembers(d);
    Lines(ItemLines(d, SortedKeys(d)))
  }

  /** A table with items, after a blank line */
  function SectionOf(header: string, d: Dict): string {
    if d == [] then "" else "\n" + header + "\n" + ItemsText(d)
  }

  /** The printed text: two comment lines and a blank one, the top-level items, and the tables that have items. */
  lemma RenderIs(scalars: Dict, github: Dict, jira: Dict)
    ensures Render(scalars, github, jira) ==
            ("# Auto-generated by " + "`whilly --config" + " migrate`." + "\n"
             + ("# Edit freely; rerun" + " the migration " + "command to regenerate" + " from an updated .env." + "\n" + "\n"))
            + ItemsText(scalars) + SectionOf("[github]", github) + SectionOf("[jira]", jira)
  {
    hide Lines, ItemsText, GENERATED_BY, EDIT_FREELY, SectionOf, HEADER, Render;
    RenderIsParts(scalars, github, jira);
    ScalarsAre(scalars);
    HeaderIs();
    TableIs("github", "[github]", github);
    TableIs("jira", "[jira]", jira);
    FourParts(Lines(HEADER), ItemsText(scalars), SectionOf("[github]", github), SectionOf("[jira]", jira));
  }

  lemma ScalarsAre(d: Dict)
    ensures forall k :: k in SortedKeys(d) ==> k in Keys(d)
    ensures Lines(ItemLines(d, SortedKeys(d))) == ItemsText(d)
  {
    hide SortedKeys, Keys, ItemLines, Lines;
    SortedKeysMembers(d);
  }

  lemma TableIs(name: string, header: string, d: Dict)
    requires header == "[" + name + "]"
    ensures Lines(TableLines(name, d)) == SectionOf(header, d)
  {
    hide SortedKeys, Keys, ItemLines, Lines;
    LinesOfNone();
    if d != [] {
      SectionText(name, d, "");
      SortedKeysMembers(d);
      var items := Lines(ItemLines(d, SortedKeys(d)));
      assert items + "" == items && "" + "\n" + (header + "\n" + items) == "\n" + header + "\n" + items;
    }
  }

  lemma HeaderIs()
    ensures Lines(HEADER) ==
            "# Auto-generated by " + "`whilly --config" + " migrate`." + "\n"
            + ("# Edit freely; rerun" + " the migration " + "command to regenerate" + " from an updated .env." + "\n" + "\n")
  {
    var a, b := GENERATED_BY, EDIT_FREELY;
    assert a == "# Auto-generated by " + "`whilly --config" + " migrate`.";
    assert b == "# Edit freely; rerun" + " the migration " + "command to regenerate" + " from an updated .env.";
    hide Lines, GENERATED_BY, EDIT_FREELY;
    ThreeLines(HEADER, "");
    TwoEnds(Lines(HEADER), a, b);
  }

  lemma TwoEnds(text: string, a: string, b: string)
    requires text + "" == a + "\n" + (b + "\n" + ("" + "\n" + ""))
    ensures text == a + "\n" + (b + "\n" + "\n")
  {
    assert text + "" == text && "" + "\n" + "" == "\n";
    assert b + "\n" + "\n" == b + "\n" + ("" + "\n" + "");
  }

  /** The lines of the items: the i-th has the i-th key, ` = ` and its printed value. */
  lemma {:induction false} ItemLinesAre(d: Dict, keys: seq<string>, i: nat)
    requires (forall k :: k in keys ==> k in Keys(d)) && i < |keys|
    ensures |ItemLines(d, keys)| == |keys|
    ensures ItemLines(d, keys)[i] == keys[i] + " = " + Fmt(At(d, keys[i]))
  {
    hide At, Keys, Fmt;
    if |keys| > 1 {
      ItemLinesAre(d, keys[1..], if i > 0 then i - 1 else 0);
    } else {
      assert ItemLines(d, keys[1..]) == [];
    }
  }

  lemma SortedKeysDistinct(d: Dict)
    requires GoodDict(d)
    ensures GoodKeys(d, SortedKeys(d))
    ensures NoRepetition(SortedKeys(d))
    ensures (forall k :: k in SortedKeys(d) ==> k in Keys(d)) && Entries(d, SortedKeys(d)) == ToMap(d)
  {
    hide SortedKeys, BareKey, At;
    SortedKeysMembers(d);
    var ks, sorted := Keys(d), SortedKeys(d);
    forall i, j | 0 <= i < j < |sorted|
      ensures sorted[i] != sorted[j]
    {
      DistinctOnce(ks, sorted[j]);
      TakeOut(sorted, j);
      assert sorted[i] in sorted[..j] + sorted[j + 1..] by {
        assert sorted[..j][i] == sorted[i];
      }
      assert sorted[i] in multiset(sorted[..j] + sorted[j + 1..]);
    }
  }

  /** The document after a printed table */
  function WithSection(doc: Doc, name: string, d: Dict): Doc {
    if d == [] then doc else Doc(doc.top, doc.tables[name := ToMap(d)], Some(name))
  }

  lemma ReadSection(name: string, d: Dict, rest: string, doc: Doc)
    requires GoodDict(d) && CleanDict(d) && BareKey(name)
    requires d != [] ==> name !in doc.tables && name !in doc.top
    ensures ReadText(Lines(TableLines(name, d)) + rest, doc) == ReadText(rest, WithSection(doc, name, d))
  {
    hide ReadText, SortedKeys, At, Keys, BareKey, ItemLines, ToMap, Entries, GoodDict, CleanDict, Lines;
    if d == [] {
      assert Lines([]) == "" by { LinesOfNone(); }
      assert "" + rest == rest;
    } else {
      SortedKeysDistinct(d);
      CleanKeys(d);
      OpenSection(name, d, rest, doc);
      var next := Opened(doc, name);
      ReadItems(d, SortedKeys(d), rest, next);
      assert CurrentTable(next) + ToMap(d) == ToMap(d);
      assert next.tables[name := ToMap(d)] == doc.tables[name := ToMap(d)];
    }
  }

  /** The document after a table header */
  function Opened(doc: Doc, name: string): Doc {
    Doc(doc.top, doc.tables[name := map[]], Some(name))
  }

  lemma LinesOfNone()
    ensures Lines([]) == ""
  {
  }

  /** Reading the blank line and the header of a printed table */
  lemma OpenSection(name: string, d: Dict, rest: string, doc: Doc)
    requires d != [] && BareKey(name) && name !in doc.tables && name !in doc.top
    ensures forall k :: k in SortedKeys(d) ==> k in Keys(d)
    ensures ReadText(Lines(TableLines(name, d)) + rest, doc) ==
            ReadText(Lines(ItemLines(d, SortedKeys(d))) + rest, Opened(doc, name))
  {
    hide ReadText, SortedKeys, Keys, BareKey, ReadLine, ItemLines, TableLines, Lines;
    SortedKeysMembers(d);
    SectionText(name, d, rest);
    var items := Lines(ItemLines(d, SortedKeys(d))) + rest;
    BlankLine("[" + name + "]" + "\n" + items, doc);
    ReadTableHeader(name);
    ReadTextLine("[" + name + "]", items, doc);
  }

  lemma SectionText(name: string, d: Dict, rest: string)
    requires d != []
    ensures forall k :: k in SortedKeys(d) ==> k in Keys(d)
    ensures Lines(TableLines(name, d)) + rest ==
            "" + "\n" + ("[" + name + "]" + "\n" + (Lines(ItemLines(d, SortedKeys(d))) + rest))
  {
    hide SortedKeys, Keys, ItemLines;
    SortedKeysMembers(d);
    var items := ItemLines(d, SortedKeys(d));
    assert TableLines(name, d) == [""] + (["[" + name + "]"] + items);
    LinesOfCons("", ["[" + name + "]"] + items);
    LinesOfCons("[" + name + "]", items);
  }

  lemma BlankLine(rest: string, doc: Doc)
    ensures ReadText("" + "\n" + rest, doc) == ReadText(rest, doc)
  {
    hide ReadText;
    ReadTextLine("", rest, doc);
  }

  lemma CommentLine(line: string, rest: string, doc: Doc)
    requires line != "" && line[0] == '#' && Clean(line)
    ensures ReadText(line + "\n" + rest, doc) == ReadText(rest, doc)
  {
    hide ReadText;
    assert SkipBlanks(line) == line;
    ReadTextLine(line, rest, doc);
  }

  lemma CleanConcat(a: string, b: string)
    requires Clean(a) && Clean(b)
    ensures Clean(a + b)
  {
  }

  lemma CleanGeneratedBy()
    ensures Clean(GENERATED_BY) && GENERATED_BY != "" && GENERATED_BY[0] == '#'
  {
    CleanConcat("# Auto-generated by ", "`whilly --config");
    CleanConcat("# Auto-generated by " + "`whilly --config", " migrate`.");
  }

  lemma CleanEditFreely()
    ensures Clean(EDIT_FREELY) && EDIT_FREELY != "" && EDIT_FREELY[0] == '#'
  {
    var a, b, c, d := "# Edit freely; rerun", " the migration ", "command to regenerate", " from an updated .env.";
    CleanConcat(a, b);
    CleanConcat(a + b, c);
    CleanConcat(a + b + c, d);
  }

  lemma ReadHeaderLines(rest: string)
    ensures ReadText(Lines(HEADER) + rest, EMPTY) == ReadText(rest, EMPTY)
  {
    hide GENERATED_BY, EDIT_FREELY, ReadText, ReadLine, Clean, Lines;
    CleanGeneratedBy();
    CleanEditFreely();
    var a, b := GENERATED_BY, EDIT_FREELY;
    ThreeLines(HEADER, rest);
    CommentLine(a, b + "\n" + ("" + "\n" + rest), EMPTY);
    CommentLine(b, "" + "\n" + rest, EMPTY);
    BlankLine(rest, EMPTY);
  }

  lemma ThreeLines(ls: seq<string>, rest: string)
    requires |ls| == 3 && ls[2] == ""
    ensures Lines(ls) + rest == ls[0] + "\n" + (ls[1] + "\n" + ("" + "\n" + rest))
  {
    hide Lines;
    var a, b := ls[0], ls[1];
    assert ls == [a] + ([b] + ([""] + []));
    LinesOfCons(a, [b] + ([""] + []));
    LinesOfCons(b, [""] + []);
    LinesOfCons("", []);
    LinesOfNone();
  }

  /** The printed text, part by part */
  lemma RenderIsParts(scalars: Dict, github: Dict, jira: Dict)
    ensures forall k :: k in SortedKeys(scalars) ==> k in Keys(scalars)
    ensures Render(scalars, github, jira) ==
            Lines(HEADER) + (Lines(ItemLines(scalars, SortedKeys(scalars)))
                             + (Lines(TableLines("github", github)) + (Lines(TableLines("jira", jira)) + "")))
  {
    hide Lines, TableLines, ItemLines, SortedKeys, Keys;
    SortedKeysMembers(scalars);
    var items := ItemLines(scalars, SortedKeys(scalars));
    var g, j := TableLines("github", github), TableLines("jira", jira);
    JoinIsLines(RenderLines(scalars, github, jira));
    LinesOfConcat(HEADER + items + g, j);
    LinesOfConcat(HEADER + items, g);
    LinesOfConcat(HEADER, items);
    FourParts(Lines(HEADER), Lines(items), Lines(g), Lines(j));
  }

  lemma FourParts(a: string, b: string, c: string, d: string)
    ensures a + b + c + d == a + (b + (c + (d + "")))
  {
  }

  /** The two tables of a migrated configuration */
  function Tables(github: Dict, jira: Dict): map<string, map<string, Value>> {
    (if github == [] then map[] else map["github" := ToMap(github)])
    + (if jira == [] then map[] else map["jira" := ToMap(jira)])
  }

  ghost predicate GoodConfig(scalars: Dict, github: Dict, jira: Dict) {
    && GoodDict(scalars) && GoodDict(github) && GoodDict(jira)
    && "github" !in Keys(scalars) && "jira" !in Keys(scalars)
  }

  lemma TableNames()
    ensures BareKey("github") && BareKey("jira") && "github" != "jira"
  {
  }

  /** Reading the printed text goes through the header and the top-level items. */
  lemma ReadTop(scalars: Dict, github: Dict, jira: Dict)
    requires GoodDict(scalars) && CleanDict(scalars)
    ensures ReadText(Render(scalars, github, jira), EMPTY) ==
            ReadText(Lines(TableLines("github", github)) + (Lines(TableLines("jira", jira)) + ""),
                     Doc(ToMap(scalars), map[], None))
  {
    hide ReadText, SortedKeys, Keys, At, BareKey, ItemLines, TableLines, Lines, Render, ToMap, GoodDict, CleanDict,
         Entries, HEADER, Printable;
    SortedKeysDistinct(scalars);
    RenderIsParts(scalars, github, jira);
    CleanKeys(scalars);
    var rest := Lines(TableLines("github", github)) + (Lines(TableLines("jira", jira)) + "");
    ReadHeaderLines(Lines(ItemLines(scalars, SortedKeys(scalars))) + rest);
    ReadItems(scalars, SortedKeys(scalars), rest, EMPTY);
    assert map[] + ToMap(scalars) == ToMap(scalars);
  }

  /** Reading the printed text of clean dictionaries gives them back. */
  lemma CleanRoundTrip(scalars: Dict, github: Dict, jira: Dict)
    requires GoodConfig(scalars, github, jira)
    requires CleanDict(scalars) && CleanDict(github) && CleanDict(jira)
    ensures ParseToml(Render(scalars, github, jira)) == Some((ToMap(scalars), Tables(github, jira)))
  {
    hide ReadText, SortedKeys, Keys, At, BareKey, ItemLines, TableLines, Lines, Render, ToMap, GoodDict, CleanDict;
    TableNames();
    ReadTop(scalars, github, jira);
    MapKeys(scalars);
    var doc := Doc(ToMap(scalars), map[], None);
    var doc2 := WithSection(doc, "github", github);
    ReadSection("github", github, Lines(TableLines("jira", jira)) + "", doc);
    ReadSection("jira", jira, "", doc2);
    NothingLeft(WithSection(doc2, "jira", jira));
    FinalTables(ToMap(scalars), github, jira);
  }

  lemma FinalTables(top: map<string, Value>, github: Dict, jira: Dict)
    ensures var doc := WithSection(WithSection(Doc(top, map[], None), "github", github), "jira", jira);
            doc.top == top && doc.tables == Tables(github, jira)
  {
    hide ToMap;
    var doc := WithSection(Doc(top, map[], None), "github", github);
    assert doc.tables == if github == [] then map[] else map["github" := ToMap(github)];
    assert WithSection(doc, "jira", jira).tables == doc.tables + if jira == [] then map[] else map["jira" := ToMap(jira)];
  }

  // ----- Texts that cannot be read back -----

  lemma LineEndSkips(p: string, t: string)
    requires '\n' !in p
    ensures LineEnd(p + t) == |p| + LineEnd(t)
    decreases |p|
  {
    if p == "" {
      assert p + t == t;
    } else {
      LineEndSkips(p[1..], t);
      assert (p + t)[1..] == p[1..] + t;
    }
  }

  /** The first line of a text that starts with `p` and goes on with a forbidden character: after `p` it either stops or
      goes on with that character. */
  lemma FirstLineOf(p: string, t: string) returns (r: string)
    requires '\n' !in p && t != "" && Forbidden(t[0])
    ensures (p + t)[..LineEnd(p + t)] == p + r && (r == "" || Forbidden(r[0]))
  {
    LineEndSkips(p, t);
    r := t[..LineEnd(t)];
    assert (p + t)[..|p| + LineEnd(t)] == p + r;
  }

  lemma BadLine(text: string, doc: Doc)
    requires text != "" && ReadLine(text[..LineEnd(text)]) == None
    ensures ReadText(text, doc) == None
  {
    hide ReadLine;
  }

  /** A printed string whose text holds a forbidden character cannot be read, whatever follows it. */
  lemma UncleanValue(s: string, r: string)
    requires Clean(s) && (r == "" || Forbidden(r[0]))
    ensures ReadValue("\"" + (EscapeEach(s) + r)) == None
  {
    hide ReadString;
    ReadCut(s, r);
    assert ("\"" + (EscapeEach(s) + r))[1..] == EscapeEach(s) + r;
  }

  lemma UncleanText(s: string) returns (p: string, t: string)
    requires !Clean(s)
    ensures Clean(p) && t != "" && Forbidden(t[0])
    ensures Fmt(Text(s)) == "\"" + (EscapeEach(p) + t)
  {
    hide EscapeText, Forbidden, EscapeEach, Clean;
    var i := ForbiddenAt(s);
    var c, after := s[i], s[i + 1..];
    p, t := s[..i], [c] + (EscapeEach(after) + "\"");
    assert s == p + ([c] + after);
    EscapeIsPerChar(s);
    EscapeOfConcat(p, [c] + after);
    EscapeOfForbidden(c, after);
    QuotedAt(EscapeEach(p), c, EscapeEach(after));
  }

  lemma QuotedAt(before: string, c: char, after: string)
    ensures "\"" + (before + ([c] + after)) + "\"" == "\"" + (before + ([c] + (after + "\"")))
  {
  }

  lemma EscapeOfForbidden(c: char, s: string)
    requires Forbidden(c)
    ensures EscapeEach([c] + s) == [c] + EscapeEach(s)
  {
    assert ([c] + s)[1..] == s;
  }

  lemma UncleanItem(k: string, v: Value, rest: string, doc: Doc)
    requires BareKey(k) && !Printable(v)
    ensures ReadText(ItemText(k, v) + "\n" + rest, doc) == None
  {
    hide ReadText, ReadLine, BareKey, EscapeEach, Clean, Forbidden, Fmt, LineEnd, ReadValue;
    var p, t := UncleanText(v.s);
    var start, tail := k + " = " + ("\"" + EscapeEach(p)), t + "\n" + rest;
    EscapedChars(p);
    NoNewline(k);
    var text := ItemText(k, v) + "\n" + rest;
    assert text == start + tail;
    var r := FirstLineOf(start, tail);
    UncleanValue(p, r);
    var f := "\"" + (EscapeEach(p) + r);
    assert start + r == k + " = " + f;
    ReadKeyLine(k, f);
    BadLine(text, doc);
  }

  lemma NoNewline(k: string)
    requires BareKey(k)
    ensures '\n' !in k
  {
    assert forall i :: 0 <= i < |k| ==> k[i] != '\n';
  }

  /** Reading printed items of which one is not clean fails. */
  lemma {:induction false} UncleanItems(d: Dict, keys: seq<string>, rest: string, doc: Doc)
    requires GoodKeys(d, keys)
    requires exists k :: k in keys && !Printable(At(d, k))
    ensures ReadText(Lines(ItemLines(d, keys)) + rest, doc) == None
    decreases |keys|
  {
    hide ReadText, BareKey, Printable, At, ItemText, Keys, Apply;
    var k, ks := keys[0], keys[1..];
    assert keys == [k] + ks && k in keys;
    var text := Lines(ItemLines(d, ks)) + rest;
    LinesOfCons(ItemText(k, At(d, k)), ItemLines(d, ks));
    assert Lines(ItemLines(d, keys)) + rest == ItemText(k, At(d, k)) + "\n" + text;
    if Printable(At(d, k)) {
      ReadItemText(k, At(d, k));
      ReadTextLine(ItemText(k, At(d, k)), text, doc);
      var next := Apply(doc, Item(k, At(d, k)));
      if next.Some? {
        UncleanItems(d, ks, rest, next.value);
      }
    } else {
      UncleanItem(k, At(d, k), text, doc);
    }
  }

  lemma UncleanKeys(d: Dict)
    requires GoodDict(d) && !CleanDict(d)
    ensures GoodKeys(d, SortedKeys(d)) && d != []
    ensures exists k :: k in SortedKeys(d) && !Printable(At(d, k))
  {
    hide SortedKeys, At, Printable, BareKey;
    SortedKeysMembers(d);
    var k :| k in Keys(d) && !Printable(At(d, k));
    assert k in SortedKeys(d);
  }

  lemma UncleanTop(scalars: Dict, github: Dict, jira: Dict)
    requires GoodDict(scalars) && !CleanDict(scalars)
    ensures ReadText(Render(scalars, github, jira), EMPTY) == None
  {
    hide ReadText, SortedKeys, Keys, At, ItemLines, TableLines, Lines, Render, GoodDict, CleanDict, GoodKeys, Printable,
         HEADER;
    RenderIsParts(scalars, github, jira);
    UncleanKeys(scalars);
    var rest := Lines(TableLines("github", github)) + (Lines(TableLines("jira", jira)) + "");
    ReadHeaderLines(Lines(ItemLines(scalars, SortedKeys(scalars))) + rest);
    UncleanItems(scalars, SortedKeys(scalars), rest, EMPTY);
  }

  lemma UncleanSection(name: string, d: Dict, rest: string, doc: Doc)
    requires GoodDict(d) && !CleanDict(d) && BareKey(name) && name !in doc.tables && name !in doc.top
    ensures ReadText(Lines(TableLines(name, d)) + rest, doc) == None
  {
    hide ReadText, SortedKeys, Keys, At, ItemLines, TableLines, Lines, GoodDict, CleanDict, GoodKeys, Printable, BareKey;
    UncleanKeys(d);
    OpenSection(name, d, rest, doc);
    UncleanItems(d, SortedKeys(d), rest, Opened(doc, name));
  }

  /** A document in which some text holds a control character other than tab is not valid TOML. */
  lemma UncleanIsInvalid(scalars: Dict, github: Dict, jira: Dict)
    requires GoodConfig(scalars, github, jira)
    requires !CleanDict(scalars) || !CleanDict(github) || !CleanDict(jira)
    ensures ParseToml(Render(scalars, github, jira)) == None
  {
    hide ReadText, SortedKeys, Keys, At, BareKey, ItemLines, TableLines, Lines, Render, ToMap, GoodDict, CleanDict;
    TableNames();
    MapKeys(scalars);
    var j := Lines(TableLines("jira", jira)) + "";
    var doc := Doc(ToMap(scalars), map[], None);
    if !CleanDict(scalars) {
      UncleanTop(scalars, github, jira);
    } else {
      ReadTop(scalars, github, jira);
      if !CleanDict(github) {
        UncleanSection("github", github, j, doc);
      } else {
        ReadSection("github", github, j, doc);
        UncleanSection("jira", jira, "", WithSection(doc, "github", github));
      }
    }
  }

  /** Reading the printed text gives back the three dictionaries exactly when no text in them holds a control character
      other than tab. */
  lemma RenderRoundTripIff(scalars: Dict, github: Dict, jira: Dict)
    requires GoodConfig(scalars, github, jira)
    ensures ParseToml(Render(scalars, github, jira)) == Some((ToMap(scalars), Tables(github, jira))) <==>
            CleanDict(scalars) && CleanDict(github) && CleanDict(jira)
  {
    hide ParseToml, Render, ToMap, Tables, CleanDict, GoodConfig;
    if CleanDict(scalars) && CleanDict(github) && CleanDict(jira) {
      CleanRoundTrip(scalars, github, jira);
    } else {
      UncleanIsInvalid(scalars, github, jira);
    }
  }

  lemma CleanKeys(d: Dict)
    requires CleanDict(d)
    ensures forall k :: k in SortedKeys(d) ==> k in Keys(d) && Printable(At(d, k))
  {
    hide SortedKeys, Keys, At;
    SortedKeysMembers(d);
  }

  lemma MapKeys(d: Dict)
    ensures forall k :: k in ToMap(d) <==> k in Keys(d)
  {
    hide Keys, At;
  }

  lemma NothingLeft(doc: Doc)
    ensures ReadText("", doc) == Some(doc)
  {
  }
}
