/** Per-worker credentials: the OS keyring first, a JSON file as the fallback, and what a load can return after any
    run of stores. */
module CredentialStore {
  import opened Basics
  import opened Json
  import opened AtomicFile

  /** `url.rstrip("/")` */
  function CanonicalUrl(url: string): string {
    if url != "" && url[|url| - 1] == '/' then CanonicalUrl(url[..|url| - 1]) else url
  }

  /** Canonical urls are fixed, and a url and the same with slashes appended have one canonical form. */
  lemma {:induction false} CanonicalUrlMerges(url: string)
    ensures CanonicalUrl(url + "/") == CanonicalUrl(url)
    ensures CanonicalUrl(CanonicalUrl(url)) == CanonicalUrl(url)
  {
    assert (url + "/")[..|url|] == url;
    if url != "" && url[|url| - 1] == '/' {
      CanonicalUrlMerges(url[..|url| - 1]);
    }
  }

  /** The canonical form is the url without its trailing slashes. */
  lemma {:induction false} CanonicalUrlIs(url: string)
    ensures CanonicalUrl(url) <= url
    ensures forall i :: |CanonicalUrl(url)| <= i < |url| ==> url[i] == '/'
    ensures CanonicalUrl(url) != "" ==> CanonicalUrl(url)[|CanonicalUrl(url)| - 1] != '/'
  {
    if url != "" && url[|url| - 1] == '/' {
      CanonicalUrlIs(url[..|url| - 1]);
    }
  }

  /** The two urls are one text with different numbers of slashes at the end. */
  ghost predicate SlashesApart(a: string, b: string) {
    exists n: nat :: n <= |a| && SlashesAfter(a, b, n)
  }

  predicate SlashesAfter(a: string, b: string, n: nat)
    requires n <= |a|
  {
    && n <= |b| && a[..n] == b[..n]
    && (forall i :: n <= i < |a| ==> a[i] == '/') && (forall i :: n <= i < |b| ==> b[i] == '/')
  }

  /** Two urls share a stored entry if and only if they differ in trailing slashes only. */
  lemma SharedFormIff(a: string, b: string)
    ensures CanonicalUrl(a) == CanonicalUrl(b) <==> SlashesApart(a, b)
  {
    hide CanonicalUrl;
    CanonicalUrlIs(a);
    CanonicalUrlIs(b);
    var x, y := CanonicalUrl(a), CanonicalUrl(b);
    if x == y {
      assert SlashesAfter(a, b, |x|);
    }
    if n: nat :| n <= |a| && SlashesAfter(a, b, n) {
      ShorterForm(a, x, b, y, n);
      ShorterForm(b, y, a, x, n);
    }
  }

  lemma ShorterForm(a: string, x: string, b: string, y: string, n: nat)
    requires x <= a && y <= b && n <= |a| && n <= |b| && a[..n] == b[..n]
    requires forall i :: n <= i < |a| ==> a[i] == '/'
    requires forall i :: |y| <= i < |b| ==> b[i] == '/'
    requires x != "" ==> x[|x| - 1] != '/'
    ensures |x| <= |y| && (|x| == |y| ==> x == y)
  {
    if x != "" {
      assert a[|x| - 1] == x[|x| - 1];
      assert |x| <= n;
      assert b[|x| - 1] == b[..n][|x| - 1] == a[|x| - 1];
    }
    if |x| == |y| {
      assert x == a[..n][..|x|] && y == b[..n][..|y|];
    }
  }

  /** What the credentials file shows: its entries, or bytes that are not UTF-8 */
  datatype FileState = Entries(entries: map<string, string>) | Garbled

  /** Anything else that is not an object of strings reads as empty. */
  function Decode(files: map<string, Content>, path: string): FileState {
    if path in files && files[path].Undecodable? then Garbled
    else if path in files && files[path].Document? && files[path].json.Obj? then
      var m := files[path].json.fields;
      Entries(map k | k in m && m[k].Str? :: m[k].s)
    else Entries(map[])
  }

  function Encode(entries: map<string, string>): Json {
    Obj(map k | k in entries :: Str(entries[k]))
  }

  lemma DecodeEncoded(files: map<string, Content>, path: string, entries: map<string, string>)
    ensures Decode(files[path := Document(Encode(entries))], path) == Entries(entries)
  {
  }

  datatype Backend = Keyring | File | NotStored

  // ----- What the operations do, on values -----

  datatype Stores = Stores(keyring: map<string, string>, file: FileState)

  /** `_read_credentials_file`: an unreadable file reads as empty; None stands for the UnicodeDecodeError. */
  function ReadFile(s: Stores, readable: bool): Option<map<string, string>> {
    if !readable then Some(map[]) else if s.file.Garbled? then None else Some(s.file.entries)
  }

  /** A store call.  `put` is what becomes of the keyring write: if it raises, with or without having stored the entry,
      the file is tried.  `write` is what becomes of the file write.  NotStored stands for an exception or the end of the
      process. */
  function StoreIn(s: Stores, url: string, bearer: string, put: Outcome, readable: bool, write: Outcome): (Stores, Backend) {
    var key, entries := CanonicalUrl(url), ReadFile(s, readable);
    var s1 := if put.TookEffect() then s.(keyring := s.keyring[key := bearer]) else s;
    if put.Done? then (s1, Keyring)
    else if put.Killed? || entries.None? then (s1, NotStored)
    else
      var s2 := if write.TookEffect() then s1.(file := Entries(entries.value[key := bearer])) else s1;
      (s2, if write.Done? then File else NotStored)
  }

  datatype Answer = Answer(bearer: Option<string>) | DecodeError

  function LoadFrom(s: Stores, url: string, getWorks: bool, readable: bool): Answer {
    var key, entries := CanonicalUrl(url), ReadFile(s, readable);
    if getWorks && key in s.keyring && s.keyring[key] != "" then Answer(Some(s.keyring[key]))
    else if entries.None? then DecodeError
    else Answer(Lookup(entries.value, key))
  }

  // ----- The operations on the keyring and the disk -----

  /** What becomes of the file write, if these are the outcomes of its system calls */
  function FileWrite(call: Call -> Outcome): Outcome {
    if WriteTakesEffect(call) && call(Replace).Done? then Done else Raises(WriteTakesEffect(call))
  }

  lemma SameFile(a: map<string, Content>, b: map<string, Content>, path: string, tmp: string)
    requires b - {tmp} == a && tmp != path
    ensures Decode(b, path) == Decode(a, path)
  {
    assert path in b <==> path in b - {tmp};
    assert path in b ==> b[path] == (b - {tmp})[path];
  }

  lemma OtherFiles(a: map<string, Content>, b: map<string, Content>, path: string, tmp: string)
    requires tmp !in a
    requires b - {tmp} == a || (path in b && b - {tmp} == a[path := b[path]])
    ensures b - {tmp, path} == a - {tmp, path}
  {
    assert b - {tmp, path} == (b - {tmp}) - {path};
    assert a - {tmp, path} == a - {path};
    if path in b {
      assert a[path := b[path]] - {path} == a - {path};
    }
  }

  class Credentials {
    const path: string
    const disk: Disk
    var keyring: map<string, string>

    constructor (path: string, disk: Disk)
      ensures this.path == path && this.disk == disk && keyring == map[]
    {
      this.path := path;
      this.disk := disk;
      keyring := map[];
    }

    ghost function Contents(): Stores
      reads this, disk
    {
      Stores(keyring, Decode(disk.files, path))
    }

    /** `_read_credentials_file`; `readable` is false if opening or reading the file fails, and None is returned if
        decoding it fails. */
    function ReadCredentialsFile(readable: bool): Option<map<string, string>>
      reads this, disk
    {
      if !readable || path !in disk.files || disk.files[path].NotJson? then Some(map[])
      else if disk.files[path].Undecodable? then None
      else if !disk.files[path].json.Obj? then Some(map[])
      else
        var m := disk.files[path].json.fields;
        Some(map k | k in m && m[k].Str? :: m[k].s)
    }

    /** `store_worker_credential`; an error of the file fallback goes to the caller. */
    method Store(url: string, bearer: string, put: Outcome, readable: bool, tmp: string, call: Call -> Outcome)
      returns (b: Backend)
      requires tmp != path && tmp !in disk.files
      modifies this`keyring, disk
      ensures (Contents(), b) == StoreIn(old(Contents()), url, bearer, put, readable, FileWrite(call))
      ensures disk.files - {tmp, path} == old(disk.files) - {tmp, path}
    {
      var key := CanonicalUrl(url);
      if put.TookEffect() {
        keyring := keyring[key := bearer];
      }
      match put {
        case Done => return Keyring;
        case Killed(_) => return NotStored;
        case Raises(_) =>
      }
      var entries := ReadCredentialsFile(readable);
      if entries.None? {
        return NotStored;
      }
      var payload := entries.value[key := bearer];
      ghost var before := disk.files;
      var e := disk.WriteJson(path, tmp, Encode(payload), call);
      OtherFiles(before, disk.files, path, tmp);
      if WriteTakesEffect(call) {
        DecodeEncoded(before, path, payload);
        assert Decode(disk.files, path) == Entries(payload) by {
          SameFile(before[path := Document(Encode(payload))], disk.files, path, tmp);
        }
      } else {
        SameFile(before, disk.files, path, tmp);
      }
      return if e.Saved? then File else NotStored;
    }

    /** `load_worker_credential` */
    method Load(url: string, getWorks: bool, readable: bool) returns (r: Answer)
      ensures r == LoadFrom(Contents(), url, getWorks, readable)
    {
      var key := CanonicalUrl(url);
      if getWorks && key in keyring {
        var secret := keyring[key];
        if secret != "" {
          return Answer(Some(secret));
        }
      }
      var entries := ReadCredentialsFile(readable);
      if entries.None? {
        return DecodeError;
      }
      return Answer(Lookup(entries.value, key));
    }
  }

  // ----- Runs -----

  /** One store call: what was asked, and what became of the keyring write, the file and the file write */
  datatype StoreCall = StoreCall(url: string, bearer: string, put: Outcome, readable: bool, write: Outcome)
  {
    predicate ToKeyring() { put.TookEffect() }
    predicate ToFile() { put.Raises? && write.TookEffect() }
    predicate Stored() { ToKeyring() || ToFile() }
    function Key(): string { CanonicalUrl(url) }
  }

  /** The stores after a run of store calls from empty ones; loads change nothing. */
  function After(run: seq<StoreCall>): (s: Stores)
    ensures s.file.Entries?
  {
    if run == [] then Stores(map[], Entries(map[]))
    else
      var c := run[|run| - 1];
      StoreIn(After(run[..|run| - 1]), c.url, c.bearer, c.put, c.readable, c.write).0
  }

  /** The bearer of the last call that stored one in the keyring under the key */
  function LastInKeyring(run: seq<StoreCall>, key: string): Option<string> {
    if run == [] then None
    else
      var c := run[|run| - 1];
      if c.ToKeyring() && c.Key() == key then Some(c.bearer) else LastInKeyring(run[..|run| - 1], key)
  }

  /** The bearer of the last call that stored one in the file under the key, unless a later store found the file
      unreadable and so replaced it */
  function LastInFile(run: seq<StoreCall>, key: string): Option<string> {
    if run == [] then None
    else
      var c := run[|run| - 1];
      if c.ToFile() && c.Key() == key then Some(c.bearer)
      else if c.ToFile() && !c.readable then None
      else LastInFile(run[..|run| - 1], key)
  }

  /** Both tiers hold exactly what the run says. */
  lemma {:induction false} StoresAreHistory(run: seq<StoreCall>, key: string)
    ensures Lookup(After(run).keyring, key) == LastInKeyring(run, key)
    ensures Lookup(After(run).file.entries, key) == LastInFile(run, key)
  {
    hide CanonicalUrl;
    if run != [] {
      StoresAreHistory(run[..|run| - 1], key);
    }
  }

  ghost predicate StoredFor(run: seq<StoreCall>, key: string, bearer: string) {
    exists c :: c in run && c.Stored() && c.Key() == key && c.bearer == bearer
  }

  lemma {:induction false} HistoryIsStored(run: seq<StoreCall>, key: string)
    ensures LastInKeyring(run, key).Some? ==> StoredFor(run, key, LastInKeyring(run, key).value)
    ensures LastInFile(run, key).Some? ==> StoredFor(run, key, LastInFile(run, key).value)
  {
    hide CanonicalUrl;
    if run != [] {
      var front, last := run[..|run| - 1], run[|run| - 1];
      assert run == front + [last];
      HistoryIsStored(front, key);
      forall b | StoredFor(front, key, b)
        ensures StoredFor(run, key, b)
      {
        var c :| c in front && c.Stored() && c.Key() == key && c.bearer == b;
        assert c in run;
      }
    }
  }

  /** The last call that stored something under the key */
  function LastStored(run: seq<StoreCall>, key: string): Option<StoreCall> {
    if run == [] then None
    else
      var c := run[|run| - 1];
      if c.Stored() && c.Key() == key then Some(c) else LastStored(run[..|run| - 1], key)
  }

  /** No store after the last one under the key found the file unreadable. */
  predicate FileKept(run: seq<StoreCall>, key: string) {
    if run == [] then true
    else
      var c := run[|run| - 1];
      if c.Stored() && c.Key() == key then true
      else !(c.ToFile() && !c.readable) && FileKept(run[..|run| - 1], key)
  }

  lemma {:induction false} LastStoredTier(run: seq<StoreCall>, key: string)
    requires LastStored(run, key).Some?
    ensures var c := LastStored(run, key).value;
            && c in run && c.Stored() && c.Key() == key
            && (c.ToKeyring() ==> LastInKeyring(run, key) == Some(c.bearer))
            && (c.ToFile() && FileKept(run, key) ==> LastInFile(run, key) == Some(c.bearer))
            && (c.ToFile() && !FileKept(run, key) ==> LastInFile(run, key).None?)
  {
    hide CanonicalUrl;
    if !(run[|run| - 1].Stored() && run[|run| - 1].Key() == key) {
      LastStoredTier(run[..|run| - 1], key);
      assert run == run[..|run| - 1] + [run[|run| - 1]];
    }
  }

  /** After any run, with the keyring failing at any calls, a load returns only a bearer that some call stored for the
      same url up to trailing slashes. */
  lemma LoadReturnsStoredBearer(run: seq<StoreCall>, url: string, getWorks: bool, readable: bool)
    ensures var r := LoadFrom(After(run), url, getWorks, readable);
            && r.Answer?
            && (r.bearer.Some? ==>
                  exists c :: c in run && c.Stored() && c.bearer == r.bearer.value && SlashesApart(c.url, url))
  {
    hide CanonicalUrl, After, SlashesApart;
    StoresAreHistory(run, CanonicalUrl(url));
    HistoryIsStored(run, CanonicalUrl(url));
    var r := LoadFrom(After(run), url, getWorks, readable);
    if r.bearer.Some? {
      var c :| c in run && c.Stored() && c.Key() == CanonicalUrl(url) && c.bearer == r.bearer.value;
      SharedFormIff(c.url, url);
    }
  }

  /** Servers are kept apart: a url under which nothing was stored, up to trailing slashes, loads nothing. */
  lemma NothingForOtherServers(run: seq<StoreCall>, url: string, getWorks: bool, readable: bool)
    requires forall c :: c in run && c.Stored() ==> !SlashesApart(c.url, url)
    ensures LoadFrom(After(run), url, getWorks, readable) == Answer(None)
  {
    hide After, LoadFrom, SlashesApart;
    LoadReturnsStoredBearer(run, url, getWorks, readable);
  }

  /** The bearers stored for one key all differ, so that which one a load returns can be told. */
  ghost predicate DistinctBearers(run: seq<StoreCall>, key: string) {
    forall i, j :: 0 <= i < j < |run| && run[i].Key() == key && run[j].Key() == key ==> run[i].bearer != run[j].bearer
  }

  /** What a load returns after any run: a nonempty bearer that the keyring holds if it can be read, otherwise what the
      file holds if it can be read. */
  lemma LoadIsHistory(run: seq<StoreCall>, url: string, getWorks: bool, readable: bool)
    ensures var key := CanonicalUrl(url);
            var k, f := LastInKeyring(run, key), LastInFile(run, key);
            LoadFrom(After(run), url, getWorks, readable) ==
            Answer(if getWorks && k.Some? && k.value != "" then k else if readable then f else None)
  {
    hide CanonicalUrl, After;
    StoresAreHistory(run, CanonicalUrl(url));
  }

  /** The latest bearer is where the load finds one: in the keyring, if that can be read and has an entry, and else in the
      file, which still has it. */
  predicate LatestReachable(run: seq<StoreCall>, key: string, getWorks: bool)
    requires LastStored(run, key).Some?
  {
    var c := LastStored(run, key).value;
    if getWorks && LastInKeyring(run, key).Some? then c.ToKeyring() else c.ToFile() && FileKept(run, key)
  }

  /** When the latest bearer comes back, with nonempty bearers and a readable file: if it is reachable, and only then
      unless an older store had the same bearer. */
  lemma LoadReturnsLatestIff(run: seq<StoreCall>, url: string, getWorks: bool)
    requires forall c :: c in run ==> c.bearer != ""
    requires LastStored(run, CanonicalUrl(url)).Some?
    ensures var key := CanonicalUrl(url);
            var latest := Answer(Some(LastStored(run, key).value.bearer));
            var loaded := LoadFrom(After(run), url, getWorks, true);
            && (LatestReachable(run, key, getWorks) ==> loaded == latest)
            && (DistinctBearers(run, key) && loaded == latest ==> LatestReachable(run, key, getWorks))
  {
    hide CanonicalUrl, After, FileKept, DistinctBearers, LastStored, LoadFrom;
    var key := CanonicalUrl(url);
    LoadIsHistory(run, url, getWorks, true);
    LastStoredTier(run, key);
    KeyringBearer(run, key);
    if DistinctBearers(run, key) {
      OtherTierDiffers(run, key);
    }
  }

  lemma {:induction false} KeyringBearer(run: seq<StoreCall>, key: string)
    requires forall c :: c in run ==> c.bearer != ""
    ensures LastInKeyring(run, key) != Some("") && LastInFile(run, key) != Some("")
  {
    hide CanonicalUrl;
    if run != [] {
      assert run == run[..|run| - 1] + [run[|run| - 1]];
      KeyringBearer(run[..|run| - 1], key);
    }
  }

  /** What the tier that the last store did not use holds is not the last bearer. */
  lemma {:induction false} OtherTierDiffers(run: seq<StoreCall>, key: string)
    requires LastStored(run, key).Some? && DistinctBearers(run, key)
    ensures var c := LastStored(run, key).value;
            && (!c.ToFile() ==> LastInFile(run, key) != Some(c.bearer))
            && (!c.ToKeyring() ==> LastInKeyring(run, key) != Some(c.bearer))
  {
    hide CanonicalUrl;
    var front, last := run[..|run| - 1], run[|run| - 1];
    assert run == front + [last];
    if last.Stored() && last.Key() == key {
      HistoryIsStored(front, key);
      forall b | StoredFor(front, key, b)
        ensures b != last.bearer
      {
        var c :| c in front && c.Stored() && c.Key() == key && c.bearer == b;
        var i :| 0 <= i < |front| && front[i] == c;
        assert run[i] == c && run[|run| - 1] == last;
      }
    } else {
      assert DistinctBearers(front, key) by {
        assert forall i :: 0 <= i < |front| ==> front[i] == run[i];
      }
      OtherTierDiffers(front, key);
    }
  }

  /** A bearer that was stored in the keyring hides a later one that went to the file. */
  lemma OldKeyringEntryWins(url: string, b1: string, b2: string)
    requires b1 != "" && b1 != b2
    ensures var run := [StoreCall(url, b1, Done, true, Done), StoreCall(url, b2, Raises(false), true, Done)];
            LoadFrom(After(run), url, true, true) == Answer(Some(b1))
  {
    var first := StoreCall(url, b1, Done, true, Done);
    var run := [first, StoreCall(url, b2, Raises(false), true, Done)];
    assert run[..1] == [first] && [first][..0] == [];
  }

  /** A store that finds the file unreadable drops every other entry of it. */
  lemma UnreadableFileIsReplaced(url: string, other: string, b1: string, b2: string)
    requires CanonicalUrl(url) != CanonicalUrl(other)
    ensures var run := [StoreCall(url, b1, Raises(false), true, Done), StoreCall(other, b2, Raises(false), false, Done)];
            LoadFrom(After(run), url, true, true) == Answer(None)
  {
    var first := StoreCall(url, b1, Raises(false), true, Done);
    var run := [first, StoreCall(other, b2, Raises(false), false, Done)];
    hide CanonicalUrl;
    assert run[..1] == [first] && [first][..0] == [];
    assert After([first]) == Stores(map[], Entries(map[CanonicalUrl(url) := b1]));
    assert After(run) == Stores(map[], Entries(map[CanonicalUrl(other) := b2]));
  }
}
