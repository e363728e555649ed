/** `merge_tasks_into_plan`: new tasks get fresh numbers and are added to a running plan. */
module PlanMerge {
  import opened Basics
  import opened Json
  import opened Text
  import opened Numbers
  import opened DependencyGraph

  // ----- Numbers in ids -----

  /** `int(s)`; None stands for the ValueError. */
  function ParseInt(s: string): Option<int> {
    var t := Strip(s);
    if t != "" && t[0] == '-' then
      match DigitsValue(t[1..])
      case None => None
      case Some(n) => Some(-(n as int))
    else
      match DigitsValue(if t != "" && t[0] == '+' then t[1..] else t)
      case None => None
      case Some(n) => Some(n as int)
  }

  function PadZeros(s: string): string
    decreases 3 - |s|
  {
    if |s| >= 3 then s else PadZeros("0" + s)
  }

  /** `f"TASK-{n:03d}"` */
  function NewId(n: nat): string {
    "TASK-" + PadZeros(Digits(n))
  }

  /** `s.replace(pattern, "")` */
  function Remove(s: string, pattern: string): string
    requires pattern != ""
  {
    if |s| < |pattern| then s
    else if s[..|pattern|] == pattern then Remove(s[|pattern|..], pattern)
    else [s[0]] + Remove(s[1..], pattern)
  }

  /** The number the code reads out of an existing id */
  function IdNumber(id: string, prefix: string): Option<int> {
    ParseInt(Remove(Remove(id, "TASK-"), prefix + "-"))
  }

  // ----- Plans -----

  /** A task dictionary: the two keys the merge works on, and all others */
  datatype Entry = Entry(id: Option<string>, dependencies: Option<seq<string>>, fields: map<string, Json>)

  datatype PlanFile = PlanFile(tasks: Option<seq<Entry>>, other: map<string, Json>)

  function Entries(p: PlanFile): seq<Entry> {
    if p.tasks.Some? then p.tasks.value else []
  }

  function EntryIds(es: seq<Entry>): set<string> {
    set e | e in es && e.id.Some? :: e.id.value
  }

  function Deps(e: Entry): seq<string> {
    if e.dependencies.Some? then e.dependencies.value else []
  }

  function KeepKnown(deps: seq<string>, known: set<string>): seq<string> {
    if deps == [] then [] else (if deps[0] in known then [deps[0]] else []) + KeepKnown(deps[1..], known)
  }

  /** An entry as the merge adds it */
  function Adopted(e: Entry, n: nat, known: set<string>, origin: string): Entry {
    Entry(Some(NewId(n)), Some(KeepKnown(Deps(e), known)),
          e.fields["status" := Str("pending")]["_origin" := Str("prd_wizard:" + origin)])
  }

  /** The source entries renumbered from `start` + 1 on */
  function AdoptedAll(es: seq<Entry>, start: nat, known: set<string>, origin: string): seq<Entry> {
    seq(|es|, i requires 0 <= i < |es| => Adopted(es[i], start + i + 1, known, origin))
  }

  /** `m` is the largest nonnegative number read from the ids, 0 if there is none. */
  ghost predicate IsMaxNumber(ids: set<string>, prefix: string, m: nat) {
    && (forall id :: id in ids && IdNumber(id, prefix).Some? ==> IdNumber(id, prefix).value <= m)
    && (m > 0 ==> exists id :: id in ids && IdNumber(id, prefix) == Some(m))
  }

  /** The dependencies in `deps` that are known, in order: what is kept of a single one, and that lists are kept part by
      part, leaves no choice. */
  lemma {:induction false} KeptPartByPart(a: seq<string>, b: seq<string>, d: string, known: set<string>)
    ensures KeepKnown(a + b, known) == KeepKnown(a, known) + KeepKnown(b, known)
    ensures KeepKnown([d], known) == if d in known then [d] else []
  {
    if a == [] {
      assert a + b == b;
    } else {
      KeptPartByPart(a[1..], b, d, known);
      assert (a + b)[1..] == a[1..] + b;
      Associate(if a[0] in known then [a[0]] else [], KeepKnown(a[1..], known), KeepKnown(b, known));
    }
  }

  /** What the merge makes of a task: it gets the number `n` and its two marks, loses the dependencies that the plan does
      not know, and keeps everything else. */
  ghost predicate AddedAs(e: Entry, source: Entry, n: nat, known: set<string>, origin: string) {
    && e.id == Some(NewId(n))
    && "status" in e.fields && e.fields["status"] == Str("pending")
    && "_origin" in e.fields && e.fields["_origin"] == Str("prd_wizard:" + origin)
    && e.fields - {"status", "_origin"} == source.fields - {"status", "_origin"}
    && e.dependencies ==
       Some(KeepKnown(if source.dependencies.Some? then source.dependencies.value else [], known))
  }

  lemma AdoptedIsAdded(e: Entry, n: nat, known: set<string>, origin: string)
    ensures AddedAs(Adopted(e, n, known, origin), e, n, known, origin)
  {
    hide NewId, KeepKnown;
  }

  lemma EntryIdsAre(es: seq<Entry>, id: string)
    ensures id in EntryIds(es) <==> exists e :: e in es && e.id == Some(id)
  {
  }

  lemma AdoptedFirst(es: seq<Entry>, start: nat, known: set<string>, origin: string, k: nat)
    requires k <= |es|
    ensures var all := AdoptedAll(es, start, known, origin);
            && |all| == |es| && all[..0] == [] && all[..|es|] == all
            && (k < |es| ==> all[..k + 1] == all[..k] + [Adopted(es[k], start + k + 1, known, origin)])
  {
    hide Adopted;
  }

  /** The plan's entries stay as they are, and the source's follow, numbered on from `m`. */
  ghost predicate PlanExtended(plan: seq<Entry>, old_: seq<Entry>, added: seq<Entry>, m: nat, origin: string) {
    && |plan| == |old_| + |added| && plan[..|old_|] == old_
    && forall i :: 0 <= i < |added| ==> AddedAs(plan[|old_| + i], added[i], m + i + 1, EntryIds(old_), origin)
  }

  lemma MergedIsExtended(old_: seq<Entry>, added: seq<Entry>, m: nat, origin: string)
    ensures PlanExtended(old_ + AdoptedAll(added, m, EntryIds(old_), origin), old_, added, m, origin)
  {
    hide EntryIds, Adopted, AddedAs;
    forall i | 0 <= i < |added|
      ensures AddedAs(Adopted(added[i], m + i + 1, EntryIds(old_), origin), added[i], m + i + 1, EntryIds(old_), origin)
    {
      AdoptedIsAdded(added[i], m + i + 1, EntryIds(old_), origin);
    }
  }

  datatype MergeResult = Merged(plan: PlanFile, added: nat) | KeyError

  /** A key that is missing raises before anything is written. */
  method MergeTasksIntoPlan(source: PlanFile, target: PlanFile, prefix: string, origin: string) returns (r: MergeResult)
    ensures r.KeyError? <==>
            || (exists e :: e in Entries(target) && e.id.None?)
            || (exists e :: e in Entries(source) && e.id.None?)
            || (target.tasks.None? && Entries(source) != [])
    ensures r.Merged? ==>
              && r.added == |Entries(source)|
              && r.plan.other == target.other
              && exists m: nat :: IsMaxNumber(EntryIds(Entries(target)), prefix, m)
                   && Entries(r.plan) == Entries(target)
                        + AdoptedAll(Entries(source), m, EntryIds(Entries(target)), origin)
                   && PlanExtended(Entries(r.plan), Entries(target), Entries(source), m, origin)
  {
    hide Adopted, IsMaxNumber, AdoptedAll, EntryIds, PlanExtended;
    if exists e :: e in Entries(target) && e.id.None? {
      return KeyError;
    }
    var existing := EntryIds(Entries(target));
    var maxNum := MaxNumber(existing, prefix);
    ghost var start := maxNum;
    var es, tasks, added := Entries(source), target.tasks, 0;
    AdoptedFirst(es, start, existing, origin, 0);
    while added < |es|
      invariant added <= |es| && maxNum == start + added
      invariant forall e :: e in es[..added] ==> e.id.Some?
      invariant added > 0 ==> tasks.Some?
      invariant tasks.None? ==> target.tasks.None?
      invariant (if tasks.Some? then tasks.value else []) ==
                Entries(target) + AdoptedAll(es, start, existing, origin)[..added]
      invariant target.tasks.None? <==> tasks.None?
    {
      var e := es[added];
      maxNum := maxNum + 1;
      if e.id.None? || tasks.None? {
        return KeyError;
      }
      assert es[..added + 1] == es[..added] + [e];
      AdoptedFirst(es, start, existing, origin, added);
      tasks := Some(tasks.value + [Adopted(e, maxNum, existing, origin)]);
      added := added + 1;
    }
    assert es[..added] == es;
    AdoptedFirst(es, start, existing, origin, added);
    MergedIsExtended(Entries(target), es, start, origin);
    return Merged(PlanFile(tasks, target.other), added);
  }

  /** The loop that reads the largest number; ids come in any order. */
  method MaxNumber(ids: set<string>, prefix: string) returns (m: nat)
    ensures IsMaxNumber(ids, prefix, m)
  {
    hide IdNumber;
    m := 0;
    var todo := ids;
    while todo != {}
      invariant todo <= ids && IsMaxNumber(ids - todo, prefix, m)
      decreases todo
    {
      var id :| id in todo;
      var n := IdNumber(id, prefix);
      if n.Some? && n.value > m {
        m := n.value;
      }
      todo := todo - {id};
    }
    assert ids - {} == ids;
  }

  // ----- Fresh numbers -----

  lemma {:induction false} LeadingZero(s: string)
    requires s != "" && forall i :: 0 <= i < |s| ==> IsDigit(s[i])
    ensures DigitsValue("0" + s) == DigitsValue(s) && DigitsValue(s).Some?
  {
    var t := "0" + s;
    assert t[|t| - 1] == s[|s| - 1];
    assert t[..|t| - 1] == "0" + s[..|s| - 1];
    if |s| > 1 {
      LeadingZero(s[..|s| - 1]);
    } else {
      assert t[..|t| - 1] == "0";
      assert DigitsValue("0") == Some(0);
    }
  }

  lemma {:induction false} PadRoundTrip(s: string)
    requires s != "" && forall i :: 0 <= i < |s| ==> IsDigit(s[i])
    ensures DigitsValue(PadZeros(s)) == DigitsValue(s)
    ensures PadZeros(s) != "" && forall i :: 0 <= i < |PadZeros(s)| ==> IsDigit(PadZeros(s)[i])
    decreases 3 - |s|
  {
    if |s| < 3 {
      LeadingZero(s);
      PadRoundTrip("0" + s);
    }
  }

  lemma {:induction false} RemoveAbsent(s: string, pattern: string, c: char)
    requires pattern != "" && c in pattern && c !in s
    ensures Remove(s, pattern) == s
  {
    if |s| >= |pattern| {
      var k :| 0 <= k < |pattern| && pattern[k] == c;
      assert s[..|pattern|][k] == s[k] && s[k] in s;
      RemoveAbsent(s[1..], pattern, c);
      assert s == [s[0]] + s[1..];
    }
  }

  /** The form of a new id: `TASK-` and the number, filled up with zeros to three digits */
  lemma NewIdIs(n: nat)
    ensures |NewId(n)| >= 8 && NewId(n)[..5] == "TASK-"
    ensures forall i :: 5 <= i < |NewId(n)| ==> '0' <= NewId(n)[i] <= '9'
    ensures DigitsValue(NewId(n)[5..]) == Some(n)
    ensures |NewId(n)| > 8 ==> NewId(n)[5] != '0'
  {
    DigitsRoundTrip(n);
    NoLeadingZero(n);
    PadRoundTrip(Digits(n));
    PadWidth(Digits(n));
    assert NewId(n)[5..] == PadZeros(Digits(n));
    if |Digits(n)| >= 3 {
      SmallDigits(n);
    }
  }

  lemma {:induction false} PadWidth(s: string)
    ensures |PadZeros(s)| == if |s| < 3 then 3 else |s|
    ensures |s| >= 3 ==> PadZeros(s) == s
    decreases 3 - |s|
  {
    if |s| < 3 {
      PadWidth("0" + s);
    }
  }

  lemma SmallDigits(n: nat)
    requires |Digits(n)| >= 3
    ensures n > 0
  {
  }

  /** `s.replace(pattern, "")` takes out the first occurrence and goes on behind it. */
  lemma {:induction false} RemoveFirst(a: string, pattern: string, b: string)
    requires pattern != ""
    requires forall i :: 0 <= i < |a| ==> !(pattern <= (a + pattern + b)[i..])
    ensures Remove(a + pattern + b, pattern) == a + Remove(b, pattern)
  {
    var s := a + pattern + b;
    assert s[0..] == s;
    if a == "" {
      assert s[..|pattern|] == pattern && s[|pattern|..] == b;
    } else {
      assert s[1..] == a[1..] + pattern + b;
      assert forall i :: 0 <= i < |a[1..]| ==> s[1..][i..] == s[i + 1..];
      RemoveFirst(a[1..], pattern, b);
      assert [s[0]] + (a[1..] + Remove(b, pattern)) == a + Remove(b, pattern);
    }
  }

  lemma {:induction false} RemoveNone(s: string, pattern: string)
    requires pattern != "" && forall i :: 0 <= i < |s| ==> !(pattern <= s[i..])
    ensures Remove(s, pattern) == s
  {
    if |s| >= |pattern| {
      assert s[0..] == s;
      assert forall i :: 0 <= i < |s[1..]| ==> s[1..][i..] == s[i + 1..];
      RemoveNone(s[1..], pattern);
      assert s == [s[0]] + s[1..];
    }
  }

  /** The number read from an id: the two prefixes are taken out, and what is left is read as an integer. */
  lemma IdNumberIs(id: string, prefix: string, digits: string)
    requires Remove(Remove(id, "TASK-"), prefix + "-") == digits
    requires digits != "" && (forall i :: 0 <= i < |digits| ==> '0' <= digits[i] <= '9')
    ensures IdNumber(id, prefix).Some? && IdNumber(id, prefix) == match DigitsValue(digits) { case Some(n) => Some(n as int) case None => None }
  {
    hide ParseInt, DigitsValue;
    AllDigitsValue(digits);
    ParseDigits(digits);
  }

  lemma {:induction false} AllDigitsValue(s: string)
    requires s != "" && forall i :: 0 <= i < |s| ==> IsDigit(s[i])
    ensures DigitsValue(s).Some?
  {
    if |s| > 1 {
      AllDigitsValue(s[..|s| - 1]);
    }
  }

  /** The code reads back the number of every id it makes. */
  lemma NewIdNumber(n: nat, prefix: string)
    ensures IdNumber(NewId(n), prefix) == Some(n)
  {
    hide ParseInt;
    DigitsRoundTrip(n);
    var ds := PadZeros(Digits(n));
    PadRoundTrip(Digits(n));
    var id := NewId(n);
    assert id[..5] == "TASK-" && id[5..] == ds;
    NoLetters(ds);
    RemoveAbsent(ds, "TASK-", 'T');
    RemoveAbsent(ds, prefix + "-", '-');
    ParseDigits(ds);
  }

  lemma NoLetters(ds: string)
    requires forall i :: 0 <= i < |ds| ==> IsDigit(ds[i])
    ensures 'T' !in ds && '-' !in ds
  {
  }

  lemma ParseDigits(ds: string)
    requires ds != "" && forall i :: 0 <= i < |ds| ==> IsDigit(ds[i])
    requires DigitsValue(ds).Some?
    ensures ParseInt(ds) == Some(DigitsValue(ds).value)
  {
    hide DigitsValue, Strip;
    StripDigits(ds);
    assert IsDigit(ds[0]);
  }

  lemma StripDigits(ds: string)
    requires ds != "" && IsDigit(ds[0]) && IsDigit(ds[|ds| - 1])
    ensures Strip(ds) == ds
  {
    hide Strip, IsSpace, IsDigit;
    assert "" + ds + "" == ds;
    DigitIsNotSpace(ds[0]);
    DigitIsNotSpace(ds[|ds| - 1]);
    StripOf("", ds, "");
  }

  lemma DigitIsNotSpace(c: char)
    requires IsDigit(c)
    ensures !IsSpace(c)
  {
  }

  /** Zero-padded numbering is injective, and every number above the maximum gives an id that the plan lacks. */
  lemma NewIdsAreFresh(ids: set<string>, prefix: string, m: nat, a: nat, b: nat)
    requires IsMaxNumber(ids, prefix, m)
    ensures NewId(a) == NewId(b) ==> a == b
    ensures a > m ==> NewId(a) !in ids
  {
    NewIdNumber(a, prefix);
    NewIdNumber(b, prefix);
  }

  // ----- What the merged plan keeps -----

  function Nodes(es: seq<Entry>): seq<Node>
    requires forall e :: e in es ==> e.id.Some?
  {
    seq(|es|, i requires 0 <= i < |es| => assert es[i] in es; Node(es[i].id.value, Deps(es[i])))
  }

  ghost predicate DistinctEntries(es: seq<Entry>) {
    forall i, j :: 0 <= i < j < |es| ==> es[i].id != es[j].id
  }

  ghost predicate ResolvedEntries(es: seq<Entry>) {
    forall e, d :: e in es && d in Deps(e) ==> d in EntryIds(es)
  }

  lemma {:induction false} KeepKnownIn(deps: seq<string>, known: set<string>, d: string)
    ensures d in KeepKnown(deps, known) <==> d in deps && d in known
  {
    if deps != [] {
      KeepKnownIn(deps[1..], known, d);
      assert deps == [deps[0]] + deps[1..];
    }
  }

  lemma NodeAt(es: seq<Entry>, n: Node) returns (e: Entry)
    requires (forall x :: x in es ==> x.id.Some?) && n in Nodes(es)
    ensures e in es && n.id == e.id.value && n.deps == Deps(e)
  {
    var i :| 0 <= i < |Nodes(es)| && Nodes(es)[i] == n;
    e := es[i];
  }

  lemma NodeIds(es: seq<Entry>)
    requires forall e :: e in es ==> e.id.Some?
    ensures Ids(Nodes(es)) == EntryIds(es)
  {
    forall id | id in EntryIds(es)
      ensures id in Ids(Nodes(es))
    {
      var e :| e in es && e.id == Some(id);
      var i :| 0 <= i < |es| && es[i] == e;
      assert Nodes(es)[i] in Nodes(es);
    }
    forall id | id in Ids(Nodes(es))
      ensures id in EntryIds(es)
    {
      var n :| n in Nodes(es) && n.id == id;
      var e := NodeAt(es, n);
    }
  }

  /** Distinct ids stay distinct, and new entries depend only on entries that were there before: the new tasks never
      depend on each other. */
  lemma MergeKeepsIds(old_: seq<Entry>, added: seq<Entry>, prefix: string, m: nat, origin: string)
    requires (forall e :: e in old_ ==> e.id.Some?) && IsMaxNumber(EntryIds(old_), prefix, m)
    ensures var new_ := AdoptedAll(added, m, EntryIds(old_), origin);
            && (DistinctEntries(old_) ==> DistinctEntries(old_ + new_))
            && (ResolvedEntries(old_) ==> ResolvedEntries(old_ + new_))
            && EntryIds(new_) !! EntryIds(old_)
            && (forall e, d :: e in new_ && d in Deps(e) ==> d in EntryIds(old_))
  {
    hide NewId, IsMaxNumber;
    var new_ := AdoptedAll(added, m, EntryIds(old_), origin);
    forall i, j | 0 <= i < |new_| && 0 <= j < |new_|
      ensures new_[i].id == new_[j].id ==> i == j
      ensures new_[i].id.value !in EntryIds(old_)
    {
      NewIdsAreFresh(EntryIds(old_), prefix, m, m + i + 1, m + j + 1);
    }
    forall e, d | e in new_ && d in Deps(e)
      ensures d in EntryIds(old_)
    {
      var i :| 0 <= i < |new_| && new_[i] == e;
      KeepKnownIn(Deps(added[i]), EntryIds(old_), d);
    }
    forall i | 0 <= i < |old_|
      ensures old_[i].id.value in EntryIds(old_)
    {
      assert old_[i] in old_;
    }
    OldIdsStay(old_, new_);
  }

  lemma OldIdsStay(old_: seq<Entry>, new_: seq<Entry>)
    ensures EntryIds(old_ + new_) == EntryIds(old_) + EntryIds(new_)
  {
    forall id | id in EntryIds(old_) + EntryIds(new_)
      ensures id in EntryIds(old_ + new_)
    {
      var e :| (e in old_ || e in new_) && e.id == Some(id);
      assert e in old_ + new_;
    }
  }

  /** The plan after the merge */
  function MergedPlan(old_: seq<Entry>, added: seq<Entry>, m: nat, origin: string): (es: seq<Entry>)
    requires forall e :: e in old_ ==> e.id.Some?
    ensures forall e :: e in es ==> e.id.Some?
  {
    old_ + AdoptedAll(added, m, EntryIds(old_), origin)
  }

  /** No dependency of the plan names one of the next `k` ids. */
  ghost predicate NoCapture(old_: seq<Entry>, m: nat, k: nat) {
    forall e, d, n: nat :: e in old_ && d in Deps(e) && m < n <= m + k ==> d != NewId(n)
  }

  lemma NewEntryIds(old_: seq<Entry>, added: seq<Entry>, m: nat, origin: string, id: string)
    ensures id in EntryIds(AdoptedAll(added, m, EntryIds(old_), origin)) <==>
            exists n: nat :: m < n <= m + |added| && id == NewId(n)
  {
    hide NewId;
    var new_ := AdoptedAll(added, m, EntryIds(old_), origin);
    if id in EntryIds(new_) {
      var e :| e in new_ && e.id == Some(id);
      var i :| 0 <= i < |new_| && new_[i] == e;
      assert id == NewId(m + i + 1);
    }
    if exists n: nat :: m < n <= m + |added| && id == NewId(n) {
      var n: nat :| m < n <= m + |added| && id == NewId(n);
      assert new_[n - m - 1] in new_;
    }
  }

  /** If no dependency of the plan is captured, no dependency of the merged plan names a new task. */
  lemma EdgeTargetIsNotNew(old_: seq<Entry>, added: seq<Entry>, prefix: string, m: nat, origin: string, a: string, b: string)
    requires (forall e :: e in old_ ==> e.id.Some?) && IsMaxNumber(EntryIds(old_), prefix, m)
    requires NoCapture(old_, m, |added|) && Edge(Nodes(MergedPlan(old_, added, m, origin)), a, b)
    ensures b !in EntryIds(AdoptedAll(added, m, EntryIds(old_), origin))
  {
    hide NewId, IsMaxNumber, EntryIds, Deps, AdoptedAll;
    MergeKeepsIds(old_, added, prefix, m, origin);
    var es, new_ := MergedPlan(old_, added, m, origin), AdoptedAll(added, m, EntryIds(old_), origin);
    var node :| node in Nodes(es) && node.id == a && b in node.deps;
    var e := NodeAt(es, node);
    NewEntryIds(old_, added, m, origin, b);
    assert e in old_ || e in new_;
  }

  lemma OldEdge(old_: seq<Entry>, new_: seq<Entry>, a: string, b: string)
    requires (forall e :: e in old_ ==> e.id.Some?) && (forall e :: e in new_ ==> e.id.Some?)
    requires a !in EntryIds(new_) && b !in EntryIds(new_) && Edge(Nodes(old_ + new_), a, b)
    ensures Edge(Nodes(old_), a, b)
  {
    NodeIds(old_);
    NodeIds(old_ + new_);
    OldIdsStay(old_, new_);
    var n :| n in Nodes(old_ + new_) && n.id == a && b in n.deps;
    var e := NodeAt(old_ + new_, n);
    assert e in old_ by {
      assert e in new_ ==> a in EntryIds(new_);
    }
    var i :| 0 <= i < |old_| && old_[i] == e;
    assert Nodes(old_)[i] in Nodes(old_);
  }

  /** A cycle of the merged plan is one of the old plan. */
  lemma OldCycle(old_: seq<Entry>, added: seq<Entry>, prefix: string, m: nat, origin: string, p: seq<string>)
    requires (forall e :: e in old_ ==> e.id.Some?) && IsMaxNumber(EntryIds(old_), prefix, m)
    requires NoCapture(old_, m, |added|) && IsCycle(Nodes(MergedPlan(old_, added, m, origin)), p)
    ensures IsCycle(Nodes(old_), p)
  {
    hide NewId, IsMaxNumber, Edge, Nodes, NoCapture, EntryIds, AdoptedAll;
    var new_ := AdoptedAll(added, m, EntryIds(old_), origin);
    assert MergedPlan(old_, added, m, origin) == old_ + new_;
    forall i | 0 <= i < |p|
      ensures p[i] !in EntryIds(new_)
    {
      var k := if i == 0 then |p| - 2 else i - 1;
      EdgeTargetIsNotNew(old_, added, prefix, m, origin, p[k], p[k + 1]);
    }
    forall i | 0 <= i < |p| - 1
      ensures Edge(Nodes(old_), p[i], p[i + 1])
    {
      OldEdge(old_, new_, p[i], p[i + 1]);
    }
  }

  /** Merging into a plan without a cycle makes no cycle, if no dependency of the plan names one of the new ids. */
  lemma MergeKeepsAcyclic(old_: seq<Entry>, added: seq<Entry>, prefix: string, m: nat, origin: string)
    requires (forall e :: e in old_ ==> e.id.Some?) && IsMaxNumber(EntryIds(old_), prefix, m)
    requires Acyclic(Nodes(old_)) && NoCapture(old_, m, |added|)
    ensures Acyclic(Nodes(MergedPlan(old_, added, m, origin)))
  {
    hide IsMaxNumber, IsCycle, Nodes, NoCapture, MergedPlan;
    forall p
      ensures !IsCycle(Nodes(MergedPlan(old_, added, m, origin)), p)
    {
      if IsCycle(Nodes(MergedPlan(old_, added, m, origin)), p) {
        OldCycle(old_, added, prefix, m, origin, p);
      }
    }
  }

  /** A dependency that names one of the next ids is captured by some merge: the new task gets the id, and if it depends
      on the old task the two wait for each other. */
  lemma CaptureMakesCycle(old_: seq<Entry>, e: Entry, n: nat, k: nat, m: nat, origin: string) returns (added: seq<Entry>)
    requires forall x :: x in old_ ==> x.id.Some?
    requires e in old_ && NewId(n) in Deps(e) && m < n <= m + k
    ensures |added| == k && !Acyclic(Nodes(MergedPlan(old_, added, m, origin)))
  {
    hide NewId, Deps, Acyclic;
    var one, two, known := e.id.value, NewId(n), EntryIds(old_);
    added := seq(k, i => Entry(Some(""), Some([one]), map[]));
    var es := MergedPlan(old_, added, m, origin);
    var i :| 0 <= i < |old_| && old_[i] == e;
    var j := |old_| + (n - m - 1);
    assert es[i] == e && es[j] == Adopted(added[n - m - 1], n, known, origin);
    CapturingEntry(one, known, n, origin);
    assert Nodes(es)[i] == Node(one, Deps(e)) && Nodes(es)[j] == Node(two, [one]);
    assert Nodes(es)[i] in Nodes(es) && Nodes(es)[j] in Nodes(es);
    assert Edge(Nodes(es), one, two) && Edge(Nodes(es), two, one);
    TwoCycle(Nodes(es), one, two);
  }

  lemma CapturingEntry(one: string, known: set<string>, n: nat, origin: string)
    requires one in known
    ensures var x := Adopted(Entry(Some(""), Some([one]), map[]), n, known, origin);
            x.id == Some(NewId(n)) && Deps(x) == [one]
  {
    assert KeepKnown([one], known) == [one];
  }

  lemma TwoCycle(g: seq<Node>, one: string, two: string)
    requires Edge(g, one, two) && Edge(g, two, one)
    ensures !Acyclic(g)
  {
    hide Edge;
    assert IsCycle(g, [one, two, one]);
  }

  /** Every merge of `k` tasks into an acyclic plan keeps it acyclic, exactly if no dependency of the plan names one of
      the next `k` ids. */
  lemma MergeAcyclicIff(old_: seq<Entry>, k: nat, prefix: string, m: nat, origin: string)
    requires (forall e :: e in old_ ==> e.id.Some?) && IsMaxNumber(EntryIds(old_), prefix, m)
    requires Acyclic(Nodes(old_))
    ensures (forall added :: |added| == k ==> Acyclic(Nodes(MergedPlan(old_, added, m, origin)))) <==> NoCapture(old_, m, k)
  {
    hide IsMaxNumber, Acyclic, Nodes, MergedPlan, NewId;
    if NoCapture(old_, m, k) {
      forall added: seq<Entry> | |added| == k
        ensures Acyclic(Nodes(MergedPlan(old_, added, m, origin)))
      {
        MergeKeepsAcyclic(old_, added, prefix, m, origin);
      }
    } else {
      var e, d, n: nat :| e in old_ && d in Deps(e) && m < n <= m + k && d == NewId(n);
      var added := CaptureMakesCycle(old_, e, n, k, m, origin);
    }
  }

  /** Merges of any size keep the plan acyclic exactly if no dependency names any id that is still to come. */
  lemma AllMergesAcyclicIff(old_: seq<Entry>, prefix: string, m: nat, origin: string)
    requires (forall e :: e in old_ ==> e.id.Some?) && IsMaxNumber(EntryIds(old_), prefix, m)
    requires Acyclic(Nodes(old_))
    ensures (forall added :: Acyclic(Nodes(MergedPlan(old_, added, m, origin)))) <==>
            forall e, d, n: nat :: e in old_ && d in Deps(e) && n > m ==> d != NewId(n)
  {
    hide IsMaxNumber, Acyclic, Nodes, MergedPlan, NewId;
    if forall e, d, n: nat :: e in old_ && d in Deps(e) && n > m ==> d != NewId(n) {
      forall added: seq<Entry>
        ensures Acyclic(Nodes(MergedPlan(old_, added, m, origin)))
      {
        MergeKeepsAcyclic(old_, added, prefix, m, origin);
      }
    } else {
      var e, d, n: nat :| e in old_ && d in Deps(e) && n > m && d == NewId(n);
      var added := CaptureMakesCycle(old_, e, n, n - m, m, origin);
    }
  }

  lemma ResolvedHasNoCapture(old_: seq<Entry>, k: nat, prefix: string, m: nat)
    requires IsMaxNumber(EntryIds(old_), prefix, m) && ResolvedEntries(old_)
    ensures NoCapture(old_, m, k)
  {
    hide NewId, IsMaxNumber, Deps;
    forall e, d, n: nat | e in old_ && d in Deps(e) && m < n <= m + k
      ensures d != NewId(n)
    {
      NewIdsAreFresh(EntryIds(old_), prefix, m, n, n);
    }
  }

  /** The merge as a whole: it adds exactly the source's tasks, keeps ids distinct and dependencies resolving, and keeps
      the graph acyclic if no dependency is captured, so in particular if all of them resolve. */
  lemma MergeKeepsPlan(old_: seq<Entry>, added: seq<Entry>, prefix: string, m: nat, origin: string)
    requires (forall e :: e in old_ ==> e.id.Some?) && IsMaxNumber(EntryIds(old_), prefix, m)
    ensures var merged := MergedPlan(old_, added, m, origin);
            && |merged| == |old_| + |added|
            && (DistinctEntries(old_) ==> DistinctEntries(merged))
            && (ResolvedEntries(old_) ==> ResolvedEntries(merged))
            && (Acyclic(Nodes(old_)) && NoCapture(old_, m, |added|) ==> Acyclic(Nodes(merged)))
            && (Acyclic(Nodes(old_)) && ResolvedEntries(old_) ==> Acyclic(Nodes(merged)))
  {
    hide IsMaxNumber, DistinctEntries, ResolvedEntries, Acyclic, Nodes, NoCapture, EntryIds;
    MergeKeepsIds(old_, added, prefix, m, origin);
    if ResolvedEntries(old_) {
      ResolvedHasNoCapture(old_, |added|, prefix, m);
    }
    if Acyclic(Nodes(old_)) && NoCapture(old_, m, |added|) {
      MergeKeepsAcyclic(old_, added, prefix, m, origin);
    }
  }

  /** The smallest plan with a captured dependency: its only task depends on the next id. */
  lemma DanglingDependencyMakesCycle(origin: string) returns (added: seq<Entry>)
    ensures var old_ := [Entry(Some(NewId(1)), Some([NewId(2)]), map[])];
            && IsMaxNumber(EntryIds(old_), "NEW", 1) && Acyclic(Nodes(old_))
            && |added| == 1 && !Acyclic(Nodes(MergedPlan(old_, added, 1, origin)))
  {
    NewIdNumber(1, "NEW");
    NewIdNumber(2, "NEW");
    hide NewId, IdNumber;
    var one, two := NewId(1), NewId(2);
    var e := Entry(Some(one), Some([two]), map[]);
    assert e in [e];
    assert EntryIds([e]) == {one};
    assert Deps(e) == [two];
    hide EntryIds, AdoptedAll, Nodes, Acyclic, Deps, MergedPlan;
    OnlyNumber(one);
    NoEdgeFromDangling([e], one, two);
    added := CaptureMakesCycle([e], e, 2, 1, 1, origin);
  }

  lemma OnlyNumber(one: string)
    requires IdNumber(one, "NEW") == Some(1)
    ensures IsMaxNumber({one}, "NEW", 1)
  {
    hide IdNumber;
    assert one in {one};
  }

  lemma NoEdgeFromDangling(es: seq<Entry>, one: string, two: string)
    requires es == [Entry(Some(one), Some([two]), map[])] && one != two
    ensures Acyclic(Nodes(es))
  {
    var g := Nodes(es);
    assert g == [Node(one, [two])];
    var rank: string -> nat := s => 0;
    assert forall a, b :: !Edge(g, a, b);
    RankedIsAcyclic(g, rank);
  }
}
