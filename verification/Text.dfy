/** Python string operations shared by the models. */
module Text {

  /** `str.isspace` of one character; `re`'s `\s` and `str.strip` use the same set. */
  predicate IsSpace(c: char) {
    var n := c as int;
    || 9 <= n <= 13
    || 28 <= n <= 32
    || n == 0x85 || n == 0xA0 || n == 0x1680
    || 0x2000 <= n <= 0x200A
    || n == 0x2028 || n == 0x2029 || n == 0x202F || n == 0x205F || n == 0x3000
  }

  predicate AllSpace(s: string) {
    forall c :: c in s ==> IsSpace(c)
  }

  /** `str.lstrip()` */
  function LStrip(s: string): string {
    if s != "" && IsSpace(s[0]) then LStrip(s[1..]) else s
  }

  /** `str.rstrip()` */
  function RStrip(s: string): string {
    if s != "" && IsSpace(s[|s| - 1]) then RStrip(s[..|s| - 1]) else s
  }

  /** `str.strip()` */
  function Strip(s: string): string {
    RStrip(LStrip(s))
  }

  lemma {:induction false} LStripShape(s: string) returns (left: string)
    ensures s == left + LStrip(s) && AllSpace(left)
    ensures LStrip(s) != "" ==> !IsSpace(LStrip(s)[0])
  {
    if s != "" && IsSpace(s[0]) {
      var rest := LStripShape(s[1..]);
      left := [s[0]] + rest;
    } else {
      left := "";
    }
  }

  lemma {:induction false} RStripShape(s: string) returns (right: string)
    ensures s == RStrip(s) + right && AllSpace(right)
    ensures RStrip(s) != "" ==> !IsSpace(RStrip(s)[|RStrip(s)| - 1])
  {
    if s != "" && IsSpace(s[|s| - 1]) {
      var rest := RStripShape(s[..|s| - 1]);
      right := rest + [s[|s| - 1]];
    } else {
      right := "";
    }
  }

  /** `strip` removes whitespace and nothing else. */
  lemma StripShape(s: string) returns (left: string, right: string)
    ensures s == left + Strip(s) + right && AllSpace(left) && AllSpace(right)
  {
    left := LStripShape(s);
    right := RStripShape(LStrip(s));
  }

  /** The codes of the whitespace characters */
  const BLANKS: set<int> :=
    {9, 10, 11, 12, 13, 28, 29, 30, 31, 32, 0x85, 0xA0, 0x1680, 0x2000, 0x2001, 0x2002, 0x2003, 0x2004, 0x2005, 0x2006,
     0x2007, 0x2008, 0x2009, 0x200A, 0x2028, 0x2029, 0x202F, 0x205F, 0x3000}

  lemma SpaceIsBlank(c: char)
    ensures IsSpace(c) <==> c as int in BLANKS
  {
  }

  /** `strip` removes whitespace at both ends, and all of it. */
  lemma StripTrims(s: string) returns (left: string, right: string)
    ensures s == left + Strip(s) + right
    ensures forall c :: c in left || c in right ==> c as int in BLANKS
    ensures Strip(s) != "" ==> Strip(s)[0] as int !in BLANKS && Strip(s)[|Strip(s)| - 1] as int !in BLANKS
  {
    hide IsSpace, LStrip, RStrip, BLANKS;
    forall c { SpaceIsBlank(c); }
    left := LStripShape(s);
    right := RStripShape(LStrip(s));
  }

  /** `lstrip` removes whitespace at the start, and all of it. */
  lemma LStripTrims(s: string) returns (left: string)
    ensures s == left + LStrip(s)
    ensures forall c :: c in left ==> c as int in BLANKS
    ensures LStrip(s) != "" ==> LStrip(s)[0] as int !in BLANKS
  {
    hide IsSpace, LStrip, BLANKS;
    forall c { SpaceIsBlank(c); }
    left := LStripShape(s);
  }

  lemma {:induction false} LStripPrefix(left: string, s: string)
    requires AllSpace(left) && (s != "" ==> !IsSpace(s[0]))
    ensures LStrip(left + s) == s
  {
    if left == "" {
      assert left + s == s;
    } else {
      assert (left + s)[1..] == left[1..] + s;
      LStripPrefix(left[1..], s);
    }
  }

  lemma {:induction false} RStripSuffix(s: string, right: string)
    requires AllSpace(right) && (s != "" ==> !IsSpace(s[|s| - 1]))
    ensures RStrip(s + right) == s
  {
    if right == "" {
      assert s + right == s;
    } else {
      assert (s + right)[..|s + right| - 1] == s + right[..|right| - 1];
      RStripSuffix(s, right[..|right| - 1]);
    }
  }

  /** `strip` is exactly the removal of surrounding whitespace from a core that has none at its ends. */
  lemma StripOf(left: string, core: string, right: string)
    requires AllSpace(left) && AllSpace(right) && core != ""
    requires !IsSpace(core[0]) && !IsSpace(core[|core| - 1])
    ensures Strip(left + core + right) == core
  {
    assert left + core + right == left + (core + right);
    LStripPrefix(left, core + right);
    RStripSuffix(core, right);
  }
}
