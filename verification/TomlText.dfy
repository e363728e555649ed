/** The values that `_render_toml` writes, and reading them back as TOML v1.0.0 defines them (sections "Keys", "String",
    "Integer", "Float", "Boolean" and "Table"): bare keys, basic strings, decimal integers, floats, booleans, comments
    and table headers.  Other TOML is rejected. */
module TomlText {
  import opened Basics
  import opened Numbers

  // ----- What can be written -----

  predicate AllDigits(s: string) {
    s != "" && forall i :: 0 <= i < |s| ==> IsDigit(s[i])
  }

  function Unsigned(w: string): string {
    if w != "" && (w[0] == '-' || w[0] == '+') then w[1..] else w
  }

  predicate Exponent(s: string) {
    s != "" && (s[0] == 'e' || s[0] == 'E') && AllDigits(Unsigned(s[1..]))
  }

  /** A dot and digits, an exponent, or both */
  predicate FractionOrExponent(s: string) {
    if s != "" && s[0] == '.' then
      var n := WordLength(s[1..], IsDigit);
      n > 0 && (s[1 + n..] == "" || Exponent(s[1 + n..]))
    else Exponent(s)
  }

  /** The form of a float: an optional sign, then inf, nan, or an integer without leading zeros followed by a fraction or
      an exponent.  `str` prints every float in this form. */
  predicate IsFloat(w: string) {
    var u := Unsigned(w);
    var n := WordLength(u, IsDigit);
    || u == "inf" || u == "nan"
    || (n > 0 && (n == 1 || u[0] != '0') && FractionOrExponent(u[n..]))
  }

  /** A float is given by its text, which determines it. */
  type FloatText = w: string | IsFloat(w) witness "nan"

  datatype Value = Bool(b: bool) | Int(n: int) | Float(w: FloatText) | Text(s: string)

  // ----- Printing -----

  /** `s.replace(c, sub)` for a single character `c` */
  function ReplaceChar(s: string, c: char, sub: string): string {
    if s == "" then "" else (if s[0] == c then sub else [s[0]]) + ReplaceChar(s[1..], c, sub)
  }

  /** The two chained replacements of `fmt` */
  function EscapeText(s: string): string {
    ReplaceChar(ReplaceChar(s, '\\', "\\\\"), '"', "\\\"")
  }

  function IntText(n: int): string {
    if n < 0 then "-" + Digits(-n) else Digits(n)
  }

  /** `fmt` */
  function Fmt(v: Value): string {
    match v
    case Bool(b) => if b then "true" else "false"
    case Int(n) => IntText(n)
    case Float(w) => w
    case Text(s) => "\"" + EscapeText(s) + "\""
  }

  // ----- Reading -----

  /** Characters that a basic string may not hold: control characters other than tab */
  predicate Forbidden(c: char) {
    (c as int < 32 && c != '\t') || c as int == 127
  }

  predicate Clean(s: string) {
    forall c :: c in s ==> !Forbidden(c)
  }

  /** What a one-letter escape stands for */
  function Unescaped(c: char): Option<char> {
    match c
    case 'b' => Some(8 as char)
    case 't' => Some('\t')
    case 'n' => Some('\n')
    case 'f' => Some(12 as char)
    case 'r' => Some('\r')
    case '"' => Some('"')
    case '\\' => Some('\\')
    case _ => None
  }

  datatype Taken<T> = Taken(value: T, rest: string)

  /** The rest of a basic string after its opening quote */
  function ReadString(s: string): Option<Taken<string>> {
    if s == "" then None
    else if s[0] == '"' then Some(Taken("", s[1..]))
    else if s[0] == '\\' then
      if |s| < 2 || Unescaped(s[1]).None? then None
      else
        match ReadString(s[2..])
        case None => None
        case Some(t) => Some(Taken([Unescaped(s[1]).value] + t.value, t.rest))
    else if Forbidden(s[0]) then None
    else
      match ReadString(s[1..])
      case None => None
      case Some(t) => Some(Taken([s[0]] + t.value, t.rest))
  }

  predicate BareKeyChar(c: char) {
    'A' <= c <= 'Z' || 'a' <= c <= 'z' || '0' <= c <= '9' || c == '_' || c == '-'
  }

  predicate WordChar(c: char) {
    BareKeyChar(c) || c == '+' || c == '.'
  }

  /** A decimal integer: an optional sign, no leading zeros */
  function ReadInt(w: string): Option<int> {
    var signed := w != "" && (w[0] == '-' || w[0] == '+');
    var digits := if signed then w[1..] else w;
    if |digits| > 1 && digits[0] == '0' then None
    else
      match DigitsValue(digits)
      case None => None
      case Some(n) => Some(if signed && w[0] == '-' then -(n as int) else n)
  }

  function ReadValue(s: string): Option<Taken<Value>> {
    if s == "" then None
    else if s[0] == '"' then
      if |s| >= 3 && s[1] == '"' && s[2] == '"' then None  // a multi-line string
      else
        match ReadString(s[1..])
        case None => None
        case Some(t) => Some(Taken(Text(t.value), t.rest))
    else
      var n := WordLength(s, WordChar);
      var w := s[..n];
      if w == "true" then Some(Taken(Bool(true), s[n..]))
      else if w == "false" then Some(Taken(Bool(false), s[n..]))
      else
        match ReadInt(w)
        case None => if IsFloat(w) then Some(Taken(Float(w), s[n..])) else None
        case Some(i) => Some(Taken(Int(i), s[n..]))
  }

  function SkipBlanks(s: string): string {
    if s != "" && (s[0] == ' ' || s[0] == '\t') then SkipBlanks(s[1..]) else s
  }

  /** Nothing but whitespace and possibly a comment */
  predicate Ends(s: string) {
    var t := SkipBlanks(s);
    t == "" || (t[0] == '#' && Clean(t))
  }

  datatype Line = Blank | Header(name: string) | Item(key: string, value: Value)

  function ReadHeader(s: string): Option<Line> {
    var n := WordLength(s, BareKeyChar);
    if n == 0 || n == |s| || s[n] != ']' || !Ends(s[n + 1..]) then None else Some(Header(s[..n]))
  }

  function ReadItem(s: string): Option<Line> {
    var n := WordLength(s, BareKeyChar);
    var t := SkipBlanks(s[n..]);
    if n == 0 || t == "" || t[0] != '=' then None
    else
      match ReadValue(SkipBlanks(t[1..]))
      case None => None
      case Some(v) => if Ends(v.rest) then Some(Item(s[..n], v.value)) else None
  }

  function ReadLine(line: string): Option<Line> {
    var s := SkipBlanks(line);
    if s == "" || s[0] == '#' then if Ends(s) then Some(Blank) else None
    else if s[0] == '[' then ReadHeader(s[1..])
    else ReadItem(s)
  }

  // ----- Strings -----

  function EscapeChar(c: char): string {
    if c == '\\' then "\\\\" else if c == '"' then "\\\"" else [c]
  }

  function EscapeEach(s: string): string {
    if s == "" then "" else EscapeChar(s[0]) + EscapeEach(s[1..])
  }

  lemma {:induction false} ReplaceOfConcat(a: string, b: string, c: char, sub: string)
    ensures ReplaceChar(a + b, c, sub) == ReplaceChar(a, c, sub) + ReplaceChar(b, c, sub)
  {
    if a == "" {
      assert a + b == b;
    } else {
      ReplaceOfConcat(a[1..], b, c, sub);
      assert (a + b)[1..] == a[1..] + b;
      var first, rest, tail := if a[0] == c then sub else [a[0]], ReplaceChar(a[1..], c, sub), ReplaceChar(b, c, sub);
      assert ReplaceChar(a, c, sub) == first + rest && ReplaceChar(a + b, c, sub) == first + (rest + tail);
      Associate(first, rest, tail);
    }
  }

  /** The two chained replacements escape every character on its own: the second one never meets a character that the
      first one inserted. */
  lemma {:induction false} EscapeIsPerChar(s: string)
    ensures EscapeText(s) == EscapeEach(s)
  {
    if s != "" {
      var c := s[0];
      EscapeIsPerChar(s[1..]);
      var first := if c == '\\' then "\\\\" else [c];
      ReplaceOfConcat(first, ReplaceChar(s[1..], '\\', "\\\\"), '"', "\\\"");
      assert ReplaceChar(first, '"', "\\\"") == EscapeChar(c) by {
        assert first[1..] == if c == '\\' then "\\" else "";
        assert c == '\\' ==> first[1..][1..] == "";
      }
    }
  }

  /** Reading a printed string gives the string back. */
  lemma {:induction false} ReadEscaped(s: string, rest: string)
    requires Clean(s)
    ensures ReadString(EscapeEach(s) + "\"" + rest) == Some(Taken(s, rest))
  {
    hide ReadString, EscapeChar, Forbidden;
    if s == "" {
      assert EscapeEach(s) + "\"" + rest == "\"" + rest;
      ReadQuote(rest);
    } else {
      ReadEscaped(s[1..], rest);
      var tail := EscapeEach(s[1..]) + "\"" + rest;
      var all := EscapeEach(s) + "\"" + rest;
      assert all == EscapeChar(s[0]) + tail;
      assert s[0] in s && s == [s[0]] + s[1..];
      ReadEscapedChar(s[0], tail);
    }
  }

  lemma ReadQuote(rest: string)
    ensures ReadString("\"" + rest) == Some(Taken("", rest))
  {
    assert ("\"" + rest)[1..] == rest;
  }

  lemma ReadEscapedChar(c: char, tail: string)
    requires !Forbidden(c)
    ensures ReadString(EscapeChar(c) + tail) ==
            match ReadString(tail)
            case None => None
            case Some(t) => Some(Taken([c] + t.value, t.rest))
  {
    var all := EscapeChar(c) + tail;
    if c == '\\' || c == '"' {
      assert all[2..] == tail;
    } else {
      assert all[1..] == tail;
    }
  }

  /** A printed string that is cut off, or goes on with a forbidden character, cannot be read. */
  lemma {:induction false} ReadCut(s: string, rest: string)
    requires Clean(s) && (rest == "" || Forbidden(rest[0]))
    ensures ReadString(EscapeEach(s) + rest) == None
  {
    if s == "" {
      assert EscapeEach(s) + rest == rest;
    } else {
      ReadCut(s[1..], rest);
      assert EscapeEach(s) + rest == EscapeChar(s[0]) + (EscapeEach(s[1..]) + rest);
      assert s[0] in s && s == [s[0]] + s[1..];
      ReadEscapedChar(s[0], EscapeEach(s[1..]) + rest);
    }
  }

  lemma {:induction false} EscapeOfConcat(a: string, b: string)
    ensures EscapeEach(a + b) == EscapeEach(a) + EscapeEach(b)
  {
    hide EscapeChar;
    if a == "" {
      assert a + b == b;
    } else {
      EscapeOfConcat(a[1..], b);
      assert (a + b)[1..] == a[1..] + b;
      Associate(EscapeChar(a[0]), EscapeEach(a[1..]), EscapeEach(b));
    }
  }

  lemma {:induction false} EscapedChars(s: string)
    requires Clean(s)
    ensures '\n' !in EscapeEach(s)
  {
    if s != "" {
      assert s[0] in s && s == [s[0]] + s[1..];
      EscapedChars(s[1..]);
    }
  }

  // ----- Values -----

  lemma IntRoundTrip(n: int)
    ensures ReadInt(IntText(n)) == Some(n)
    ensures IntText(n) != "" && forall i :: 0 <= i < |IntText(n)| ==> IsDigit(IntText(n)[i]) || IntText(n)[i] == '-'
  {
    var m := if n < 0 then -n else n;
    assert Digits(0) == "0";
    hide Digits, DigitsValue;
    DigitsRoundTrip(m);
    NoLeadingZero(m);
    if n < 0 {
      assert IntText(n)[1..] == Digits(m);
    }
  }

  predicate Printable(v: Value) {
    v.Text? ==> Clean(v.s)
  }

  /** Reading a printed value gives the value back, if a text in it holds no forbidden character. */
  lemma ReadPrinted(v: Value)
    requires Printable(v)
    ensures ReadValue(Fmt(v)) == Some(Taken(v, ""))
    ensures Fmt(v) != "" && Fmt(v)[0] != ' ' && Fmt(v)[0] != '\t' && '\n' !in Fmt(v)
  {
    hide ReadString, ReadInt, EscapeText, IntText;
    match v
    case Bool(b) =>
      WholeWord(Fmt(v), WordChar);
      assert Fmt(v)[..|Fmt(v)|] == Fmt(v);
    case Int(n) =>
      ReadPrintedInt(n);
    case Float(w) =>
      ReadPrintedFloat(w);
    case Text(s) =>
      ReadPrintedText(s);
  }

  lemma ReadPrintedInt(n: int)
    ensures ReadValue(IntText(n)) == Some(Taken(Int(n), ""))
    ensures IntText(n) != "" && IntText(n)[0] != ' ' && IntText(n)[0] != '\t' && '\n' !in IntText(n)
  {
    hide ReadInt, IntText, ReadString;
    var w := IntText(n);
    IntRoundTrip(n);
    WholeWord(w, WordChar);
    assert w[..|w|] == w && w[|w|..] == "";
    assert IsDigit(w[0]) || w[0] == '-';
    assert "true"[0] == 't' && "false"[0] == 'f';
  }

  // A float is not read as an integer, since it has a character that integers lack.

  lemma {:induction false} NotDigits(s: string, i: nat)
    requires i < |s| && !IsDigit(s[i]) && s[i] != '_'
    ensures DigitsValue(s) == None
  {
    if i < |s| - 1 {
      var front := s[..|s| - 1];
      var rest := if front[|front| - 1] == '_' then front[..|front| - 1] else front;
      assert rest[i] == s[i];
      NotDigits(rest, i);
    }
  }

  lemma FloatChars(w: string)
    requires IsFloat(w)
    ensures forall i :: 0 <= i < |w| ==> WordChar(w[i])
    ensures var u := Unsigned(w);
            u != "" && exists i :: 0 <= i < |u| && !IsDigit(u[i]) && u[i] != '_'
    ensures w != "true" && w != "false"
  {
    var u := Unsigned(w);
    var n := WordLength(u, IsDigit);
    if u == "inf" || u == "nan" {
      assert !IsDigit(u[0]) && u[0] != '_';
    } else {
      FractionChars(u[n..]);
      assert u[n] == u[n..][0];
      assert u == u[..n] + u[n..];
    }
  }

  lemma FractionChars(s: string)
    requires FractionOrExponent(s)
    ensures s != "" && (s[0] == '.' || s[0] == 'e' || s[0] == 'E')
    ensures forall i :: 0 <= i < |s| ==> WordChar(s[i])
  {
    if s[0] == '.' {
      var n := WordLength(s[1..], IsDigit);
      var rest := s[1 + n..];
      if rest != "" {
        ExponentChars(rest);
      }
      assert s == "." + s[1..][..n] + rest;
    } else {
      ExponentChars(s);
    }
  }

  lemma ExponentChars(s: string)
    requires Exponent(s)
    ensures forall i :: 0 <= i < |s| ==> WordChar(s[i])
  {
    var t := s[1..];
    assert s == [s[0]] + t;
    assert t == Unsigned(t) || t == [t[0]] + Unsigned(t);
  }

  lemma FloatIsNotInt(w: FloatText)
    ensures ReadInt(w) == None
  {
    FloatChars(w);
    hide IsFloat, WordChar;
    var u := Unsigned(w);
    var i :| 0 <= i < |u| && !IsDigit(u[i]) && u[i] != '_';
    NotDigits(u, i);
    hide DigitsValue;
  }

  lemma ReadPrintedFloat(w: FloatText)
    ensures ReadValue(w) == Some(Taken(Float(w), ""))
    ensures w != "" && w[0] != ' ' && w[0] != '\t' && '\n' !in w
  {
    FloatChars(w);
    FloatIsNotInt(w);
    assert WordChar(w[0]);
    assert w[0] != '"' && w[0] != ' ' && w[0] != '\t' && '\n' !in w;
    WholeWord(w, WordChar);
    assert w[..|w|] == w && w[|w|..] == "";
    hide IsFloat, ReadString, ReadInt, WordChar, WordLength, Unsigned;
  }

  lemma ReadPrintedText(s: string)
    requires Clean(s)
    ensures ReadValue(Fmt(Text(s))) == Some(Taken(Text(s), ""))
    ensures '\n' !in Fmt(Text(s))
  {
    hide ReadString, EscapeText;
    EscapeIsPerChar(s);
    EscapedChars(s);
    ReadEscaped(s, "");
    var f := Fmt(Text(s));
    assert f[1..] == EscapeEach(s) + "\"" + "";
    if |f| >= 3 {
      FirstEscaped(s);
    }
  }

  lemma FirstEscaped(s: string)
    ensures s != "" ==> EscapeEach(s) != "" && EscapeEach(s)[0] != '"'
  {
  }

  /** The codes of the control characters that a basic string may not hold */
  const CONTROLS: set<int> :=
    {0, 1, 2, 3, 4, 5, 6, 7, 8, 10, 11, 12, 13, 14, 15, 16, 17, 18, 19, 20, 21, 22, 23, 24, 25, 26, 27, 28, 29, 30, 31, 127}

  lemma ForbiddenIs(c: char)
    ensures Forbidden(c) <==> c as int in CONTROLS
  {
  }

  /** How strings are escaped: part by part, a backslash and a quote with a backslash before them, anything else as it
      is. */
  lemma EscapePartByPart(a: string, b: string, c: char)
    ensures EscapeText(a + b) == EscapeText(a) + EscapeText(b)
    ensures EscapeText([c]) == if c == '\\' || c == '"' then ['\\', c] else [c]
  {
    EscapeIsPerChar(a);
    EscapeIsPerChar(b);
    EscapeIsPerChar(a + b);
    EscapeIsPerChar([c]);
    hide EscapeText;
    EscapeOfConcat(a, b);
    assert [c][1..] == [];
  }

  /** The two literals of booleans */
  lemma ReadBooleans()
    ensures ReadValue("true") == Some(Taken(Bool(true), "")) && ReadValue("false") == Some(Taken(Bool(false), ""))
  {
    WholeWord("true", WordChar);
    WholeWord("false", WordChar);
    hide ReadInt, ReadString, IsFloat, WordLength;
    assert "true"[..4] == "true" && "false"[..5] == "false";
  }

  /** Integers are printed in decimal. */
  lemma IntIsDecimal(n: int, d: int)
    requires 0 <= d < 10
    ensures IntText(d) == ["0123456789"[d]]
    ensures n > 0 ==> IntText(10 * n + d) == IntText(n) + IntText(d) && IntText(-n) == "-" + IntText(n)
  {
    assert n > 0 ==> (10 * n + d) / 10 == n && (10 * n + d) % 10 == d;
  }

  /** Where the first forbidden character of a text is */
  function ForbiddenAt(s: string): (i: nat)
    requires !Clean(s)
    ensures i < |s| && Forbidden(s[i]) && Clean(s[..i])
  {
    if Forbidden(s[0]) then 0
    else
      assert s == [s[0]] + s[1..];
      var i := ForbiddenAt(s[1..]);
      assert s[..i + 1] == [s[0]] + s[1..][..i];
      i + 1
  }
}
