/** Points in time, as `datetime.isoformat` prints them and `datetime.fromisoformat` reads them back (the extended
    format of ISO 8601, with microseconds and a UTC offset if there are any). */
module IsoTime {
  import opened Basics
  import opened Numbers

  /** `offset` is the UTC offset in seconds; a naive time has none. */
  datatype Fields = Fields(
    year: nat, month: nat, day: nat, hour: nat, minute: nat, second: nat, micro: nat, offset: Option<int>)

  predicate LeapYear(year: nat) {
    year % 4 == 0 && (year % 100 != 0 || year % 400 == 0)
  }

  function DaysIn(year: nat, month: nat): nat {
    if month == 2 then if LeapYear(year) then 29 else 28
    else if month == 4 || month == 6 || month == 9 || month == 11 then 30
    else 31
  }

  predicate ValidFields(t: Fields) {
    && 1 <= t.year <= 9999 && 1 <= t.month <= 12 && 1 <= t.day <= DaysIn(t.year, t.month)
    && t.hour < 24 && t.minute < 60 && t.second < 60 && t.micro < 1_000_000
    && (t.offset.Some? ==> -86400 < t.offset.value < 86400)
  }

  type Time = t: Fields | ValidFields(t) witness Fields(1, 1, 1, 0, 0, 0, 0, None)

  // ----- Printing -----

  /** The last `w` decimal digits of `n` */
  function Fixed(n: nat, w: nat): (s: string)
    ensures |s| == w && forall i :: 0 <= i < w ==> IsDigit(s[i])
  {
    if w == 0 then "" else Fixed(n / 10, w - 1) + [('0' as int + n % 10) as char]
  }

  /** A separator and a number of fixed width, before the rest of the text */
  function Field(sep: string, n: nat, w: nat, rest: string): string {
    sep + Fixed(n, w) + rest
  }

  function OffsetText(offset: Option<int>): string {
    if offset.None? then ""
    else
      var seconds: nat := if offset.value < 0 then -offset.value else offset.value;
      Field(if offset.value < 0 then "-" else "+", seconds / 3600, 2,
            Field(":", seconds / 60 % 60, 2, if seconds % 60 == 0 then "" else Field(":", seconds % 60, 2, "")))
  }

  function MicroText(micro: nat, rest: string): string {
    if micro == 0 then rest else Field(".", micro, 6, rest)
  }

  /** `t.isoformat()` */
  function Iso(t: Time): string {
    Field("", t.year, 4, Field("-", t.month, 2, Field("-", t.day, 2,
    Field("T", t.hour, 2, Field(":", t.minute, 2, Field(":", t.second, 2,
    MicroText(t.micro, OffsetText(t.offset))))))))
  }

  // ----- Reading -----

  function FixedValue(s: string): Option<nat> {
    if s == "" then Some(0)
    else
      var front :- FixedValue(s[..|s| - 1]);
      if IsDigit(s[|s| - 1]) then Some(10 * front + (s[|s| - 1] as int - '0' as int)) else None
  }

  /** The number in a field, and the text after the field */
  function ReadField(sep: string, s: string, w: nat): Option<(nat, string)> {
    var end := |sep| + w;
    if |s| < end || s[..|sep|] != sep then None
    else
      var n :- FixedValue(s[|sep|..end]);
      Some((n, s[end..]))
  }

  predicate StartsWith(s: string, c: char) {
    s != "" && s[0] == c
  }

  function ReadMicro(s: string): Option<(nat, string)> {
    if StartsWith(s, '.') then ReadField(".", s, 6) else Some((0, s))
  }

  function ReadOffset(s: string): Option<Option<int>> {
    if s == "" then Some(None)
    else
      var hours :- ReadField(if StartsWith(s, '-') then "-" else "+", s, 2);
      var minutes :- ReadField(":", hours.1, 2);
      var seconds :- if minutes.1 == "" then Some((0, "")) else ReadField(":", minutes.1, 2);
      var total := hours.0 * 3600 + minutes.0 * 60 + seconds.0;
      if minutes.0 >= 60 || seconds.0 >= 60 || seconds.1 != "" then None
      else Some(Some(if StartsWith(s, '-') then -total else total))
  }

  /** `datetime.fromisoformat(s)`; None stands for the ValueError. */
  function ReadIso(s: string): Option<Time> {
    var year :- ReadField("", s, 4);
    var month :- ReadField("-", year.1, 2);
    var day :- ReadField("-", month.1, 2);
    var hour :- ReadField("T", day.1, 2);
    var minute :- ReadField(":", hour.1, 2);
    var second :- ReadField(":", minute.1, 2);
    var micro :- ReadMicro(second.1);
    var offset :- ReadOffset(micro.1);
    var t := Fields(year.0, month.0, day.0, hour.0, minute.0, second.0, micro.0, offset);
    if ValidFields(t) then Some(t) else None
  }

  // ----- Reading what was printed -----

  function Pow10(w: nat): nat {
    if w == 0 then 1 else 10 * Pow10(w - 1)
  }

  lemma {:induction false} FixedRoundTrip(n: nat, w: nat)
    requires n < Pow10(w)
    ensures FixedValue(Fixed(n, w)) == Some(n)
  {
    if w > 0 {
      FixedRoundTrip(n / 10, w - 1);
      assert Fixed(n, w)[..w - 1] == Fixed(n / 10, w - 1);
    }
  }

  lemma FieldRoundTrip(sep: string, n: nat, w: nat, rest: string)
    requires n < Pow10(w)
    ensures ReadField(sep, Field(sep, n, w, rest), w) == Some((n, rest))
  {
    hide Pow10, Fixed, FixedValue;
    FixedRoundTrip(n, w);
    var s := Field(sep, n, w, rest);
    assert s[..|sep|] == sep && s[|sep|..|sep| + w] == Fixed(n, w) && s[|sep| + w..] == rest;
  }

  lemma Widths()
    ensures Pow10(2) == 100 && Pow10(4) == 10_000 && Pow10(6) == 1_000_000
  {
    assert Pow10(3) == 10 * Pow10(2);
    assert Pow10(5) == 10 * Pow10(4);
  }

  lemma Sexagesimal(n: nat)
    ensures n / 3600 * 3600 + n / 60 % 60 * 60 + n % 60 == n
  {
    assert n / 60 / 60 == n / 3600;
    assert n / 60 == n / 3600 * 60 + n / 60 % 60;
  }

  lemma FieldStarts(sep: string, n: nat, w: nat, rest: string)
    requires sep != ""
    ensures Field(sep, n, w, rest) != "" && Field(sep, n, w, rest)[0] == sep[0]
  {
  }

  lemma OffsetRoundTrip(offset: Option<int>)
    requires offset.Some? ==> -86400 < offset.value < 86400
    ensures ReadOffset(OffsetText(offset)) == Some(offset)
    ensures !StartsWith(OffsetText(offset), '.')
  {
    hide Pow10, Fixed, Field, ReadField;
    if offset.Some? {
      var seconds: nat := if offset.value < 0 then -offset.value else offset.value;
      var sign := if offset.value < 0 then "-" else "+";
      var h, m, s := seconds / 3600, seconds / 60 % 60, seconds % 60;
      Widths();
      Sexagesimal(seconds);
      var last := if s == 0 then "" else Field(":", s, 2, "");
      var minutes := Field(":", m, 2, last);
      FieldStarts(":", s, 2, "");
      FieldStarts(sign, h, 2, minutes);
      FieldRoundTrip(sign, h, 2, minutes);
      FieldRoundTrip(":", m, 2, last);
      FieldRoundTrip(":", s, 2, "");
    }
  }

  lemma MicroRoundTrip(micro: nat, rest: string)
    requires micro < 1_000_000 && !StartsWith(rest, '.')
    ensures ReadMicro(MicroText(micro, rest)) == Some((micro, rest))
  {
    Widths();
    if micro > 0 {
      assert Field(".", micro, 6, rest)[0] == '.';
      hide Field, ReadField, Pow10, Fixed;
      FieldRoundTrip(".", micro, 6, rest);
    }
  }

  /** Reading a printed time gives the time back. */
  lemma IsoRoundTrip(t: Time)
    ensures ReadIso(Iso(t)) == Some(t)
    ensures Iso(t) != ""
  {
    Widths();
    hide Pow10, Fixed, ReadField, ReadMicro, MicroText, ReadOffset, OffsetText;
    assert Iso(t) != "";
    hide Field;
    OffsetRoundTrip(t.offset);
    var end := MicroText(t.micro, OffsetText(t.offset));
    MicroRoundTrip(t.micro, OffsetText(t.offset));
    var second := Field(":", t.second, 2, end);
    var minute := Field(":", t.minute, 2, second);
    var hour := Field("T", t.hour, 2, minute);
    var day := Field("-", t.day, 2, hour);
    var month := Field("-", t.month, 2, day);
    FieldRoundTrip("", t.year, 4, month);
    FieldRoundTrip("-", t.month, 2, day);
    FieldRoundTrip("-", t.day, 2, hour);
    FieldRoundTrip("T", t.hour, 2, minute);
    FieldRoundTrip(":", t.minute, 2, second);
    FieldRoundTrip(":", t.second, 2, end);
  }

  /** Numbers of fixed width are decimal: the last digit is that of the number, the others those of its tenth part. */
  lemma FixedIsDecimal(n: nat, w: nat)
    requires w > 0
    ensures Fixed(n, w) == Fixed(n / 10, w - 1) + ["0123456789"[n % 10]]
  {
  }

  lemma FieldParts(sep: string, n: nat, w: nat, rest: string)
    ensures |Field(sep, n, w, rest)| == |sep| + w + |rest|
    ensures Field(sep, n, w, rest)[..|sep|] == sep
    ensures Field(sep, n, w, rest)[|sep|..|sep| + w] == Fixed(n, w)
    ensures Field(sep, n, w, rest)[|sep| + w..] == rest
  {
    hide Fixed;
  }

  /** `s` from `i` on is a separator, a number of fixed width and the rest. */
  ghost predicate PartAt(s: string, i: nat, sep: char, n: nat, w: nat) {
    i + 1 + w <= |s| && s[i] == sep && s[i + 1..i + 1 + w] == Fixed(n, w)
  }

  lemma PartOf(before: string, sep: char, n: nat, w: nat, rest: string)
    ensures PartAt(before + Field([sep], n, w, rest), |before|, sep, n, w)
    ensures before + Field([sep], n, w, rest) == before + [sep] + Fixed(n, w) + rest
  {
    hide Fixed;
    var s := before + Field([sep], n, w, rest);
    assert s == before + [sep] + Fixed(n, w) + rest;
    assert s[|before| + 1..|before| + 1 + w] == Fixed(n, w);
  }

  /** The printed form: year, month and day with `-` between them, `T`, hour, minute and second with `:` between them,
      and after these 19 characters a point and the microseconds, if there are any, and the offset. */
  lemma IsoForm(t: Time)
    ensures var s := Iso(t);
            && |s| >= 19 && s[..4] == Fixed(t.year, 4)
            && PartAt(s, 4, '-', t.month, 2) && PartAt(s, 7, '-', t.day, 2) && PartAt(s, 10, 'T', t.hour, 2)
            && PartAt(s, 13, ':', t.minute, 2) && PartAt(s, 16, ':', t.second, 2)
            && s[19..] == (if t.micro == 0 then "" else "." + Fixed(t.micro, 6)) + OffsetText(t.offset)
  {
    hide Fixed, OffsetText, Field, MicroText, PartAt;
    MicroForm(t.micro, OffsetText(t.offset));
    var end := MicroText(t.micro, OffsetText(t.offset));
    var second := Field(":", t.second, 2, end);
    var minute := Field(":", t.minute, 2, second);
    var hour := Field("T", t.hour, 2, minute);
    var day := Field("-", t.day, 2, hour);
    var month := Field("-", t.month, 2, day);
    var a := Fixed(t.year, 4);
    FieldParts("", t.year, 4, month);
    var s := Iso(t);
    assert s == a + month;
    PartOf(a, '-', t.month, 2, day);
    var b := a + ['-'] + Fixed(t.month, 2);
    PartOf(b, '-', t.day, 2, hour);
    var c := b + ['-'] + Fixed(t.day, 2);
    PartOf(c, 'T', t.hour, 2, minute);
    var d := c + ['T'] + Fixed(t.hour, 2);
    PartOf(d, ':', t.minute, 2, second);
    var e := d + [':'] + Fixed(t.minute, 2);
    PartOf(e, ':', t.second, 2, end);
  }

  lemma MicroForm(micro: nat, rest: string)
    ensures MicroText(micro, rest) == (if micro == 0 then "" else "." + Fixed(micro, 6)) + rest
  {
    hide Fixed;
    assert "" + rest == rest;
  }

  lemma OffsetForm(offset: Option<int>)
    ensures offset.None? ==> OffsetText(offset) == ""
    ensures offset.Some? ==>
              var n: nat := if offset.value < 0 then -offset.value else offset.value;
              OffsetText(offset) ==
              (if offset.value < 0 then "-" else "+") + Fixed(n / 3600, 2) + (":" + Fixed(n / 60 % 60, 2)
              + (if n % 60 == 0 then "" else ":" + Fixed(n % 60, 2) + ""))
  {
    hide Fixed;
  }
}
