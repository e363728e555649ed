/** The two regular expressions of the Liquid escaper as leftmost, first-closing scans. */
module LiquidScanner {
  import opened Text

  const RAW_OPEN := "{% raw %}"
  const RAW_CLOSE := "{% endraw %}"

  /** The end of the first two-character closer `a}` that starts at index `i` or later; 0 if there is none. */
  function CloserEnd(s: string, i: nat, a: char): (r: nat)
    ensures r > 0 ==> i + 2 <= r <= |s| && s[r - 2] == a && s[r - 1] == '}'
    ensures forall k :: i <= k && k + 1 < |s| && (r == 0 || k < r - 2) ==> !(s[k] == a && s[k + 1] == '}')
    decreases |s| - i
  {
    if i + 1 >= |s| then 0
    else if s[i] == a && s[i + 1] == '}' then i + 2
    else CloserEnd(s, i + 1, a)
  }

  /** The length of the Liquid token that starts at index 0 of `s` (`{{` up to the first `}}`, or `{%` up to the
      first `%}`); 0 if none starts there. */
  function TokenLength(s: string): nat {
    if |s| < 2 || s[0] != '{' then 0
    else if s[1] == '{' then CloserEnd(s, 2, '}')
    else if s[1] == '%' then CloserEnd(s, 2, '%')
    else 0
  }

  predicate IsToken(t: string) {
    t != "" && TokenLength(t) == |t|
  }

  /** What the escaper looks at to tell the raw tags from other tokens. */
  function TrimmedBody(t: string): string
    requires |t| >= 4
  {
    Strip(t[2..|t| - 2])
  }

  predicate IsRawWord(w: string) {
    w == "raw" || w == "endraw"
  }

  /** The length of a `{% word %}` tag, whitespace around the word being optional, at index 0 of `s`; 0 if there
      is none.  A tag of this shape holds no `%` inside, so the first `%}` ends it. */
  function TagLength(s: string, word: string): nat {
    var n := TokenLength(s);
    if n > 0 && s[1] == '%' && TrimmedBody(s[..n]) == word then n else 0
  }

  /** The start of the first endraw tag in `s`; |s| if there is none. */
  function EndrawAt(s: string): (i: nat)
    ensures i <= |s|
  {
    if s == "" || TagLength(s, "endraw") > 0 then 0 else 1 + EndrawAt(s[1..])
  }

  predicate HasEndraw(s: string) {
    EndrawAt(s) < |s|
  }

  /** The index just after the first endraw tag in `s`. */
  function EndrawEnd(s: string): (k: nat)
    requires HasEndraw(s)
    ensures EndrawAt(s) <= k <= |s|
  {
    EndrawAt(s) + TagLength(s[EndrawAt(s)..], "endraw")
  }

  /** The length of the raw span, from a raw tag through the first endraw tag after it, at index 0 of `s`;
      0 if there is none. */
  function RawSpanLength(s: string): (r: nat)
    ensures r <= |s|
  {
    var n := TagLength(s, "raw");
    if n > 0 && HasEndraw(s[n..]) then n + EndrawEnd(s[n..]) else 0
  }

  /** The start of the first raw span in `s`; |s| if there is none. */
  function NextRaw(s: string): (i: nat)
    ensures i <= |s|
  {
    if s == "" || RawSpanLength(s) > 0 then 0 else 1 + NextRaw(s[1..])
  }

  // ----- The two searches find the first match -----

  lemma {:induction false} EndrawFirst(s: string)
    ensures forall j :: 0 <= j < EndrawAt(s) ==> TagLength(s[j..], "endraw") == 0
    ensures HasEndraw(s) ==> TagLength(s[EndrawAt(s)..], "endraw") > 0
  {
    hide TagLength;
    if s != "" {
      assert s[0..] == s;
      if TagLength(s, "endraw") == 0 {
        EndrawFirst(s[1..]);
        assert forall j :: 1 <= j <= |s| ==> s[j..] == s[1..][j - 1..];
      }
    }
  }

  lemma {:induction false} EndrawIs(s: string, i: nat)
    requires i <= |s|
    requires forall j :: 0 <= j < i ==> TagLength(s[j..], "endraw") == 0
    requires i < |s| ==> TagLength(s[i..], "endraw") > 0
    ensures EndrawAt(s) == i
  {
    EndrawFirst(s);
  }

  lemma {:induction false} NextRawFirst(s: string)
    ensures forall j :: 0 <= j < NextRaw(s) ==> RawSpanLength(s[j..]) == 0
    ensures NextRaw(s) < |s| ==> RawSpanLength(s[NextRaw(s)..]) > 0
  {
    hide RawSpanLength;
    if s != "" {
      assert s[0..] == s;
      if RawSpanLength(s) == 0 {
        NextRawFirst(s[1..]);
        assert forall j :: 1 <= j <= |s| ==> s[j..] == s[1..][j - 1..];
      }
    }
  }

  // ----- Locality: a match depends only on the characters it covers -----

  lemma TokenPrefix(s: string, s2: string)
    requires 0 < TokenLength(s) <= |s2|
    requires s[..TokenLength(s)] == s2[..TokenLength(s)]
    ensures TokenLength(s2) == TokenLength(s)
  {
    var n := TokenLength(s);
    assert forall k :: 0 <= k < n ==> s[k] == s[..n][k] == s2[k];
  }

  lemma TagPrefix(s: string, s2: string, word: string)
    requires 0 < TagLength(s, word) <= |s2|
    requires s[..TagLength(s, word)] == s2[..TagLength(s, word)]
    ensures TagLength(s2, word) == TagLength(s, word)
  {
    TokenPrefix(s, s2);
    var n := TokenLength(s);
    assert s[1] == s[..n][1] == s2[1];
  }

  /** Braces occur only at the two ends of a raw or endraw tag. */
  lemma TagBraces(s: string, word: string)
    requires TagLength(s, word) > 0 && IsRawWord(word)
    ensures s[0] == '{'
    ensures forall k :: 1 <= k < TagLength(s, word) ==> s[k] != '{'
    ensures forall k :: 0 <= k < TagLength(s, word) - 1 ==> s[k] != '}'
  {
    var n := TagLength(s, word);
    WordBody(s[..n]);
  }

  /** The body of a token whose trimmed body is raw or endraw holds only whitespace and letters of the word. */
  lemma WordBody(t: string)
    requires |t| >= 4 && IsRawWord(TrimmedBody(t))
    ensures forall k :: 2 <= k < |t| - 2 ==> t[k] != '{' && t[k] != '}' && t[k] != '%'
    ensures |t| >= 7
  {
    var body := t[2..|t| - 2];
    var left, right := StripShape(body);
    forall k | 2 <= k < |t| - 2
      ensures t[k] != '{' && t[k] != '}' && t[k] != '%'
    {
      assert t[k] == body[k - 2];
      assert body[k - 2] in left || body[k - 2] in Strip(body) || body[k - 2] in right;
    }
  }

  ghost function TagText(left: string, word: string, right: string): string {
    "{%" + left + word + right + "%}"
  }

  /** What the scan accepts matches the regular expression: `{%`, whitespace, the word, whitespace, `%}`. */
  lemma TagMatchesRegex(s: string, word: string) returns (left: string, right: string)
    requires TagLength(s, word) > 0
    ensures AllSpace(left) && AllSpace(right) && s[..TagLength(s, word)] == TagText(left, word, right)
  {
    var t := s[..TagLength(s, word)];
    left, right := StripShape(t[2..|t| - 2]);
    assert t == "{%" + t[2..|t| - 2] + "%}";
  }

  /** And everything that matches the regular expression is accepted by the scan. */
  lemma RegexMatchesTag(left: string, word: string, right: string, rest: string)
    requires IsRawWord(word) && AllSpace(left) && AllSpace(right)
    ensures TagLength(TagText(left, word, right) + rest, word) == |TagText(left, word, right)|
  {
    var t := TagText(left, word, right);
    TagTextBody(left, word, right);
    hide TagText, Strip, AllSpace, TokenLength;
    WordBody(t);
    TokenOfTag(t, rest);
    assert (t + rest)[..|t|] == t && (t + rest)[1] == t[1];
  }

  lemma TagTextBody(left: string, word: string, right: string)
    requires IsRawWord(word) && AllSpace(left) && AllSpace(right)
    ensures var t := TagText(left, word, right);
            && |t| >= 4 && t[0] == '{' && t[1] == '%' && t[|t| - 2] == '%' && t[|t| - 1] == '}'
            && TrimmedBody(t) == word
  {
    hide AllSpace, Strip, IsSpace;
    var t := TagText(left, word, right);
    assert t[2..|t| - 2] == left + word + right;
    LettersAreNoSpace();
    StripOf(left, word, right);
  }

  lemma LettersAreNoSpace()
    ensures !IsSpace('r') && !IsSpace('e') && !IsSpace('w')
  {
  }

  lemma TokenOfTag(t: string, rest: string)
    requires |t| >= 4 && t[0] == '{' && t[1] == '%' && t[|t| - 2] == '%' && t[|t| - 1] == '}'
    requires forall k :: 2 <= k < |t| - 2 ==> t[k] != '%'
    ensures TokenLength(t + rest) == |t|
  {
    var s, n := t + rest, |t|;
    assert s[n - 2] == '%' && s[n - 1] == '}' && forall k :: 2 <= k < n - 2 ==> s[k] == t[k];
    assert CloserEnd(s, 2, '%') == n;
  }

  lemma Slices(s: string, s2: string, m: nat, k: nat)
    requires k <= m <= |s| && m <= |s2| && s[..m] == s2[..m]
    ensures s[..k] == s2[..k] && s[k..][..m - k] == s2[k..][..m - k]
    ensures forall j :: 0 <= j < m ==> s[j] == s2[j]
  {
    assert forall j :: 0 <= j < m ==> s[j] == s[..m][j] == s2[j];
  }

  /** A tag cannot run across an opening brace. */
  lemma TagStopsAtBrace(s: string, word: string, k: nat)
    requires IsRawWord(word) && 1 <= k < |s| && s[k] == '{'
    ensures TagLength(s, word) <= k
  {
    if TagLength(s, word) > 0 {
      TagBraces(s, word);
    }
  }

  /** No endraw tag starts earlier in `s2` than in `s`, if the two agree up to the end of the first one in `s`. */
  lemma NoEarlierEndraw(s: string, s2: string, j: nat)
    requires HasEndraw(s) && EndrawEnd(s) <= |s2|
    requires s[..EndrawEnd(s)] == s2[..EndrawEnd(s)]
    requires j < EndrawAt(s)
    ensures TagLength(s2[j..], "endraw") == 0
  {
    hide TagLength, EndrawAt;
    EndrawFirst(s);
    var i, e := EndrawAt(s), EndrawEnd(s);
    Slices(s, s2, e, j);
    TagBraces(s[i..], "endraw");
    assert s2[j..][i - j] == s2[i] == s[i] == s[i..][0];
    TagStopsAtBrace(s2[j..], "endraw", i - j);
    var n := TagLength(s2[j..], "endraw");
    if n > 0 {
      Slices(s2[j..], s[j..], e - j, n);
      TagPrefix(s2[j..], s[j..], "endraw");
    }
  }

  /** The first endraw tag is found from the characters up to its end alone. */
  lemma EndrawPrefix(s: string, s2: string)
    requires HasEndraw(s) && EndrawEnd(s) <= |s2|
    requires s[..EndrawEnd(s)] == s2[..EndrawEnd(s)]
    ensures HasEndraw(s2) && EndrawAt(s2) == EndrawAt(s) && EndrawEnd(s2) == EndrawEnd(s)
  {
    hide TagLength, EndrawAt;
    var i, e := EndrawAt(s), EndrawEnd(s);
    EndrawFirst(s);
    Slices(s, s2, e, i);
    TagPrefix(s[i..], s2[i..], "endraw");
    forall j | 0 <= j < i
      ensures TagLength(s2[j..], "endraw") == 0
    {
      NoEarlierEndraw(s, s2, j);
    }
    EndrawIs(s2, i);
  }

  // ----- The patterns, in their own terms -----

  /** `s` starts with a brace and `a`, and `n` is the end of the first `b` with a closing brace after that. */
  ghost predicate FirstMatch(s: string, a: char, b: char, n: nat) {
    && 4 <= n <= |s| && s[0] == '{' && s[1] == a && s[n - 2] == b && s[n - 1] == '}'
    && forall k :: 2 <= k < n - 2 ==> !(s[k] == b && s[k + 1] == '}')
  }

  /** The token pattern: a token found is the shortest match of one of the two alternatives, and every such match is
      found. */
  lemma TokenIsFirstMatch(s: string)
    ensures TokenLength(s) > 0 ==> FirstMatch(s, '{', '}', TokenLength(s)) || FirstMatch(s, '%', '%', TokenLength(s))
    ensures forall n: nat :: FirstMatch(s, '{', '}', n) || FirstMatch(s, '%', '%', n) ==> TokenLength(s) == n
  {
  }

  /** A raw span is a match of the span pattern, and no endraw tag starts earlier after its raw tag. */
  lemma SpanMatchesRegex(s: string) returns (l: string, r: string, body: string, l2: string, r2: string)
    requires RawSpanLength(s) > 0
    ensures AllSpace(l) && AllSpace(r) && AllSpace(l2) && AllSpace(r2)
    ensures s[..RawSpanLength(s)] == TagText(l, "raw", r) + body + TagText(l2, "endraw", r2)
    ensures |TagText(l, "raw", r)| <= |s|
    ensures forall j, x, y | 0 <= j < |body| && AllSpace(x) && AllSpace(y)
              :: !(TagText(x, "endraw", y) <= s[|TagText(l, "raw", r)|..][j..])
  {
    hide TagLength, TagText, EndrawAt;
    l, r := TagMatchesRegex(s, "raw");
    var n := TagLength(s, "raw");
    var after := s[n..];
    EndrawFirst(after);
    var i := EndrawAt(after);
    l2, r2 := TagMatchesRegex(after[i..], "endraw");
    body := after[..i];
    ThreeSlices(s, n, i, TagLength(after[i..], "endraw"));
    forall j, x, y | 0 <= j < |body| && AllSpace(x) && AllSpace(y)
      ensures !(TagText(x, "endraw", y) <= after[j..])
    {
      if TagText(x, "endraw", y) <= after[j..] {
        TextIsTag(after[j..], x, y);
      }
    }
  }

  lemma ThreeSlices(s: string, n: nat, i: nat, m: nat)
    requires n + i + m <= |s|
    ensures s[..n + i + m] == s[..n] + s[n..][..i] + s[n..][i..][..m] && |s[..n]| == n
  {
  }

  lemma TextIsTag(s: string, x: string, y: string)
    requires AllSpace(x) && AllSpace(y) && TagText(x, "endraw", y) <= s
    ensures TagLength(s, "endraw") > 0
  {
    var t := TagText(x, "endraw", y);
    assert |t| > 0;
    hide TagLength, TagText;
    RegexMatchesTag(x, "endraw", y, s[|t|..]);
    assert s == t + s[|t|..];
  }

  /** Where the span pattern matches, a raw span is found that ends no later. */
  lemma RegexMatchesSpan(l: string, r: string, body: string, l2: string, r2: string, rest: string)
    requires AllSpace(l) && AllSpace(r) && AllSpace(l2) && AllSpace(r2)
    ensures var text := TagText(l, "raw", r) + body + TagText(l2, "endraw", r2);
            0 < RawSpanLength(text + rest) <= |text|
  {
    var open, close := TagText(l, "raw", r), TagText(l2, "endraw", r2);
    assert |open| > 0 && close[0] == '{';
    hide TagLength, TagText, EndrawAt, AllSpace;
    var after := body + close + rest;
    SpanParts(open, body, close, rest);
    RegexMatchesTag(l, "raw", r, after);
    assert open + body + close + rest == open + after && (open + after)[|open|..] == after;
    EndrawNoLater(body, close, l2, r2, rest);
  }

  lemma EndrawNoLater(body: string, close: string, l2: string, r2: string, rest: string)
    requires AllSpace(l2) && AllSpace(r2) && close == TagText(l2, "endraw", r2) && close != "" && close[0] == '{'
    ensures HasEndraw(body + close + rest) && EndrawEnd(body + close + rest) <= |body| + |close|
  {
    hide TagLength, TagText, HasEndraw, EndrawEnd, EndrawAt, AllSpace;
    SpanParts("", body, close, rest);
    RegexMatchesTag(l2, "endraw", r2, rest);
    EndrawByThen(body + close + rest, |body|);
  }

  /** Where an endraw tag starts, the first one has ended when this one does. */
  lemma EndrawByThen(s: string, k: nat)
    requires k < |s| && s[k] == '{' && TagLength(s[k..], "endraw") > 0
    ensures HasEndraw(s) && EndrawEnd(s) <= k + TagLength(s[k..], "endraw")
  {
    hide TagLength, EndrawAt;
    EndrawFirst(s);
    var i := EndrawAt(s);
    if i < k {
      assert s[i..][k - i] == s[k];
      TagStopsAtBrace(s[i..], "endraw", k - i);
    }
  }

  lemma SpanParts(open: string, body: string, close: string, rest: string)
    requires close != ""
    ensures open + body + close + rest == open + (body + close + rest)
    ensures (open + (body + close + rest))[|open|..] == body + close + rest
    ensures (body + close + rest)[|body|..] == close + rest
    ensures forall i :: 0 <= i < |body| ==> (body + close + rest)[i..][|body| - i] == close[0]
  {
  }

  lemma RawSpanPrefix(s: string, s2: string)
    requires 0 < RawSpanLength(s) <= |s2|
    requires s[..RawSpanLength(s)] == s2[..RawSpanLength(s)]
    ensures RawSpanLength(s2) == RawSpanLength(s)
  {
    var n, r := TagLength(s, "raw"), RawSpanLength(s);
    Slices(s, s2, r, n);
    TagPrefix(s, s2, "raw");
    EndrawPrefix(s[n..], s2[n..]);
  }

  lemma {:induction false} NextRawShift(s: string, k: nat)
    requires k <= NextRaw(s)
    ensures NextRaw(s[k..]) == NextRaw(s) - k
  {
    if k == 0 {
      assert s[0..] == s;
    } else {
      NextRawShift(s[1..], k - 1);
      assert s[1..][k - 1..] == s[k..];
    }
  }

  /** No raw span starts inside a token whose trimmed body is raw or endraw, except possibly at its start. */
  lemma NoSpanInsideWordToken(s: string, j: nat)
    requires IsRawWord(TrimmedBodyAt(s)) && 1 <= j < TokenLength(s)
    ensures TagLength(s[j..], "raw") == 0 && TagLength(s[j..], "endraw") == 0
  {
    WordBody(s[..TokenLength(s)]);
    var t := s[..TokenLength(s)];
    assert forall k :: 0 <= k < |t| ==> t[k] == s[k];
  }

  /** The trimmed body of the token at index 0, and the empty string when there is none. */
  function TrimmedBodyAt(s: string): string {
    if TokenLength(s) > 0 then TrimmedBody(s[..TokenLength(s)]) else ""
  }
}
