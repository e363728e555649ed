/** What a second escaping does to escaped text.  The documentation promises that it does nothing; that holds exactly
    if no token wrapped by the first pass leaves a bare token behind an endraw tag of its own. */
module LiquidIdempotence {
  import opened Basics
  import Text
  import opened LiquidScanner
  import opened LiquidEscape

  /** The part of a wrapped token that its own markers do not protect: the inserted raw span ends at the first endraw
      tag inside the token, and this is what follows, up to the inserted endraw marker. */
  function Leftover(token: string): string {
    if HasEndraw(token) then token[EndrawEnd(token)..] + RAW_CLOSE else ""
  }

  /** The bare tokens in the leftovers of a list of wrapped tokens. */
  function LeftoverTokens(tokens: seq<string>): seq<string> {
    if tokens == [] then [] else BareTokens(Leftover(tokens[0])) + LeftoverTokens(tokens[1..])
  }

  // ----- Markers -----

  lemma OpenMarker(z: string)
    ensures TagLength(RAW_OPEN + z, "raw") == 9
  {
    assert TagText(" ", "raw", " ") == RAW_OPEN;
    RegexMatchesTag(" ", "raw", " ", z);
  }

  lemma CloseMarker(z: string)
    ensures TagLength(RAW_CLOSE + z, "endraw") == 12
  {
    assert TagText(" ", "endraw", " ") == RAW_CLOSE;
    RegexMatchesTag(" ", "endraw", " ", z);
  }

  /** Inserting the closing marker after text without an endraw tag makes the marker the first one. */
  lemma EndrawAtMarker(a: string, z: string)
    requires !HasEndraw(a)
    ensures var s := a + RAW_CLOSE + z;
            HasEndraw(s) && EndrawAt(s) == |a| && EndrawEnd(s) == |a| + 12
  {
    hide TagLength;
    var s := a + RAW_CLOSE + z;
    EndrawFirst(a);
    forall j | 0 <= j < |a|
      ensures TagLength(s[j..], "endraw") == 0
    {
      assert s[j..][|a| - j] == RAW_CLOSE[0] == '{';
      TagStopsAtBrace(s[j..], "endraw", |a| - j);
      var n := TagLength(s[j..], "endraw");
      if n > 0 {
        assert s[j..][..n] == a[j..][..n];
        TagPrefix(s[j..], a[j..], "endraw");
      }
    }
    CloseMarker(z);
    assert s[|a|..] == RAW_CLOSE + z;
    EndrawIs(s, |a|);
  }

  lemma SpanFromParts(s: string, n: nat)
    requires TagLength(s, "raw") == n > 0 && HasEndraw(s[n..])
    ensures RawSpanLength(s) == n + EndrawEnd(s[n..]) > 0
  {
    hide TagLength, HasEndraw, EndrawEnd;
  }

  /** The wrapping of a token without an endraw tag is one raw span. */
  lemma WrappedIsSpan(t: string, z: string)
    requires !HasEndraw(t)
    ensures RawSpanLength(RAW_OPEN + t + RAW_CLOSE + z) == |RAW_OPEN + t + RAW_CLOSE|
  {
    hide TagLength, HasEndraw, EndrawEnd, RawSpanLength, EndrawAt;
    var s := RAW_OPEN + t + RAW_CLOSE + z;
    assert s == RAW_OPEN + (t + RAW_CLOSE + z);
    OpenMarker(t + RAW_CLOSE + z);
    EndrawAtMarker(t, z);
    assert s[9..] == t + RAW_CLOSE + z;
    SpanFromParts(s, 9);
  }

  /** The wrapping of a token with an endraw tag is cut short at the end of that tag. */
  lemma WrappedIsCut(t: string, z: string)
    requires HasEndraw(t)
    ensures RawSpanLength(RAW_OPEN + t + z) == 9 + EndrawEnd(t)
  {
    hide TagLength, HasEndraw, EndrawEnd, RawSpanLength, EndrawAt;
    var s := RAW_OPEN + t + z;
    assert s == RAW_OPEN + (t + z);
    OpenMarker(t + z);
    assert s[9..] == t + z;
    assert (t + z)[..EndrawEnd(t)] == t[..EndrawEnd(t)];
    EndrawPrefix(t, t + z);
    SpanFromParts(s, 9);
  }

  // ----- One step of the scan over a known prefix -----

  lemma SkipSpan(a: string, b: string)
    requires a != "" && RawSpanLength(a + b) == |a|
    ensures BareTokens(a + b) == BareTokens(b)
  {
    hide RawSpanLength, BareTokens;
    Unfold(a + b);
    assert (a + b)[|a|..] == b;
  }

  lemma SkipKept(a: string, b: string)
    requires a != "" && TokenLength(a + b) == |a| && RawSpanLength(a + b) == 0 && IsRawWord(TrimmedBody(a))
    ensures BareTokens(a + b) == BareTokens(b)
  {
    var s := a + b;
    KeptBeforeNextSpan(a, b);
    hide RawSpanLength, BareTokens, TokenLength, NextRaw;
    Unfold(s);
    assert s[..|a|] == a && s[|a|..] == b;
    assert Head(s) == Kept(a);
  }

  lemma KeptBeforeNextSpan(a: string, b: string)
    requires a != "" && TokenLength(a + b) == |a| && RawSpanLength(a + b) == 0 && IsRawWord(TrimmedBody(a))
    ensures |a| <= NextRaw(a + b)
  {
    hide TokenLength, NextRaw, TagLength;
    var s := a + b;
    NextRawFirst(s);
    assert s[..|a|] == a && s[0..] == s;
    var i := NextRaw(s);
    if i < |a| {
      NoSpanInsideWordToken(s, i);
    }
  }

  /** The closing marker on its own is a token that is kept. */
  lemma SkipCloseMarker(z: string)
    ensures BareTokens(RAW_CLOSE + z) == BareTokens(z)
  {
    var s := RAW_CLOSE + z;
    CloseMarker(z);
    assert s[..12] == RAW_CLOSE;
    assert TagLength(s, "raw") == 0;
    SkipKept(RAW_CLOSE, z);
  }

  // ----- The text after a cut: the rest of the token and the closing marker -----

  /** The ends a `{{` token can be cut to. */
  predicate TokenTail(v: string) {
    v == "" || v == "}" || (|v| >= 2 && v[|v| - 2] == '}' && v[|v| - 1] == '}')
  }

  /** The rest of a token after an endraw tag inside it. */
  lemma AfterEndrawIsTail(t: string)
    requires IsToken(t) && HasEndraw(t)
    ensures TokenTail(t[EndrawEnd(t)..])
  {
    hide EndrawAt;
    var i, e := EndrawAt(t), EndrawEnd(t);
    EndrawFirst(t);
    var n := TagLength(t[i..], "endraw");
    assert t[i..][n - 2] == t[e - 2] && t[i..][n - 1] == t[e - 1];
    assert t[e - 2] == '%' && t[e - 1] == '}';
    if t[1] == '%' {
      assert e == |t|;
    }
  }

  /** The characters of the marker, none of which opens a raw tag. */
  lemma NoRawInMarker(v: string, z: string, j: nat)
    requires |v| <= j < |v| + 12
    ensures TagLength((v + RAW_CLOSE + z)[j..], "raw") == 0
  {
    var s := v + RAW_CLOSE + z;
    if j == |v| {
      assert s[j..] == RAW_CLOSE + z;
      CloseMarker(z);
    } else {
      assert s[j..][0] == RAW_CLOSE[j - |v|] != '{';
    }
  }

  /** Raw spans that start in the cut rest, or in the marker, end there whatever follows. */
  lemma SpanStaysInTail(v: string, z: string, j: nat)
    requires j < |v| + 12
    ensures RawSpanLength((v + RAW_CLOSE + z)[j..]) == RawSpanLength((v + RAW_CLOSE)[j..])
  {
    hide TagLength, EndrawAt, RawSpanLength;
    var a, s := v + RAW_CLOSE, v + RAW_CLOSE + z;
    assert a + "" == a && v + RAW_CLOSE + "" == a;
    if j >= |v| {
      NoRawInMarker(v, z, j);
      NoRawInMarker(v, "", j);
      NoTagNoSpan(s[j..]);
      NoTagNoSpan(a[j..]);
    } else {
      assert s[j..][|v| - j] == a[j..][|v| - j] == RAW_CLOSE[0];
      TagStopsAtBrace(s[j..], "raw", |v| - j);
      TagStopsAtBrace(a[j..], "raw", |v| - j);
      if TagLength(a[j..], "raw") > 0 {
        SpanOfTail(v, j);
        assert s[j..][..|a| - j] == a[j..];
        Slices(a[j..], s[j..], |a| - j, RawSpanLength(a[j..]));
        RawSpanPrefix(a[j..], s[j..]);
      } else {
        if TagLength(s[j..], "raw") > 0 {
          var n := TagLength(s[j..], "raw");
          assert s[j..][..n] == a[j..][..n];
          TagPrefix(s[j..], a[j..], "raw");
        }
        NoTagNoSpan(s[j..]);
        NoTagNoSpan(a[j..]);
      }
    }
  }

  lemma NoTagNoSpan(s: string)
    requires TagLength(s, "raw") == 0
    ensures RawSpanLength(s) == 0
  {
    hide TagLength, EndrawAt;
  }

  /** A raw tag in the cut rest is closed at the latest by the marker, and a span that starts there ends in the rest
      or with the marker. */
  lemma SpanOfTail(v: string, j: nat)
    requires j < |v| && TagLength((v + RAW_CLOSE)[j..], "raw") > 0
    ensures var r := RawSpanLength((v + RAW_CLOSE)[j..]);
            0 < r <= |v| - j || r == |v| + 12 - j
  {
    hide TagLength, EndrawAt, RawSpanLength;
    var a := (v + RAW_CLOSE)[j..];
    var w := v[j..];
    assert a == w + RAW_CLOSE;
    assert a[|w|] == RAW_CLOSE[0];
    TagStopsAtBrace(a, "raw", |w|);
    var n := TagLength(a, "raw");
    var w' := w[n..];
    assert a[n..] == w' + RAW_CLOSE == w' + RAW_CLOSE + "";
    if HasEndraw(w') {
      EndrawPrefix(w', a[n..]);
    } else {
      EndrawAtMarker(w', "");
    }
    SpanFromParts(a, n);
  }

  /** A Liquid token that starts in the cut rest ends in it or with the marker. */
  lemma TokenOfTail(v: string, z: string)
    requires TokenTail(v) && v != ""
    ensures var n := TokenLength(v + RAW_CLOSE);
            && TokenLength(v + RAW_CLOSE + z) == n
            && (n <= |v| || n == |v| + 12)
  {
    var a, s := v + RAW_CLOSE, v + RAW_CLOSE + z;
    var n := TokenLength(a);
    assert a[|v|] == '{' && a[|v| + 1] == '%' && a[|v| + 10] == '%' && a[|v| + 11] == '}';
    assert a[|v| + 2..|v| + 10] == RAW_CLOSE[2..10];
    assert forall k :: 0 <= k < |v| ==> a[k] == v[k];
    assert s[0] == a[0] && s[1] == a[1];
    assert a[0] == '{' ==> a[|v| - 2] == '}' && a[|v| - 1] == '}';
    if n > 0 {
      assert s[..n] == a[..n];
      TokenPrefix(a, s);
    }
  }

  /** The scan of the cut rest and the marker does not look at, and does not disturb, what follows. */
  lemma {:induction false} TailThenRest(v: string, z: string)
    requires TokenTail(v)
    ensures BareTokens(v + RAW_CLOSE + z) == BareTokens(v + RAW_CLOSE) + BareTokens(z)
    decreases |v|
  {
    hide BareTokens, RawSpanLength, TokenLength, Head, Piecewise;
    var a, s := v + RAW_CLOSE, v + RAW_CLOSE + z;
    if v == "" {
      assert a == RAW_CLOSE + "" && s == RAW_CLOSE + z;
      SkipCloseMarker(z);
      SkipCloseMarker("");
      assert BareTokens("") == [] by { BareEmpty(); }
    } else {
      HeadOfTail(v, z);
      Unfold(a);
      Unfold(s);
      var k := |Head(a).text|;
      ghost var first := if Head(a).Wrapped? then [Head(a).text] else [];
      if k <= |v| {
        assert a[k..] == v[k..] + RAW_CLOSE;
        assert s[k..] == v[k..] + RAW_CLOSE + z;
        TailThenRest(v[k..], z);
        Associate(first, BareTokens(v[k..] + RAW_CLOSE), BareTokens(z));
      } else {
        assert a[k..] == "" && s[k..] == z;
        BareEmpty();
      }
    }
  }

  lemma BareEmpty()
    ensures BareTokens("") == []
  {
  }

  lemma HeadOfTail(v: string, z: string)
    requires TokenTail(v) && v != ""
    ensures var h := Head(v + RAW_CLOSE);
            && Head(v + RAW_CLOSE + z) == h
            && (|h.text| <= |v| || |h.text| == |v| + 12)
  {
    hide RawSpanLength, TokenLength, NextRaw;
    var a, s := v + RAW_CLOSE, v + RAW_CLOSE + z;
    assert a[0..] == a && s[0..] == s;
    SpanStaysInTail(v, z, 0);
    TokenOfTail(v, z);
    NextSpanOfTail(v, z);
    if RawSpanLength(a) > 0 {
      TagOfSpan(a);
      SpanOfTail(v, 0);
    }
    assert forall k :: 0 <= k <= |a| ==> s[..k] == a[..k];
  }

  lemma TagOfSpan(s: string)
    requires RawSpanLength(s) > 0
    ensures TagLength(s, "raw") > 0
  {
    hide TagLength, EndrawAt;
  }

  lemma NextSpanOfTail(v: string, z: string)
    ensures var i, i' := NextRaw(v + RAW_CLOSE), NextRaw(v + RAW_CLOSE + z);
            i == i' || (i == |v| + 12 <= i')
  {
    hide RawSpanLength, TokenLength, NextRaw;
    var a, s := v + RAW_CLOSE, v + RAW_CLOSE + z;
    var i, i' := NextRaw(a), NextRaw(s);
    NextRawFirst(a);
    NextRawFirst(s);
    if i < |a| {
      SpanStaysInTail(v, z, i);
    }
    if i' < |a| {
      SpanStaysInTail(v, z, i');
    }
  }

  // ----- The second pass -----

  /** Output text before the first opening brace is copied input. */
  lemma {:induction false} CopiedUntilBrace(x: string, n: nat)
    requires n <= |Piecewise(x)| && forall k :: 0 <= k < n ==> Piecewise(x)[k] != '{'
    ensures n <= |x| && Piecewise(x)[..n] == x[..n]
    decreases |x|
  {
    hide RawSpanLength, TokenLength, NextRaw, Piecewise;
    if n > 0 && x != "" {
      Unfold(x);
      BraceHead(x);
      var y, y' := Piecewise(x), Piecewise(Rest(x));
      assert y[0] == Head(x).Rendered()[0];
      assert y == x[..1] + y' && y[..n] == x[..1] + y'[..n - 1];
      assert forall k :: 0 <= k < n - 1 ==> y'[k] == y[k + 1];
      CopiedUntilBrace(Rest(x), n - 1);
      assert x[..n] == x[..1] + Rest(x)[..n - 1];
    } else {
      EmptyPieces();
      assert Piecewise(x)[..n] == x[..n] == "";
    }
  }

  lemma EmptyPieces()
    ensures Piecewise("") == "" && BareTokens("") == []
  {
  }

  /** Every piece but a plain character opens with a brace. */
  lemma BraceHead(x: string)
    requires x != ""
    ensures Head(x).Plain? ==> Head(x).text == x[..1] == Head(x).Rendered()
    ensures !Head(x).Plain? ==> x[0] == '{' && Head(x).Rendered()[0] == '{'
  {
    if RawSpanLength(x) > 0 {
      TagOfSpan(x);
    }
  }

  /** A raw or endraw tag at the start of the output of a plain character is one of the input. */
  lemma TagOfOutput(x: string, word: string)
    requires x != "" && Head(x).Plain? && IsRawWord(word)
    ensures TagLength(Piecewise(x), word) > 0 ==> TagLength(x, word) == TagLength(Piecewise(x), word)
  {
    hide RawSpanLength, TokenLength, NextRaw, Piecewise, TagLength, Head;
    Unfold(x);
    BraceHead(x);
    var y, y' := Piecewise(x), Piecewise(Rest(x));
    assert y == x[..1] + y';
    var n := TagLength(y, word);
    if n > 0 {
      TagBraces(y, word);
      TagBound(y, word);
      assert forall k :: 0 <= k < n - 1 ==> y'[k] == y[k + 1];
      CopiedUntilBrace(Rest(x), n - 1);
      assert x[..n] == x[..1] + Rest(x)[..n - 1] == y[..n];
      TagPrefix(y, x, word);
    }
  }

  lemma TagBound(s: string, word: string)
    ensures TagLength(s, word) <= |s|
  {
  }

  /** The length of the output's unchanged start: everything before the first wrapped token or raw span. */
  function CopiedLength(x: string): (d: nat)
    ensures d <= |x|
    decreases |x|
  {
    if x == "" || Head(x).Wrapped? || Head(x).RawSpan? then 0
    else |Head(x).text| + CopiedLength(Rest(x))
  }

  /** The output starts with that much of the input and then, unless it is over, with a raw span. */
  lemma {:induction false} CopiedStart(x: string)
    ensures var d, y := CopiedLength(x), Piecewise(x);
            && d <= NextRaw(x) && d <= |y|
            && y[..d] == x[..d]
            && (if d < |x| then RawSpanLength(y[d..]) > 0 else y == x)
    decreases |x|
  {
    hide RawSpanLength, TokenLength, NextRaw, Piecewise;
    if x == "" {
      EmptyPieces();
    } else {
      var h, x' := Head(x), Rest(x);
      Unfold(x);
      var y, y' := Piecewise(x), Piecewise(x');
      if h.Wrapped? || h.RawSpan? {
        OutputOpensSpan(x);
        assert y[0..] == y && y[..0] == x[..0];
      } else {
        var k, d' := |h.text|, CopiedLength(x');
        CopiedStart(x');
        HeadBeforeSpan(x);
        NextRawShift(x, k);
        assert y == h.text + y' && x == h.text + x';
        CopiedFurther(h.text, x', y', d');
      }
    }
  }

  lemma CopiedFurther(text: string, x: string, y: string, d: nat)
    requires d <= |x| && d <= |y| && y[..d] == x[..d]
    ensures (text + y)[..|text| + d] == (text + x)[..|text| + d] && (text + y)[|text| + d..] == y[d..]
  {
    assert (text + y)[..|text| + d] == text + y[..d] && (text + x)[..|text| + d] == text + x[..d];
  }

  lemma HeadBeforeSpan(x: string)
    requires x != "" && !Head(x).RawSpan?
    ensures |Head(x).text| <= NextRaw(x)
  {
    hide RawSpanLength, TokenLength;
  }

  lemma OutputOpensSpan(x: string)
    requires x != "" && (Head(x).Wrapped? || Head(x).RawSpan?)
    ensures RawSpanLength(Piecewise(x)) > 0
    ensures Head(x).RawSpan? ==> RawSpanLength(Piecewise(x)) == |Head(x).text|
  {
    hide RawSpanLength, TokenLength, NextRaw, Piecewise, Head, Rest, HasEndraw, EndrawAt;
    Unfold(x);
    var h, y' := Head(x), Piecewise(Rest(x));
    var y := Piecewise(x);
    if h.RawSpan? {
      assert y[..|h.text|] == h.text == x[..|h.text|];
      assert |h.text| == RawSpanLength(x) by { HeadSpan(x); }
      RawSpanPrefix(x, y);
    } else if HasEndraw(h.text) {
      assert y == RAW_OPEN + h.text + (RAW_CLOSE + y');
      WrappedIsCut(h.text, RAW_CLOSE + y');
    } else {
      WrappedIsSpan(h.text, y');
    }
  }

  /** A plain character is a plain character of the output. */
  lemma PlainStaysPlain(x: string)
    requires x != "" && Head(x).Plain?
    ensures BareTokens(Piecewise(x)) == BareTokens(Piecewise(Rest(x)))
  {
    hide RawSpanLength, TokenLength, NextRaw, Piecewise, BareTokens, TagLength;
    var y, y' := Piecewise(x), Piecewise(Rest(x));
    Unfold(x);
    BraceHead(x);
    assert y == x[..1] + y';
    NoTagAtPlain(x);
    TagOfOutput(x, "raw");
    NoTagNoSpan(y);
    NoTokenAtPlain(x);
    assert Head(y) == Plain(y[..1]);
    Unfold(y);
    assert y[1..] == y';
  }

  lemma NoTagAtPlain(x: string)
    requires x != "" && Head(x).Plain?
    ensures TagLength(x, "raw") == 0
  {
    hide NextRaw, TokenLength;
    var n := TagLength(x, "raw");
    if n > 0 {
      TagBound(x, "raw");
      assert x[..n] + x[n..] == x;
      KeptBeforeNextSpan(x[..n], x[n..]);
    }
  }

  lemma NoTokenAtPlain(x: string)
    requires x != "" && Head(x).Plain?
    ensures var y := Piecewise(x); !(0 < TokenLength(y) <= NextRaw(y))
  {
    hide RawSpanLength, TokenLength, NextRaw, Piecewise;
    var y, d := Piecewise(x), CopiedLength(x);
    CopiedStart(x);
    NextRawFirst(y);
    var n := TokenLength(y);
    if 0 < n <= NextRaw(y) {
      assert n <= d;
      assert y[..n] == y[..d][..n] == x[..d][..n] == x[..n];
      TokenPrefix(y, x);
    }
  }

  /** A kept token stays a kept token of the output, unless it is a raw tag that an inserted marker now closes. */
  lemma KeptStaysKept(x: string)
    requires x != "" && Head(x).Kept?
    requires RawSpanLength(Piecewise(x)) == 0
    ensures BareTokens(Piecewise(x)) == BareTokens(Piecewise(Rest(x)))
  {
    var t := Head(x).text;
    assert TokenLength(x) == |t| && x[..|t|] == t && IsRawWord(TrimmedBody(t));
    hide RawSpanLength, TokenLength, NextRaw, Piecewise, BareTokens, TagLength;
    Unfold(x);
    var y, y' := Piecewise(x), Piecewise(Rest(x));
    assert y == t + y' && y[..|t|] == x[..|t|];
    TokenPrefix(x, y);
    SkipKept(t, y');
  }

  /** The inserted marker that closes a kept raw tag of the output is the only thing behind it to look for. */
  lemma KeptRawSpan(x: string)
    requires x != "" && Head(x).Kept? && RawSpanLength(Piecewise(x)) > 0
    ensures !HasEndraw(Rest(x)) && HasEndraw(Piecewise(Rest(x)))
    ensures var y' := Piecewise(Rest(x));
            BareTokens(Piecewise(x)) == BareTokens(y'[EndrawEnd(y')..])
  {
    hide TokenLength, NextRaw, Piecewise, BareTokens, EndrawAt;
    Unfold(x);
    KeptIsTag(x);
    var t, y, y' := Head(x).text, Piecewise(x), Piecewise(Rest(x));
    assert y == t + y' && y[|t|..] == y' && y[..|t|] == x[..|t|];
    TagOfSpan(y);
    TagPrefix(x, y, "raw");
    var r := |t| + EndrawEnd(y');
    assert RawSpanLength(y) == r;
    assert y == y[..r] + y'[EndrawEnd(y')..];
    SkipSpan(y[..r], y'[EndrawEnd(y')..]);
  }

  /** A kept token whose rendering starts a raw span is itself a raw tag, and nothing behind it closes it. */
  lemma KeptIsTag(x: string)
    requires x != "" && Head(x).Kept? && RawSpanLength(Piecewise(x)) > 0
    ensures TagLength(x, "raw") == |Head(x).text| && !HasEndraw(Rest(x))
  {
    hide NextRaw, Piecewise, BareTokens, EndrawAt;
    Unfold(x);
    var t, y := Head(x).text, Piecewise(x);
    assert y[..|t|] == t == x[..|t|];
    TokenPrefix(x, y);
    TagOfSpan(y);
  }

  /** Tokens of a text without endraw tags hold none. */
  lemma {:induction false} NoEndrawNoLeftover(x: string)
    requires !HasEndraw(x)
    ensures LeftoverTokens(BareTokens(x)) == []
    decreases |x|
  {
    hide RawSpanLength, TokenLength, NextRaw, Piecewise, BareTokens, EndrawEnd;
    if x == "" {
      EmptyPieces();
    } else {
      Unfold(x);
      var t, x' := Head(x).text, Rest(x);
      NoEndrawInPart(t, x', x);
      NoEndrawNoLeftover(x');
      EmptyPieces();
      var first := if Head(x).Wrapped? then [t] else [];
      assert (first + BareTokens(x'))[|first|..] == BareTokens(x');
      assert Leftover(t) == "";
    }
  }

  lemma NoEndrawInPart(a: string, b: string, s: string)
    requires s == a + b && !HasEndraw(s)
    ensures !HasEndraw(a) && !HasEndraw(b)
  {
    hide TagLength, EndrawAt;
    EndrawFirst(s);
    EndrawFirst(a);
    EndrawFirst(b);
    if HasEndraw(a) {
      EndrawPrefix(a, s);
    }
    assert s[|a| + EndrawAt(b)..] == b[EndrawAt(b)..];
  }

  /** Extending a text without endraw tags at the front of another: the first endraw tag is that of the other. */
  lemma EndrawBehind(a: string, b: string)
    requires forall j :: 0 <= j < |a| ==> TagLength((a + b)[j..], "endraw") == 0
    ensures EndrawAt(a + b) == |a| + EndrawAt(b)
  {
    hide TagLength;
    EndrawFirst(b);
    var s := a + b;
    assert forall j :: |a| <= j <= |s| ==> s[j..] == b[j - |a|..];
    EndrawIs(s, |a| + EndrawAt(b));
  }

  lemma {:induction false} EndrawBehindEnd(a: string, b: string)
    requires forall j :: 0 <= j < |a| ==> TagLength((a + b)[j..], "endraw") == 0
    requires HasEndraw(a + b)
    ensures HasEndraw(b) && EndrawEnd(a + b) == |a| + EndrawEnd(b)
    ensures (a + b)[EndrawEnd(a + b)..] == b[EndrawEnd(b)..]
  {
    hide TagLength, EndrawAt;
    EndrawBehind(a, b);
    assert (a + b)[|a| + EndrawAt(b)..] == b[EndrawAt(b)..];
  }

  /** Re-escaping, piece by piece: the second pass wraps exactly the bare tokens left over by the first. */
  lemma {:induction false} SecondPass(x: string)
    ensures BareTokens(Piecewise(x)) == LeftoverTokens(BareTokens(x))
    decreases |x|, 0
  {
    hide RawSpanLength, TokenLength, NextRaw, Piecewise, BareTokens, EndrawEnd, EndrawAt;
    if x == "" {
      EmptyPieces();
    } else {
      var h, x' := Head(x), Rest(x);
      Unfold(x);
      SecondPass(x');
      assert !h.Wrapped? ==> BareTokens(x) == BareTokens(x');
      if h.Plain? {
        PlainStaysPlain(x);
      } else if h.Wrapped? {
        WrappedSecondPass(x);
      } else if h.RawSpan? {
        OutputOpensSpan(x);
        SkipSpan(h.text, Piecewise(x'));
      } else if RawSpanLength(Piecewise(x)) == 0 {
        KeptStaysKept(x);
      } else {
        KeptRawSpan(x);
        BehindFirstMarker(x');
        NoEndrawNoLeftover(x');
      }
    }
  }

  lemma WrappedSecondPass(x: string)
    requires x != "" && Head(x).Wrapped?
    ensures BareTokens(Piecewise(x)) == BareTokens(Leftover(Head(x).text)) + BareTokens(Piecewise(Rest(x)))
    ensures LeftoverTokens(BareTokens(x)) == BareTokens(Leftover(Head(x).text)) + LeftoverTokens(BareTokens(Rest(x)))
  {
    hide RawSpanLength, NextRaw, Piecewise, BareTokens, EndrawEnd, EndrawAt, TokenLength, Head, Leftover;
    Unfold(x);
    var t, y' := Head(x).text, Piecewise(Rest(x));
    assert BareTokens(x)[1..] == BareTokens(Rest(x));
    WrappedIsToken(x);
    RenderedTwice(t, y');
  }

  /** The second pass over a wrapped token and what follows it. */
  lemma RenderedTwice(t: string, z: string)
    requires IsToken(t)
    ensures BareTokens(RAW_OPEN + t + RAW_CLOSE + z) == BareTokens(Leftover(t)) + BareTokens(z)
  {
    hide RawSpanLength, BareTokens, EndrawEnd, EndrawAt, TokenLength;
    if HasEndraw(t) {
      var e := EndrawEnd(t);
      WrappedIsCut(t, RAW_CLOSE + z);
      var a, b := RAW_OPEN + t[..e], t[e..] + RAW_CLOSE + z;
      assert RAW_OPEN + t + RAW_CLOSE + z == RAW_OPEN + t + (RAW_CLOSE + z) == a + b;
      SkipSpan(a, b);
      AfterEndrawIsTail(t);
      TailThenRest(t[e..], z);
    } else {
      WrappedIsSpan(t, z);
      SkipSpan(RAW_OPEN + t + RAW_CLOSE, z);
      EmptyPieces();
    }
  }

  lemma WrappedIsToken(x: string)
    requires x != "" && Head(x).Wrapped?
    ensures IsToken(Head(x).text)
  {
    hide RawSpanLength, NextRaw;
    TokenPrefix(x, Head(x).text);
  }

  /** In the output of a text without endraw tags, nothing bare follows the first inserted endraw marker. */
  lemma {:induction false} BehindFirstMarker(x: string)
    requires !HasEndraw(x) && HasEndraw(Piecewise(x))
    ensures var y := Piecewise(x); BareTokens(y[EndrawEnd(y)..]) == []
    decreases |x|, 1
  {
    hide RawSpanLength, TokenLength, NextRaw, Piecewise, BareTokens, EndrawEnd, EndrawAt, TagLength;
    if x == "" {
      EmptyPieces();
    } else {
      var h, x', y := Head(x), Rest(x), Piecewise(x);
      var t, y' := h.text, Piecewise(x');
      Unfold(x);
      NoEndrawInPart(t, x', x);
      if h.Wrapped? {
        MarkerOfWrapped(t, y');
        SecondPass(x');
        NoEndrawNoLeftover(x');
      } else {
        NoEndrawInCopied(x);
        EndrawBehindEnd(t, y');
        BehindFirstMarker(x');
      }
    }
  }

  lemma NoSpanWithoutEndraw(x: string)
    requires !HasEndraw(x)
    ensures RawSpanLength(x) == 0
  {
    hide TokenLength, EndrawAt, TagLength;
    var n := TagLength(x, "raw");
    TagBound(x, "raw");
    if n > 0 {
      NoEndrawInPart(x[..n], x[n..], x);
    }
  }

  /** Copied pieces of a text without endraw tags start none in the output. */
  lemma NoEndrawInCopied(x: string)
    requires x != "" && !HasEndraw(x) && !Head(x).Wrapped?
    ensures var t, y := Head(x).text, Piecewise(x);
            && y == t + Piecewise(Rest(x))
            && forall j :: 0 <= j < |t| ==> TagLength(y[j..], "endraw") == 0
  {
    hide RawSpanLength, NextRaw, Piecewise, EndrawAt, TagLength, TokenLength;
    Unfold(x);
    EndrawFirst(x);
    NoSpanWithoutEndraw(x);
    var t, y := Head(x).text, Piecewise(x);
    assert y[0..] == y && x[0..] == x;
    if Head(x).Plain? {
      TagOfOutput(x, "endraw");
    } else {
      assert y[..|t|] == t == x[..|t|];
      TokenPrefix(x, y);
      KeptNoEndraw(x, y, |t|);
      forall j | 1 <= j < |t|
        ensures TagLength(y[j..], "endraw") == 0
      {
        NoSpanInsideWordToken(y, j);
      }
    }
  }

  lemma KeptNoEndraw(x: string, y: string, k: nat)
    requires TokenLength(x) == TokenLength(y) == k > 0 && k <= |y| && x[..k] == y[..k]
    requires TagLength(x, "endraw") == 0
    ensures TagLength(y, "endraw") == 0
  {
    if TagLength(y, "endraw") > 0 {
      TagPrefix(y, x, "endraw");
    }
  }

  lemma MarkerOfWrapped(t: string, z: string)
    requires !HasEndraw(t)
    ensures var y := RAW_OPEN + t + RAW_CLOSE + z;
            HasEndraw(y) && y[EndrawEnd(y)..] == z
  {
    hide TokenLength, EndrawAt, EndrawEnd;
    var b := t + RAW_CLOSE + z;
    var y := RAW_OPEN + t + RAW_CLOSE + z;
    assert y == RAW_OPEN + b;
    EndrawAtMarker(t, z);
    forall j | 0 <= j < 9
      ensures TagLength((RAW_OPEN + b)[j..], "endraw") == 0
    {
      OpenMarker(b);
      assert j == 0 ==> (RAW_OPEN + b)[j..] == RAW_OPEN + b;
      assert (RAW_OPEN + b)[j..][0] == RAW_OPEN[j];
      if TagLength((RAW_OPEN + b)[j..], "endraw") > 0 {
        TagBraces((RAW_OPEN + b)[j..], "endraw");
      }
    }
    EndrawBehind(RAW_OPEN, b);
    EndrawBehindEnd(RAW_OPEN, b);
  }

  // ----- The documented promise and its exact condition -----

  /** What a second escaping wraps: the bare tokens in the leftovers of the first, in order, and nothing else. */
  lemma ReescapeWrapsLeftovers(x: string)
    ensures BareTokens(Escape(x)) == LeftoverTokens(BareTokens(x))
  {
    hide Piecewise, BareTokens;
    EscapeIsPiecewise(x);
    SecondPass(x);
  }

  lemma {:induction false} LeftoverTokensEmpty(tokens: seq<string>)
    ensures LeftoverTokens(tokens) == [] <==> forall t :: t in tokens ==> BareTokens(Leftover(t)) == []
  {
    hide BareTokens, Leftover;
    if tokens != [] {
      LeftoverTokensEmpty(tokens[1..]);
      assert tokens == [tokens[0]] + tokens[1..];
    }
  }

  /** Escaping twice is escaping once exactly if every wrapped token leaves no bare token behind its first endraw tag. */
  lemma IdempotentIff(x: string)
    ensures Escape(Escape(x)) == Escape(x) <==>
            forall t :: t in BareTokens(x) ==> BareTokens(Leftover(t)) == []
  {
    hide Escape, BareTokens, Leftover;
    UnchangedIffNoBareToken(Escape(x));
    ReescapeWrapsLeftovers(x);
    LeftoverTokensEmpty(BareTokens(x));
  }

  /** In particular whenever no wrapped token that starts with two braces contains an endraw tag. */
  lemma IdempotentWithoutInnerEndraw(x: string)
    requires forall t :: t in BareTokens(x) && "{{" <= t ==> !HasEndraw(t)
    ensures Escape(Escape(x)) == Escape(x)
  {
    hide Escape, BareTokens, HasEndraw;
    IdempotentIff(x);
    forall t | t in BareTokens(x)
      ensures BareTokens(Leftover(t)) == []
    {
      BareTokenIsToken(x, t);
      if "{{" <= t {
        EmptyPieces();
        NoLeftover(t);
      } else {
        TagTokenLeavesNothing(t);
      }
    }
  }

  lemma NoLeftover(t: string)
    requires !HasEndraw(t)
    ensures Leftover(t) == ""
  {
  }

  lemma {:induction false} BareTokenIsToken(x: string, t: string)
    requires t in BareTokens(x)
    ensures IsToken(t) && |t| >= 4
    decreases |x|
  {
    hide BareTokens, Head, Piecewise;
    if x == "" {
      EmptyPieces();
    } else {
      Unfold(x);
      if t in BareTokens(Rest(x)) {
        BareTokenIsToken(Rest(x), t);
      } else {
        WrappedIsToken(x);
      }
    }
  }

  /** A wrapped `{% ... %}` token ends with any endraw tag it contains, so nothing is left over. */
  lemma TagTokenLeavesNothing(t: string)
    requires IsToken(t) && !("{{" <= t)
    ensures BareTokens(Leftover(t)) == []
  {
    hide BareTokens, EndrawAt, TagLength;
    EmptyPieces();
    SkipCloseMarker("");
    assert RAW_CLOSE + "" == RAW_CLOSE;
    if HasEndraw(t) {
      TagTokenEndsWithEndraw(t);
      assert t[|t|..] + RAW_CLOSE == RAW_CLOSE;
    }
  }

  lemma TagTokenEndsWithEndraw(t: string)
    requires IsToken(t) && !("{{" <= t) && HasEndraw(t)
    ensures EndrawEnd(t) == |t|
  {
    hide EndrawAt;
    EndrawFirst(t);
    var i, e := EndrawAt(t), EndrawEnd(t);
    var n := TagLength(t[i..], "endraw");
    assert t[i..][n - 2] == t[e - 2] && t[i..][n - 1] == t[e - 1];
    assert t[1] == '%';
  }

  // ----- The promise fails -----

  /** The scan of a text that is one token without a raw tag inside. */
  lemma SingleToken(s: string, rest: string)
    requires IsToken(s) && s[1] == '{' && !IsRawWord(TrimmedBody(s))
    requires forall j :: 0 <= j < |s| ==> TagLength((s + rest)[j..], "raw") == 0
    ensures BareTokens(s + rest) == [s] + BareTokens(rest)
  {
    hide NextRaw, BareTokens, EndrawAt, TagLength, Piecewise;
    var x := s + rest;
    assert x[0..] == x && x[..|s|] == s && x[|s|..] == rest;
    TokenPrefix(s, x);
    NoTagNoSpan(x);
    NextRawFirst(x);
    forall j | 0 <= j < |s|
      ensures RawSpanLength(x[j..]) == 0
    {
      NoTagNoSpan(x[j..]);
    }
    Unfold(x);
    assert Head(x) == Wrapped(s);
  }

  const CUT_TOKEN := "{{ {% endraw %}{{ x }}"

  /** A text that a second escaping changes again: the token wrapped by the first pass contains an endraw tag, and
      what follows that tag is a bare token. */
  lemma NotAlwaysIdempotent()
    ensures Escape(Escape(CUT_TOKEN)) != Escape(CUT_TOKEN)
  {
    hide Escape, BareTokens, Leftover, TokenLength, TagLength, TrimmedBody, IsRawWord;
    var t, v := CUT_TOKEN, "{{ x }}";
    CutTokenScan();
    CutRestScan();
    EmptyPieces();
    assert t + "" == t;
    SingleToken(t, "");
    CutTokenLeftover();
    SingleToken(v, RAW_CLOSE);
    assert t in BareTokens(t);
    IdempotentIff(t);
  }

  lemma CutTokenLeftover()
    ensures Leftover(CUT_TOKEN) == "{{ x }}" + RAW_CLOSE
  {
    hide TokenLength, TagLength, EndrawAt;
    var t, v := CUT_TOKEN, "{{ x }}";
    CutTokenScan();
    assert t[3..] == RAW_CLOSE + v;
    CloseMarker(v);
    EndrawIs(t, 3);
    assert t[15..] == v;
  }

  lemma CutTokenScan()
    ensures var t := CUT_TOKEN;
            && IsToken(t) && !IsRawWord(TrimmedBody(t))
            && forall j :: 0 <= j < |t| ==> TagLength(t[j..], "raw") == 0 && (j < 3 ==> TagLength(t[j..], "endraw") == 0)
  {
    var t := CUT_TOKEN;
    forall j | 0 <= j < |t|
      ensures TagLength(t[j..], "raw") == 0
      ensures j < 3 ==> TagLength(t[j..], "endraw") == 0
    {
      if j == 3 {
        assert t[3..] == RAW_CLOSE + "{{ x }}";
        CloseMarker("{{ x }}");
      } else {
        assert !(t[j] == '{' && j + 1 < |t| && t[j + 1] == '%');
      }
    }
    assert t[20] == '}' && t[21] == '}' && |t| == 22;
    assert forall k :: 2 <= k < 20 ==> t[k] == '}' ==> t[k + 1] != '}';
    WordTokenBraces(t);
  }

  lemma CutRestScan()
    ensures var v := "{{ x }}";
            && IsToken(v) && !IsRawWord(TrimmedBody(v))
            && forall j :: 0 <= j < |v| ==> TagLength((v + RAW_CLOSE)[j..], "raw") == 0
  {
    var v := "{{ x }}";
    forall j | 0 <= j < |v|
      ensures TagLength((v + RAW_CLOSE)[j..], "raw") == 0
    {
      assert (v + RAW_CLOSE)[j] == v[j];
      assert j + 1 < |v| ==> (v + RAW_CLOSE)[j + 1] == v[j + 1];
    }
    assert v[2..5] == " " + "x" + " ";
    Text.StripOf(" ", "x", " ");
  }

  lemma WordTokenBraces(t: string)
    requires |t| >= 6 && t[3] == '{'
    ensures !IsRawWord(TrimmedBody(t))
  {
    if IsRawWord(TrimmedBody(t)) {
      WordBody(t);
    }
  }
}
