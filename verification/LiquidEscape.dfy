/** `escape_liquid_for_jekyll`: raw spans are copied, the text between them is scanned for Liquid tokens, and every
    token whose trimmed body is not raw or endraw is wrapped in a raw span of its own. */
module LiquidEscape {
  import opened Text
  import opened LiquidScanner

  // ----- The source's form: spans outside, token substitution inside each gap -----

  /** `_wrap_token` */
  function WrapToken(token: string): string
    requires |token| >= 4
  {
    if IsRawWord(TrimmedBody(token)) then token else RAW_OPEN + token + RAW_CLOSE
  }

  /** `_LIQUID_TOKEN.sub(_wrap_token, gap)` */
  function SubTokens(gap: string): string
    decreases |gap|
  {
    if gap == "" then ""
    else
      var n := TokenLength(gap);
      if n > 0 then WrapToken(gap[..n]) + SubTokens(gap[n..])
      else [gap[0]] + SubTokens(gap[1..])
  }

  /** `raw_span.end()` of the first raw span */
  function SpanEnd(text: string): (e: nat)
    requires NextRaw(text) < |text|
    ensures NextRaw(text) < e <= |text|
  {
    NextRawFirst(text);
    NextRaw(text) + RawSpanLength(text[NextRaw(text)..])
  }

  /** The text after escaping, one raw span at a time. */
  function Escape(text: string): string
    decreases |text|
  {
    var i := NextRaw(text);
    if i == |text| then SubTokens(text)
    else
      SubTokens(text[..i]) + text[i..SpanEnd(text)] + Escape(text[SpanEnd(text)..])
  }

  method EscapeLiquidForJekyll(text: string) returns (out: string)
    ensures out == Escape(text)
  {
    hide SubTokens, RawSpanLength, NextRaw, Escape;
    out := "";
    var pos := 0;
    var start := NextRaw(text);
    assert text[0..] == text;
    while start < |text|
      invariant pos <= start <= |text| && start == pos + NextRaw(text[pos..])
      invariant out + Escape(text[pos..]) == Escape(text)
      decreases |text| - pos
    {
      var end := start + RawSpanLength(text[start..]);
      SpanStep(text, pos);
      Regroup(out, SubTokens(text[pos..start]), text[start..end], Escape(text[end..]));
      out := out + SubTokens(text[pos..start]);
      out := out + text[start..end];
      pos := end;
      start := pos + NextRaw(text[pos..]);
    }
    EscapeUnfold(text[pos..]);
    out := out + SubTokens(text[pos..]);
  }

  lemma SpanStep(text: string, pos: nat)
    requires pos <= |text| && pos + NextRaw(text[pos..]) < |text|
    ensures var start := pos + NextRaw(text[pos..]);
            var end := start + RawSpanLength(text[start..]);
            && start < end
            && Escape(text[pos..]) == SubTokens(text[pos..start]) + text[start..end] + Escape(text[end..])
  {
    hide SubTokens, RawSpanLength, NextRaw, Escape;
    var rest := text[pos..];
    var next := NextRaw(rest);
    NextRawFirst(rest);
    EscapeUnfold(rest);
    assert rest[next..] == text[pos + next..];
    var end := pos + next + RawSpanLength(text[pos + next..]);
    SliceOfRest(text, pos, pos + next, end);
  }

  lemma SliceOfRest(s: string, pos: nat, i: nat, e: nat)
    requires pos <= i <= e <= |s|
    ensures s[pos..][..i - pos] == s[pos..i] && s[pos..][i - pos..e - pos] == s[i..e]
    ensures s[pos..][i - pos..] == s[i..] && s[pos..][e - pos..] == s[e..]
  {
  }

  // ----- The same scan as one list of pieces -----

  datatype Piece =
    | Plain(text: string)    // one character outside every token and span
    | Kept(text: string)     // a token whose trimmed body is raw or endraw
    | Wrapped(text: string)  // any other token
    | RawSpan(text: string)  // an existing raw span
  {
    function Rendered(): string {
      if Wrapped? then RAW_OPEN + text + RAW_CLOSE else text
    }

    predicate Valid() {
      match this
      case Plain(t) => |t| == 1
      case Kept(t) => IsToken(t) && IsRawWord(TrimmedBody(t))
      case Wrapped(t) => IsToken(t) && !IsRawWord(TrimmedBody(t))
      case RawSpan(t) => t != "" && RawSpanLength(t) == |t|
    }
  }

  /** The piece at the start of the text.  A token counts only if it closes before the next raw span. */
  function Head(s: string): (p: Piece)
    requires s != ""
    ensures 0 < |p.text| <= |s| && p.text == s[..|p.text|]
  {
    var r, n := RawSpanLength(s), TokenLength(s);
    if r > 0 then RawSpan(s[..r])
    else if 0 < n <= NextRaw(s) then
      if IsRawWord(TrimmedBody(s[..n])) then Kept(s[..n]) else Wrapped(s[..n])
    else Plain(s[..1])
  }

  function Pieces(s: string): seq<Piece>
    decreases |s|
  {
    if s == "" then [] else [Head(s)] + Pieces(s[|Head(s).text|..])
  }

  function Originals(ps: seq<Piece>): string {
    if ps == [] then "" else ps[0].text + Originals(ps[1..])
  }

  function Render(ps: seq<Piece>): string {
    if ps == [] then "" else ps[0].Rendered() + Render(ps[1..])
  }

  function Tokens(ps: seq<Piece>): seq<string> {
    if ps == [] then [] else (if ps[0].Wrapped? then [ps[0].text] else []) + Tokens(ps[1..])
  }

  /** The bare Liquid tokens of a text, in order: the ones that escaping wraps. */
  function BareTokens(s: string): seq<string> {
    Tokens(Pieces(s))
  }

  /** The rendering of the pieces; `EscapeIsPiecewise` shows that it is what the source computes. */
  function Piecewise(s: string): string {
    Render(Pieces(s))
  }

  function Rest(s: string): string
    requires s != ""
  {
    s[|Head(s).text|..]
  }

  /** One step of the piecewise scan. */
  lemma Unfold(s: string)
    requires s != ""
    ensures Piecewise(s) == Head(s).Rendered() + Piecewise(Rest(s))
    ensures BareTokens(s) == (if Head(s).Wrapped? then [Head(s).text] else []) + BareTokens(Rest(s))
    ensures s == Head(s).text + Rest(s) && |Rest(s)| < |s|
  {
    var ps := [Head(s)] + Pieces(Rest(s));
    assert ps[1..] == Pieces(Rest(s));
  }

  /** The two-level loop of the source produces the pieces' rendering. */
  lemma {:induction false} EscapeIsPiecewise(s: string)
    ensures Escape(s) == Piecewise(s)
    decreases |s|
  {
    if s != "" {
      Unfold(s);
      EscapeIsPiecewise(Rest(s));
      EscapeStep(s);
    }
  }

  lemma SubNothing()
    ensures SubTokens("") == ""
  {
  }

  /** The defining equation of `Escape`, by itself. */
  lemma EscapeUnfold(s: string)
    ensures NextRaw(s) == |s| ==> Escape(s) == SubTokens(s)
    ensures NextRaw(s) < |s| ==>
              Escape(s) == SubTokens(s[..NextRaw(s)]) + s[NextRaw(s)..SpanEnd(s)] + Escape(s[SpanEnd(s)..])
  {
    hide SubTokens, SpanEnd, NextRaw;
  }

  lemma HeadSpan(s: string)
    requires s != ""
    ensures Head(s).RawSpan? <==> NextRaw(s) == 0
    ensures Head(s).RawSpan? ==> |Head(s).text| == RawSpanLength(s)
  {
    hide RawSpanLength, TokenLength;
  }

  lemma Regroup(a: string, b: string, c: string, d: string)
    ensures a + (b + c + d) == (a + b) + c + d
  {
  }

  lemma EscapeStep(s: string)
    requires s != ""
    ensures Escape(s) == Head(s).Rendered() + Escape(Rest(s))
  {
    HeadSpan(s);
    hide Escape, Head, RawSpanLength, NextRaw;
    if Head(s).RawSpan? {
      EscapeAtSpan(s);
    } else {
      EscapeInGap(s);
    }
  }

  lemma EscapeAtSpan(s: string)
    requires s != "" && Head(s).RawSpan?
    ensures Escape(s) == Head(s).text + Escape(Rest(s))
  {
    hide Escape, Head, SubTokens, RawSpanLength, NextRaw;
    EscapeUnfold(s);
    HeadSpan(s);
    SubNothing();
    assert s[0..] == s && s[..0] == "";
  }

  lemma EscapeInGap(s: string)
    requires s != "" && !Head(s).RawSpan?
    ensures Escape(s) == Head(s).Rendered() + Escape(Rest(s))
  {
    hide Escape, Head, SubTokens, RawSpanLength, NextRaw, Piece.Rendered;
    HeadSpan(s);
    NextRawFirst(s);
    EscapeUnfold(s);
    var i, k, r := NextRaw(s), |Head(s).text|, Head(s).Rendered();
    SubStep(s, i);
    NextRawShift(s, k);
    EscapeUnfold(s[k..]);
    var e := if i < |s| then i + RawSpanLength(s[i..]) else i;
    SliceOfRest(s, k, i, e);
    if i < |s| {
      Regroup(r, SubTokens(s[k..i]), s[i..e], Escape(s[e..]));
    } else {
      assert s[..i] == s && s[k..i] == s[k..];
    }
  }

  lemma SubStep(s: string, i: nat)
    requires s != "" && i == NextRaw(s) && !Head(s).RawSpan?
    ensures |Head(s).text| <= i
    ensures SubTokens(s[..i]) == Head(s).Rendered() + SubTokens(s[|Head(s).text|..i])
  {
    var h, gap, k := Head(s), s[..i], |Head(s).text|;
    assert s[0..] == s;
    assert i >= 1;
    assert gap[k..] == s[k..i] && gap[..k] == s[..k];
    if h.Plain? {
      if TokenLength(gap) > 0 {
        Slices(gap, s, i, TokenLength(gap));
        TokenPrefix(gap, s);
      }
      assert s[..1] == [gap[0]];
    } else {
      TokenPrefix(s, gap);
    }
  }

  lemma {:induction false} PiecesCover(s: string)
    ensures Originals(Pieces(s)) == s
    ensures |Piecewise(s)| == |s| + 21 * |BareTokens(s)|
    ensures forall p :: p in Pieces(s) ==> p.Valid()
    decreases |s|
  {
    if s != "" {
      Unfold(s);
      PiecesCover(Rest(s));
      var h := Head(s);
      assert Pieces(s)[1..] == Pieces(Rest(s));
      if h.RawSpan? {
        RawSpanPrefix(s, h.text);
      } else if !h.Plain? {
        TokenPrefix(s, h.text);
      }
    }
  }

  /** The piece is what the two patterns find at the start of `rest`, the text from the piece on: a raw span if one
      starts there, otherwise a token if one starts there and closes before the next raw span, otherwise neither. */
  predicate FoundAt(p: Piece, rest: string) {
    match p
    case RawSpan(t) => RawSpanLength(rest) == |t|
    case Kept(t) => RawSpanLength(rest) == 0 && TokenLength(rest) == |t| <= NextRaw(rest)
    case Wrapped(t) => RawSpanLength(rest) == 0 && TokenLength(rest) == |t| <= NextRaw(rest)
    case Plain(_) => RawSpanLength(rest) == 0 && !(0 < TokenLength(rest) <= NextRaw(rest))
  }

  lemma {:induction false} PieceFound(s: string, i: nat)
    requires i < |Pieces(s)|
    ensures FoundAt(Pieces(s)[i], Originals(Pieces(s)[i..]))
    decreases |s|
  {
    hide RawSpanLength, TokenLength, NextRaw, TrimmedBody;
    var ps := Pieces(s);
    PiecesCover(s);
    if i == 0 {
      assert ps[0..] == ps;
    } else {
      assert ps[1..] == Pieces(Rest(s));
      assert ps[i..] == ps[1..][i - 1..];
      PieceFound(Rest(s), i - 1);
    }
  }

  /** What becomes of a piece: exactly the tokens whose inner text is neither raw nor endraw are put between markers. */
  ghost predicate RenderedAsPromised(p: Piece) {
    match p
    case Plain(t) => p.Rendered() == t
    case RawSpan(t) => p.Rendered() == t
    case Kept(t) =>
      |t| >= 4 && (Strip(t[2..|t| - 2]) == "raw" || Strip(t[2..|t| - 2]) == "endraw") && p.Rendered() == t
    case Wrapped(t) =>
      |t| >= 4 && Strip(t[2..|t| - 2]) != "raw" && Strip(t[2..|t| - 2]) != "endraw"
      && p.Rendered() == "{% raw %}" + t + "{% endraw %}"
  }

  lemma ValidIsPromised(p: Piece)
    requires p.Valid()
    ensures RenderedAsPromised(p)
  {
    hide CloserEnd, Strip;
  }

  /** Escaping only inserts markers: the pieces put together are the input, and the output is the pieces with the
      wrapped ones between markers.  Raw spans are kept verbatim; the wrapped pieces are Liquid tokens whose trimmed
      body is neither raw nor endraw, the tokens left alone are those whose body is one of the two; and every piece is
      what the patterns find at its place, so that no other token is passed over. */
  lemma EscapeOnlyInserts(s: string)
    ensures Originals(Pieces(s)) == s
    ensures Escape(s) == Render(Pieces(s))
    ensures forall p :: p in Pieces(s) ==> p.Valid() && RenderedAsPromised(p)
    ensures forall i :: 0 <= i < |Pieces(s)| ==> FoundAt(Pieces(s)[i], Originals(Pieces(s)[i..]))
    ensures |Escape(s)| == |s| + 21 * |BareTokens(s)|
  {
    EscapeIsPiecewise(s);
    PiecesCover(s);
    hide Escape, Pieces, FoundAt, RenderedAsPromised, Piece.Valid;
    forall p | p in Pieces(s)
      ensures RenderedAsPromised(p)
    {
      ValidIsPromised(p);
    }
    forall i | 0 <= i < |Pieces(s)|
      ensures FoundAt(Pieces(s)[i], Originals(Pieces(s)[i..]))
    {
      PieceFound(s, i);
    }
  }

  /** Escaping leaves a text unchanged exactly if it has no bare token. */
  lemma UnchangedIffNoBareToken(s: string)
    ensures Escape(s) == s <==> BareTokens(s) == []
  {
    EscapeOnlyInserts(s);
    if BareTokens(s) == [] {
      NothingWrapped(s);
    }
  }

  lemma {:induction false} NothingWrapped(s: string)
    requires BareTokens(s) == []
    ensures Piecewise(s) == s
    decreases |s|
  {
    if s != "" {
      Unfold(s);
      NothingWrapped(Rest(s));
    }
  }
}
