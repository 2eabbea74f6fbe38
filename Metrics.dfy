/** The metrics pass of Process.swift: the glyph file is split into tokens, every
    token gets one FontMeta, and the cell size is the ceiling of the widest and
    tallest measured glyph. Text measurement is an input function `measure`. */
module Metrics {
  import opened Strings

  /** Extra advance added to every measured glyph width (`margin`). */
  const Margin: real := 1.0
  /** Label and width written for every token that is not a single character. */
  const PlaceholderLabel: string := "space"
  const PlaceholderWidth: int := 4

  /** A measured glyph size, as `size(withAttributes:)` reports it. */
  datatype Size = Size(width: real, height: real)

  datatype Axis = Horizontal | Vertical

  function Extent(s: Size, axis: Axis): real {
    match axis
    case Horizontal => s.width
    case Vertical => s.height
  }

  /** One line of the `.fnt` glyph table: a label and an advance width in pixels. */
  datatype FontMeta = FontMeta(glyph: string, width: int)

  /** Swift's `Int(_:)` on a floating-point value: truncation toward zero. */
  function Trunc(r: real): (n: int)
    ensures 0.0 <= r ==> n as real <= r < n as real + 1.0
    ensures r < 0.0 ==> n as real - 1.0 < r <= n as real
  {
    if r >= 0.0 then r.Floor else -((-r).Floor)
  }

  /** `Int(ceil(r))`: the least integer not below `r`. */
  function Ceil(r: real): (n: int)
    ensures r <= n as real < r + 1.0
  {
    -((-r).Floor)
  }

  /** The characters `components(separatedBy: .whitespacesAndNewlines)` splits at
      (the Unicode White_Space characters). */
  predicate IsWhitespaceOrNewline(c: char) {
    c == ' ' || c == '\t' || c == '\n' || c == '\r' || c == '\U{000B}' || c == '\U{000C}'
    || c == '\U{0085}' || c == '\U{00A0}' || c == '\U{1680}' || ('\U{2000}' <= c <= '\U{200A}')
    || c == '\U{2028}' || c == '\U{2029}' || c == '\U{202F}' || c == '\U{205F}' || c == '\U{3000}'
  }

  /** The token list read from the glyph file. */
  function GlyphList(content: string): (tokens: seq<string>)
    ensures |tokens| == SepCount(content, IsWhitespaceOrNewline) + 1
  {
    SplitCount(content, IsWhitespaceOrNewline);
    Split(content, IsWhitespaceOrNewline)
  }

  /** A token is drawn and measured only when it is exactly one character long. */
  predicate IsRenderable(glyph: string) {
    |glyph| == 1
  }

  /** The metadata one token contributes. */
  function MetaFor(glyph: string, measure: char -> Size): FontMeta {
    if IsRenderable(glyph) then FontMeta(glyph, Trunc(measure(glyph[0]).width + Margin))
    else FontMeta(PlaceholderLabel, PlaceholderWidth)
  }

  /** The metadata of a whole token list, built as the loop appends it. */
  function MetaList(glyphs: seq<string>, measure: char -> Size): (metas: seq<FontMeta>)
    ensures |metas| == |glyphs|
    ensures forall k :: 0 <= k < |glyphs| ==> metas[k] == MetaFor(glyphs[k], measure)
  {
    if glyphs == [] then []
    else MetaList(glyphs[..|glyphs| - 1], measure) + [MetaFor(glyphs[|glyphs| - 1], measure)]
  }

  /** The running maximum (`widest` or `tallest`) after the whole token list,
      starting from 0 and taking only single-character tokens into account. */
  function RunningMax(glyphs: seq<string>, measure: char -> Size, axis: Axis): (m: real)
    ensures m >= 0.0
  {
    if glyphs == [] then 0.0
    else
      var m := RunningMax(glyphs[..|glyphs| - 1], measure, axis);
      var g := glyphs[|glyphs| - 1];
      if IsRenderable(g) then Max(m, Extent(measure(g[0]), axis)) else m
  }

  /** Swift's `max(_:_:)`. */
  function Max(a: real, b: real): real {
    if b >= a then b else a
  }

  /** The measured extent of token `k` along `axis`, for a single-character token. */
  function MeasuredAt(glyphs: seq<string>, k: nat, measure: char -> Size, axis: Axis): real
    requires k < |glyphs| && IsRenderable(glyphs[k])
  {
    Extent(measure(glyphs[k][0]), axis)
  }

  /** The running maximum is the maximum of 0 and the extents of the single-character
      tokens: it bounds each of them, and it is 0 or attained by one of them.
      Placeholder tokens play no part. */
  lemma {:induction false} RunningMaxIsMaximum(glyphs: seq<string>, measure: char -> Size, axis: Axis)
    ensures RunningMax(glyphs, measure, axis) >= 0.0
    ensures forall k :: 0 <= k < |glyphs| && IsRenderable(glyphs[k]) ==>
      MeasuredAt(glyphs, k, measure, axis) <= RunningMax(glyphs, measure, axis)
    ensures RunningMax(glyphs, measure, axis) == 0.0 ||
      exists k :: 0 <= k < |glyphs| && IsRenderable(glyphs[k]) &&
        MeasuredAt(glyphs, k, measure, axis) == RunningMax(glyphs, measure, axis)
  {
    if glyphs != [] {
      var n := |glyphs| - 1;
      var init := glyphs[..n];
      RunningMaxIsMaximum(init, measure, axis);
      assert forall k :: 0 <= k < n ==> init[k] == glyphs[k];
      assert forall k :: 0 <= k < n && IsRenderable(glyphs[k]) ==>
        MeasuredAt(init, k, measure, axis) == MeasuredAt(glyphs, k, measure, axis);
    }
  }

  /** The cell size returned by `cellSize` holds every single-character glyph, is
      never negative, and is 0 along an axis when no glyph extends along it. */
  lemma CellHoldsEveryGlyph(glyphs: seq<string>, measure: char -> Size, axis: Axis)
    ensures Ceil(RunningMax(glyphs, measure, axis)) >= 0
    ensures forall k :: 0 <= k < |glyphs| && IsRenderable(glyphs[k]) ==>
      MeasuredAt(glyphs, k, measure, axis) <= Ceil(RunningMax(glyphs, measure, axis)) as real
    ensures (forall k :: 0 <= k < |glyphs| && IsRenderable(glyphs[k]) ==>
      MeasuredAt(glyphs, k, measure, axis) <= 0.0) ==> Ceil(RunningMax(glyphs, measure, axis)) == 0
  {
    RunningMaxIsMaximum(glyphs, measure, axis);
  }

  /** A single-character token is labelled with itself; its width is the measured
      width plus the margin, truncated (so for a non-negative width, floored). */
  lemma RenderableMeta(glyph: string, measure: char -> Size)
    requires IsRenderable(glyph) && measure(glyph[0]).width >= 0.0
    ensures MetaFor(glyph, measure).glyph == glyph
    ensures MetaFor(glyph, measure).width == (measure(glyph[0]).width + 1.0).Floor
    ensures MetaFor(glyph, measure).width >= 1
  {
  }

  /** Any other token (empty, or several characters) becomes `space` of width 4,
      whatever it holds and whatever the measurement would say. */
  lemma PlaceholderMeta(glyph: string, measure: char -> Size, other: char -> Size)
    requires !IsRenderable(glyph)
    ensures MetaFor(glyph, measure) == FontMeta("space", 4)
    ensures MetaFor(glyph, measure) == MetaFor(glyph, other)
  {
  }

  /** A trailing newline in the glyph file yields a final empty token, and so a
      final `space` entry. */
  lemma TrailingNewlineAddsSpace(content: string, measure: char -> Size)
    ensures var metas := MetaList(GlyphList(content + "\n"), measure);
      |metas| == |GlyphList(content)| + 1 && metas[|metas| - 1] == FontMeta("space", 4)
  {
    SplitConcat(content, '\n', "", IsWhitespaceOrNewline);
    assert content + "\n" == content + ['\n'] + "";
    SplitNoSep("", IsWhitespaceOrNewline);
  }

  /** The mutable state of `Process` that the metrics pass updates. */
  class Process {
    var metaList: seq<FontMeta>

    constructor ()
      ensures metaList == []
    {
      metaList := [];
    }

    /** `cellSize`: appends one FontMeta per token to `metaList` and returns the
        cell width and height. */
    method CellSize(glyphs: seq<string>, measure: char -> Size) returns (width: int, height: int)
      modifies this
      ensures metaList == old(metaList) + MetaList(glyphs, measure)
      ensures width == Ceil(RunningMax(glyphs, measure, Horizontal))
      ensures height == Ceil(RunningMax(glyphs, measure, Vertical))
    {
      var tallest: real := 0.0;
      var widest: real := 0.0;
      for i := 0 to |glyphs|
        invariant metaList == old(metaList) + MetaList(glyphs[..i], measure)
        invariant widest == RunningMax(glyphs[..i], measure, Horizontal)
        invariant tallest == RunningMax(glyphs[..i], measure, Vertical)
      {
        var glyph := glyphs[i];
        assert glyphs[..i + 1][..i] == glyphs[..i];
        if |glyph| == 1 {
          var size := measure(glyph[0]);
          tallest := Max(tallest, size.height);
          widest := Max(widest, size.width);
          metaList := metaList + [FontMeta(glyph, Trunc(size.width + Margin))];
        } else {
          metaList := metaList + [FontMeta(PlaceholderLabel, PlaceholderWidth)];
        }
      }
      assert glyphs[..|glyphs|] == glyphs;
      width := Ceil(widest);
      height := Ceil(tallest);
    }
  }
}
