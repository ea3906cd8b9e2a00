/**
 * The layout buffer (`TextLayout`, src/buffer.rs): the line records of a
 * text, the buffer's size, wrap mode and scroll, the incremental shaping of
 * lines, and the mapping from a logical cursor to a glyph slot.
 *
 * The size and the scroll are in the units the source uses: pixels (reals)
 * and layout lines (`i32`).  The shaping engine is the `Shaper` held by the
 * buffer.
 */
module Buffer {
  import opened Wrappers
  import opened Attributes
  import opened SpanMap
  import opened Cursors
  import opened Layout
  import opened LayoutRuns
  import opened TextLines
  import HitTest

  /** `f32::MAX`, the size of a new buffer. */
  const F32Max: real := 340282346638528859811704183484516925440.0

  function Max(a: real, b: real): real {
    if a < b then b else a
  }

  /**
   * A line record whose cached shape, if any, agrees with its text and
   * attributes, and which caches a layout only along with a shape: what is
   * left of `Coherent` when the buffer's width or wrap mode has changed.
   */
  ghost predicate ShapeCoherent(sh: Shaper, line: LineRecord) {
    && line.attrs.Valid()
    && (line.shape.Some? ==> line.shape.value == sh.shape(line.text, line.attrs))
    && (line.layout.Some? ==> line.shape.Some?)
  }

  /** The number of layout lines of the first `j` line records once laid out. */
  function LayoutSum(sh: Shaper, lines: seq<LineRecord>, width: real, wrap: Wrap, j: nat): nat
    requires j <= |lines|
  {
    if j == 0 then 0 else LayoutSum(sh, lines, width, wrap, j - 1) + |LayoutOf(sh, lines[j - 1], width, wrap)|
  }

  /**
   * How many line records `shape_until(n)` lays out, from `j` on: it goes on
   * while the layout lines so far number fewer than `n`.
   */
  function ShapeStop(sh: Shaper, lines: seq<LineRecord>, width: real, wrap: Wrap, n: int, j: nat): (r: nat)
    requires j <= |lines|
    ensures j <= r <= |lines|
    decreases |lines| - j
  {
    if j == |lines| || LayoutSum(sh, lines, width, wrap, j) >= n then j
    else ShapeStop(sh, lines, width, wrap, n, j + 1)
  }

  /**
   * `shape_until(n)` stops at the first line, from `j` on, before which `n`
   * layout lines have been counted, or at the end.
   */
  lemma {:induction false} ShapeStopSpec(sh: Shaper, lines: seq<LineRecord>, width: real, wrap: Wrap, n: int, j: nat, t: nat)
    requires j <= |lines|
    ensures j <= t < ShapeStop(sh, lines, width, wrap, n, j) ==> LayoutSum(sh, lines, width, wrap, t) < n
    ensures var r := ShapeStop(sh, lines, width, wrap, n, j);
            r == |lines| || LayoutSum(sh, lines, width, wrap, r) >= n
    decreases |lines| - j
  {
    if !(j == |lines| || LayoutSum(sh, lines, width, wrap, j) >= n) {
      ShapeStopSpec(sh, lines, width, wrap, n, j + 1, t);
    }
  }

  /** Whether one of the first `j` lines is not shaped yet. */
  function Unshaped(lines: seq<LineRecord>, j: nat): bool
    requires j <= |lines|
  {
    j > 0 && (Unshaped(lines, j - 1) || lines[j - 1].shape.None?)
  }

  lemma {:induction false} UnshapedSpec(lines: seq<LineRecord>, j: nat)
    requires j <= |lines|
    ensures Unshaped(lines, j) <==> exists t :: 0 <= t < j && lines[t].shape.None?
  {
    if j > 0 {
      UnshapedSpec(lines, j - 1);
      if lines[j - 1].shape.None? {
        assert exists t :: 0 <= t < j && lines[t].shape.None? by { assert lines[j - 1].shape.None?; }
      }
    }
  }

  /** `shape_until(n)` with `n <= 0` lays out nothing. */
  lemma ShapeStopNonPositive(sh: Shaper, lines: seq<LineRecord>, width: real, wrap: Wrap, n: int)
    requires n <= 0
    ensures ShapeStop(sh, lines, width, wrap, n, 0) == 0
  {
  }

  /** The line records with the first `m` laid out. */
  function LaidOutUpTo(sh: Shaper, lines: seq<LineRecord>, width: real, wrap: Wrap, m: nat): (r: seq<LineRecord>)
    ensures |r| == |lines|
    ensures forall t :: 0 <= t < |lines| ==> r[t] == if t < m then LaidOut(sh, lines[t], width, wrap) else lines[t]
  {
    seq(|lines|, t requires 0 <= t < |lines| => if t < m then LaidOut(sh, lines[t], width, wrap) else lines[t])
  }

  /** Laying out lines keeps them coherent. */
  lemma LaidOutUpToCoherent(sh: Shaper, lines: seq<LineRecord>, width: real, wrap: Wrap, a: nat)
    requires forall t :: 0 <= t < |lines| ==> Coherent(sh, lines[t], width, wrap)
    ensures forall t :: 0 <= t < |lines| ==> Coherent(sh, LaidOutUpTo(sh, lines, width, wrap, a)[t], width, wrap)
  {
    forall t | 0 <= t < |lines| ensures Coherent(sh, LaidOutUpTo(sh, lines, width, wrap, a)[t], width, wrap) {
      LaidOutCoherent(sh, lines[t], width, wrap);
    }
  }

  /**
   * Laying out the first `a` lines and then the first `b` is laying out the
   * first `max(a, b)`, and one of those had to be shaped when one of the
   * first `a` or, after them, one of the first `b` was not.
   */
  lemma LaidOutTwice(sh: Shaper, lines: seq<LineRecord>, width: real, wrap: Wrap, a: nat, b: nat)
    ensures LaidOutUpTo(sh, LaidOutUpTo(sh, lines, width, wrap, a), width, wrap, b) ==
            LaidOutUpTo(sh, lines, width, wrap, Max2(a, b))
    ensures b <= |lines| && a <= |lines| ==>
            (Unshaped(lines, a) || Unshaped(LaidOutUpTo(sh, lines, width, wrap, a), b) <==> Unshaped(lines, Max2(a, b)))
  {
    if b <= |lines| && a <= |lines| {
      UnshapedLaidOut(sh, lines, width, wrap, a, b);
    }
  }

  lemma {:induction false} UnshapedLaidOut(sh: Shaper, lines: seq<LineRecord>, width: real, wrap: Wrap, a: nat, b: nat)
    requires a <= |lines| && b <= |lines|
    ensures Unshaped(lines, a) || Unshaped(LaidOutUpTo(sh, lines, width, wrap, a), b) <==> Unshaped(lines, Max2(a, b))
  {
    if b > 0 {
      UnshapedLaidOut(sh, lines, width, wrap, a, b - 1);
      if a > 0 && b > a {
        UnshapedMono(lines, a, b - 1);
      }
    }
  }

  /** Unshaped lines among the first `a` are among the first `b >= a`. */
  lemma {:induction false} UnshapedMono(lines: seq<LineRecord>, a: nat, b: nat)
    requires a <= b <= |lines|
    ensures Unshaped(lines, a) ==> Unshaped(lines, b)
    decreases b - a
  {
    if a < b {
      UnshapedMono(lines, a, b - 1);
    }
  }

  /** Line records with the same texts and attributes have the same layout lines. */
  lemma {:induction false} LayoutSumSame(sh: Shaper, a: seq<LineRecord>, b: seq<LineRecord>, width: real, wrap: Wrap, j: nat)
    requires j <= |a| == |b|
    requires forall t :: 0 <= t < |a| ==> a[t].text == b[t].text && a[t].attrs == b[t].attrs
    ensures LayoutSum(sh, a, width, wrap, j) == LayoutSum(sh, b, width, wrap, j)
  {
    if j > 0 {
      LayoutSumSame(sh, a, b, width, wrap, j - 1);
    }
  }

  /**
   * `relayout`: every shaped line drops its layout and is laid out again; the
   * unshaped ones stay as they are.
   */
  function Relaid(sh: Shaper, lines: seq<LineRecord>, width: real, wrap: Wrap): (r: seq<LineRecord>)
    ensures |r| == |lines|
  {
    seq(|lines|, t requires 0 <= t < |lines| =>
      if lines[t].shape.Some? then LaidOut(sh, ResetLayout(lines[t]), width, wrap) else lines[t])
  }

  /**
   * Relaying out makes lines coherent with the new width and wrap mode: each
   * shaped line keeps its shape and gets the layout of that shape, and no
   * line gains or loses a shape.
   */
  lemma RelaidCoherent(sh: Shaper, lines: seq<LineRecord>, width: real, wrap: Wrap)
    requires forall t :: 0 <= t < |lines| ==> ShapeCoherent(sh, lines[t])
    ensures forall t :: 0 <= t < |lines| ==> Coherent(sh, Relaid(sh, lines, width, wrap)[t], width, wrap)
    ensures forall t :: 0 <= t < |lines| ==>
              && Relaid(sh, lines, width, wrap)[t].shape == lines[t].shape
              && (Relaid(sh, lines, width, wrap)[t].layout.Some? <==> lines[t].shape.Some?)
              && Relaid(sh, lines, width, wrap)[t].text == lines[t].text
              && Relaid(sh, lines, width, wrap)[t].attrs == lines[t].attrs
  {
  }

  /** A line coherent at some width and wrap mode has a coherent shape. */
  lemma CoherentShape(sh: Shaper, line: LineRecord, width: real, wrap: Wrap)
    requires Coherent(sh, line, width, wrap)
    ensures ShapeCoherent(sh, line)
  {
  }

  /** The left boundary cursor of a glyph on line `line`: its end if it runs right to left. */
  function GlyphLeft(line: nat, g: Glyph): Cursor {
    if g.rtl then Cursor(line, g.end, Before) else Cursor(line, g.start, After)
  }

  /** The right boundary cursor of a glyph on line `line`: its start if it runs right to left. */
  function GlyphRight(line: nat, g: Glyph): Cursor {
    if g.rtl then Cursor(line, g.start, After) else Cursor(line, g.end, Before)
  }

  predicate IsBoundary(c: Cursor, g: Glyph) {
    c == GlyphLeft(c.line, g) || c == GlyphRight(c.line, g)
  }

  /** The first glyph from `from` on that has `c` for a boundary. */
  function FindGlyph(glyphs: seq<Glyph>, c: Cursor, from: nat): (r: Option<nat>)
    requires from <= |glyphs|
    ensures r.Some? ==> from <= r.value < |glyphs| && IsBoundary(c, glyphs[r.value])
    ensures r.Some? ==> forall u :: from <= u < r.value ==> !IsBoundary(c, glyphs[u])
    ensures r.None? <==> forall u :: from <= u < |glyphs| ==> !IsBoundary(c, glyphs[u])
    decreases |glyphs| - from
  {
    if from == |glyphs| then None
    else if IsBoundary(c, glyphs[from]) then Some(from)
    else FindGlyph(glyphs, c, from + 1)
  }

  /** The first layout line from `from` on with a glyph that has `c` for a boundary, and that glyph. */
  function FindLayout(layout: seq<LayoutLine>, c: Cursor, from: nat): (r: Option<(nat, nat)>)
    requires from <= |layout|
    ensures r.Some? ==> from <= r.value.0 < |layout| && FindGlyph(layout[r.value.0].glyphs, c, 0) == Some(r.value.1)
    ensures r.Some? ==> forall u :: from <= u < r.value.0 ==> FindGlyph(layout[u].glyphs, c, 0).None?
    ensures r.None? <==> forall u :: from <= u < |layout| ==> FindGlyph(layout[u].glyphs, c, 0).None?
    decreases |layout| - from
  {
    if from == |layout| then None
    else match FindGlyph(layout[from].glyphs, c, 0)
      case Some(g) => Some((from, g))
      case None => FindLayout(layout, c, from + 1)
  }

  /**
   * `layout_cursor`: the glyph slot of the first glyph, in layout order, that
   * has the cursor for a boundary; the slot before the glyph for its left
   * boundary and the one after it for its right boundary.  With no such glyph,
   * the start of the line.
   */
  function CursorSlot(layout: seq<LayoutLine>, c: Cursor): (r: LayoutCursor)
    ensures r.line == c.line
    ensures (forall u :: 0 <= u < |layout| ==> FindGlyph(layout[u].glyphs, c, 0).None?) ==> r == LayoutCursor(c.line, 0, 0)
  {
    match FindLayout(layout, c, 0)
    case Some((li, gi)) =>
      LayoutCursor(c.line, li, if c == GlyphLeft(c.line, layout[li].glyphs[gi]) then gi else gi + 1)
    case None => LayoutCursor(c.line, 0, 0)
  }

  /**
   * A cursor found on a glyph's boundary sits before the glyph when it is
   * its left boundary: at the glyph's start for a left-to-right glyph, bound
   * to the text after it; and past the glyph otherwise.
   */
  lemma CursorSlotBoundary(layout: seq<LayoutLine>, c: Cursor)
    requires FindLayout(layout, c, 0).Some?
    ensures var (li, gi) := FindLayout(layout, c, 0).value;
            var g := layout[li].glyphs[gi];
            && CursorSlot(layout, c).layout == li
            && (CursorSlot(layout, c).glyph == gi <==> c == GlyphLeft(c.line, g))
            && (CursorSlot(layout, c).glyph == gi + 1 <==> c != GlyphLeft(c.line, g) && c == GlyphRight(c.line, g))
            && (!g.rtl && c.index == g.start && c.affinity == After ==> CursorSlot(layout, c).glyph == gi)
  {
  }

  /**
   * The loops of `layout_cursor` over the layout lines of a laid-out line and
   * their glyphs.
   */
  method FindCursorSlot(layout: seq<LayoutLine>, c: Cursor) returns (r: LayoutCursor)
    ensures r == CursorSlot(layout, c)
  {
    for li := 0 to |layout|
      invariant forall u :: 0 <= u < li ==> FindGlyph(layout[u].glyphs, c, 0).None?
    {
      var glyphs := layout[li].glyphs;
      for gi := 0 to |glyphs|
        invariant forall u :: 0 <= u < gi ==> !IsBoundary(c, glyphs[u])
      {
        var glyph := glyphs[gi];
        var cursorEnd := Cursor(c.line, glyph.end, Before);
        var cursorStart := Cursor(c.line, glyph.start, After);
        var cursorLeft, cursorRight := cursorStart, cursorEnd;
        if glyph.rtl {
          cursorLeft, cursorRight := cursorEnd, cursorStart;
        }
        if c == cursorLeft || c == cursorRight {
          FoundFirst(layout, c, li, gi);
          if c == cursorLeft {
            return LayoutCursor(c.line, li, gi);
          }
          return LayoutCursor(c.line, li, gi + 1);
        }
      }
    }
    return LayoutCursor(c.line, 0, 0);
  }

  /** A boundary at glyph `gi` of layout line `li`, with none before it, is the first one. */
  lemma FoundFirst(layout: seq<LayoutLine>, c: Cursor, li: nat, gi: nat)
    requires li < |layout| && gi < |layout[li].glyphs| && IsBoundary(c, layout[li].glyphs[gi])
    requires forall u :: 0 <= u < li ==> FindGlyph(layout[u].glyphs, c, 0).None?
    requires forall u :: 0 <= u < gi ==> !IsBoundary(c, layout[li].glyphs[u])
    ensures FindLayout(layout, c, 0) == Some((li, gi))
  {
    var g := FindGlyph(layout[li].glyphs, c, 0);
    assert g == Some(gi);
    var f := FindLayout(layout, c, 0);
    assert f.Some?;
    assert f.value.0 == li;
  }

  /** The layout lines, in the buffer, before the one a cursor is on; and the cursor's in its line. */
  function CursorLayoutIndex(sh: Shaper, lines: seq<LineRecord>, width: real, wrap: Wrap, c: Cursor): nat {
    if c.line < |lines| then
      LayoutSum(sh, lines, width, wrap, c.line) + CursorSlot(LayoutOf(sh, lines[c.line], width, wrap), c).layout
    else LayoutSum(sh, lines, width, wrap, |lines|)
  }

  /** The buffer of shaped and laid-out text (`TextLayout`). */
  class TextLayout {
    const shaper: Shaper
    var lines: seq<LineRecord>
    var width: real
    var height: real
    var scroll: i32
    var redraw: bool
    var wrap: Wrap

    /** There is always a line, and every line's caches agree with the buffer. */
    ghost predicate Valid()
      reads this
    {
      && |lines| >= 1
      && forall t :: 0 <= t < |lines| ==> Coherent(shaper, lines[t], width, wrap)
    }

    /**
     * `TextLayout::new`: an unbounded buffer, word wrapped, holding the empty
     * text with the default attributes, laid out.
     */
    constructor (shaper: Shaper)
      ensures Valid() && this.shaper == shaper
      ensures width == F32Max && height == F32Max && wrap == WordWrap && scroll == 0 && redraw
      ensures lines == [LaidOut(shaper, NewLine([], AttrsListValue(AttrsOwnedNew(DefaultAttrs()), []), 0), F32Max, WordWrap)]
    {
      this.shaper := shaper;
      lines := [];
      width := F32Max;
      height := F32Max;
      scroll := 0;
      redraw := false;
      wrap := WordWrap;
      new;
      var attrs := new AttrsList(DefaultAttrs());
      SetText([], attrs);
      assert SplitTerminator([]) == [];
    }

    /**
     * `relayout`: lay out every shaped line again at the current width and
     * wrap mode, after either has changed.
     */
    method Relayout()
      requires |lines| >= 1 && forall t :: 0 <= t < |lines| ==> ShapeCoherent(shaper, lines[t])
      modifies this
      ensures Valid()
      ensures lines == Relaid(shaper, old(lines), width, wrap)
      ensures redraw
      ensures width == old(width) && height == old(height) && wrap == old(wrap) && scroll == old(scroll)
    {
      RelaidCoherent(shaper, lines, width, wrap);
      var ls := lines;
      for t := 0 to |ls|
        invariant |ls| == |lines|
        invariant forall u :: 0 <= u < |ls| ==> ls[u] == if u < t then Relaid(shaper, lines, width, wrap)[u] else lines[u]
      {
        if ls[t].shape.Some? {
          ls := ls[t := LaidOut(shaper, ResetLayout(ls[t]), width, wrap)];
        }
      }
      lines := ls;
      redraw := true;
    }

    /**
     * `shape_until(n)`: lay out the lines in order, stopping before any line
     * reached once `n` layout lines have been counted, and return that count.
     * A redraw is needed when a line had to be shaped.
     */
    method ShapeUntil(n: i32) returns (total: nat)
      requires Valid()
      modifies this
      ensures Valid()
      ensures var stop := ShapeStop(shaper, old(lines), width, wrap, n as int, 0);
              && lines == LaidOutUpTo(shaper, old(lines), width, wrap, stop)
              && total == LayoutSum(shaper, old(lines), width, wrap, stop)
              && redraw == (old(redraw) || Unshaped(old(lines), stop))
      ensures width == old(width) && height == old(height) && wrap == old(wrap) && scroll == old(scroll)
    {
      LaidOutUpToCoherent(shaper, lines, width, wrap, ShapeStop(shaper, lines, width, wrap, n as int, 0));
      var ls, reshaped;
      ls, total, reshaped := ShapeLines(shaper, lines, width, wrap, n as int);
      lines := ls;
      if reshaped {
        redraw := true;
      }
    }

    /**
     * `shape_until_scroll`: lay out the lines up to the end of the view, whose
     * height in layout lines is `i32::MAX`, and bring the scroll back to the
     * top.  The source adds `i32::MAX` to the scroll, which only stays in
     * range when the scroll is not positive.
     */
    method ShapeUntilScroll()
      requires Valid() && scroll <= 0
      modifies this
      ensures Valid() && scroll == 0
      ensures var stop := ShapeStop(shaper, old(lines), width, wrap, old(scroll) as int + I32Max, 0);
              && lines == LaidOutUpTo(shaper, old(lines), width, wrap, stop)
              && redraw == (old(redraw) || Unshaped(old(lines), stop))
      ensures width == old(width) && height == old(height) && wrap == old(wrap)
    {
      LaidOutUpToCoherent(shaper, lines, width, wrap, ShapeStop(shaper, lines, width, wrap, scroll as int + I32Max, 0));
      var ls, s, reshaped := ScrollLines(shaper, lines, width, wrap, scroll);
      lines, scroll := ls, s;
      if reshaped {
        redraw := true;
      }
    }

    /**
     * `shape_until_cursor`: lay out the lines up to the cursor's, find the
     * cursor's layout line, scroll it into view, and lay out up to the end of
     * the view.  The source's `i32` arithmetic stays in range when the scroll
     * is not positive and the cursor's layout line comes before the
     * `i32::MAX`-th.
     */
    method ShapeUntilCursor(c: Cursor)
      requires Valid() && scroll <= 0
      requires CursorLayoutIndex(shaper, lines, width, wrap, c) < I32Max
      modifies this
      ensures Valid() && scroll == 0
      ensures var m := CursorShapeStop(shaper, old(lines), width, wrap, old(scroll) as int, c);
              && lines == LaidOutUpTo(shaper, old(lines), width, wrap, m)
              && redraw == (old(redraw) || Unshaped(old(lines), m))
      ensures width == old(width) && height == old(height) && wrap == old(wrap)
    {
      var ls, s, reshaped := CursorLines(shaper, lines, width, wrap, scroll, c);
      LaidOutUpToCoherent(shaper, lines, width, wrap, CursorShapeStop(shaper, lines, width, wrap, scroll as int, c));
      lines, scroll := ls, s;
      if reshaped {
        redraw := true;
      }
    }

    /** `layout_cursor`: the glyph slot of a cursor on a laid-out line. */
    method LayoutCursorOf(c: Cursor) returns (r: LayoutCursor)
      requires c.line < |lines| && lines[c.line].layout.Some?
      ensures r == CursorSlot(lines[c.line].layout.value, c)
    {
      r := FindCursorSlot(lines[c.line].layout.value, c);
    }

    /**
     * `set_wrap`: a new wrap mode lays every shaped line out again and shapes
     * up to the end of the view; the same one changes nothing.
     */
    method SetWrap(w: Wrap)
      requires Valid() && (w != wrap ==> scroll <= 0)
      modifies this
      ensures Valid() && wrap == w && width == old(width) && height == old(height)
      ensures old(wrap) == w ==> lines == old(lines) && scroll == old(scroll) && redraw == old(redraw)
      ensures old(wrap) != w ==>
                var relaid := Relaid(shaper, old(lines), width, w);
                && scroll == 0 && redraw
                && lines == LaidOutUpTo(shaper, relaid, width, w, ShapeStop(shaper, relaid, width, w, old(scroll) as int + I32Max, 0))
    {
      if w != wrap {
        ShapesCoherent();
        wrap := w;
        Relayout();
        ShapeUntilScroll();
      }
    }

    /**
     * `set_size`: the size, with negative sides taken as zero; a new size
     * lays every shaped line out again and shapes up to the end of the view,
     * the same one changes nothing.
     */
    method SetSize(w: real, h: real)
      requires Valid() && ((Max(w, 0.0) != width || Max(h, 0.0) != height) ==> scroll <= 0)
      modifies this
      ensures Valid() && wrap == old(wrap)
      ensures width == Max(w, 0.0) && height == Max(h, 0.0)
      ensures width == old(width) && height == old(height) ==>
                lines == old(lines) && scroll == old(scroll) && redraw == old(redraw)
      ensures (width != old(width) || height != old(height)) ==>
                var relaid := Relaid(shaper, old(lines), width, wrap);
                && scroll == 0 && redraw
                && lines == LaidOutUpTo(shaper, relaid, width, wrap, ShapeStop(shaper, relaid, width, wrap, old(scroll) as int + I32Max, 0))
    {
      var clampedWidth := Max(w, 0.0);
      var clampedHeight := Max(h, 0.0);
      if clampedWidth != width || clampedHeight != height {
        ShapesCoherent();
        width := clampedWidth;
        height := clampedHeight;
        Relayout();
        ShapeUntilScroll();
      }
    }

    /** Every line of a valid buffer has a coherent shape, whatever the width and wrap mode. */
    lemma ShapesCoherent()
      requires Valid()
      ensures |lines| >= 1 && forall t :: 0 <= t < |lines| ==> ShapeCoherent(shaper, lines[t])
    {
      forall t | 0 <= t < |lines| ensures ShapeCoherent(shaper, lines[t]) {
        CoherentShape(shaper, lines[t], width, wrap);
      }
    }

    /** `set_scroll`: a new scroll needs a redraw; the same one changes nothing. */
    method SetScroll(s: i32)
      requires Valid()
      modifies this
      ensures Valid() && scroll == s && lines == old(lines)
      ensures redraw == (old(redraw) || s != old(scroll))
      ensures width == old(width) && height == old(height) && wrap == old(wrap)
    {
      if s != scroll {
        scroll := s;
        redraw := true;
      }
    }

    /**
     * `set_text`: replace the lines by those of `text`, each with its part of
     * `attrs`, scroll to the top and lay out up to the end of the view.  The
     * attribute list is consumed.
     */
    method SetText(text: string, attrs: AttrsList)
      requires attrs.Valid()
      modifies this, attrs
      ensures Valid() && scroll == 0 && redraw
      ensures var built := TextLines.TextLines(text, old(attrs.Value()));
              lines == LaidOutUpTo(shaper, built, width, wrap, ShapeStop(shaper, built, width, wrap, I32Max, 0))
      ensures width == old(width) && height == old(height) && wrap == old(wrap)
    {
      var ls, reshaped := SetTextLines(shaper, text, attrs, width, wrap);
      lines, scroll := ls, 0;
      if reshaped {
        redraw := true;
      }
    }

    /** `layout_runs`: an iterator over the visible runs of the buffer as it is now. */
    method LayoutRuns() returns (iter: LayoutRunIter)
      requires |Slots(lines, 0)| <= I32Max
      ensures fresh(iter) && iter.Valid() && !iter.done && iter.count == 0
      ensures iter.lines == lines && iter.scroll == scroll as int && iter.height == height
    {
      iter := new LayoutRunIter(lines, scroll as int, height);
    }

    /** `hit`: the cursor under the point `(x, y)` of the view, if any. */
    method Hit(x: real, y: real) returns (r: Option<Cursor>)
      requires |Slots(lines, 0)| <= I32Max
      requires var runs := VisibleRuns(lines, scroll as int, height);
               forall i :: 0 <= i < |runs| ==> HitTest.WellFormed(runs[i])
      ensures r == HitTest.HitSpec(VisibleRuns(lines, scroll as int, height), x, y)
    {
      var runs := CollectRuns(lines, scroll as int, height);
      r := HitTest.Hit(runs, x, y);
    }

    /** `hit_point`: the line and index under the point `(x, y)`, and whether the point is on a glyph. */
    method HitPointOf(x: real, y: real) returns (hp: HitTest.HitPoint)
      requires |Slots(lines, 0)| <= I32Max
      requires var runs := VisibleRuns(lines, scroll as int, height);
               forall i :: 0 <= i < |runs| ==> HitTest.WellFormed(runs[i])
      ensures hp == HitTest.HitPointSpec(VisibleRuns(lines, scroll as int, height), x, y)
    {
      var runs := CollectRuns(lines, scroll as int, height);
      hp := HitTest.HitPointOf(runs, x, y);
    }

    /** `line_col_position`: the point of a line and column of the view. */
    method LineColPosition(line: nat, col: nat) returns (p: HitTest.HitPosition)
      requires |Slots(lines, 0)| <= I32Max
      ensures p == HitTest.LineColSpec(VisibleRuns(lines, scroll as int, height), line, col)
    {
      var runs := CollectRuns(lines, scroll as int, height);
      p := HitTest.LineColPosition(runs, line, col);
    }

    /** `size`: the width of the widest visible line and the height of all of them. */
    method Size() returns (w: real, h: real)
      requires |Slots(lines, 0)| <= I32Max
      ensures w == MaxLineW(VisibleRuns(lines, scroll as int, height))
      ensures h == SumLineHeight(VisibleRuns(lines, scroll as int, height))
    {
      var runs := CollectRuns(lines, scroll as int, height);
      w, h := RunsSize(runs);
    }

    /** `hit_position`: the point of a text index of the view. */
    method HitPositionOf(idx: nat) returns (p: HitTest.HitPosition)
      requires |Slots(lines, 0)| <= I32Max
      ensures p == HitTest.HitPositionSpec(VisibleRuns(lines, scroll as int, height), idx)
    {
      var runs := CollectRuns(lines, scroll as int, height);
      p := HitTest.HitPositionOf(runs, idx);
    }
  }

  /** A line that has to be shaped among the first `j` once the first one has to be. */
  lemma {:induction false} UnshapedFirst(lines: seq<LineRecord>, j: nat)
    requires 1 <= j <= |lines| && lines[0].shape.None?
    ensures Unshaped(lines, j)
  {
    if j > 1 {
      UnshapedFirst(lines, j - 1);
    }
  }

  /**
   * The work of `set_text` on the lines: build the line records of the text
   * and lay them out up to the end of the view from the top, which shapes at
   * least the first of them.
   */
  method SetTextLines(sh: Shaper, text: string, attrs: AttrsList, width: real, wrap: Wrap)
      returns (ls: seq<LineRecord>, reshaped: bool)
    requires attrs.Valid()
    modifies attrs
    ensures reshaped
    ensures var built := TextLines.TextLines(text, old(attrs.Value()));
            var stop := ShapeStop(sh, built, width, wrap, I32Max, 0);
            && 1 <= stop
            && ls == LaidOutUpTo(sh, built, width, wrap, stop)
            && |ls| >= 1 && forall t :: 0 <= t < |ls| ==> Coherent(sh, ls[t], width, wrap)
  {
    ghost var v := attrs.Value();
    var built := BuildTextLines(text, attrs);
    TextLinesCoherent(sh, text, v, width, wrap);
    TextLinesSpec(text, v, 0);
    FirstLinesShaped(sh, built, width, wrap);
    var s;
    ls, s, reshaped := ScrollLines(sh, built, width, wrap, 0);
  }

  /** The line records of a text, split off the attribute list as `set_text` does. */
  method BuildTextLines(text: string, attrs: AttrsList) returns (built: seq<LineRecord>)
    requires attrs.Valid()
    modifies attrs
    ensures built == TextLines.TextLines(text, old(attrs.Value()))
  {
    var pieces := SplitTerminator(text);
    built := BuildLines(pieces, attrs);
  }

  /**
   * Laying out unshaped lines up to the end of a view from the top lays out
   * and shapes at least the first.
   */
  lemma FirstLinesShaped(sh: Shaper, lines: seq<LineRecord>, width: real, wrap: Wrap)
    requires |lines| >= 1 && lines[0].shape.None?
    requires forall t :: 0 <= t < |lines| ==> Coherent(sh, lines[t], width, wrap)
    ensures var stop := ShapeStop(sh, lines, width, wrap, I32Max, 0);
            && 1 <= stop && Unshaped(lines, stop)
            && forall t :: 0 <= t < |lines| ==> Coherent(sh, LaidOutUpTo(sh, lines, width, wrap, stop)[t], width, wrap)
  {
    var stop := ShapeStop(sh, lines, width, wrap, I32Max, 0);
    assert LayoutSum(sh, lines, width, wrap, 0) == 0;
    UnshapedFirst(lines, stop);
    LaidOutUpToCoherent(sh, lines, width, wrap, stop);
  }

  /** The line records of a text are all unshaped, with a valid attribute list each. */
  lemma TextLinesCoherent(sh: Shaper, text: string, v: AttrsListValue, width: real, wrap: Wrap)
    requires v.Valid()
    ensures var ls := TextLines.TextLines(text, v);
            forall t :: 0 <= t < |ls| ==> Coherent(sh, ls[t], width, wrap)
  {
    var ls := TextLines.TextLines(text, v);
    var pieces := SplitTerminator(text);
    forall t | 0 <= t < |ls| ensures Coherent(sh, ls[t], width, wrap) {
      if pieces != [] {
        LineAttrsLookup(v, pieces, t, 0);
      }
    }
  }

  /**
   * One piece of `set_text`'s loop: strip its carriage return, split off the
   * attributes past its line feed, and make its line record of what is left.
   */
  method CarveLine(cur: AttrsList, piece: string, startIndex: nat,
                   ghost v: AttrsListValue, ghost pieces: seq<string>, ghost i: nat)
      returns (line: LineRecord, next: AttrsList)
    requires i < |pieces| && piece == pieces[i] && startIndex == StartIndex(pieces, i)
    requires cur.Valid() && cur.Value() == Carved(v, pieces, i)
    modifies cur
    ensures fresh(next) && next.Valid() && next.Value() == Carved(v, pieces, i + 1)
    ensures line == PieceLine(v, pieces, i)
  {
    var l := |piece|;
    var text, hadR := piece, false;
    if l > 0 && piece[l - 1] == '\r' {
      text, hadR := piece[..l - 1], true;
    }
    assert text == StripCr(piece) && hadR == HadR(piece);
    var at := |text| + 1 + if hadR then 1 else 0;
    assert at == |pieces[i]| + 1;
    next := cur.SplitOff(at);
    line := NewLine(text, cur.Value(), startIndex);
  }

  /**
   * The loop of `set_text`: one line record per piece, each with its text,
   * its part of the attribute list, split off the rest, and its start index;
   * or a single empty line with the whole list when there is no piece.
   */
  method BuildLines(pieces: seq<string>, attrs: AttrsList) returns (lines: seq<LineRecord>)
    requires attrs.Valid()
    modifies attrs
    ensures pieces == [] ==> lines == [NewLine([], old(attrs.Value()), 0)]
    ensures pieces != [] ==> lines == PieceLines(old(attrs.Value()), pieces, |pieces|)
  {
    ghost var v := attrs.Value();
    lines := [];
    var cur := attrs;
    var startIndex := 0;
    for i := 0 to |pieces|
      invariant cur == attrs || fresh(cur)
      invariant cur.Valid() && cur.Value() == Carved(v, pieces, i)
      invariant startIndex == StartIndex(pieces, i)
      invariant lines == PieceLines(v, pieces, i)
    {
      var line, next := CarveLine(cur, pieces[i], startIndex, v, pieces, i);
      lines := lines + [line];
      cur := next;
      startIndex := startIndex + |pieces[i]| + 1;
    }
    if lines == [] {
      lines := [NewLine([], cur.Value(), 0)];
    }
  }

  /** How many lines `shape_until` lays out only depends on the lines' texts and attributes. */
  lemma {:induction false} ShapeStopSame(sh: Shaper, a: seq<LineRecord>, b: seq<LineRecord>, width: real, wrap: Wrap, n: int, j: nat)
    requires j <= |a| == |b|
    requires forall t :: 0 <= t < |a| ==> a[t].text == b[t].text && a[t].attrs == b[t].attrs
    ensures ShapeStop(sh, a, width, wrap, n, j) == ShapeStop(sh, b, width, wrap, n, j)
    decreases |a| - j
  {
    LayoutSumSame(sh, a, b, width, wrap, j);
    if j < |a| {
      ShapeStopSame(sh, a, b, width, wrap, n, j + 1);
    }
  }

  function Max2(a: nat, b: nat): nat {
    if a < b then b else a
  }

  /** How many lines `shape_until_cursor` lays out before it scrolls: up to the cursor's line. */
  function CursorLine(lines: seq<LineRecord>, c: Cursor): (r: nat)
    ensures r <= |lines|
  {
    if c.line < |lines| then c.line + 1 else |lines|
  }

  /**
   * The state of the shaping loops after the first `j` lines: those are laid
   * out, `total` counts their layout lines, and `reshaped` says whether one
   * of them had to be shaped.
   */
  ghost predicate ShapedUpTo(sh: Shaper, lines: seq<LineRecord>, width: real, wrap: Wrap,
                             ls: seq<LineRecord>, j: nat, total: nat, reshaped: bool) {
    && j <= |lines|
    && ls == LaidOutUpTo(sh, lines, width, wrap, j)
    && total == LayoutSum(sh, lines, width, wrap, j)
    && reshaped == Unshaped(lines, j)
  }

  /** One iteration of the shaping loops: lay out line `j` and count its layout lines. */
  method ShapeStep(sh: Shaper, lines: seq<LineRecord>, width: real, wrap: Wrap,
                   ls0: seq<LineRecord>, j: nat, total0: nat, reshaped0: bool)
      returns (ls: seq<LineRecord>, line: LineRecord, total: nat, reshaped: bool)
    requires forall t :: 0 <= t < |lines| ==> Coherent(sh, lines[t], width, wrap)
    requires ShapedUpTo(sh, lines, width, wrap, ls0, j, total0, reshaped0) && j < |lines|
    ensures ShapedUpTo(sh, lines, width, wrap, ls, j + 1, total, reshaped)
    ensures line == ls[j] && line.layout == Some(LayoutOf(sh, lines[j], width, wrap))
    ensures total == total0 + |line.layout.value|
  {
    reshaped := reshaped0 || ls0[j].shape.None?;
    LaidOutCoherent(sh, ls0[j], width, wrap);
    line := LaidOut(sh, ls0[j], width, wrap);
    ls := ls0[j := line];
    total := total0 + |line.layout.value|;
    assert ls == LaidOutUpTo(sh, lines, width, wrap, j + 1);
  }

  /**
   * The last step of `shape_until_cursor`'s loop: lay out the cursor's line
   * and add the index of the cursor's layout line in it to the count of the
   * layout lines before.
   */
  method ShapeCursorLine(sh: Shaper, lines: seq<LineRecord>, width: real, wrap: Wrap, c: Cursor,
                         ls0: seq<LineRecord>, total0: nat, reshaped0: bool)
      returns (ls: seq<LineRecord>, layoutI: nat, reshaped: bool)
    requires forall t :: 0 <= t < |lines| ==> Coherent(sh, lines[t], width, wrap)
    requires ShapedUpTo(sh, lines, width, wrap, ls0, c.line, total0, reshaped0) && c.line < |lines|
    ensures ls == LaidOutUpTo(sh, lines, width, wrap, CursorLine(lines, c))
    ensures layoutI == CursorLayoutIndex(sh, lines, width, wrap, c)
    ensures reshaped == Unshaped(lines, CursorLine(lines, c))
  {
    var line, total;
    ls, line, total, reshaped := ShapeStep(sh, lines, width, wrap, ls0, c.line, total0, reshaped0);
    ghost var m := c.line + 1;
    assert ls == LaidOutUpTo(sh, lines, width, wrap, m) && reshaped == Unshaped(lines, m);
    assert CursorLine(lines, c) == m;
    var slot := FindCursorSlot(line.layout.value, c);
    layoutI := total0 + slot.layout;
  }

  /**
   * The loop of `shape_until`: lay out the lines in order while fewer than
   * `n` layout lines have been counted; return the lines, the count, and
   * whether a line had to be shaped.
   */
  method ShapeLines(sh: Shaper, lines: seq<LineRecord>, width: real, wrap: Wrap, n: int)
      returns (ls: seq<LineRecord>, total: nat, reshaped: bool)
    requires forall t :: 0 <= t < |lines| ==> Coherent(sh, lines[t], width, wrap)
    ensures var stop := ShapeStop(sh, lines, width, wrap, n, 0);
            && ls == LaidOutUpTo(sh, lines, width, wrap, stop)
            && total == LayoutSum(sh, lines, width, wrap, stop)
            && reshaped == Unshaped(lines, stop)
  {
    ghost var stop := ShapeStop(sh, lines, width, wrap, n, 0);
    ls, total, reshaped := lines, 0, false;
    var j := 0;
    while j < |ls|
      invariant |ls| == |lines| && j <= stop
      invariant ShapedUpTo(sh, lines, width, wrap, ls, j, total, reshaped)
      decreases |ls| - j
    {
      if total >= n {
        break;
      }
      assert j < stop by {
        ShapeStopSpec(sh, lines, width, wrap, n, 0, j);
      }
      var line;
      ls, line, total, reshaped := ShapeStep(sh, lines, width, wrap, ls, j, total, reshaped);
      j := j + 1;
    }
    ShapeStopSpec(sh, lines, width, wrap, n, 0, j);
  }

  /**
   * The loop of `shape_until_cursor`: lay out the lines up to the cursor's
   * and count the layout lines before the cursor's; return the lines, the
   * count, and whether a line had to be shaped.
   */
  method ShapeToCursor(sh: Shaper, lines: seq<LineRecord>, width: real, wrap: Wrap, c: Cursor)
      returns (ls: seq<LineRecord>, layoutI: nat, reshaped: bool)
    requires forall t :: 0 <= t < |lines| ==> Coherent(sh, lines[t], width, wrap)
    ensures ls == LaidOutUpTo(sh, lines, width, wrap, CursorLine(lines, c))
    ensures layoutI == CursorLayoutIndex(sh, lines, width, wrap, c)
    ensures reshaped == Unshaped(lines, CursorLine(lines, c))
  {
    ls, layoutI, reshaped := lines, 0, false;
    var j := 0;
    while j < |ls| && j <= c.line
      invariant |ls| == |lines| && j <= c.line
      invariant ShapedUpTo(sh, lines, width, wrap, ls, j, layoutI, reshaped)
      decreases |ls| - j
    {
      if j == c.line {
        ls, layoutI, reshaped := ShapeCursorLine(sh, lines, width, wrap, c, ls, layoutI, reshaped);
        return;
      }
      var line;
      ls, line, layoutI, reshaped := ShapeStep(sh, lines, width, wrap, ls, j, layoutI, reshaped);
      j := j + 1;
    }
  }

  /**
   * The work of `shape_until_scroll` on the lines: lay out up to the end of
   * the view and return the lines, the new scroll and whether a line had to
   * be shaped.
   */
  method ScrollLines(sh: Shaper, lines: seq<LineRecord>, width: real, wrap: Wrap, scroll: i32)
      returns (ls: seq<LineRecord>, newScroll: i32, reshaped: bool)
    requires scroll <= 0
    requires forall t :: 0 <= t < |lines| ==> Coherent(sh, lines[t], width, wrap)
    ensures var stop := ShapeStop(sh, lines, width, wrap, scroll as int + I32Max, 0);
            && ls == LaidOutUpTo(sh, lines, width, wrap, stop)
            && reshaped == Unshaped(lines, stop)
    ensures newScroll == 0
  {
    var viewLines: i32 := I32Max as i32;
    var scrollEnd := scroll + viewLines;
    var total;
    ls, total, reshaped := ShapeLines(sh, lines, width, wrap, scrollEnd as int);
    var top := total - (viewLines as int - 1);
    var s := if top < scroll as int then top else scroll as int;
    newScroll := (if s < 0 then 0 else s) as i32;
  }

  /**
   * The scroll `shape_until_cursor` moves to before laying out the view: the
   * least that brings the cursor's layout line into a view of `i32::MAX`
   * layout lines.
   */
  function CursorScroll(sh: Shaper, lines: seq<LineRecord>, width: real, wrap: Wrap, scroll: int, c: Cursor): int {
    var li := CursorLayoutIndex(sh, lines, width, wrap, c);
    if li < scroll then li
    else if li >= scroll + I32Max then li - (I32Max - 1)
    else scroll
  }

  /** How many lines `shape_until_cursor` lays out: up to the cursor's, and up to the end of the view. */
  function CursorShapeStop(sh: Shaper, lines: seq<LineRecord>, width: real, wrap: Wrap, scroll: int, c: Cursor): nat {
    Max2(CursorLine(lines, c), ShapeStop(sh, lines, width, wrap, CursorScroll(sh, lines, width, wrap, scroll, c) + I32Max, 0))
  }

  /**
   * A cursor already in the view leaves the scroll where it is, and one past
   * its end scrolls the view just far enough that the cursor's layout line is
   * its last.
   */
  lemma CursorScrollSpec(sh: Shaper, lines: seq<LineRecord>, width: real, wrap: Wrap, scroll: int, c: Cursor)
    requires scroll <= 0
    ensures var li := CursorLayoutIndex(sh, lines, width, wrap, c);
            var s := CursorScroll(sh, lines, width, wrap, scroll, c);
            && s <= li < s + I32Max
            && (li < scroll + I32Max ==> s == scroll)
            && (li >= scroll + I32Max ==> li == s + I32Max - 1)
  {
  }

  lemma CursorShapeStopIs(sh: Shaper, lines: seq<LineRecord>, width: real, wrap: Wrap, scroll: int, c: Cursor, s: int)
    requires s == CursorScroll(sh, lines, width, wrap, scroll, c)
    ensures CursorShapeStop(sh, lines, width, wrap, scroll, c) == Max2(CursorLine(lines, c), ShapeStop(sh, lines, width, wrap, s + I32Max, 0))
  {
  }

  /**
   * Laying out the first `upTo` lines and then as many as `shape_until`
   * needs for `n` layout lines is laying out the larger of the two counts
   * at once; a line had to be shaped when one had to be in either step.
   */
  lemma ShapeThenScroll(sh: Shaper, lines: seq<LineRecord>, width: real, wrap: Wrap, upTo: nat, n: int)
    requires upTo <= |lines|
    requires forall t :: 0 <= t < |lines| ==> Coherent(sh, lines[t], width, wrap)
    ensures var ls := LaidOutUpTo(sh, lines, width, wrap, upTo);
            var stop := ShapeStop(sh, ls, width, wrap, n, 0);
            var both := Max2(upTo, ShapeStop(sh, lines, width, wrap, n, 0));
            && (forall t :: 0 <= t < |ls| ==> Coherent(sh, ls[t], width, wrap))
            && LaidOutUpTo(sh, ls, width, wrap, stop) == LaidOutUpTo(sh, lines, width, wrap, both)
            && (Unshaped(lines, upTo) || Unshaped(ls, stop) <==> Unshaped(lines, both))
  {
    LaidOutUpToCoherent(sh, lines, width, wrap, upTo);
    ShapeStopSame(sh, lines, LaidOutUpTo(sh, lines, width, wrap, upTo), width, wrap, n, 0);
    LaidOutTwice(sh, lines, width, wrap, upTo, ShapeStop(sh, lines, width, wrap, n, 0));
  }

  /**
   * The first steps of `shape_until_cursor`: lay out up to the cursor's line
   * and scroll the cursor's layout line into the view.
   */
  method CursorIntoView(sh: Shaper, lines: seq<LineRecord>, width: real, wrap: Wrap, scroll: i32, c: Cursor)
      returns (ls: seq<LineRecord>, s: i32, reshaped: bool)
    requires scroll <= 0 && CursorLayoutIndex(sh, lines, width, wrap, c) < I32Max
    requires forall t :: 0 <= t < |lines| ==> Coherent(sh, lines[t], width, wrap)
    ensures ls == LaidOutUpTo(sh, lines, width, wrap, CursorLine(lines, c))
    ensures reshaped == Unshaped(lines, CursorLine(lines, c))
    ensures s as int == CursorScroll(sh, lines, width, wrap, scroll as int, c) && s <= 0
  {
    var layoutI;
    ls, layoutI, reshaped := ShapeToCursor(sh, lines, width, wrap, c);
    var viewLines := I32Max;
    var t := scroll as int;
    if layoutI < t {
      t := layoutI;
    } else if layoutI >= t + viewLines {
      t := layoutI - (viewLines - 1);
    }
    s := t as i32;
  }

  /**
   * The work of `shape_until_cursor` on the lines: lay out up to the
   * cursor's line, scroll it into view, lay out up to the end of the view,
   * and return the lines, the new scroll and whether a line had to be shaped.
   */
  method CursorLines(sh: Shaper, lines: seq<LineRecord>, width: real, wrap: Wrap, scroll: i32, c: Cursor)
      returns (ls: seq<LineRecord>, newScroll: i32, reshaped: bool)
    requires scroll <= 0 && CursorLayoutIndex(sh, lines, width, wrap, c) < I32Max
    requires forall t :: 0 <= t < |lines| ==> Coherent(sh, lines[t], width, wrap)
    ensures var m := CursorShapeStop(sh, lines, width, wrap, scroll as int, c);
            && ls == LaidOutUpTo(sh, lines, width, wrap, m)
            && reshaped == Unshaped(lines, m)
    ensures newScroll == 0
  {
    var ls1, s, reshaped1 := CursorIntoView(sh, lines, width, wrap, scroll, c);
    CursorShapeStopIs(sh, lines, width, wrap, scroll as int, c, s as int);
    ShapeThenScroll(sh, lines, width, wrap, CursorLine(lines, c), s as int + I32Max);
    var reshaped2;
    ls, newScroll, reshaped2 := ScrollLines(sh, ls1, width, wrap, s);
    reshaped := reshaped1 || reshaped2;
  }

  /**
   * Every run `LayoutRunIter` yields until it returns `None`, in order: the
   * visible runs.
   */
  method CollectRuns(lines: seq<LineRecord>, scroll: int, height: real) returns (runs: seq<LayoutRun>)
    requires |Slots(lines, 0)| <= I32Max
    ensures runs == VisibleRuns(lines, scroll, height)
  {
    var iter := new LayoutRunIter(lines, scroll, height);
    runs := [];
    while true
      invariant iter.Valid() && !iter.done && iter.count == |runs|
      invariant iter.lines == lines && iter.scroll == scroll && iter.height == height
      invariant |runs| <= |VisibleRuns(lines, scroll, height)|
      invariant runs == VisibleRuns(lines, scroll, height)[..|runs|]
      decreases |VisibleRuns(lines, scroll, height)| - |runs|
    {
      var r := iter.Next();
      if r.None? {
        return;
      }
      runs := runs + [r.value];
    }
  }
}
