/**
 * Shaped and laid-out text (src/buffer.rs): glyphs, layout lines, the line
 * records of a buffer, the visible runs handed to rendering and hit testing,
 * and the selection highlight of one run.
 *
 * Shaping a line and wrapping its shape into layout lines happen outside
 * src/buffer.rs; the model takes both as the two total functions of a
 * `Shaper`.  Pixel values are reals.
 */
module Layout {
  import opened Wrappers
  import opened Cursors
  import opened SpanMap

  /** The largest `i32`, the viewport size in layout lines the buffer works with. */
  const I32Max: int := 0x7fff_ffff

  /** Rust's `i32`; arithmetic on it that leaves the range is an overflow panic. */
  newtype i32 = x: int | -0x8000_0000 <= x <= 0x7fff_ffff

  /**
   * A glyph of a layout line: the byte range `start..end` of the line's text
   * it draws, its x position and width, and whether its bidi level is
   * right-to-left.
   */
  datatype Glyph = Glyph(start: nat, end: nat, x: real, w: real, rtl: bool)

  /** One visual line of a wrapped text line. */
  datatype LayoutLine = LayoutLine(
    glyphs: seq<Glyph>,
    w: real,
    lineAscent: real,
    lineDescent: real,
    glyphAscent: real,
    glyphDescent: real)

  /** The shape of a whole text line: its paragraph direction and glyphs. */
  datatype ShapeLine = ShapeLine(rtl: bool, glyphs: seq<Glyph>)

  /** How lines are wrapped to the buffer width. */
  datatype Wrap = NoWrap | GlyphWrap | WordWrap

  /** The shaping engine and the line wrapper, as total functions. */
  datatype Shaper = Shaper(
    shape: (string, AttrsListValue) -> ShapeLine,
    wrap: (ShapeLine, real, Wrap) -> seq<LayoutLine>)

  /**
   * A line of the buffer (`TextLayoutLine`): its text, its attributes, where
   * it starts in the text it came from, and its cached shape and layout.
   */
  datatype LineRecord = LineRecord(
    text: string,
    attrs: AttrsListValue,
    startIndex: nat,
    shape: Option<ShapeLine>,
    layout: Option<seq<LayoutLine>>)

  /** A fresh line record, neither shaped nor laid out (`TextLayoutLine::new`). */
  function NewLine(text: string, attrs: AttrsListValue, startIndex: nat): (l: LineRecord)
    ensures l.shape.None? && l.layout.None?
  {
    LineRecord(text, attrs, startIndex, None, None)
  }

  /**
   * `TextLayoutLine::layout`: shape the line unless it is shaped, then wrap
   * the shape unless a layout is cached.
   */
  function LaidOut(sh: Shaper, line: LineRecord, width: real, wrap: Wrap): (l: LineRecord)
    ensures l.text == line.text && l.attrs == line.attrs && l.startIndex == line.startIndex
    ensures l.shape.Some? && l.layout.Some?
    ensures line.shape.Some? ==> l.shape == line.shape
    ensures line.layout.Some? ==> l.layout == line.layout
  {
    var shape := if line.shape.Some? then line.shape.value else sh.shape(line.text, line.attrs);
    var layout := if line.layout.Some? then line.layout.value else sh.wrap(shape, width, wrap);
    line.(shape := Some(shape), layout := Some(layout))
  }

  /** `TextLayoutLine::reset_layout`: drop the cached layout, keep the shape. */
  function ResetLayout(line: LineRecord): (l: LineRecord)
    ensures l == line.(layout := None)
  {
    line.(layout := None)
  }

  /**
   * A line record whose caches agree with its text and attributes and with
   * the buffer's width and wrap mode; a layout is only ever cached together
   * with the shape it was wrapped from.
   */
  ghost predicate Coherent(sh: Shaper, line: LineRecord, width: real, wrap: Wrap) {
    && line.attrs.Valid()
    && (line.shape.Some? ==> line.shape.value == sh.shape(line.text, line.attrs))
    && (line.layout.Some? ==> line.shape.Some? && line.layout.value == sh.wrap(line.shape.value, width, wrap))
  }

  /** The layout lines a line has once laid out at `width` and `wrap`. */
  function LayoutOf(sh: Shaper, line: LineRecord, width: real, wrap: Wrap): seq<LayoutLine> {
    sh.wrap(sh.shape(line.text, line.attrs), width, wrap)
  }

  /** Laying out a coherent line caches exactly its layout, and keeps it coherent. */
  lemma LaidOutCoherent(sh: Shaper, line: LineRecord, width: real, wrap: Wrap)
    requires Coherent(sh, line, width, wrap)
    ensures Coherent(sh, LaidOut(sh, line, width, wrap), width, wrap)
    ensures LaidOut(sh, line, width, wrap).layout == Some(LayoutOf(sh, line, width, wrap))
  {
  }

  /** A visible line handed to rendering and hit testing (`LayoutRun`). */
  datatype LayoutRun = LayoutRun(
    lineI: nat,
    text: string,
    rtl: bool,
    glyphs: seq<Glyph>,
    lineY: real,
    lineW: real,
    lineHeight: real,
    glyphAscent: real,
    glyphDescent: real)

  /**
   * `LayoutRun::cursor_from_glyph_left`: the cursor at the left edge of a
   * glyph, which is its end in a right-to-left run and its start otherwise.
   */
  function CursorFromGlyphLeft(run: LayoutRun, g: Glyph): (c: Cursor)
    ensures c.line == run.lineI
  {
    if run.rtl then Cursor(run.lineI, g.end, Before) else Cursor(run.lineI, g.start, After)
  }

  /** `LayoutRun::cursor_from_glyph_right`: the cursor at the right edge of a glyph. */
  function CursorFromGlyphRight(run: LayoutRun, g: Glyph): (c: Cursor)
    ensures c.line == run.lineI
  {
    if run.rtl then Cursor(run.lineI, g.start, After) else Cursor(run.lineI, g.end, Before)
  }

  /**
   * The two edges of a glyph are its logical start, bound to the text after
   * it, and its logical end, bound to the text before it, whatever the
   * direction; the direction only decides which edge is on the left.  In
   * reading order the start edge comes first.
   */
  lemma GlyphEdges(run: LayoutRun, g: Glyph)
    requires g.start < g.end
    ensures {CursorFromGlyphLeft(run, g), CursorFromGlyphRight(run, g)} ==
            {Cursor(run.lineI, g.start, After), Cursor(run.lineI, g.end, Before)}
    ensures run.rtl <==> Less(CursorFromGlyphRight(run, g), CursorFromGlyphLeft(run, g))
  {
  }

  /** A cursor in the closed range `start..=end` of the cursor ordering. */
  predicate InRange(c: Cursor, start: Cursor, end: Cursor) {
    LessEq(start, c) && LessEq(c, end)
  }

  /** The x of a glyph's left edge: its right side in a right-to-left run. */
  function LeftX(run: LayoutRun, g: Glyph): real {
    g.x + g.w * (if run.rtl then 1.0 else 0.0)
  }

  /** The x of a glyph's right edge: its left side in a right-to-left run. */
  function RightX(run: LayoutRun, g: Glyph): real {
    g.x + g.w * (1.0 - if run.rtl then 1.0 else 0.0)
  }

  /** The edges of one glyph that lie in the selection, left edge first. */
  function EdgeMarks(run: LayoutRun, g: Glyph, start: Cursor, end: Cursor): seq<real> {
    (if InRange(CursorFromGlyphLeft(run, g), start, end) then [LeftX(run, g)] else []) +
    (if InRange(CursorFromGlyphRight(run, g), start, end) then [RightX(run, g)] else [])
  }

  /** The x of every glyph edge among the first `n` glyphs that lies in the selection. */
  function Marks(run: LayoutRun, n: nat, start: Cursor, end: Cursor): seq<real>
    requires n <= |run.glyphs|
  {
    if n == 0 then [] else Marks(run, n - 1, start, end) + EdgeMarks(run, run.glyphs[n - 1], start, end)
  }

  /** No edge is marked exactly when no glyph has an edge in the selection. */
  lemma {:induction false} MarksEmpty(run: LayoutRun, n: nat, start: Cursor, end: Cursor)
    requires n <= |run.glyphs|
    ensures Marks(run, n, start, end) == [] <==>
            forall i :: 0 <= i < n ==>
              && !InRange(CursorFromGlyphLeft(run, run.glyphs[i]), start, end)
              && !InRange(CursorFromGlyphRight(run, run.glyphs[i]), start, end)
  {
    if n > 0 {
      MarksEmpty(run, n - 1, start, end);
    }
  }

  function Min(a: real, b: real): real {
    if a < b then a else b
  }

  /**
   * `LayoutRun::highlight`: the horizontal extent `(x, w)` of the selection
   * `start..=end` within the run, from the first to the last marked glyph
   * edge, or `None` when no glyph edge lies in the selection.
   */
  method Highlight(run: LayoutRun, start: Cursor, end: Cursor) returns (r: Option<(real, real)>)
    ensures r.None? <==>
            forall i :: 0 <= i < |run.glyphs| ==>
              && !InRange(CursorFromGlyphLeft(run, run.glyphs[i]), start, end)
              && !InRange(CursorFromGlyphRight(run, run.glyphs[i]), start, end)
    ensures r.Some? ==> r.value.1 >= 0.0
    ensures r.Some? ==>
              var m := Marks(run, |run.glyphs|, start, end);
              |m| > 0 && r.value.0 == Min(m[0], m[|m| - 1]) && r.value.0 + r.value.1 == if m[0] < m[|m| - 1] then m[|m| - 1] else m[0]
  {
    var xStart: Option<real> := None;
    var xEnd: Option<real> := None;
    var rtlFactor := if run.rtl then 1.0 else 0.0;
    var ltrFactor := 1.0 - rtlFactor;
    ghost var marks: seq<real> := [];
    for i := 0 to |run.glyphs|
      invariant marks == Marks(run, i, start, end)
      invariant xStart.None? <==> marks == []
      invariant xStart.Some? ==> xStart.value == marks[0] && xEnd == Some(marks[|marks| - 1])
    {
      var glyph := run.glyphs[i];
      assert glyph.x + glyph.w * rtlFactor == LeftX(run, glyph);
      assert glyph.x + glyph.w * ltrFactor == RightX(run, glyph);
      var cursor := CursorFromGlyphLeft(run, glyph);
      if LessEq(start, cursor) && LessEq(cursor, end) {
        if xStart.None? {
          xStart := Some(glyph.x + glyph.w * rtlFactor);
        }
        xEnd := Some(glyph.x + glyph.w * rtlFactor);
        marks := marks + [LeftX(run, glyph)];
      }
      cursor := CursorFromGlyphRight(run, glyph);
      if LessEq(start, cursor) && LessEq(cursor, end) {
        if xStart.None? {
          xStart := Some(glyph.x + glyph.w * ltrFactor);
        }
        xEnd := Some(glyph.x + glyph.w * ltrFactor);
        marks := marks + [RightX(run, glyph)];
      }
    }
    MarksEmpty(run, |run.glyphs|, start, end);
    if xStart.Some? {
      var s, e := xStart.value, xEnd.value;
      if !(s < e) {
        s, e := e, s;
      }
      r := Some((s, e - s));
    } else {
      r := None;
    }
  }
}
