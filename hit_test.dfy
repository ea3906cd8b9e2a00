/**
 * Hit testing over the visible runs of a buffer (src/buffer.rs): from a
 * point to a cursor (`hit`, `hit_point`) and from a text position to a point
 * (`hit_position`, `line_col_position`).
 *
 * Each glyph is taken as a single grapheme cluster: a point on a glyph lands
 * before or after the whole glyph.
 */
module HitTest {
  import opened Wrappers
  import opened Cursors
  import opened Layout

  /** A glyph that stands for a piece `start..end` of the run's text. */
  predicate GlyphInText(run: LayoutRun, g: Glyph) {
    g.start <= g.end <= |run.text|
  }

  /** Every glyph of the run stands for a piece of its text, as slicing the cluster demands. */
  predicate WellFormed(run: LayoutRun) {
    forall i :: 0 <= i < |run.glyphs| ==> GlyphInText(run, run.glyphs[i])
  }

  /** The glyph's horizontal extent holds `x`. */
  predicate OnGlyph(g: Glyph, x: real) {
    g.x <= x <= g.x + g.w
  }

  /** `x` is in the logically later half of the glyph: the right half, or the left one if it runs right to left. */
  predicate PastHalf(g: Glyph, x: real) {
    (x >= g.x + g.w / 2.0) != g.rtl
  }

  /** The first glyph from `from` on whose extent holds `x`. */
  function FirstOnGlyph(glyphs: seq<Glyph>, x: real, from: nat): (r: Option<nat>)
    requires from <= |glyphs|
    ensures r.Some? ==> from <= r.value < |glyphs| && OnGlyph(glyphs[r.value], x)
    ensures r.Some? ==> forall u :: from <= u < r.value ==> !OnGlyph(glyphs[u], x)
    ensures r.None? <==> forall u :: from <= u < |glyphs| ==> !OnGlyph(glyphs[u], x)
    decreases |glyphs| - from
  {
    if from == |glyphs| then None
    else if OnGlyph(glyphs[from], x) then Some(from)
    else FirstOnGlyph(glyphs, x, from + 1)
  }

  /**
   * A point before the start of the run in its reading direction: right of
   * the first glyph's left side in a right-to-left run, left of zero
   * otherwise.
   */
  predicate BeforeFirst(run: LayoutRun, x: real)
    requires |run.glyphs| > 0
  {
    (run.rtl && x > run.glyphs[0].x) || (!run.rtl && x < 0.0)
  }

  /** Which glyph of a run a point falls on, how far into its cluster, and on which side. */
  datatype GlyphHit = GlyphHit(glyph: nat, offset: nat, affinity: Affinity)

  /**
   * The glyph of a run a point at `x` selects: the first whose extent holds
   * `x`, with the cursor past its cluster in its later half; otherwise the
   * first glyph when `x` is before the run's start; otherwise none, as the
   * index one past the last glyph.
   */
  function RunGlyphHit(run: LayoutRun, x: real): (h: GlyphHit)
    requires WellFormed(run)
  {
    match FirstOnGlyph(run.glyphs, x, 0)
    case Some(i) =>
      var g := run.glyphs[i];
      if PastHalf(g, x) then GlyphHit(i, g.end - g.start, Before) else GlyphHit(i, 0, After)
    case None =>
      if |run.glyphs| > 0 && BeforeFirst(run, x) then GlyphHit(0, 0, After)
      else GlyphHit(|run.glyphs|, 0, After)
  }

  /** The cursor a glyph hit stands for: in the glyph, or at the end of the run's last glyph. */
  function HitCursor(run: LayoutRun, h: GlyphHit): Cursor {
    if h.glyph < |run.glyphs| then Cursor(run.lineI, run.glyphs[h.glyph].start + h.offset, h.affinity)
    else if |run.glyphs| > 0 then Cursor(run.lineI, run.glyphs[|run.glyphs| - 1].end, Before)
    else CursorNew(run.lineI, 0)
  }

  /** The cursor for a point at `x` in the band of a run. */
  function RunHit(run: LayoutRun, x: real): Cursor
    requires WellFormed(run)
  {
    HitCursor(run, RunGlyphHit(run, x))
  }

  /**
   * The cursor for a point in a run's band is on the run's line.  On a glyph
   * it is at the glyph's start, bound to the text after it, or, in the
   * glyph's later half, at its end, bound to the text before it.  Past every
   * glyph, and not before the run's start, it is at the end of the last
   * glyph, bound to the text before it.
   */
  lemma RunHitSpec(run: LayoutRun, x: real)
    requires WellFormed(run)
    ensures RunHit(run, x).line == run.lineI
    ensures var i := FirstOnGlyph(run.glyphs, x, 0);
            i.Some? ==>
              var g := run.glyphs[i.value];
              && g.start <= RunHit(run, x).index <= g.end
              && (RunHit(run, x).affinity == Before <==> PastHalf(g, x))
              && RunHit(run, x).index == (if PastHalf(g, x) then g.end else g.start)
    ensures |run.glyphs| > 0 && FirstOnGlyph(run.glyphs, x, 0).None? && !BeforeFirst(run, x) ==>
              RunHit(run, x) == Cursor(run.lineI, run.glyphs[|run.glyphs| - 1].end, Before)
  {
    match FirstOnGlyph(run.glyphs, x, 0)
    case Some(i) =>
      assert GlyphInText(run, run.glyphs[i]);
    case None =>
  }

  /**
   * The glyph loop of `hit` and `hit_point`: the first glyph whose extent
   * holds `x`, after the check of the first glyph against the run's start.
   */
  method HitGlyph(run: LayoutRun, x: real) returns (h: GlyphHit)
    requires WellFormed(run)
    ensures h == RunGlyphHit(run, x)
  {
    var newGlyph := |run.glyphs|;
    var newOffset := 0;
    var newAffinity := After;
    var firstGlyph := true;
    for i := 0 to |run.glyphs|
      invariant firstGlyph <==> i == 0
      invariant forall u :: 0 <= u < i ==> !OnGlyph(run.glyphs[u], x)
      invariant newOffset == 0 && newAffinity == After
      invariant newGlyph == if i > 0 && BeforeFirst(run, x) then 0 else |run.glyphs|
    {
      var glyph := run.glyphs[i];
      if firstGlyph {
        firstGlyph := false;
        if (run.rtl && x > glyph.x) || (!run.rtl && x < 0.0) {
          newGlyph := 0;
          newOffset := 0;
        }
      }
      if x >= glyph.x && x <= glyph.x + glyph.w {
        newGlyph := i;
        assert GlyphInText(run, glyph);
        var rightHalf := x >= glyph.x + glyph.w / 2.0;
        if rightHalf != glyph.rtl {
          newOffset := glyph.end - glyph.start;
          newAffinity := Before;
        }
        return GlyphHit(newGlyph, newOffset, newAffinity);
      }
    }
    return GlyphHit(newGlyph, newOffset, newAffinity);
  }

  /** The point is in the band of the run: at or below its top and above its baseline. */
  predicate InBand(run: LayoutRun, y: real) {
    run.lineY - run.lineHeight <= y < run.lineY
  }

  /** The point is above the top of the run. */
  predicate AboveRun(run: LayoutRun, y: real) {
    y < run.lineY - run.lineHeight
  }

  /** The first run from `from` on whose band holds `y`. */
  function FirstInBand(runs: seq<LayoutRun>, y: real, from: nat): (r: Option<nat>)
    requires from <= |runs|
    ensures r.Some? ==> from <= r.value < |runs| && InBand(runs[r.value], y)
    ensures r.Some? ==> forall u :: from <= u < r.value ==> !InBand(runs[u], y)
    ensures r.None? <==> forall u :: from <= u < |runs| ==> !InBand(runs[u], y)
    decreases |runs| - from
  {
    if from == |runs| then None
    else if InBand(runs[from], y) then Some(from)
    else FirstInBand(runs, y, from + 1)
  }

  /** The first run from `from` on below the point. */
  function FirstBelow(runs: seq<LayoutRun>, y: real, from: nat): (r: Option<nat>)
    requires from <= |runs|
    ensures r.Some? ==> from <= r.value < |runs| && AboveRun(runs[r.value], y)
    ensures r.Some? ==> forall u :: from <= u < r.value ==> !AboveRun(runs[u], y)
    ensures r.None? <==> forall u :: from <= u < |runs| ==> !AboveRun(runs[u], y)
    decreases |runs| - from
  {
    if from == |runs| then None
    else if AboveRun(runs[from], y) then Some(from)
    else FirstBelow(runs, y, from + 1)
  }

  /** The right boundary of a run's last glyph, or the start of its line when it has none. */
  function EndCursor(run: LayoutRun): (c: Cursor)
    ensures c.line == run.lineI
  {
    if |run.glyphs| > 0 then CursorFromGlyphRight(run, run.glyphs[|run.glyphs| - 1]) else CursorNew(run.lineI, 0)
  }

  /**
   * The point is below the baseline of the last run, and that run is not the
   * first below the point (which takes precedence).
   */
  predicate BelowLast(runs: seq<LayoutRun>, y: real) {
    && |runs| > 0
    && y > runs[|runs| - 1].lineY
    && FirstBelow(runs, y, 0) != Some(|runs| - 1)
  }

  /**
   * The cursor for a point that is in no run's band: the end of the last run
   * for a point below it, otherwise the start of the first run below the
   * point, otherwise none.
   */
  function MissCursor(runs: seq<LayoutRun>, y: real): Option<Cursor> {
    if BelowLast(runs, y) then Some(EndCursor(runs[|runs| - 1]))
    else match FirstBelow(runs, y, 0)
      case Some(a) => Some(CursorNew(runs[a].lineI, 0))
      case None => None
  }

  /**
   * `hit`: the cursor for the point `(x, y)`.  A point in the band of a run
   * selects a glyph of the first such run; a point in none selects the end of
   * the last run when below it, or the start of the first run below the
   * point.
   */
  function HitSpec(runs: seq<LayoutRun>, x: real, y: real): Option<Cursor>
    requires forall i :: 0 <= i < |runs| ==> WellFormed(runs[i])
  {
    match FirstInBand(runs, y, 0)
    case Some(b) => Some(RunHit(runs[b], x))
    case None => MissCursor(runs, y)
  }

  /**
   * With no visible run there is no cursor; a point in a band gets the cursor
   * for that run's line; a point below the last run, in no band and with
   * that run not below it, gets the right boundary of the last glyph.
   */
  lemma HitSpecCases(runs: seq<LayoutRun>, x: real, y: real)
    requires forall i :: 0 <= i < |runs| ==> WellFormed(runs[i])
    ensures runs == [] ==> HitSpec(runs, x, y) == None
    ensures HitSpec(runs, x, y).None? <==> FirstInBand(runs, y, 0).None? && FirstBelow(runs, y, 0).None? && !BelowLast(runs, y)
    ensures FirstInBand(runs, y, 0).Some? ==>
              HitSpec(runs, x, y).value.line == runs[FirstInBand(runs, y, 0).value].lineI
    ensures FirstInBand(runs, y, 0).None? && BelowLast(runs, y) && |runs[|runs| - 1].glyphs| > 0 ==>
              var last := runs[|runs| - 1];
              HitSpec(runs, x, y) == Some(CursorFromGlyphRight(last, last.glyphs[|last.glyphs| - 1]))
  {
    if FirstInBand(runs, y, 0).Some? {
      RunHitSpec(runs[FirstInBand(runs, y, 0).value], x);
    }
  }

  /**
   * The cursor the run loop of `hit` and `hit_point` holds after the first
   * `i` runs when none of them had the point in its band.
   */
  function MissAfter(runs: seq<LayoutRun>, y: real, i: nat): Option<Cursor>
    requires i <= |runs|
  {
    if i == |runs| then MissCursor(runs, y)
    else match FirstBelow(runs, y, 0)
      case Some(a) => if a < i then Some(CursorNew(runs[a].lineI, 0)) else None
      case None => None
  }

  /** One run of the loop of `hit` when the point is in no earlier band. */
  lemma MissStep(runs: seq<LayoutRun>, y: real, i: nat, firstRun: bool)
    requires i < |runs| && !InBand(runs[i], y)
    requires firstRun <==> forall u :: 0 <= u < i ==> !AboveRun(runs[u], y)
    ensures var r := MissAfter(runs, y, i);
            var r1 := if firstRun && AboveRun(runs[i], y) then Some(CursorNew(runs[i].lineI, 0)) else r;
            MissAfter(runs, y, i + 1) ==
              if i + 1 == |runs| && !(firstRun && AboveRun(runs[i], y)) && y > runs[i].lineY then Some(EndCursor(runs[i]))
              else r1
    ensures (firstRun && !AboveRun(runs[i], y)) <==> forall u :: 0 <= u < i + 1 ==> !AboveRun(runs[u], y)
  {
    var a := FirstBelow(runs, y, 0);
    if firstRun && AboveRun(runs[i], y) {
      assert a == Some(i);
    } else if !firstRun {
      assert a.Some? && a.value < i;
    }
  }

  /**
   * The run loop of `hit`: the first run whose band holds the point decides;
   * before it, the first run below the point and the last run, when the
   * point is below it, set the cursor.
   */
  method Hit(runs: seq<LayoutRun>, x: real, y: real) returns (r: Option<Cursor>)
    requires forall i :: 0 <= i < |runs| ==> WellFormed(runs[i])
    ensures r == HitSpec(runs, x, y)
  {
    r := None;
    var firstRun := true;
    var i := 0;
    while i < |runs|
      invariant i <= |runs|
      invariant forall u :: 0 <= u < i ==> !InBand(runs[u], y)
      invariant firstRun <==> forall u :: 0 <= u < i ==> !AboveRun(runs[u], y)
      invariant r == MissAfter(runs, y, i)
    {
      var run := runs[i];
      var lineY := run.lineY;
      if firstRun && y < lineY - run.lineHeight {
        MissStep(runs, y, i, firstRun);
        firstRun := false;
        r := Some(CursorNew(run.lineI, 0));
      } else if y >= lineY - run.lineHeight && y < lineY {
        var h := HitGlyph(run, x);
        var cursor := CursorNew(run.lineI, 0);
        if h.glyph < |run.glyphs| {
          cursor := cursor.(index := run.glyphs[h.glyph].start + h.offset, affinity := h.affinity);
        } else if |run.glyphs| > 0 {
          cursor := cursor.(index := run.glyphs[|run.glyphs| - 1].end, affinity := Before);
        }
        assert FirstInBand(runs, y, 0) == Some(i);
        return Some(cursor);
      } else if i + 1 == |runs| && y > run.lineY {
        MissStep(runs, y, i, firstRun);
        r := Some(EndCursor(run));
      } else {
        MissStep(runs, y, i, firstRun);
      }
      i := i + 1;
    }
  }

  /** Where `hit_point` puts a point: a line, an index in it, and whether the point is on a glyph. */
  datatype HitPoint = HitPoint(line: nat, index: nat, isInside: bool)

  /**
   * `hit_point`: the line and index of the cursor `hit` gives, or line 0 and
   * index 0 when it gives none, and whether the point selected a glyph of a
   * run whose band holds it.
   */
  function HitPointSpec(runs: seq<LayoutRun>, x: real, y: real): HitPoint
    requires forall i :: 0 <= i < |runs| ==> WellFormed(runs[i])
  {
    var inside := match FirstInBand(runs, y, 0)
      case Some(b) => RunGlyphHit(runs[b], x).glyph < |runs[b].glyphs|
      case None => false;
    match HitSpec(runs, x, y)
    case Some(c) => HitPoint(c.line, c.index, inside)
    case None => HitPoint(0, 0, false)
  }

  /**
   * The run loop of `hit_point`: as the one of `hit`, keeping the line and
   * index of the cursor and whether the point is on a glyph.
   */
  method HitPointOf(runs: seq<LayoutRun>, x: real, y: real) returns (hp: HitPoint)
    requires forall i :: 0 <= i < |runs| ==> WellFormed(runs[i])
    ensures hp == HitPointSpec(runs, x, y)
  {
    hp := HitPoint(0, 0, false);
    ghost var r: Option<Cursor> := None;
    var firstRun := true;
    var i := 0;
    while i < |runs|
      invariant i <= |runs|
      invariant forall u :: 0 <= u < i ==> !InBand(runs[u], y)
      invariant firstRun <==> forall u :: 0 <= u < i ==> !AboveRun(runs[u], y)
      invariant r == MissAfter(runs, y, i)
      invariant hp == if r.Some? then HitPoint(r.value.line, r.value.index, false) else HitPoint(0, 0, false)
    {
      var run := runs[i];
      var lineY := run.lineY;
      if firstRun && y < lineY - run.lineHeight {
        MissStep(runs, y, i, firstRun);
        firstRun := false;
        hp := hp.(line := run.lineI, index := 0);
        r := Some(CursorNew(run.lineI, 0));
      } else if y >= lineY - run.lineHeight && y < lineY {
        var h := HitGlyph(run, x);
        hp := hp.(line := run.lineI, index := 0);
        if h.glyph < |run.glyphs| {
          hp := hp.(index := run.glyphs[h.glyph].start + h.offset, isInside := true);
        } else if |run.glyphs| > 0 {
          hp := hp.(index := run.glyphs[|run.glyphs| - 1].end);
        }
        assert FirstInBand(runs, y, 0) == Some(i);
        return;
      } else if i + 1 == |runs| && y > run.lineY {
        MissStep(runs, y, i, firstRun);
        var cursor := EndCursor(run);
        hp := hp.(line := cursor.line, index := cursor.index);
        r := Some(cursor);
      } else {
        MissStep(runs, y, i, firstRun);
      }
      i := i + 1;
    }
  }

  /** A point in the layout, with the ascent and descent of the glyphs of its run (`HitPosition`). */
  datatype HitPosition = HitPosition(line: nat, x: real, y: real, glyphAscent: real, glyphDescent: real)

  const Origin := HitPosition(0, 0.0, 0.0, 0.0, 0.0)

  /** A glyph of the visible runs, with the index of its run. */
  datatype Entry = Entry(run: nat, glyph: Glyph)

  /** The glyphs of the first `n` runs, run after run. */
  function Entries(runs: seq<LayoutRun>, n: nat): (es: seq<Entry>)
    requires n <= |runs|
    ensures forall e :: 0 <= e < |es| ==> es[e].run < n
  {
    if n == 0 then []
    else Entries(runs, n - 1) + seq(|runs[n - 1].glyphs|, g requires 0 <= g < |runs[n - 1].glyphs| => Entry(n - 1, runs[n - 1].glyphs[g]))
  }

  /** Glyph `g` of run `ri` comes after the glyphs of the earlier runs. */
  lemma {:induction false} EntryAt(runs: seq<LayoutRun>, n: nat, ri: nat, g: nat)
    requires ri < n <= |runs| && g < |runs[ri].glyphs|
    ensures |Entries(runs, ri)| + g < |Entries(runs, n)|
    ensures Entries(runs, n)[|Entries(runs, ri)| + g] == Entry(ri, runs[ri].glyphs[g])
  {
    if ri < n - 1 {
      EntryAt(runs, n - 1, ri, g);
    }
  }

  /** The glyphs of earlier runs are a prefix of those of later ones. */
  lemma {:induction false} EntriesPrefix(runs: seq<LayoutRun>, m: nat, n: nat)
    requires m <= n <= |runs|
    ensures |Entries(runs, m)| <= |Entries(runs, n)|
    ensures Entries(runs, n)[..|Entries(runs, m)|] == Entries(runs, m)
    decreases n - m
  {
    if m < n {
      EntriesPrefix(runs, m, n - 1);
    }
  }

  /** The point of a glyph of run `ri`: its left side on the run's baseline. */
  function GlyphPosition(runs: seq<LayoutRun>, e: Entry): HitPosition
    requires e.run < |runs|
  {
    var run := runs[e.run];
    HitPosition(e.run, e.glyph.x, run.lineY, run.glyphAscent, run.glyphDescent)
  }

  /** `line_col_position` stops at a glyph of a later line, or of the line at or past the column. */
  predicate ColStop(runs: seq<LayoutRun>, line: nat, col: nat, e: Entry)
    requires e.run < |runs|
  {
    || (runs[e.run].lineI == line && (e.glyph.start > col || e.glyph.start <= col < e.glyph.end))
    || runs[e.run].lineI > line
  }

  /** The glyph of the line that holds the column. */
  predicate ColFound(runs: seq<LayoutRun>, line: nat, col: nat, e: Entry)
    requires e.run < |runs|
  {
    runs[e.run].lineI == line && e.glyph.start <= col < e.glyph.end
  }

  /** The first glyph from `from` on where `line_col_position` stops. */
  function FirstColStop(runs: seq<LayoutRun>, es: seq<Entry>, line: nat, col: nat, from: nat): (r: Option<nat>)
    requires from <= |es| && forall e :: 0 <= e < |es| ==> es[e].run < |runs|
    ensures r.Some? ==> from <= r.value < |es| && ColStop(runs, line, col, es[r.value])
    decreases |es| - from
  {
    if from == |es| then None
    else if ColStop(runs, line, col, es[from]) then Some(from)
    else FirstColStop(runs, es, line, col, from + 1)
  }

  /** The search of `line_col_position` from `from` finds the first glyph that stops it. */
  lemma {:induction false} FirstColStopIs(runs: seq<LayoutRun>, es: seq<Entry>, line: nat, col: nat, from: nat, e: nat)
    requires from <= e < |es| && forall u :: 0 <= u < |es| ==> es[u].run < |runs|
    requires forall u :: from <= u < e ==> !ColStop(runs, line, col, es[u])
    requires ColStop(runs, line, col, es[e])
    ensures FirstColStop(runs, es, line, col, from) == Some(e)
    decreases e - from
  {
    if from < e {
      FirstColStopIs(runs, es, line, col, from + 1, e);
    }
  }

  /** The search of `line_col_position` from `from` finds nothing when no glyph stops it. */
  lemma {:induction false} FirstColStopNone(runs: seq<LayoutRun>, es: seq<Entry>, line: nat, col: nat, from: nat)
    requires from <= |es| && forall u :: 0 <= u < |es| ==> es[u].run < |runs|
    requires forall u :: from <= u < |es| ==> !ColStop(runs, line, col, es[u])
    ensures FirstColStop(runs, es, line, col, from) == None
    decreases |es| - from
  {
    if from < |es| {
      FirstColStopNone(runs, es, line, col, from + 1);
    }
  }

  /** The baseline of the run before `ri`, where `line_col_position` falls back to; the origin before the first. */
  function LastRun(runs: seq<LayoutRun>, ri: nat): HitPosition
    requires ri <= |runs|
  {
    if ri > 0 then
      var run := runs[ri - 1];
      HitPosition(ri - 1, 0.0, run.lineY, run.glyphAscent, run.glyphDescent)
    else Origin
  }

  /** The glyph before glyph `k`, the last one `line_col_position` has seen. */
  function GlyphBefore(es: seq<Entry>, k: nat): Option<Glyph> {
    if 0 < k <= |es| then Some(es[k - 1].glyph) else None
  }

  /** The point `p` moved to the right side of the glyph `last`, or to zero without one. */
  function PastGlyph(p: HitPosition, last: Option<Glyph>): HitPosition {
    p.(x := if last.Some? then last.value.x + last.value.w else 0.0)
  }

  /**
   * `line_col_position(line, col)`: the point of the first glyph of the line
   * that holds the column, unless a glyph of a later line, or one of the
   * line starting past the column, comes first: then the right side of the
   * glyph before that one, on the baseline of the run before its run.
   */
  function LineColSpec(runs: seq<LayoutRun>, line: nat, col: nat): HitPosition {
    var es := Entries(runs, |runs|);
    match FirstColStop(runs, es, line, col, 0)
    case Some(e) =>
      if ColFound(runs, line, col, es[e]) then GlyphPosition(runs, es[e])
      else PastGlyph(LastRun(runs, es[e].run), GlyphBefore(es, e))
    case None => PastGlyph(LastRun(runs, |runs|), GlyphBefore(es, |es|))
  }

  /**
   * On runs in line order whose glyphs, line by line, start in increasing
   * order, `line_col_position` finds the glyph that holds the column.
   */
  lemma LineColFinds(runs: seq<LayoutRun>, line: nat, col: nat, e: nat)
    requires var es := Entries(runs, |runs|);
             && e < |es| && ColFound(runs, line, col, es[e])
             && (forall u :: 0 <= u < e ==> runs[es[u].run].lineI <= line)
             && (forall u :: 0 <= u < e && runs[es[u].run].lineI == line ==>
                   es[u].glyph.start <= es[u].glyph.end <= es[e].glyph.start)
    ensures LineColSpec(runs, line, col) == GlyphPosition(runs, Entries(runs, |runs|)[e])
  {
    var es := Entries(runs, |runs|);
    assert forall u :: 0 <= u < e ==> !ColStop(runs, line, col, es[u]);
    FirstColStopIs(runs, es, line, col, 0, e);
  }

  /** No glyph among the first `k` stops `line_col_position`. */
  ghost predicate ColPrefix(runs: seq<LayoutRun>, line: nat, col: nat, k: nat) {
    var es := Entries(runs, |runs|);
    && k <= |es|
    && forall u :: 0 <= u < k ==> !ColStop(runs, line, col, es[u])
  }

  /** `line_col_position` ends on glyph `e` when it is the first to stop the search and holds the column. */
  lemma LineColFoundAt(runs: seq<LayoutRun>, line: nat, col: nat, e: nat)
    requires ColPrefix(runs, line, col, e) && e < |Entries(runs, |runs|)|
    requires ColFound(runs, line, col, Entries(runs, |runs|)[e])
    ensures LineColSpec(runs, line, col) == GlyphPosition(runs, Entries(runs, |runs|)[e])
  {
    FirstColStopIs(runs, Entries(runs, |runs|), line, col, 0, e);
  }

  /**
   * `line_col_position` ends right of the glyph before glyph `e` when `e` is
   * the first to stop the search without holding the column.
   */
  lemma LineColStopsBefore(runs: seq<LayoutRun>, line: nat, col: nat, e: nat)
    requires ColPrefix(runs, line, col, e) && e < |Entries(runs, |runs|)|
    requires var es := Entries(runs, |runs|);
             ColStop(runs, line, col, es[e]) && !ColFound(runs, line, col, es[e])
    ensures var es := Entries(runs, |runs|);
            LineColSpec(runs, line, col) == PastGlyph(LastRun(runs, es[e].run), GlyphBefore(es, e))
  {
    FirstColStopIs(runs, Entries(runs, |runs|), line, col, 0, e);
  }

  /** `line_col_position` ends after the last run when no glyph stops the search. */
  lemma LineColPast(runs: seq<LayoutRun>, line: nat, col: nat)
    requires ColPrefix(runs, line, col, |Entries(runs, |runs|)|)
    ensures var es := Entries(runs, |runs|);
            LineColSpec(runs, line, col) == PastGlyph(LastRun(runs, |runs|), GlyphBefore(es, |es|))
  {
    FirstColStopNone(runs, Entries(runs, |runs|), line, col, 0);
  }

  /** The glyphs of run `ri` follow those of the earlier runs among all glyphs. */
  lemma RunEntries(runs: seq<LayoutRun>, ri: nat)
    requires ri < |runs|
    ensures |Entries(runs, ri + 1)| == |Entries(runs, ri)| + |runs[ri].glyphs| <= |Entries(runs, |runs|)|
    ensures forall g :: 0 <= g < |runs[ri].glyphs| ==>
              Entries(runs, |runs|)[|Entries(runs, ri)| + g] == Entry(ri, runs[ri].glyphs[g])
  {
    EntriesPrefix(runs, ri + 1, |runs|);
    forall g | 0 <= g < |runs[ri].glyphs|
      ensures Entries(runs, |runs|)[|Entries(runs, ri)| + g] == Entry(ri, runs[ri].glyphs[g])
    {
      EntryAt(runs, |runs|, ri, g);
    }
  }


  /**
   * One glyph of `line_col_position`: glyph `gi` of run `ri`, which is glyph
   * `e` among all, gives a position when it stops the search.
   */
  method LineColGlyph(runs: seq<LayoutRun>, line: nat, col: nat, ri: nat, gi: nat, ghost e: nat,
                      lastGlyph: Option<Glyph>, lastLine: nat, lastLineY: real, lastGlyphAscent: real, lastGlyphDescent: real)
      returns (r: Option<HitPosition>)
    requires ri < |runs| && gi < |runs[ri].glyphs|
    requires e < |Entries(runs, |runs|)| && Entries(runs, |runs|)[e] == Entry(ri, runs[ri].glyphs[gi])
    requires ColPrefix(runs, line, col, e)
    requires lastGlyph == GlyphBefore(Entries(runs, |runs|), e)
    requires LastRun(runs, ri) == HitPosition(lastLine, 0.0, lastLineY, lastGlyphAscent, lastGlyphDescent)
    ensures r.Some? ==> r.value == LineColSpec(runs, line, col)
    ensures r.None? ==> ColPrefix(runs, line, col, e + 1)
  {
    var run := runs[ri];
    var glyph := run.glyphs[gi];
    if line == run.lineI {
      if glyph.start > col {
        LineColStopsBefore(runs, line, col, e);
        return Some(PastGlyph(HitPosition(lastLine, 0.0, lastLineY, lastGlyphAscent, lastGlyphDescent), lastGlyph));
      }
      if glyph.start <= col < glyph.end {
        LineColFoundAt(runs, line, col, e);
        return Some(HitPosition(ri, glyph.x, run.lineY, run.glyphAscent, run.glyphDescent));
      }
    } else if run.lineI > line {
      LineColStopsBefore(runs, line, col, e);
      return Some(PastGlyph(HitPosition(lastLine, 0.0, lastLineY, lastGlyphAscent, lastGlyphDescent), lastGlyph));
    }
    r := None;
  }

  /**
   * The glyph loop of `line_col_position` over run `ri`: a position when a
   * glyph stops the search, and the last glyph seen.
   */
  method LineColRun(runs: seq<LayoutRun>, line: nat, col: nat, ri: nat,
                    lastGlyph0: Option<Glyph>, lastLine: nat, lastLineY: real, lastGlyphAscent: real, lastGlyphDescent: real)
      returns (r: Option<HitPosition>, lastGlyph: Option<Glyph>)
    requires ri < |runs|
    requires ColPrefix(runs, line, col, |Entries(runs, ri)|)
    requires lastGlyph0 == GlyphBefore(Entries(runs, |runs|), |Entries(runs, ri)|)
    requires LastRun(runs, ri) == HitPosition(lastLine, 0.0, lastLineY, lastGlyphAscent, lastGlyphDescent)
    ensures r.Some? ==> r.value == LineColSpec(runs, line, col)
    ensures r.None? ==>
              && ColPrefix(runs, line, col, |Entries(runs, ri + 1)|)
              && lastGlyph == GlyphBefore(Entries(runs, |runs|), |Entries(runs, ri + 1)|)
  {
    ghost var es := Entries(runs, |runs|);
    ghost var base := |Entries(runs, ri)|;
    RunEntries(runs, ri);
    lastGlyph := lastGlyph0;
    for gi := 0 to |runs[ri].glyphs|
      invariant ColPrefix(runs, line, col, base + gi)
      invariant lastGlyph == GlyphBefore(es, base + gi)
    {
      r := LineColGlyph(runs, line, col, ri, gi, base + gi, lastGlyph, lastLine, lastLineY, lastGlyphAscent, lastGlyphDescent);
      if r.Some? {
        return;
      }
      lastGlyph := Some(runs[ri].glyphs[gi]);
    }
    r := None;
  }

  /**
   * The loops of `line_col_position` over the runs and their glyphs, keeping
   * the last glyph seen and the baseline of the last run finished.
   */
  method LineColPosition(runs: seq<LayoutRun>, line: nat, col: nat) returns (p: HitPosition)
    ensures p == LineColSpec(runs, line, col)
  {
    var lastGlyph: Option<Glyph> := None;
    var lastLine := 0;
    var lastLineY := 0.0;
    var lastGlyphAscent := 0.0;
    var lastGlyphDescent := 0.0;
    for currentLine := 0 to |runs|
      invariant ColPrefix(runs, line, col, |Entries(runs, currentLine)|)
      invariant lastGlyph == GlyphBefore(Entries(runs, |runs|), |Entries(runs, currentLine)|)
      invariant LastRun(runs, currentLine) == HitPosition(lastLine, 0.0, lastLineY, lastGlyphAscent, lastGlyphDescent)
    {
      var run := runs[currentLine];
      var r;
      r, lastGlyph := LineColRun(runs, line, col, currentLine, lastGlyph, lastLine, lastLineY, lastGlyphAscent, lastGlyphDescent);
      if r.Some? {
        return r.value;
      }
      lastLine := currentLine;
      lastLineY := run.lineY;
      lastGlyphAscent := run.glyphAscent;
      lastGlyphDescent := run.glyphDescent;
    }
    LineColPast(runs, line, col);
    return PastGlyph(HitPosition(lastLine, 0.0, lastLineY, lastGlyphAscent, lastGlyphDescent), lastGlyph);
  }

  /** The largest line index among the first `n` runs, or zero: `last_line` of `hit_position`. */
  function MaxLine(runs: seq<LayoutRun>, n: nat): nat
    requires n <= |runs|
  {
    if n == 0 then 0
    else if runs[n - 1].lineI > MaxLine(runs, n - 1) then runs[n - 1].lineI
    else MaxLine(runs, n - 1)
  }

  /** The end of the last glyph among the first `n` runs, or zero: `last_end` of `hit_position`. */
  function LastGlyphEnd(runs: seq<LayoutRun>, n: nat): nat
    requires n <= |runs|
  {
    if n == 0 then 0
    else if |runs[n - 1].glyphs| > 0 then runs[n - 1].glyphs[|runs[n - 1].glyphs| - 1].end
    else LastGlyphEnd(runs, n - 1)
  }

  /**
   * The offset `hit_position` as written adds to the glyph indices of run
   * `n`: each time the line index grows it adds one past the end of the last
   * glyph seen, which after a line without glyphs is a glyph of an earlier
   * line.
   */
  function RunOffsetAsWritten(runs: seq<LayoutRun>, n: nat): nat
    requires n < |runs|
  {
    var before := if n == 0 then 0 else RunOffsetAsWritten(runs, n - 1);
    if runs[n].lineI > MaxLine(runs, n) then before + LastGlyphEnd(runs, n) + 1 else before
  }

  /** The length of the text of the run before run `n`, or zero for the first. */
  function PrevTextLength(runs: seq<LayoutRun>, n: nat): nat
    requires n < |runs|
  {
    if n == 0 then 0 else |runs[n - 1].text|
  }

  /**
   * The offset of run `n` as `hit_position` evidently intends it: each time
   * the line index grows, one past the end of the text of the line before.
   */
  function RunOffset(runs: seq<LayoutRun>, n: nat): nat
    requires n < |runs|
  {
    var before := if n == 0 then 0 else RunOffset(runs, n - 1);
    if runs[n].lineI > MaxLine(runs, n) then before + PrevTextLength(runs, n) + 1 else before
  }

  /** Where line `l` starts in the text made of `texts` joined by line feeds. */
  function LineStart(texts: seq<string>, l: nat): nat
    requires l <= |texts|
  {
    if l == 0 then 0 else LineStart(texts, l - 1) + |texts[l - 1]| + 1
  }

  /**
   * Runs laid out from the lines `texts`, from the first line on: each run
   * shows the text of its line, and the line index starts at zero and grows
   * by at most one from run to run.
   */
  predicate RunsOfLines(runs: seq<LayoutRun>, texts: seq<string>) {
    && (forall n :: 0 <= n < |runs| ==> runs[n].lineI < |texts| && runs[n].text == texts[runs[n].lineI])
    && (|runs| > 0 ==> runs[0].lineI == 0)
    && (forall n :: 0 < n < |runs| ==> runs[n].lineI == runs[n - 1].lineI || runs[n].lineI == runs[n - 1].lineI + 1)
  }

  /** Over runs whose line index never falls, the largest line index seen is the last one. */
  lemma {:induction false} MaxLineLast(runs: seq<LayoutRun>, texts: seq<string>, n: nat)
    requires RunsOfLines(runs, texts) && 0 < n <= |runs|
    ensures MaxLine(runs, n) == runs[n - 1].lineI
  {
    if n > 1 {
      MaxLineLast(runs, texts, n - 1);
    }
  }

  /** The corrected offset of every run is the start of its line in the whole text. */
  lemma {:induction false} RunOffsetIsLineStart(runs: seq<LayoutRun>, texts: seq<string>, n: nat)
    requires RunsOfLines(runs, texts) && n < |runs|
    ensures RunOffset(runs, n) == LineStart(texts, runs[n].lineI)
  {
    if n > 0 {
      RunOffsetIsLineStart(runs, texts, n - 1);
      MaxLineLast(runs, texts, n);
    }
  }

  /** The runs of the lines "ab", "" and "cd", one glyph per character. */
  function EmptyLineRuns(): seq<LayoutRun> {
    [ LayoutRun(0, "ab", false, [Glyph(0, 1, 0.0, 1.0, false), Glyph(1, 2, 1.0, 1.0, false)], 1.0, 2.0, 1.0, 1.0, 0.0),
      LayoutRun(1, "", false, [], 2.0, 0.0, 1.0, 1.0, 0.0),
      LayoutRun(2, "cd", false, [Glyph(0, 1, 0.0, 1.0, false), Glyph(1, 2, 1.0, 1.0, false)], 3.0, 2.0, 1.0, 1.0, 0.0) ]
  }

  /**
   * After an empty line the offset as written counts the line before it
   * twice: "cd" starts at 4 in "ab\n\ncd", the offset as written is 6.
   */
  lemma OffsetAsWrittenAfterEmptyLine()
    ensures RunsOfLines(EmptyLineRuns(), ["ab", "", "cd"])
    ensures LineStart(["ab", "", "cd"], 2) == 4
    ensures RunOffsetAsWritten(EmptyLineRuns(), 2) == 6
    ensures RunOffset(EmptyLineRuns(), 2) == 4
  {
  }

  /** The start of glyph `e` in the text as `hit_position` counts it. */
  function TextStart(runs: seq<LayoutRun>, es: seq<Entry>, e: nat): nat
    requires e < |es| && es[e].run < |runs|
  {
    es[e].glyph.start + RunOffset(runs, es[e].run)
  }

  /** `hit_position` stops at a glyph that starts past the index, or holds it. */
  predicate PosStop(runs: seq<LayoutRun>, es: seq<Entry>, idx: nat, e: nat)
    requires e < |es| && es[e].run < |runs|
  {
    TextStart(runs, es, e) > idx || idx < es[e].glyph.end + RunOffset(runs, es[e].run)
  }

  /** The first glyph from `from` on where `hit_position` stops. */
  function FirstPosStop(runs: seq<LayoutRun>, es: seq<Entry>, idx: nat, from: nat): (r: Option<nat>)
    requires from <= |es| && forall e :: 0 <= e < |es| ==> es[e].run < |runs|
    ensures r.Some? ==> from <= r.value < |es| && PosStop(runs, es, idx, r.value)
    decreases |es| - from
  {
    if from == |es| then None
    else if PosStop(runs, es, idx, from) then Some(from)
    else FirstPosStop(runs, es, idx, from + 1)
  }

  /** The search of `hit_position` from `from` finds the first glyph that stops it. */
  lemma {:induction false} FirstPosStopIs(runs: seq<LayoutRun>, es: seq<Entry>, idx: nat, from: nat, e: nat)
    requires from <= e < |es| && forall u :: 0 <= u < |es| ==> es[u].run < |runs|
    requires forall u :: from <= u < e ==> !PosStop(runs, es, idx, u)
    requires PosStop(runs, es, idx, e)
    ensures FirstPosStop(runs, es, idx, from) == Some(e)
    decreases e - from
  {
    if from < e {
      FirstPosStopIs(runs, es, idx, from + 1, e);
    }
  }

  /** The search of `hit_position` from `from` finds nothing when no glyph stops it. */
  lemma {:induction false} FirstPosStopNone(runs: seq<LayoutRun>, es: seq<Entry>, idx: nat, from: nat)
    requires from <= |es| && forall u :: 0 <= u < |es| ==> es[u].run < |runs|
    requires forall u :: from <= u < |es| ==> !PosStop(runs, es, idx, u)
    ensures FirstPosStop(runs, es, idx, from) == None
    decreases |es| - from
  {
    if from < |es| {
      FirstPosStopNone(runs, es, idx, from + 1);
    }
  }

  /** What `hit_position` keeps of the glyphs it has passed: the last point, its glyph's width and end. */
  datatype Seen = Seen(lastPosition: HitPosition, lastGlyphWidth: real, lastEnd: nat)

  /** What `hit_position` keeps before glyph `k`: the glyph before it, or the origin for the first. */
  function SeenBefore(runs: seq<LayoutRun>, es: seq<Entry>, k: nat): Seen
    requires k <= |es| && forall e :: 0 <= e < |es| ==> es[e].run < |runs|
  {
    if k > 0 then Seen(GlyphPosition(runs, es[k - 1]), es[k - 1].glyph.w, es[k - 1].glyph.end)
    else Seen(Origin, 0.0, 0)
  }

  /** The point right of the glyph before glyph `k`, or the origin for the first. */
  function PastLast(runs: seq<LayoutRun>, es: seq<Entry>, k: nat): HitPosition
    requires k <= |es| && forall e :: 0 <= e < |es| ==> es[e].run < |runs|
  {
    var seen := SeenBefore(runs, es, k);
    seen.lastPosition.(x := seen.lastPosition.x + seen.lastGlyphWidth)
  }

  /**
   * `hit_position(idx)`: the point of the first glyph that holds the text
   * index, counting indices across lines by the corrected `RunOffset`, unless one that starts past it comes first; then the point right
   * of the glyph before that one.  With neither, the point right of the last
   * glyph, or the origin for index zero.
   */
  function HitPositionSpec(runs: seq<LayoutRun>, idx: nat): HitPosition {
    var es := Entries(runs, |runs|);
    match FirstPosStop(runs, es, idx, 0)
    case Some(e) => if TextStart(runs, es, e) > idx then PastLast(runs, es, e) else GlyphPosition(runs, es[e])
    case None => if idx > 0 then PastLast(runs, es, |es|) else Origin
  }

  /** Where glyph `en` starts in the text made of `texts` joined by line feeds. */
  function DocStart(runs: seq<LayoutRun>, texts: seq<string>, en: Entry): nat
    requires en.run < |runs| && runs[en.run].lineI <= |texts|
  {
    LineStart(texts, runs[en.run].lineI) + en.glyph.start
  }

  /** Where glyph `en` ends in the text made of `texts` joined by line feeds. */
  function DocEnd(runs: seq<LayoutRun>, texts: seq<string>, en: Entry): nat
    requires en.run < |runs| && runs[en.run].lineI <= |texts|
  {
    LineStart(texts, runs[en.run].lineI) + en.glyph.end
  }

  /**
   * On runs laid out from the lines `texts`, whose glyphs come in text
   * order, `hit_position(idx)` is the point of the glyph that holds the index
   * `idx` of the whole text.
   */
  lemma HitPositionFinds(runs: seq<LayoutRun>, texts: seq<string>, idx: nat, e: nat)
    requires RunsOfLines(runs, texts)
    requires var es := Entries(runs, |runs|);
             && e < |es|
             && DocStart(runs, texts, es[e]) <= idx < DocEnd(runs, texts, es[e])
             && (forall u :: 0 <= u < e ==>
                   es[u].glyph.start <= es[u].glyph.end && DocEnd(runs, texts, es[u]) <= DocStart(runs, texts, es[e]))
    ensures HitPositionSpec(runs, idx) == GlyphPosition(runs, Entries(runs, |runs|)[e])
  {
    var es := Entries(runs, |runs|);
    forall u | 0 <= u < e
      ensures !PosStop(runs, es, idx, u)
    {
      RunOffsetIsLineStart(runs, texts, es[u].run);
    }
    RunOffsetIsLineStart(runs, texts, es[e].run);
    FirstPosStopIs(runs, es, idx, 0, e);
  }

  /**
   * On runs laid out from the lines `texts`, an index at or past the end of
   * every glyph gives the point right of the last glyph, or the origin for
   * index zero.
   */
  lemma HitPositionAfterAll(runs: seq<LayoutRun>, texts: seq<string>, idx: nat)
    requires RunsOfLines(runs, texts)
    requires forall en :: en in Entries(runs, |runs|) ==>
               en.glyph.start <= en.glyph.end && DocEnd(runs, texts, en) <= idx
    ensures var es := Entries(runs, |runs|);
            HitPositionSpec(runs, idx) == if idx > 0 then PastLast(runs, es, |es|) else Origin
  {
    var es := Entries(runs, |runs|);
    forall u | 0 <= u < |es|
      ensures !PosStop(runs, es, idx, u)
    {
      assert es[u] in es;
      RunOffsetIsLineStart(runs, texts, es[u].run);
    }
    FirstPosStopNone(runs, es, idx, 0);
  }

  /** `hit_position` ends at glyph `e` when it is the first to stop the search. */
  lemma HitPositionAt(runs: seq<LayoutRun>, idx: nat, e: nat)
    requires PosPrefix(runs, idx, e) && e < |Entries(runs, |runs|)|
    requires PosStop(runs, Entries(runs, |runs|), idx, e)
    ensures var es := Entries(runs, |runs|);
            HitPositionSpec(runs, idx) == if TextStart(runs, es, e) > idx then PastLast(runs, es, e) else GlyphPosition(runs, es[e])
  {
    FirstPosStopIs(runs, Entries(runs, |runs|), idx, 0, e);
  }

  /** `hit_position` ends past the last glyph when no glyph stops the search. */
  lemma HitPositionPast(runs: seq<LayoutRun>, idx: nat)
    requires PosPrefix(runs, idx, |Entries(runs, |runs|)|)
    ensures var es := Entries(runs, |runs|);
            HitPositionSpec(runs, idx) == if idx > 0 then PastLast(runs, es, |es|) else Origin
  {
    FirstPosStopNone(runs, Entries(runs, |runs|), idx, 0);
  }

  /** No glyph among the first `k` stops `hit_position`. */
  ghost predicate PosPrefix(runs: seq<LayoutRun>, idx: nat, k: nat) {
    var es := Entries(runs, |runs|);
    && k <= |es|
    && forall u :: 0 <= u < k ==> !PosStop(runs, es, idx, u)
  }

  /**
   * The glyph loop of `hit_position` over run `ri`: a position when a glyph
   * stops the search, and what it keeps of the glyphs seen.
   */
  method HitPositionRun(runs: seq<LayoutRun>, idx: nat, ri: nat, offset: nat,
                        lastPosition0: HitPosition, lastGlyphWidth0: real, lastEnd0: nat)
      returns (r: Option<HitPosition>, lastPosition: HitPosition, lastGlyphWidth: real, lastEnd: nat)
    requires ri < |runs| && offset == RunOffset(runs, ri)
    requires PosPrefix(runs, idx, |Entries(runs, ri)|)
    requires Seen(lastPosition0, lastGlyphWidth0, lastEnd0) == SeenBefore(runs, Entries(runs, |runs|), |Entries(runs, ri)|)
    ensures r.Some? ==> r.value == HitPositionSpec(runs, idx)
    ensures r.None? ==>
              && PosPrefix(runs, idx, |Entries(runs, ri + 1)|)
              && Seen(lastPosition, lastGlyphWidth, lastEnd) == SeenBefore(runs, Entries(runs, |runs|), |Entries(runs, ri + 1)|)
  {
    ghost var es := Entries(runs, |runs|);
    ghost var base := |Entries(runs, ri)|;
    RunEntries(runs, ri);
    var run := runs[ri];
    lastPosition, lastGlyphWidth, lastEnd := lastPosition0, lastGlyphWidth0, lastEnd0;
    for gi := 0 to |run.glyphs|
      invariant PosPrefix(runs, idx, base + gi)
      invariant Seen(lastPosition, lastGlyphWidth, lastEnd) == SeenBefore(runs, es, base + gi)
    {
      var glyph := run.glyphs[gi];
      assert es[base + gi] == Entry(ri, glyph);
      if glyph.start + offset > idx {
        HitPositionAt(runs, idx, base + gi);
        lastPosition := lastPosition.(x := lastPosition.x + lastGlyphWidth);
        return Some(lastPosition), lastPosition, lastGlyphWidth, lastEnd;
      }
      lastEnd := glyph.end;
      lastGlyphWidth := glyph.w;
      lastPosition := HitPosition(ri, glyph.x, run.lineY, run.glyphAscent, run.glyphDescent);
      if glyph.start + offset <= idx < glyph.end + offset {
        HitPositionAt(runs, idx, base + gi);
        return Some(lastPosition), lastPosition, lastGlyphWidth, lastEnd;
      }
    }
    r := None;
  }

  /**
   * The loops of `hit_position` over the runs and their glyphs, counting
   * text indices across lines by the offset of each line.
   */
  method HitPositionOf(runs: seq<LayoutRun>, idx: nat) returns (p: HitPosition)
    ensures p == HitPositionSpec(runs, idx)
  {
    var lastLine := 0;
    var lastEnd := 0;
    var offset := 0;
    var lastGlyphWidth := 0.0;
    var lastPosition := Origin;
    for line := 0 to |runs|
      invariant PosPrefix(runs, idx, |Entries(runs, line)|)
      invariant Seen(lastPosition, lastGlyphWidth, lastEnd) == SeenBefore(runs, Entries(runs, |runs|), |Entries(runs, line)|)
      invariant lastLine == MaxLine(runs, line)
      invariant offset == if line == 0 then 0 else RunOffset(runs, line - 1)
    {
      var run := runs[line];
      if run.lineI > lastLine {
        lastLine := run.lineI;
        offset := offset + (if line == 0 then 0 else |runs[line - 1].text|) + 1;
      }
      var r;
      r, lastPosition, lastGlyphWidth, lastEnd := HitPositionRun(runs, idx, line, offset, lastPosition, lastGlyphWidth, lastEnd);
      if r.Some? {
        return r.value;
      }
    }
    HitPositionPast(runs, idx);
    if idx > 0 {
      lastPosition := lastPosition.(x := lastPosition.x + lastGlyphWidth);
      return lastPosition;
    }
    return Origin;
  }
}
