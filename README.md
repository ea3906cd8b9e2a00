# cosmic-text: attribute spans and the text layout buffer, in Dafny

This project models the core of cosmic-text's text buffer, which lives in two
files: `src/attrs.rs` and `src/buffer.rs`.

**Attributes and the span map (`src/attrs.rs`)**
- `AttrsList` is a class. It holds a default attribute set and a
  sorted, disjoint sequence of non-empty spans. That sequence is the
  storage of the `RangeMap`, with its `insert` and `remove` written out as
  functions.
- `add_span`, `clear_spans` and `split_off` update the list in place.
  `split_off` keeps both of the source's loops: it first collects the
  removals, then applies them.
- `ParseList` is the tokenizer behind `FamilyOwned::parse_list`. It is a
  class with a `pos` field that `Next` advances.
- `Attrs`, `AttrsOwned`, `Family` and `FamilyOwned` are values, each with
  its conversions and with `compatible`.

**The layout buffer (`src/buffer.rs`)**
- `TextLayout` is a class. Its fields are `lines`, `width`, `height`,
  `scroll` (an `i32`), `redraw` and `wrap`.
- Each of its methods (`set_text`, `shape_until`, `shape_until_scroll`,
  `shape_until_cursor`, `relayout`, `set_size`, `set_wrap`, `set_scroll`)
  is proved against specification functions of the old line records. The
  two main ones:
  - `ShapeStop` is where shaping stops;
  - `LaidOutUpTo` gives the line records with that prefix laid out.
- Shaping and wrapping a line is not part of this model. It is a pair of
  function values (the `Shaper`), taking the text and attributes of a line
  (and the width and wrap mode) to its shape and its layout lines.
- `LayoutRunIter` is a class with the source's counters. Its `Next` is
  proved against `VisibleRuns`: the layout lines past the scrolled ones, up
  to the viewport height.
- `layout_cursor`, `size`, `hit`, `hit_point`, `line_col_position` and
  `hit_position` are read-only loops. Each is a method proved equal to a
  specification function, and lemmas state what that function means.
- Cursor ordering (`Cursors.Less`) and `LayoutRun::highlight` are
  functions, with lemmas about them.

Modules, one per file:

| file | module | models |
|---|---|---|
| wrappers.dfy | Wrappers | `Option` |
| attributes.dfy | Attributes | `Family`, `FamilyOwned`, `Attrs`, `AttrsOwned`, `compatible` |
| span_map.dfy | SpanMap | `RangeMap` storage, `AttrsList` |
| family_list.dfy | FamilyList | `parse_list`, `ParseList::next` |
| cursors.dfy | Cursors | `Cursor`, `Affinity`, `LayoutCursor` |
| layout.dfy | Layout | glyphs, layout lines, line records, the `Shaper`, `LayoutRun::highlight` |
| layout_runs.dfy | LayoutRuns | `LayoutRunIter`, and the fold of `size` over the runs |
| text_lines.dfy | TextLines | how `set_text` splits text and carves attributes |
| buffer.dfy | Buffer | `TextLayout` |
| hit_test.dfy | HitTest | `hit`, `hit_point`, `line_col_position`, `hit_position` |

## Model

| member | source | states |
|---|---|---|
| Attributes.FamilyOwned.AsFamily | src/attrs.rs:39-48 | owning the borrowed family again gives back the same owned family |
| Attributes.FamilyRoundTrip | src/attrs.rs:28-48 | converting a borrowed family to an owned one and back gives the same family |
| Attributes.Attrs.Compatible | src/attrs.rs:194-200 | two attribute sets are compatible exactly when one is the other with at most its color, metadata, font size and line height changed |
| Attributes.CompatibleSameFont | src/attrs.rs:67-73 | compatible attribute sets have the same `FontAttrs` (family, monospaced, stretch, style, weight), and only those |
| Attributes.CompatibleIgnoresAppearance | src/attrs.rs:194-200 | changing color, metadata, font size or line height never changes compatibility |
| Attributes.CompatibleEquivalence | src/attrs.rs:194-200 | compatibility is reflexive, symmetric and transitive |
| Attributes.AttrsOwned.AsAttrs | src/attrs.rs:248-260 | owning the borrowed attributes again gives back the same owned value |
| Attributes.AttrsRoundTrip | src/attrs.rs:234-260 | owning a set of attributes and borrowing it back gives the same attributes |
| SpanMap.FindSpanCovering | src/attrs.rs:308-313 | in valid storage the lookup finds the span covering the offset; it finds none exactly when no span covers it |
| SpanMap.InsertLookup | src/attrs.rs:296-303 | after the range map's insert of `lo..hi`, every offset in the range maps to the new value and every other offset keeps its old one |
| SpanMap.InsertValid | src/attrs.rs:296-303 | the insert keeps the storage sorted, disjoint and free of empty spans |
| SpanMap.RemoveLookup | src/attrs.rs:337 | the range map's remove unmaps exactly the removed range |
| SpanMap.BelowLookup | src/attrs.rs:316-348 | clipping the storage below `k` keeps every lookup below `k` and removes every lookup from `k` on |
| SpanMap.AboveLookup | src/attrs.rs:316-348 | clipping the storage from `k` on keeps every lookup from `k` on and removes every lookup below `k` |
| SpanMap.RebaseLookup | src/attrs.rs:340-344 | shifting spans that lie at or after `k` down by `k` makes the lookup at `y` answer what the old lookup at `y + k` answered |
| SpanMap.SplitValid | src/attrs.rs:316-348 | both halves of a split of valid storage are valid |
| SpanMap.GetSpanCovering | src/attrs.rs:308-313 | `get_span` is total: the attributes of the covering span, or the defaults when none covers the offset |
| SpanMap.SplitLeftLookup | src/attrs.rs:316-348 | the list kept by `split_off(k)` is valid, has the same defaults, answers as before below `k` and gives the defaults from `k` on |
| SpanMap.SplitRightLookup | src/attrs.rs:316-348 | the list returned by `split_off(k)` is valid, has the same defaults, and answers at `y` what the original answered at `y + k` |
| SpanMap.RemovalsShape | src/attrs.rs:321-329 | the collected removals are exactly the stored spans that end after `k`, in order, each marked for resizing exactly when it starts before `k` |
| SpanMap.AttrsList.constructor | src/attrs.rs:273-278 | a new list has the given defaults and no spans |
| SpanMap.AttrsList.Defaults | src/attrs.rs:281-283 | the defaults borrowed back from the owned copy |
| SpanMap.AttrsList.Spans | src/attrs.rs:286-288 | the spans listed are valid and give the same lookup as the stored ones |
| SpanMap.AttrsList.ClearSpans | src/attrs.rs:291-293 | no spans remain, the defaults are unchanged, and every offset answers the defaults |
| SpanMap.AttrsList.AddSpan | src/attrs.rs:296-303 | an empty range changes nothing; otherwise the storage is the range map's insert; every offset in the range answers the new attributes and every other offset keeps its answer |
| SpanMap.AttrsList.CollectRemovals | src/attrs.rs:321-329 | the first loop of `split_off` collects the removal list `Removals` |
| SpanMap.AttrsList.SplitOff | src/attrs.rs:316-348 | the list keeps what is below `index`, and the new list holds the rest, moved down by `index`, under the same defaults |
| SpanMap.AttrsList.ApplyRemovals | src/attrs.rs:331-346 | after the second loop of `split_off`, this list holds the spans clipped below `index` and the new list holds the spans from `index` on, shifted down by `index` |
| SpanMap.ApplyRemoval | src/attrs.rs:331-346 | one pass of the second loop moves the state from after `j` removals to after `j + 1` |
| SpanMap.KeepPass | src/attrs.rs:337-341 | the pass on this list removes the span and keeps its left half when it straddles `index` |
| SpanMap.MovePass | src/attrs.rs:339-345 | the pass on the new list inserts the span's part from `index` on, shifted down by `index` |
| SpanMap.PassesEnd | src/attrs.rs:331-346 | after the last pass the two lists are the two halves of the split |
| SpanMap.KeptAt | src/attrs.rs:337-341 | the remove and the resizing insert take the kept spans from after `j` passes to after `j + 1` |
| SpanMap.MovedAt | src/attrs.rs:339-345 | the insert into the new list takes the moved spans from after `j` passes to after `j + 1` |
| SpanMap.PassFound | src/attrs.rs:332-336 | looking up the start of the `j`-th removal always finds its span, so the `expect` never fails |
| FamilyList.TrimStartSpec | src/attrs.rs:395 | `trim_start` strips exactly the leading white space |
| FamilyList.TrimEndSpec | src/attrs.rs:395 | `trim_end` strips exactly the trailing white space |
| FamilyList.TrimSpec | src/attrs.rs:395 | `trim` returns the slice between the leading and the trailing white space, neither end of which is white space |
| FamilyList.Generic | src/attrs.rs:419-429 | an unquoted name is a generic family exactly when its lower-cased form is one of the five keywords, and otherwise it is `Name` of the name itself |
| FamilyList.GenericIgnoresCase | src/attrs.rs:422-428 | two names that differ only in ASCII case denote the same generic family |
| FamilyList.UpperCaseKeyword | src/attrs.rs:422-428 | `SERIF` is the generic serif family |
| FamilyList.SkipFrom | src/attrs.rs:368-373 | the skip stops at the first character that is neither ASCII white space nor a comma, having passed only such characters |
| FamilyList.Find | src/attrs.rs:389-400 | the scan finds the first occurrence of the character at or after the position, or reports that there is none |
| FamilyList.NextToken | src/attrs.rs:365-430 | the tokenizer returns `None` exactly when only separators remain (and then stands at the end); every `Some` moves the position strictly forward |
| FamilyList.QuotedKeyword | src/attrs.rs:380-399 | a keyword in quotes is a `Name`, not a generic family |
| FamilyList.QuotedIsName | src/attrs.rs:380-399 | a name that opens with a quote is always `Name` of its trimmed text up to the matching quote (or the end of the input), never a generic family, and the tokenizer resumes past that quote |
| FamilyList.Families | src/attrs.rs:50-56 | the whole family list is finite: no more families than characters |
| FamilyList.ParseList.constructor | src/attrs.rs:50-56 | the tokenizer starts at position 0 of the source |
| FamilyList.ParseList.Next | src/attrs.rs:365-430 | the family returned and the new position are those of `NextToken` at the old position |
| FamilyList.Scan | src/attrs.rs:389-414 | the scanning loops find what `Find` finds |
| Cursors.FromBefore | src/buffer.rs:85-91 | `from_before(b).before() == b` |
| Cursors.FromAfter | src/buffer.rs:93-99 | `from_after(b).after() == b` |
| Cursors.AffinityRoundTrip | src/buffer.rs:76-99 | every affinity is exactly one of before and after, and converting its flag back gives it again |
| Cursors.CursorNew | src/buffer.rs:55-57 | `Cursor::new` keeps the line and index and takes the `Before` affinity |
| Cursors.LessIsNumeric | src/buffer.rs:41-51 | within a bounded index width, the derived order compares line, then index, then affinity, as one number does |
| Cursors.LessTotalOrder | src/buffer.rs:41-51 | the derived cursor order is a strict total order |
| Layout.CursorFromGlyphLeft | src/buffer.rs:186-192 | the left boundary cursor of a glyph is on the run's line; which boundary it is, by the run's direction, is stated by `Layout.GlyphEdges` |
| Layout.CursorFromGlyphRight | src/buffer.rs:194-200 | the right boundary cursor of a glyph is on the run's line; which boundary it is, by the run's direction, is stated by `Layout.GlyphEdges` |
| Layout.GlyphEdges | src/buffer.rs:186-200 | for a glyph with a non-empty range, its two boundary cursors are `(start, After)` and `(end, Before)` whichever the direction, and the right one comes first in cursor order exactly in an RTL run |
| Layout.MarksEmpty | src/buffer.rs:156-170 | no x position is recorded exactly when no boundary cursor of the glyphs seen lies between the two cursors |
| Layout.Highlight | src/buffer.rs:152-184 | the result is `None` exactly when no glyph's left or right boundary cursor lies in `[start, end]`; otherwise its width is non-negative and it spans the first and the last recorded x position |
| Layout.LaidOutCoherent | src/buffer.rs:393 | laying out a coherent line record keeps it coherent and gives it the shaper's layout |
| LayoutRuns.RunsFromShape | src/buffer.rs:253-293 | the visible runs are the layout lines from the first visible one, in order, each placed at the summed line heights; the sequence ends at the last layout line or before the first that would pass the height |
| LayoutRuns.SlotsWithinTotal | src/buffer.rs:253-293 | the iterator reaches no more layout lines than there are; it stops at the first line record without shape or layout |
| LayoutRuns.MaxLineWIsMax | src/buffer.rs:513-525 | the width `size` folds is not negative, at least every run's width, and zero or the width of one of the runs |
| LayoutRuns.SumLineHeightAppend | src/buffer.rs:513-525 | the height `size` folds over runs one after the other is the sum of their folded heights |
| LayoutRuns.RunsSize | src/buffer.rs:514-524 | the fold of `size` computes the widest line and the summed line heights of the runs |
| LayoutRuns.VisibleRunsBound | src/buffer.rs:214-243 | there are never more visible runs than layout lines past the scrolled ones, nor more than `remaining_len` starts at |
| LayoutRuns.InitInv | src/buffer.rs:214-243 | the state the iterator starts in satisfies its invariant |
| LayoutRuns.ScrolledStep | src/buffer.rs:260-265 | skipping a scrolled layout line keeps the invariant |
| LayoutRuns.BelowStep | src/buffer.rs:267-271 | a layout line that passes the height ends the visible runs |
| LayoutRuns.RunStep | src/buffer.rs:267-288 | a layout line that fits is the next visible run, and it uses up one of `remaining_len` |
| LayoutRuns.LineStep | src/buffer.rs:290-291 | moving on to the next line record keeps the invariant |
| LayoutRuns.EndStep | src/buffer.rs:254-256 | a line record without shape or layout, or the end of the records, ends the visible runs |
| LayoutRuns.LayoutRunIter.constructor | src/buffer.rs:214-243 | the new iterator has yielded nothing, and `remaining_len` is the number of layout lines past the scrolled ones, capped at `i32::MAX` |
| LayoutRuns.LayoutRunIter.Next | src/buffer.rs:253-293 | until it has returned `None`, the `n`-th call returns the `n`-th visible run, or `None` past the last; every run returned uses up one of `remaining_len` |
| LayoutRuns.Walk | src/buffer.rs:254-292 | the outer loop of `next` reaches the next visible run or the end of them, keeping the invariant |
| LayoutRuns.SkipScrolled | src/buffer.rs:257-265 | the inner loop passes the scrolled layout lines of one line record |
| LayoutRuns.TakeLine | src/buffer.rs:257-289 | one unscrolled layout line is returned as the next visible run, or ends the runs when it passes the height |
| TextLines.SplitJoin | src/buffer.rs:557 | splitting at line feeds and joining with line feeds gives back the text, and no piece holds a line feed |
| TextLines.SplitTerminatorRoundTrip | src/buffer.rs:557 | the pieces of `split_terminator('\n')`, each followed by a line feed, give back the text with a line feed added when it did not end in one |
| TextLines.StripCr | src/buffer.rs:558-563 | a piece loses exactly one trailing carriage return, when it has one |
| TextLines.PieceAt | src/buffer.rs:556-573 | piece `i` starts at `StartIndex(i)` in the terminated text and is followed by a line feed |
| TextLines.StartIndexInText | src/buffer.rs:556-573 | piece `i` is the slice of the text from `StartIndex(i)`, and ends at the end of the text or at a line feed |
| TextLines.StartIndexStep | src/buffer.rs:572 | the evident start index grows by the raw piece length plus one; the index as written grows by one more after a piece that ended in a carriage return |
| TextLines.StartIndexAsWrittenOvershoots | src/buffer.rs:572 | for the text "a\r\nb" the second line starts at 3, but the index as written is 4, the length of the text |
| TextLines.CarvedLookup | src/buffer.rs:564-570 | after carving off `i` lines, the remaining attribute list answers at `x` what the input list answered at `x + StartIndex(i)`, with the same defaults |
| TextLines.LineAttrsLookup | src/buffer.rs:564-566 | line `i`'s attribute list answers as the input list from its start index, up to the piece's length plus its line feed, and the defaults past that |
| TextLines.PieceLines | src/buffer.rs:557-574 | line `i` of the lines built from the pieces is the record of piece `i` |
| TextLines.TextLines | src/buffer.rs:575-578 | `set_text` always leaves at least one line |
| TextLines.TextLinesSpec | src/buffer.rs:553-583 | every line is unshaped; holds no line feed; is the slice of the text at its start index; and ends at the end of the text, at a line feed, or at a carriage return ending a piece (`TextLines.TextLinesCount` gives the number of lines) |
| TextLines.PieceLineInText | src/buffer.rs:556-570 | the record made of piece `i` is unshaped, holds no line feed, and is the slice of the text at its start index, ending at a line break |
| TextLines.TextLinesCount | src/buffer.rs:557-578 | one line per piece of the text, and one line for empty text |
| TextLines.StrippedInText | src/buffer.rs:558-563 | the stripped piece is still a slice of the text, followed by the end, a line feed, or the stripped carriage return |
| Buffer.ShapeStopSpec | src/buffer.rs:383-397 | `shape_until(n)` processes the lines in order, stopping before the first line it reaches once the running total of layout lines is at least `n` |
| Buffer.ShapeStopNonPositive | src/buffer.rs:386-388 | `shape_until(n)` with `n <= 0` processes no line |
| Buffer.UnshapedSpec | src/buffer.rs:390-392 | the redraw flag is raised exactly when some processed line had no shape |
| Buffer.LaidOutTwice | src/buffer.rs:407-455 | laying out a prefix of the lines and then a longer or shorter prefix is laying out the longer one; some line was unshaped in either step exactly when one was in the longer prefix |
| Buffer.UnshapedMono | src/buffer.rs:390-392 | an unshaped line among the first `a` lines is one among the first `b >= a` |
| Buffer.LayoutSumSame | src/buffer.rs:394-395 | the running total of layout lines depends only on the text and attributes of the lines |
| Buffer.ShapeStopSame | src/buffer.rs:383-397 | where shaping stops depends only on the text and attributes of the lines |
| Buffer.RelaidCoherent | src/buffer.rs:365-370 | after `relayout` every shaped line is laid out anew and every unshaped line has no layout; shape, text and attributes are unchanged |
| Buffer.LaidOutUpToCoherent | src/buffer.rs:383-397 | laying out a prefix keeps every line record coherent with the shaper |
| Buffer.FindGlyph | src/buffer.rs:462-479 | the search finds the first glyph that has the cursor as one of its boundaries, or reports that none has |
| Buffer.FindLayout | src/buffer.rs:461-480 | the search finds the first layout line, in order, with such a glyph, and that glyph |
| Buffer.CursorSlot | src/buffer.rs:457-485 | `layout_cursor` keeps the cursor's line, and falls back to `(line, 0, 0)` when no glyph matches |
| Buffer.CursorSlotBoundary | src/buffer.rs:462-478 | at the first matching glyph the result is `glyph_i` for its left boundary cursor and `glyph_i + 1` for its right one; an LTR glyph's `(start, After)` gives `glyph_i` |
| Buffer.FoundFirst | src/buffer.rs:461-480 | the first match in (layout line, glyph) order wins |
| Buffer.FindCursorSlot | src/buffer.rs:457-485 | the loops of `layout_cursor` compute `CursorSlot` |
| Buffer.TextLayout.constructor | src/buffer.rs:348-359 | a new buffer has the widest width and height, word wrap, scroll 0, and one empty line laid out |
| Buffer.TextLayout.Relayout | src/buffer.rs:361-376 | the lines become `Relaid` of the old ones, the redraw flag is raised, and the other fields are unchanged |
| Buffer.TextLayout.ShapeUntil | src/buffer.rs:379-404 | the lines up to `ShapeStop` are laid out; the result is their total of layout lines; redraw is raised exactly when one of them was unshaped |
| Buffer.TextLayout.ShapeUntilScroll | src/buffer.rs:448-455 | the lines are shaped until `scroll + i32::MAX`, and the scroll is clamped to 0 |
| Buffer.TextLayout.ShapeUntilCursor | src/buffer.rs:407-445 | the lines up to the cursor's line, and then up to where the scroll that shows the cursor demands, are laid out; scroll ends at 0 |
| Buffer.TextLayout.LayoutCursorOf | src/buffer.rs:457-485 | `layout_cursor` of a laid-out line is `CursorSlot` of its layout |
| Buffer.TextLayout.SetWrap | src/buffer.rs:505-511 | the same wrap changes nothing; a new one relays every shaped line, then shapes until the scroll, and raises redraw |
| Buffer.TextLayout.SetSize | src/buffer.rs:527-537 | width and height become the sizes clamped at 0; when either changed, the lines are relaid and shaped until the scroll |
| Buffer.TextLayout.ShapesCoherent | src/buffer.rs:331-340 | a valid buffer has at least one line and every shape is the shaper's for that line |
| Buffer.TextLayout.SetScroll | src/buffer.rs:545-550 | the scroll becomes the new value; redraw is raised exactly when it changed |
| Buffer.TextLayout.SetText | src/buffer.rs:553-583 | the lines become those `TextLines` builds from the text and the attribute list, shaped until `i32::MAX`; scroll is 0 and redraw is raised |
| Buffer.TextLayout.LayoutRuns | src/buffer.rs:596-598 | a fresh iterator over the current lines, scroll and height |
| Buffer.TextLayout.Hit | src/buffer.rs:800-895 | the cursor is `HitSpec` of the visible runs |
| Buffer.TextLayout.HitPointOf | src/buffer.rs:600-691 | the hit point is `HitPointSpec` of the visible runs |
| Buffer.TextLayout.LineColPosition | src/buffer.rs:693-749 | the position is `LineColSpec` of the visible runs |
| Buffer.TextLayout.Size | src/buffer.rs:513-525 | the size is the widest and the summed line heights of the visible runs |
| Buffer.TextLayout.HitPositionOf | src/buffer.rs:751-797 | the position is `HitPositionSpec` of the visible runs |
| Buffer.SetTextLines | src/buffer.rs:553-583 | the built lines are shaped until `i32::MAX`; at least the first line is shaped, so a redraw is always due |
| Buffer.BuildTextLines | src/buffer.rs:554-579 | the loop of `set_text` builds `TextLines` of the text and the attribute list |
| Buffer.FirstLinesShaped | src/buffer.rs:581-582 | shaping fresh lines until `i32::MAX` shapes at least the first and keeps them coherent |
| Buffer.TextLinesCoherent | src/buffer.rs:553-583 | every line `set_text` builds is coherent with the shaper |
| Buffer.CarveLine | src/buffer.rs:558-570 | one iteration of `set_text` gives line `i` its record and leaves the rest of the attribute list for the lines after it |
| Buffer.BuildLines | src/buffer.rs:554-579 | the lines built are one per piece, or a single empty line for no pieces |
| Buffer.CursorLine | src/buffer.rs:411-416 | the loop of `shape_until_cursor` stops at the cursor's line, or at the end of the lines |
| Buffer.ShapeStep | src/buffer.rs:390-395 | one line is laid out and its layout lines are added to the total |
| Buffer.ShapeCursorLine | src/buffer.rs:418-425 | at the cursor's line the layout index is that of `layout_cursor` |
| Buffer.ShapeLines | src/buffer.rs:383-397 | the loop of `shape_until` lays out the lines before `ShapeStop` and sums their layout lines |
| Buffer.ShapeToCursor | src/buffer.rs:410-430 | the loop of `shape_until_cursor` lays out the lines up to the cursor's line and finds the cursor's layout index |
| Buffer.ScrollLines | src/buffer.rs:448-455 | `shape_until_scroll` from a scroll at or below 0 shapes until `scroll + i32::MAX` and sets scroll to 0 |
| Buffer.CursorScrollSpec | src/buffer.rs:437-442 | the scroll adjusted for the cursor keeps the cursor's layout index in view: unchanged when it already was, and otherwise just far enough |
| Buffer.CursorShapeStopIs | src/buffer.rs:407-455 | the lines `shape_until_cursor` lays out are those up to the cursor's line or up to the adjusted scroll, whichever is further |
| Buffer.ShapeThenScroll | src/buffer.rs:443-455 | shaping until the cursor and then until the scroll is laying out the longer of the two prefixes |
| Buffer.CursorIntoView | src/buffer.rs:410-442 | the lines up to the cursor's line are laid out and the scroll is adjusted to show the cursor |
| Buffer.CursorLines | src/buffer.rs:407-445 | `shape_until_cursor` on values: the lines up to `CursorShapeStop` are laid out and scroll ends at 0 |
| Buffer.CollectRuns | src/buffer.rs:596-598 | walking the iterator to its end collects exactly the visible runs |
| HitTest.FirstOnGlyph | src/buffer.rs:823-831 | the search finds the first glyph whose extent holds `x`, or reports that none does |
| HitTest.RunHitSpec | src/buffer.rs:816-876 | a point in a run's band gives a cursor on its line. On a glyph it gives the glyph's start with `After`, or its end with `Before` exactly in the glyph's later half. Past every glyph, and not before the start, it gives the last glyph's end with `Before` |
| HitTest.HitGlyph | src/buffer.rs:817-859 | the glyph loop of `hit` computes `RunGlyphHit` |
| HitTest.FirstInBand | src/buffer.rs:815 | the search finds the first run whose band holds `y`, or reports that none does |
| HitTest.FirstBelow | src/buffer.rs:811 | the search finds the first run that lies below `y`, or reports that none does |
| HitTest.EndCursor | src/buffer.rs:883-887 | the end cursor of a run is on its line: the right boundary of its last glyph (`Layout.GlyphEdges` says which), or index 0 with `Before` for a run without glyphs |
| HitTest.HitSpecCases | src/buffer.rs:800-895 | no visible runs give no cursor, and otherwise a cursor is given unless the point misses every band and is neither above a run nor below the last; a point in a band gives a cursor on that run's line; below the last run it gives the right boundary of the last glyph |
| HitTest.MissStep | src/buffer.rs:811-889 | one pass of the run loop, for a run whose band misses the point, updates the cursor as `MissAfter` says |
| HitTest.Hit | src/buffer.rs:800-895 | the run loop of `hit` computes `HitSpec` |
| HitTest.HitPointOf | src/buffer.rs:600-691 | the run loop of `hit_point` computes `HitPointSpec`: `hit`'s line and index, and whether a glyph was selected |
| HitTest.EntryAt | src/buffer.rs:699-700 | glyph `g` of run `ri` comes after the glyphs of the earlier runs |
| HitTest.EntriesPrefix | src/buffer.rs:699-700 | the glyphs of earlier runs are a prefix of those of later ones |
| HitTest.RunEntries | src/buffer.rs:699-700 | the glyphs of run `ri` follow those of the runs before it |
| HitTest.FirstColStop | src/buffer.rs:700-725 | the search stops only at a glyph of a later line, or at one of the line that starts past the column or holds it |
| HitTest.FirstColStopIs | src/buffer.rs:700-725 | the search stops at the first such glyph |
| HitTest.FirstColStopNone | src/buffer.rs:700-725 | the search stops nowhere when no glyph is such a glyph |
| HitTest.LineColFinds | src/buffer.rs:702-712 | on runs in line order whose glyphs start in increasing order, the position is that of the glyph holding the column |
| HitTest.LineColFoundAt | src/buffer.rs:712-718 | reaching the glyph that holds the column gives that glyph's point on its run's baseline |
| HitTest.LineColStopsBefore | src/buffer.rs:702-732 | stopping at a glyph that starts past the column, or at one of a later line, gives the right side of the glyph before it, on the baseline of the run before |
| HitTest.LineColPast | src/buffer.rs:740-748 | with no stop, the result is the right side of the last glyph, on the baseline of the last run |
| HitTest.LineColGlyph | src/buffer.rs:701-733 | one glyph of `line_col_position`'s loop either returns the specified position or keeps the search's invariant |
| HitTest.LineColRun | src/buffer.rs:700-738 | the glyph loop over one run either returns the specified position or passes the run with the invariant |
| HitTest.LineColPosition | src/buffer.rs:693-749 | the loops of `line_col_position` compute `LineColSpec` |
| HitTest.MaxLineLast | src/buffer.rs:763-766 | over runs whose line index never falls, `last_line` is the line of the last run seen |
| HitTest.RunOffsetIsLineStart | src/buffer.rs:763-766 | the corrected offset of every run is the start of its line in the text |
| HitTest.OffsetAsWrittenAfterEmptyLine | src/buffer.rs:765 | for the lines "ab", "" and "cd", the offset as written for "cd" is 6, while the line starts at 4 |
| HitTest.FirstPosStop | src/buffer.rs:767-785 | the search stops only at a glyph that starts past the index or holds it |
| HitTest.FirstPosStopIs | src/buffer.rs:767-785 | the search stops at the first such glyph |
| HitTest.FirstPosStopNone | src/buffer.rs:767-785 | the search stops nowhere when no glyph is such a glyph |
| HitTest.HitPositionFinds | src/buffer.rs:751-797 | over runs laid out from whole lines with their glyphs in text order, `hit_position(idx)` is the point of the glyph that holds index `idx` of the whole text (lines joined by line feeds) |
| HitTest.HitPositionAfterAll | src/buffer.rs:751-797 | over runs laid out from whole lines, an index at or past the end of every glyph gives the point right of the last glyph, or the origin for index 0 |
| HitTest.HitPositionAt | src/buffer.rs:767-785 | stopping at a glyph gives its point when it holds the index, and otherwise the point right of the glyph before |
| HitTest.HitPositionPast | src/buffer.rs:788-796 | with no stop, the result is the point right of the last glyph, or the origin for index 0 |
| HitTest.HitPositionRun | src/buffer.rs:767-785 | the glyph loop over one run either returns the specified position or passes the run with the invariant |
| HitTest.HitPositionOf | src/buffer.rs:751-797 | the loops of `hit_position` compute `HitPositionSpec` |

## Left out

- Shaping and wrapping of a line (`TextLayoutLine::shape`, `layout`, `reset_layout`) are not in these files. They are the `Shaper` parameter: two function values, from the text and attributes of a line (and width and wrap) to its shape and its layout lines.
- The font system, font matching (`Attrs::matches`), fallback, the swash cache and `draw` are I/O or foreign libraries, and are not modelled.
- `log` and `Instant` timing are not modelled.
- `size_hint`, `wrap`, `scroll`, `redraw` and `set_redraw` are plain accessors. The model's fields stand for them.
- `Metrics` is not modelled: `Metrics::scale` multiplies both sizes, and its `Display` formats them (src/buffer.rs:307-327). The buffer keeps only the line height it lays out with.
- `line_shape` and `line_layout` shape or lay out one line in place and return the result (src/buffer.rs:488-497). They are not modelled as members of their own; shaping and laying out a line record are `Layout.LaidOut` and the `Shaper` parameter.
- `size` returns `f64` sums of `f32` widths and heights; the model adds `real`s.
- The `Attrs` builder setters (`color`, `family`, `monospaced` and the rest) are record updates, `a.(color := c)` and so on, and have no members of their own.
- Pixel sizes are `real`, not `f32`: no rounding, NaN or infinity. `set_size` clamps with an exact maximum.
- `Attrs` and `AttrsOwned` equality compares the font size exactly; the source uses `nearly_eq`.
- The `RangeMap` coalescing of touching spans with equal values is not modelled. The storage may hold two such spans where the `RangeMap` holds one, but every `get_span` answers the same, and so does everything stated here.
- `AttrsList::spans` returns the storage itself rather than a vector of references.
- SpanMap.AttrsList.AddSpan: requires `lo <= hi`. This stands for the panic of the range map's `insert` on a range whose start lies after its end; the empty range `lo == hi` is handled and changes nothing.
- Text is a sequence of characters, and offsets count characters. The source counts UTF-8 bytes; for ASCII text the two agree. `ParseList.pos` too counts characters where the source counts bytes (for "é,serif" the source resumes at 3 and the model at 2). Because the tokenizer stops only at ASCII characters, both point at the same character and return the same families.
- `ParseList` lower-cases with ASCII case folding. The source uses Unicode `to_lowercase`, which agrees on every name that can become one of the five ASCII keywords.
- `hit` and `hit_point` treat each glyph as one grapheme cluster. The grapheme segmentation of a cluster (`grapheme_indices`) is not modelled.
- Buffer.TextLayout.Hit: requires that every glyph of every visible run lies within its run's text. This is stronger than what the source needs: it slices only the glyph under the point (src/buffer.rs:833), and panics only when that glyph lies outside the text.
- Buffer.TextLayout.HitPointOf: requires the same of every glyph; the source slices only the glyph under the point (src/buffer.rs:635).
- HitTest.Hit: requires the same `WellFormed` runs as Buffer.TextLayout.Hit, for the same reason, and is stronger than the source in the same way.
- HitTest.HitPointOf: requires the same `WellFormed` runs as Buffer.TextLayout.HitPointOf, and is stronger than the source in the same way.
- Buffer.TextLayout.LayoutCursorOf: requires the cursor's line to exist and to be laid out. These are the two panics of the source, the line index at src/buffer.rs:458 and the `expect` at src/buffer.rs:461.
- The hit-testing methods walk the runs collected from `layout_runs()` (`Buffer.CollectRuns`) rather than the lazy iterator. The iterator is proved to produce exactly those runs.
- HitTest.HitPositionOf: follows the corrected offset of the second Findings row (src/buffer.rs:765), not the source as written.
- Buffer.TextLayout.HitPositionOf: follows the same corrected offset, through HitTest.HitPositionOf.
- Buffer.TextLayout.SetText: the lines carry the corrected start index of the first Findings row (`TextLines.StartIndex`, the raw piece length plus 1), not the index as written at src/buffer.rs:572, which adds 1 more after a piece that ended in a carriage return.
- Buffer.BuildTextLines: builds the lines with the same corrected start index.
- Buffer.BuildLines: its loop advances the start index by the raw piece length plus 1, the corrected step, not `l + 1 + had_r` as at src/buffer.rs:572.
- Buffer.SetTextLines: the lines it shapes carry the same corrected start index.
- `hit_position` counts text offsets from the first visible run. When the buffer is scrolled, the offsets of the scrolled lines are not included. This matches the source.
- Integer widths:
  - `scroll` is an `i32`, and `scroll + i32::MAX` overflows for a positive scroll. `shape_until_scroll`, `shape_until_cursor`, `set_wrap` and `set_size` therefore require a scroll at or below 0 (where they shape), and they prove it ends at 0.
  - The layout-line counts of `shape_until` and `shape_until_cursor` are unbounded naturals. `shape_until_cursor` requires the cursor's layout index to be below `i32::MAX`.
  - `LayoutRunIter::new` requires no more than `i32::MAX` layout lines in the walked lines, since its counter is an `i32`.
- Buffer.TextLayout.ShapeUntil: returns the layout-line total as an unbounded natural; the source's `i32` total would overflow past `i32::MAX`.

## Findings

| source | as written | input that shows it | evidently intended | confidence | as-written member | corrected member |
|---|---|---|---|---|---|---|
| src/buffer.rs:572 | `start_index` grows by the raw piece length `l` (which already counts the `'\r'`), plus 1, plus 1 again when the piece ended in `'\r'` | text "a\r\nb": the second line "b" is at 3, but its start index as written is 4 | grow by `l + 1`, the raw piece and its line feed | high, not executed | TextLines.StartIndexAsWrittenOvershoots | TextLines.TextLinesSpec |
| src/buffer.rs:765 | `offset += last_end + 1`, where `last_end` is the end of the last glyph seen; after a line without glyphs that is a glyph of an earlier line | lines "ab", "" and "cd": "cd" starts at 4 in "ab\n\ncd", but the offset as written is 6 | add the length of the previous line plus its line feed, so every run's offset is its line's start | medium, not executed | HitTest.OffsetAsWrittenAfterEmptyLine | HitTest.RunOffsetIsLineStart |
