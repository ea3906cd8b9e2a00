/**
 * The visible layout lines of a buffer (src/buffer.rs, `LayoutRunIter`):
 * every layout line of every line record in order, less the first `scroll`
 * of them, as long as their heights fit into the viewport height.
 */
module LayoutRuns {
  import opened Wrappers
  import opened Layout

  /** A layout line together with the line record it belongs to. */
  datatype Slot = Slot(lineI: nat, text: string, rtl: bool, line: LayoutLine)

  /** A line record the iterator can walk: shaped and laid out. */
  predicate Ready(line: LineRecord) {
    line.shape.Some? && line.layout.Some?
  }

  /** The layout lines of line record `i`. */
  function LineSlots(line: LineRecord, i: nat): (r: seq<Slot>)
    requires Ready(line)
    ensures |r| == |line.layout.value|
    ensures forall k :: 0 <= k < |r| ==> r[k] == Slot(i, line.text, line.shape.value.rtl, line.layout.value[k])
  {
    seq(|line.layout.value|, k requires 0 <= k < |line.layout.value| =>
      Slot(i, line.text, line.shape.value.rtl, line.layout.value[k]))
  }

  /**
   * The layout lines of `lines[i..]`, line after line, up to the first line
   * record that has no shape or no layout.
   */
  function Slots(lines: seq<LineRecord>, i: nat): seq<Slot>
    requires i <= |lines|
    decreases |lines| - i
  {
    if i == |lines| || !Ready(lines[i]) then []
    else LineSlots(lines[i], i) + Slots(lines, i + 1)
  }

  /** The line records before `i` are all shaped and laid out. */
  ghost predicate AllReady(lines: seq<LineRecord>, i: nat)
    requires i <= |lines|
  {
    forall j :: 0 <= j < i ==> Ready(lines[j])
  }

  /** The number of layout lines of the line records before `i`. */
  function Walked(lines: seq<LineRecord>, i: nat): nat
    requires i <= |lines|
  {
    if i == 0 then 0
    else Walked(lines, i - 1) + (if lines[i - 1].layout.Some? then |lines[i - 1].layout.value| else 0)
  }

  /** Past laid-out line records, the layout lines still to come are those of the rest. */
  lemma {:induction false} WalkedSlots(lines: seq<LineRecord>, i: nat)
    requires i <= |lines| && AllReady(lines, i)
    ensures Walked(lines, i) <= |Slots(lines, 0)|
    ensures Slots(lines, 0)[Walked(lines, i)..] == Slots(lines, i)
  {
    if i > 0 {
      WalkedSlots(lines, i - 1);
      var w := Walked(lines, i - 1);
      var ls := LineSlots(lines[i - 1], i - 1);
      var all := Slots(lines, 0);
      assert all[w..] == ls + Slots(lines, i);
      assert all[w + |ls|..] == (ls + Slots(lines, i))[|ls|..];
    }
  }

  /** Layout line `k` of a laid-out line record `i` reached past laid-out ones. */
  lemma SlotAt(lines: seq<LineRecord>, i: nat, k: nat)
    requires i < |lines| && AllReady(lines, i) && Ready(lines[i]) && k < |lines[i].layout.value|
    ensures Walked(lines, i) + k < |Slots(lines, 0)|
    ensures Slots(lines, 0)[Walked(lines, i) + k] == Slot(i, lines[i].text, lines[i].shape.value.rtl, lines[i].layout.value[k])
  {
    WalkedSlots(lines, i);
    var all := Slots(lines, 0);
    var w := Walked(lines, i);
    assert all[w..] == LineSlots(lines[i], i) + Slots(lines, i + 1);
    assert all[w + k] == all[w..][k];
  }

  /** Reaching the end, or a line record that is not laid out, ends the layout lines. */
  lemma SlotsEnd(lines: seq<LineRecord>, i: nat)
    requires i <= |lines| && AllReady(lines, i) && (i == |lines| || !Ready(lines[i]))
    ensures Walked(lines, i) == |Slots(lines, 0)|
  {
    WalkedSlots(lines, i);
  }

  /** The number of layout lines of all laid-out line records, wherever they are. */
  function TotalLayoutLines(lines: seq<LineRecord>): nat {
    if lines == [] then 0
    else (if lines[0].layout.Some? then |lines[0].layout.value| else 0) + TotalLayoutLines(lines[1..])
  }

  /** The iterator only reaches laid-out lines, so it never sees more than all of them. */
  lemma {:induction false} SlotsWithinTotal(lines: seq<LineRecord>, i: nat)
    requires i <= |lines|
    ensures |Slots(lines, i)| <= TotalLayoutLines(lines[i..])
    decreases |lines| - i
  {
    if i < |lines| {
      assert lines[i..][1..] == lines[i + 1..];
      if Ready(lines[i]) {
        SlotsWithinTotal(lines, i + 1);
      } else {
        SlotsWithinTotal(lines, i + 1);
      }
    }
  }

  /** The height of a layout line. */
  function LineHeight(s: Slot): real {
    s.line.lineAscent + s.line.lineDescent
  }

  /** The summed height of the `n` layout lines of `slots` from `from` on. */
  function Bottom(slots: seq<Slot>, from: nat, n: nat): real
    requires from + n <= |slots|
  {
    if n == 0 then 0.0 else Bottom(slots, from, n - 1) + LineHeight(slots[from + n - 1])
  }

  /** Splitting off the first of the summed lines. */
  lemma {:induction false} BottomShift(slots: seq<Slot>, from: nat, n: nat)
    requires from + n + 1 <= |slots|
    ensures Bottom(slots, from, n + 1) == LineHeight(slots[from]) + Bottom(slots, from + 1, n)
  {
    if n > 0 {
      BottomShift(slots, from, n - 1);
    }
  }

  /**
   * The run for layout line `s` whose bottom is at `y`: the baseline is
   * placed so that the glyph box is centred in the line height.
   */
  function MakeRun(s: Slot, y: real): LayoutRun {
    var lineHeight := LineHeight(s);
    var offset := (lineHeight - (s.line.glyphAscent + s.line.glyphDescent)) / 2.0;
    LayoutRun(s.lineI, s.text, s.rtl, s.line.glyphs, y - offset - s.line.glyphDescent,
              s.line.w, lineHeight, s.line.glyphAscent, s.line.glyphDescent)
  }

  /**
   * The runs made of `slots` from `from` on when the previous run ended at
   * `y`: one per layout line, until one would end below `height`.
   */
  function RunsFrom(slots: seq<Slot>, from: nat, y: real, height: real): seq<LayoutRun>
    requires from <= |slots|
    decreases |slots| - from
  {
    if from == |slots| then []
    else
      var y' := y + LineHeight(slots[from]);
      if y' > height then [] else [MakeRun(slots[from], y')] + RunsFrom(slots, from + 1, y', height)
  }

  /** Layout line `from + c` ends above `height` when the lines before it start at `y`. */
  predicate Fits(slots: seq<Slot>, from: nat, y: real, height: real, c: nat)
    requires from + c < |slots|
  {
    y + Bottom(slots, from, c + 1) <= height
  }

  /**
   * Run `c` is layout line `from + c` with its bottom at the height of the
   * lines up to and including it, which fits; the runs stop at the end of the
   * slots or at the first line that does not fit.
   */
  lemma {:induction false} RunsFromShape(slots: seq<Slot>, from: nat, y: real, height: real)
    requires from <= |slots|
    ensures |RunsFrom(slots, from, y, height)| <= |slots| - from
    ensures forall c :: 0 <= c < |RunsFrom(slots, from, y, height)| ==>
              && Fits(slots, from, y, height, c)
              && RunsFrom(slots, from, y, height)[c] == MakeRun(slots[from + c], y + Bottom(slots, from, c + 1))
    ensures |RunsFrom(slots, from, y, height)| < |slots| - from ==>
              y + Bottom(slots, from, |RunsFrom(slots, from, y, height)| + 1) > height
    decreases |slots| - from
  {
    if from < |slots| {
      var y' := y + LineHeight(slots[from]);
      assert Bottom(slots, from, 1) == LineHeight(slots[from]);
      if y' <= height {
        RunsFromShape(slots, from + 1, y', height);
        var rest := RunsFrom(slots, from + 1, y', height);
        var runs := RunsFrom(slots, from, y, height);
        assert runs == [MakeRun(slots[from], y')] + rest;
        if |rest| + 1 < |slots| - from {
          BottomShift(slots, from, |rest| + 1);
        }
        forall c | 0 <= c < |runs|
          ensures Fits(slots, from, y, height, c)
          ensures runs[c] == MakeRun(slots[from + c], y + Bottom(slots, from, c + 1))
        {
          if c > 0 {
            BottomShift(slots, from, c);
            assert runs[c] == rest[c - 1];
          }
        }
      }
    }
  }

  /** The number of layout lines the buffer scrolls past. */
  function Skip(scroll: int): nat {
    if scroll < 0 then 0 else scroll
  }

  function Clamp(x: nat, n: nat): nat {
    if x < n then x else n
  }

  /** The first visible layout line: the first one not scrolled past. */
  function FirstVisible(lines: seq<LineRecord>, scroll: int): nat {
    Clamp(Skip(scroll), |Slots(lines, 0)|)
  }

  /** The runs `layout_runs()` yields for these line records, scroll and height. */
  function VisibleRuns(lines: seq<LineRecord>, scroll: int, height: real): seq<LayoutRun> {
    RunsFrom(Slots(lines, 0), FirstVisible(lines, scroll), 0.0, height)
  }

  /**
   * The iterator never yields more runs than there are layout lines past the
   * scrolled ones, and so never more than `remaining_len` starts at.
   */
  lemma VisibleRunsBound(lines: seq<LineRecord>, scroll: int, height: real)
    ensures VisibleRuns(lines, scroll, height) == [] ||
            |VisibleRuns(lines, scroll, height)| + Skip(scroll) <= TotalLayoutLines(lines)
    ensures |Slots(lines, 0)| <= I32Max ==> |VisibleRuns(lines, scroll, height)| <= InitialLen(lines, scroll)
  {
    var all := Slots(lines, 0);
    RunsFromShape(all, FirstVisible(lines, scroll), 0.0, height);
    assert lines[0..] == lines;
    SlotsWithinTotal(lines, 0);
  }

  /**
   * `remaining_len` at the start: the number of layout lines less the scrolled
   * ones, at most `i32::MAX`.
   */
  function InitialLen(lines: seq<LineRecord>, scroll: int): nat {
    var total := TotalLayoutLines(lines);
    var top := if total < Skip(scroll) then 0 else total - Skip(scroll);
    if top > I32Max then I32Max else top
  }

  /** Where the next visible run starts among all layout lines: past the walked and the scrolled ones. */
  function Front(pos: nat, scroll: int, n: nat): nat {
    Clamp(if pos < Skip(scroll) then Skip(scroll) else pos, n)
  }

  /**
   * The state of an iterator over `lines` that has walked `pos` layout lines
   * (standing at layout line `k` of line record `i`), yielded `count` runs,
   * and whose last run ended at `y`.  Until it has returned `None`, the
   * runs yielded are the first `count` visible ones; however far it goes,
   * `remaining` covers every layout line it may still yield.
   */
  ghost predicate Inv(lines: seq<LineRecord>, scroll: int, height: real,
                      i: nat, k: nat, remaining: nat, y: real, pos: nat, count: nat, done: bool)
  {
    var all := Slots(lines, 0);
    && |all| <= I32Max
    && i <= |lines|
    && AllReady(lines, i)
    && (i < |lines| && Ready(lines[i]) ==> k <= |lines[i].layout.value|)
    && pos == Walked(lines, i) + k
    && pos <= |all|
    && count + remaining == InitialLen(lines, scroll)
    && remaining + Front(pos, scroll, |all|) >= |all|
    && (!done ==>
          && Front(pos, scroll, |all|) == FirstVisible(lines, scroll) + count
          && count <= |VisibleRuns(lines, scroll, height)|
          && y == Bottom(all, FirstVisible(lines, scroll), count))
  }

  /** The state `LayoutRunIter::new` starts in. */
  lemma InitInv(lines: seq<LineRecord>, scroll: int, height: real)
    requires |Slots(lines, 0)| <= I32Max
    ensures Inv(lines, scroll, height, 0, 0, InitialLen(lines, scroll), 0.0, 0, 0, false)
  {
    SlotsWithinTotal(lines, 0);
    assert lines[0..] == lines;
  }

  /** Walking past a scrolled-away layout line changes nothing the caller sees. */
  lemma ScrolledStep(lines: seq<LineRecord>, scroll: int, height: real,
                     i: nat, k: nat, remaining: nat, y: real, pos: nat, count: nat, done: bool)
    requires Inv(lines, scroll, height, i, k, remaining, y, pos, count, done)
    requires i < |lines| && Ready(lines[i]) && k < |lines[i].layout.value| && pos < scroll
    ensures Inv(lines, scroll, height, i, k + 1, remaining, y, pos + 1, count, done)
  {
    SlotAt(lines, i, k);
  }

  /**
   * The visible runs after the first `count`, when the lines of those runs
   * end at `y`: the next one is made of the next layout line, ending at
   * `y'`, unless that line does not fit, when there is none.
   */
  lemma NextRun(slots: seq<Slot>, first: nat, height: real, count: nat, y: real, y': real)
    requires first + count < |slots|
    requires count <= |RunsFrom(slots, first, 0.0, height)|
    requires y == Bottom(slots, first, count) && y' == y + LineHeight(slots[first + count])
    ensures y' > height ==> count == |RunsFrom(slots, first, 0.0, height)|
    ensures y' <= height ==>
              && count < |RunsFrom(slots, first, 0.0, height)|
              && RunsFrom(slots, first, 0.0, height)[count] == MakeRun(slots[first + count], y')
  {
    RunsFromShape(slots, first, 0.0, height);
    assert y' == 0.0 + Bottom(slots, first, count + 1);
    if count < |RunsFrom(slots, first, 0.0, height)| {
      assert Fits(slots, first, 0.0, height, count);
    }
  }

  /**
   * Walking a layout line below the scroll that ends below the viewport, at
   * `y'`: the visible runs are over.
   */
  lemma BelowStep(lines: seq<LineRecord>, scroll: int, height: real,
                  i: nat, k: nat, remaining: nat, y: real, pos: nat, count: nat, done: bool, y': real)
    requires Inv(lines, scroll, height, i, k, remaining, y, pos, count, done)
    requires i < |lines| && Ready(lines[i]) && k < |lines[i].layout.value| && !(pos < scroll)
    requires y' == y + LineHeight(Slot(i, lines[i].text, lines[i].shape.value.rtl, lines[i].layout.value[k]))
    requires y' > height
    ensures Inv(lines, scroll, height, i, k + 1, remaining, y', pos + 1, count, true)
    ensures !done ==> count == |VisibleRuns(lines, scroll, height)|
  {
    SlotAt(lines, i, k);
    if !done {
      NextRun(Slots(lines, 0), FirstVisible(lines, scroll), height, count, y, y');
    }
  }

  /**
   * Walking a layout line below the scroll that fits into the viewport,
   * ending at `y'`: it makes the next visible run.
   */
  lemma RunStep(lines: seq<LineRecord>, scroll: int, height: real,
                i: nat, k: nat, remaining: nat, y: real, pos: nat, count: nat, done: bool, y': real)
    requires Inv(lines, scroll, height, i, k, remaining, y, pos, count, done)
    requires i < |lines| && Ready(lines[i]) && k < |lines[i].layout.value| && !(pos < scroll)
    requires y' == y + LineHeight(Slot(i, lines[i].text, lines[i].shape.value.rtl, lines[i].layout.value[k]))
    requires y' <= height
    ensures remaining >= 1
    ensures Inv(lines, scroll, height, i, k + 1, remaining - 1, y', pos + 1, count + 1, done)
    ensures !done ==>
              && count < |VisibleRuns(lines, scroll, height)|
              && VisibleRuns(lines, scroll, height)[count]
                 == MakeRun(Slot(i, lines[i].text, lines[i].shape.value.rtl, lines[i].layout.value[k]), y')
  {
    SlotAt(lines, i, k);
    if !done {
      NextRun(Slots(lines, 0), FirstVisible(lines, scroll), height, count, y, y');
    }
  }

  /** Walking past the last layout line of a line record. */
  lemma LineStep(lines: seq<LineRecord>, scroll: int, height: real,
                 i: nat, k: nat, remaining: nat, y: real, pos: nat, count: nat, done: bool)
    requires Inv(lines, scroll, height, i, k, remaining, y, pos, count, done)
    requires i < |lines| && Ready(lines[i]) && k >= |lines[i].layout.value|
    ensures Inv(lines, scroll, height, i + 1, 0, remaining, y, pos, count, done)
  {
  }

  /**
   * At the end of the line records, or at a line record without a shape or a
   * layout, every layout line has been walked and the visible runs are over.
   */
  lemma EndStep(lines: seq<LineRecord>, scroll: int, height: real,
                i: nat, k: nat, remaining: nat, y: real, pos: nat, count: nat, done: bool)
    requires Inv(lines, scroll, height, i, k, remaining, y, pos, count, done)
    requires i == |lines| || !Ready(lines[i])
    ensures Inv(lines, scroll, height, i, k, remaining, y, pos, count, true)
    ensures !done ==> count == |VisibleRuns(lines, scroll, height)|
  {
    SlotsEnd(lines, i);
    RunsFromShape(Slots(lines, 0), FirstVisible(lines, scroll), 0.0, height);
  }

  /**
   * The iterator over the visible runs (`LayoutRunIter`).  It borrows the
   * buffer immutably, so the line records, scroll and height it reads are
   * fixed for its lifetime.
   */
  class LayoutRunIter {
    const lines: seq<LineRecord>
    const scroll: int
    const height: real
    var lineI: nat
    var layoutI: nat
    var remainingLen: nat
    var lineY: real
    var totalLayout: nat
    /** How many runs have been yielded, and whether a `None` has been returned. */
    ghost var count: nat
    ghost var done: bool

    ghost predicate Valid()
      reads this
    {
      Inv(lines, scroll, height, lineI, layoutI, remainingLen, lineY, totalLayout, count, done)
    }

    /** `LayoutRunIter::new`. */
    constructor (lines: seq<LineRecord>, scroll: int, height: real)
      requires |Slots(lines, 0)| <= I32Max
      ensures Valid() && !done && count == 0
      ensures this.lines == lines && this.scroll == scroll && this.height == height
      ensures remainingLen == InitialLen(lines, scroll)
    {
      this.lines := lines;
      this.scroll := scroll;
      this.height := height;
      lineI := 0;
      layoutI := 0;
      remainingLen := InitialLen(lines, scroll);
      lineY := 0.0;
      totalLayout := 0;
      count := 0;
      done := false;
      new;
      InitInv(lines, scroll, height);
    }

    /**
     * `LayoutRunIter::next`: until a `None` has been returned, the next of
     * the visible runs.  Every run yielded uses up one of `remaining_len`.
     */
    method Next() returns (r: Option<LayoutRun>)
      requires Valid()
      modifies this
      ensures Valid()
      ensures !old(done) ==>
                r == if old(count) < |VisibleRuns(lines, scroll, height)|
                     then Some(VisibleRuns(lines, scroll, height)[old(count)]) else None
      ensures count == old(count) + (if r.Some? then 1 else 0)
      ensures remainingLen == old(remainingLen) - (if r.Some? then 1 else 0)
      ensures done == (old(done) || r.None?)
    {
      var i, k, pos, y, rem, res, c, d :=
        Walk(lines, scroll, height, lineI, layoutI, totalLayout, lineY, remainingLen, count, done);
      lineI, layoutI, totalLayout, lineY, remainingLen := i, k, pos, y, rem;
      count, done := c, d;
      r := res;
    }
  }


  /**
   * The walk of `LayoutRunIter::next` from line record `i0`, layout line
   * `k0`, with `pos0` layout lines walked: line record after line record to
   * the next visible run, or to the end of the visible runs.
   */
  method Walk(lines: seq<LineRecord>, scroll: int, height: real,
              i0: nat, k0: nat, pos0: nat, y0: real, rem0: nat, ghost cnt0: nat, ghost dn0: bool)
    returns (i: nat, k: nat, pos: nat, y: real, rem: nat, r: Option<LayoutRun>, ghost cnt: nat, ghost dn: bool)
    requires Inv(lines, scroll, height, i0, k0, rem0, y0, pos0, cnt0, dn0)
    ensures Inv(lines, scroll, height, i, k, rem, y, pos, cnt, dn)
    ensures !dn0 ==>
              r == if cnt0 < |VisibleRuns(lines, scroll, height)|
                   then Some(VisibleRuns(lines, scroll, height)[cnt0]) else None
    ensures cnt == cnt0 + (if r.Some? then 1 else 0)
    ensures rem == rem0 - (if r.Some? then 1 else 0)
    ensures dn == (dn0 || r.None?)
  {
    i, k, pos, y, rem := i0, k0, pos0, y0, rem0;
    cnt, dn := cnt0, dn0;
    while i < |lines|
      invariant Inv(lines, scroll, height, i, k, rem, y, pos, cnt, dn)
      invariant cnt == cnt0 && dn == dn0 && rem == rem0
      decreases |lines| - i
    {
      if lines[i].shape.None? || lines[i].layout.None? {
        break;
      }
      k, pos := SkipScrolled(lines, scroll, height, i, k, pos, y, rem, cnt, dn);
      if k < |lines[i].layout.value| {
        y, rem, r, cnt, dn := TakeLine(lines, scroll, height, i, k, pos, y, rem, cnt, dn);
        k, pos := k + 1, pos + 1;
        return;
      }
      LineStep(lines, scroll, height, i, k, rem, y, pos, cnt, dn);
      i, k := i + 1, 0;
    }
    EndStep(lines, scroll, height, i, k, rem, y, pos, cnt, dn);
    dn := true;
    r := None;
  }

  /**
   * The inner loop of `LayoutRunIter::next` over the layout lines of line
   * record `i` from `k0` on, while they are scrolled out of view: it stops at
   * the first layout line that is not, or past the record's last one.
   */
  method SkipScrolled(lines: seq<LineRecord>, scroll: int, height: real,
                      i: nat, k0: nat, pos0: nat, ghost y: real, ghost rem: nat, ghost cnt: nat, ghost dn: bool)
    returns (k: nat, pos: nat)
    requires Inv(lines, scroll, height, i, k0, rem, y, pos0, cnt, dn)
    requires i < |lines| && Ready(lines[i])
    ensures Inv(lines, scroll, height, i, k, rem, y, pos, cnt, dn)
    ensures k >= |lines[i].layout.value| || pos >= scroll
  {
    k, pos := k0, pos0;
    while k < |lines[i].layout.value| && pos < scroll
      invariant Inv(lines, scroll, height, i, k, rem, y, pos, cnt, dn)
      decreases |lines[i].layout.value| - k
    {
      ScrolledStep(lines, scroll, height, i, k, rem, y, pos, cnt, dn);
      k, pos := k + 1, pos + 1;
    }
  }

  /**
   * The step of `LayoutRunIter::next` at a layout line in view: it moves the
   * bottom of the runs down by the line's height, and either makes the next
   * run of it or, when it does not fit the buffer's height, ends the runs.
   */
  method TakeLine(lines: seq<LineRecord>, scroll: int, height: real,
                  i: nat, k: nat, pos: nat, y0: real, rem0: nat, ghost cnt0: nat, ghost dn0: bool)
    returns (y: real, rem: nat, r: Option<LayoutRun>, ghost cnt: nat, ghost dn: bool)
    requires Inv(lines, scroll, height, i, k, rem0, y0, pos, cnt0, dn0)
    requires i < |lines| && Ready(lines[i]) && k < |lines[i].layout.value| && pos >= scroll
    ensures Inv(lines, scroll, height, i, k + 1, rem, y, pos + 1, cnt, dn)
    ensures !dn0 ==>
              r == if cnt0 < |VisibleRuns(lines, scroll, height)|
                   then Some(VisibleRuns(lines, scroll, height)[cnt0]) else None
    ensures cnt == cnt0 + (if r.Some? then 1 else 0)
    ensures rem == rem0 - (if r.Some? then 1 else 0)
    ensures dn == (dn0 || r.None?)
  {
    var line := lines[i];
    var layoutLine := line.layout.value[k];
    var lineHeight := layoutLine.lineAscent + layoutLine.lineDescent;
    y := y0 + lineHeight;
    if y > height {
      BelowStep(lines, scroll, height, i, k, rem0, y0, pos, cnt0, dn0, y);
      rem, r, cnt, dn := rem0, None, cnt0, true;
      return;
    }
    RunStep(lines, scroll, height, i, k, rem0, y0, pos, cnt0, dn0, y);
    var offset := (lineHeight - (layoutLine.glyphAscent + layoutLine.glyphDescent)) / 2.0;
    rem, cnt, dn := rem0 - 1, cnt0 + 1, dn0;
    r := Some(LayoutRun(i, line.text, line.shape.value.rtl, layoutLine.glyphs,
                        y - offset - layoutLine.glyphDescent, layoutLine.w, lineHeight,
                        layoutLine.glyphAscent, layoutLine.glyphDescent));
    assert r.value == MakeRun(Slot(i, line.text, line.shape.value.rtl, layoutLine), y);
  }

  /** The widest line among `runs`, or zero: the width `size` folds the runs into. */
  function MaxLineW(runs: seq<LayoutRun>): real {
    if runs == [] then 0.0
    else
      var m := MaxLineW(runs[..|runs| - 1]);
      if runs[|runs| - 1].lineW > m then runs[|runs| - 1].lineW else m
  }

  /** The line heights of `runs` summed: the height `size` folds the runs into. */
  function SumLineHeight(runs: seq<LayoutRun>): real {
    if runs == [] then 0.0 else SumLineHeight(runs[..|runs| - 1]) + runs[|runs| - 1].lineHeight
  }

  /**
   * The folded width is not negative, no run is wider, and unless it is zero
   * it is the width of one of the runs.
   */
  lemma {:induction false} MaxLineWIsMax(runs: seq<LayoutRun>)
    ensures MaxLineW(runs) >= 0.0
    ensures forall i :: 0 <= i < |runs| ==> runs[i].lineW <= MaxLineW(runs)
    ensures MaxLineW(runs) == 0.0 || exists i :: 0 <= i < |runs| && runs[i].lineW == MaxLineW(runs)
  {
    if runs != [] {
      var init := runs[..|runs| - 1];
      MaxLineWIsMax(init);
      assert forall i :: 0 <= i < |init| ==> runs[i] == init[i];
    }
  }

  /** The folded height of runs one after the other is the sum of their heights. */
  lemma {:induction false} SumLineHeightAppend(a: seq<LayoutRun>, b: seq<LayoutRun>)
    ensures SumLineHeight(a + b) == SumLineHeight(a) + SumLineHeight(b)
  {
    if b != [] {
      assert (a + b)[..|a + b| - 1] == a + b[..|b| - 1];
      SumLineHeightAppend(a, b[..|b| - 1]);
    } else {
      assert a + b == a;
    }
  }

  /** The fold of `size` over the runs: the widest line and the summed heights. */
  method RunsSize(runs: seq<LayoutRun>) returns (width: real, height: real)
    ensures width == MaxLineW(runs) && height == SumLineHeight(runs)
  {
    width, height := 0.0, 0.0;
    for i := 0 to |runs|
      invariant width == MaxLineW(runs[..i]) && height == SumLineHeight(runs[..i])
    {
      assert runs[..i + 1][..i] == runs[..i];
      if runs[i].lineW > width {
        width := runs[i].lineW;
      }
      height := height + runs[i].lineHeight;
    }
    assert runs[..|runs|] == runs;
  }
}
