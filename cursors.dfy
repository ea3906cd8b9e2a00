/**
 * Logical cursor positions (src/buffer.rs): `Cursor`, its `Affinity` and the
 * derived ordering, and the visual position `LayoutCursor`.
 */
module Cursors {

  /**
   * Which run a cursor sitting on a run boundary belongs to: the one before
   * the boundary or the one after it.  `Before` is the default.
   */
  datatype Affinity = Before | After
  {
    /** `Affinity::before`. */
    predicate IsBefore() {
      this == Before
    }

    /** `Affinity::after`. */
    predicate IsAfter() {
      this == After
    }
  }

  /** `Affinity::from_before`. */
  function FromBefore(before: bool): (a: Affinity)
    ensures a.IsBefore() == before
  {
    if before then Before else After
  }

  /** `Affinity::from_after`. */
  function FromAfter(after: bool): (a: Affinity)
    ensures a.IsAfter() == after
  {
    if after then After else Before
  }

  /** Every affinity is exactly one of the two, and both conversions recover it. */
  lemma AffinityRoundTrip(a: Affinity)
    ensures a.IsBefore() != a.IsAfter()
    ensures FromBefore(a.IsBefore()) == a
    ensures FromAfter(a.IsAfter()) == a
  {
  }

  /** The derived ordering of `Affinity`: declaration order, `Before < After`. */
  predicate AffinityLess(a: Affinity, b: Affinity) {
    a == Before && b == After
  }

  /** A logical position: a line, a byte index in it, and an affinity. */
  datatype Cursor = Cursor(line: nat, index: nat, affinity: Affinity)

  /** `Cursor::new`: a cursor with the default affinity. */
  function CursorNew(line: nat, index: nat): (c: Cursor)
    ensures c.line == line && c.index == index && c.affinity.IsBefore()
  {
    Cursor(line, index, Before)
  }

  /** The derived ordering of `Cursor`: by line, then index, then affinity. */
  predicate Less(a: Cursor, b: Cursor) {
    || a.line < b.line
    || (a.line == b.line && a.index < b.index)
    || (a.line == b.line && a.index == b.index && AffinityLess(a.affinity, b.affinity))
  }

  predicate LessEq(a: Cursor, b: Cursor) {
    Less(a, b) || a == b
  }

  /** The position of a cursor as a number, for comparison with `Less`. */
  function Key(c: Cursor, width: nat): nat
    requires c.index < width
  {
    (c.line * width + c.index) * 2 + if c.affinity == Before then 0 else 1
  }

  /**
   * The cursor ordering is the numeric ordering of positions laid out line
   * after line, so it is a strict total order.
   */
  lemma LessIsNumeric(a: Cursor, b: Cursor, width: nat)
    requires a.index < width && b.index < width
    ensures Less(a, b) <==> Key(a, width) < Key(b, width)
    ensures a == b <==> Key(a, width) == Key(b, width)
  {
    var pa := a.line * width + a.index;
    var pb := b.line * width + b.index;
    if a.line < b.line {
      RowsApart(a.line, b.line, width);
      assert pa < pb;
    } else if b.line < a.line {
      RowsApart(b.line, a.line, width);
      assert pb < pa;
    } else {
      assert pa - pb == a.index - b.index;
    }
  }

  /** A whole row of `width` positions separates two different rows. */
  lemma {:induction false} RowsApart(x: nat, y: nat, width: nat)
    requires x < y
    ensures x * width + width <= y * width
    decreases y - x
  {
    if x + 1 < y {
      RowsApart(x + 1, y, width);
    }
  }

  /** `Less` is irreflexive, transitive and total. */
  lemma LessTotalOrder(a: Cursor, b: Cursor, c: Cursor)
    ensures !Less(a, a)
    ensures Less(a, b) && Less(b, c) ==> Less(a, c)
    ensures Less(a, b) || a == b || Less(b, a)
    ensures !(Less(a, b) && Less(b, a))
  {
  }

  /** The glyph slot a cursor maps to: a line, a layout line in it, a glyph in that. */
  datatype LayoutCursor = LayoutCursor(line: nat, layout: nat, glyph: nat)
}
