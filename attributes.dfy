/**
 * Text attributes (src/attrs.rs): font families, the borrowed `Attrs` value,
 * its owned counterpart `AttrsOwned`, and shaping compatibility.
 *
 * Pixel values (font size, line height) are reals; equality of attributes is
 * exact equality of those reals.
 */
module Attributes {

  newtype u8 = x: int | 0 <= x < 0x100
  newtype u16 = x: int | 0 <= x < 0x1_0000

  /** A family as the font database borrows it (`fontdb::Family`). */
  datatype Family = Name(name: string) | Serif | SansSerif | Cursive | Fantasy | Monospace

  /** An owned version of `Family`. */
  datatype FamilyOwned = Name(name: string) | Serif | SansSerif | Cursive | Fantasy | Monospace
  {
    /** `FamilyOwned::as_family`: borrow back the family this value owns. */
    function AsFamily(): (f: Family)
      ensures FamilyOwnedNew(f) == this
    {
      match this
      case Name(n) => Family.Name(n)
      case Serif => Family.Serif
      case SansSerif => Family.SansSerif
      case Cursive => Family.Cursive
      case Fantasy => Family.Fantasy
      case Monospace => Family.Monospace
    }
  }

  /** `FamilyOwned::new`: take ownership of a borrowed family. */
  function FamilyOwnedNew(f: Family): (o: FamilyOwned)
  {
    match f
    case Name(n) => FamilyOwned.Name(n)
    case Serif => FamilyOwned.Serif
    case SansSerif => FamilyOwned.SansSerif
    case Cursive => FamilyOwned.Cursive
    case Fantasy => FamilyOwned.Fantasy
    case Monospace => FamilyOwned.Monospace
  }

  /** Converting a borrowed family to an owned one and back gives the same family. */
  lemma FamilyRoundTrip(f: Family)
    ensures FamilyOwnedNew(f).AsFamily() == f
  {
  }

  datatype Color = Color(r: u8, g: u8, b: u8, a: u8)

  const Black := Color(0, 0, 0, 0xff)

  datatype Stretch =
    | UltraCondensed | ExtraCondensed | Condensed | SemiCondensed | Normal
    | SemiExpanded | Expanded | ExtraExpanded | UltraExpanded

  datatype Style = Normal | Italic | Oblique

  datatype Weight = Weight(value: u16)

  const WeightNormal := Weight(400)

  datatype LineHeightValue = Normal(factor: real) | Px(px: real)

  /** The shaping-relevant part of a set of attributes (`FontAttrs`). */
  datatype FontAttrs = FontAttrs(
    family: seq<FamilyOwned>,
    monospaced: bool,
    stretch: Stretch,
    style: Style,
    weight: Weight)

  /** Text attributes (`Attrs`). */
  datatype Attrs = Attrs(
    color: Color,
    family: seq<FamilyOwned>,
    monospaced: bool,
    stretch: Stretch,
    style: Style,
    weight: Weight,
    fontSize: real,
    lineHeight: LineHeightValue,
    metadata: nat)
  {
    /** The fields that shaping depends on. */
    function Font(): FontAttrs {
      FontAttrs(family, monospaced, stretch, style, weight)
    }

    /**
     * `Attrs::compatible`: the two sets of attributes can be shaped as one run.
     * Exactly when they differ at most in color, metadata, font size and line
     * height.
     */
    predicate Compatible(other: Attrs)
      ensures Compatible(other) <==>
              other == this.(color := other.color, metadata := other.metadata,
                             fontSize := other.fontSize, lineHeight := other.lineHeight)
    {
      && family == other.family
      && monospaced == other.monospaced
      && stretch == other.stretch
      && style == other.style
      && weight == other.weight
    }
  }

  /** `Attrs::new`: a regular sans-serif font at 16px. */
  function DefaultAttrs(): Attrs {
    Attrs(Black, [FamilyOwned.SansSerif], false, Stretch.Normal, Style.Normal,
          WeightNormal, 16.0, LineHeightValue.Normal(1.0), 0)
  }

  /** Compatibility does not look at color, metadata, font size or line height. */
  lemma CompatibleIgnoresAppearance(a: Attrs, b: Attrs, color: Color, metadata: nat,
                                    fontSize: real, lineHeight: LineHeightValue)
    ensures a.Compatible(b) ==
            a.(color := color, metadata := metadata, fontSize := fontSize,
               lineHeight := lineHeight).Compatible(b)
  {
  }

  /** Compatible attributes ask the font system for the same font. */
  lemma CompatibleSameFont(a: Attrs, b: Attrs)
    ensures a.Compatible(b) <==> a.Font() == b.Font()
  {
  }

  /** Compatibility is an equivalence relation. */
  lemma CompatibleEquivalence(a: Attrs, b: Attrs, c: Attrs)
    ensures a.Compatible(a)
    ensures a.Compatible(b) == b.Compatible(a)
    ensures a.Compatible(b) && b.Compatible(c) ==> a.Compatible(c)
  {
  }

  /** An owned version of `Attrs` (`AttrsOwned`). */
  datatype AttrsOwned = AttrsOwned(
    color: Color,
    familyOwned: seq<FamilyOwned>,
    monospaced: bool,
    stretch: Stretch,
    style: Style,
    weight: Weight,
    metadata: nat,
    fontSize: real,
    lineHeight: LineHeightValue)
  {
    /** `AttrsOwned::as_attrs`: borrow the attributes back. */
    function AsAttrs(): (a: Attrs)
      ensures AttrsOwnedNew(a) == this
    {
      Attrs(color, familyOwned, monospaced, stretch, style, weight, fontSize, lineHeight, metadata)
    }
  }

  /** `AttrsOwned::new`: take ownership of a set of attributes. */
  function AttrsOwnedNew(a: Attrs): (o: AttrsOwned)
  {
    AttrsOwned(a.color, a.family, a.monospaced, a.stretch, a.style, a.weight,
               a.metadata, a.fontSize, a.lineHeight)
  }

  /** Owning a set of attributes and borrowing it back gives the same attributes. */
  lemma AttrsRoundTrip(a: Attrs)
    ensures AttrsOwnedNew(a).AsAttrs() == a
  {
  }
}
