/**
 * The per-line attribute span map (`AttrsList` in src/attrs.rs): a default
 * set of attributes plus half-open byte ranges, each mapped to attributes.
 *
 * The ranges live in a range map (the `rangemap` crate).  Its storage is
 * modelled as a sequence of spans with non-empty ranges in increasing order
 * that never overlap; its `insert` and `remove` are the functions `Insert`
 * and `Remove` below, built from clipping the stored spans below or above an
 * offset.
 */
module SpanMap {
  import opened Wrappers
  import opened Attributes

  /** A stored range `start..end` and the attributes it maps to. */
  datatype Span = Span(start: nat, end: nat, attrs: AttrsOwned)

  predicate Covers(sp: Span, x: nat) {
    sp.start <= x < sp.end
  }

  /**
   * The range map's storage invariant: every range is non-empty and each one
   * starts at or after the end of the one before it.
   */
  predicate SpansValid(s: seq<Span>) {
    NonEmptyRanges(s) && SortedDisjoint(s)
  }

  /** Any two stored ranges, in order, do not overlap. */
  predicate SortedDisjoint(s: seq<Span>) {
    forall i, j :: 0 <= i < j < |s| ==> Before(s, i, j)
  }

  /** The `i`-th stored range ends by the start of the `j`-th. */
  predicate Before(s: seq<Span>, i: nat, j: nat)
    requires i < |s| && j < |s|
  {
    s[i].end <= s[j].start
  }

  predicate AllEndBy(s: seq<Span>, k: nat) {
    forall i :: 0 <= i < |s| ==> s[i].end <= k
  }

  predicate AllStartFrom(s: seq<Span>, k: nat) {
    forall i :: 0 <= i < |s| ==> s[i].start >= k
  }

  predicate AllEndAfter(s: seq<Span>, k: nat) {
    forall i :: 0 <= i < |s| ==> s[i].end > k
  }

  predicate NonEmptyRanges(s: seq<Span>) {
    forall i :: 0 <= i < |s| ==> s[i].start < s[i].end
  }

  /** Any slice of valid storage is valid. */
  lemma ValidSlice(s: seq<Span>, a: nat, b: nat)
    requires SpansValid(s) && a <= b <= |s|
    ensures SpansValid(s[a..b])
  {
    forall i, j | 0 <= i < j < b - a ensures Before(s[a..b], i, j) {
      assert Before(s, a + i, a + j);
    }
  }

  /** `RangeMap::get_key_value`: the stored span covering `x`, if any. */
  function FindSpan(s: seq<Span>, x: nat): (r: Option<Span>)
    ensures r.Some? ==> Covers(r.value, x)
  {
    if s == [] then None
    else if Covers(s[0], x) then Some(s[0])
    else FindSpan(s[1..], x)
  }

  /**
   * In valid storage the span found is the one covering `x`, and nothing is
   * found exactly when no span covers `x`.
   */
  lemma {:induction false} FindSpanCovering(s: seq<Span>, x: nat)
    requires SpansValid(s)
    ensures FindSpan(s, x).None? <==> forall i :: 0 <= i < |s| ==> !Covers(s[i], x)
    ensures forall i :: 0 <= i < |s| && Covers(s[i], x) ==> FindSpan(s, x) == Some(s[i])
  {
    if s != [] {
      SuffixFacts(s, 0);
      FindSpanCovering(s[1..], x);
      assert forall i :: 1 <= i < |s| ==> s[i] == s[1..][i - 1];
    }
  }

  /** `RangeMap::get`: the attributes of the span covering `x`, if any. */
  function Lookup(s: seq<Span>, x: nat): Option<AttrsOwned> {
    match FindSpan(s, x)
    case Some(sp) => Some(sp.attrs)
    case None => None
  }

  lemma {:induction false} FindSpanConcat(a: seq<Span>, b: seq<Span>, x: nat)
    ensures FindSpan(a + b, x) == if FindSpan(a, x).Some? then FindSpan(a, x) else FindSpan(b, x)
  {
    if a != [] {
      assert (a + b)[1..] == a[1..] + b;
      FindSpanConcat(a[1..], b, x);
    } else {
      assert a + b == b;
    }
  }

  lemma LookupConcat(a: seq<Span>, b: seq<Span>, x: nat)
    ensures Lookup(a + b, x) == if Lookup(a, x).Some? then Lookup(a, x) else Lookup(b, x)
  {
    FindSpanConcat(a, b, x);
  }

  lemma ValidConcat(a: seq<Span>, b: seq<Span>, k: nat)
    requires SpansValid(a) && SpansValid(b) && AllEndBy(a, k) && AllStartFrom(b, k)
    ensures SpansValid(a + b)
  {
    forall i, j | 0 <= i < j < |a + b| ensures Before(a + b, i, j) {
      if j < |a| {
        assert Before(a, i, j);
      } else if |a| <= i {
        assert Before(b, i - |a|, j - |a|);
      }
    }
  }

  /** The stored spans clipped to the offsets below `k`. */
  function Below(s: seq<Span>, k: nat): seq<Span> {
    if s == [] then []
    else
      (if s[0].start < k then [Span(s[0].start, if s[0].end < k then s[0].end else k, s[0].attrs)] else [])
      + Below(s[1..], k)
  }

  /** The stored spans clipped to the offsets at or above `k`. */
  function Above(s: seq<Span>, k: nat): seq<Span> {
    if s == [] then []
    else
      (if s[0].end > k then [Span(if s[0].start < k then k else s[0].start, s[0].end, s[0].attrs)] else [])
      + Above(s[1..], k)
  }

  /** Spans moved down by `k` (applied to spans that all start at or after `k`). */
  function Rebase(s: seq<Span>, k: nat): seq<Span> {
    if s == [] then [] else [Shifted(s[0], k)] + Rebase(s[1..], k)
  }

  /** `sp` clipped at `k` and moved down by `k`: what `split_off` hands to the new list. */
  function Shifted(sp: Span, k: nat): Span {
    Span(if sp.start < k then 0 else sp.start - k, if sp.end < k then 0 else sp.end - k, sp.attrs)
  }

  /** Every span clipped below `k` ends by `k`. */
  lemma {:induction false} BelowEndBy(s: seq<Span>, k: nat)
    ensures AllEndBy(Below(s, k), k)
  {
    if s != [] {
      BelowEndBy(s[1..], k);
    }
  }

  /** Every span clipped above `k` starts at or after `k` and ends after it. */
  lemma {:induction false} AboveBounds(s: seq<Span>, k: nat)
    ensures AllStartFrom(Above(s, k), k) && AllEndAfter(Above(s, k), k)
  {
    if s != [] {
      AboveBounds(s[1..], k);
    }
  }

  /** Moving spans down keeps their number, and moves each one. */
  lemma {:induction false} RebaseAt(s: seq<Span>, k: nat)
    ensures |Rebase(s, k)| == |s|
    ensures forall i :: 0 <= i < |s| ==> Rebase(s, k)[i] == Shifted(s[i], k)
  {
    if s != [] {
      RebaseAt(s[1..], k);
    }
  }

  /** Clipping below `k` keeps what the map says below `k` and forgets the rest. */
  lemma {:induction false} BelowLookup(s: seq<Span>, k: nat, x: nat)
    ensures Lookup(Below(s, k), x) == if x < k then Lookup(s, x) else None
  {
    if s != [] {
      var head := if s[0].start < k then [Span(s[0].start, if s[0].end < k then s[0].end else k, s[0].attrs)] else [];
      BelowLookup(s[1..], k, x);
      LookupConcat(head, Below(s[1..], k), x);
    }
  }

  /** Clipping above `k` keeps what the map says from `k` on and forgets the rest. */
  lemma {:induction false} AboveLookup(s: seq<Span>, k: nat, x: nat)
    ensures Lookup(Above(s, k), x) == if x >= k then Lookup(s, x) else None
  {
    if s != [] {
      var head := if s[0].end > k then [Span(if s[0].start < k then k else s[0].start, s[0].end, s[0].attrs)] else [];
      AboveLookup(s[1..], k, x);
      LookupConcat(head, Above(s[1..], k), x);
    }
  }

  /** Moving spans down by `k` moves every lookup down by `k`. */
  lemma {:induction false} RebaseLookup(s: seq<Span>, k: nat, y: nat)
    requires AllStartFrom(s, k) && AllEndAfter(s, k)
    ensures Lookup(Rebase(s, k), y) == Lookup(s, y + k)
  {
    if s != [] {
      RebaseLookup(s[1..], k, y);
      LookupConcat([Span(s[0].start - k, s[0].end - k, s[0].attrs)], Rebase(s[1..], k), y);
      assert Rebase(s, k) == [Span(s[0].start - k, s[0].end - k, s[0].attrs)] + Rebase(s[1..], k);
    }
  }

  /** Clipping keeps ranges non-empty. */
  lemma {:induction false} BelowNonEmpty(s: seq<Span>, k: nat)
    requires NonEmptyRanges(s)
    ensures NonEmptyRanges(Below(s, k))
  {
    if s != [] {
      assert NonEmptyRanges(s[1..]);
      BelowNonEmpty(s[1..], k);
    }
  }

  lemma {:induction false} AboveNonEmpty(s: seq<Span>, k: nat)
    requires NonEmptyRanges(s)
    ensures NonEmptyRanges(Above(s, k))
  {
    if s != [] {
      assert NonEmptyRanges(s[1..]);
      AboveNonEmpty(s[1..], k);
    }
  }

  /** Clipping never moves a start below, or an end above, where it was. */
  lemma {:induction false} BelowStartFrom(s: seq<Span>, k: nat, m: nat)
    requires AllStartFrom(s, m)
    ensures AllStartFrom(Below(s, k), m)
  {
    if s != [] {
      assert AllStartFrom(s[1..], m);
      BelowStartFrom(s[1..], k, m);
    }
  }

  lemma {:induction false} AboveEndBy(s: seq<Span>, k: nat, m: nat)
    requires AllEndBy(s, m)
    ensures AllEndBy(Above(s, k), m)
  {
    if s != [] {
      assert AllEndBy(s[1..], m);
      AboveEndBy(s[1..], k, m);
    }
  }

  /** Clipping keeps the storage invariant. */
  lemma {:induction false} BelowValid(s: seq<Span>, k: nat)
    requires SpansValid(s)
    ensures SpansValid(Below(s, k))
  {
    if s != [] {
      var head := if s[0].start < k then [Span(s[0].start, if s[0].end < k then s[0].end else k, s[0].attrs)] else [];
      SuffixFacts(s, 0);
      BelowValid(s[1..], k);
      assert Below(s, k) == head + Below(s[1..], k);
      if head != [] {
        BelowStartFrom(s[1..], k, s[0].end);
        ValidConcat(head, Below(s[1..], k), head[0].end);
      } else {
        assert Below(s, k) == Below(s[1..], k);
      }
    }
  }

  lemma {:induction false} AboveValid(s: seq<Span>, k: nat)
    requires SpansValid(s)
    ensures SpansValid(Above(s, k))
  {
    if s != [] {
      var head := if s[0].end > k then [Span(if s[0].start < k then k else s[0].start, s[0].end, s[0].attrs)] else [];
      SuffixFacts(s, 0);
      AboveValid(s[1..], k);
      assert Above(s, k) == head + Above(s[1..], k);
      if head != [] {
        AboveStartFrom(s[1..], k, s[0].end);
        ValidConcat(head, Above(s[1..], k), head[0].end);
      } else {
        assert Above(s, k) == Above(s[1..], k);
      }
    }
  }

  lemma {:induction false} AboveStartFrom(s: seq<Span>, k: nat, m: nat)
    requires AllStartFrom(s, m)
    ensures AllStartFrom(Above(s, k), m)
  {
    if s != [] {
      assert AllStartFrom(s[1..], m);
      AboveStartFrom(s[1..], k, m);
    }
  }

  lemma RebaseValid(s: seq<Span>, k: nat)
    requires SpansValid(s) && AllStartFrom(s, k) && AllEndAfter(s, k)
    ensures SpansValid(Rebase(s, k))
  {
    RebaseAt(s, k);
    forall i, j | 0 <= i < j < |Rebase(s, k)| ensures Before(Rebase(s, k), i, j) {
      assert Before(s, i, j);
    }
  }

  /** `RangeMap::insert`: map `lo..hi` to `v`, overwriting what was there. */
  function Insert(s: seq<Span>, lo: nat, hi: nat, v: AttrsOwned): seq<Span>
    requires lo < hi
  {
    Below(s, lo) + [Span(lo, hi, v)] + Above(s, hi)
  }

  /** After inserting, `lo..hi` maps to `v` and every other offset is unchanged. */
  lemma InsertLookup(s: seq<Span>, lo: nat, hi: nat, v: AttrsOwned, x: nat)
    requires lo < hi
    ensures Lookup(Insert(s, lo, hi, v), x) == if lo <= x < hi then Some(v) else Lookup(s, x)
  {
    LookupConcat(Below(s, lo) + [Span(lo, hi, v)], Above(s, hi), x);
    LookupConcat(Below(s, lo), [Span(lo, hi, v)], x);
    assert FindSpan([Span(lo, hi, v)], x) == if lo <= x < hi then Some(Span(lo, hi, v)) else None by {
      assert [Span(lo, hi, v)][1..] == [];
    }
    BelowLookup(s, lo, x);
    AboveLookup(s, hi, x);
  }

  lemma InsertValid(s: seq<Span>, lo: nat, hi: nat, v: AttrsOwned)
    requires lo < hi && SpansValid(s)
    ensures SpansValid(Insert(s, lo, hi, v))
  {
    BelowValid(s, lo);
    AboveValid(s, hi);
    BelowEndBy(s, lo);
    AboveBounds(s, hi);
    ValidConcat(Below(s, lo), [Span(lo, hi, v)], lo);
    ValidConcat(Below(s, lo) + [Span(lo, hi, v)], Above(s, hi), hi);
  }

  /** `RangeMap::remove`: unmap `lo..hi`. */
  function Remove(s: seq<Span>, lo: nat, hi: nat): seq<Span> {
    Below(s, lo) + Above(s, hi)
  }

  lemma RemoveLookup(s: seq<Span>, lo: nat, hi: nat, x: nat)
    ensures Lookup(Remove(s, lo, hi), x) == if lo <= x < hi then None else Lookup(s, x)
  {
    LookupConcat(Below(s, lo), Above(s, hi), x);
    BelowLookup(s, lo, x);
    AboveLookup(s, hi, x);
  }

  // Structural facts about clipping, used to follow split_off step by step.

  lemma {:induction false} BelowConcat(a: seq<Span>, b: seq<Span>, k: nat)
    ensures Below(a + b, k) == Below(a, k) + Below(b, k)
  {
    if a == [] {
      assert a + b == b;
    } else {
      assert (a + b)[1..] == a[1..] + b;
      BelowConcat(a[1..], b, k);
    }
  }

  lemma {:induction false} AboveConcat(a: seq<Span>, b: seq<Span>, k: nat)
    ensures Above(a + b, k) == Above(a, k) + Above(b, k)
  {
    if a == [] {
      assert a + b == b;
    } else {
      assert (a + b)[1..] == a[1..] + b;
      AboveConcat(a[1..], b, k);
    }
  }

  lemma {:induction false} RebaseConcat(a: seq<Span>, b: seq<Span>, k: nat)
    ensures Rebase(a + b, k) == Rebase(a, k) + Rebase(b, k)
  {
    if a == [] {
      assert a + b == b;
    } else {
      assert (a + b)[1..] == a[1..] + b;
      RebaseConcat(a[1..], b, k);
    }
  }

  lemma {:induction false} BelowKeeps(s: seq<Span>, k: nat)
    requires AllEndBy(s, k) && NonEmptyRanges(s)
    ensures Below(s, k) == s
  {
    if s != [] {
      assert AllEndBy(s[1..], k) && NonEmptyRanges(s[1..]);
      BelowKeeps(s[1..], k);
      assert s == [s[0]] + s[1..];
    }
  }

  lemma {:induction false} BelowDrops(s: seq<Span>, k: nat)
    requires AllStartFrom(s, k)
    ensures Below(s, k) == []
  {
    if s != [] {
      assert AllStartFrom(s[1..], k);
      BelowDrops(s[1..], k);
    }
  }

  lemma {:induction false} AboveKeeps(s: seq<Span>, k: nat)
    requires AllStartFrom(s, k) && NonEmptyRanges(s)
    ensures Above(s, k) == s
  {
    if s != [] {
      assert AllStartFrom(s[1..], k) && NonEmptyRanges(s[1..]);
      AboveKeeps(s[1..], k);
      assert s == [s[0]] + s[1..];
    }
  }

  lemma {:induction false} AboveDrops(s: seq<Span>, k: nat)
    requires AllEndBy(s, k)
    ensures Above(s, k) == []
  {
    if s != [] {
      assert AllEndBy(s[1..], k);
      AboveDrops(s[1..], k);
    }
  }

  /** The attribute list of one line, as a value (what `AttrsList::clone` copies). */
  datatype AttrsListValue = AttrsListValue(defaults: AttrsOwned, spans: seq<Span>)
  {
    ghost predicate Valid() {
      SpansValid(spans)
    }

    /**
     * `AttrsList::get_span`: the attributes of the span covering `x`, or the
     * defaults when no span covers it.
     */
    function GetSpan(x: nat): Attrs {
      match Lookup(spans, x)
      case Some(v) => v.AsAttrs()
      case None => defaults.AsAttrs()
    }

    /** What `split_off(k)` leaves behind. */
    function SplitLeft(k: nat): AttrsListValue {
      AttrsListValue(defaults, Below(spans, k))
    }

    /** What `split_off(k)` returns. */
    function SplitRight(k: nat): AttrsListValue {
      AttrsListValue(defaults, Rebase(Above(spans, k), k))
    }
  }

  /**
   * `get_span(x)` gives the attributes of the stored span covering `x`, and
   * the defaults when no span covers it.
   */
  lemma GetSpanCovering(v: AttrsListValue, x: nat)
    requires v.Valid()
    ensures forall i :: 0 <= i < |v.spans| && Covers(v.spans[i], x) ==>
              v.GetSpan(x) == v.spans[i].attrs.AsAttrs()
    ensures (forall i :: 0 <= i < |v.spans| ==> !Covers(v.spans[i], x)) ==>
              v.GetSpan(x) == v.defaults.AsAttrs()
  {
    FindSpanCovering(v.spans, x);
  }

  /**
   * The part kept by `split_off(k)` answers like the original below `k` and
   * with the defaults from `k` on.
   */
  lemma SplitLeftLookup(v: AttrsListValue, k: nat, x: nat)
    requires v.Valid()
    ensures v.SplitLeft(k).Valid() && v.SplitLeft(k).defaults == v.defaults
    ensures v.SplitLeft(k).GetSpan(x) == if x < k then v.GetSpan(x) else v.defaults.AsAttrs()
  {
    BelowValid(v.spans, k);
    BelowLookup(v.spans, k, x);
  }

  /**
   * The part returned by `split_off(k)` has the same defaults and answers at
   * `y` what the original answered at `y + k`.
   */
  lemma SplitRightLookup(v: AttrsListValue, k: nat, y: nat)
    requires v.Valid()
    ensures v.SplitRight(k).Valid() && v.SplitRight(k).defaults == v.defaults
    ensures v.SplitRight(k).GetSpan(y) == v.GetSpan(y + k)
  {
    AboveValid(v.spans, k);
    AboveBounds(v.spans, k);
    RebaseValid(Above(v.spans, k), k);
    RebaseLookup(Above(v.spans, k), k, y);
    AboveLookup(v.spans, k, y + k);
  }

  /** One entry of the removal list that `split_off` collects. */
  datatype Removal = Removal(start: nat, end: nat, resize: bool)

  /**
   * The removal list `split_off(k)` has collected after visiting the first
   * `i` stored spans: each span ending after `k`, marked for resizing when it
   * also starts before `k`.
   */
  function Removals(s: seq<Span>, i: nat, k: nat): (r: seq<Removal>)
    requires i <= |s|
    ensures |r| <= i
  {
    if i == 0 then []
    else
      Removals(s, i - 1, k) +
      (if s[i - 1].end <= k then [] else [Removal(s[i - 1].start, s[i - 1].end, s[i - 1].start < k)])
  }

  /**
   * The removal list names exactly the spans that end after `k`; they form a
   * suffix of the sorted storage, and only its first entry can straddle `k`.
   */
  lemma {:induction false} RemovalsShape(s: seq<Span>, i: nat, k: nat)
    requires SpansValid(s) && i <= |s|
    ensures |Removals(s, i, k)| <= i
    ensures forall t :: 0 <= t < i - |Removals(s, i, k)| ==> s[t].end <= k
    ensures forall t :: i - |Removals(s, i, k)| <= t < i ==> s[t].end > k
    ensures forall t :: 0 <= t < |Removals(s, i, k)| ==>
              Removals(s, i, k)[t] == Removal(s[i - |Removals(s, i, k)| + t].start,
                                              s[i - |Removals(s, i, k)| + t].end,
                                              s[i - |Removals(s, i, k)| + t].start < k)
  {
    if i > 0 {
      RemovalsShape(s, i - 1, k);
      var r := Removals(s, i - 1, k);
      if s[i - 1].end <= k {
        forall t | 0 <= t < i - 1 ensures s[t].end <= k {
          assert Before(s, t, i - 1);
        }
      }
    }
  }

  /** The attribute list of one line (`AttrsList`), updated in place. */
  class AttrsList {
    var defaults: AttrsOwned
    var spans: seq<Span>

    ghost predicate Valid()
      reads this
    {
      SpansValid(spans)
    }

    /** The list as a value, which is what `clone` copies. */
    function Value(): AttrsListValue
      reads this
    {
      AttrsListValue(defaults, spans)
    }

    /** `AttrsList::new`: no spans, the given defaults. */
    constructor (defaults: Attrs)
      ensures Valid() && this.defaults == AttrsOwnedNew(defaults) && spans == []
    {
      this.defaults := AttrsOwnedNew(defaults);
      spans := [];
    }

    /** A list holding a copy of `v` (the copy `clone` makes). */
    constructor FromValue(v: AttrsListValue)
      requires v.Valid()
      ensures Valid() && Value() == v
    {
      defaults := v.defaults;
      spans := v.spans;
    }

    /** `AttrsList::defaults`. */
    function Defaults(): (a: Attrs)
      reads this
      ensures AttrsOwnedNew(a) == defaults
    {
      defaults.AsAttrs()
    }

    /** `AttrsList::spans`: the stored spans, sorted, non-empty and disjoint. */
    function Spans(): (r: seq<Span>)
      reads this
      requires Valid()
      ensures SpansValid(r)
      ensures forall x: nat :: Lookup(r, x) == Lookup(spans, x)
    {
      spans
    }

    /** `AttrsList::get_span`. */
    function GetSpan(x: nat): Attrs
      reads this
    {
      Value().GetSpan(x)
    }

    /** `AttrsList::clear_spans`: every offset falls back to the defaults. */
    method ClearSpans()
      requires Valid()
      modifies this
      ensures Valid() && defaults == old(defaults) && spans == []
      ensures forall x: nat :: GetSpan(x) == Defaults()
    {
      spans := [];
    }

    /**
     * `AttrsList::add_span`: map `lo..hi` to `attrs`, overwriting what the
     * range covers; a zero-width range changes nothing.  The range map panics
     * on a range whose start lies after its end.
     */
    method AddSpan(lo: nat, hi: nat, attrs: Attrs)
      requires Valid() && lo <= hi
      modifies this
      ensures Valid() && defaults == old(defaults)
      ensures lo == hi ==> spans == old(spans)
      ensures lo < hi ==> spans == Insert(old(spans), lo, hi, AttrsOwnedNew(attrs))
      ensures forall x: nat :: GetSpan(x) == if lo <= x < hi then attrs else old(GetSpan(x))
    {
      if lo == hi {
        return;
      }
      InsertValid(spans, lo, hi, AttrsOwnedNew(attrs));
      forall x: nat ensures Lookup(Insert(spans, lo, hi, AttrsOwnedNew(attrs)), x) ==
                            if lo <= x < hi then Some(AttrsOwnedNew(attrs)) else Lookup(spans, x) {
        InsertLookup(spans, lo, hi, AttrsOwnedNew(attrs), x);
      }
      spans := Insert(spans, lo, hi, AttrsOwnedNew(attrs));
      AttrsRoundTrip(attrs);
    }

    /**
     * The first loop of `split_off`: the removal list for a split at `index`,
     * in storage order.
     */
    method CollectRemovals(index: nat) returns (removes: seq<Removal>)
      ensures removes == Removals(spans, |spans|, index)
    {
      removes := [];
      for i := 0 to |spans|
        invariant removes == Removals(spans, i, index)
      {
        var span := spans[i];
        if span.end <= index {
          continue;
        } else if span.start >= index {
          removes := removes + [Removal(span.start, span.end, false)];
        } else {
          removes := removes + [Removal(span.start, span.end, true)];
        }
      }
    }

    /**
     * `AttrsList::split_off`: split the list at `index`. This list keeps what
     * lies below `index`; the returned list gets what lies at or after it,
     * moved down by `index`, with the same defaults.
     */
    method SplitOff(index: nat) returns (rest: AttrsList)
      requires Valid()
      modifies this
      ensures fresh(rest) && Valid() && rest.Valid()
      ensures Value() == old(Value()).SplitLeft(index)
      ensures rest.Value() == old(Value()).SplitRight(index)
    {
      ghost var s := spans;
      var removes := CollectRemovals(index);
      rest := new AttrsList(defaults.AsAttrs());
      ApplyRemovals(removes, index, rest);
      SplitValid(s, index);
    }

    /**
     * The second loop of `split_off`: take each collected span out of this
     * list, keep its part below `index`, and move its part at or after
     * `index` into `rest`.
     */
    method ApplyRemovals(removes: seq<Removal>, index: nat, rest: AttrsList)
      requires rest != this && rest.spans == [] && SpansValid(spans)
      requires removes == Removals(spans, |spans|, index)
      modifies this, rest
      ensures defaults == old(defaults) && rest.defaults == old(rest.defaults)
      ensures spans == Below(old(spans), index)
      ensures rest.spans == Rebase(Above(old(spans), index), index)
    {
      ghost var s := spans;
      PassesStart(s, removes, index);
      ghost var m := |s| - |removes|;
      var j := 0;
      while j < |removes|
        invariant j <= |removes|
        invariant defaults == old(defaults) && rest.defaults == old(rest.defaults)
        invariant KeptAfter(s, m, j, index, spans) && MovedAfter(s, m, j, index, rest.spans)
      {
        var next := j + 1;
        var kept, moved := ApplyRemoval(s, m, removes, j, next, index, spans, rest.spans);
        spans, rest.spans := kept, moved;
        j := next;
      }
      PassesEnd(s, removes, m, index, spans, rest.spans);
    }
  }

  /**
   * One pass of `split_off`'s second loop, over the removal `removes[j]` of
   * storage `s` whose first `m` spans end by `k`: look up the span it names in
   * the spans `kept` (the lookup must succeed), remove it, and insert its part
   * at or after `k`, moved down by `k`, into the spans `moved`; a span that
   * straddles `k` (`resize`) keeps its part below `k` in `kept`.
   */
  method ApplyRemoval(ghost s: seq<Span>, ghost m: nat, removes: seq<Removal>, j: nat, n: nat, k: nat,
                      kept: seq<Span>, moved: seq<Span>)
    returns (kept': seq<Span>, moved': seq<Span>)
    requires Setting(s, removes, m, k)
    requires j < |removes| && n == j + 1
    requires KeptAfter(s, m, j, k, kept) && MovedAfter(s, m, j, k, moved)
    ensures KeptAfter(s, m, n, k, kept') && MovedAfter(s, m, n, k, moved')
  {
    var key := removes[j];
    var found := FindSpan(kept, key.start);
    PassFound(s, removes, m, j, k, kept, key, found);
    var range := found.value;
    kept' := KeepPass(s, m, removes, j, n, k, kept, key, range);
    moved' := MovePass(s, m, removes, j, n, k, moved, key, range);
  }

  /** The part of that pass on the spans kept: remove `range`, keep its left half when it straddles `k`. */
  method KeepPass(ghost s: seq<Span>, ghost m: nat, ghost removes: seq<Removal>, ghost j: nat, ghost n: nat, k: nat,
                  kept: seq<Span>, key: Removal, range: Span)
    returns (kept': seq<Span>)
    requires Setting(s, removes, m, k) && j < |removes| && n == j + 1
    requires KeptAfter(s, m, j, k, kept)
    requires key == Removal(s[m + j].start, s[m + j].end, s[m + j].start < k) && range == s[m + j]
    ensures KeptAfter(s, m, n, k, kept')
  {
    KeptAt(s, removes, m, j, n, k, kept);
    kept' := Remove(kept, key.start, key.end);
    if key.resize {
      kept' := Insert(kept', range.start, k, range.attrs);
    }
  }

  /** The part of that pass on the spans moved: insert the part of `range` at or after `k`, shifted by `k`. */
  method MovePass(ghost s: seq<Span>, ghost m: nat, ghost removes: seq<Removal>, ghost j: nat, ghost n: nat, k: nat,
                  moved: seq<Span>, key: Removal, range: Span)
    returns (moved': seq<Span>)
    requires Setting(s, removes, m, k) && j < |removes| && n == j + 1
    requires MovedAfter(s, m, j, k, moved)
    requires key == Removal(s[m + j].start, s[m + j].end, s[m + j].start < k) && range == s[m + j]
    ensures MovedAfter(s, m, n, k, moved')
  {
    MovedAt(s, removes, m, j, n, k, moved);
    if key.resize {
      moved' := Insert(moved, 0, range.end - k, range.attrs);
    } else {
      moved' := Insert(moved, range.start - k, range.end - k, range.attrs);
    }
  }

  /**
   * The setting of `split_off`'s second loop: valid storage `s`, the
   * removals collected from it, and the number `m` of spans it leaves alone.
   */
  ghost predicate Setting(s: seq<Span>, removes: seq<Removal>, m: nat, k: nat) {
    SpansValid(s) && removes == Removals(s, |s|, k) && m + |removes| == |s|
  }

  /**
   * The spans this list keeps after `j` passes of that loop: the untouched
   * prefix, the left half of a straddling span and the spans not yet visited.
   */
  ghost predicate KeptAfter(s: seq<Span>, m: nat, j: nat, k: nat, kept: seq<Span>) {
    && m + j <= |s| && (m < |s| || j == 0)
    && kept == s[..m] + Straddle(s, m, j, k) + s[m + j..]
  }

  /** The spans moved to the new list after `j` passes: the visited spans shifted down by `k`. */
  ghost predicate MovedAfter(s: seq<Span>, m: nat, j: nat, k: nat, moved: seq<Span>) {
    m + j <= |s| && moved == MovedPrefix(s, m, j, k)
  }

  /** The left half of a straddling span, once `split_off` has handled it. */
  function Straddle(s: seq<Span>, m: nat, j: nat, k: nat): seq<Span>
    requires m < |s| || j == 0
  {
    if j > 0 && s[m].start < k then [Span(s[m].start, k, s[m].attrs)] else []
  }

  /** The spans `s[m..m + j]`, each shifted by `k`. */
  ghost function MovedPrefix(s: seq<Span>, m: nat, j: nat, k: nat): seq<Span>
    requires m + j <= |s|
  {
    if j == 0 then [] else MovedPrefix(s, m, j - 1, k) + [Shifted(s[m + j - 1], k)]
  }

  /** Before the first pass, the spans kept are all the spans and none has moved. */
  lemma PassesStart(s: seq<Span>, removes: seq<Removal>, k: nat)
    requires SpansValid(s) && removes == Removals(s, |s|, k)
    ensures |removes| <= |s| && Setting(s, removes, |s| - |removes|, k)
    ensures KeptAfter(s, |s| - |removes|, 0, k, s) && MovedAfter(s, |s| - |removes|, 0, k, [])
  {
    RemovalsShape(s, |s|, k);
    assert s[..|s| - |removes|] + [] + s[|s| - |removes|..] == s;
  }

  /** After the last pass the two lists are the halves `SplitLeft` and `SplitRight` describe. */
  lemma PassesEnd(s: seq<Span>, removes: seq<Removal>, m: nat, k: nat, kept: seq<Span>, moved: seq<Span>)
    requires Setting(s, removes, m, k)
    requires KeptAfter(s, m, |removes|, k, kept) && MovedAfter(s, m, |removes|, k, moved)
    ensures kept == Below(s, k) && moved == Rebase(Above(s, k), k)
  {
    PassesEndKept(s, removes, m, k);
    PassesEndMoved(s, removes, m, k);
  }

  lemma PassesEndKept(s: seq<Span>, removes: seq<Removal>, m: nat, k: nat)
    requires Setting(s, removes, m, k)
    ensures s[..m] + Straddle(s, m, |removes|, k) + s[m + |removes|..] == Below(s, k)
  {
    RemovalsShape(s, |s|, k);
    SplitDone(s, m, |removes|, k);
  }

  lemma PassesEndMoved(s: seq<Span>, removes: seq<Removal>, m: nat, k: nat)
    requires Setting(s, removes, m, k)
    ensures MovedPrefix(s, m, |removes|, k) == Rebase(Above(s, k), k)
  {
    RemovalsShape(s, |s|, k);
    MovedPrefixAbove(s, m, |removes|, k);
    SplitDone(s, m, |removes|, k);
  }

  /**
   * The removal `key = removes[j]` names the `j`-th span of the suffix ending
   * after `k`, and looking its start up in the spans kept finds that span.
   */
  lemma PassFound(s: seq<Span>, removes: seq<Removal>, m: nat, j: nat, k: nat,
                  kept: seq<Span>, key: Removal, found: Option<Span>)
    requires Setting(s, removes, m, k) && j < |removes| && KeptAfter(s, m, j, k, kept)
    requires key == removes[j] && found == FindSpan(kept, key.start)
    ensures key == Removal(s[m + j].start, s[m + j].end, s[m + j].start < k)
    ensures found == Some(s[m + j])
  {
    KeyAt(s, removes, m, j, k);
    StepFind(s, m, j, k);
  }

  /**
   * The pass over the `j`-th removal on the spans kept, from the state after
   * the first `j` passes to the state after `n = j + 1`.
   */
  lemma KeptAt(s: seq<Span>, removes: seq<Removal>, m: nat, j: nat, n: nat, k: nat, kept: seq<Span>)
    requires Setting(s, removes, m, k) && j < |removes| && n == j + 1
    requires KeptAfter(s, m, j, k, kept)
    ensures s[m + j].start < k ==>
              KeptAfter(s, m, n, k, Insert(Remove(kept, s[m + j].start, s[m + j].end), s[m + j].start, k, s[m + j].attrs))
    ensures k <= s[m + j].start ==> KeptAfter(s, m, n, k, Remove(kept, s[m + j].start, s[m + j].end))
  {
    KeyAt(s, removes, m, j, k);
    StepRemove(s, m, j, n, k);
    if s[m + j].start < k {
      assert j == 0 by {
        CutFacts(s, m, j, k);
      }
      StepResize(s, m, j, n, k);
    } else {
      StraddleSame(s, m, j, n, k);
    }
  }

  /** The same pass on the spans moved. */
  lemma MovedAt(s: seq<Span>, removes: seq<Removal>, m: nat, j: nat, n: nat, k: nat, moved: seq<Span>)
    requires Setting(s, removes, m, k) && j < |removes| && n == j + 1
    requires MovedAfter(s, m, j, k, moved)
    ensures k < s[m + j].end && s[m + j].start < s[m + j].end
    ensures s[m + j].start < k ==> MovedAfter(s, m, n, k, Insert(moved, 0, s[m + j].end - k, s[m + j].attrs))
    ensures k <= s[m + j].start ==>
              MovedAfter(s, m, n, k, Insert(moved, s[m + j].start - k, s[m + j].end - k, s[m + j].attrs))
  {
    KeyAt(s, removes, m, j, k);
    if s[m + j].start < k {
      assert j == 0 by {
        CutFacts(s, m, j, k);
      }
      StepCutMoved(s, m, j, n, k);
    } else {
      StepShift(s, m, j, n, k);
    }
  }

  /** The `j`-th removal names the `j`-th span of the suffix ending after `k`. */
  lemma KeyAt(s: seq<Span>, removes: seq<Removal>, m: nat, j: nat, k: nat)
    requires SpansValid(s) && removes == Removals(s, |s|, k) && m + |removes| == |s|
    requires j < |removes|
    ensures AllEndBy(s[..m], k) && forall t :: m <= t < |s| ==> s[t].end > k
    ensures removes[j] == Removal(s[m + j].start, s[m + j].end, s[m + j].start < k)
    ensures s[m + j].start < s[m + j].end
  {
    RemovalsShape(s, |s|, k);
  }

  /** A span at or after `k` leaves no left half behind. */
  lemma StraddleSame(s: seq<Span>, m: nat, j: nat, n: nat, k: nat)
    requires m + j < |s| && n == j + 1
    requires k <= s[m + j].start
    ensures Straddle(s, m, n, k) == Straddle(s, m, j, k)
  {
  }

  /** Valid storage splits around any of its spans into valid parts. */
  lemma SuffixFacts(s: seq<Span>, i: nat)
    requires SpansValid(s) && i < |s|
    ensures SpansValid(s[..i]) && AllEndBy(s[..i], s[i].start)
    ensures SpansValid(s[i + 1..]) && AllStartFrom(s[i + 1..], s[i].end)
    ensures s[i].start < s[i].end && NonEmptyRanges(s[..i]) && NonEmptyRanges(s[i + 1..])
  {
    ValidSlice(s, 0, i);
    ValidSlice(s, i + 1, |s|);
    assert s[..i] == s[0..i] && s[i + 1..] == s[i + 1..|s|];
    forall t | 0 <= t < i ensures s[..i][t].end <= s[i].start {
      assert Before(s, t, i);
    }
    forall t | i + 1 <= t < |s| ensures s[t].start >= s[i].end {
      assert Before(s, i, t);
    }
  }

  /** What `split_off` has kept so far is valid and lies below the next span to handle. */
  lemma CutFacts(s: seq<Span>, m: nat, j: nat, k: nat)
    requires SpansValid(s) && m + j < |s|
    requires AllEndBy(s[..m], k)
    requires forall i :: m <= i < |s| ==> s[i].end > k
    ensures SpansValid(s[..m] + Straddle(s, m, j, k))
    ensures NonEmptyRanges(s[..m] + Straddle(s, m, j, k))
    ensures AllEndBy(s[..m] + Straddle(s, m, j, k), s[m + j].start)
    ensures j > 0 ==> s[m + j].start > k
  {
    SuffixFacts(s, m);
    var st := Straddle(s, m, j, k);
    if j > 0 {
      assert Before(s, m, m + j);
      assert AllEndBy(s[..m], s[m + j].start);
    }
    ValidConcat(s[..m], st, s[m].start);
  }

  lemma {:induction false} FindNoneBelow(s: seq<Span>, x: nat)
    requires AllEndBy(s, x)
    ensures FindSpan(s, x) == None
  {
    if s != [] {
      assert AllEndBy(s[1..], x);
      FindNoneBelow(s[1..], x);
    }
  }

  /** Removing a span's exact range from sorted storage removes just that span. */
  lemma RemoveSpanAt(cut: seq<Span>, sp: Span, tail: seq<Span>)
    requires NonEmptyRanges(cut) && AllEndBy(cut, sp.start) && sp.start < sp.end
    requires AllStartFrom(tail, sp.end) && NonEmptyRanges(tail)
    ensures Remove(cut + ([sp] + tail), sp.start, sp.end) == cut + tail
  {
    assert Below(cut + ([sp] + tail), sp.start) == cut by {
      BelowConcat(cut, [sp] + tail, sp.start);
      BelowConcat([sp], tail, sp.start);
      BelowKeeps(cut, sp.start);
      BelowDrops([sp], sp.start);
      BelowDrops(tail, sp.start);
    }
    assert Above(cut + ([sp] + tail), sp.end) == tail by {
      assert AllEndBy(cut, sp.end);
      AboveConcat(cut, [sp] + tail, sp.end);
      AboveConcat([sp], tail, sp.end);
      AboveDrops(cut, sp.end);
      AboveDrops([sp], sp.end);
      AboveKeeps(tail, sp.end);
    }
  }

  lemma InsertAtEnd(s: seq<Span>, sp: Span)
    requires sp.start < sp.end && AllEndBy(s, sp.start) && NonEmptyRanges(s)
    ensures Insert(s, sp.start, sp.end, sp.attrs) == s + [sp]
  {
    BelowKeeps(s, sp.start);
    assert AllEndBy(s, sp.end);
    AboveDrops(s, sp.end);
  }

  lemma InsertBetween(cut: seq<Span>, sp: Span, tail: seq<Span>)
    requires sp.start < sp.end && AllEndBy(cut, sp.start) && NonEmptyRanges(cut)
    requires AllStartFrom(tail, sp.end) && NonEmptyRanges(tail)
    ensures Insert(cut + tail, sp.start, sp.end, sp.attrs) == cut + [sp] + tail
  {
    assert Below(cut + tail, sp.start) == cut by {
      BelowConcat(cut, tail, sp.start);
      BelowKeeps(cut, sp.start);
      BelowDrops(tail, sp.start);
    }
    assert Above(cut + tail, sp.end) == tail by {
      assert AllEndBy(cut, sp.end);
      AboveConcat(cut, tail, sp.end);
      AboveDrops(cut, sp.end);
      AboveKeeps(tail, sp.end);
    }
  }

  /** One pass of `split_off`'s second loop finds the span to handle by its start. */
  lemma StepFind(s: seq<Span>, m: nat, j: nat, k: nat)
    requires SpansValid(s) && m + j < |s|
    requires AllEndBy(s[..m], k)
    requires forall i :: m <= i < |s| ==> s[i].end > k
    ensures FindSpan(s[..m] + Straddle(s, m, j, k) + s[m + j..], s[m + j].start) == Some(s[m + j])
  {
    var sp := s[m + j];
    var cut := s[..m] + Straddle(s, m, j, k);
    CutFacts(s, m, j, k);
    SuffixFacts(s, m + j);
    assert s[m + j..] == [sp] + s[m + j + 1..];
    FindNoneBelow(cut, sp.start);
    FindSpanConcat(cut, [sp] + s[m + j + 1..], sp.start);
  }

  /**
   * One pass of `split_off`'s second loop finds the span to handle by its
   * start, and removing its range removes just it.
   */
  lemma StepRemove(s: seq<Span>, m: nat, j: nat, n: nat, k: nat)
    requires SpansValid(s) && m + j < |s| && n == j + 1
    requires AllEndBy(s[..m], k)
    requires forall i :: m <= i < |s| ==> s[i].end > k
    ensures s[m + j].start < s[m + j].end
    ensures FindSpan(s[..m] + Straddle(s, m, j, k) + s[m + j..], s[m + j].start) == Some(s[m + j])
    ensures Remove(s[..m] + Straddle(s, m, j, k) + s[m + j..], s[m + j].start, s[m + j].end)
            == s[..m] + Straddle(s, m, j, k) + s[m + n..]
  {
    var sp := s[m + j];
    var cut := s[..m] + Straddle(s, m, j, k);
    var tail := s[m + j + 1..];
    assert tail == s[m + n..];
    CutFacts(s, m, j, k);
    SuffixFacts(s, m + j);
    assert s[m + j..] == [sp] + tail;
    FindNoneBelow(cut, sp.start);
    FindSpanConcat(cut, [sp] + tail, sp.start);
    RemoveSpanAt(cut, sp, tail);
  }

  /**
   * The span straddling the split point (only ever the first one handled) is
   * cut in two: `start..k` goes back into this list, `0..end-k` starts the new one.
   */
  lemma StepResize(s: seq<Span>, m: nat, j: nat, n: nat, k: nat)
    requires SpansValid(s) && m < |s| && j == 0 && n == 1
    requires AllEndBy(s[..m], k)
    requires forall i :: m <= i < |s| ==> s[i].end > k
    requires s[m + j].start < k
    ensures Insert(s[..m] + Straddle(s, m, j, k) + s[m + n..], s[m + j].start, k, s[m + j].attrs)
            == s[..m] + Straddle(s, m, n, k) + s[m + n..]
  {
    assert m + j == m && m + n == m + 1;
    var sp := s[m];
    var tail := s[m + 1..];
    SuffixFacts(s, m);
    assert s[..m] + Straddle(s, m, 0, k) == s[..m];
    assert AllStartFrom(tail, k);
    InsertBetween(s[..m], Span(sp.start, k, sp.attrs), tail);
  }

  /** The right half of the straddling span starts the new list, at offset 0. */
  lemma StepCutMoved(s: seq<Span>, m: nat, j: nat, n: nat, k: nat)
    requires m < |s| && j == 0 && n == 1
    requires s[m + j].start < k < s[m + j].end
    ensures Insert(MovedPrefix(s, m, j, k), 0, s[m + j].end - k, s[m + j].attrs) == MovedPrefix(s, m, n, k)
  {
    assert MovedPrefix(s, m, n, k) == [] + [Shifted(s[m], k)];
    InsertAtEnd([], Shifted(s[m], k));
  }

  /** A span at or after the split point moves down by `k` to the end of the new list. */
  lemma StepShift(s: seq<Span>, m: nat, j: nat, n: nat, k: nat)
    requires SpansValid(s) && m + j < |s| && n == j + 1
    requires forall i :: m <= i < |s| ==> s[i].end > k
    requires k <= s[m + j].start < s[m + j].end
    ensures Insert(MovedPrefix(s, m, j, k), s[m + j].start - k, s[m + j].end - k, s[m + j].attrs)
            == MovedPrefix(s, m, n, k)
  {
    var sp := s[m + j];
    forall t | m <= t < m + j ensures s[t].end <= sp.start {
      assert Before(s, t, m + j);
    }
    MovedPrefixEndBy(s, m, j, k, sp.start - k);
    MovedPrefixNext(s, m, j, n, k);
    InsertAtEnd(MovedPrefix(s, m, j, k), Shifted(sp, k));
  }

  /** `MovedPrefix` one span further. */
  lemma MovedPrefixNext(s: seq<Span>, m: nat, i: nat, j: nat, k: nat)
    requires m + j <= |s| && j == i + 1
    ensures MovedPrefix(s, m, j, k) == MovedPrefix(s, m, i, k) + [Shifted(s[m + i], k)]
  {
  }

  /** The moved spans are non-empty and end by `x` when the spans they come from end by `x + k`. */
  lemma {:induction false} MovedPrefixEndBy(s: seq<Span>, m: nat, j: nat, k: nat, x: nat)
    requires m + j <= |s|
    requires forall t :: m <= t < m + j ==> s[t].start < s[t].end && k < s[t].end <= x + k
    ensures AllEndBy(MovedPrefix(s, m, j, k), x) && NonEmptyRanges(MovedPrefix(s, m, j, k))
  {
    if j > 0 {
      MovedPrefixEndBy(s, m, j - 1, k, x);
    }
  }

  /** The moved spans are the suffix of the storage clipped at and moved down by `k`. */
  lemma {:induction false} MovedPrefixAbove(s: seq<Span>, m: nat, j: nat, k: nat)
    requires m + j <= |s|
    requires forall t :: m <= t < m + j ==> k < s[t].end
    ensures MovedPrefix(s, m, j, k) == Rebase(Above(s[m..m + j], k), k)
  {
    if j == 0 {
      assert s[m..m] == [];
    } else {
      var i := j - 1;
      MovedPrefixAbove(s, m, i, k);
      MovedPrefixNext(s, m, i, j, k);
      assert s[m..m + j] == s[m..m + i] + [s[m + i]];
      AboveAppend(s[m..m + i], s[m + i], k);
    }
  }

  /** Clipping and moving down a span appended after others appends it shifted. */
  lemma AboveAppend(a: seq<Span>, sp: Span, k: nat)
    requires k < sp.end
    ensures Rebase(Above(a + [sp], k), k) == Rebase(Above(a, k), k) + [Shifted(sp, k)]
  {
    var clipped := Span(if sp.start < k then k else sp.start, sp.end, sp.attrs);
    assert Above(a + [sp], k) == Above(a, k) + [clipped] by {
      AboveConcat(a, [sp], k);
      assert Above([sp], k) == [clipped];
    }
    RebaseConcat(Above(a, k), [clipped], k);
    assert Rebase([clipped], k) == [Shifted(sp, k)];
  }

  /** After the last pass, the two halves are exactly the clipped storage. */
  lemma SplitDone(s: seq<Span>, m: nat, n: nat, k: nat)
    requires SpansValid(s) && m + n == |s|
    requires AllEndBy(s[..m], k)
    requires forall i :: m <= i < |s| ==> s[i].end > k
    ensures s[..m] + Straddle(s, m, n, k) + s[m + n..] == Below(s, k)
    ensures Above(s[m..m + n], k) == Above(s, k)
  {
    assert s == s[..m] + s[m..];
    SplitDoneBelow(s, m, n, k);
    assert Above(s, k) == Above(s[m..], k) by {
      AboveConcat(s[..m], s[m..], k);
      AboveDrops(s[..m], k);
    }
    assert s[m..m + n] == s[m..];
  }

  /** Both halves of a split of valid storage are valid. */
  lemma SplitValid(s: seq<Span>, k: nat)
    requires SpansValid(s)
    ensures SpansValid(Below(s, k)) && SpansValid(Rebase(Above(s, k), k))
  {
    BelowValid(s, k);
    AboveValid(s, k);
    AboveBounds(s, k);
    RebaseValid(Above(s, k), k);
  }

  lemma SplitDoneBelow(s: seq<Span>, m: nat, n: nat, k: nat)
    requires SpansValid(s) && m + n == |s|
    requires AllEndBy(s[..m], k)
    requires forall i :: m <= i < |s| ==> s[i].end > k
    ensures s[..m] + Straddle(s, m, n, k) + s[m + n..] == Below(s, k)
  {
    assert s == s[..m] + s[m..];
    assert s[m + n..] == [];
    assert Below(s, k) == s[..m] + Below(s[m..], k) by {
      assert NonEmptyRanges(s[..m]);
      BelowConcat(s[..m], s[m..], k);
      BelowKeeps(s[..m], k);
    }
    if n > 0 {
      assert Below(s[m..], k) == Straddle(s, m, n, k) by {
        SuffixFacts(s, m);
        assert s[m..] == [s[m]] + s[m + 1..];
        BelowConcat([s[m]], s[m + 1..], k);
        assert AllStartFrom(s[m + 1..], k);
        BelowDrops(s[m + 1..], k);
      }
    }
  }
}
