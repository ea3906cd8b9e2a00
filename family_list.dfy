/**
 * The font-family list tokenizer behind `FamilyOwned::parse_list`
 * (src/attrs.rs): a CSS-like, comma-separated list of family names, where a
 * name may be quoted and the generic families are recognised whatever their
 * case.
 *
 * The source walks the UTF-8 bytes of a `&str`.  Every byte it compares
 * against (ASCII whitespace, ',', '"', '\'') is ASCII, so every position it
 * stops at is a character boundary; the model walks characters instead, and
 * `pos` counts characters.
 */
module FamilyList {
  import opened Wrappers
  import opened Attributes

  /** `u8::is_ascii_whitespace`: space, tab, line feed, form feed, carriage return. */
  predicate IsAsciiWhitespace(c: char) {
    c == ' ' || c == '\t' || c == '\n' || c == '\U{C}' || c == '\r'
  }

  /** What the tokenizer skips between names. */
  predicate IsSeparator(c: char) {
    IsAsciiWhitespace(c) || c == ','
  }

  predicate IsQuote(c: char) {
    c == '"' || c == '\''
  }

  /** The Unicode `White_Space` property, which `str::trim` strips. */
  predicate IsWhiteSpace(c: char) {
    || ('\t' <= c <= '\r')
    || c == ' ' || c == '\U{85}' || c == '\U{A0}' || c == '\U{1680}'
    || ('\U{2000}' <= c <= '\U{200A}')
    || c == '\U{2028}' || c == '\U{2029}' || c == '\U{202F}' || c == '\U{205F}' || c == '\U{3000}'
  }

  /** `str::trim_start`. */
  function TrimStart(s: string): string {
    if s != [] && IsWhiteSpace(s[0]) then TrimStart(s[1..]) else s
  }

  /** `str::trim_end`. */
  function TrimEnd(s: string): string {
    if s != [] && IsWhiteSpace(s[|s| - 1]) then TrimEnd(s[..|s| - 1]) else s
  }

  /** How much white space `str::trim` strips from the front of `s`. */
  function TrimmedLead(s: string): int {
    |s| - |TrimStart(s)|
  }

  /** `str::trim`. */
  function Trim(s: string): string {
    TrimEnd(TrimStart(s))
  }

  /** `trim_start` strips exactly the leading white space. */
  lemma {:induction false} TrimStartSpec(s: string)
    ensures |TrimStart(s)| <= |s| && TrimStart(s) == s[|s| - |TrimStart(s)|..]
    ensures forall i :: 0 <= i < |s| - |TrimStart(s)| ==> IsWhiteSpace(s[i])
    ensures TrimStart(s) == [] || !IsWhiteSpace(TrimStart(s)[0])
  {
    if s != [] && IsWhiteSpace(s[0]) {
      var t := TrimStart(s[1..]);
      TrimStartSpec(s[1..]);
      assert s[1..][|s| - 1 - |t|..] == s[|s| - |t|..];
      forall i | 1 <= i < |s| - |t| ensures IsWhiteSpace(s[i]) {
        assert s[i] == s[1..][i - 1];
      }
    }
  }

  /** `trim_end` strips exactly the trailing white space. */
  lemma {:induction false} TrimEndSpec(s: string)
    ensures |TrimEnd(s)| <= |s| && TrimEnd(s) == s[..|TrimEnd(s)|]
    ensures forall i :: |TrimEnd(s)| <= i < |s| ==> IsWhiteSpace(s[i])
    ensures TrimEnd(s) == [] || !IsWhiteSpace(TrimEnd(s)[|TrimEnd(s)| - 1])
  {
    if s != [] && IsWhiteSpace(s[|s| - 1]) {
      var t := TrimEnd(s[..|s| - 1]);
      TrimEndSpec(s[..|s| - 1]);
      assert s[..|s| - 1][..|t|] == s[..|t|];
      forall i | |t| <= i < |s| - 1 ensures IsWhiteSpace(s[i]) {
        assert s[i] == s[..|s| - 1][i];
      }
    }
  }

  /**
   * `trim` leaves the infix `s[a..a + |Trim(s)|]`, where everything before `a`
   * and after the infix is white space, and the infix neither starts nor ends
   * with white space.
   */
  lemma TrimSpec(s: string)
    ensures |TrimStart(s)| <= |s|
    ensures TrimmedLead(s) + |Trim(s)| <= |s|
    ensures Trim(s) == s[TrimmedLead(s)..TrimmedLead(s) + |Trim(s)|]
    ensures forall i :: 0 <= i < TrimmedLead(s) ==> IsWhiteSpace(s[i])
    ensures forall i :: TrimmedLead(s) + |Trim(s)| <= i < |s| ==> IsWhiteSpace(s[i])
    ensures Trim(s) == [] || (!IsWhiteSpace(Trim(s)[0]) && !IsWhiteSpace(Trim(s)[|Trim(s)| - 1]))
  {
    var t := TrimStart(s);
    TrimStartSpec(s);
    TrimEndSpec(t);
    var a := |s| - |t|;
    forall i | a + |Trim(s)| <= i < |s| ensures IsWhiteSpace(s[i]) {
      assert s[i] == t[i - a];
    }
  }

  /** ASCII lower-casing; the generic keywords are ASCII. */
  function Lower(name: string): (r: string)
    ensures |r| == |name|
  {
    if name == [] then []
    else
      var c := name[0];
      [if 'A' <= c <= 'Z' then (c as int + 32) as char else c] + Lower(name[1..])
  }

  /** The keyword a generic family is written as; `Name` has none. */
  function KeywordOf(f: FamilyOwned): string {
    match f
    case Serif => "serif"
    case SansSerif => "sans-serif"
    case Monospace => "monospace"
    case Cursive => "cursive"
    case Fantasy => "fantasy"
    case Name(_) => ""
  }

  /**
   * The family an unquoted name denotes: a generic family when the name,
   * lower-cased, is its keyword, otherwise the name itself.
   */
  function Generic(name: string): (f: FamilyOwned)
    ensures f.Name? <==> Lower(name) !in {"serif", "sans-serif", "monospace", "cursive", "fantasy"}
    ensures f.Name? ==> f.name == name
    ensures !f.Name? ==> KeywordOf(f) == Lower(name)
  {
    match Lower(name)
    case "serif" => FamilyOwned.Serif
    case "sans-serif" => FamilyOwned.SansSerif
    case "monospace" => FamilyOwned.Monospace
    case "cursive" => FamilyOwned.Cursive
    case "fantasy" => FamilyOwned.Fantasy
    case _ => FamilyOwned.Name(name)
  }

  /** Two names that differ only in ASCII case denote the same generic family. */
  lemma GenericIgnoresCase(a: string, b: string)
    requires Lower(a) == Lower(b)
    ensures Generic(a).Name? == Generic(b).Name?
    ensures !Generic(a).Name? ==> Generic(a) == Generic(b)
  {
  }

  /** The first position at or after `p` that is not a separator (or the end). */
  function SkipFrom(s: string, p: nat): (q: nat)
    requires p <= |s|
    ensures p <= q <= |s|
    ensures forall i :: p <= i < q ==> IsSeparator(s[i])
    ensures q < |s| ==> !IsSeparator(s[q])
    decreases |s| - p
  {
    if p < |s| && IsSeparator(s[p]) then SkipFrom(s, p + 1) else p
  }

  /** The first position at or after `p` holding `c`, if any. */
  function Find(s: string, p: nat, c: char): (r: Option<nat>)
    requires p <= |s|
    ensures r.Some? ==> p <= r.value < |s| && s[r.value] == c
    ensures r.Some? ==> forall i :: p <= i < r.value ==> s[i] != c
    ensures r.None? ==> forall i :: p <= i < |s| ==> s[i] != c
    decreases |s| - p
  {
    if p == |s| then None
    else if s[p] == c then Some(p)
    else Find(s, p + 1, c)
  }

  /**
   * The family the tokenizer reads from position `p` of `s`, and the position
   * it resumes at: after the separators, either a name in quotes (running to
   * the matching quote, or to the end of the input when there is none) or an
   * unquoted name running to the next ',' (or the end).  Quoted names are
   * always `Name`s; unquoted ones may be generic keywords.  Both are trimmed.
   */
  function NextToken(s: string, p: nat): (r: (Option<FamilyOwned>, nat))
    requires p <= |s|
    ensures r.1 <= |s|
    ensures r.0.None? <==> forall i :: p <= i < |s| ==> IsSeparator(s[i])
    ensures r.0.None? ==> r.1 == |s|
    ensures r.0.Some? ==> p < r.1
  {
    var q := SkipFrom(s, p);
    if q == |s| then (None, q)
    else if IsQuote(s[q]) then
      match Find(s, q + 1, s[q])
      case Some(e) => (Some(FamilyOwned.Name(Trim(s[q + 1..e]))), e + 1)
      case None => (Some(FamilyOwned.Name(Trim(s[q + 1..]))), |s|)
    else
      match Find(s, q, ',')
      case Some(e) => (Some(Generic(Trim(s[q..e]))), e + 1)
      case None => (Some(Generic(Trim(s[q..]))), |s|)
  }

  /**
   * The whole list `parse_list(s)` yields from position `p`.  It is finite:
   * every name consumes at least one character.
   */
  function Families(s: string, p: nat): (r: seq<FamilyOwned>)
    requires p <= |s|
    ensures |r| <= |s| - p
    decreases |s| - p
  {
    match NextToken(s, p)
    case (None, _) => []
    case (Some(f), q) => [f] + Families(s, q)
  }

  /**
   * A name that opens with a quote is always a `Name`, never a generic
   * family: the trimmed text up to the matching quote `e` (or the end of the
   * input when there is none), and the tokenizer resumes past that quote.
   */
  lemma QuotedIsName(s: string, p: nat, e: nat)
    requires p <= |s| && SkipFrom(s, p) < |s| && IsQuote(s[SkipFrom(s, p)])
    requires SkipFrom(s, p) < e <= |s| && (e == |s| || s[e] == s[SkipFrom(s, p)])
    requires forall i :: SkipFrom(s, p) < i < e ==> s[i] != s[SkipFrom(s, p)]
    ensures NextToken(s, p).0 == Some(FamilyOwned.Name(Trim(s[SkipFrom(s, p) + 1..e])))
    ensures NextToken(s, p).1 == if e == |s| then |s| else e + 1
  {
    var q := SkipFrom(s, p);
    var f := Find(s, q + 1, s[q]);
    if f.Some? {
      assert f.value == e;
    } else {
      assert e == |s|;
      assert s[q + 1..] == s[q + 1..e];
    }
  }

  /** Quoted names are taken literally: a keyword in quotes is a `Name`. */
  lemma QuotedKeyword()
    ensures NextToken("'serif'", 0) == (Some(FamilyOwned.Name("serif")), 7)
  {
    var s := "'serif'";
    assert SkipFrom(s, 0) == 0;
    assert Find(s, 1, '\'') == Some(6);
    assert s[1..6] == "serif";
    assert TrimStart("serif") == "serif";
    assert TrimEnd("serif") == "serif";
  }

  /** Unquoted keywords are recognised in any case. */
  lemma UpperCaseKeyword()
    ensures Generic("SERIF") == FamilyOwned.Serif
  {
    assert Lower("SERIF") == "serif";
  }

  /** The tokenizer over one family list (`ParseList`). */
  class ParseList {
    const source: string
    var pos: nat

    ghost predicate Valid()
      reads this
    {
      pos <= |source|
    }

    /** `FamilyOwned::parse_list`: start at the beginning of `s`. */
    constructor (s: string)
      ensures Valid() && source == s && pos == 0
    {
      source := s;
      pos := 0;
    }

    /**
     * `ParseList::next`: the next family of the list, or `None` once only
     * separators remain.  Every `Some` moves `pos` forward.
     */
    method Next() returns (r: Option<FamilyOwned>)
      requires Valid()
      modifies this
      ensures Valid()
      ensures (r, pos) == NextToken(source, old(pos))
    {
      var p := pos;
      while p < |source| && IsSeparator(source[p])
        invariant old(pos) <= p <= |source|
        invariant SkipFrom(source, old(pos)) == SkipFrom(source, p)
      {
        p := p + 1;
      }
      pos := p;
      if p >= |source| {
        return None;
      }
      var first := source[p];
      if IsQuote(first) {
        var close := Scan(source, p + 1, first);
        match close
        case Some(e) =>
          pos := e + 1;
          r := Some(FamilyOwned.Name(Trim(source[p + 1..e])));
        case None =>
          pos := |source|;
          r := Some(FamilyOwned.Name(Trim(source[p + 1..])));
      } else {
        var comma := Scan(source, p, ',');
        match comma
        case Some(e) =>
          pos := e + 1;
          r := Some(Generic(Trim(source[p..e])));
        case None =>
          pos := |source|;
          r := Some(Generic(Trim(source[p..])));
      }
    }
  }

  /**
   * The scanning loops of `ParseList::next`: the first position at or after
   * `p` holding `c` (the closing quote, or the ',' ending a name).
   */
  method Scan(s: string, p: nat, c: char) returns (e: Option<nat>)
    requires p <= |s|
    ensures e == Find(s, p, c)
  {
    var i := p;
    while i < |s|
      invariant p <= i <= |s|
      invariant Find(s, p, c) == Find(s, i, c)
    {
      if s[i] == c {
        return Some(i);
      }
      i := i + 1;
    }
    return None;
  }
}
