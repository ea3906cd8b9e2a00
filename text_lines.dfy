/**
 * How `TextLayout::set_text` (src/buffer.rs) cuts a text into line records:
 * the pieces of `str::split_terminator('\n')`, one trailing '\r' stripped
 * from each, the byte offset each line starts at, and the attribute list of
 * each line, carved off the text's attribute list with `split_off`.
 *
 * The source works on UTF-8 bytes; every byte it looks at ('\n', '\r') is
 * ASCII, so the model cuts a sequence of characters at the same places and
 * counts offsets in characters.
 */
module TextLines {
  import opened Wrappers
  import opened Attributes
  import opened SpanMap
  import opened Layout

  /** `str::split('\n')`: the pieces between the line feeds, always at least one. */
  function Split(t: string): (ps: seq<string>)
    ensures |ps| >= 1
  {
    if t == [] then [[]]
    else
      var rest := Split(t[1..]);
      if t[0] == '\n' then [[]] + rest
      else [[t[0]] + rest[0]] + rest[1..]
  }

  /** The pieces joined back with a line feed between each two. */
  function Join(ps: seq<string>): string {
    if ps == [] then []
    else if |ps| == 1 then ps[0]
    else ps[0] + "\n" + Join(ps[1..])
  }

  /** Splitting at the line feeds and joining with line feeds gives the text back. */
  lemma {:induction false} SplitJoin(t: string)
    ensures Join(Split(t)) == t
    ensures forall i :: 0 <= i < |Split(t)| ==> '\n' !in Split(t)[i]
  {
    if t != [] {
      var rest := Split(t[1..]);
      SplitJoin(t[1..]);
      if t[0] == '\n' {
        assert Split(t) == [[]] + rest;
        assert Split(t)[1..] == rest;
        assert Join(Split(t)) == [] + "\n" + Join(rest);
        assert t == [t[0]] + t[1..];
        forall i | 0 <= i < |Split(t)| ensures '\n' !in Split(t)[i] {
          if i > 0 {
            assert Split(t)[i] == rest[i - 1];
          }
        }
      } else {
        var ps := Split(t);
        assert ps == [[t[0]] + rest[0]] + rest[1..];
        if |rest| == 1 {
          assert Join(ps) == [t[0]] + rest[0];
        } else {
          assert ps[1..] == rest[1..];
          assert Join(rest) == rest[0] + "\n" + Join(rest[1..]);
          assert Join(ps) == [t[0]] + rest[0] + "\n" + Join(rest[1..]);
        }
        assert t == [t[0]] + t[1..];
        forall i | 0 <= i < |ps| ensures '\n' !in ps[i] {
          if i > 0 {
            assert ps[i] == rest[i];
          } else {
            assert ps[0] == [t[0]] + rest[0];
          }
        }
      }
    }
  }

  /**
   * `str::split_terminator('\n')`: the pieces of `split`, less the last one
   * when it is empty, so that a final line feed ends the last line instead of
   * starting an empty one, and the empty text has no pieces.
   */
  function SplitTerminator(t: string): seq<string> {
    var ps := Split(t);
    if ps[|ps| - 1] == [] then ps[..|ps| - 1] else ps
  }

  /** Each piece followed by a line feed, all concatenated. */
  function Terminated(ps: seq<string>): string {
    if ps == [] then [] else ps[0] + "\n" + Terminated(ps[1..])
  }

  lemma {:induction false} TerminatedJoin(ps: seq<string>)
    requires ps != []
    ensures Terminated(ps) == Join(ps) + "\n"
  {
    if |ps| > 1 {
      TerminatedJoin(ps[1..]);
    }
  }

  /**
   * The round trip of `split_terminator`: every piece ended by a line feed is
   * the text itself when it is empty or ends with a line feed, and the text
   * with a line feed added otherwise.  No piece holds a line feed.
   */
  lemma SplitTerminatorRoundTrip(t: string)
    ensures Terminated(SplitTerminator(t)) == if t == [] || t[|t| - 1] == '\n' then t else t + "\n"
    ensures forall i :: 0 <= i < |SplitTerminator(t)| ==> '\n' !in SplitTerminator(t)[i]
  {
    var ps := Split(t);
    SplitJoin(t);
    TerminatedJoin(ps);
    if ps[|ps| - 1] == [] {
      var qs := ps[..|ps| - 1];
      assert ps == qs + [[]];
      TerminatedAppend(qs, []);
      assert Terminated(qs) + "\n" == t + "\n";
      assert Terminated(qs) == (Terminated(qs) + "\n")[..|Terminated(qs)|];
      if t != [] {
        JoinLastEmpty(ps);
        assert t[|t| - 1] == Terminated(qs)[|Terminated(qs)| - 1];
      } else {
        assert qs == [];
      }
    } else {
      JoinLast(ps);
      assert t != [] && t[|t| - 1] != '\n';
    }
  }

  lemma {:induction false} TerminatedAppend(ps: seq<string>, p: string)
    ensures Terminated(ps + [p]) == Terminated(ps) + p + "\n"
  {
    if ps != [] {
      assert (ps + [p])[1..] == ps[1..] + [p];
      TerminatedAppend(ps[1..], p);
    } else {
      assert [p][1..] == [];
    }
  }

  /** Joined pieces whose last one is empty, and that are more than one, end with a line feed. */
  lemma {:induction false} JoinLastEmpty(ps: seq<string>)
    requires |ps| >= 2 && ps[|ps| - 1] == []
    ensures Join(ps) != [] && Join(ps)[|Join(ps)| - 1] == '\n'
  {
    if |ps| > 2 {
      JoinLastEmpty(ps[1..]);
    }
  }

  /** Joined pieces whose last one is not empty end with that piece's last character. */
  lemma {:induction false} JoinLast(ps: seq<string>)
    requires |ps| >= 1 && ps[|ps| - 1] != []
    ensures Join(ps) != [] && Join(ps)[|Join(ps)| - 1] == ps[|ps| - 1][|ps[|ps| - 1]| - 1]
  {
    if |ps| > 1 {
      JoinLast(ps[1..]);
    }
  }

  /** Whether a piece ends with a carriage return. */
  predicate HadR(p: string) {
    |p| > 0 && p[|p| - 1] == '\r'
  }

  /** The text of a line: its piece without the one trailing carriage return. */
  function StripCr(p: string): (s: string)
    ensures |s| + (if HadR(p) then 1 else 0) == |p|
    ensures s == p[..|s|]
  {
    if HadR(p) then p[..|p| - 1] else p
  }

  /**
   * Where the line of piece `i` starts in the text: past every earlier piece
   * and the line feed ending it.
   */
  function StartIndex(ps: seq<string>, i: nat): nat
    requires i <= |ps|
  {
    if i == 0 then 0 else StartIndex(ps, i - 1) + |ps[i - 1]| + 1
  }

  /**
   * The `start_index` that `set_text` gives line `i`: each line advances it
   * by the length of its piece plus one, and once more when the piece had a
   * carriage return, which the length of the piece already counts.
   */
  function StartIndexAsWritten(ps: seq<string>, i: nat): nat
    requires i <= |ps|
  {
    if i == 0 then 0
    else StartIndexAsWritten(ps, i - 1) + |ps[i - 1]| + 1 + (if HadR(ps[i - 1]) then 1 else 0)
  }

  /** The pieces lie in `Terminated(ps)` at their start indices, each followed by a line feed. */
  lemma {:induction false} PieceAt(ps: seq<string>, i: nat)
    requires i < |ps|
    ensures StartIndex(ps, i) + |ps[i]| < |Terminated(ps)|
    ensures Terminated(ps)[StartIndex(ps, i)..StartIndex(ps, i) + |ps[i]|] == ps[i]
    ensures Terminated(ps)[StartIndex(ps, i) + |ps[i]|] == '\n'
  {
    var s := StartIndex(ps, i);
    TerminatedPrefix(ps, i);
    var pre := Terminated(ps[..i]);
    var tail := Terminated(ps[i..]);
    assert tail == ps[i] + "\n" + Terminated(ps[i + 1..]) by {
      assert ps[i..][1..] == ps[i + 1..];
    }
    assert Terminated(ps)[s..s + |ps[i]|] == tail[..|ps[i]|];
  }

  /** `Terminated` of the first `i` pieces is `StartIndex(ps, i)` long, and the rest follows it. */
  lemma {:induction false} TerminatedPrefix(ps: seq<string>, i: nat)
    requires i <= |ps|
    ensures Terminated(ps) == Terminated(ps[..i]) + Terminated(ps[i..])
    ensures |Terminated(ps[..i])| == StartIndex(ps, i)
  {
    if i > 0 {
      TerminatedPrefix(ps, i - 1);
      assert ps[i - 1..] == [ps[i - 1]] + ps[i..];
      assert Terminated(ps[i - 1..]) == ps[i - 1] + "\n" + Terminated(ps[i..]);
      assert ps[..i] == ps[..i - 1] + [ps[i - 1]];
      TerminatedAppend(ps[..i - 1], ps[i - 1]);
    } else {
      assert ps[..0] == [] && ps[0..] == ps;
    }
  }

  /**
   * Each piece of `split_terminator` lies in the text at its start index, and
   * is followed there by a line feed or by the end of the text.
   */
  lemma StartIndexInText(t: string, ps: seq<string>, i: nat)
    requires ps == SplitTerminator(t) && i < |ps|
    ensures StartIndex(ps, i) + |ps[i]| <= |t|
    ensures t[StartIndex(ps, i)..StartIndex(ps, i) + |ps[i]|] == ps[i]
    ensures StartIndex(ps, i) + |ps[i]| == |t| || t[StartIndex(ps, i) + |ps[i]|] == '\n'
  {
    TerminatedCovers(t);
    var full, s, piece := Terminated(ps), StartIndex(ps, i), ps[i];
    assert s + |piece| < |full| && full[s..s + |piece|] == piece && full[s + |piece|] == '\n' by {
      PieceAt(ps, i);
    }
    PieceInPrefix(full, t, piece, s);
  }

  /** The pieces, each ended by a line feed, are the text and at most one more line feed. */
  lemma TerminatedCovers(t: string)
    ensures |t| <= |Terminated(SplitTerminator(t))| <= |t| + 1
    ensures Terminated(SplitTerminator(t))[..|t|] == t
  {
    SplitTerminatorRoundTrip(t);
    var full := Terminated(SplitTerminator(t));
    if !(t == [] || t[|t| - 1] == '\n') {
      assert full == t + "\n";
    }
  }

  /**
   * A piece found in `full` at `s`, followed by a line feed, lies at `s` in
   * any prefix `t` of `full` that only leaves out that line feed, if that.
   */
  lemma PieceInPrefix(full: string, t: string, piece: string, s: nat)
    requires s + |piece| < |full| && full[s..s + |piece|] == piece && full[s + |piece|] == '\n'
    requires |t| <= |full| <= |t| + 1 && full[..|t|] == t
    ensures s + |piece| <= |t|
    ensures t[s..s + |piece|] == piece
    ensures s + |piece| == |t| || t[s + |piece|] == '\n'
  {
    var e := s + |piece|;
    forall j | 0 <= j < |piece| ensures t[s + j] == piece[j] {
      assert t[s + j] == full[..|t|][s + j] == full[s + j];
      assert full[s + j] == full[s..e][j];
    }
    assert t[s..e] == piece;
    if e < |t| {
      assert t[e] == full[..|t|][e];
    }
  }

  /** `split` of a text that starts with a character. */
  lemma SplitCons(c: char, t: string)
    ensures Split([c] + t) == if c == '\n' then [[]] + Split(t) else [[c] + Split(t)[0]] + Split(t)[1..]
  {
    assert ([c] + t)[1..] == t;
  }

  /**
   * The `start_index` as written overshoots after a line that ended in CRLF:
   * in "a\r\nb" the second line starts at offset 3, but is given 4, which is
   * past the end of the text.
   */
  lemma StartIndexAsWrittenOvershoots()
    ensures var t := "a\r\nb";
            var ps := SplitTerminator(t);
            && ps == ["a\r", "b"]
            && StartIndex(ps, 1) == 3 && t[3..4] == "b"
            && StartIndexAsWritten(ps, 1) == 4 && |t| == 4
  {
    var t := "a\r\nb";
    SplitCons('b', []);
    assert "b" == ['b'] + [];
    assert Split("b") == ["b"];
    SplitCons('\n', "b");
    assert "\nb" == ['\n'] + "b";
    assert Split("\nb") == ["", "b"];
    SplitCons('\r', "\nb");
    assert "\r\nb" == ['\r'] + "\nb";
    assert ['\r'] + Split("\nb")[0] == "\r";
    assert Split("\r\nb") == ["\r", "b"];
    SplitCons('a', "\r\nb");
    assert t == ['a'] + "\r\nb";
    assert ['a'] + Split("\r\nb")[0] == "a\r";
    assert Split(t) == ["a\r", "b"];
    var ps := SplitTerminator(t);
    assert HadR(ps[0]);
  }

  /** Every line but the last advances `start_index` by its piece and its line feed. */
  lemma StartIndexStep(ps: seq<string>, i: nat)
    requires i < |ps|
    ensures StartIndex(ps, i + 1) == StartIndex(ps, i) + |StripCr(ps[i])| + 1 + (if HadR(ps[i]) then 1 else 0)
    ensures StartIndexAsWritten(ps, i + 1) - StartIndexAsWritten(ps, i) ==
            StartIndex(ps, i + 1) - StartIndex(ps, i) + (if HadR(ps[i]) then 1 else 0)
  {
  }

  /**
   * What is left of the text's attribute list after the first `i` lines have
   * been split off it: each line takes the length of its piece and its line
   * feed.
   */
  function Carved(v: AttrsListValue, ps: seq<string>, i: nat): AttrsListValue
    requires i <= |ps|
  {
    if i == 0 then v else Carved(v, ps, i - 1).SplitRight(|ps[i - 1]| + 1)
  }

  /** What is left after `i` lines is the attribute list moved down by the start of line `i`. */
  lemma {:induction false} CarvedLookup(v: AttrsListValue, ps: seq<string>, i: nat, x: nat)
    requires v.Valid() && i <= |ps|
    ensures Carved(v, ps, i).Valid() && Carved(v, ps, i).defaults == v.defaults
    ensures Carved(v, ps, i).GetSpan(x) == v.GetSpan(x + StartIndex(ps, i))
  {
    if i > 0 {
      var k := |ps[i - 1]| + 1;
      CarvedLookup(v, ps, i - 1, x + k);
      SplitRightLookup(Carved(v, ps, i - 1), k, x);
    }
  }

  /** The attribute list of line `i`: what `split_off` leaves of the carved list. */
  function LineAttrs(v: AttrsListValue, ps: seq<string>, i: nat): AttrsListValue
    requires i < |ps|
  {
    Carved(v, ps, i).SplitLeft(|StripCr(ps[i])| + 1 + (if HadR(ps[i]) then 1 else 0))
  }

  /**
   * Line `i` has the text's attributes from its start index on, over its piece
   * and its line feed, and the defaults past them.
   */
  lemma LineAttrsLookup(v: AttrsListValue, ps: seq<string>, i: nat, x: nat)
    requires v.Valid() && i < |ps|
    ensures LineAttrs(v, ps, i).Valid() && LineAttrs(v, ps, i).defaults == v.defaults
    ensures LineAttrs(v, ps, i).GetSpan(x) ==
            if x < |ps[i]| + 1 then v.GetSpan(x + StartIndex(ps, i)) else v.defaults.AsAttrs()
  {
    CarvedLookup(v, ps, i, x);
    var k := |StripCr(ps[i])| + 1 + (if HadR(ps[i]) then 1 else 0);
    assert k == |ps[i]| + 1;
    var c := Carved(v, ps, i);
    assert LineAttrs(v, ps, i) == c.SplitLeft(k);
    SplitLeftLookup(c, k, x);
  }

  /** The line record `set_text` makes of piece `i`. */
  function PieceLine(v: AttrsListValue, ps: seq<string>, i: nat): LineRecord
    requires i < |ps|
  {
    NewLine(StripCr(ps[i]), LineAttrs(v, ps, i), StartIndex(ps, i))
  }

  /** The line records of the first `n` pieces, in order. */
  function PieceLines(v: AttrsListValue, ps: seq<string>, n: nat): (r: seq<LineRecord>)
    requires n <= |ps|
    ensures |r| == n && forall i :: 0 <= i < n ==> r[i] == PieceLine(v, ps, i)
  {
    if n == 0 then [] else PieceLines(v, ps, n - 1) + [PieceLine(v, ps, n - 1)]
  }

  /**
   * The line records `set_text` makes of a text and its attribute list, before
   * any is shaped: one per piece, or a single empty line holding the whole
   * attribute list when there is no piece.
   */
  function TextLines(t: string, v: AttrsListValue): (lines: seq<LineRecord>)
    ensures |lines| >= 1
  {
    var ps := SplitTerminator(t);
    if ps == [] then [NewLine([], v, 0)]
    else PieceLines(v, ps, |ps|)
  }

  /**
   * Line record `l` is not shaped yet, holds no line feed, and lies in the
   * text `t` at its start index, followed by the end of the text, a line
   * feed, or a carriage return that the end of the text or a line feed
   * follows.
   */
  predicate LineInText(t: string, l: LineRecord) {
    var e := l.startIndex + |l.text|;
    && l.shape.None? && l.layout.None?
    && '\n' !in l.text
    && e <= |t| && t[l.startIndex..e] == l.text
    && (e == |t| || t[e] == '\n' || (t[e] == '\r' && (e + 1 == |t| || t[e + 1] == '\n')))
  }

  /**
   * The lines of a text hold no line feed, and each lies in the text at its
   * start index, followed by the end of the text, a line feed, or a carriage
   * return that the end of the text or a line feed follows.  None is shaped
   * yet.  (`TextLinesCount` says how many there are.)
   */
  lemma TextLinesSpec(t: string, v: AttrsListValue, i: nat)
    requires i < |TextLines(t, v)|
    ensures LineInText(t, TextLines(t, v)[i])
  {
    var ps := SplitTerminator(t);
    if ps != [] {
      assert TextLines(t, v)[i] == PieceLine(v, ps, i);
      PieceLineInText(t, v, ps, i);
    } else {
      TextLinesCount(t, v);
      assert TextLines(t, v)[i] == NewLine([], v, 0);
    }
  }

  /** The record of piece `i` lies in the text at its start index and ends at a line break. */
  lemma PieceLineInText(t: string, v: AttrsListValue, ps: seq<string>, i: nat)
    requires ps == SplitTerminator(t) && i < |ps|
    ensures LineInText(t, PieceLine(v, ps, i))
  {
    assert '\n' !in ps[i] by {
      SplitTerminatorRoundTrip(t);
    }
    StartIndexInText(t, ps, i);
    StrippedInText(t, ps[i], StartIndex(ps, i));
  }

  /** There is one line per piece, and one for the empty text. */
  lemma TextLinesCount(t: string, v: AttrsListValue)
    ensures |TextLines(t, v)| == if t == [] then 1 else |SplitTerminator(t)|
  {
    if t == [] {
      assert Split(t) == [[]];
    } else {
      SplitTerminatorRoundTrip(t);
      assert Terminated(SplitTerminator(t)) != [];
    }
  }

  /**
   * A piece that lies in the text at `st`, followed by a line feed or the end
   * of the text, leaves a line there that ends at one of the line breaks.
   */
  lemma StrippedInText(t: string, p: string, st: nat)
    requires st + |p| <= |t| && t[st..st + |p|] == p && '\n' !in p
    requires st + |p| == |t| || t[st + |p|] == '\n'
    ensures var s := StripCr(p);
            var e := st + |s|;
            && '\n' !in s
            && e <= |t| && t[st..e] == s
            && (e == |t| || t[e] == '\n' || (t[e] == '\r' && (e + 1 == |t| || t[e + 1] == '\n')))
  {
    var s := StripCr(p);
    forall j | 0 <= j < |s| ensures t[st..st + |s|][j] == s[j] && s[j] != '\n' {
      assert s[j] == p[j] == t[st + j];
      assert p[j] in p;
    }
    if HadR(p) {
      assert t[st + |s|] == p[|s|] == '\r';
    }
  }
}
