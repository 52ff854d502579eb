/**
 * Moments: immutable, numbered snapshots of a buffer's lines, built by
 * splitting text after each newline, with memoised whole-buffer views and
 * the mapping from a byte offset to a (line, rune) position.
 */
module Moments {
  import opened Wrappers
  import opened Runes
  import opened Utils
  import opened LineLayout

  /** strings.Index(s, "\n") for a single rune: the first index of c, or -1. */
  function IndexOf(s: Text, c: Rune): (i: int)
    ensures -1 <= i < |s|
    ensures i >= 0 ==> s[i] == c && c !in s[..i]
    ensures i == -1 ==> c !in s
  {
    if s == [] then -1
    else if s[0] == c then 0
    else
      var k := IndexOf(s[1..], c);
      assert s[1..][..k + 1] == s[1..k + 2];
      if k < 0 then -1 else k + 1
  }

  /** The pieces of a non-empty text: each ends just after a newline, the last one may have none. */
  function Chunks(s: Text): seq<Text>
    decreases |s|
  {
    if s == [] then []
    else
      var i := IndexOf(s, Newline);
      if i == -1 then [s] else [s[..i + 1]] + Chunks(s[i + 1..])
  }

  /** What splitLines returns: the chunks of s, or a single empty piece for empty s. */
  function Pieces(s: Text): seq<Text>
  {
    if s == [] then [[]] else Chunks(s)
  }

  /** The texts of ts, one after another. */
  function Join(ts: seq<Text>): Text
  {
    if ts == [] then [] else ts[0] + Join(ts[1..])
  }

  lemma {:induction false} JoinAppend(a: seq<Text>, b: seq<Text>)
    ensures Join(a + b) == Join(a) + Join(b)
    decreases |a|
  {
    if a == [] {
      assert a + b == b;
    } else {
      assert (a + b)[1..] == a[1..] + b;
      JoinAppend(a[1..], b);
    }
  }

  lemma JoinSnoc(ts: seq<Text>, k: nat)
    requires k < |ts|
    ensures Join(ts[..k + 1]) == Join(ts[..k]) + ts[k]
  {
    assert ts[..k + 1] == ts[..k] + [ts[k]];
    JoinAppend(ts[..k], [ts[k]]);
    assert Join([ts[k]]) == ts[k] + Join([]);
  }

  /** The piece ends in a newline. */
  predicate EndsAtNewline(p: Text)
  {
    |p| > 0 && p[|p| - 1] == Newline
  }

  /** The piece holds no newline except possibly as its last rune. */
  predicate NoInnerNewline(p: Text)
  {
    forall j :: 0 <= j < |p| - 1 ==> p[j] != Newline
  }

  /**
   * Pieces as splitLines cuts them: none empty, each holding a newline at
   * most as its last rune, and every one but the last ending in a newline.
   */
  predicate WellCut(c: seq<Text>)
  {
    && (forall k :: 0 <= k < |c| ==> c[k] != [] && NoInnerNewline(c[k]))
    && (forall k :: 0 <= k < |c| - 1 ==> EndsAtNewline(c[k]))
  }

  lemma WellCutCons(head: Text, c: seq<Text>)
    requires head != [] && NoInnerNewline(head) && EndsAtNewline(head) && WellCut(c)
    ensures WellCut([head] + c)
    ensures Join([head] + c) == head + Join(c)
  {
  }

  /**
   * splitLines: for empty text a single empty piece; otherwise pieces that
   * concatenate back to the text, are never empty, and each ends in the only
   * newline it holds, except that the last piece may hold no newline at all.
   */
  lemma PiecesProperties(s: Text)
    ensures s == [] ==> Pieces(s) == [[]]
    ensures |Pieces(s)| >= 1
    ensures Join(Pieces(s)) == s
    ensures s != [] ==> WellCut(Pieces(s))
    ensures forall k :: 0 <= k < |Pieces(s)| - 1 ==> EndsAtNewline(Pieces(s)[k])
    ensures forall k :: 0 <= k < |Pieces(s)| ==> NoInnerNewline(Pieces(s)[k])
  {
    if s != [] {
      ChunksProperties(s);
    } else {
      assert Join([[]]) == [];
    }
  }

  lemma {:induction false} ChunksProperties(s: Text)
    requires s != []
    ensures Join(Chunks(s)) == s
    ensures |Chunks(s)| >= 1
    ensures WellCut(Chunks(s))
    decreases |s|
  {
    var i := IndexOf(s, Newline);
    if i == -1 {
      assert Chunks(s) == [s];
      assert Join([s]) == s + Join([]);
    } else {
      var head, rest := s[..i + 1], s[i + 1..];
      assert s == head + rest;
      HeadPiece(s, i);
      if rest == [] {
        assert Chunks(s) == [head] + [];
        WellCutCons(head, []);
      } else {
        ChunksProperties(rest);
        assert Chunks(s) == [head] + Chunks(rest);
        WellCutCons(head, Chunks(rest));
      }
    }
  }

  /** The first piece runs up to and including the first newline. */
  lemma HeadPiece(s: Text, i: int)
    requires 0 <= i < |s| && s[i] == Newline && Newline !in s[..i]
    ensures NoInnerNewline(s[..i + 1]) && EndsAtNewline(s[..i + 1])
  {
  }

  /** splitLines: cut after each newline; a loop that takes one piece at a time. */
  method SplitLines(text: Text) returns (ret: seq<Text>)
    ensures ret == Pieces(text)
  {
    if text == [] {
      return [[]];
    }
    var s := text;
    ret := [];
    while |s| > 0
      invariant ret + Chunks(s) == Chunks(text)
      decreases |s|
    {
      var i := IndexOf(s, Newline);
      if i == -1 {
        assert Chunks(s) == [s];
        ret := ret + [s];
        return;
      }
      var head := s[..i + 1];
      ghost var rest := Chunks(s[i + 1..]);
      assert Chunks(s) == [head] + rest;
      assert ret + [head] + rest == ret + ([head] + rest);
      ret := ret + [head];
      s := s[i + 1..];
    }
    assert ret + [] == ret;
  }

  predicate EndsWithCR(p: Text)
  {
    |p| > 0 && p[|p| - 1] == CarriageReturn
  }

  /** strings.TrimSuffix(p, "\r"): a prefix of p, one rune shorter exactly when p ends in "\r". */
  function TrimCR(p: Text): (r: Text)
    ensures r <= p && |p| - 1 <= |r|
    ensures |r| < |p| <==> EndsWithCR(p)
  {
    if EndsWithCR(p) then p[..|p| - 1] else p
  }

  function TrimAll(ps: seq<Text>): (r: seq<Text>)
    ensures |r| == |ps| && forall k :: 0 <= k < |ps| ==> r[k] == TrimCR(ps[k])
  {
    seq(|ps|, k requires 0 <= k < |ps| => TrimCR(ps[k]))
  }

  /** Number of pieces that end in a carriage return: none exactly when no piece does. */
  function CountCR(ps: seq<Text>): (c: nat)
    ensures c <= |ps|
    ensures c == 0 <==> forall k :: 0 <= k < |ps| ==> !EndsWithCR(ps[k])
  {
    if ps == [] then 0 else CountCR(ps[..|ps| - 1]) + (if EndsWithCR(ps[|ps| - 1]) then 1 else 0)
  }

  const LF: Text := [Newline]
  const CRLF: Text := [CarriageReturn, Newline]

  /**
   * The line-break policy: "\r\n" exactly when the share of pieces that lost a
   * carriage return is above 0.4; with no pieces at all the share is infinite
   * when n > 0 and undefined (so not above 0.4) when n == 0.
   */
  function LineBreakFor(n: nat, total: nat): (r: Text)
    ensures r == LF || r == CRLF
    ensures total > 0 ==> (r == CRLF <==> (n as real) / (total as real) > 0.4)
    ensures total == 0 ==> (r == CRLF <==> n > 0)
  {
    ShareAbove(n, total);
    if 5 * n > 2 * total then CRLF else LF
  }

  /** The share test in integers: n / total > 0.4 exactly when 5n > 2 total. */
  lemma ShareAbove(n: nat, total: nat)
    ensures total > 0 ==> ((n as real) / (total as real) > 0.4 <==> 5 * n > 2 * total)
  {
    if total > 0 {
      var t := total as real;
      var q := (n as real) / t;
      var d := q - 0.4;
      assert d * t == (n as real) - 0.4 * t;
      PositiveProduct(d, t);
      PositiveProduct(-d, t);
    }
  }

  lemma PositiveProduct(x: real, y: real)
    requires y > 0.0
    ensures x > 0.0 ==> x * y > 0.0
  {
  }



  /**
   * Since every piece but the last ends in a newline, only the last piece can
   * end in a carriage return: at most one piece is ever trimmed.
   */
  lemma OnlyLastPieceEndsWithCR(s: Text)
    ensures forall k :: 0 <= k < |Pieces(s)| - 1 ==> !EndsWithCR(Pieces(s)[k])
    ensures CountCR(Pieces(s)) <= 1
  {
    PiecesProperties(s);
    var ps := Pieces(s);
    CountCRNoneBefore(ps, |ps| - 1);
    assert ps[..|ps| - 1 + 1] == ps;
  }

  lemma {:induction false} CountCRNoneBefore(ps: seq<Text>, k: nat)
    requires k <= |ps|
    requires forall j :: 0 <= j < k ==> !EndsWithCR(ps[j])
    ensures CountCR(ps[..k]) == 0
    ensures k < |ps| ==> CountCR(ps[..k + 1]) <= 1
  {
    if k > 0 {
      assert ps[..k][..k - 1] == ps[..k - 1];
      CountCRNoneBefore(ps, k - 1);
    }
    if k < |ps| {
      assert ps[..k + 1][..k] == ps[..k];
    }
  }

  /** The stored content is the text with at most one trailing carriage return removed. */
  lemma TrimmedContent(s: Text)
    ensures Join(TrimAll(Pieces(s))) == if EndsWithCR(s) then s[..|s| - 1] else s
  {
    PiecesProperties(s);
    OnlyLastPieceEndsWithCR(s);
    var ps := Pieces(s);
    var n := |ps| - 1;
    var init, last := ps[..n], ps[n];
    assert ps == init + [last];
    assert TrimAll(ps) == init + [TrimCR(last)];
    JoinTrimLast(init, last);
    assert s != [] ==> last != [];
  }

  /** Trimming the last piece trims the joined text. */
  lemma JoinTrimLast(init: seq<Text>, last: Text)
    ensures Join(init + [last]) == Join(init) + last
    ensures last != [] ==> Join(init + [last])[|Join(init + [last])| - 1] == last[|last| - 1]
    ensures Join(init + [TrimCR(last)]) == if EndsWithCR(last) then Join(init + [last])[..|Join(init + [last])| - 1] else Join(init + [last])
  {
    JoinAppend(init, [last]);
    JoinAppend(init, [TrimCR(last)]);
    assert Join([last]) == last + Join([]);
    assert Join([TrimCR(last)]) == TrimCR(last) + Join([]);
  }

  /**
   * As written, the "\r" of a "\r\n" line is never trimmed, because the
   * piece still ends in its "\n": a text whose every line ends in "\r\n"
   * keeps its carriage returns and is given the "\n" line break.
   */
  lemma CrlfTextReadAsLf()
    ensures var text: Text := [97, CarriageReturn, Newline, 98, CarriageReturn, Newline];
      && Pieces(text) == [[97, CarriageReturn, Newline], [98, CarriageReturn, Newline]]
      && Join(TrimAll(Pieces(text))) == text
      && LineBreakFor(CountCR(Pieces(text)), |Pieces(text)|) == LF
  {
    var text: Text := [97, CarriageReturn, Newline, 98, CarriageReturn, Newline];
    var l1: Text := [97, CarriageReturn, Newline];
    var l2: Text := [98, CarriageReturn, Newline];
    assert IndexOf(l2, Newline) == 2;
    assert l2[..3] == l2 && l2[3..] == [];
    assert Chunks(l2) == [l2] + Chunks([]);
    assert text[..3] == l1 && text[3..] == l2;
    assert IndexOf(text, Newline) == 2 by {
      assert text[1..] == [CarriageReturn, Newline, 98, CarriageReturn, Newline];
      assert text[2..] == [Newline, 98, CarriageReturn, Newline];
    }
    assert Chunks(text) == [l1] + Chunks(l2);
    var ps := [l1, l2];
    assert ps[..1] == [l1] && [l1][..0] == [];
    assert !EndsWithCR(l1) && !EndsWithCR(l2);
    assert CountCR([l1]) == 0;
    assert CountCR(ps) == 0;
    assert TrimAll(ps) == ps;
    PiecesProperties(text);
  }

  /** As written, a text of three or more lines is never given the "\r\n" line break. */
  lemma AsWrittenNeverCrlf(s: Text)
    requires |Pieces(s)| >= 3
    ensures LineBreakFor(CountCR(Pieces(s)), |Pieces(s)|) == LF
  {
    OnlyLastPieceEndsWithCR(s);
  }

  /** The piece ends in "\r\n". */
  predicate EndsWithCRLF(p: Text)
  {
    |p| >= 2 && p[|p| - 2] == CarriageReturn && p[|p| - 1] == Newline
  }

  /** The piece carries a carriage return at its line end: before the newline, or last. */
  predicate HasLineEndCR(p: Text)
  {
    EndsWithCRLF(p) || EndsWithCR(p)
  }

  /** The evident intent of the trimming: drop the "\r" of a "\r\n" ending, or a trailing "\r". */
  function TrimLineEnd(p: Text): (r: Text)
    ensures |r| == if HasLineEndCR(p) then |p| - 1 else |p|
  {
    if EndsWithCRLF(p) then p[..|p| - 2] + [Newline] else TrimCR(p)
  }

  function TrimLineEnds(ps: seq<Text>): (r: seq<Text>)
    ensures |r| == |ps| && forall k :: 0 <= k < |ps| ==> r[k] == TrimLineEnd(ps[k])
  {
    seq(|ps|, k requires 0 <= k < |ps| => TrimLineEnd(ps[k]))
  }

  /** Number of pieces that carry a carriage return at their line end. */
  function CountLineEndCR(ps: seq<Text>): nat
  {
    if ps == [] then 0 else CountLineEndCR(ps[..|ps| - 1]) + (if HasLineEndCR(ps[|ps| - 1]) then 1 else 0)
  }

  /** Reference for the intended content: every "\r\n" becomes "\n" and a final "\r" is dropped. */
  function NormalizeBreaks(s: Text): Text
  {
    if s == [] then []
    else if |s| >= 2 && s[0] == CarriageReturn && s[1] == Newline then [Newline] + NormalizeBreaks(s[2..])
    else if s == [CarriageReturn] then []
    else [s[0]] + NormalizeBreaks(s[1..])
  }

  /** With the intended trimming the stored content is the text with its line breaks normalised. */
  lemma IntendedContent(s: Text)
    ensures Join(TrimLineEnds(Pieces(s))) == NormalizeBreaks(s)
  {
    if s == [] {
      assert TrimLineEnds([[]]) == [[]];
      assert Join([[]]) == [];
    } else {
      ChunksNormalize(s);
    }
  }

  lemma {:induction false} ChunksNormalize(s: Text)
    requires s != []
    ensures Join(TrimLineEnds(Chunks(s))) == NormalizeBreaks(s)
    decreases |s|
  {
    var i := IndexOf(s, Newline);
    if i == -1 {
      assert Chunks(s) == [s];
      assert TrimLineEnds([s]) == [TrimLineEnd(s)];
      assert Join([TrimLineEnd(s)]) == TrimLineEnd(s) + Join([]);
      NormalizeLast(s);
    } else {
      var head, rest := s[..i + 1], s[i + 1..];
      assert s == head + rest;
      HeadPiece(s, i);
      NormalizePiece(head, rest);
      var c := Chunks(rest);
      assert Chunks(s) == [head] + c;
      JoinTrimCons(head, c);
      if rest == [] {
        assert c == [] && TrimLineEnds(c) == [];
      } else {
        ChunksNormalize(rest);
      }
    }
  }

  lemma JoinTrimCons(head: Text, c: seq<Text>)
    ensures Join(TrimLineEnds([head] + c)) == TrimLineEnd(head) + Join(TrimLineEnds(c))
  {
    var t := TrimLineEnds([head] + c);
    assert t == [TrimLineEnd(head)] + TrimLineEnds(c);
    assert t[1..] == TrimLineEnds(c);
  }

  /** A piece that ends in its only newline normalises on its own. */
  lemma {:induction false} NormalizePiece(p: Text, rest: Text)
    requires p != [] && NoInnerNewline(p) && EndsAtNewline(p)
    ensures NormalizeBreaks(p + rest) == TrimLineEnd(p) + NormalizeBreaks(rest)
    decreases |p|
  {
    if |p| == 1 {
      assert p == [Newline];
      NormalizeNewline(rest);
    } else if |p| == 2 && p[0] == CarriageReturn {
      assert p == CRLF;
      NormalizeCrlf(rest);
    } else {
      var q := p[1..];
      assert NoInnerNewline(q) by {
        forall j | 0 <= j < |q| - 1 ensures q[j] != Newline {
          assert q[j] == p[j + 1];
        }
      }
      NormalizePiece(q, rest);
      NormalizeCons(p, rest);
    }
  }

  lemma NormalizeNewline(rest: Text)
    ensures NormalizeBreaks([Newline] + rest) == TrimLineEnd([Newline]) + NormalizeBreaks(rest)
  {
    assert ([Newline] + rest)[1..] == rest;
  }

  /** The step of NormalizePiece: a first rune that starts no line break is kept by both sides. */
  lemma NormalizeCons(p: Text, rest: Text)
    requires |p| >= 2 && EndsAtNewline(p) && p[0] != Newline && !(|p| == 2 && p[0] == CarriageReturn)
    requires |p| > 2 ==> p[1] != Newline
    requires NormalizeBreaks(p[1..] + rest) == TrimLineEnd(p[1..]) + NormalizeBreaks(rest)
    ensures NormalizeBreaks(p + rest) == TrimLineEnd(p) + NormalizeBreaks(rest)
  {
    NormalizeStepBefore(p, rest);
    TrimLineEndStep(p);
    ConsAssoc(p[0], TrimLineEnd(p[1..]), NormalizeBreaks(rest));
  }

  lemma NormalizeStepBefore(p: Text, rest: Text)
    requires |p| >= 2 && !(p[0] == CarriageReturn && p[1] == Newline)
    ensures NormalizeBreaks(p + rest) == [p[0]] + NormalizeBreaks(p[1..] + rest)
  {
    var s := p + rest;
    assert s[0] == p[0] && s[1] == p[1] && s[1..] == p[1..] + rest;
    NormalizeStep(s);
  }

  lemma ConsAssoc(x: Rune, a: Text, b: Text)
    ensures [x] + (a + b) == ([x] + a) + b
  {
  }

  lemma NormalizeCrlf(rest: Text)
    ensures NormalizeBreaks(CRLF + rest) == TrimLineEnd(CRLF) + NormalizeBreaks(rest)
  {
  }

  /** Away from a "\r\n" pair and a lone final "\r", normalising keeps the first rune. */
  lemma NormalizeStep(s: Text)
    requires s != [] && s != [CarriageReturn]
    requires !(|s| >= 2 && s[0] == CarriageReturn && s[1] == Newline)
    ensures NormalizeBreaks(s) == [s[0]] + NormalizeBreaks(s[1..])
  {
  }

  /** Trimming the line end of a piece of two or more runes keeps its first rune. */
  lemma TrimLineEndStep(p: Text)
    requires |p| >= 2 && EndsAtNewline(p) && !(|p| == 2 && p[0] == CarriageReturn)
    ensures TrimLineEnd(p) == [p[0]] + TrimLineEnd(p[1..])
  {
  }

  /** The last piece, without a newline, normalises on its own. */
  lemma {:induction false} NormalizeLast(p: Text)
    requires Newline !in p
    ensures NormalizeBreaks(p) == TrimLineEnd(p)
    decreases |p|
  {
    if p != [] && p != [CarriageReturn] {
      assert p[0] in p;
      assert |p| >= 2 ==> p[1] in p;
      NormalizeStep(p);
      assert Newline !in p[1..];
      NormalizeLast(p[1..]);
      TrimCRStep(p);
    }
  }

  /** Trimming a trailing "\r" keeps the first rune of a text without newlines. */
  lemma TrimCRStep(p: Text)
    requires p != [] && p != [CarriageReturn] && Newline !in p
    ensures TrimLineEnd(p) == [p[0]] + TrimLineEnd(p[1..])
  {
  }

  lemma {:induction false} CountAllLineEndCR(ps: seq<Text>)
    requires forall k :: 0 <= k < |ps| ==> HasLineEndCR(ps[k])
    ensures CountLineEndCR(ps) == |ps|
    decreases |ps|
  {
    if ps != [] {
      CountAllLineEndCR(ps[..|ps| - 1]);
    }
  }

  /** With the intended count, a text whose every line ends in "\r\n" is given the "\r\n" line break. */
  lemma IntendedCrlfText(s: Text)
    requires forall k :: 0 <= k < |Pieces(s)| ==> HasLineEndCR(Pieces(s)[k])
    ensures LineBreakFor(CountLineEndCR(Pieces(s)), |Pieces(s)|) == CRLF
  {
    CountAllLineEndCR(Pieces(s));
    PiecesProperties(s);
  }

  /** A position in a moment: line number and rune offset in the line. */
  datatype Position = Position(line: int, cell: int)

  /** Byte length of the lines' contents together. */
  function TotalBytes(cs: seq<Text>): nat
  {
    if cs == [] then 0 else TotalBytes(cs[..|cs| - 1]) + Utf8Len(cs[|cs| - 1])
  }

  lemma {:induction false} TotalBytesMonotone(cs: seq<Text>, i: nat, j: nat)
    requires i <= j <= |cs|
    ensures TotalBytes(cs[..i]) <= TotalBytes(cs[..j])
    decreases j
  {
    if i < j {
      assert cs[..j][..j - 1] == cs[..j - 1];
      TotalBytesMonotone(cs, i, j - 1);
    }
  }

  /** The byte count of the lines is the length of the UTF-8 form of their concatenation. */
  lemma {:induction false} TotalBytesIsEncodedLength(cs: seq<Text>)
    ensures TotalBytes(cs) == |Encode(Join(cs))|
    decreases |cs|
  {
    if cs != [] {
      var n := |cs| - 1;
      var a := Join(cs[..n]);
      TotalBytesIsEncodedLength(cs[..n]);
      EncodeLength(a);
      JoinSnoc(cs, n);
      assert cs[..n + 1] == cs;
      Utf8LenAppend(a, cs[n]);
      EncodeLength(Join(cs));
    }
  }

  /** (line, cell) names the rune whose UTF-8 bytes hold byte number offset of the lines cs. */
  ghost predicate Holds(cs: seq<Text>, offset: int, line: int, cell: int)
  {
    && 0 <= line < |cs|
    && 0 <= cell < |cs[line]|
    && TotalBytes(cs[..line]) + Utf8Len(cs[line][..cell]) <= offset
    && offset < TotalBytes(cs[..line]) + Utf8Len(cs[line][..cell + 1])
  }

  /** At most one position holds a given byte: the byte ranges of the runes do not overlap. */
  lemma PositionUnique(cs: seq<Text>, offset: int, l1: int, c1: int, l2: int, c2: int)
    requires Holds(cs, offset, l1, c1) && Holds(cs, offset, l2, c2)
    ensures l1 == l2 && c1 == c2
  {
    if l1 < l2 {
      BytesBeforeLine(cs, l1, c1, l2);
    } else if l2 < l1 {
      BytesBeforeLine(cs, l2, c2, l1);
    } else if c1 < c2 {
      Utf8LenPrefix(cs[l1], c1 + 1, c2);
    } else if c2 < c1 {
      Utf8LenPrefix(cs[l1], c2 + 1, c1);
    }
  }

  /** The bytes of rune c of line a all come before line b. */
  lemma BytesBeforeLine(cs: seq<Text>, a: nat, c: nat, b: nat)
    requires a < b <= |cs| && c < |cs[a]|
    ensures TotalBytes(cs[..a]) + Utf8Len(cs[a][..c + 1]) <= TotalBytes(cs[..b])
  {
    Utf8LenPrefix(cs[a], c + 1, |cs[a]|);
    assert cs[a][..|cs[a]|] == cs[a];
    assert cs[..a + 1][..a] == cs[..a];
    TotalBytesMonotone(cs, a + 1, b);
  }

  /** The contents of the given lines, one per line. */
  function ContentsOf(lines: seq<Line>): (cs: seq<Text>)
    ensures |cs| == |lines| && forall k :: 0 <= k < |lines| ==> cs[k] == lines[k].content
  {
    seq(|lines|, k requires 0 <= k < |lines| => lines[k].content)
  }

  /** The process-wide moment counter, atomically incremented by NewMoment. */
  class MomentIds {
    var last: int

    constructor ()
      ensures last == 0
    {
      last := 0;
    }

    method Next() returns (id: int)
      modifies this
      ensures last == old(last) + 1 && id == last
    {
      last := last + 1;
      id := last;
    }
  }

  class Moment {
    const id: int
    const previous: Moment?
    /** strings.ToLower, the library function GetLowerContent applies. */
    const toLower: Text -> Text
    var lines: seq<Line>

    var contentDone: bool
    var content: Text
    var lowerDone: bool
    var lowerContent: Text
    var bytesDone: bool
    var bytes: seq<Byte>

    /** The contents of the lines, one per line. */
    function Contents(): (cs: seq<Text>)
      reads this`lines
      ensures |cs| == |lines| && forall k :: 0 <= k < |lines| ==> cs[k] == lines[k].content
    {
      ContentsOf(lines)
    }

    /** The memoised views, once filled in, agree with the lines. */
    ghost predicate Valid()
      reads this
    {
      && (contentDone ==> content == Join(Contents()))
      && (lowerDone ==> lowerContent == toLower(Join(Contents())))
      && (bytesDone ==> bytes == Encode(Join(Contents())))
    }

    /** Every line is a valid Line for the width table kindOf. */
    ghost predicate LinesValid(kindOf: Rune -> WidthKind)
      reads this, lines
    {
      forall k :: 0 <= k < |lines| ==> lines[k].Valid(kindOf)
    }

    constructor (id: int, previous: Moment?, toLower: Text -> Text)
      ensures this.id == id && this.previous == previous && this.toLower == toLower
      ensures lines == [] && !contentDone && !lowerDone && !bytesDone
      ensures Valid()
    {
      this.id := id;
      this.previous := previous;
      this.toLower := toLower;
      lines := [];
      contentDone, lowerDone, bytesDone := false, false, false;
      content, lowerContent, bytes := [], [], [];
    }

    /** NumLines: one line per content of the moment. */
    function NumLines(): (n: nat)
      reads this, lines
      ensures n == |Contents()|
    {
      |lines|
    }

    /** GetLine: nil out of range; otherwise the i-th line, laid out. */
    method GetLine(cache: WidthCache, i: int) returns (line: Line?)
      requires cache.Valid() && LinesValid(cache.kindOf)
      modifies cache`widths, if 0 <= i < |lines| then {lines[i]} else {}
      ensures cache.Valid() && LinesValid(cache.kindOf)
      ensures line == null <==> i < 0 || i >= |lines|
      ensures line != null ==> line == lines[i] && line.initialized && line.LaidOut(cache.kindOf)
    {
      if i < 0 {
        return null;
      }
      if i >= NumLines() {
        return null;
      }
      line := lines[i];
      line.Init(cache);
    }

    /** GetContent: the concatenated line contents, computed on the first call only. */
    method GetContent() returns (s: Text)
      requires Valid()
      modifies this`contentDone, this`content
      ensures Valid() && contentDone
      ensures s == Join(Contents())
      ensures old(contentDone) ==> unchanged(this)
    {
      if !contentDone {
        var cs := Contents();
        var b: Text := [];
        for k := 0 to |lines|
          invariant b == Join(cs[..k])
        {
          JoinSnoc(cs, k);
          b := b + lines[k].content;
        }
        assert cs[..|lines|] == cs;
        content := b;
        contentDone := true;
      }
      s := content;
    }

    /** GetLowerContent: strings.ToLower of the content, computed on the first call only. */
    method GetLowerContent() returns (s: Text)
      requires Valid()
      modifies this`contentDone, this`content, this`lowerDone, this`lowerContent
      ensures Valid() && lowerDone
      ensures s == toLower(Join(Contents()))
      ensures old(lowerDone) ==> unchanged(this)
    {
      if !lowerDone {
        var c := GetContent();
        lowerContent := toLower(c);
        lowerDone := true;
      }
      s := lowerContent;
    }

    /** GetBytes: the UTF-8 bytes of the line contents, computed on the first call only. */
    method GetBytes() returns (b: seq<Byte>)
      requires Valid()
      modifies this`bytesDone, this`bytes
      ensures Valid() && bytesDone
      ensures b == Encode(Join(Contents()))
      ensures |b| == TotalBytes(Contents())
      ensures old(bytesDone) ==> unchanged(this)
    {
      var cs := Contents();
      if !bytesDone {
        var buf: seq<Byte> := [];
        for k := 0 to |lines|
          invariant buf == Encode(Join(cs[..k]))
        {
          JoinSnoc(cs, k);
          EncodeAppend(Join(cs[..k]), cs[k]);
          buf := buf + Encode(lines[k].content);
        }
        assert cs[..|lines|] == cs;
        bytes := buf;
        bytesDone := true;
      }
      b := bytes;
      TotalBytesIsEncodedLength(cs);
    }

    /**
     * ByteOffsetToPosition: the line and rune holding byte number offset of the
     * content; an offset past the end gives (NumLines(), 0), a negative one (0, 0).
     */
    method ByteOffsetToPosition(cache: WidthCache, offset: int) returns (pos: Position)
      requires cache.Valid() && LinesValid(cache.kindOf)
      modifies cache`widths, lines
      ensures cache.Valid() && LinesValid(cache.kindOf)
      ensures offset < 0 ==> pos == Position(0, 0)
      ensures 0 <= offset < TotalBytes(Contents()) ==> Holds(Contents(), offset, pos.line, pos.cell)
      ensures offset >= TotalBytes(Contents()) ==> pos == Position(|lines|, 0)
    {
      ghost var cs := Contents();
      ghost var kindOf := cache.kindOf;
      var off := offset;
      pos := Position(0, 0);
      for i := 0 to |lines|
        invariant cache.Valid() && LinesValid(kindOf) && cs == Contents()
        invariant offset < 0 ==> off == offset && pos == Position(0, 0)
        invariant offset >= 0 ==> off == offset - TotalBytes(cs[..i]) && off >= 0 && pos == Position(i, 0)
      {
        var line := lines[i];
        LineSpan(cs, i);
        if off < Utf8Len(line.content) {
          var found, cell := LocateInLine(cache, line, off);
          if found {
            if offset >= 0 {
              CellHolds(cs, i, offset, cell);
            }
            pos := pos.(cell := cell);
            return;
          }
        } else {
          off := off - Utf8Len(line.content);
          pos := pos.(line := i + 1);
        }
      }
      assert cs[..|lines|] == cs;
    }
  }

  /** One line of ByteOffsetToPosition: lay the line out, then scan its cells for byte off. */
  method LocateInLine(cache: WidthCache, line: Line, off: int) returns (found: bool, cell: int)
    requires cache.Valid() && line.Valid(cache.kindOf)
    modifies cache`widths, line
    ensures cache.Valid() && line.Valid(cache.kindOf)
    ensures off < 0 ==> found == (line.content != []) && (found ==> cell == 0)
    ensures 0 <= off < Utf8Len(line.content) ==>
      found && 0 <= cell < |line.content| &&
      Utf8Len(line.content[..cell]) <= off < Utf8Len(line.content[..cell + 1])
  {
    line.Init(cache);
    found, cell := ScanCells(line.cells, off, line.content);
  }

  /**
   * The cell loop of ByteOffsetToPosition: the rune offset of the cell whose
   * bytes hold byte off of the line; a negative off stops at the first cell.
   */
  method ScanCells(cells: seq<Cell>, off: int, ghost c: Text) returns (found: bool, cell: int)
    requires |cells| == |c|
    requires forall j :: 0 <= j < |cells| ==> cells[j].len == RuneLen(c[j]) && cells[j].runeOffset == j
    ensures off < 0 ==> found == (c != []) && (found ==> cell == 0)
    ensures 0 <= off < Utf8Len(c) ==> found && 0 <= cell < |c| && Utf8Len(c[..cell]) <= off < Utf8Len(c[..cell + 1])
  {
    var rest := off;
    for j := 0 to |cells|
      invariant off < 0 ==> rest == off && j == 0
      invariant off >= 0 ==> rest == off - Utf8Len(c[..j]) && rest >= 0
    {
      RuneSpan(c, j);
      if rest < cells[j].len {
        return true, cells[j].runeOffset;
      }
      rest := rest - cells[j].len;
    }
    assert c[..|cells|] == c;
    return false, 0;
  }

  /** The byte span of line i follows the lines before it and ends within the total. */
  lemma LineSpan(cs: seq<Text>, i: nat)
    requires i < |cs|
    ensures TotalBytes(cs[..i + 1]) == TotalBytes(cs[..i]) + Utf8Len(cs[i]) <= TotalBytes(cs)
  {
    assert cs[..i + 1][..i] == cs[..i];
    TotalBytesMonotone(cs, i + 1, |cs|);
    assert cs[..|cs|] == cs;
  }

  /** A cell found by ScanCells in line i, at the line's local offset, holds the global offset. */
  lemma CellHolds(cs: seq<Text>, i: nat, offset: int, cell: int)
    requires i < |cs| && 0 <= cell < |cs[i]|
    requires Utf8Len(cs[i][..cell]) <= offset - TotalBytes(cs[..i]) < Utf8Len(cs[i][..cell + 1])
    ensures Holds(cs, offset, i, cell)
  {
  }

  /** The byte span of rune j follows the runes before it. */
  lemma RuneSpan(c: Text, j: nat)
    requires j < |c|
    ensures Utf8Len(c[..j + 1]) == Utf8Len(c[..j]) + RuneLen(c[j])
  {
    assert c[..j + 1][..j] == c[..j];
  }

  /** NewMoment: a fresh moment numbered by the counter, newer than its predecessor. */
  method NewMoment(ids: MomentIds, prev: Moment?, toLower: Text -> Text) returns (m: Moment)
    requires prev != null ==> prev.id <= ids.last
    modifies ids
    ensures fresh(m) && m.id == ids.last == old(ids.last) + 1
    ensures m.previous == prev && (prev != null ==> prev.id < m.id)
    ensures m.toLower == toLower && m.lines == [] && m.Valid()
    ensures !m.contentDone && !m.lowerDone && !m.bytesDone
  {
    var id := ids.Next();
    m := new Moment(id, prev, toLower);
  }

  /**
   * The trimming loop of NewMomentFromBytes as written: strings.TrimSuffix(piece, "\r")
   * on each piece, counting the pieces it shortened.
   */
  method TrimPiecesAsWritten(ps: seq<Text>) returns (cs: seq<Text>, n: nat)
    ensures cs == TrimAll(ps) && n == CountCR(ps)
  {
    cs := ps;
    n := 0;
    for i := 0 to |cs|
      invariant |cs| == |ps|
      invariant forall k :: 0 <= k < i ==> cs[k] == TrimCR(ps[k])
      invariant forall k :: i <= k < |ps| ==> cs[k] == ps[k]
      invariant n == CountCR(ps[..i])
    {
      CountCRSnoc(ps, i);
      var noCR := TrimCR(cs[i]);
      if |noCR| != |cs[i]| {
        cs := cs[i := noCR];
        n := n + 1;
      }
    }
    assert ps[..|ps|] == ps;
    TrimAllPointwise(ps, cs);
  }

  lemma CountCRSnoc(ps: seq<Text>, i: nat)
    requires i < |ps|
    ensures CountCR(ps[..i + 1]) == CountCR(ps[..i]) + if |TrimCR(ps[i])| != |ps[i]| then 1 else 0
  {
    assert ps[..i + 1][..i] == ps[..i];
  }

  lemma TrimAllPointwise(ps: seq<Text>, cs: seq<Text>)
    requires |cs| == |ps| && forall k :: 0 <= k < |ps| ==> cs[k] == TrimCR(ps[k])
    ensures cs == TrimAll(ps)
  {
  }

  /** The corrected trimming loop: trim each line-end carriage return, counting the pieces that lost one. */
  method TrimPieces(ps: seq<Text>) returns (cs: seq<Text>, n: nat)
    ensures cs == TrimLineEnds(ps) && n == CountLineEndCR(ps)
  {
    cs := ps;
    n := 0;
    for i := 0 to |cs|
      invariant |cs| == |ps|
      invariant forall k :: 0 <= k < i ==> cs[k] == TrimLineEnd(ps[k])
      invariant forall k :: i <= k < |ps| ==> cs[k] == ps[k]
      invariant n == CountLineEndCR(ps[..i])
    {
      assert ps[..i + 1][..i] == ps[..i];
      var noCR := TrimLineEnd(cs[i]);
      if |noCR| != |cs[i]| {
        cs := cs[i := noCR];
        n := n + 1;
      }
    }
    assert ps[..|ps|] == ps;
  }

  /** Fresh, not yet laid out lines holding the given contents. */
  method NewLines(cs: seq<Text>, config: BufferConfig) returns (lines: seq<Line>)
    ensures |lines| == |cs|
    ensures forall k :: 0 <= k < |cs| ==>
              && fresh(lines[k]) && lines[k].content == cs[k] && lines[k].config == config
              && !lines[k].initialized && lines[k].displayWidth == 0
  {
    lines := [];
    for i := 0 to |cs|
      invariant |lines| == i
      invariant forall k :: 0 <= k < i ==>
                  && fresh(lines[k]) && lines[k].content == cs[k] && lines[k].config == config
                  && !lines[k].initialized && lines[k].displayWidth == 0
    {
      var line := new Line(cs[i], config);
      lines := lines + [line];
    }
  }

  /**
   * NewMomentFromBytes: split the text into lines, trim the line-end carriage
   * return of each piece, choose the line break from the share of trimmed
   * pieces, and hand the lines to a fresh moment with no predecessor.
   */
  method NewMomentFromBytes(ids: MomentIds, text: Text, config: BufferConfig, toLower: Text -> Text)
    returns (moment: Moment, linebreak: Text)
    modifies ids
    ensures fresh(moment) && moment.id == ids.last == old(ids.last) + 1 && moment.previous == null
    ensures moment.Contents() == TrimLineEnds(Pieces(text))
    ensures linebreak == LineBreakFor(CountLineEndCR(Pieces(text)), |Pieces(text)|)
    ensures forall k :: 0 <= k < |moment.lines| ==>
              fresh(moment.lines[k]) && moment.lines[k].config == config && !moment.lines[k].initialized
    ensures moment.Valid() && forall kindOf :: moment.LinesValid(kindOf)
    ensures !moment.contentDone && !moment.lowerDone && !moment.bytesDone && moment.toLower == toLower
  {
    var pieces := SplitLines(text);
    var lineContents, n := TrimPieces(pieces);
    moment, linebreak := MomentOfContents(ids, lineContents, n, config, toLower);
  }

  /** NewMomentFromBytes as written: the same steps with strings.TrimSuffix(piece, "\r") as the trim. */
  method NewMomentFromBytesAsWritten(ids: MomentIds, text: Text, config: BufferConfig, toLower: Text -> Text)
    returns (moment: Moment, linebreak: Text)
    modifies ids
    ensures fresh(moment) && moment.id == ids.last == old(ids.last) + 1 && moment.previous == null
    ensures moment.Contents() == TrimAll(Pieces(text))
    ensures linebreak == LineBreakFor(CountCR(Pieces(text)), |Pieces(text)|)
    ensures forall k :: 0 <= k < |moment.lines| ==>
              fresh(moment.lines[k]) && moment.lines[k].config == config && !moment.lines[k].initialized
    ensures moment.Valid() && forall kindOf :: moment.LinesValid(kindOf)
    ensures !moment.contentDone && !moment.lowerDone && !moment.bytesDone && moment.toLower == toLower
  {
    var pieces := SplitLines(text);
    var lineContents, n := TrimPiecesAsWritten(pieces);
    moment, linebreak := MomentOfContents(ids, lineContents, n, config, toLower);
  }

  /** The tail of NewMomentFromBytes: the line-break choice, the lines, and the moment holding them. */
  method MomentOfContents(ids: MomentIds, cs: seq<Text>, n: nat, config: BufferConfig, toLower: Text -> Text)
    returns (moment: Moment, linebreak: Text)
    modifies ids
    ensures fresh(moment) && moment.id == ids.last == old(ids.last) + 1 && moment.previous == null
    ensures moment.Contents() == cs
    ensures linebreak == LineBreakFor(n, |cs|)
    ensures forall k :: 0 <= k < |moment.lines| ==>
              fresh(moment.lines[k]) && moment.lines[k].config == config && !moment.lines[k].initialized
    ensures moment.Valid() && forall kindOf :: moment.LinesValid(kindOf)
    ensures !moment.contentDone && !moment.lowerDone && !moment.bytesDone && moment.toLower == toLower
  {
    linebreak := LF;
    if 5 * n > 2 * |cs| {
      linebreak := CRLF;
    }
    var lines := NewLines(cs, config);
    moment := NewMoment(ids, null, toLower);
    moment.lines := lines;
  }
}
