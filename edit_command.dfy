/**
 * Indentation queries of the editing commands: the leading whitespace of a
 * line, and the indentation to give a new line from the nearest non-blank
 * lines above and below it.
 */
module EditCommand {
  import opened Wrappers
  import opened Runes
  import opened Utils
  import opened LineLayout
  import opened Moments

  /** The first index from j on whose cell starts at display column bound or later, or |c|. */
  function LeadLen(kindOf: Rune -> WidthKind, cfg: BufferConfig, c: Text, bound: int, j: nat): (p: nat)
    requires j <= |c|
    ensures j <= p <= |c|
    ensures forall i :: j <= i < p ==> DisplaySum(kindOf, cfg, c[..i]) < bound
    ensures p < |c| ==> DisplaySum(kindOf, cfg, c[..p]) >= bound
    decreases |c| - j
  {
    if j == |c| || DisplaySum(kindOf, cfg, c[..j]) >= bound then j
    else LeadLen(kindOf, cfg, c, bound, j + 1)
  }

  /** The indentation of a line: the runes of the cells left of its first non-space rune. */
  function Indent(kindOf: Rune -> WidthKind, cfg: BufferConfig, c: Text): Text
  {
    match NonSpaceOffset(kindOf, cfg, c)
    case None => []
    case Some(n) => c[..LeadLen(kindOf, cfg, c, n, 0)]
  }

  /**
   * The indentation is a prefix of the line made of whitespace, empty for a
   * blank line; with tabs at least one column wide it is exactly the run of
   * whitespace before the first non-space rune.
   */
  lemma IndentIsLeadingSpace(kindOf: Rune -> WidthKind, cfg: BufferConfig, c: Text)
    ensures var r := Indent(kindOf, cfg, c);
      && |r| <= |c| && r == c[..|r|]
      && (forall k :: 0 <= k < |r| ==> IsSpace(r[k]))
      && (AllSpace(c) ==> r == [])
      && (cfg.tabWidth >= 1 && !AllSpace(c) ==> |r| == FirstNonSpace(c).value)
  {
    match FirstNonSpace(c)
    case None =>
    case Some(k) =>
      var n := DisplaySum(kindOf, cfg, c[..k]);
      var p := LeadLen(kindOf, cfg, c, n, 0);
      assert p <= k;
      if cfg.tabWidth >= 1 && p < k {
        DisplaySumStrict(kindOf, cfg, c, p, k);
      }
  }

  /** With tabs at least one column wide every rune takes a column, so offsets strictly grow. */
  lemma {:induction false} DisplaySumStrict(kindOf: Rune -> WidthKind, cfg: BufferConfig, s: Text, i: nat, j: nat)
    requires cfg.tabWidth >= 1
    requires i < j <= |s|
    ensures DisplaySum(kindOf, cfg, s[..i]) < DisplaySum(kindOf, cfg, s[..j])
    decreases j
  {
    assert s[..j][..j - 1] == s[..j - 1];
    if i < j - 1 {
      DisplaySumStrict(kindOf, cfg, s, i, j - 1);
    }
  }

  /** The first non-blank line at or above l, stopping at the first line that does not exist. */
  function UpHit(kindOf: Rune -> WidthKind, lines: seq<Line>, l: int): (r: Option<nat>)
    ensures r.Some? ==> r.value <= l && r.value < |lines|
    decreases l + 1
  {
    if l < 0 || l >= |lines| then None
    else if NonSpaceOffset(kindOf, lines[l].config, lines[l].content).None? then UpHit(kindOf, lines, l - 1)
    else Some(l)
  }

  /** The first non-blank line at or below l, stopping at the first line that does not exist. */
  function DownHit(kindOf: Rune -> WidthKind, lines: seq<Line>, l: int): (r: Option<nat>)
    ensures r.Some? ==> l <= r.value < |lines|
    decreases |lines| - l
  {
    if l < 0 || l >= |lines| then None
    else if NonSpaceOffset(kindOf, lines[l].config, lines[l].content).None? then DownHit(kindOf, lines, l + 1)
    else Some(l)
  }

  /** A line whose content is not all whitespace. */
  predicate NonBlank(lines: seq<Line>, l: int)
  {
    0 <= l < |lines| && !AllSpace(lines[l].content)
  }

  /**
   * The upward scan finds the nearest non-blank line at or above l with only
   * blank lines between; it finds none exactly when l is out of range or
   * every line from l up to the first is blank.
   */
  lemma {:induction false} UpHitNearest(kindOf: Rune -> WidthKind, lines: seq<Line>, l: int)
    ensures var r := UpHit(kindOf, lines, l);
      && (r.Some? ==> NonBlank(lines, r.value) && forall k :: r.value < k <= l ==> !NonBlank(lines, k))
      && (r.None? <==> (l < 0 || l >= |lines| || forall k :: 0 <= k <= l ==> !NonBlank(lines, k)))
    decreases l + 1
  {
    if 0 <= l < |lines| {
      NonSpaceOffsetCell(kindOf, lines[l].config, lines[l].content);
      UpHitNearest(kindOf, lines, l - 1);
      if !NonBlank(lines, l) {
        assert (forall k :: 0 <= k <= l ==> !NonBlank(lines, k))
           <==> (forall k :: 0 <= k <= l - 1 ==> !NonBlank(lines, k));
      }
    }
  }

  /**
   * The downward scan finds the nearest non-blank line at or below l with
   * only blank lines between; it finds none exactly when l is out of range
   * or every line from l to the last is blank.
   */
  lemma {:induction false} DownHitNearest(kindOf: Rune -> WidthKind, lines: seq<Line>, l: int)
    ensures var r := DownHit(kindOf, lines, l);
      && (r.Some? ==> NonBlank(lines, r.value) && forall k :: l <= k < r.value ==> !NonBlank(lines, k))
      && (r.None? <==> (l < 0 || l >= |lines| || forall k :: l <= k < |lines| ==> !NonBlank(lines, k)))
    decreases |lines| - l
  {
    if 0 <= l < |lines| {
      NonSpaceOffsetCell(kindOf, lines[l].config, lines[l].content);
      DownHitNearest(kindOf, lines, l + 1);
      if !NonBlank(lines, l) {
        assert (forall k :: l <= k < |lines| ==> !NonBlank(lines, k))
           <==> (forall k :: l + 1 <= k < |lines| ==> !NonBlank(lines, k));
      }
    }
  }

  /** What one scan contributes: the indent width and runes of the line hit, when its indent is positive. */
  function Side(kindOf: Rune -> WidthKind, lines: seq<Line>, hit: Option<nat>): (int, Text)
    requires hit.Some? ==> hit.value < |lines|
  {
    match hit
    case None => (0, [])
    case Some(l) => LineSide(kindOf, lines[l].config, lines[l].content)
  }

  /** The indent width and runes one non-blank line offers, (0, "") unless its indent is positive. */
  function LineSide(kindOf: Rune -> WidthKind, cfg: BufferConfig, c: Text): (int, Text)
  {
    match NonSpaceOffset(kindOf, cfg, c)
    case None => (0, [])
    case Some(n) => if n > 0 then (n, Indent(kindOf, cfg, c)) else (0, [])
  }

  /** getAdjacentIndent: the upward runes if their indent is strictly wider, otherwise the downward runes. */
  function AdjacentIndent(kindOf: Rune -> WidthKind, lines: seq<Line>, up: int, down: int): Text
  {
    var u := Side(kindOf, lines, UpHit(kindOf, lines, up));
    var d := Side(kindOf, lines, DownHit(kindOf, lines, down));
    if u.0 > d.0 then u.1 else d.1
  }

  /**
   * The adjacent indent is the indentation of one of the two lines the scans
   * hit, whitespace only, and empty when neither hit line is indented.
   */
  lemma AdjacentIndentProperties(kindOf: Rune -> WidthKind, lines: seq<Line>, up: int, down: int)
    ensures var r := AdjacentIndent(kindOf, lines, up, down);
      var uh, dh := UpHit(kindOf, lines, up), DownHit(kindOf, lines, down);
      && (forall k :: 0 <= k < |r| ==> IsSpace(r[k]))
      && (r == [] || (uh.Some? && r == Indent(kindOf, lines[uh.value].config, lines[uh.value].content))
                  || (dh.Some? && r == Indent(kindOf, lines[dh.value].config, lines[dh.value].content)))
      && (Side(kindOf, lines, uh).0 == 0 && Side(kindOf, lines, dh).0 == 0 ==> r == [])
  {
  }

  /** The cell loop of getIndent and getAdjacentIndent: the runes of the cells left of column bound. */
  method LeadingRunes(line: Line, ghost kindOf: Rune -> WidthKind, bound: int) returns (runes: Text)
    requires line.LaidOut(kindOf)
    ensures runes == line.content[..LeadLen(kindOf, line.config, line.content, bound, 0)]
  {
    ghost var c := line.content;
    var cells := line.cells;
    runes := [];
    var j := 0;
    while j < |cells| && cells[j].displayOffset < bound
      invariant 0 <= j <= |cells|
      invariant runes == c[..j]
      invariant LeadLen(kindOf, line.config, c, bound, 0) == LeadLen(kindOf, line.config, c, bound, j)
    {
      assert cells[j] == CellAt(kindOf, line.config, c, j);
      assert c[..j + 1] == c[..j] + [c[j]];
      runes := runes + [cells[j].rune];
      j := j + 1;
    }
    if j < |cells| {
      assert cells[j] == CellAt(kindOf, line.config, c, j);
    }
  }

  /** getIndent: the indentation of line lineNum, or "" when there is no such line or it is blank. */
  method GetIndent(m: Moment, cache: WidthCache, lineNum: int) returns (r: Text)
    requires cache.Valid() && m.LinesValid(cache.kindOf)
    modifies cache`widths, m.lines
    ensures cache.Valid() && m.LinesValid(cache.kindOf)
    ensures r == if 0 <= lineNum < |m.lines| then Indent(cache.kindOf, m.lines[lineNum].config, m.lines[lineNum].content) else []
  {
    var line := m.GetLine(cache, lineNum);
    if line == null {
      return [];
    }
    if line.nonSpaceDisplayOffset.None? {
      return [];
    }
    r := LeadingRunes(line, cache.kindOf, line.nonSpaceDisplayOffset.value);
  }

  /**
   * getAdjacentIndent: scan up from upwardLine and down from downwardLine
   * past blank lines, and take the indentation of the wider of the two
   * non-blank lines found; ties go downward.
   */
  method GetAdjacentIndent(m: Moment, cache: WidthCache, upwardLine: int, downwardLine: int) returns (r: Text)
    requires cache.Valid() && m.LinesValid(cache.kindOf)
    modifies cache`widths, m.lines
    ensures cache.Valid() && m.LinesValid(cache.kindOf)
    ensures r == AdjacentIndent(cache.kindOf, m.lines, upwardLine, downwardLine)
  {
    var upwardIndent, upwardRunes := ScanUp(m, cache, upwardLine);
    var downwardIndent, downwardRunes := ScanDown(m, cache, downwardLine);
    if upwardIndent > downwardIndent {
      return upwardRunes;
    }
    return downwardRunes;
  }

  /** The upward half of getAdjacentIndent. */
  method ScanUp(m: Moment, cache: WidthCache, upwardLine: int) returns (indent: int, runes: Text)
    requires cache.Valid() && m.LinesValid(cache.kindOf)
    modifies cache`widths, m.lines
    ensures cache.Valid() && m.LinesValid(cache.kindOf)
    ensures (indent, runes) == Side(cache.kindOf, m.lines, UpHit(cache.kindOf, m.lines, upwardLine))
  {
    ghost var kindOf := cache.kindOf;
    indent, runes := 0, [];
    var up := upwardLine;
    while true
      invariant cache.Valid() && m.LinesValid(kindOf)
      invariant UpHit(kindOf, m.lines, up) == UpHit(kindOf, m.lines, upwardLine)
      decreases up + 1
    {
      var line := m.GetLine(cache, up);
      if line == null {
        break;
      }
      if line.nonSpaceDisplayOffset.None? {
        up := up - 1;
        continue;
      }
      indent, runes := IndentOf(line, kindOf);
      break;
    }
  }

  /** The downward half of getAdjacentIndent. */
  method ScanDown(m: Moment, cache: WidthCache, downwardLine: int) returns (indent: int, runes: Text)
    requires cache.Valid() && m.LinesValid(cache.kindOf)
    modifies cache`widths, m.lines
    ensures cache.Valid() && m.LinesValid(cache.kindOf)
    ensures (indent, runes) == Side(cache.kindOf, m.lines, DownHit(cache.kindOf, m.lines, downwardLine))
  {
    ghost var kindOf := cache.kindOf;
    indent, runes := 0, [];
    var down := downwardLine;
    while true
      invariant cache.Valid() && m.LinesValid(kindOf)
      invariant DownHit(kindOf, m.lines, down) == DownHit(kindOf, m.lines, downwardLine)
      decreases |m.lines| - down
    {
      var line := m.GetLine(cache, down);
      if line == null {
        break;
      }
      if line.nonSpaceDisplayOffset.None? {
        down := down + 1;
        continue;
      }
      indent, runes := IndentOf(line, kindOf);
      break;
    }
  }

  /** The step both scans take on the non-blank line they stop at. */
  method IndentOf(line: Line, ghost kindOf: Rune -> WidthKind) returns (indent: int, runes: Text)
    requires line.LaidOut(kindOf)
    ensures (indent, runes) == LineSide(kindOf, line.config, line.content)
  {
    indent, runes := 0, [];
    var nonSpace := line.nonSpaceDisplayOffset;
    if nonSpace.Some? && nonSpace.value > indent {
      indent := nonSpace.value;
      runes := LeadingRunes(line, kindOf, indent);
    }
  }
}
