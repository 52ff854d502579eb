/**
 * One line of a moment and its cell layout: each rune's widths and its
 * running offsets in bytes, UTF-16 bytes, runes and display columns,
 * computed once by Init.
 */
module LineLayout {
  import opened Wrappers
  import opened Runes
  import opened Utils

  /** The per-buffer layout settings a line points at. */
  datatype BufferConfig = BufferConfig(expandTabs: bool, tabWidth: int)

  /** One rune's layout record within a line. */
  datatype Cell = Cell(
    rune: Rune,
    len: nat,            // bytes in the UTF-8 encoding
    width: nat,          // intrinsic width
    displayWidth: int,   // width with tab expansion
    displayOffset: int,  // display column in the line
    runeOffset: nat,     // rune index in the line
    byteOffset: nat,     // UTF-8 byte offset in the line
    utf16Offset: nat)    // UTF-16 byte offset in the line

  /** Columns a rune occupies on screen: a tab expands to the tab width when configured. */
  function RuneDisplayWidth(kindOf: Rune -> WidthKind, cfg: BufferConfig, r: Rune): (w: int)
    ensures r == Tab && cfg.expandTabs ==> w == cfg.tabWidth
    ensures !(r == Tab && cfg.expandTabs) ==> w == KindWidth(kindOf(r)) && (w == 1 || w == 2)
  {
    if r == Tab && cfg.expandTabs then cfg.tabWidth else KindWidth(kindOf(r))
  }

  /** Display columns taken by s. */
  function DisplaySum(kindOf: Rune -> WidthKind, cfg: BufferConfig, s: Text): int
  {
    if s == [] then 0 else DisplaySum(kindOf, cfg, s[..|s| - 1]) + RuneDisplayWidth(kindOf, cfg, s[|s| - 1])
  }

  /** The cell of the rune at index i: its widths, and offsets that count the runes before it. */
  function CellAt(kindOf: Rune -> WidthKind, cfg: BufferConfig, s: Text, i: nat): Cell
    requires i < |s|
  {
    Cell(s[i], RuneLen(s[i]), KindWidth(kindOf(s[i])), RuneDisplayWidth(kindOf, cfg, s[i]),
         DisplaySum(kindOf, cfg, s[..i]), i, Utf8Len(s[..i]), 2 * Utf16Len(s[..i]))
  }

  predicate AllSpace(s: Text)
  {
    forall k :: 0 <= k < |s| ==> IsSpace(s[k])
  }

  /** Index of the first rune of s that is not a space. */
  function FirstNonSpace(s: Text): (r: Option<nat>)
    ensures r.None? <==> AllSpace(s)
    ensures r.Some? ==> r.value < |s| && !IsSpace(s[r.value])
    ensures r.Some? ==> forall k :: 0 <= k < r.value ==> IsSpace(s[k])
  {
    if s == [] then None
    else match FirstNonSpace(s[..|s| - 1])
      case Some(k) => Some(k)
      case None => if IsSpace(s[|s| - 1]) then None else Some(|s| - 1)
  }

  /** Display column of the first non-space rune, None when the line is blank. */
  function NonSpaceOffset(kindOf: Rune -> WidthKind, cfg: BufferConfig, s: Text): Option<int>
  {
    match FirstNonSpace(s)
    case None => None
    case Some(k) => Some(DisplaySum(kindOf, cfg, s[..k]))
  }

  class Line {
    const content: Text
    const config: BufferConfig

    var initialized: bool
    var cells: seq<Cell>
    var runes: Text
    var displayWidth: int
    var allSpace: bool
    var nonSpaceDisplayOffset: Option<int>

    /** The layout fields, once computed, describe content. */
    ghost predicate LaidOut(kindOf: Rune -> WidthKind)
      reads this
    {
      && runes == content
      && |cells| == |content|
      && (forall i :: 0 <= i < |cells| ==> cells[i] == CellAt(kindOf, config, content, i))
      && displayWidth == DisplaySum(kindOf, config, content)
      && allSpace == AllSpace(content)
      && nonSpaceDisplayOffset == NonSpaceOffset(kindOf, config, content)
    }

    ghost predicate Valid(kindOf: Rune -> WidthKind)
      reads this
    {
      && (initialized ==> LaidOut(kindOf))
      && (!initialized ==> displayWidth == 0)
    }

    /** A line as NewMomentFromBytes creates it: raw content, nothing computed. */
    constructor (content: Text, config: BufferConfig)
      ensures this.content == content && this.config == config
      ensures !initialized && displayWidth == 0
      ensures forall kindOf :: Valid(kindOf)
    {
      this.content := content;
      this.config := config;
      initialized := false;
      cells := [];
      runes := [];
      displayWidth := 0;
      allSpace := false;
      nonSpaceDisplayOffset := None;
    }

    /** Line.init: lays the line out on the first call; later calls change nothing. */
    method Init(cache: WidthCache)
      requires cache.Valid() && Valid(cache.kindOf)
      modifies this, cache`widths
      ensures cache.Valid() && Valid(cache.kindOf)
      ensures initialized && LaidOut(cache.kindOf)
      ensures old(initialized) ==> unchanged(this)
    {
      if initialized {
        return;
      }
      runes := content;
      var width;
      cells, width, allSpace, nonSpaceDisplayOffset := Layout(cache, config, runes);
      displayWidth := displayWidth + width;
      initialized := true;
    }
  }

  /**
   * The loop of Line.init: one pass over the runes keeping the display, UTF-16
   * and byte offsets, the running display width, whether every rune so far is a
   * space, and the display column of the first non-space rune.
   */
  method Layout(cache: WidthCache, config: BufferConfig, runes: Text)
    returns (cells: seq<Cell>, displayWidth: int, allSpace: bool, nonSpaceDisplayOffset: Option<int>)
    requires cache.Valid()
    modifies cache`widths
    ensures cache.Valid()
    ensures |cells| == |runes|
    ensures forall i :: 0 <= i < |cells| ==> cells[i] == CellAt(cache.kindOf, config, runes, i)
    ensures displayWidth == DisplaySum(cache.kindOf, config, runes)
    ensures allSpace == AllSpace(runes)
    ensures nonSpaceDisplayOffset == NonSpaceOffset(cache.kindOf, config, runes)
  {
    ghost var kindOf := cache.kindOf;
    cells := [];
    allSpace := true;
    displayWidth := 0;
    var displayOffset := 0;
    var utf16ByteOffset := 0;
    var byteOffset := 0;
    nonSpaceDisplayOffset := None;
    for i := 0 to |runes|
      invariant cache.Valid()
      invariant displayWidth == displayOffset
      invariant LaidOutUpTo(kindOf, config, runes, i, cells, displayOffset, byteOffset, utf16ByteOffset, allSpace, nonSpaceDisplayOffset)
    {
      var r := runes[i];
      var width := cache.RuneWidth(r);
      var dw: int;
      if r == Tab && config.expandTabs {
        dw := config.tabWidth;
      } else {
        dw := width;
      }
      var runeLen := RuneLen(r);
      var cell := Cell(r, runeLen, width, dw, displayOffset, i, byteOffset, utf16ByteOffset);
      ghost var (cells0, all0, nso0) := (cells, allSpace, nonSpaceDisplayOffset);
      cells := cells + [cell];
      displayWidth := displayWidth + dw;
      if !IsSpace(r) {
        allSpace := false;
        if nonSpaceDisplayOffset == None {
          nonSpaceDisplayOffset := Some(displayOffset);
        }
      }
      assert dw == RuneDisplayWidth(kindOf, config, r);
      assert allSpace == (all0 && IsSpace(r));
      assert nonSpaceDisplayOffset == if nso0.None? && !IsSpace(r) then Some(displayOffset) else nso0;
      LayoutStep(kindOf, config, runes, i, cells0, displayOffset, byteOffset, utf16ByteOffset, all0, nso0);
      displayOffset := displayOffset + dw;
      utf16ByteOffset := utf16ByteOffset + Utf16Units(r) * 2;
      byteOffset := byteOffset + runeLen;
    }
    assert runes[..|runes|] == runes;
  }

  /** What Layout's loop has established after the first i runes. */
  ghost predicate LaidOutUpTo(kindOf: Rune -> WidthKind, cfg: BufferConfig, s: Text, i: nat,
                              cells: seq<Cell>, displayOffset: int, byteOffset: int, utf16Offset: int,
                              allSpace: bool, nonSpace: Option<int>)
  {
    && i <= |s|
    && |cells| == i
    && (forall j :: 0 <= j < i ==> cells[j] == CellAt(kindOf, cfg, s, j))
    && displayOffset == DisplaySum(kindOf, cfg, s[..i])
    && byteOffset == Utf8Len(s[..i])
    && utf16Offset == 2 * Utf16Len(s[..i])
    && allSpace == AllSpace(s[..i])
    && nonSpace == NonSpaceOffset(kindOf, cfg, s[..i])
  }

  /** One iteration of Layout's loop keeps LaidOutUpTo. */
  lemma LayoutStep(kindOf: Rune -> WidthKind, cfg: BufferConfig, s: Text, i: nat,
                   cells: seq<Cell>, displayOffset: int, byteOffset: int, utf16Offset: int,
                   allSpace: bool, nonSpace: Option<int>)
    requires i < |s|
    requires LaidOutUpTo(kindOf, cfg, s, i, cells, displayOffset, byteOffset, utf16Offset, allSpace, nonSpace)
    ensures var r := s[i];
      var dw := RuneDisplayWidth(kindOf, cfg, r);
      LaidOutUpTo(kindOf, cfg, s, i + 1,
        cells + [Cell(r, RuneLen(r), KindWidth(kindOf(r)), dw, displayOffset, i, byteOffset, utf16Offset)],
        displayOffset + dw, byteOffset + RuneLen(r), utf16Offset + Utf16Units(r) * 2,
        allSpace && IsSpace(r),
        if nonSpace.None? && !IsSpace(r) then Some(displayOffset) else nonSpace)
  {
    var r := s[i];
    PrefixStep(kindOf, cfg, s, i);
    NonSpaceStep(kindOf, cfg, s, i);
    assert CellAt(kindOf, cfg, s, i) == Cell(r, RuneLen(r), KindWidth(kindOf(r)), RuneDisplayWidth(kindOf, cfg, r), displayOffset, i, byteOffset, utf16Offset);
  }

  /** The running sums and the all-space flag over s[..i + 1] extend those over s[..i] by rune i. */
  lemma PrefixStep(kindOf: Rune -> WidthKind, cfg: BufferConfig, s: Text, i: nat)
    requires i < |s|
    ensures DisplaySum(kindOf, cfg, s[..i + 1]) == DisplaySum(kindOf, cfg, s[..i]) + RuneDisplayWidth(kindOf, cfg, s[i])
    ensures Utf8Len(s[..i + 1]) == Utf8Len(s[..i]) + RuneLen(s[i])
    ensures Utf16Len(s[..i + 1]) == Utf16Len(s[..i]) + Utf16Units(s[i])
    ensures AllSpace(s[..i + 1]) == (AllSpace(s[..i]) && IsSpace(s[i]))
  {
    assert s[..i + 1][..i] == s[..i];
  }

  /** The first non-space offset over s[..i + 1]: the one over s[..i], else rune i's column if it is not a space. */
  lemma NonSpaceStep(kindOf: Rune -> WidthKind, cfg: BufferConfig, s: Text, i: nat)
    requires i < |s|
    ensures var before := NonSpaceOffset(kindOf, cfg, s[..i]);
      NonSpaceOffset(kindOf, cfg, s[..i + 1]) ==
        if before.None? && !IsSpace(s[i]) then Some(DisplaySum(kindOf, cfg, s[..i])) else before
  {
    var p := s[..i + 1];
    assert p[..i] == s[..i];
    match FirstNonSpace(s[..i])
    case Some(k) =>
      assert p[..k] == s[..i][..k];
    case None =>
  }

  /** With a non-negative tab width, display columns never decrease along a line. */
  lemma {:induction false} DisplaySumMonotone(kindOf: Rune -> WidthKind, cfg: BufferConfig, s: Text, i: nat, j: nat)
    requires cfg.tabWidth >= 0
    requires i <= j <= |s|
    ensures DisplaySum(kindOf, cfg, s[..i]) <= DisplaySum(kindOf, cfg, s[..j])
    decreases j
  {
    if i < j {
      assert s[..j][..j - 1] == s[..j - 1];
      DisplaySumMonotone(kindOf, cfg, s, i, j - 1);
    }
  }

  /**
   * Along a line's cells the byte, UTF-16 and rune offsets strictly increase
   * and the display offset never decreases.
   */
  lemma CellOffsetsOrdered(kindOf: Rune -> WidthKind, cfg: BufferConfig, s: Text, i: nat, j: nat)
    requires cfg.tabWidth >= 0
    requires i < j < |s|
    ensures var a, b := CellAt(kindOf, cfg, s, i), CellAt(kindOf, cfg, s, j);
      && a.runeOffset < b.runeOffset
      && a.byteOffset < b.byteOffset
      && a.utf16Offset < b.utf16Offset
      && a.displayOffset <= b.displayOffset
  {
    DisplaySumMonotone(kindOf, cfg, s, i, j);
    Utf8LenPrefix(s, i, j);
    Utf16LenPrefix(s, i, j);
  }

  /**
   * On any non-empty line the first cell starts at zero in every unit, and the
   * last cell ends at the line's byte length, UTF-16 length and display width.
   */
  lemma CellOffsetsEnds(kindOf: Rune -> WidthKind, cfg: BufferConfig, s: Text)
    requires 0 < |s|
    ensures var first := CellAt(kindOf, cfg, s, 0);
      first.displayOffset == 0 && first.byteOffset == 0 && first.utf16Offset == 0 && first.runeOffset == 0
    ensures var last := CellAt(kindOf, cfg, s, |s| - 1);
      && last.byteOffset + last.len == Utf8Len(s)
      && last.utf16Offset + 2 * Utf16Units(last.rune) == 2 * Utf16Len(s)
      && last.displayOffset + last.displayWidth == DisplaySum(kindOf, cfg, s)
  {
    assert s[..|s|] == s;
  }

  /** The display width of a whole line is the sum of its cells' display widths. */
  lemma {:induction false} DisplayWidthIsCellSum(kindOf: Rune -> WidthKind, cfg: BufferConfig, s: Text, k: nat)
    requires k <= |s|
    ensures DisplaySum(kindOf, cfg, s[..k]) == CellDisplaySum(kindOf, cfg, s, k)
    decreases k
  {
    if k > 0 {
      assert s[..k][..k - 1] == s[..k - 1];
      DisplayWidthIsCellSum(kindOf, cfg, s, k - 1);
    }
  }

  /** Sum of the display widths of the first k cells of s. */
  function CellDisplaySum(kindOf: Rune -> WidthKind, cfg: BufferConfig, s: Text, k: nat): int
    requires k <= |s|
  {
    if k == 0 then 0 else CellDisplaySum(kindOf, cfg, s, k - 1) + CellAt(kindOf, cfg, s, k - 1).displayWidth
  }

  /**
   * A tab under tab expansion takes the configured tab width on screen and keeps
   * its intrinsic width; any other rune's display width is its intrinsic width.
   */
  lemma TabCell(kindOf: Rune -> WidthKind, cfg: BufferConfig, s: Text, i: nat)
    requires i < |s|
    ensures var c := CellAt(kindOf, cfg, s, i);
      && c.width == KindWidth(kindOf(s[i]))
      && c.displayWidth == (if s[i] == Tab && cfg.expandTabs then cfg.tabWidth else c.width)
  {
  }

  /** The first non-space offset is None exactly for a blank line, and is that rune's display column. */
  lemma NonSpaceOffsetCell(kindOf: Rune -> WidthKind, cfg: BufferConfig, s: Text)
    ensures NonSpaceOffset(kindOf, cfg, s).None? <==> AllSpace(s)
    ensures NonSpaceOffset(kindOf, cfg, s).Some? ==>
      exists k :: 0 <= k < |s| && !IsSpace(s[k]) && AllSpace(s[..k])
        && NonSpaceOffset(kindOf, cfg, s).value == CellAt(kindOf, cfg, s, k).displayOffset
  {
  }
}
