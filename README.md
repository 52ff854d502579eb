# li document model in Dafny

This project models the document core of the `li` text editor and proves its properties.

- **Moment**: an immutable, numbered snapshot of a buffer. It holds the buffer's lines, which are cut from the text after every newline. It memoises the whole content, the lower-cased content and the bytes. It maps a byte offset to a (line, rune) position.
- **Line**: one line of a moment. On first use it lays out its runes into cells. Each cell records the rune's widths and four running offsets: UTF-8 bytes, UTF-16 bytes, runes and display columns. A line also records whether it is blank and the display column of its first non-space rune.
- **Segments**: runs of lines. The model covers counting their lines, slicing a line range out of them, and hashing a segment's content once.
- **Line hint index**: annotations kept sorted by (moment id, line). `add` inserts or updates an entry by binary search. Each event-loop cycle bumps a generation mark, collects the hints again and prunes every entry that was not re-added.
- **Utilities**:
  - rune widths by East Asian Width (Unicode Standard Annex #11), with a cache;
  - display widths and right padding;
  - splitting an integer into near-equal parts;
  - splitting an absolute path into its components.
- **Indentation queries**: the leading whitespace of a line, and the indentation of the nearest non-blank lines above and below a point.

Text is a sequence of Unicode scalar values (`Runes.Text`). Byte lengths follow section 3 of RFC 3629. UTF-16 code units, including surrogate pairs, follow section 2.1 of RFC 2781. Code that updates state in place is written as classes with `modifies` clauses: the lines, the moment's once-guarded views, a segment's hash memo, the hint index and the width cache. Each such method is proved against specification functions, and lemmas state what those functions promise.

Modules:
- `Wrappers` holds `Option`.
- `Runes` covers runes, UTF-8 and UTF-16.
- `Utils` models `li/utils.go`.
- `LineLayout` models `Line` and `Cell` from `li/moment.go`.
- `Moments` models the rest of `li/moment.go`.
- `Segments` models `li/segment.go`.
- `LineHints` models `li/line_hint.go`.
- `EditCommand` models `getIndent` and `getAdjacentIndent` from `li/edit_command.go`.

## Model

| member | source | states |
|---|---|---|
| Utils.KindWidth | li/utils.go:44-51 | a rune takes one or two columns: two for Ambiguous, Wide and Fullwidth, one for every other kind |
| Utils.WidthCache.RuneWidth | li/utils.go:40-54 | returns the width of the rune's kind, always 1 or 2; a cached rune leaves the cache as it was, otherwise exactly that rune's width is added; the cache only ever holds each rune's true width |
| Utils.DisplayWidth | li/utils.go:56-61 | the loop returns the sum of the rune widths of s |
| Utils.RunesDisplayWidth | li/utils.go:63-68 | the loop over a rune slice returns the same sum as displayWidth over the string |
| Utils.WidthSumAppend | li/utils.go:56-61 | display width is additive over concatenation |
| Utils.WidthSumBounds | li/utils.go:56-61 | a text's display width lies between its rune count and twice that |
| Utils.RightPad | li/utils.go:70-73 | no result (Go panics on a negative repeat count) exactly when l is below the width of s; otherwise s followed by l - width copies of pad |
| Utils.PaddedWidth | li/utils.go:70-73 | padding with a one-column rune yields display width exactly l |
| Utils.TruncDiv | li/utils.go:76 | Go's truncating division, equal to Euclidean division for non-negative operands |
| Utils.Split | li/utils.go:75-86 | for any non-zero n: the first i - base*n entries are base+1, then base until n entries, where base is i/n truncated; for n > 0 and i >= 0 this is the partition Parts(i, n) |
| Utils.SplitSum | li/utils.go:75-86 | the n parts sum to i |
| Utils.SplitBalanced | li/utils.go:79-85 | the parts never increase along the list and differ by at most one |
| Utils.LastIndex | li/utils.go:93 | the index of the last separator, or -1 when there is none |
| Utils.SplitDir | li/utils.go:92-99 | for a clean absolute path, at least one component, none containing "/", and "/" joined with them gives the path back |
| Utils.NameAfterLastSlash | li/utils.go:93 | the name filepath.Split returns holds no separator, and the path is its directory followed by that name |
| Utils.CleanParent | li/utils.go:97 | the cleaned parent of a clean absolute path other than a child of "/" is a strictly shorter clean absolute path, so the recursion ends |
| Runes.RuneLen | li/moment.go:212 | a rune takes 1 to 4 bytes in UTF-8 |
| Runes.Utf16Units | li/moment.go:233 | a rune takes one UTF-16 code unit, or two (a surrogate pair) |
| Runes.EncodeRune | li/moment.go:212 | the encoding of a rune has exactly utf8.RuneLen bytes |
| Runes.EncodeLength | li/moment.go:166 | the byte length of a text (len(content)) is the sum of its runes' UTF-8 lengths |
| Runes.EncodeAppend | li/moment.go:110-119 | encoding distributes over concatenation, so writing the lines one after another gives the bytes of the joined text |
| Runes.EncodeAt | li/moment.go:212-234 | the bytes of rune i sit at its byte offset in the encoded line |
| LineLayout.FirstNonSpace | li/moment.go:225-231 | none exactly when every rune is a space; otherwise a non-space rune with only spaces before it |
| LineLayout.Line.constructor | li/moment.go:321-325 | a new line holds its content and configuration and is not yet laid out |
| LineLayout.Line.Init | li/moment.go:195-246 | afterwards the line is laid out: runes, one cell per rune, display width, AllSpace and the first non-space offset all agree with the specification functions; a second call changes nothing |
| LineLayout.Layout | li/moment.go:197-238 | the loop yields CellAt for every rune, the summed display width, AllSpace and NonSpaceOffset of the content |
| LineLayout.LayoutStep | li/moment.go:204-235 | one iteration appends the cell with the current offsets, advances each offset by the rune's length, and records the first non-space offset only once |
| LineLayout.CellOffsetsOrdered | li/moment.go:213-234 | for any two cells i < j, the rune, byte and UTF-16 offsets strictly increase and the display offset never decreases |
| LineLayout.CellOffsetsEnds | li/moment.go:199-234 | on any non-empty line, one-rune lines included, the first cell sits at offset zero in all four measures, and the last cell ends at the line's byte length, UTF-16 length and display width |
| LineLayout.DisplaySumMonotone | li/moment.go:232 | with a non-negative tab width, display offsets never decrease |
| LineLayout.DisplayWidthIsCellSum | li/moment.go:224 | a line's display width is the sum of its cells' display widths |
| LineLayout.TabCell | li/moment.go:205-211 | a cell keeps the rune's own width; its display width is the tab width for a tab when tabs expand, and its width otherwise |
| LineLayout.RuneDisplayWidth | li/moment.go:205-211 | a tab takes the configured tab width when tabs expand; every other rune takes its East Asian width, which is 1 or 2 |
| LineLayout.NonSpaceOffsetCell | li/moment.go:225-236 | the first non-space offset is absent exactly when the line is blank; otherwise it is the display offset of the first non-space rune's cell |
| Moments.IndexOf | li/moment.go:406 | the first index of the rune, or -1 when it does not occur |
| Moments.SplitLines | li/moment.go:400-415 | the loop returns the pieces of the text |
| Moments.PiecesProperties | li/moment.go:400-415 | empty text gives exactly [""]; otherwise the pieces join back to the text, none is empty, each holds a newline only as its last rune, and all but the last end in one |
| Moments.ChunksProperties | li/moment.go:405-413 | the loop's pieces of a non-empty text join back to it and are well cut |
| Moments.OnlyLastPieceEndsWithCR | li/moment.go:307-313 | as written: no piece but the last ends in "\r", so at most one piece is counted |
| Moments.TrimCR | li/moment.go:308 | strings.TrimSuffix(p, "\r"): the result is a prefix of p, at most one rune shorter, and shorter exactly when p ends in "\r" |
| Moments.CountCR | li/moment.go:306-313 | as written: counts at most one per piece, and is zero exactly when no piece ends in "\r" |
| Moments.LineBreakFor | li/moment.go:314-316 | the policy is always "\n" or "\r\n"; with pieces, "\r\n" exactly when the real-valued share n/total exceeds 0.4; with none, "\r\n" exactly when n > 0, as IEEE division gives +Inf or NaN |
| Moments.ShareAbove | li/moment.go:314 | for total > 0 the real test n/total > 0.4 is the integer test 5n > 2·total, which the loop code evaluates |
| Moments.TrimPiecesAsWritten | li/moment.go:306-313 | as written: the loop leaves TrimSuffix("\r") of each piece in place and counts the pieces it shortened (CountCR) |
| Moments.TrimmedContent | li/moment.go:305-313 | as written: the stored content is the input with at most one trailing "\r" removed |
| Moments.CrlfTextReadAsLf | li/moment.go:305-316 | as written: "a\r\nb\r\n" keeps its carriage returns and is given the "\n" policy |
| Moments.AsWrittenNeverCrlf | li/moment.go:314-316 | as written: a text of three or more pieces always gets the "\n" policy |
| Moments.TrimLineEnd | li/moment.go:308-312 | corrected: a piece loses exactly one rune when it has a line-end carriage return, and none otherwise |
| Moments.IntendedContent | li/moment.go:302-313 | corrected: the stored content is the text with every "\r\n" read as "\n" and a final "\r" dropped |
| Moments.IntendedCrlfText | li/moment.go:314-316 | corrected: a text whose every line ends in "\r\n" is given the "\r\n" policy |
| Moments.TrimPieces | li/moment.go:306-313 | corrected: the loop rewrites each piece with the corrected trim (TrimLineEnd) and counts the pieces it changed (CountLineEndCR) |
| Moments.NewLines | li/moment.go:319-327 | one fresh, uninitialised line per content, in order, all sharing the configuration |
| Moments.NewMomentFromBytes | li/moment.go:290-334 | corrected: a fresh moment with the next id and no previous moment; its contents are the pieces with their line-end carriage returns trimmed; its line break is "\r\n" exactly when more than 40% of the pieces carried one |
| Moments.NewMomentFromBytesAsWritten | li/moment.go:290-334 | as written: a fresh moment with the next id and no previous moment; its contents are TrimAll of the pieces and its line break is LineBreakFor(CountCR(pieces), number of pieces) |
| Moments.MomentOfContents | li/moment.go:314-333 | the tail both constructors share: the policy is LineBreakFor(n, number of contents), and a fresh moment with the next id holds one fresh, uninitialised line per content, in order |
| Moments.MomentIds.Next | li/moment.go:56 | the counter increases by one and the new value is the id handed out |
| Moments.NewMoment | li/moment.go:53-66 | a fresh, empty moment whose id is the counter's previous value plus one, and so above its predecessor's id |
| Moments.Moment.constructor | li/moment.go:54-58 | the moment holds its id and predecessor, no lines, and no memoised view |
| Moments.Moment.NumLines | li/moment.go:160-162 | the number of lines is the number of stored line contents |
| Moments.Moment.GetLine | li/moment.go:68-78 | nil exactly when i < 0 or i >= NumLines(); otherwise the i-th stored line, laid out |
| Moments.Moment.GetContent | li/moment.go:80-89 | the concatenated line contents, computed once; a second call changes nothing |
| Moments.Moment.GetLowerContent | li/moment.go:91-97 | the lower-cased concatenated content, computed once |
| Moments.Moment.GetBytes | li/moment.go:110-119 | the UTF-8 bytes of the concatenated content, computed once; their count is the total of the line byte lengths |
| Moments.TotalBytesIsEncodedLength | li/moment.go:110-119 | the total of the line byte lengths is the length of the encoded content |
| Moments.Moment.ByteOffsetToPosition | li/moment.go:164-181 | a negative offset gives (0, 0); an offset inside the content gives the line whose byte range holds it and the rune whose bytes hold it; an offset at or past the end gives (NumLines(), 0) |
| Moments.ScanCells | li/moment.go:168-174 | the inner loop finds the rune whose byte range holds the offset, and the first rune for a negative offset |
| Moments.LocateInLine | li/moment.go:166-175 | lays the line out, then for an offset inside the line finds the rune whose byte range holds it; a negative offset gives rune 0 of a non-empty line |
| Moments.PositionUnique | li/moment.go:164-181 | each byte offset lies in exactly one (line, rune) position |
| Segments.Segment.constructor | li/segment.go:38-40 | a new segment over the given lines, with no hash computed yet |
| Segments.Segment.Sum | li/segment.go:70-80 | the hash of the UTF-8 bytes of the concatenated line contents, computed once; a second call changes nothing |
| Segments.Len | li/segment.go:16-21 | the loop returns the sum of the segments' line counts |
| Segments.LineCountIsLength | li/segment.go:16-21 | that sum is the number of lines of the flattened segments |
| Segments.ClampStart | li/segment.go:24-26 | the clamped start is at least the start, and is either 0 or the start itself |
| Segments.ClampEnd | li/segment.go:27-29 | the clamped end never exceeds Len() |
| Segments.SubLinesLength | li/segment.go:23-67 | the slice has clamped end minus clamped start lines, none when start >= end; for 0 <= a <= b <= Len() exactly b - a lines |
| Segments.Sub | li/segment.go:23-68 | the flattened result is the clamped slice of the flattened input; the result realizes SubParts: a whole part is that input segment object itself, a cut part is a segment over exactly the cut lines; every returned segment is an input segment or a fresh one with no hash; inner segments are the input's own |
| Segments.SubRange | li/segment.go:31-67 | with clamped bounds the two loops give lines start..end and realize SubParts, reusing or freshly creating segments as Sub states |
| Segments.TakeLines | li/segment.go:31-48 | the first loop keeps exactly the first `end` lines and realizes TakeParts: whole segments are the input objects, and a new segment is made only for the one the bound falls strictly inside |
| Segments.DropLines | li/segment.go:50-65 | the second loop drops exactly the first `start` lines and realizes DropParts: kept segments stay the same objects, and only a first segment the bound falls strictly inside is replaced by a new one |
| Segments.AllLinesPrefix | li/segment.go:34-48 | the lines of a prefix of the segments are a prefix of all the lines |
| Segments.TakePartsShape | li/segment.go:31-48 | the first loop's parts run over consecutive segments from 0, and only the last can be cut, strictly inside its segment |
| Segments.DropPartsShape | li/segment.go:50-65 | the second loop adds at most one cut, on the first part, strictly inside its segment |
| Segments.SubPartsShape | li/segment.go:23-68 | Sub's parts run over consecutive input segments; only the first and the last can be cut, and only strictly inside a segment |
| Segments.TakeOnBoundary | li/segment.go:34-47 | taking up to a segment boundary yields whole segments only |
| Segments.DropOnBoundary | li/segment.go:52-63 | dropping up to a segment boundary cuts nothing |
| Segments.SubOnBoundaries | li/segment.go:23-68 | when both bounds fall on segment boundaries every part is whole |
| Segments.SharedOnBoundaries | li/segment.go:23-68 | then every segment Sub returns is an input segment object, so each keeps its memoised hash |
| Segments.SubFirstSegment | li/segment.go:23-68 | Sub(0, n) over a first segment of n > 0 lines is the single whole part of segment 0 |
| Segments.SubFirstShared | li/segment.go:23-68 | so that call returns exactly [the first segment], the same object |
| LineHints.Index.constructor | li/line_hint.go:22-26 | the index starts empty, unchanged, at mark 42 |
| LineHints.Find | li/line_hint.go:32-74 | the position of the entry with the key, or none when no entry has it |
| LineHints.LowerBound | li/line_hint.go:76-91 | the insertion point: every entry before it has a smaller key, the entry at it does not |
| LineHints.Search | li/line_hint.go:32-74 | the binary search over a sorted index either finds the key's entry or returns the position that splits smaller from larger keys |
| LineHints.SameStrings | li/line_hint.go:49-59 | true exactly when both hint lists have the same length and equal strings |
| LineHints.Index.Add | li/line_hint.go:27-92 | the hints become Added(old hints), the index stays sorted with marks no newer than the current one, and changed is set exactly when an entry is replaced or inserted |
| LineHints.FindUnique | li/line_hint.go:22-23 | in a sorted index a key occurs at most once |
| LineHints.AddedAt | li/line_hint.go:47-71 | an existing key with equal strings only gets the current mark and leaves changed alone; with different strings its entry is replaced and changed is set |
| LineHints.AddedInsert | li/line_hint.go:76-91 | a missing key is inserted at the search position with the others kept in order, and changed is set |
| LineHints.AddedSorted | li/line_hint.go:27-92 | add keeps the index strictly sorted by (moment id, line) |
| LineHints.AddedContents | li/line_hint.go:27-92 | after add the key is present with the new strings and mark, the length grows only for a new key, and every other entry is kept as it was |
| LineHints.Index.BeginCycle | li/line_hint.go:99-100 | changed is cleared and the mark increases by one, so every stored entry is now older than the mark |
| LineHints.KeepMarked | li/line_hint.go:106-113 | the filter never lengthens the list |
| LineHints.KeepMarkedMembers | li/line_hint.go:106-113 | an entry survives exactly when it carries the current mark |
| LineHints.KeepMarkedSorted | li/line_hint.go:106-113 | pruning keeps the index sorted |
| LineHints.KeepMarkedAll | li/line_hint.go:106-114 | when nothing is removed, the pruned list is the list itself |
| LineHints.KeepMarkedKeys | li/line_hint.go:106-113 | the surviving keys are exactly the keys with the current mark |
| LineHints.Index.Prune | li/line_hint.go:105-118 | keeps the entries with the current mark in order, sets changed on any removal, and asks to continue exactly when changed |
| LineHints.Index.Cycle | li/line_hint.go:94-119 | the hints become the cycle's adds applied in order (Collected) with unmarked entries pruned; the stored keys are exactly the keys added, all with the new mark; changed holds exactly when an add changed something or the prune removed an entry; a key of the old index not added again forces changed; the loop continues exactly when changed |
| LineHints.SuppliedKeysSnoc | li/line_hint.go:101-104 | the keys added during a cycle accumulate one add at a time |
| LineHints.CollectedSorted | li/line_hint.go:101-104 | the adds of a cycle keep the index sorted |
| LineHints.CollectedKeepsUnsupplied | li/line_hint.go:101-104 | an entry whose key no add names is still there, unchanged, after the adds |
| LineHints.PruneDropsStale | li/line_hint.go:106-113 | a list holding an entry without the current mark gets shorter when pruned |
| LineHints.UnsuppliedKeyPruned | li/line_hint.go:94-118 | when some key of the old index is not added again, the prune removes an entry, so the cycle reports changed |
| EditCommand.LeadLen | li/edit_command.go:121-126 | the cell loop stops at the first cell whose display offset reaches the bound, or at the end |
| EditCommand.LeadingRunes | li/edit_command.go:120-127 | the loop collects exactly the runes before that cell |
| EditCommand.IndentIsLeadingSpace | li/edit_command.go:112-127 | the indent is a prefix of the line made only of whitespace, empty for a blank line; with tabs at least one column wide it is the whole run of whitespace before the first non-space rune |
| EditCommand.GetIndent | li/edit_command.go:112-128 | "" for a missing line; otherwise the line's indentation, which is "" for a blank line |
| EditCommand.UpHitNearest | li/edit_command.go:133-141 | the upward scan stops at the nearest non-blank line at or above the start, with only blank lines between; it finds none exactly when the start is out of range or every line up to the first is blank |
| EditCommand.DownHitNearest | li/edit_command.go:156-164 | the downward scan stops at the nearest non-blank line at or below the start, with only blank lines between; it finds none exactly when the start is out of range or every line down to the last is blank |
| EditCommand.IndentOf | li/edit_command.go:142-150 | the line found contributes its indent width and leading runes only when its indent is positive |
| EditCommand.ScanUp | li/edit_command.go:131-152 | the upward loop yields the contribution of the line the upward scan finds |
| EditCommand.ScanDown | li/edit_command.go:154-175 | the downward loop yields the contribution of the line the downward scan finds |
| EditCommand.GetAdjacentIndent | li/edit_command.go:130-181 | the upward runes when the upward indent is strictly wider, otherwise the downward runes |
| EditCommand.AdjacentIndentProperties | li/edit_command.go:177-180 | the result is whitespace only; it is "" or the indentation of one of the two lines found; it is "" when neither found line is indented |

## Left out

- GetParser, GetSyntaxAttr, GetCStringContent, cfree and the finalizers: these are cgo and tree-sitter resources with no logic to prove.
- NewMomentFromFile and NewMomentsFromPath: file and directory I/O.
- The LineInitProcs worker pool and the `initProcs <- lines` send: concurrency. Lines are laid out on first use through GetLine instead.
- sync.Once: each guard is a boolean flag beside its field. Idempotence of a second call is proved; thread safety is not modelled.
- The EvLineInitialized trigger and the scope/Trigger plumbing: event dispatch with no state of its own. In the hint cycle, the EvCollectLineHints round is the `supplies` parameter of `Index.Cycle`, one add per supply.
- The hash: `Segment.Sum` takes the hash function as a parameter. The HashSum array copy is that function's result.
- strings.ToLower and the East Asian Width table: both are functions handed in, as `Moment.toLower` and `WidthCache.kindOf`.
- The moment timestamp T0 (a clock read), the Change and FileInfo fields, and the syntax attribute map are not modelled.
- Invalid UTF-8: text is a sequence of scalar values. Go decodes invalid bytes to U+FFFD, which would break the byte offsets.
- MomentOfContents: evaluates the float test `n/len > 0.4` as the integer test `5*n > 2*len`. LineBreakFor states the real-valued test and ShareAbove proves the two agree. Float rounding is not modelled.
- Moments.TrimPieces: uses the corrected trimming described under Findings, not TrimSuffix("\r"). NewMomentFromBytes builds on it. The as-written loop is TrimPiecesAsWritten, and NewMomentFromBytesAsWritten builds the moment the code as written builds.
- Segments.Sub: does not state that a segment made for a cut part is a new object. It states that every returned segment is an input segment or a new one without a hash, and that a whole part is the input object itself. A per-end statement of the cut case is beyond the resource limit of its proof.
- Utils.SplitDir: takes clean absolute paths only. A relative path makes Go's recursion run forever. An unclean absolute path is cleaned after its first split, which is not modelled.
- Utils.Split: requires n != 0, because Go's division by zero panics.
- intP, toJSON and the GetLineHints getter are not modelled: a pointer helper, a JSON wrapper and a plain read of the hints field.
- The command specs in li/edit_command.go are not modelled: they only forward to editing functions that are not part of this model.
- Line.init's runeWidth cache is global in Go. It is an explicit `WidthCache` object passed to every method that lays out lines.

## Findings

| source | as written | input that shows it | evidently intended | confidence | as-written member | corrected member |
|---|---|---|---|---|---|---|
| li/moment.go:307-316 | each piece from splitLines keeps its "\n", so `TrimSuffix(lineContent, "\r")` strips a "\r" only from a final piece without a newline; CRLF lines keep their "\r" and are never counted, so a text of three or more lines always gets the "\n" policy | "a\r\nb\r\n" | drop the "\r" of each "\r\n" ending (and a final bare "\r"), count those pieces, and choose "\r\n" when more than 40% of them had one | not executed | Moments.CrlfTextReadAsLf | Moments.IntendedCrlfText |
