# subseq, modelled in Dafny

subseq is a PyMOL plugin that searches the chains of loaded structures for a
target subsequence and selects the residues it finds. The plugin offers three
searches:

- a regular-expression search, with IUPAC wildcards rewritten for nucleic acids;
- a local-alignment search, using Smith–Waterman;
- a global-alignment search, using Needleman–Wunsch.

Each search runs over a data index. The index maps each requested model to
each requested chain's one-letter sequence and the residue ids (`resi`) of
its residues. A search reports `(model, chain, resi)` triples, or None when
nothing is found.

The model covers these parts of the plugin:

- **Substitution matrices** (module `SubMatrix`). The matrix text is parsed
  into a row → column → token table in two dialects. `Current` is the loader
  of `subseq.py`. `Modular` is the loader of `subseq/SubMatrix.py`,
  `subseq/ss_SubMatrix.py` and `subseq/ss_LA_SEARCH.py`. Pair lookup and
  `int()` of the stored token are modelled with each dialect's own exception.
- **Smith–Waterman.** `LocalAlignment` holds the recurrence, the three moves
  and tracebacks, and the three best-cell scans. Three classes run on
  `array2<real>` score matrices:
  - `SmithWaterman.SmithWaterman` models `subseq.py`;
  - `LegacySmithWaterman.SmithWaterman` models `subseq/SmithWaterman.py`;
  - `LaSearch.Swa` models `subseq/ss_LA_SEARCH.py`.
- **Needleman–Wunsch.** `GlobalAlignment` holds the recurrence, the move, the
  walk and the score accounting. The class `NeedlemanWunsch.NeedlemanWunsch`
  models both `subseq.py` and `subseq/NeedlemanWunch.py`, which are the same
  code.
- **Alignment statistics** (module `Alignment`). This covers
  `calculate_max_score`, `create_alignment_string`, and the block arithmetic
  and exceptions of `print_alignment`.
- **The three drivers** (module `Search`), with their per-chain steps in
  `RegexScan`, `LocalScan` and `GlobalScan` and the shared reporting in
  `Hits`. The scope of first_only is modelled as the code has it:
  - the regular-expression and local searches stop only the current model's
    chain loop;
  - the global search stops the whole sweep.
- **The data index in four variants**, over the shared `DataIndex`
  definitions and the insertion-ordered `Dicts`:
  - `SubseqData` for `subseq.py`;
  - `Data` for `subseq/Data.py`;
  - `SsData` for `subseq/ss_DATA.py`;
  - `PrototypeData` for `susbseq/ss_DATA.py`.
- **`parse_str_to_list`** (module `HelperFunctions`), over the string
  functions of `Text`.

Every exception the core lets escape is a value of `Errors.Error`, carried in
a `Result`. The current aligner classes take a score function that cannot
fail. Their lookup errors are raised before the fill, by the drivers' check of
every pair (`Hits.PairError`); the legacy class's `Create` makes the same check
itself. "## Left out" says where this differs from the source.

## Model

| member | source | states |
|---|---|---|
| Text.WordsUnwords | subseq.py:1150-1155 | `split()` on whitespace gives back exactly the tokens that were joined by single spaces, so a matrix row's tokens are read as they were written |
| Text.StripIsSlice | subseq.py:612 | `strip(chars)` keeps one contiguous slice of the input. Everything before and after it is in the stripped set, and the slice neither starts nor ends with such a character |
| Text.StrippedSlice | subseq.py:612 | whatever the left strip removes is a prefix of stripped characters, and whatever the right strip then removes is a suffix of stripped characters. So what is left is one slice of the input |
| Text.SplitOnJoin | subseq/HelperFunctions.py:57 | `split(sep)` yields one more piece than there are separators. No piece holds the separator, and joining the pieces with it restores the input |
| Text.SplitOnJoined | subseq.py:1145 | `split('\n')` undoes joining lines that hold no line break: it gives back exactly those lines |
| Text.SplitOnPiece | subseq.py:1145 | a leading piece with no separator becomes the start of the first part of the split |
| Text.JoinEnds | subseq.py:1145 | a joined text ends with its last line's last character and starts with its first line's first character |
| Text.UnwordsShape | subseq.py:1150 | tokens joined by single spaces start with the first token's first character and end with the last token's last character. The only whitespace in them is those spaces |
| Text.StripUnchanged | subseq.py:1145 | `strip()` leaves a text alone when neither end is whitespace |
| Text.SplitOnChars | subseq/HelperFunctions.py:57 | every character of every piece of `split(sep)` occurs in the input |
| Text.CountRemoveChars | subseq/HelperFunctions.py:55 | deleting a set of characters leaves the count of any other character unchanged |
| Text.ParseShowInt | subseq.py:759 | `int()` reads back every integer that `str()` writes, negative ones included |
| HelperFunctions.SubWordRunsIdentity | subseq/HelperFunctions.py:52 | the first substitution replaces each run of word characters by itself, so it returns its input unchanged |
| HelperFunctions.ParseStrToListSpec | subseq/HelperFunctions.py:48-57 | the result has one item more than the input has commas (`""` gives `[""]`). No item holds a comma, bracket, quote or whitespace, and joining the items with commas gives the input with those characters deleted |
| SubMatrix.Uncommented | subseq/SubMatrix.py:15-17 | the comment filter fails exactly when the Modular dialect meets an empty line (`line[0]` raises IndexError). Otherwise it keeps every non-comment line and only those |
| SubMatrix.RowOf | subseq.py:1162-1163 | a row built by popping entries into the columns has exactly the header's column names as keys |
| SubMatrix.RowOfAt | subseq.py:1162-1163 | the entry stored under the last occurrence of a column name is the entry at that column's position |
| SubMatrix.Tokenize | subseq.py:1153-1154 | one token list per row line, each the whitespace split of its line |
| SubMatrix.ParseRowsErrPrefix | subseq.py:1153-1160 | the row loop stops at the first bad row: once a prefix of the rows fails, the whole load fails with that prefix's exception |
| SubMatrix.ParseRowsStep | subseq.py:1153-1163 | a well-formed row extends the table built so far by one row name mapped to its entries, replacing an earlier row of the same name |
| SubMatrix.ParseRowsOk | subseq.py:1153-1165 | when every row holds a name and one entry per column, loading succeeds and the table's row names are exactly the rows' first tokens |
| SubMatrix.ParseRowsAt | subseq.py:1153-1165 | the last row of a given name decides that name's entries in the loaded table |
| SubMatrix.ParseRowsFails | subseq/SubMatrix.py:23-31 | the first bad row decides the error. An empty row raises IndexError from `pop(0)`. A row of the wrong length raises InvalidMatrixFormatError (Modular) or AttributeError from the missing `self.matrix_path` (Current) |
| SubMatrix.FillRow | subseq.py:1162-1163 | the column loop builds exactly the row `RowOf` describes |
| SubMatrix.FillRows | subseq.py:1153-1165 | the row loop builds exactly the table `ParseRows` defines from the split lines, or raises its exception |
| SubMatrix.ParseRowsNext | subseq.py:1153-1165 | one more line either raises its own exception or adds its row to the table built so far |
| SubMatrix.ParseRowsAdd | subseq.py:1153-1165 | a well-formed line stores its row under its first token, replacing an earlier row of the same name |
| SubMatrix.LoadMatrix | subseq.py:1134-1165 | the loader returns exactly `Load(text)`: strip, split at newlines, drop comments, pop the header (IndexError when nothing is left), then the row loop |
| SubMatrix.Lookup | subseq.py:1167-1178 | a pair lookup succeeds exactly when both symbols are in the table. Otherwise it raises KeyError (Current) or InvalidPairError for that pair (Modular) |
| SubMatrix.Score | subseq/ss_SubMatrix.py:30-32 | a pair's score is `int()` of its stored token. It fails with the lookup's exception, or with ValueError when the token is not an integer |
| SubMatrix.TableRows | subseq.py:1153-1155 | row k of a table written out is its name followed by its entries |
| SubMatrix.RenderRows | subseq.py:1153-1155 | each rendered row line is its name and entries joined by spaces |
| SubMatrix.TableRowsLoad | subseq.py:1153-1165 | loading distinct rows of the right length succeeds, holds exactly those row names, and returns every written entry under its row and column |
| SubMatrix.TableRowsEntry | subseq.py:1153-1165 | each written row is loaded back as the positional map of its entries |
| SubMatrix.RenderRowsTokens | subseq.py:1153-1154 | splitting the rendered lines gives back the written rows |
| SubMatrix.RenderedRowsLoad | subseq.py:1153-1165 | rows written as space-separated lines and read by the row loop give back every entry under its row and column: a round trip through the row loop |
| SubMatrix.UncommentedPlain | subseq.py:1146-1147 | lines that are neither empty nor comments pass the comment filter unchanged |
| SubMatrix.RenderedLine | subseq.py:1145-1147 | a line of tokens survives the strip, holds no line break and is not a comment when its first token does not start with '#' |
| SubMatrix.RenderedTableLoad | subseq.py:1145-1165 | a table written as text (a header line of the columns, then one line per row) loads back through the whole loader, with exactly its row names and every entry under its row and column. No column or row name may start with '#' |
| Alignment.Ungapped | subseq.py:681 | `replace('-', '')` leaves no gap and never lengthens the string |
| Alignment.UngappedAppend | subseq.py:681 | removing gaps distributes over concatenation |
| Alignment.UngappedNoGap | subseq.py:681 | a string without gaps is left unchanged |
| Alignment.UngappedCount | subseq.py:832-836 | residues plus gaps make up the whole aligned string |
| Alignment.CalculateMaxScore | subseq.py:755-761 | the loop returns the sum of each target symbol's score against itself, or the first lookup's exception |
| Alignment.DiagonalScoreErrPrefix | subseq/alignment.py:3-9 | once a prefix of the target raises, the whole computation raises the same exception |
| Alignment.DiagonalScoreOk | subseq/alignment.py:3-9 | `calculate_max_score` succeeds exactly when every target symbol has an integer score against itself |
| Alignment.DiagonalScorePositive | subseq.py:755-761 | with positive self-scores, a non-empty target has a positive maximum score (so no later division by it fails) |
| Alignment.AlignmentString | subseq.py:764-792 | the alignment string is as long as the shorter input. Column k is a bar exactly for equal symbols, a space exactly for a mismatch that involves a gap, and a colon exactly for any other mismatch |
| Alignment.CreateAlignmentString | subseq/alignment.py:12-40 | the loop builds that string, and its three counters are the counts of bars, spaces and colons in it. The counters sum to its length |
| Alignment.SymbolCounts | subseq/alignment.py:12-40 | identities, gaps and mismatches account for every column |
| Alignment.DocstringExample | subseq/alignment.py:14-22 | the docstring's example: `KTGTA` against `PT-KA` gives colon, bar, space, colon, bar, with 2 identities, 1 gap and 2 mismatches |
| Alignment.Slice | subseq.py:825-827 | a Python slice is never longer than the string |
| Alignment.WrittenBlockDrift | subseq.py:829-836 | as written, a block's start is its column offset plus the first number, so it ignores gaps in the blocks before it |
| Alignment.WrittenBlockSkipsResidue | subseq/alignment.py:72-84 | with one leading gap and 60 residues numbered from 1, the first block ends at 59 and the second starts at 61: residue 60 is never printed |
| Alignment.ResiduesUngapped | subseq.py:832-836 | counting residues column by column equals the length of the gap-free prefix |
| Alignment.BlockCoordinates | subseq.py:824-836 | the corrected block loop gives one block per 60 columns of the aligned subject. Block b starts at the first number plus the residues before column 60·b, and ends at the number of its last residue. Each block starts right after the previous one ends |
| Alignment.BlockStep | subseq.py:832-836 | a corrected block's end is its start plus its gap-free length minus one, as in the source |
| Alignment.BlockNext | subseq.py:829-836 | from starts that count the residues before a block, the block gets its intended numbers, and the next starts count the residues before the following block |
| Alignment.BlocksSnoc | subseq.py:824-836 | appending the next intended block keeps every block numbered as intended |
| Alignment.BlocksChained | subseq.py:824-836 | blocks numbered as intended follow each other: each starts one after the previous block ends |
| LocalAlignment.MaxOfBounds | subseq.py:987-1000 | `max` of the candidates is one of them and bounds all of them |
| LocalAlignment.Cell | subseq.py:987-1000 | a Smith–Waterman cell is never negative, and the border row and column are zero |
| LocalAlignment.Max4 | subseq.py:987-1000 | `max` of the four candidates is at least each of them |
| LocalAlignment.Max4IsOne | subseq.py:987-1000 | `max` of the four candidates is one of them |
| LocalAlignment.MaxOfFour | subseq.py:1000 | `max(0, diagonal, up, left)` over the list is the maximum of the four values |
| LocalAlignment.CellUnfold | subseq.py:987-1000 | an interior cell is `max(0, diagonal + pair score, up - gap, left - gap)` of its three neighbours |
| LocalAlignment.CellIsMax | subseq.py:987-1000 | a cell is at least its diagonal, up and left candidates, and equals one of them or 0 |
| LocalAlignment.NextMoveOn | subseq.py:946-968 | on the values it reads, `next_move` picks DIAG only when the cell is the diagonal plus the pair score, and UP or LEFT only when the cell is that neighbour minus the gap cost. Each chosen neighbour is positive |
| LocalAlignment.NextMoveAsWritten | subseq.py:946-968 | on the score matrix, every move it returns reproduces the cell's score from a positive neighbour |
| LocalAlignment.NextMoveFound | subseq.py:946-968 | at a positive cell the method always finds a move |
| LocalAlignment.NextMoveHangs | subseq.py:946-968 | target `A` against sequence `C` has best score 0 at (1, 1), and there `next_move` returns None. `get_traceback` never leaves such a cell |
| LocalAlignment.NextMoveFound0 | subseq.py:904-944 | the method falls through only at a zero cell |
| LocalAlignment.NextMove | subseq.py:946-968 | the corrected move agrees with the method wherever the method returns a move, reads its None as END (at a zero cell), and never leaves the matrix |
| LocalAlignment.LegacyNextMove | subseq/SmithWaterman.py:87-102 | the legacy move always returns something. DIAG needs a non-zero diagonal that is at least up and left, UP needs a non-zero up that is strictly largest, and LEFT needs a non-zero left that beats the diagonal and is at least up |
| LocalAlignment.MoveAt | subseq.py:946-968 | every move taken stays inside the matrix |
| LocalAlignment.WalkFromWalk | subseq.py:904-944 | for any choice of moves, the traceback loop, which accumulates from the end, equals the recursive walk joined onto what it had collected |
| LocalAlignment.WalkShape | subseq.py:904-944 | for gap-free inputs and any choice of moves that stay inside the matrix, a walk from (i, j) gives aligned strings of equal length. With gaps removed they are exactly `target[start_i-1:i]` and `sequence[start_j-1:j]`, with 1 ≤ start ≤ end |
| LocalAlignment.WalkShapeStep | subseq.py:904-944 | one step of the walk keeps the aligned strings equal in length and spanning the slices that end at the current cell, given that the rest of the walk does |
| LocalAlignment.TracebackShape | subseq.py:904-944 | the same holds for `get_traceback`'s own loop, including the final column appended after it |
| LocalAlignment.WalkFromStart | subseq/SmithWaterman.py:48-83 | whatever the moves, the start coordinates a traceback returns are between 1 and the cell it started from |
| LocalAlignment.BestIsMaximum | subseq.py:970-985 | the fill's best score is the maximum over all cells, and never negative. Its coordinate list holds exactly the interior cells with that score, in row-major order, and is empty only when the best score is 0 |
| LocalAlignment.LegacyIsFirstMaximum | subseq/SmithWaterman.py:21-34 | the legacy fill finds no cell exactly when a side is empty. Otherwise it returns the first cell, in row-major order, that holds the maximum |
| LocalAlignment.SwaIsFirstMaximum | subseq/ss_LA_SEARCH.py:61-69 | the SWA fill keeps the maximum. Its coordinate stays None exactly when every cell is 0, and otherwise is the first cell holding the maximum |
| ScoreMatrices.FilledIsBordered | subseq.py:857-880 | a filled score matrix has the zero border the constructor allocates |
| ScoreMatrices.FilledNextRow | subseq.py:975-976 | once every cell of a row is filled, the fill continues at the first column of the next row |
| ScoreMatrices.MatrixMove | subseq.py:946-968 | the move read from the array stays inside the matrix |
| ScoreMatrices.MatrixWalkIsWalk | subseq.py:904-944 | the traceback read from a filled array equals the traceback defined by the recurrence |
| ScoreMatrices.MatrixMoveIsMove | subseq.py:946-968 | on a filled matrix, the move read from the array is the move of the recurrence |
| ScoreMatrices.MatrixWalkOn | subseq.py:904-944 | the traceback read from the array equals the walk of any move function that agrees with the array at every interior cell |
| SmithWaterman.SmithWaterman.constructor | subseq.py:857-880 | `__init__` allocates a zeroed (len(target)+1) × (len(sequence)+1) matrix and fills it. Afterwards every cell holds the recurrence's value and the best score and coordinates are those `BestIsMaximum` describes |
| SmithWaterman.SmithWaterman.CalculateScore | subseq.py:987-1000 | a cell's score is the recurrence's value, computed from its three filled neighbours |
| SmithWaterman.SmithWaterman.FillScoreMatrix | subseq.py:970-985 | the fill leaves every cell at the recurrence's value, with the best score and all its coordinates recorded |
| SmithWaterman.SmithWaterman.FillRow | subseq.py:972-985 | one row of the fill extends the filled region and the best-so-far by exactly that row |
| SmithWaterman.SmithWaterman.FillCell | subseq.py:977-985 | one cell gets the recurrence, and the best score and its coordinates become those of the cells filled so far, ties appended in row-major order |
| SmithWaterman.SmithWaterman.NextMove | subseq.py:946-968 | the method returns the move `NextMoveOn` defines on the four cells it reads and the pair score |
| SmithWaterman.SmithWaterman.GetTraceback | subseq.py:904-944 | the traceback returns the corrected walk's aligned target, aligned subject and start coordinates |
| SmithWaterman.SmithWaterman.WalkMatrix | subseq.py:914-939 | the traceback loop on the array returns the walk read from the array: the aligned strings and the start cell |
| LegacySmithWaterman.SmithWaterman.Create | subseq/SmithWaterman.py:3-46 | `__init__` raises TypeError when target or sequence is empty: no cell is visited, and `find_traceback` subtracts from None. On non-empty inputs it raises exactly when some pair of target and sequence has no integer score. The error is that of the first such pair in the fill's row-major order: the table's lookup error, or ValueError from `int()`. Otherwise it yields a fully set-up object whose score function agrees with the table on every pair |
| LegacySmithWaterman.SmithWaterman.constructor | subseq/SmithWaterman.py:3-13 | on non-empty inputs, `__init__` allocates and fills the matrix, records the first maximal cell, and traces and tallies the alignment |
| LegacySmithWaterman.SmithWaterman.CalcScore | subseq/SmithWaterman.py:36-46 | a cell's score is the recurrence's value |
| LegacySmithWaterman.SmithWaterman.FillMatrix | subseq/SmithWaterman.py:21-34 | the fill leaves every cell at the recurrence's value and returns the first maximal cell, or nothing when a side is empty |
| LegacySmithWaterman.SmithWaterman.FillRow | subseq/SmithWaterman.py:23-34 | one row of the fill extends the filled region and the first maximum by exactly that row |
| LegacySmithWaterman.SmithWaterman.FillCell | subseq/SmithWaterman.py:25-32 | one cell gets the recurrence, and the kept cell is the first maximum among the cells filled so far |
| LegacySmithWaterman.SmithWaterman.NextMove | subseq/SmithWaterman.py:87-102 | the method returns the legacy move on the three neighbours it reads |
| LegacySmithWaterman.SmithWaterman.FindTraceback | subseq/SmithWaterman.py:48-83 | the traceback stores the legacy walk's aligned strings from the maximal cell |
| LegacySmithWaterman.SmithWaterman.WalkMatrix | subseq/SmithWaterman.py:53-80 | the traceback loop on the array returns the aligned strings of the legacy walk read from the array |
| LegacySmithWaterman.SmithWaterman.ConstructAlignmentString | subseq/SmithWaterman.py:104-124 | the alignment string and its three counts are those of `create_alignment_string` |
| LegacySmithWaterman.AlignmentShape | subseq/SmithWaterman.py:48-83 | for gap-free inputs, the stored alignment has two strings of equal length. Without gaps they are the target and sequence slices that end at the maximal cell |
| LaSearch.StepError | subseq/ss_LA_SEARCH.py:61-81 | a fill step succeeds exactly when the pair has a score and (i, j) lies inside the allocated lists. A covered pair outside them raises IndexError |
| LaSearch.Swa.constructor | subseq/ss_LA_SEARCH.py:43-59 | as written, `__init__` allocates len(seq2)+1 rows of len(seq1)+1 zeros, which is transposed with respect to the fill's indices |
| LaSearch.Swa.Corrected | subseq/ss_LA_SEARCH.py:46-52 | the corrected allocation is len(seq1)+1 rows of len(seq2)+1 zeros |
| LaSearch.Swa.CompleteIsFilled | subseq/ss_LA_SEARCH.py:61-69 | after a complete fill every cell holds the recurrence's value and the recorded coordinate is an interior cell |
| LaSearch.Swa.CalcScore | subseq/ss_LA_SEARCH.py:71-81 | a cell's score is the recurrence's value, or the exception of the pair lookup or of the list index, exactly when there is one |
| LaSearch.Swa.FillData | subseq/ss_LA_SEARCH.py:61-69 | the fill fails exactly when some cell's lookup or index fails. Otherwise every cell is filled and the first maximum is recorded |
| LaSearch.Swa.NoFailure | subseq/ss_LA_SEARCH.py:61-69 | when no cell can fail, the fill does not fail |
| LaSearch.Swa.FillRow | subseq/ss_LA_SEARCH.py:63-69 | one row of the fill either fails or extends the filled region and the maximum by that row |
| LaSearch.Swa.RowFails | subseq/ss_LA_SEARCH.py:62-66 | when the first failing cell is cell j of row i, the whole fill raises that cell's exception |
| LaSearch.Swa.FillCell | subseq/ss_LA_SEARCH.py:65-69 | one cell either raises its own exception and changes nothing, or is filled and updates the maximum |
| LaSearch.Swa.NextMove | subseq/ss_LA_SEARCH.py:115-125 | `_next_move` is the legacy move on the three neighbours |
| LaSearch.Swa.Traceback | subseq/ss_LA_SEARCH.py:83-113 | with no maximal cell, unpacking None raises TypeError and nothing changes. Otherwise the aligned strings are the legacy walk's |
| LaSearch.Swa.WalkMatrix | subseq/ss_LA_SEARCH.py:86-110 | the traceback loop on the array returns the aligned strings of the legacy walk read from the array |
| LaSearch.MaxOfReordered | subseq/ss_LA_SEARCH.py:71-81 | the order of the candidates in `max` does not change the score |
| LaSearch.TransposedFillFails | subseq/ss_LA_SEARCH.py:46-52 | with every pair scored, the as-written allocation makes the fill raise IndexError exactly when both sequences are non-empty and of different lengths |
| LaSearch.CorrectedFillSucceeds | subseq/ss_LA_SEARCH.py:61-69 | with every pair scored, the corrected allocation never makes the fill fail |
| LaSearch.UncoveredFillFails | subseq/ss_LA_SEARCH.py:36-39 | an unscored pair makes the fill fail under any allocation |
| GlobalAlignment.BorderIsProduct | subseq.py:1018-1023 | the border cell k is `-gap_cost * k` |
| GlobalAlignment.NwNextMoveFound | subseq.py:1091-1117 | `next_move` always returns a move. It is END exactly on the border, and every other move reproduces the cell's score from the cell it points to |
| GlobalAlignment.NwMove | subseq.py:1091-1117 | the move is END exactly on the border row and column |
| GlobalAlignment.NwNext | subseq.py:1050-1089 | every move that is not END strictly decreases i + j without increasing either index |
| GlobalAlignment.NwMoveCases | subseq.py:1050-1089 | DIAG consumes a symbol of each input, UP a target symbol against a gap, and LEFT a gap against a sequence symbol |
| GlobalAlignment.NwWalk | subseq.py:1050-1089 | the walk yields two aligned strings of equal length and stops on the border |
| GlobalAlignment.NwWalkFromWalk | subseq.py:1050-1089 | the traceback loop equals the recursive walk joined onto what it had collected |
| GlobalAlignment.NwWalkShape | subseq.py:1050-1089 | for gap-free inputs, the walk from (i, j) spans `target[start_i:i]` and `sequence[start_j:j]` once gaps are removed |
| GlobalAlignment.NwTracebackShape | subseq.py:1050-1089 | the same holds for `get_traceback` from the corner |
| GlobalAlignment.ColumnsScoreSnoc | subseq.py:1035-1048 | the score of the aligned columns adds up column by column |
| GlobalAlignment.NwStepScore | subseq.py:1035-1048 | a cell is the cell its move points to plus the score of the column that move emits |
| GlobalAlignment.NwWalkScore | subseq.py:1050-1089 | a cell's score is the border cell where its walk ends plus the scores of the columns the walk emitted |
| GlobalAlignment.AlignmentScoreExplained | subseq.py:1119-1121 | `get_alignment_score` is the gap penalty of the unaligned prefix plus the sum of the traceback's column scores |
| GlobalAlignment.NwMatrixMoveIsNextMove | subseq.py:1091-1117 | the move read from the filled array is the move of the recurrence |
| GlobalAlignment.NwMatrixWalkIsWalk | subseq.py:1050-1089 | the traceback read from the filled array is the traceback of the recurrence |
| NeedlemanWunsch.NeedlemanWunsch.constructor | subseq.py:1008-1016 | `__init__` allocates the matrix, initialises its border and fills it. Every cell then holds the Needleman–Wunsch recurrence's value |
| NeedlemanWunsch.NeedlemanWunsch.InitScoreMatrix | subseq.py:1018-1023 | the first row and column hold `-gap_cost * k` |
| NeedlemanWunsch.NeedlemanWunsch.InitFirstColumn | subseq/NeedlemanWunch.py:20-21 | column 0 holds `-gap_cost * i` |
| NeedlemanWunsch.NeedlemanWunsch.InitFirstRow | subseq/NeedlemanWunch.py:22-23 | row 0 holds `-gap_cost * j`, leaving column 0 as it was |
| NeedlemanWunsch.NeedlemanWunsch.FillScoreMatrix | subseq.py:1025-1033 | the fill leaves every cell at the recurrence's value |
| NeedlemanWunsch.NeedlemanWunsch.FillRow | subseq.py:1027-1033 | one row of the fill extends the filled region by exactly that row |
| NeedlemanWunsch.NeedlemanWunsch.CalculateScore | subseq.py:1035-1048 | a cell is the maximum of diagonal-plus-pair, up-minus-gap and left-minus-gap, with no floor at 0 |
| NeedlemanWunsch.NeedlemanWunsch.NextMove | subseq.py:1091-1117 | reading `target[i-1]` before testing i raises IndexError exactly when that side is empty at index 0. Otherwise the move is the one read from the matrix |
| NeedlemanWunsch.NeedlemanWunsch.GetTraceback | subseq.py:1050-1089 | the traceback raises IndexError exactly when target or sequence is empty. Otherwise it returns the walk from the corner |
| NeedlemanWunsch.NeedlemanWunsch.GetAlignmentScore | subseq.py:1119-1121 | the alignment score is the bottom-right cell of the recurrence |
| Dicts.Empty | subseq.py:506 | a new dict has no keys |
| Dicts.Put | subseq.py:509 | assignment maps the key to the value and appends the key only when it is new, so insertion order is kept |
| Dicts.Values | subseq.py:592-593 | the values, in key order |
| Dicts.KeysWhere | subseq.py:592-595 | the kept keys are exactly the keys whose value passes |
| Dicts.KeysWhereDistinct | subseq.py:592-595 | filtering keeps keys distinct |
| Dicts.Filtered | subseq.py:591-599 | the filtered dict holds exactly the entries that pass, with their values, in their original order |
| Dicts.FilteredUnique | subseq.py:591-599 | any dict that keeps the passing keys in order, with their values, is the filtered dict |
| Dicts.RemoveUnless | subseq.py:592-595 | the removal loop leaves exactly the filtered dict |
| DataIndex.TranslatedAll | subseq.py:561-575 | each record is translated in place: its residue name goes through the table or becomes the fallback, and nothing else changes |
| DataIndex.TranslateOrReplace | subseq.py:561-567 | `replace_to_aa_one_letter` (and the `na` one) rewrites every record's residue name through the table, using `replace_with` for an unknown code |
| DataIndex.TranslatedSymbols | subseq.py:561-575 | a translated name is a table value or the fallback, and the fallback is used exactly for names the table lacks |
| DataIndex.TranslateStrict | subseq/Data.py:151-153 | `self.one_letter[...]` succeeds exactly when every residue name is known, and then rewrites every record. Otherwise it raises KeyError at an unknown name |
| DataIndex.ModelEntry | subseq.py:511-518 | a model's entry holds exactly the model's chains that are requested, each with an empty sequence and id list |
| DataIndex.ConstructEntry | subseq.py:511-518 | the chain loop of construct_empty_data_dict builds exactly the model's entry: its requested chains, each empty |
| DataIndex.EmptyIndex | subseq.py:500-520 | the empty index holds exactly the requested models, each with its requested chains empty |
| DataIndex.ConstructEmpty | subseq.py:500-520 | the construction loops build exactly that empty index |
| DataIndex.Append | subseq.py:588-589 | appending one record keeps the index well formed |
| DataIndex.FillFrom | subseq.py:583-589 | filling only ever fails with KeyError, and otherwise keeps the index well formed |
| DataIndex.Fill | subseq.py:577-589 | the fill loop gives exactly the fold `FillFrom` defines |
| DataIndex.AppendEntries | subseq.py:588-589 | a record appends its symbol and id to its own chain and changes no other chain |
| DataIndex.FillOk | subseq.py:583-589 | the fill fails exactly when a requested record names a chain its model's entry lacks |
| DataIndex.FillContents | subseq.py:583-589 | after the fill, each chain holds its old contents followed by the symbols and ids of the requested records of that model and chain, in order |
| DataIndex.PickedHead | subseq.py:583-589 | the requested records of a chain are the first record, when it is one of them, followed by those of the rest |
| DataIndex.SymbolsIds | subseq.py:588-589 | with one-letter names, a chain's sequence and ids line up position by position |
| DataIndex.BuiltOk | subseq.py:474-482 | building the index fails exactly when a requested record's chain is missing from its model |
| DataIndex.BuiltContents | subseq.py:474-482 | the built index holds exactly the requested models. Each holds exactly its requested chains, and each chain holds the symbols and ids of its records in order |
| DataIndex.PickedFrom | subseq.py:585-586 | the records a chain receives are requested records of that model and chain |
| DataIndex.SymbolsLength | subseq/Data.py:155-165 | with names of at most one letter, a sequence is never longer than its ids, and equally long exactly when no name is empty |
| DataIndex.TableSymbols | subseq/Data.py:81-87 | every amino-acid and nucleic-acid code maps to one letter, except `CA`, which maps to the empty string |
| DataIndex.StrictTranslation | subseq/Data.py:151-153 | the strict rewrite, record by record, is the translation of the list |
| DataIndex.IdsExceedByCa | subseq/Data.py:155-165 | through `one_letter`, a chain's ids outnumber its sequence by exactly its `CA` records |
| DataIndex.DropEmptyChains | subseq.py:592-595 | the chain filter keeps every model and exactly the chains with a non-empty sequence, unchanged |
| DataIndex.DropEmptyModels | subseq.py:597-599 | the model filter keeps exactly the models with at least one chain, unchanged |
| DataIndex.DroppedEmpty | subseq.py:591-599 | after both filters, no model is empty, no chain is empty, every non-empty chain survives, and surviving chains are unchanged |
| DataIndex.RemoveEmptyChains | subseq.py:592-595 | the chain loop leaves exactly the chain-filtered index |
| DataIndex.DroppedChains | subseq.py:592-595 | filtering every model's chains in place gives the chain-filtered index |
| DataIndex.FilteredNext | subseq.py:592-595 | filtering the next model's chains extends the filtered models by one and touches no other model |
| DataIndex.PyIndex | subseq.py:489 | a Python index into a list of length n succeeds exactly for -n ≤ k < n, and picks the element k mod n |
| DataIndex.WalkAppend | subseq.py:488-489 | walking a tuple key is walking its prefix and then the rest |
| DataIndex.EntryPaths | subseq.py:484-494 | `data[model, chain, 'sequence']` and `data[model, chain, 'ids']` succeed exactly for a stored model and chain, and return that chain's sequence and ids |
| DataIndex.Subscripted | subseq.py:484-494 | a plain key succeeds exactly for a stored model and returns its chains, otherwise raising KeyError. A tuple key succeeds exactly when it walks the nested data, otherwise raising the variant's own exception |
| SubseqData.ContentsOk | subseq.py:522-531 | `fill_data_dict` fails exactly when a requested record's chain is missing from its model |
| SubseqData.ContentsModels | subseq.py:591-599 | every model left is requested and has a chain |
| SubseqData.ContentsChain | subseq.py:511-518 | every chain left is one of its model's chains and requested |
| SubseqData.ContentsHas | subseq.py:591-599 | every requested chain that received a residue survives the filter |
| SubseqData.ContentsEntries | subseq.py:577-599 | every chain left holds exactly the symbols and ids of its records, in order, and it has at least one |
| SubseqData.AlignedIds | subseq.py:561-575 | after either one-letter rewrite, a chain's sequence and ids have the same length |
| SubseqData.Data.constructor | subseq.py:474-482 | `__init__` lower-cases `search_for` and builds the empty index (the fill is `Create`) |
| SubseqData.Data.ConstructDataDict | subseq.py:500-520 | `construct_data_dict` sets the data to the empty index |
| SubseqData.Data.FillDataDict | subseq.py:522-531 | the records are rewritten by `search_for`. The fill then raises KeyError exactly when `FillFrom` fails, and otherwise the data is the filled index with empty chains and models removed |
| SubseqData.Data.FillData | subseq.py:577-589 | `fill_data` raises KeyError exactly when the fold fails, and otherwise stores the filled index |
| SubseqData.Data.FilterData | subseq.py:591-599 | `filter_data` leaves the index with empty chains and then empty models removed |
| SubseqData.Data.Keys | subseq.py:496-498 | `keys()` lists exactly the stored models |
| SubseqData.Data.Get | subseq.py:484-494 | `__getitem__` succeeds for a stored model or a tuple key that walks the data, and raises KeyError otherwise |
| SubseqData.Create | subseq.py:474-531 | constructing a Data succeeds exactly when the fill does, and then holds exactly the index `Contents` describes |
| Data.ContentsSpec | subseq/Data.py:89-95 | construction fails exactly on an unknown residue name or a record whose chain is missing from its model. Otherwise it keeps every requested model, empty ones included, because `filter_data` is never called |
| Data.Data.constructor | subseq/Data.py:89-95 | `__init__` stores the requests and builds the empty index |
| Data.Data.ConstructEmptyDataDict | subseq/Data.py:113-130 | `construct_empty_data_dict` sets the data to the empty index |
| Data.Data.FillEmptyDataDict | subseq/Data.py:132-135 | the fill raises KeyError exactly on an unknown name or a missing chain. Otherwise the records are rewritten through `one_letter` and the data is the filled index |
| Data.Data.FilterData | subseq/Data.py:167-173 | `filter_data` removes exactly the empty models |
| Data.Data.Keys | subseq/Data.py:110-111 | `keys()` lists exactly the stored models |
| Data.Data.Get | subseq/Data.py:97-108 | a plain key raises KeyError for a missing model. A tuple key that does not walk the data raises the generic 'bad key' exception |
| Data.Create | subseq/Data.py:89-95 | constructing a Data succeeds exactly when the strict build does, and then holds the strictly built index |
| SsData.StrictKeys | subseq/ss_DATA.py:26-36 | when the strict build succeeds, it holds exactly the requested models, each with exactly its requested chains that `cmd.get_chains` reports |
| SsData.GetDataSpec | subseq/ss_DATA.py:26-36 | `get_data` fails exactly as the strict build does. Otherwise it holds exactly the requested models that have a requested chain, each with all its requested chains, each chain with its records' symbols and ids |
| SsData.GetData | subseq/ss_DATA.py:26-36 | the pipeline returns exactly `Fetched` of the records |
| SsData.FillDict | subseq/ss_DATA.py:95-113 | `_fill_dict` raises KeyError exactly when the fold fails, and otherwise returns the filled index without its empty models |
| PrototypeData.Whitelisted | susbseq/ss_DATA.py:65-72 | the intended filter keeps exactly the records of requested models and chains, in order |
| PrototypeData.ShortListFails | susbseq/ss_DATA.py:68-72 | once the list is shorter than the range, the loop reaches an index past its end and raises IndexError |
| PrototypeData.WhitelistedAll | susbseq/ss_DATA.py:65-72 | a list of requested records passes the filter unchanged |
| PrototypeData.FilterAsWrittenOutcome | susbseq/ss_DATA.py:65-72 | as written, `_filter_data` raises IndexError exactly when a record other than the last must be removed. Otherwise it returns the intended result |
| PrototypeData.FilterAsWrittenFails | susbseq/ss_DATA.py:68-72 | a skipped record followed by a wanted one raises IndexError, although the intended result is the wanted record |
| PrototypeData.Blank | susbseq/ss_DATA.py:86-87 | a model's blank entry maps every requested chain to the empty string |
| PrototypeData.Reset | susbseq/ss_DATA.py:84-87 | every requested model gets a blank entry, and other models keep theirs |
| PrototypeData.AddSymbolEntries | susbseq/ss_DATA.py:89-90 | appending one record's symbol changes only its own chain's string |
| PrototypeData.AppendAll | susbseq/ss_DATA.py:89-90 | the append loop only ever fails with KeyError |
| PrototypeData.AppendAllOk | susbseq/ss_DATA.py:89-90 | when every record has an entry, appending succeeds and keeps every model and chain |
| PrototypeData.AppendAllContents | susbseq/ss_DATA.py:89-90 | each chain's string grows by the symbols of its records, in order |
| PrototypeData.OfWhitelisted | susbseq/ss_DATA.py:65-90 | on a filtered list, a chain's records are exactly the requested records for it |
| PrototypeData.WhitelistFits | susbseq/ss_DATA.py:80-90 | after the intended filter, every translated record has an entry to append to |
| PrototypeData.WhitelistAccepted | susbseq/ss_DATA.py:65-82 | every record left by the intended filter and the translation is a requested one |
| PrototypeData.WhitelistNames | susbseq/ss_DATA.py:65-82 | no record left by the intended filter and the translation names a model that was not requested |
| PrototypeData.ChainedModels | susbseq/ss_DATA.py:28-33 | `get_data` with the intended filter fails exactly on an unknown residue name. Otherwise it holds every requested model, with each requested chain's symbols, and keeps other models as they were |
| PrototypeData.AppendUntouched | susbseq/ss_DATA.py:89-90 | a model that no record names is left as it was |
| PrototypeData.ChainedEntry | susbseq/ss_DATA.py:80-90 | each requested chain's string is the symbols of its requested records, in order |
| PrototypeData.TranslatedAllAppend | susbseq/ss_DATA.py:80-90 | the one-letter lookup of a concatenation is the concatenation of the lookups |
| PrototypeData.PickedOne | susbseq/ss_DATA.py:80-90 | a record is picked for a chain the same way whether the whitelist drops it first or not |
| PrototypeData.PickedTranslated | susbseq/ss_DATA.py:65-90 | filtering before translating picks the same records for a chain as translating everything |
| PrototypeData.PickedAppend | susbseq/ss_DATA.py:89-90 | picking a chain's records distributes over concatenation |
| PrototypeData.Store.constructor | susbseq/ss_DATA.py:20-21 | the module state starts with an empty record list and no chains |
| PrototypeData.Store.GetData | susbseq/ss_DATA.py:28-33 | `get_data` returns exactly `Chained` of the stored chains and records, and stores it |
| PrototypeData.Store.InitData | susbseq/ss_DATA.py:52-58 | `_init_data` replaces the record list and leaves the chains alone |
| PrototypeData.Store.FilterDataAsWritten | susbseq/ss_DATA.py:65-72 | the loop as written raises IndexError exactly when `FilterAsWritten` does, and otherwise leaves its result |
| PrototypeData.Store.FilterData | susbseq/ss_DATA.py:65-72 | the corrected filter leaves exactly the requested records |
| PrototypeData.Store.ConstructAaChains | susbseq/ss_DATA.py:80-90 | `_construct_aa_chains` raises KeyError on an unknown name or a missing entry. Otherwise the chains are the blank entries with every translated record appended |
| PrototypeData.Store.TranslateList | susbseq/ss_DATA.py:81-82 | the translation raises KeyError exactly on an unknown name, and otherwise rewrites every record |
| PrototypeData.Store.ResetChains | susbseq/ss_DATA.py:84-87 | the reset loop gives every requested model a blank entry |
| PrototypeData.Store.AppendRecords | susbseq/ss_DATA.py:89-90 | the append loop raises KeyError exactly when `AppendAll` fails, and otherwise stores its result |
| PrototypeData.Store.DelData | susbseq/ss_DATA.py:40-45 | `del` of names the function never bound raises NameError, which is caught, so the module state is left unchanged |
| Hits.Emit | subseq.py:681-684 | reporting n residues from `start_pos` succeeds exactly when they are all within the ids, and otherwise raises IndexError. The k-th triple carries `ids[start + k]` |
| Hits.EmitInRun | subseq.py:640-645 | every triple reported is one of the ids asked for |
| Hits.ThenThen | subseq.py:635-651 | appending the triples found so far is associative |
| Hits.ThenNothing | subseq.py:635-651 | appending nothing changes nothing |
| Hits.PrefixedPrefixed | subseq.py:635-651 | prefixing earlier models' triples is associative |
| Hits.EmitRun | subseq.py:681-684 | the reporting loop gives exactly `Emit` |
| Hits.RowPairError | subseq.py:987-1000 | the fill of one row fails exactly when some pair in it has no score, and then with that pair's exception |
| Hits.PairError | subseq.py:970-985 | the fill fails exactly when some pair of target and sequence has no score, and then with such a pair's exception |
| Hits.PrintError | subseq.py:811-830 | `print_alignment` raises ZeroDivisionError exactly when the maximum score is 0 or the aligned subject is empty. It raises nothing at all exactly when, in addition, the id it reads exists and is an integer |
| RegexScan.CodesClasses | subseq.py:615-625 | each wildcard code has its character class |
| RegexScan.ClassesClean | subseq.py:615-625 | no character class contains a wildcard code, so a rewrite is never rewritten again |
| RegexScan.NotACode | subseq.py:615-625 | a character that is none of the codes has no class |
| RegexScan.RewriteFromAppend | subseq.py:615-625 | the chain of `replace` calls distributes over concatenation |
| RegexScan.RewriteFromAbsent | subseq.py:615-625 | a pattern without codes is left unchanged |
| RegexScan.RewriteFromChar | subseq.py:615-625 | a single character is replaced by its own class and by nothing else |
| RegexScan.RewriteFromCode | subseq.py:615-625 | a character listed in the one-letter table is replaced by its own class |
| RegexScan.RewriteIsExpand | subseq.py:615-625 | the ten `replace` calls together expand each character independently |
| RegexScan.ExpandAllClean | subseq.py:615-625 | the expansion contains no code, and leaves a code-free pattern unchanged |
| RegexScan.PatternSpec | subseq.py:612-625 | the pattern is the stripped target, expanded only for nucleic acids |
| RegexScan.SpansHits | subseq.py:637-645 | the matches' ids are reported exactly when every match lies within the ids. The triples number the total length of the matches, otherwise IndexError |
| RegexScan.SpansHitsSound | subseq.py:637-645 | every reported id lies inside one of the matches |
| RegexScan.ReChain | subseq.py:637-648 | a chain stops the model's chain loop exactly when first_only holds and there is a match |
| RegexScan.ReChainSpec | subseq.py:637-648 | under first_only only the first match is reported, otherwise all of them, and each triple lies in a reported match |
| RegexScan.ScanChain | subseq.py:637-648 | the match loop gives exactly `ReChain` |
| LocalScan.RunStart | subseq.py:679 | the first reported id lies before the traceback's end column |
| LocalScan.CellRun | subseq.py:676-694 | one coordinate's traceback, reporting and printing give exactly `CellHits` |
| LocalScan.CoordsRun | subseq.py:674-697 | the loop over the best coordinates gives exactly `CoordsHits` |
| LocalScan.CoordsAdvance | subseq.py:674-697 | one pass of the loop over the best coordinates: an error ends the search, `first_only` stops after the first cell, and otherwise the cell's hits come before those of the rest |
| LocalScan.LocalChainRun | subseq.py:666-700 | one chain of `subseq_la_search` gives exactly `LocalChain` |
| LocalScan.RunIsSubject | subseq.py:676-684 | the ids reported for a coordinate are those of the sequence residues the aligned subject covers |
| LocalScan.CellHitsMembers | subseq.py:676-684 | a coordinate reports exactly the ids of its run |
| LocalScan.CellHitsOk | subseq.py:676-694 | with a non-zero maximum and one numeric id per residue, a coordinate never raises, and reports one id per residue of its run |
| LocalScan.CoordsHitsMembers | subseq.py:674-697 | the chain stops exactly under first_only with a coordinate. It reports exactly the runs of its coordinates, only the first under first_only |
| LocalScan.CoordsHitsOk | subseq.py:674-697 | with well-formed ids, the coordinates never raise, and report something when there is one |
| LocalScan.LocalChainMembers | subseq.py:668-697 | a chain reports a triple exactly when it passes the minimum score and the triple is in the run of one of the best cells (only the first under first_only) |
| LocalScan.LocalChainErrors | subseq.py:668-672 | an unscored pair raises that pair's exception. Once all pairs are scored, a zero maximum raises ZeroDivisionError |
| LocalScan.LocalChainOk | subseq.py:668-700 | with scored pairs, a non-zero maximum and well-formed ids, a chain reports something exactly when it passes the filter and both sides are non-empty, and stops the model exactly under first_only then |
| GlobalScan.DropLast | subseq.py:726-727 | `s[:-1]` drops one character and leaves an empty string empty |
| GlobalScan.TrailingGaps | subseq.py:725 | the count of gaps ending a string never exceeds its length |
| GlobalScan.TrimTrailingGaps | subseq.py:725-727 | the trim loop gives exactly `Trim` |
| GlobalScan.TrimSpec | subseq/subseq_global_alignment.py:143-145 | the trim removes exactly the trailing gaps of the aligned target and as many columns of the subject. It fails (IndexError) exactly when the target is all gaps |
| GlobalScan.GlobalChainRun | subseq.py:717-750 | one chain of `subseq_ga_search` gives exactly `GlobalChain` |
| GlobalScan.TrimmedIsSubject | subseq.py:724-734 | the trimmed subject, once gaps are removed, is the stretch of the sequence that starts at `start_j` |
| GlobalScan.TracedOutcome | subseq.py:721-744 | after the traceback, a chain raises exactly when the aligned target is all gaps or `start_j` is the sequence length (where `ids[start_j]` fails). Otherwise it reports, in order, the ids of the subject residues the trimmed alignment keeps |
| GlobalScan.GlobalChainErrors | subseq/subseq_global_alignment.py:133-145 | an unscored pair raises that pair's exception. With the filter, a zero maximum raises ZeroDivisionError. Without it, an empty side raises IndexError |
| GlobalScan.GlobalChainFiltered | subseq/subseq_global_alignment.py:136-137 | a chain below the minimum is skipped silently, and only the copy with the filter skips |
| GlobalScan.GlobalChainOutcome | subseq.py:717-744 | with scored pairs, a non-zero maximum, non-empty gap-free sides and one numeric id per residue, a chain reports exactly what `TracedOutcome` describes for the Needleman–Wunsch traceback |
| GlobalScan.GlobalChainTraced | subseq.py:719-734 | past the checks, a chain's outcome is decided by its traceback alone |
| GlobalScan.GlobalChainTagged | subseq.py:729-734 | every triple reported carries one of the chain's ids |
| Search.Collected | subseq.py:653 | the search returns None exactly when nothing was found, and otherwise the triples found |
| Search.Step | subseq.py:636-651 | one chain of any driver gives exactly `StepOf` |
| Search.ChainsAdvance | subseq.py:636-651 | one pass of the chain loop: an exception ends the loop with it, a break ends it with what was found so far plus the chain's triples, otherwise the loop goes on with them added |
| Search.ChainLoop | subseq.py:636-651 | the chain loop gives exactly `ChainsFrom` over the driver's step |
| Search.ModelsAdvance | subseq.py:635-651 | one pass of the model loop: an exception ends the search, a break in the global search ends it with what was found so far, otherwise the sweep goes on |
| Search.Sweep | subseq.py:635-651 | the model loop gives exactly `SweepOf` |
| Search.SubseqReSearch | subseq.py:602-653 | `subseq_re_search` returns exactly `ReSearch` |
| Search.SubseqLaSearch | subseq.py:656-702 | `subseq_la_search` returns exactly `LaSearch` |
| Search.SubseqGaSearch | subseq.py:705-752 | `subseq_ga_search` returns exactly `GaSearch` |
| Search.HitTagged | subseq.py:641-643 | a triple a chain reports names that model and chain and one of the chain's ids |
| Search.StepTagged | subseq.py:641-643 | every triple a chain reports names that model and chain and one of the chain's ids |
| Search.StepBreaks | subseq.py:647-648 | a chain breaks out only under first_only, and always does when it found something under first_only |
| Search.CoordsStop | subseq.py:696-697 | the local chain stops exactly under first_only with a best coordinate |
| Search.DriverTagged | subseq.py:641-643 | the step of every driver tags its triples with the model, the chain and the chain's ids |
| Search.DriverBreaks | subseq.py:647-648 | the step of every driver never breaks without first_only, and breaks whenever it found something with it |
| Search.ChainsSound | subseq.py:636-651 | for a step that tags its triples, every triple of a chain loop names the model, a chain of it and one of that chain's ids |
| Search.ChainsComplete | subseq.py:636-651 | for a step that never breaks, the chain loop never breaks and reports exactly the union of its chains' triples |
| Search.ChainsFirstOnly | subseq.py:647-651 | for a step that breaks whenever it found something, a chain loop reports triples of at most one chain, and only when it broke |
| Search.ModelsSound | subseq.py:635-651 | for a step that tags its triples, every triple of the sweep names a stored model, a stored chain of it and one of that chain's ids |
| Search.ModelsComplete | subseq.py:635-651 | for a step that never breaks, the sweep reports exactly the triples of every chain of every model |
| Search.ModelsFirstOnly | subseq.py:746-750 | for a step that breaks whenever it found something, the sweep reports at most one chain per model, and at most one chain in all when a break ends the model loop too |
| Search.ForeignModel | subseq.py:746-750 | when the sweep goes on past a model that reported something under such a step, a break does not end the model loop, and that model's triples and any later model's triples name different models |
| Search.SweepComplete | subseq.py:635-651 | without first_only, every search reports exactly the triples of every chain of every model |
| Search.SweepFirstOnly | subseq.py:746-750 | under first_only, the regex and local searches report at most one chain per model, and the global search at most one chain in all |
| Search.CollectedSound | subseq.py:653 | every triple a search returns names a stored model, chain and id |
| Search.ReSearchOutcome | subseq.py:628-632 | a pattern `re.compile` refuses ends the search with that error. Any triple returned comes from a compiled pattern and names stored data |
| Search.LaSearchOutcome | subseq.py:661 | when `calculate_max_score` raises, the local search raises the same. Any triple returned names stored data |
| Search.GaSearchOutcome | subseq.py:711 | when `calculate_max_score` raises, the global search raises the same. Any triple returned names stored data |

## Left out

- PyMOL is not modelled. `cmd.iterate` and `cmd.get_chains` become parameters: the residue records, and a `chainsOf` function from model to chains. The selections made from the results are not modelled either (`select`, `new_id`, `SafeDict`), nor is the argument parsing that leads to the searches.
- The regular-expression engine is an oracle. `compiles` stands for `re.compile` and `finditer` returns the match spans of a pattern in a sequence. Case-insensitive matching (`re.I`) is the oracle's concern.
- File reading is not modelled. The matrix text is a parameter, and `SubMatrix.Builtin` returns the built-in tables by name without a contract. The OSError of a missing file is not modelled.
- Printing is not modelled. This covers `print_alignment`'s text, the warnings of `filter_data`, and the alignment score, which the drivers only print. What `print_alignment` computes that can raise or be numbered wrongly is modelled: the divisions, `ids[...]` and `int()`, and the block starts.
- Floats are modelled as `real`, and rounding is not modelled. The Needleman–Wunsch fill reads each pair with `float()` (subseq.py:1042), and its `next_move` reads the traced pairs with `int()` (subseq.py:1107). The model reads every pair with `int()`, so it agrees with the source only on tables whose tokens are all integers. The next three lines name what this costs.
- GlobalScan.GlobalChainRun, and the function GlobalScan.GlobalChain it computes, check every pair of target and sequence with `int()` before the Needleman–Wunsch fill (`Hits.PairError`). The source's fill uses `float()` (subseq.py:1035-1048), and only the cells the traceback visits go through `int()` (subseq.py:1091-1117). Take a token such as `2.5` that lies off the traceback path, for a pair that is not on the diagonal (`calculate_max_score` at subseq.py:755-761 reads only diagonal pairs). The source's fill accepts that token and goes on, but the model raises ValueError. In one example the source reports the chain and the model raises: (A,A)=5, (B,B)=5, (B,A)=2.5, target BA, sequence A, gap 10.
- GlobalScan.GlobalChainErrors states the errors of that up-front `int()` check. The exception kind can also differ from the source's. A `2.5` token read before a missing pair gives ValueError here, where the source's fill goes on and raises KeyError at the missing pair. On tables whose tokens are all integers, the two agree.
- Search.SubseqGaSearch inherits the same gap through GlobalScan.GlobalChainRun. It equals `GaSearch` on every table, but `GaSearch` matches the source's `subseq_ga_search` only when every token the fill reads is an integer or missing.
- `int()` is modelled as `Text.ParseInt`: an optional sign, then decimal digits. Python also accepts surrounding whitespace and underscores.
- Deleting from a dict while iterating over its keys (`filter_data`, `_fill_dict`) and comparing with `is '-'` are read as their evident intent: removal, and character equality. Under Python 2 `keys()` is a list, so the removal is safe; Python 3 would raise RuntimeError. The `is` comparison depends on string interning.
- LegacySmithWaterman.SmithWaterman.FillRow, LegacySmithWaterman.SmithWaterman.FillCell, LegacySmithWaterman.SmithWaterman.Create and LocalAlignment.LegacyIsFirstMaximum compare a score with the initial `max_score = None` as Python 2 does, where None is below every number, so the first cell is kept (`subseq/SmithWaterman.py:22-31`). Under Python 3 that comparison raises TypeError on every non-empty input, and this is not modelled.
- Dicts.Put keeps keys in insertion order, as Python 3.7 and later do. Python 2, which the comparisons above follow, iterates `keys()` in hash order. That order would decide the order of the returned triples and which chain `first_only` reports, and it is not modelled.
- SmithWaterman.SmithWaterman.constructor and NeedlemanWunsch.NeedlemanWunsch.constructor take a score function that cannot fail, so the lookup and `int()`/`float()` errors of `calculate_score` are not raised inside these classes. Their callers raise them before building the class, with `Hits.PairError` (GlobalScan.GlobalChainRun and LocalScan.LocalChainRun). For the Smith–Waterman class this is the same error as the source's row-major fill raises. For the Needleman–Wunsch class, see the `float()` lines above.
- When a KeyError escapes in the middle of a fill, the model reports the error and does not keep the partly filled data.
- The copies of the drivers in `subseq/subseq_re.py`, `subseq/subseq_local_alignment.py` and `subseq/subseq_global_alignment.py` are modelled with the `subseq.py` aligner classes. Those copies call `get_best_score`, `get_coordinates`, `get_traceback` and `get_name`, which only the `subseq.py` classes define.
- `subseq_la` in `subseq/ss_LA_SEARCH.py` is not part of this model. It aligns the target against a chain's key rather than its sequence, and prints.
- `subseq/ss_LA_SEARCH.py` stores `extend_cost` but never reads it, so the model stores it unread too.
- LocalAlignment.WalkShape, GlobalAlignment.NwWalkShape, LegacySmithWaterman.AlignmentShape, GlobalAlignment.AlignmentScoreExplained, LocalScan.LocalChainOk and GlobalScan.GlobalChainOutcome require target and sequence to contain no `-`. A `-` in an input would be indistinguishable from an inserted gap.
- Search.SubseqReSearch, Search.SubseqLaSearch and Search.SubseqGaSearch require `SweepReady`: distinct model keys, and a value for every key. Python dicts always satisfy this, but the association lists used here must be told.

## Findings

| source | as written | input that shows it | evidently intended | confidence | as-written member | corrected member |
|---|---|---|---|---|---|---|
| subseq.py:946-968 | `next_move` tests only the three neighbour moves. At a zero cell where none of `diagonal + pair`, `up - gap` and `left - gap` is 0, it returns None, and `get_traceback`'s loop, which stops only on END, never ends. The traceback starts at such a cell when the best score is 0, which means an all-zero matrix, with a non-zero pair score and a non-zero gap cost | target `A`, sequence `C`, match 5, mismatch -4, gap 10: the best score is 0 at (1, 1), and with `min_score` ≤ 0 the local search traces from there | a zero cell ends the traceback (END) | not executed | LocalAlignment.NextMoveHangs | LocalAlignment.NextMove |
| subseq/ss_LA_SEARCH.py:46-52 | the matrix is len(seq2)+1 rows of len(seq1)+1 columns, but the fill indexes `[i][j]` with i ≤ len(seq1) and j ≤ len(seq2) | any two non-empty sequences of different lengths with every pair scored, e.g. `AC` against `A`: the fill raises IndexError | len(seq1)+1 rows of len(seq2)+1 columns | not executed | LaSearch.TransposedFillFails | LaSearch.CorrectedFillSucceeds |
| susbseq/ss_DATA.py:65-72 | `_filter_data` deletes by index inside a `range` fixed in advance. Each deletion shifts the later records and shortens the list, so the loop runs past its end | records `[(ALA, 1, B, m), (GLY, 2, A, m)]` with models `[m]` and chains `[A]`: deleting index 0 leaves one record, and index 1 raises IndexError | keep exactly the records of requested models and chains | not executed | PrototypeData.FilterAsWrittenFails | PrototypeData.Store.FilterData |
| subseq/alignment.py:77-78 | each 60-column block starts at `i + target_start_index` and `i + int(ids[...])`. This counts columns, not residues, so every gap in an earlier block shifts the later blocks' numbering | an aligned target of one leading gap followed by 60 residues, numbered from 1: block 1 ends at 59, block 2 starts at 61, and residue 60 is never shown | each block starts one after the previous block's end | not executed | Alignment.WrittenBlockSkipsResidue | Alignment.BlockCoordinates |
