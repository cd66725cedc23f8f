# pgn_cloak encoding and layout engine, in Dafny

This project models the core of `pgn_cloak.py`, which turns the moves of a chess game into a
printable exercise sheet. Each move, written in standard algebraic notation, is hidden in a row of
two-digit numbers:

- **Indexer.** Each character of the move maps to its code point minus 32. A character outside the
  alphabet `KQRBN abcdefgh 12345678 x+#=O-` raises.
- **Cipher.** A random key `k` in `[1, min(6, 94 - max(codes))]` is added to every code.
- **Row.** The row is `[k] + cipher + [95]`, padded with random decoys in `[0, 94]` to at least 12
  slots. It is printed after a 6-column label as zero-padded two-digit fields.
- **Ply range and labels.** A spec `..N` is Black's ply `2N` and a bare `N` is White's ply `2N - 1`.
  Every ply from the start ply to the end ply gets a label `N.` or `N..` and one row. The rows are
  optionally shuffled.
- **Layout.** Rows are placed in two columns per page. The first page's rows start below a board
  diagram and a four-line legend that shows each character's code.

Modules, one per component (all files sit beside this README):

- `errors.dfy` (`Errors`): `Option`, `Result` and the raised errors.
- `text.dfy` (`Text`): `str()`, `int()`, `f"{s:<w}"`, `f"{n:02}"` and `" ".join`.
- `alphabet.dfy` (`Alphabet`): `SAN_CHARS`, `SAN_ALLOWED`, `san_to_indices` and the legend.
- `cipher.dfy` (`Cipher`): `encode_move`.
- `rows.dfy` (`Rows`): `build_row`, plus the reader's side: parsing a row's text, whose label ends at its last dot, and decoding its slots.
- `plies.dfy` (`Plies`): `ply_from_spec` and ply labels.
- `collect.dfy` (`Collect`): `build_rows` and `random.shuffle`.
- `layout.dfy` (`Layout`): the row-placement loop of `render_pdf` and the A4 geometry.
- `board.dfy` (`Board`): `ascii_board`, over a board given as 64 optional piece symbols.

Randomness is modelled as nondeterministic choice in the methods. `random.randint(lo, hi)` becomes
`x :| lo <= x <= hi`, and `random.shuffle` becomes a Fisher–Yates pass whose swap index is chosen
the same way. Every property below therefore holds for every value the random source could return.
The chess library is replaced by the sequence of move texts. The board position before the first
encoded ply is represented by the moves that lead to it.

The alphabet's largest code is 88, for `x`. So `94 - max(codes)` is always at least 6, and the key
range is always exactly `[1, 6]` (`Cipher.KeyRangeIsFull`). The `randint` error for an empty range
can never happen, so `EncodeMove` has no path for it.

On three points the code's behaviour is easy to misread; the model follows the code:

- `build_rows` shuffles the whole list after every append, not once at the end. Either way the result
  is a permutation of the rows in game order, and that is what `BuildRows` states.
- Only the start ply is range-checked. An end ply past the game is cut to the last ply, and an end
  ply before the start ply gives no rows.
- 12 slots is a minimum row length, not an exact one: a longer cipher is never truncated.

## Model

| member | source | states |
|---|---|---|
| Text.NatStr | pgn_cloak.py:245 | `str(n)` of a move number is a non-empty digit string with no leading zero, and one digit exactly when `n < 10` |
| Text.ParseNatStr | pgn_cloak.py:98-100 | `int()` of the digits `str()` prints gives back the number |
| Text.TwoDigitField | pgn_cloak.py:130 | `f"{n:02}"` of a value below 100 is exactly two digits, tens first, and reads back as `n` |
| Text.ParseNat | pgn_cloak.py:98-100 | `int()` of a string of `d` ASCII digits is a natural number below `10^d` |
| Text.Format02 | pgn_cloak.py:130 | `f"{n:02}"` of `n >= 0` is all digits and at least two of them, exactly two when `n < 100`, with no leading zero from 10 on; a negative `n` starts with a minus sign |
| Text.Format02ReadsBack | pgn_cloak.py:130 | `int()` of `f"{n:02}"` gives back `n` for every `n >= 0` |
| Text.PadRight | pgn_cloak.py:130 | `f"{s:<w}"` is `max(w, len(s))` wide, starts with `s` and holds only spaces after it |
| Text.PadRightIsSpaces | pgn_cloak.py:130 | `f"{s:<w}"` is `s` followed by a run of spaces |
| Text.JoinPartAt | pgn_cloak.py:130 | `sep.join(parts)` of parts all `w` wide puts part `j` at offset `j * (w + len(sep))`, followed by `sep` unless it is the last part, and the last part ends the string |
| Text.JoinSuffix | pgn_cloak.py:130 | dropping the first `j` equal-width parts and their separators from `sep.join(parts)` leaves the join of the remaining parts |
| Text.JoinAvoids | pgn_cloak.py:130 | a character that is neither in `sep` nor in any part is not in `sep.join(parts)` |
| Text.DropSpaces | pgn_cloak.py:130 | dropping the leading spaces of a string leaves a suffix of it that is empty or starts with a non-space, and everything dropped is a space |
| Text.DropSpacesBefore | pgn_cloak.py:130 | dropping the leading spaces of a run of spaces followed by a string that does not start with a space gives back that string |
| Alphabet.CodeRange | pgn_cloak.py:35-41 | every allowed character has a code from 3 (`#`) to 88 (`x`), and the code maps back to the character |
| Alphabet.CodesDecode | pgn_cloak.py:113 | adding 32 back to each code of a valid move gives the move, character for character |
| Alphabet.FirstIllegal | pgn_cloak.py:109-112 | the position of the first character outside the alphabet: every earlier character is allowed and this one is not |
| Alphabet.SanToIndices | pgn_cloak.py:107-114 | succeeds exactly when every character is in `SAN_ALLOWED`, returning one code `ord(ch) - 32` per character in order; otherwise raises naming the first illegal character and the move |
| Alphabet.LegendCoversAlphabet | pgn_cloak.py:35-47 | the four legend groups together are exactly `SAN_CHARS` in order, and `SAN_ALLOWED` holds exactly those characters |
| Alphabet.LegendShowsCode | pgn_cloak.py:171-176 | the legend entry `ch:NN` of each allowed character shows, as two digits, the same `ord(ch) - 32` the indexer assigns |
| Alphabet.LegendEntry | pgn_cloak.py:175 | the entry `f"{ch}:{ord(ch)-32:02}"` starts with the character and a colon; for an allowed character it is four columns wide and ends in two digits |
| Alphabet.Legend | pgn_cloak.py:174-176 | the legend has four lines, Pieces, Files, Ranks and Symbols, and the line of a group of `n` characters is `7 + 6n - 2` columns wide |
| Alphabet.PaddedCell | pgn_cloak.py:175 | after a prefix, four-column parts joined by two spaces put part `i` at column `len(prefix) + 6i`, with two spaces after it unless it is the last |
| Alphabet.LegendCellAt | pgn_cloak.py:175 | in a legend line whose tag fits 7 columns, entry `i` sits at column `7 + 6i`, followed by two spaces unless it is the last, which ends the line |
| Alphabet.LegendLineLayout | pgn_cloak.py:175 | a legend line is the tag padded to 7 columns, then entry `i` at column `7 + 6i`, two spaces between entries, `7 + 6n - 2` columns in all |
| Alphabet.GroupShowsCode | pgn_cloak.py:174-175 | entry `i` of legend line `k` shows group `k`'s character `i`, a colon and its code as two digits that read back as `ord(ch) - 32` |
| Alphabet.GroupOf | pgn_cloak.py:35-47 | character `n` of `SAN_CHARS` is character `i` of legend group `k`, counting the groups in order |
| Alphabet.LegendListsCode | pgn_cloak.py:171-176 | every character in `SAN_ALLOWED` appears in some legend line at column `7 + 6i`, beside two digits that read back as its code |
| Cipher.Max | pgn_cloak.py:119 | `max(plain)` occurs in the list and no element exceeds it |
| Cipher.KeyRangeIsFull | pgn_cloak.py:119-120 | for every valid non-empty move `min(MAX_K, 94 - max(plain)) == 6`, so the key range is never empty |
| Cipher.ShiftBelowSentinel | pgn_cloak.py:119-121 | with `1 <= k <= min(MAX_K, 94 - max(plain))`, every `plain[i] + k` is between 1 and 94, strictly below `SENTINEL` |
| Cipher.EncodeMove | pgn_cloak.py:117-121 | succeeds exactly when the move is valid, and then `1 <= k <= KeyMax(codes) <= 6` and `cipher[i] = code[i] + k`, below 95; otherwise raises the indexer's error |
| Rows.BuildRow | pgn_cloak.py:124-130 | the row is `[k] + cipher + [95]` followed by decoys in `[0, 94]`, of length `max(12, len(cipher) + 2)`; the text is the label padded to 6 columns followed by the `:02` fields joined by spaces |
| Rows.ShapeOf | pgn_cloak.py:124-129 | the key, the cipher, the sentinel and then decoys in `[0, 94]` up to the row length make a row of build_row's shape |
| Rows.RowValues | pgn_cloak.py:119-129 | in an encoded row the key is in `[1, 6]`, the cipher values in `[0, 94]` and every slot in `[0, 95]`, so every field prints as two digits |
| Rows.UntilSentinel | pgn_cloak.py:125 | the slots before the first sentinel: a prefix with no sentinel, ended by a sentinel or by the end of the row |
| Rows.UntilSentinelOf | pgn_cloak.py:125 | reading up to the sentinel that follows sentinel-free values gives back exactly those values |
| Rows.EncodedBody | pgn_cloak.py:125 | in an encoded row the slots before the sentinel are exactly the move's cipher |
| Rows.RowRoundTrip | pgn_cloak.py:113-125 | subtracting the row's key from each slot up to the sentinel and adding 32 gives back the move |
| Rows.SentinelOnce | pgn_cloak.py:125-129 | 95 appears exactly once in an encoded row, at index `len(cipher) + 1` (as an index and as a count) |
| Rows.OccursOnce | pgn_cloak.py:125-129 | a value absent from both sides of it occurs once in the concatenation |
| Rows.ParseJoinedFields | pgn_cloak.py:130 | the space-joined two-digit fields of values below 100 read back as those values |
| Rows.FieldsWidth | pgn_cloak.py:130 | every `f"{n:02}"` field of a row whose slots are below 100 is two columns wide |
| Rows.JoinedLength | pgn_cloak.py:130 | the space-joined fields of a row take `3 * len(row) - 1` columns |
| Rows.FieldAt | pgn_cloak.py:130 | in the space-joined fields, field `j` is at column `3j` and is slot `j`'s `:02` field, with a space after it unless it is the last |
| Rows.FieldInText | pgn_cloak.py:130 | in a row's text, slot `j`'s `:02` field is at column `FieldStart + 3j`, with a space after it unless it is the last |
| Rows.ShiftedField | pgn_cloak.py:130 | a two-column field, and the space after it, keep their content when a prefix is put before the string |
| Rows.RowTextLayout | pgn_cloak.py:130 | a row's text is the label padded to `max(6, len(label))` columns, then field `j` at column `FieldStart + 3j` holding the two digits of slot `j`, with single spaces between fields |
| Rows.LabelEnd | pgn_cloak.py:130 | the reader's label boundary: the position just after the last dot of the text, with no dot after it |
| Rows.LabelEndAt | pgn_cloak.py:130 | a text made of a string that ends in a dot, then a dot-free rest, has its label boundary right after that string |
| Rows.FieldsHaveNoDot | pgn_cloak.py:130 | the joined two-digit fields of a row contain no dot |
| Rows.LabelThenFields | pgn_cloak.py:130 | a row's text is its label, then only spaces up to the field start, then the fields; the label ends at the text's last dot |
| Rows.RowTextRoundTrip | pgn_cloak.py:130 | for every label that ends in a dot, as all `build_rows` labels do, of any length, a row's text parses back to that label and the row's slots |
| Rows.TextRoundTrip | pgn_cloak.py:113-130 | from a row's printed text alone a reader recovers the label and the move, for labels of any length |
| Plies.SpecRoundTrip | pgn_cloak.py:94-101 | every ply `p >= 1` has a spec (`..N` for even, `N` for odd) that `ply_from_spec` maps back to `(p, side)`, with the same side marker the label of `p` uses |
| Plies.LabelAgreesWithSpec | pgn_cloak.py:94-101 | for a spec that gives a ply `>= 1`, the returned side marker is the label's suffix and the label's move number is the spec's number |
| Plies.PlyFromSpec | pgn_cloak.py:94-101 | a failing spec raises an invalid-spec error and is empty or not all digits; an accepted spec gives a ply `>= -1` whose parity matches the side marker, `..` exactly when the spec starts with `..`; every non-empty all-digit spec is accepted as White's |
| Plies.PlySpecValues | pgn_cloak.py:94-101 | for every non-empty digit string `N`, `..N` is accepted as ply `2*int(N)` with marker `..` and `N` as ply `2*int(N) - 1` with marker `.` |
| Plies.PlySpecExamples | pgn_cloak.py:94-101 | `..07` gives ply 14, `12` gives 23, `..0` gives 0 and `0` gives -1; `..`, the empty spec and `.5` raise the invalid-spec error |
| Plies.LabelShape | pgn_cloak.py:245 | a label ends in a dot, and its second-to-last character is a dot exactly when the ply is even, Black's |
| Plies.LabelReadsBack | pgn_cloak.py:245 | a label is digits followed by the ply's side marker, and `int()` of the digits gives `(ply + 1) // 2` |
| Plies.LabelFits | pgn_cloak.py:245 | labels of plies up to 19999 (White's move 10000, `10000.`) fit the 6-column label field |
| Plies.LabelOverflows | pgn_cloak.py:245 | the bound is sharp: ply 20000 has the seven-column label `10000..` |
| Collect.LastPlyBounds | pgn_cloak.py:241-243 | the last ply encoded is at most the number of plies and at most the end ply, and is one of the two |
| Collect.Shuffle | pgn_cloak.py:251 | `random.shuffle` yields a permutation: same length, same multiset |
| Collect.EncodePly | pgn_cloak.py:244-247 | one loop step of `build_rows`: the row is labelled with its ply and encodes that ply's move, and the text is the one `build_row` printed for it; or the move's illegal character is raised |
| Collect.AppendRow | pgn_cloak.py:247-251 | after appending the text `build_row` printed for a row and, when asked, shuffling, the rows are still the texts of the rows in game order, or a permutation of them |
| Collect.RowsForAppend | pgn_cloak.py:241-247 | appending the row of the next ply keeps row `i` the one made for ply `start + i` |
| Collect.AddPly | pgn_cloak.py:244-251 | one pass of the loop: succeeds exactly when the ply's move is valid, raising its first illegal character otherwise, and then extends the rows by the row for that ply, keeping game order or permutation |
| Collect.RowReadsBack | pgn_cloak.py:244-247 | a row `build_rows` makes for a ply decodes to that ply's move, and its printed text reads back as its label and a row that decodes to the move |
| Collect.ExampleRowsReadBack | pgn_cloak.py:240-252 | for five rows made from ply 1 on, as in the example game 1. e4 e5 2. Nf3 Nc6 3. Bb5, every row and every printed text decodes to its own move |
| Collect.EncodeFrom | pgn_cloak.py:240-252 | the loop from the start ply: succeeds exactly when every move up to `min(end_ply, len(moves))` is valid, and raises the first illegal character otherwise; one row per ply in that range, row `i` for ply `start + i`, in game order unless shuffled and a permutation of them when shuffled |
| Collect.BuildRows | pgn_cloak.py:228-252 | raises when `start_ply < 1` or `start_ply > len(moves)`, and raises the first illegal character in the range; otherwise gives one row per ply from the start ply to `min(end_ply, len(moves))` (none when the end ply comes first), row `i` labelled `Label(start + i)` and encoding move `start + i`, in game order unless shuffled, and a permutation of them when shuffled; the position before is `moves[:start_ply - 1]` |
| Layout.Starts | pgn_cloak.py:204-213 | the first row is on page 1, in column 0 or 1, at the first-page start offset |
| Layout.Follows | pgn_cloak.py:207-221 | the next row stays on the page or moves to the next one; a new page starts in column 0 at the regular top after column 1; on the same page it is `2 * line_h` lower in the same column, or at the top of column 1 after column 0; it never leaves a column it still fits in |
| Layout.PlaceRows | pgn_cloak.py:204-221 | every row is placed once, in order, in column 0 or 1 at that column's x; the first row starts at column 0 of page 1 after the bottom check, and each later row follows its predecessor by the bottom-check transition; rows are never below `MARG_B` when both start offsets are at or above it |
| Layout.NoBackwardTransitions | pgn_cloak.py:207-219 | the (page, column) slot never decreases, and each step stays in its slot or moves to the next |
| Layout.ColumnSpacing | pgn_cloak.py:220-221 | rows in the same column of the same page are `2 * line_h` apart per intervening row |
| Layout.ColumnFill | pgn_cloak.py:207-221 | from a row at `y0`, the next `m` rows stay in its column, at `y0 - 2 * line_h * k`, while `y0 - 2 * line_h * m` is at or above the bottom margin |
| Layout.SheetGeometry | pgn_cloak.py:192-201 | on A4 the line height is the body size, column 0 is at the left margin and column 1 right of the page's middle, and the first page's rows start below the diagram and legend, lower than later pages' rows, which start one body line below the top margin |
| Layout.SheetGeometryIsSafe | pgn_cloak.py:192-199 | on A4 both start offsets computed by `render_pdf` are at or above `MARG_B` and the line height is positive |
| Layout.SheetCapacity | pgn_cloak.py:192-221 | on A4, page 1 columns hold 35 rows and later columns 41: row 35 opens column 1 of page 1, row 70 opens page 2 at the regular top, row 111 opens column 1 of page 2 |
| Board.AsciiBoard | pgn_cloak.py:136-148 | eight lines, rank 8 first, each the rank's symbols from file a to h (a dot for an empty square) one space apart, with the trailing space stripped |
| Board.StripLine | pgn_cloak.py:147 | right-stripping a built line removes only its final space, since no piece symbol is a space |

## Left out

- `_download_pgn_from_chessgames` and `load_game`: network fetching, HTML scraping and file or stdin reading, which are I/O.
- `chess.pgn` parsing and the chess board (`board.san`, `board.push`, `board.copy`): the moves are given as their texts, and the position before the first encoded ply is given as the moves that lead to it.
- `draw_board`, `draw_legend` and `render_pdf` drawing calls (`setFont`, `drawString`, `showPage`, `save`): only which row goes to which page, column and position is modelled, plus the legend's text.
- The vertical positions of the diagram and legend lines on the first page: only the resulting first-page start offset is modelled (`Layout.SheetGeometry`).
- `random.seed` and the distribution of `randint` and `shuffle`: draws are nondeterministic choices within the stated ranges, so uniformity is not stated.
- `main` and argparse: command-line handling and `sys.exit`.
- `ply_from_spec` leniency of `int()` and of the regex `$` anchor (signs, surrounding whitespace, underscores, non-ASCII digits, a trailing newline): specs are `..` plus ASCII digits, or ASCII digits only.
- The unreachable code after `return` in `diagram_height`, which refers to undefined names.
- Floating-point arithmetic in the page geometry: the mm-based constants are exact reals, so rounding is not modelled.
- An empty move text, which makes `max(plain)` raise: `EncodeMove` and `BuildRows` require non-empty moves, and the chess library never produces an empty one.
- Collect.Shuffle: it returns a new sequence instead of permuting the list in place, since the list is a local value of `build_rows`.
- Board.AsciiBoard: `rstrip()` strips every kind of whitespace but the model strips spaces only. Piece symbols are letters, so the result is the same.
