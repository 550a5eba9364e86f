# Chess web app helpers — a Dafny model

This project models the board, move-list and notation helpers of a small chess
web application written in TypeScript. The chess rules themselves come from
the `chess.js` library: it generates legal moves, plays moves, and parses and
writes FEN and SAN. That library is not part of this model. What the
repository owns is a thin layer on top of it, and that layer is modelled here:

- `src/utils/moveFormatting.ts`: the numbered move history (`"1. e4 e5"`,
  move-number indications as in section 8.2.2 of the PGN Standard), the
  English description of a move, the last move of a list, and the SAN of a
  move record (module `MoveFormatting`);
- `src/utils/chessLogic.ts`: the king-square scan over the 8×8 board grid and
  its row/column to algebraic-square conversion, the packaging of a
  played move into a `MoveValidation` record, and the destinations of the
  legal moves from one square (module `ChessLogic`);
- `src/utils/chessValidation.ts`: the FEN acceptance check, the legal-move
  lookup with its optional promotion filter, and the per-square destinations
  (module `ChessValidation`).

Module `ChessTypes` holds the records of `src/types/chess.ts` and the library's
move record. Module `Text` holds the JavaScript string operations the helpers
use: a number's decimal text, and `split(' ')`, `slice(0, n)` and `join(' ')`.

The library's results are inputs:

- a move list is the library's verbose move list;
- the board is the library's `board()` snapshot, a `seq` of eight rows of
  eight optional pieces;
- `ValidateMove` takes `play`, the library playing the submitted move, with
  three outcomes: a move record, a falsy result, or a thrown value;
- `IsValidFen` takes `load`, the library building a game from the text and
  writing its FEN back. `load` gives None when building throws.

`getKingSquare` is a nested loop with an early return, and `formatMoveHistory`
is a loop that appends entries two moves at a time. Both are modelled as
methods with loops, proved against their specifications. Everything else is
a function.

The code accepts a FEN whose library re-serialisation matches it on the first
four space-separated fields: placement, side to move, castling and en passant
(section 16.1 of the PGN Standard). Fields five and six, the halfmove clock
and the fullmove number, are never compared: `ClockFieldsIgnored` proves
that a difference there never causes a rejection. `IsValidFenByFields` shows that the
exact-match test in the code is subsumed by the four-field comparison.

## Model

| member | source | states |
|---|---|---|
| `MoveFormatting.FormatMoveToSan` | src/utils/moveFormatting.ts:13-15 | the SAN text of a move is the move record's own `san` field, unchanged |
| `MoveFormatting.FormatMoveHistory` | src/utils/moveFormatting.ts:22-34 | returns ceil(n/2) entries for n moves (none for none). Entry k is the number k+1, `". "`, White's move `moves[2k]`, then `" "` and Black's move when it exists and is non-empty |
| `MoveFormatting.HistoryNumbering` | src/utils/moveFormatting.ts:25-30 | the number at the head of entry k reads back as k+1, so entries are numbered consecutively from 1 in input order |
| `MoveFormatting.EntryShape` | src/utils/moveFormatting.ts:26-30 | entry k begins with `k+1`, `". "` and `moves[2k]`. It continues exactly when `moves[2k+1]` exists and is non-empty, and then with `" " + moves[2k+1]`; an odd list's last entry and an empty Black move add nothing |
| `MoveFormatting.EntryWords` | src/utils/moveFormatting.ts:27-30 | for SAN texts (non-empty, no spaces), the words of entry k after its number are `moves[2k]` and, if it exists, `moves[2k+1]` |
| `MoveFormatting.HistoryRoundTrip` | src/utils/moveFormatting.ts:22-34 | for SAN texts, reading back the words of all entries without their numbers gives the input list: every move appears once, in order |
| `MoveFormatting.LastMove` | src/utils/moveFormatting.ts:63-68 | `""` for an empty list, the final element otherwise |
| `MoveFormatting.LastMoveEndsHistory` | src/utils/moveFormatting.ts:63-67 | a non-empty last move is the text the last history entry ends with |
| `MoveFormatting.PieceNameRoundTrip` | src/utils/moveFormatting.ts:42-49 | the six codes p/n/b/r/q/k name Pawn/Knight/Bishop/Rook/Queen/King. The names are distinct, so each name gives back its code and no other text has a name |
| `MoveFormatting.PieceLabel` | src/utils/moveFormatting.ts:51 | the moving piece is described as `"Piece"` exactly when its code has no name, and by its name otherwise |
| `MoveFormatting.MoveDescription` | src/utils/moveFormatting.ts:41-56 | the description is the word list piece name, `from`, source, `to`, destination, then `captures` and the captured piece's name only when `captured` is truthy, then `and promotes to` and the new piece's name only when `promotion` is truthy, joined by single spaces (an unknown captured or promotion code reads `undefined`) |
| `MoveFormatting.DescriptionJoin` | src/utils/moveFormatting.ts:52-55 | the template text of line 55, with the clauses of lines 52-53, equals that word list joined by single spaces |
| `MoveFormatting.DescriptionSplits` | src/utils/moveFormatting.ts:41-56 | for well-formed squares, the words of a description are, in order: piece name, `from`, source, `to`, destination. Then `captures` and the captured piece only if `captured` is set. Then `and promotes to` and the new piece only if `promotion` is set |
| `MoveFormatting.DescriptionMentions` | src/utils/moveFormatting.ts:52-55 | a description mentions `captures` exactly when the move captures and `promotes` exactly when it promotes, and the capture clause comes first |
| `ChessLogic.ValidateMove` | src/utils/chessLogic.ts:25-46 | `isValid` holds exactly when the library returned a move. Then `move` is that move and there is no error. Otherwise `move` is null and the error is `"Invalid move"` (falsy result), the thrown Error's message, or `"Unknown error"` (another thrown value) |
| `ChessLogic.LegalMovesForSquare` | src/utils/chessLogic.ts:54-57 | one destination per listed move: the move's `to`, same length and order |
| `ChessLogic.HasLegalMovesFromSquare` | src/utils/chessLogic.ts:65-68 | true exactly when the library lists at least one move for the square |
| `ChessLogic.HasMovesIffTargets` | src/utils/chessLogic.ts:54-68 | a square has legal moves exactly when its destination list is non-empty |
| `ChessLogic.SquareName` | src/utils/chessLogic.ts:103-105 | the name `'a' + col` followed by `8 - row` of every grid cell is a well-formed square: file a..h, rank 1..8 |
| `ChessLogic.CellRoundTrip` | src/utils/chessLogic.ts:103-105 | naming cell (row, col) and reading the name back gives row = 8 − rank and col = file − 'a' again; row 0 is rank 8 |
| `ChessLogic.SquareRoundTrip` | src/utils/chessLogic.ts:103-105 | every well-formed square is the name of exactly the cell its rank and file select |
| `ChessLogic.FirstKingUnique` | src/utils/chessLogic.ts:98-108 | "the first king of this side in row-major order" picks at most one square, so the scan's result is determined |
| `ChessLogic.GetKingSquare` | src/utils/chessLogic.ts:94-111 | returns null exactly when no cell holds a king of the side to move. Otherwise the returned square's cell (row 8 − rank, column file − 'a') holds such a king and no earlier cell in row-major order from (0,0) does. Other-colour kings and other pieces never produce a result |
| `ChessValidation.IsValidFen` | src/utils/chessValidation.ts:26-38 | a non-string or empty argument is rejected, and so is a text the library fails to parse. A text the library writes back unchanged is accepted |
| `ChessValidation.FirstFieldsAgree` | src/utils/chessValidation.ts:34 | the texts `split(' ').slice(0, 4).join(' ')` of two FENs are equal exactly when their first four fields are equal one by one |
| `ChessValidation.IsValidFenByFields` | src/utils/chessValidation.ts:32-34 | once parsed, a FEN is accepted exactly when the library's re-serialisation has the same first four fields |
| `ChessValidation.ClockFieldsIgnored` | src/utils/chessValidation.ts:34 | a FEN of at least four fields whose re-serialisation agrees with it on the first four is accepted, whatever fields five and six say |
| `ChessValidation.LegalMovesForSquare` | src/utils/chessValidation.ts:51-54 | one destination per listed move: the move's `to`, same length and order |
| `ChessValidation.MovesFromSquare` | src/utils/chessValidation.ts:52 | the library's list for one square holds exactly the listed legal moves that start on that square |
| `ChessValidation.IsMoveLegal` | src/utils/chessValidation.ts:70-76 | true exactly when some listed move has the given source and destination and, when a non-empty promotion is given, that promotion. An empty list gives false, and an empty or omitted promotion matches any variant |
| `ChessValidation.PromotionNarrows` | src/utils/chessValidation.ts:72-75 | a move legal with a given promotion is legal with none given |
| `ChessValidation.LegalIffShownAsTarget` | src/utils/chessValidation.ts:70-76 | without a promotion, a move is legal exactly when its destination is among the destinations listed for its source square |
| `Text.Decimal` | src/utils/moveFormatting.ts:30 | the text of a move number is a non-empty string of digits, a single digit exactly for numbers below ten, with no leading zero for a positive number |
| `Text.DecimalRoundTrip` | src/utils/moveFormatting.ts:26-30 | reading back the decimal text of a number gives the number |
| `Text.Split` | src/utils/chessValidation.ts:34 | `split(' ')` gives at least one piece and no piece holds a space |
| `Text.JoinSplit` | src/utils/chessValidation.ts:34 | joining the pieces of `split(' ')` with spaces gives back the text |
| `Text.SplitJoin` | src/utils/chessValidation.ts:34 | splitting space-free pieces joined with spaces gives back the pieces |
| `Text.Take` | src/utils/chessValidation.ts:34 | `slice(0, n)` keeps the first min(n, length) pieces |

## Left out

- The `chess.js` library is not part of this model. That covers move generation, check, castling, en passant, promotion, FEN parsing and writing, and SAN. Its results are inputs or function parameters.
- `getMoves`, `getPieceAt` and `isInCheck` (src/utils/chessLogic.ts:15-17, 76-78, 85-87) are left out. Each returns one library call's result unchanged, so the repository adds nothing to state.
- ChessLogic.ValidateMove: playing the move changes the library's game in place; the model covers only how the outcome is packaged.
- ChessValidation.MovesFromSquare states membership only. The library also keeps the order of the full list, which the model does not state.
- ChessValidation.IsValidFen: a non-string argument is the value None. The model does not distinguish the kinds of non-string values.
- MoveFormatting.NameText and PieceLabel treat every text other than the six codes as missing from the name table. The model does not cover keys that a JavaScript object inherits, such as `toString`.
- `src/App.tsx`, `server/index.js` and `src/utils/boardStyles.ts` are left out: UI state, a socket server that picks a random move, and CSS styles.
- `src/types/chess.ts` holds type declarations only. They appear here as datatypes.
- Tests and test setup are left out.
- The text of the library's exception messages is not modelled. An error message is any string.
