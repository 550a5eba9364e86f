/** Game helpers around the rules library: packaging the result of playing a
    move, the destinations of the legal moves from one square, and finding the
    king of the side to move on the board grid. The library itself (move
    generation, playing a move) is outside the model: what it returns is an
    input here. */
module ChessLogic {
  import opened Text
  import opened ChessTypes

  // ---------------------------------------------------------------------
  // validateMove
  // ---------------------------------------------------------------------

  /** A value thrown by the library: an Error object with a message, or
      anything else. */
  datatype Thrown = ErrorObject(message: string) | OtherValue

  /** What playing a submitted move on the library's game gives: the move
      record, a falsy result, or a thrown value. */
  datatype PlayOutcome = Played(move: Move) | Refused | Threw(thrown: Thrown)

  /** A validation record is consistent: valid exactly when it carries a
      move, and an error exactly when it is not valid. */
  predicate Consistent(v: MoveValidation) {
    (v.isValid <==> v.move.Some?) && (v.isValid <==> v.error.None?)
  }

  /** validateMove: `play` is the library playing the submitted move. */
  function ValidateMove(play: ChessMove -> PlayOutcome, move: ChessMove): (v: MoveValidation)
    ensures Consistent(v)
    ensures v.isValid <==> play(move).Played?
    ensures play(move).Played? ==> v.move == Some(play(move).move)
    ensures play(move) == Refused ==> v.error == Some("Invalid move")
    ensures play(move) == Threw(OtherValue) ==> v.error == Some("Unknown error")
    ensures play(move).Threw? && play(move).thrown.ErrorObject? ==> v.error == Some(play(move).thrown.message)
  {
    match play(move)
    case Played(result) => MoveValidation(true, Some(result), None)
    case Refused => MoveValidation(false, None, Some("Invalid move"))
    case Threw(ErrorObject(message)) => MoveValidation(false, None, Some(message))
    case Threw(OtherValue) => MoveValidation(false, None, Some("Unknown error"))
  }

  // ---------------------------------------------------------------------
  // Legal moves from one square
  // ---------------------------------------------------------------------

  /** getLegalMovesForSquare: the destination of each move the library lists
      for the square, in the library's order. */
  function LegalMovesForSquare(moves: seq<Move>): (targets: seq<Square>)
    ensures |targets| == |moves|
    ensures forall i :: 0 <= i < |moves| ==> targets[i] == moves[i].to
    decreases |moves|
  {
    if |moves| == 0 then [] else [moves[0].to] + LegalMovesForSquare(moves[1..])
  }

  /** hasLegalMovesFromSquare */
  function HasLegalMovesFromSquare(moves: seq<Move>): (has: bool)
    ensures has <==> |moves| > 0
  {
    |moves| > 0
  }

  /** A square has legal moves exactly when it has some destination to show. */
  lemma HasMovesIffTargets(moves: seq<Move>)
    ensures HasLegalMovesFromSquare(moves) <==> LegalMovesForSquare(moves) != []
  {
  }

  // ---------------------------------------------------------------------
  // getKingSquare
  // ---------------------------------------------------------------------

  /** The library's board snapshot: eight rows, rank 8 first, each of eight
      cells, file a first. */
  type Board = seq<seq<Option<Piece>>>

  predicate IsGrid(board: Board) {
    |board| == 8 && forall row :: 0 <= row < 8 ==> |board[row]| == 8
  }

  predicate IsKingOf(cell: Option<Piece>, turn: Color) {
    cell.Some? && cell.value.kind == "k" && cell.value.color == turn
  }

  /** The square of grid cell (row, col): file 'a' + col, rank 8 - row. */
  function SquareName(row: nat, col: nat): (square: Square)
    requires row < 8 && col < 8
    ensures IsSquare(square)
  {
    [(97 + col) as char] + Decimal(8 - row)
  }

  /** The grid row of a square: row 0 is rank 8. */
  function RowOf(square: Square): (row: nat)
    requires IsSquare(square)
    ensures row < 8
  {
    8 - (square[1] as int - '0' as int)
  }

  /** The grid column of a square: column 0 is file a. */
  function ColOf(square: Square): (col: nat)
    requires IsSquare(square)
    ensures col < 8
  {
    square[0] as int - 'a' as int
  }

  /** Naming a cell and reading its coordinates back gives the cell. */
  lemma CellRoundTrip(row: nat, col: nat)
    requires row < 8 && col < 8
    ensures RowOf(SquareName(row, col)) == row && ColOf(SquareName(row, col)) == col
  {
    assert Decimal(8 - row) == [DigitChar(8 - row)];
  }

  /** Reading a square's coordinates and naming that cell gives the square. */
  lemma SquareRoundTrip(square: Square)
    requires IsSquare(square)
    ensures SquareName(RowOf(square), ColOf(square)) == square
  {
    var rank := 8 - RowOf(square);
    assert Decimal(rank) == [DigitChar(rank)];
  }

  /** The board cell a square names. */
  function CellAt(board: Board, square: Square): Option<Piece>
    requires IsGrid(board) && IsSquare(square)
  {
    board[RowOf(square)][ColOf(square)]
  }

  /** Cell (r1, c1) comes before (r2, c2) in row-major order. */
  predicate Before(r1: nat, c1: nat, r2: nat, c2: nat) {
    r1 < r2 || (r1 == r2 && c1 < c2)
  }

  predicate NoKingOf(board: Board, turn: Color)
    requires IsGrid(board)
  {
    forall row, col :: 0 <= row < 8 && 0 <= col < 8 ==> !IsKingOf(board[row][col], turn)
  }

  /** `square` holds a king of `turn`, and no cell before it in row-major
      order does. */
  predicate IsFirstKing(board: Board, turn: Color, square: Square)
    requires IsGrid(board)
  {
    && IsSquare(square)
    && IsKingOf(CellAt(board, square), turn)
    && forall row, col :: 0 <= row < 8 && 0 <= col < 8 && Before(row, col, RowOf(square), ColOf(square))
         ==> !IsKingOf(board[row][col], turn)
  }

  /** At most one square is the first king of a side. */
  lemma FirstKingUnique(board: Board, turn: Color, s1: Square, s2: Square)
    requires IsGrid(board) && IsFirstKing(board, turn, s1) && IsFirstKing(board, turn, s2)
    ensures s1 == s2
  {
    var r1, c1, r2, c2 := RowOf(s1), ColOf(s1), RowOf(s2), ColOf(s2);
    assert !Before(r1, c1, r2, c2) by { assert IsKingOf(board[r1][c1], turn); }
    assert !Before(r2, c2, r1, c1) by { assert IsKingOf(board[r2][c2], turn); }
    SquareRoundTrip(s1);
    SquareRoundTrip(s2);
  }

  /** getKingSquare: scans the grid row by row, from rank 8 and file a, and
      returns the square of the first king of the side to move. */
  method GetKingSquare(board: Board, turn: Color) returns (square: Option<Square>)
    requires IsGrid(board)
    ensures square.None? <==> NoKingOf(board, turn)
    ensures square.Some? ==> IsFirstKing(board, turn, square.value)
  {
    for row := 0 to 8
      invariant forall r, c :: 0 <= r < row && 0 <= c < 8 ==> !IsKingOf(board[r][c], turn)
    {
      for col := 0 to 8
        invariant forall r, c :: 0 <= r < row && 0 <= c < 8 ==> !IsKingOf(board[r][c], turn)
        invariant forall c :: 0 <= c < col ==> !IsKingOf(board[row][c], turn)
      {
        var cell := board[row][col];
        if cell.Some? && cell.value.kind == "k" && cell.value.color == turn {
          CellRoundTrip(row, col);
          return Some(SquareName(row, col));
        }
      }
    }
    return None;
  }
}
