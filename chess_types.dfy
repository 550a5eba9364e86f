/** The values the helpers exchange with the chess rules library: squares,
    pieces, the library's verbose move records, the move a caller submits and
    the validation record handed back. Piece codes stay text ('p', 'n', 'b',
    'r', 'q', 'k'), because the helpers look them up by string. */
module ChessTypes {
  datatype Option<T> = None | Some(value: T)

  /** A square in algebraic form, such as "e4". */
  type Square = string

  /** A piece-type code as the library writes it: "p", "n", "b", "r", "q" or "k". */
  type PieceSymbol = string

  datatype Color = White | Black

  datatype Piece = Piece(kind: PieceSymbol, color: Color)

  /** The library's verbose move record. `captured` and `promotion` are
      absent (None) when the move does not capture or promote. */
  datatype Move = Move(
    from: Square,
    to: Square,
    piece: PieceSymbol,
    captured: Option<PieceSymbol>,
    promotion: Option<PieceSymbol>,
    san: string)

  /** A move as a caller submits it: source, destination and optional promotion. */
  datatype ChessMove = ChessMove(from: Square, to: Square, promotion: Option<PieceSymbol>)

  /** The outcome of validating and playing a submitted move. */
  datatype MoveValidation = MoveValidation(isValid: bool, move: Option<Move>, error: Option<string>)

  /** JavaScript truthiness of an optional string: present and not empty. */
  predicate Truthy(o: Option<string>) {
    o.Some? && o.value != ""
  }

  /** A well-formed algebraic square: a file a..h followed by a rank 1..8. */
  predicate IsSquare(s: string) {
    |s| == 2 && 'a' <= s[0] <= 'h' && '1' <= s[1] <= '8'
  }
}
