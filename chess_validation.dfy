/** Validation helpers: whether a FEN text is accepted, the destinations of
    the legal moves from a square, and whether a move appears among the legal
    moves. The rules library's FEN parser and move generator are inputs:
    `load` stands for building a game from a FEN and reading its FEN back
    (None when building throws), and move lists are what the library lists. */
module ChessValidation {
  import opened Text
  import opened ChessTypes
  import ChessLogic

  // ---------------------------------------------------------------------
  // isValidFEN
  // ---------------------------------------------------------------------

  /** `fen.split(' ').slice(0, 4).join(' ')`: the placement, side-to-move,
      castling and en-passant fields of a FEN record. */
  function FirstFields(fen: string): string {
    Join(Take(Split(fen), 4))
  }

  /** isValidFEN. The argument is None when it is not a string at all. */
  function IsValidFen(fen: Option<string>, load: string -> Option<string>): (valid: bool)
    ensures fen.None? || fen == Some("") ==> !valid
    ensures fen.Some? && load(fen.value).None? ==> !valid
    ensures fen.Some? && fen.value != "" && load(fen.value) == Some(fen.value) ==> valid
  {
    match fen
    case None => false
    case Some(text) =>
      if text == "" then false
      else
        match load(text)
        case None => false
        case Some(normal) => normal == text || FirstFields(normal) == FirstFields(text)
  }

  /** Two FEN texts have equal first-four-field texts exactly when their first
      four fields are equal one by one. */
  lemma FirstFieldsAgree(a: string, b: string)
    ensures FirstFields(a) == FirstFields(b) <==> Take(Split(a), 4) == Take(Split(b), 4)
  {
    if FirstFields(a) == FirstFields(b) {
      SplitJoin(Take(Split(a), 4));
      SplitJoin(Take(Split(b), 4));
    }
  }

  /** Once the library has parsed the text, acceptance depends only on the
      first four fields: the exact-match test never accepts anything the
      field comparison would reject. */
  lemma IsValidFenByFields(text: string, normal: string, load: string -> Option<string>)
    requires text != "" && load(text) == Some(normal)
    ensures IsValidFen(Some(text), load) <==> Take(Split(normal), 4) == Take(Split(text), 4)
  {
    FirstFieldsAgree(normal, text);
  }

  lemma JoinOfTwoOrMore(parts: seq<string>)
    requires |parts| >= 2
    ensures Join(parts) != ""
  {
    assert |Join(parts)| >= 1;
  }

  /** Fields five and six (the clocks) are ignored: a FEN whose library
      re-serialisation agrees with it on the first four fields is accepted,
      whatever either says after them. */
  lemma ClockFieldsIgnored(fields: seq<string>, normalFields: seq<string>, load: string -> Option<string>)
    requires |fields| >= 4 && |normalFields| >= 4
    requires AllNoSpace(fields) && AllNoSpace(normalFields)
    requires fields[..4] == normalFields[..4]
    requires load(Join(fields)) == Some(Join(normalFields))
    ensures IsValidFen(Some(Join(fields)), load)
  {
    JoinOfTwoOrMore(fields);
    SplitJoin(fields);
    SplitJoin(normalFields);
    IsValidFenByFields(Join(fields), Join(normalFields), load);
  }

  // ---------------------------------------------------------------------
  // getLegalMovesForSquare
  // ---------------------------------------------------------------------

  /** getLegalMovesForSquare (this file's copy): the destination of each move
      listed for the square, in order. */
  function LegalMovesForSquare(moves: seq<Move>): (targets: seq<Square>)
    ensures |targets| == |moves|
    ensures forall i :: 0 <= i < |moves| ==> targets[i] == moves[i].to
  {
    ChessLogic.LegalMovesForSquare(moves)
  }

  /** The moves the library lists when asked for one square: the legal moves
      starting there, in the order of the full list. */
  function MovesFromSquare(moves: seq<Move>, square: Square): (fromSquare: seq<Move>)
    ensures forall m :: m in fromSquare <==> m in moves && m.from == square
    decreases |moves|
  {
    if |moves| == 0 then []
    else if moves[0].from == square then [moves[0]] + MovesFromSquare(moves[1..], square)
    else MovesFromSquare(moves[1..], square)
  }

  // ---------------------------------------------------------------------
  // isMoveLegal
  // ---------------------------------------------------------------------

  /** A listed move matches the query: same source and destination, and the
      same promotion piece when a (non-empty) promotion is asked for. */
  predicate Matches(m: Move, from: Square, to: Square, promotion: Option<PieceSymbol>) {
    m.from == from && m.to == to && (Truthy(promotion) ==> m.promotion == promotion)
  }

  /** isMoveLegal over the library's list of legal moves. */
  function IsMoveLegal(moves: seq<Move>, from: Square, to: Square, promotion: Option<PieceSymbol>): (legal: bool)
    ensures legal <==> exists i :: 0 <= i < |moves| && Matches(moves[i], from, to, promotion)
    decreases |moves|
  {
    if |moves| == 0 then false
    else
      (moves[0].from == from && moves[0].to == to && (if Truthy(promotion) then moves[0].promotion == promotion else true))
      || IsMoveLegal(moves[1..], from, to, promotion)
  }

  /** Asking for a promotion only narrows the search: a move legal with a
      given promotion is legal with none given. */
  lemma PromotionNarrows(moves: seq<Move>, from: Square, to: Square, promotion: PieceSymbol)
    requires IsMoveLegal(moves, from, to, Some(promotion))
    ensures IsMoveLegal(moves, from, to, None)
  {
    var i :| 0 <= i < |moves| && Matches(moves[i], from, to, Some(promotion));
    assert Matches(moves[i], from, to, None);
  }

  /** Without a promotion filter, a move is legal exactly when its destination
      is among the destinations shown for its source square. */
  lemma LegalIffShownAsTarget(moves: seq<Move>, from: Square, to: Square)
    ensures IsMoveLegal(moves, from, to, None) <==> to in LegalMovesForSquare(MovesFromSquare(moves, from))
  {
    var shown := MovesFromSquare(moves, from);
    var targets := LegalMovesForSquare(shown);
    if IsMoveLegal(moves, from, to, None) {
      var i :| 0 <= i < |moves| && Matches(moves[i], from, to, None);
      assert moves[i] in shown;
      var j :| 0 <= j < |shown| && shown[j] == moves[i];
      assert targets[j] == to;
    }
    if to in targets {
      var j :| 0 <= j < |targets| && targets[j] == to;
      assert shown[j] in moves;
      var i :| 0 <= i < |moves| && moves[i] == shown[j];
      assert Matches(moves[i], from, to, None);
    }
  }
}
