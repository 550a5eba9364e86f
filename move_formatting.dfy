/** Display helpers for moves: the numbered move history ("1. e4 e5"), the
    English description of a move, the last move of a list, and the SAN of a
    library move record. */
module MoveFormatting {
  import opened Text
  import opened ChessTypes

  /** formatMoveToSAN: the library already carries the SAN text of a move. */
  function FormatMoveToSan(move: Move): (san: string)
    ensures san == move.san
  {
    move.san
  }

  // ---------------------------------------------------------------------
  // Move history
  // ---------------------------------------------------------------------

  /** The move at index `j`, or "" past the end (`moves[j] || ''`). */
  function MoveOrEmpty(moves: seq<string>, j: nat): string {
    if j < |moves| then moves[j] else ""
  }

  /** Entry `k` of the history: move number k + 1, White's move
      `moves[2k]`, then Black's move after a space when there is a
      non-empty one. */
  function Entry(moves: seq<string>, k: nat): string
    requires 2 * k < |moves|
  {
    var black := MoveOrEmpty(moves, 2 * k + 1);
    Decimal(k + 1) + ". " + moves[2 * k] + (if black != "" then " " + black else "")
  }

  /** The numbered history: one entry per pair of moves, the last entry of an
      odd-length list holding White's move alone. */
  function History(moves: seq<string>): (entries: seq<string>)
  {
    seq((|moves| + 1) / 2, k requires 0 <= k < (|moves| + 1) / 2 => Entry(moves, k))
  }

  /** formatMoveHistory: walks the list two moves at a time. */
  method FormatMoveHistory(moves: seq<string>) returns (formatted: seq<string>)
    ensures |formatted| == (|moves| + 1) / 2
    ensures formatted == History(moves)
  {
    formatted := [];
    var i := 0;
    while i < |moves|
      invariant 0 <= i <= |moves| + 1 && i % 2 == 0
      invariant |formatted| == i / 2
      invariant forall k :: 0 <= k < i / 2 ==> formatted[k] == Entry(moves, k)
    {
      var moveNumber := i / 2 + 1;
      var whiteMove := moves[i];
      var blackMove := if i + 1 < |moves| then moves[i + 1] else "";
      formatted := formatted + [Decimal(moveNumber) + ". " + whiteMove + (if blackMove != "" then " " + blackMove else "")];
      i := i + 2;
    }
  }

  /** The move number written at the head of a history entry. */
  function EntryNumber(entry: string): nat {
    DecimalValue(DigitPrefix(entry))
  }

  /** Entries are numbered 1, 2, 3, ... in order. */
  lemma HistoryNumbering(moves: seq<string>, k: nat)
    requires k < |History(moves)|
    ensures EntryNumber(History(moves)[k]) == k + 1
  {
    var d := Decimal(k + 1);
    var rest := ". " + moves[2 * k] + (if MoveOrEmpty(moves, 2 * k + 1) != "" then " " + MoveOrEmpty(moves, 2 * k + 1) else "");
    assert History(moves)[k] == d + rest;
    DigitPrefixOfConcat(d, rest);
    DecimalRoundTrip(k + 1);
  }

  /** Entry k starts with its number, ". " and White's move; what follows is
      " " and Black's move exactly when Black's move exists and is not empty. */
  lemma EntryShape(moves: seq<string>, k: nat)
    requires k < |History(moves)|
    ensures var head := Decimal(k + 1) + ". " + moves[2 * k];
            var e := History(moves)[k];
            |head| <= |e| && e[..|head|] == head &&
            (2 * k + 1 < |moves| && moves[2 * k + 1] != "" <==> |e| > |head|) &&
            (|e| > |head| ==> e[|head|..] == " " + moves[2 * k + 1])
  {
  }

  /** The library's SAN texts are non-empty and hold no space. */
  predicate IsSanList(moves: seq<string>) {
    forall i :: 0 <= i < |moves| ==> moves[i] != "" && NoSpace(moves[i])
  }

  /** The moves an entry lists: its words after the move number. */
  function EntryMoves(entry: string): seq<string> {
    Split(entry)[1..]
  }

  /** All moves the entries list, in order. */
  function HistoryMoves(entries: seq<string>): seq<string>
    decreases |entries|
  {
    if |entries| == 0 then [] else EntryMoves(entries[0]) + HistoryMoves(entries[1..])
  }

  lemma EntryWords(moves: seq<string>, k: nat)
    requires IsSanList(moves) && k < |History(moves)|
    ensures EntryMoves(History(moves)[k]) == moves[2 * k .. if 2 * k + 2 <= |moves| then 2 * k + 2 else |moves|]
  {
    var number := Decimal(k + 1) + ".";
    assert NoSpace(number);
    if 2 * k + 1 < |moves| {
      var words := [number, moves[2 * k], moves[2 * k + 1]];
      assert Join(words[1..]) == moves[2 * k] + " " + moves[2 * k + 1];
      assert History(moves)[k] == Join(words);
      SplitJoin(words);
      assert moves[2 * k .. 2 * k + 2] == words[1..];
    } else {
      var words := [number, moves[2 * k]];
      assert History(moves)[k] == Join(words);
      SplitJoin(words);
    }
  }

  lemma {:induction false} HistoryMovesFrom(moves: seq<string>, k: nat)
    requires IsSanList(moves) && k <= |History(moves)|
    ensures HistoryMoves(History(moves)[k..]) == moves[if 2 * k <= |moves| then 2 * k else |moves| ..]
    decreases |History(moves)| - k
  {
    var h := History(moves);
    if k < |h| {
      HistoryMovesFrom(moves, k + 1);
      EntryWords(moves, k);
      assert h[k..][1..] == h[k + 1..];
      var stop := if 2 * k + 2 <= |moves| then 2 * k + 2 else |moves|;
      assert moves[2 * k..] == moves[2 * k..stop] + moves[stop..];
    }
  }

  /** Reading the words of the history back, without the move numbers, gives
      the SAN list it was built from: every move appears once, in order. */
  lemma HistoryRoundTrip(moves: seq<string>)
    requires IsSanList(moves)
    ensures HistoryMoves(History(moves)) == moves
  {
    HistoryMovesFrom(moves, 0);
    assert History(moves)[0..] == History(moves);
  }

  // ---------------------------------------------------------------------
  // Last move
  // ---------------------------------------------------------------------

  /** getLastMove */
  function LastMove(moves: seq<string>): (last: string)
    ensures |moves| == 0 ==> last == ""
    ensures |moves| > 0 ==> last == moves[|moves| - 1]
  {
    if |moves| == 0 then "" else moves[|moves| - 1]
  }

  /** A non-empty last move is what the last history entry ends with. */
  lemma LastMoveEndsHistory(moves: seq<string>)
    requires LastMove(moves) != ""
    ensures var h := History(moves);
            var e := h[|h| - 1];
            var last := LastMove(moves);
            |h| > 0 && |last| <= |e| && e[|e| - |last|..] == last
  {
    var h := History(moves);
    var k := |h| - 1;
    var n := |moves|;
    var head := Decimal(k + 1) + ". " + moves[2 * k];
    if n % 2 == 1 {
      assert 2 * k == n - 1;
      assert h[k] == head + "";
    } else {
      assert 2 * k + 1 == n - 1;
      assert h[k] == head + (" " + moves[n - 1]);
    }
  }

  // ---------------------------------------------------------------------
  // Move description
  // ---------------------------------------------------------------------

  /** The English name of a piece code, or None for any other text. */
  function PieceName(code: PieceSymbol): Option<string> {
    if code == "p" then Some("Pawn")
    else if code == "n" then Some("Knight")
    else if code == "b" then Some("Bishop")
    else if code == "r" then Some("Rook")
    else if code == "q" then Some("Queen")
    else if code == "k" then Some("King")
    else None
  }

  /** The reverse table: the piece code an English name stands for. */
  function PieceCode(name: string): Option<PieceSymbol> {
    if name == "Pawn" then Some("p")
    else if name == "Knight" then Some("n")
    else if name == "Bishop" then Some("b")
    else if name == "Rook" then Some("r")
    else if name == "Queen" then Some("q")
    else if name == "King" then Some("k")
    else None
  }

  /** The six codes have six different names, so each name gives back its code. */
  lemma PieceNameRoundTrip(code: PieceSymbol, name: string)
    ensures PieceName(code) == Some(name) <==> PieceCode(name) == Some(code)
  {
  }

  /** The name of the moving piece, "Piece" for an unknown code. */
  function PieceLabel(code: PieceSymbol): (name: string)
    ensures name == "Piece" <==> PieceName(code).None?
    ensures PieceName(code).Some? ==> name == PieceName(code).value
  {
    match PieceName(code)
    case Some(name) => name
    case None => "Piece"
  }

  /** A table entry as a template literal renders it: a missing entry is
      the text "undefined". */
  function NameText(code: PieceSymbol): string {
    match PieceName(code)
    case Some(name) => name
    case None => "undefined"
  }

  function CaptureClause(move: Move): string {
    if Truthy(move.captured) then " captures " + NameText(move.captured.value) else ""
  }

  function PromotionClause(move: Move): string {
    if Truthy(move.promotion) then " and promotes to " + NameText(move.promotion.value) else ""
  }

  /** formatMoveDescription: the piece's name, "from" and the source, "to"
      and the destination, then the capture clause only when `captured` is
      set and the promotion clause only when `promotion` is set. The result
      is the description's words joined by single spaces. */
  function MoveDescription(move: Move): (text: string)
    ensures text == Join(DescriptionWords(move))
  {
    DescriptionJoin(move);
    PieceLabel(move.piece) + " from " + move.from + " to " + move.to + CaptureClause(move) + PromotionClause(move)
  }

  function CaptureWords(move: Move): seq<string> {
    if Truthy(move.captured) then ["captures", NameText(move.captured.value)] else []
  }

  function PromotionWords(move: Move): seq<string> {
    if Truthy(move.promotion) then ["and", "promotes", "to", NameText(move.promotion.value)] else []
  }

  /** The words of a description, in order. */
  function DescriptionWords(move: Move): seq<string> {
    [PieceLabel(move.piece), "from", move.from, "to", move.to] + CaptureWords(move) + PromotionWords(move)
  }

  lemma NamesHaveNoSpace(code: PieceSymbol)
    ensures NoSpace(PieceLabel(code)) && NoSpace(NameText(code))
    ensures PieceLabel(code) !in {"from", "to", "captures", "promotes", "and"}
    ensures NameText(code) !in {"from", "to", "captures", "promotes", "and"}
  {
  }

  // Helpers for DescriptionJoin: joining short word lists, and the string
  // identities that turn the joined words into the clause texts.

  lemma JoinFiveWords(a: string, b: string, c: string, d: string, e: string)
    ensures Join([a, b, c, d, e]) == a + " " + b + " " + c + " " + d + " " + e
  {
    var w := [a, b, c, d, e];
    assert Join(w[3..]) == d + " " + e;
    assert Join(w[2..]) == c + " " + (d + " " + e);
    assert Join(w[1..]) == b + " " + (c + " " + (d + " " + e));
  }

  lemma JoinTwoWords(a: string, b: string)
    ensures Join([a, b]) == a + " " + b
  {
    assert [a, b][1..] == [b];
  }

  lemma JoinFourWords(a: string, b: string, c: string, d: string)
    ensures Join([a, b, c, d]) == a + " " + (b + " " + (c + " " + d))
  {
    var w := [a, b, c, d];
    assert Join(w[2..]) == c + " " + d;
    assert Join(w[1..]) == b + " " + (c + " " + d);
  }

  lemma CapturesText(name: string)
    ensures " " + ("captures" + " " + name) == " captures " + name
  {
  }

  lemma PromotesText(name: string)
    ensures " " + ("and" + " " + ("promotes" + " " + ("to" + " " + name))) == " and promotes to " + name
  {
  }

  /** Appending words adds a space and their joined text. */
  lemma AppendWords(words: seq<string>, extra: seq<string>, clause: string)
    requires |words| >= 1
    requires if extra == [] then clause == "" else clause == " " + Join(extra)
    ensures Join(words + extra) == Join(words) + clause
  {
    if extra == [] {
      assert words + extra == words;
    } else {
      JoinAppend(words, extra);
    }
  }

  lemma CaptureClauseWords(move: Move)
    ensures if CaptureWords(move) == [] then CaptureClause(move) == "" else CaptureClause(move) == " " + Join(CaptureWords(move))
  {
    if Truthy(move.captured) {
      var name := NameText(move.captured.value);
      JoinTwoWords("captures", name);
      CapturesText(name);
    }
  }

  lemma PromotionClauseWords(move: Move)
    ensures if PromotionWords(move) == [] then PromotionClause(move) == "" else PromotionClause(move) == " " + Join(PromotionWords(move))
  {
    if Truthy(move.promotion) {
      var name := NameText(move.promotion.value);
      JoinFourWords("and", "promotes", "to", name);
      PromotesText(name);
    }
  }

  lemma BaseText(a: string, c: string, e: string)
    ensures a + " " + "from" + " " + c + " " + "to" + " " + e == a + " from " + c + " to " + e
  {
  }

  /** The description template equals its words joined with single spaces. */
  lemma DescriptionJoin(move: Move)
    ensures Join(DescriptionWords(move))
            == PieceLabel(move.piece) + " from " + move.from + " to " + move.to + CaptureClause(move) + PromotionClause(move)
  {
    var name, cw, pw := PieceLabel(move.piece), CaptureWords(move), PromotionWords(move);
    var base := [name, "from", move.from, "to", move.to];
    JoinFiveWords(name, "from", move.from, "to", move.to);
    BaseText(name, move.from, move.to);
    var b := Join(base);
    assert b == name + " from " + move.from + " to " + move.to;
    CaptureClauseWords(move);
    AppendWords(base, cw, CaptureClause(move));
    var bc := Join(base + cw);
    assert bc == b + CaptureClause(move);
    PromotionClauseWords(move);
    AppendWords(base + cw, pw, PromotionClause(move));
    assert Join(base + cw + pw) == bc + PromotionClause(move);
    assert DescriptionWords(move) == base + cw + pw;
  }

  /** A description reads, word by word: the piece, "from", the source, "to",
      the destination, then "captures" and the captured piece only for a
      capture, then "and promotes to" and the new piece only for a promotion. */
  lemma DescriptionSplits(move: Move)
    requires IsSquare(move.from) && IsSquare(move.to)
    ensures Split(MoveDescription(move)) == DescriptionWords(move)
  {
    WordsHaveNoSpace(move);
    SplitJoin(DescriptionWords(move));
  }

  lemma WordsHaveNoSpace(move: Move)
    requires IsSquare(move.from) && IsSquare(move.to)
    ensures AllNoSpace(DescriptionWords(move))
  {
    var base := [PieceLabel(move.piece), "from", move.from, "to", move.to];
    NamesHaveNoSpace(move.piece);
    assert AllNoSpace(base);
    if move.captured.Some? { NamesHaveNoSpace(move.captured.value); }
    assert AllNoSpace(CaptureWords(move));
    if move.promotion.Some? { NamesHaveNoSpace(move.promotion.value); }
    assert AllNoSpace(PromotionWords(move));
    var w := DescriptionWords(move);
    forall i | 0 <= i < |w| ensures NoSpace(w[i]) {
      if i >= 5 + |CaptureWords(move)| {
        assert w[i] == PromotionWords(move)[i - 5 - |CaptureWords(move)|];
      } else if i >= 5 {
        assert w[i] == CaptureWords(move)[i - 5];
      } else {
        assert w[i] == base[i];
      }
    }
  }

  lemma WordsMention(move: Move)
    ensures var w := DescriptionWords(move);
            |w| >= 5 && w[0] == PieceLabel(move.piece) && w[2] == move.from && w[4] == move.to &&
            (Truthy(move.captured) ==> |w| > 5 && w[5] == "captures")
    ensures IsSquare(move.from) && IsSquare(move.to) ==>
            var w := DescriptionWords(move);
            ("captures" in w <==> Truthy(move.captured)) &&
            ("promotes" in w <==> Truthy(move.promotion))
  {
    NamesHaveNoSpace(move.piece);
    if move.captured.Some? { NamesHaveNoSpace(move.captured.value); }
    if move.promotion.Some? { NamesHaveNoSpace(move.promotion.value); }
  }

  /** The description mentions a capture exactly when the move captures, and
      a promotion exactly when it promotes; the capture comes first. */
  lemma DescriptionMentions(move: Move)
    requires IsSquare(move.from) && IsSquare(move.to)
    ensures var w := Split(MoveDescription(move));
            |w| >= 5 && w[0] == PieceLabel(move.piece) && w[2] == move.from && w[4] == move.to &&
            ("captures" in w <==> Truthy(move.captured)) &&
            ("promotes" in w <==> Truthy(move.promotion)) &&
            (Truthy(move.captured) ==> |w| > 5 && w[5] == "captures")
  {
    DescriptionSplits(move);
    WordsMention(move);
  }
}
