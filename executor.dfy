/**
 * The move executor `movePiece` as a transition on a snapshot of the game,
 * and the move-list notation it records.
 */
module Executor {
  import opened Pieces
  import opened Boards
  import opened Rules
  import opened CheckAnalysis

  /** The square and colour of a pawn whose promotion dialog is open. */
  datatype Promotion = Promotion(row: int, col: int, color: Color)

  /**
   * The whole observable game: the board, `gameState` (side to move, last
   * move, the open promotion that `awaitingPromotion` flags, the checkmate
   * flag) and `moveHistory`.
   */
  datatype Snapshot = Snapshot(board: Board, player: Color, lastMove: Option<LastMove>,
                               promotion: Option<Promotion>, checkmate: bool, history: seq<string>)

  datatype Outcome = Outcome(game: Snapshot, ok: bool)

  /** The file letter of a column: 'a' for column 0. */
  function FileChar(c: int): char
    requires 0 <= c < 8
  {
    (97 + c) as char
  }

  /** The rank digit of a row: '8' for row 0. */
  function RankChar(r: int): char
    requires 0 <= r < 8
  {
    (48 + 8 - r) as char
  }

  /** The move-list entry: "<glyph> (<file><rank>) to (<file><rank>)". */
  function Notation(p: Piece, fr: int, fc: int, tr: int, tc: int): (s: string)
    requires OnBoard(fr, fc) && OnBoard(tr, tc)
    ensures |s| == 14
  {
    [Glyph(p)] + " (" + [FileChar(fc), RankChar(fr)] + ") to (" + [FileChar(tc), RankChar(tr)] + ")"
  }

  /** Reads a piece back from its glyph. */
  function PieceOfGlyph(g: char): Option<Piece>
  {
    if g == '♔' then Some(Piece(King, White))
    else if g == '♕' then Some(Piece(Queen, White))
    else if g == '♖' then Some(Piece(Rook, White))
    else if g == '♗' then Some(Piece(Bishop, White))
    else if g == '♘' then Some(Piece(Knight, White))
    else if g == '♙' then Some(Piece(Pawn, White))
    else if g == '♚' then Some(Piece(King, Black))
    else if g == '♛' then Some(Piece(Queen, Black))
    else if g == '♜' then Some(Piece(Rook, Black))
    else if g == '♝' then Some(Piece(Bishop, Black))
    else if g == '♞' then Some(Piece(Knight, Black))
    else if g == '♟' then Some(Piece(Pawn, Black))
    else None
  }

  /** Reads a square back from its file letter and rank digit. */
  function SquareOfName(f: char, r: char): Option<(int, int)>
  {
    if 'a' <= f <= 'h' && '1' <= r <= '8' then Some((56 - r as int, f as int - 97)) else None
  }

  /** Reads a move-list entry back into its piece and squares. */
  function ParseNotation(s: string): Option<(Piece, int, int, int, int)>
  {
    if |s| != 14 || s[1..3] != " (" || s[5..11] != ") to (" || s[13] != ')' then None
    else
      match (PieceOfGlyph(s[0]), SquareOfName(s[3], s[4]), SquareOfName(s[11], s[12]))
      case (Some(p), Some(from), Some(to)) => Some((p, from.0, from.1, to.0, to.1))
      case _ => None
  }

  /** A move-list entry names its piece and both squares unambiguously. */
  lemma {:induction false} NotationRoundTrip(p: Piece, fr: int, fc: int, tr: int, tc: int)
    requires OnBoard(fr, fc) && OnBoard(tr, tc)
    ensures ParseNotation(Notation(p, fr, fc, tr, tc)) == Some((p, fr, fc, tr, tc))
  {
    var s := Notation(p, fr, fc, tr, tc);
    assert s[0] == Glyph(p);
    assert s[1..3] == " (";
    assert s[3] == FileChar(fc) && s[4] == RankChar(fr);
    assert s[5..11] == ") to (";
    assert s[11] == FileChar(tc) && s[12] == RankChar(tr);
    assert PieceOfGlyph(Glyph(p)) == Some(p) by {
      match (p.color, p.kind)
      case _ =>
    }
  }

  /** The en-passant branch of `movePiece`: a pawn moving one column sideways onto an empty square. */
  predicate EnPassant(b: Board, p: Piece, fr: int, fc: int, tr: int, tc: int)
    requires OnBoard(tr, tc)
  {
    p.kind == Pawn && Abs(tc - fc) == 1 && b[tr][tc].None?
  }

  /** A white pawn reaching row 0 or a black pawn reaching row 7. */
  predicate Promotes(p: Piece, tr: int)
  {
    (p == Piece(Pawn, White) && tr == 0) || (p == Piece(Pawn, Black) && tr == 7)
  }

  /** The board after the move is carried out: en-passant victim removed, origin emptied, piece on the target. */
  function Placed(b: Board, fr: int, fc: int, tr: int, tc: int): (b': Board)
    requires OnBoard(fr, fc) && OnBoard(tr, tc) && b[fr][fc].Some?
    ensures b'[tr][tc] == b[fr][fc]
    ensures (fr, fc) != (tr, tc) ==> b'[fr][fc].None?
    ensures EnPassant(b, b[fr][fc].value, fr, fc, tr, tc) && tr != fr ==> b'[fr][tc].None?
    ensures forall i, j :: OnBoard(i, j) && (i, j) != (fr, fc) && (i, j) != (tr, tc) && (i, j) != (fr, tc)
                           ==> b'[i][j] == b[i][j]
    ensures !EnPassant(b, b[fr][fc].value, fr, fc, tr, tc) && (fr, tc) != (tr, tc) && (fr, tc) != (fr, fc)
            ==> b'[fr][tc] == b[fr][tc]
  {
    var b1 := if EnPassant(b, b[fr][fc].value, fr, fc, tr, tc) then Set(b, fr, tc, None) else b;
    Set(Set(b1, fr, fc, None), tr, tc, b[fr][fc])
  }

  /** The gates of `movePiece` all pass: no open promotion, no own piece on the target, a valid move. */
  predicate Accepted(g: Snapshot, fr: int, fc: int, tr: int, tc: int)
    requires OnBoard(fr, fc) && OnBoard(tr, tc)
  {
    && g.promotion.None?
    && !(g.board[tr][tc].Some? && ColorOf(g.board[tr][tc]) == g.player)
    && g.board[fr][fc].Some?
    && ValidMove(g.board, g.lastMove, g.board[fr][fc].value, fr, fc, tr, tc)
  }

  /**
   * movePiece(from, to). A rejected request changes nothing. An accepted one
   * records the last move and may open a promotion; if the king of the player to move
   * is then attacked, only the origin and target cells are written back and the
   * request fails; otherwise the move is committed, listed and the turn passes.
   */
  ghost function Step(g: Snapshot, fr: int, fc: int, tr: int, tc: int): Outcome
    requires OnBoard(fr, fc) && OnBoard(tr, tc)
  {
    if !Accepted(g, fr, fc, tr, tc) then Outcome(g, false)
    else Settle(g, Moved(g, fr, fc, tr, tc), fr, fc, tr, tc)
  }

  /** The game right after an accepted move is carried out: the board, `lastMove` and the promotion trigger. */
  function Moved(g: Snapshot, fr: int, fc: int, tr: int, tc: int): Snapshot
    requires OnBoard(fr, fc) && OnBoard(tr, tc) && g.board[fr][fc].Some?
  {
    var p := g.board[fr][fc].value;
    g.(board := Placed(g.board, fr, fc, tr, tc), lastMove := Some(LastMove(p, fr, fc, tr, tc)),
       promotion := if Promotes(p, tr) then Some(Promotion(tr, tc, p.color)) else g.promotion)
  }

  /**
   * The rest of an accepted move from `g1`, the game `Moved` gives: the
   * self-check rollback of the two cells, or the move list, the turn and the
   * checkmate flag.
   */
  ghost function Settle(g: Snapshot, g1: Snapshot, fr: int, fc: int, tr: int, tc: int): Outcome
    requires OnBoard(fr, fc) && OnBoard(tr, tc) && g.board[fr][fc].Some?
  {
    var piece, target := g.board[fr][fc], g.board[tr][tc];
    if InCheck(g1.board, g1.lastMove, g.player) then
      Outcome(g1.(board := Set(Set(g1.board, fr, fc, piece), tr, tc, target)), false)
    else
      var next := Opponent(g.player);
      var mate := InCheck(g1.board, g1.lastMove, next) && Checkmate(g1.board, g1.lastMove, next);
      Outcome(g1.(player := next, history := g.history + [Notation(piece.value, fr, fc, tr, tc)],
                  checkmate := g.checkmate || mate), true)
  }

  /** The four pieces the promotion dialog offers. */
  predicate PromotionKind(k: Kind)
  {
    k == Queen || k == Rook || k == Bishop || k == Knight
  }

  /**
   * A click on the promotion dialog's button for kind `k`: the promoted square
   * gets a `k` of the pawn's colour, the dialog closes and the turn passes to
   * the other colour.
   */
  function Promote(g: Snapshot, k: Kind): (g': Snapshot)
    requires g.promotion.Some? && OnBoard(g.promotion.value.row, g.promotion.value.col)
    requires PromotionKind(k)
    ensures var pr := g.promotion.value;
            && g'.board[pr.row][pr.col] == Some(Piece(k, pr.color))
            && (forall i, j :: OnBoard(i, j) && (i, j) != (pr.row, pr.col) ==> g'.board[i][j] == g.board[i][j])
            && g'.promotion.None?
            && g'.player == Opponent(pr.color)
            && g'.lastMove == g.lastMove && g'.checkmate == g.checkmate && g'.history == g.history
  {
    var pr := g.promotion.value;
    g.(board := Set(g.board, pr.row, pr.col, Some(Piece(k, pr.color))), promotion := None, player := Opponent(pr.color))
  }

  /** restartGame: the start position, white to move, no last move, no open promotion, no checkmate; the move list is kept. */
  function Restart(g: Snapshot): (g': Snapshot)
    ensures g'.board == InitialBoard() && g'.player == White && g'.lastMove.None?
    ensures g'.promotion.None? && !g'.checkmate && g'.history == g.history
  {
    Snapshot(InitialBoard(), White, None, None, false, g.history)
  }

  /**
   * What movePiece promises: a rejected request changes nothing; an accepted one
   * records the last move and the promotion, succeeds exactly when the king of
   * the player to move is safe on the placed board, and then commits the move, lists it and
   * passes the turn; a failed one restores only the origin and target cells.
   */
  lemma StepSpec(g: Snapshot, fr: int, fc: int, tr: int, tc: int)
    requires OnBoard(fr, fc) && OnBoard(tr, tc)
    ensures var o := Step(g, fr, fc, tr, tc);
            !Accepted(g, fr, fc, tr, tc) ==> o == Outcome(g, false)
    ensures var o := Step(g, fr, fc, tr, tc);
            Accepted(g, fr, fc, tr, tc) ==>
              var p := g.board[fr][fc].value;
              && o.game.lastMove == Some(LastMove(p, fr, fc, tr, tc))
              && o.game.promotion == (if Promotes(p, tr) then Some(Promotion(tr, tc, p.color)) else None)
              && (o.ok <==> !InCheck(Placed(g.board, fr, fc, tr, tc), o.game.lastMove, g.player))
    ensures var o := Step(g, fr, fc, tr, tc);
            Accepted(g, fr, fc, tr, tc) && o.ok ==>
              var p := g.board[fr][fc].value;
              && o.game.board == Placed(g.board, fr, fc, tr, tc)
              && o.game.board[tr][tc] == Some(p)
              && ((fr, fc) != (tr, tc) ==> o.game.board[fr][fc].None?)
              && (EnPassant(g.board, p, fr, fc, tr, tc) && tr != fr ==> o.game.board[fr][tc].None?)
              && (forall i, j :: OnBoard(i, j) && (i, j) != (fr, fc) && (i, j) != (tr, tc) && (i, j) != (fr, tc)
                                 ==> o.game.board[i][j] == g.board[i][j])
              && o.game.player == Opponent(g.player)
              && o.game.history == g.history + [Notation(p, fr, fc, tr, tc)]
              && o.game.checkmate == (g.checkmate || (InCheck(o.game.board, o.game.lastMove, Opponent(g.player))
                                                      && Checkmate(o.game.board, o.game.lastMove, Opponent(g.player))))
    ensures var o := Step(g, fr, fc, tr, tc);
            Accepted(g, fr, fc, tr, tc) && !o.ok ==>
              var p := g.board[fr][fc].value;
              && (forall i, j :: OnBoard(i, j) && (i, j) != (fr, tc) ==> o.game.board[i][j] == g.board[i][j])
              && (EnPassant(g.board, p, fr, fc, tr, tc) && tr != fr ==> o.game.board[fr][tc].None?)
              && (!EnPassant(g.board, p, fr, fc, tr, tc) ==> o.game.board == g.board)
              && o.game.player == g.player
              && o.game.history == g.history
              && o.game.checkmate == g.checkmate
  {
    var o := Step(g, fr, fc, tr, tc);
    if Accepted(g, fr, fc, tr, tc) && !o.ok && !EnPassant(g.board, g.board[fr][fc].value, fr, fc, tr, tc) {
      forall i, j | OnBoard(i, j)
        ensures o.game.board[i][j] == g.board[i][j]
      {
      }
      Extensionality(o.game.board, g.board);
    }
  }
}
