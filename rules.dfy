/** The movement rules of `isValidMove` and `isPathClear`. */
module Rules {
  import opened Pieces
  import opened Boards

  function Abs(x: int): nat
  {
    if x < 0 then -x else x
  }

  /** gameState.lastMove: the piece and both squares of the last committed move. */
  datatype LastMove = LastMove(piece: Piece, fromRow: int, fromCol: int, toRow: int, toCol: int)

  /** On one rank, one file or one diagonal: the squares `isPathClear` can walk between. */
  predicate Aligned(fr: int, fc: int, tr: int, tc: int)
  {
    var dr, dc := Abs(tr - fr), Abs(tc - fc);
    dr == 0 || dc == 0 || dr == dc
  }

  /** Number of single steps from one aligned square to the other. */
  function Dist(fr: int, fc: int, tr: int, tc: int): nat
  {
    var dr, dc := Abs(tr - fr), Abs(tc - fc);
    if dr < dc then dc else dr
  }

  /** The coordinate `k` steps from `f` in the direction of `t` (standing still when `f == t`). */
  function Along(f: int, t: int, k: int): int
  {
    if t > f then f + k else if t < f then f - k else f
  }

  /**
   * The squares strictly between the two endpoints hold no piece. Only those
   * squares are read, and the condition is empty when the endpoints coincide.
   */
  predicate PathClear(b: Board, fr: int, fc: int, tr: int, tc: int)
    requires OnBoard(fr, fc) && OnBoard(tr, tc) && Aligned(fr, fc, tr, tc)
  {
    forall k :: 0 < k < Dist(fr, fc, tr, tc) ==> GetCell(b, Along(fr, tr, k), Along(fc, tc, k)).None?
  }

  /** The squares strictly between two aligned squares lie on the board. */
  lemma BetweenOnBoard(fr: int, fc: int, tr: int, tc: int, k: int)
    requires OnBoard(fr, fc) && OnBoard(tr, tc) && Aligned(fr, fc, tr, tc)
    requires 0 <= k <= Dist(fr, fc, tr, tc)
    ensures OnBoard(Along(fr, tr, k), Along(fc, tc, k))
    ensures k == Dist(fr, fc, tr, tc) ==> Along(fr, tr, k) == tr && Along(fc, tc, k) == tc
    ensures 0 < k < Dist(fr, fc, tr, tc) ==> (Along(fr, tr, k), Along(fc, tc, k)) != (tr, tc)
  {
  }

  /** The row a pawn of `color` moves along: down the board (row + 1) for Black, up (row - 1) for White. */
  function Forward(color: Color): int
  {
    if color == Black then 1 else -1
  }

  /** The pawn rules: one step, two steps from the start rank, diagonal capture, en passant. */
  predicate PawnMove(b: Board, lm: Option<LastMove>, color: Color, fr: int, fc: int, tr: int, tc: int)
    requires OnBoard(fr, fc) && OnBoard(tr, tc)
  {
    var dir := Forward(color);
    var start := if color == White then 6 else 1;
    // one square forward onto an empty square
    (tc == fc && tr == fr + dir && b[tr][tc].None?)
    // two squares forward from the start rank, across an empty square onto an empty square
    || (fr == start && tc == fc && tr == fr + 2 * dir && b[tr][tc].None? && b[fr + dir][fc].None?)
    // one square diagonally forward onto an occupied square
    || (Abs(tc - fc) == 1 && tr == fr + dir && b[tr][tc].Some?)
    // en passant: the last move was an opposing pawn's double step that ended beside this pawn, on the target file
    || (Abs(tc - fc) == 1 && tr == fr + dir && lm.Some?
        && lm.value.piece == Piece(Pawn, Opponent(color))
        && Abs(lm.value.fromRow - lm.value.toRow) == 2
        && lm.value.toRow == fr && lm.value.toCol == tc)
  }

  /**
   * isValidMove: whether `p` standing on (fr, fc) may go to (tr, tc) by its
   * movement pattern. Captures of one's own pieces are not excluded here.
   */
  predicate ValidMove(b: Board, lm: Option<LastMove>, p: Piece, fr: int, fc: int, tr: int, tc: int)
    requires OnBoard(fr, fc) && OnBoard(tr, tc)
  {
    var dr, dc := Abs(tr - fr), Abs(tc - fc);
    match p.kind
    case King => dr <= 1 && dc <= 1
    case Queen => (dr == dc || dr == 0 || dc == 0) && PathClear(b, fr, fc, tr, tc)
    case Rook => (dr == 0 || dc == 0) && PathClear(b, fr, fc, tr, tc)
    case Bishop => dr == dc && PathClear(b, fr, fc, tr, tc)
    case Knight => (dr == 2 && dc == 1) || (dr == 1 && dc == 2)
    case Pawn => PawnMove(b, lm, p.color, fr, fc, tr, tc)
  }

  /**
   * The laws `isValidMove` applies to the king, the knight and the sliding
   * pieces: a king steps at most one square each way, a knight's two
   * distances are exactly one and two, and the sliding pieces need a clear
   * line of their kind.
   */
  lemma PieceRules(b: Board, lm: Option<LastMove>, p: Piece, fr: int, fc: int, tr: int, tc: int)
    requires OnBoard(fr, fc) && OnBoard(tr, tc)
    ensures p.kind == King ==> (ValidMove(b, lm, p, fr, fc, tr, tc) <==> Abs(tr - fr) <= 1 && Abs(tc - fc) <= 1)
    ensures p.kind == Knight ==> (ValidMove(b, lm, p, fr, fc, tr, tc) <==> {Abs(tr - fr), Abs(tc - fc)} == {1, 2})
    ensures p.kind == Queen ==> (ValidMove(b, lm, p, fr, fc, tr, tc)
                                 <==> Aligned(fr, fc, tr, tc) && PathClear(b, fr, fc, tr, tc))
    ensures p.kind == Rook ==> (ValidMove(b, lm, p, fr, fc, tr, tc)
                                <==> (tr == fr || tc == fc) && PathClear(b, fr, fc, tr, tc))
    ensures p.kind == Bishop ==> (ValidMove(b, lm, p, fr, fc, tr, tc)
                                  <==> Abs(tr - fr) == Abs(tc - fc) && PathClear(b, fr, fc, tr, tc))
  {
    if p.kind == Knight {
      var dr, dc := Abs(tr - fr), Abs(tc - fc);
      if {dr, dc} == {1, 2} {
        assert dr in {1, 2} && dc in {1, 2} && 1 in {dr, dc} && 2 in {dr, dc};
      }
    }
  }

  /**
   * The pawn rules by displacement, for a pawn of `color` moving towards row
   * 7 when black and row 0 when white: one step forward needs an empty
   * target; two steps need the start rank and both squares empty; a diagonal
   * step onto an occupied square is allowed; a diagonal step onto an empty
   * square is allowed only as en passant; nothing else is.
   */
  lemma PawnRules(b: Board, lm: Option<LastMove>, color: Color, fr: int, fc: int, tr: int, tc: int)
    requires OnBoard(fr, fc) && OnBoard(tr, tc)
    ensures var dir := Forward(color);
            var ok := ValidMove(b, lm, Piece(Pawn, color), fr, fc, tr, tc);
            && (tc == fc && tr == fr + dir ==> (ok <==> b[tr][tc].None?))
            && (tc == fc && tr == fr + 2 * dir
                ==> (ok <==> fr == (if color == White then 6 else 1) && b[fr + dir][fc].None? && b[tr][tc].None?))
            && (Abs(tc - fc) == 1 && tr == fr + dir && b[tr][tc].Some? ==> ok)
            && (Abs(tc - fc) == 1 && b[tr][tc].None?
                ==> (ok <==> tr == fr + dir && lm.Some? && lm.value.piece == Piece(Pawn, Opponent(color))
                             && Abs(lm.value.fromRow - lm.value.toRow) == 2
                             && lm.value.toRow == fr && lm.value.toCol == tc))
            && (!(tc == fc && (tr == fr + dir || tr == fr + 2 * dir)) && !(Abs(tc - fc) == 1 && tr == fr + dir) ==> !ok)
  {
  }

  /** A move to the same square or to a neighbouring one has no square in between, so its path is clear. */
  lemma PathClearShort(b: Board, fr: int, fc: int, tr: int, tc: int)
    requires OnBoard(fr, fc) && OnBoard(tr, tc) && Aligned(fr, fc, tr, tc) && Dist(fr, fc, tr, tc) <= 1
    ensures PathClear(b, fr, fc, tr, tc)
  {
  }

  /** `isPathClear` reads only the squares strictly between: boards that agree there give the same answer. */
  lemma PathClearFrame(b: Board, b': Board, fr: int, fc: int, tr: int, tc: int)
    requires OnBoard(fr, fc) && OnBoard(tr, tc) && Aligned(fr, fc, tr, tc)
    requires forall k :: 0 < k < Dist(fr, fc, tr, tc) ==> b[Along(fr, tr, k)][Along(fc, tc, k)] == b'[Along(fr, tr, k)][Along(fc, tc, k)]
    ensures PathClear(b, fr, fc, tr, tc) == PathClear(b', fr, fc, tr, tc)
  {
    forall k | 0 < k < Dist(fr, fc, tr, tc)
      ensures GetCell(b, Along(fr, tr, k), Along(fc, tc, k)) == GetCell(b', Along(fr, tr, k), Along(fc, tc, k))
    {
      BetweenOnBoard(fr, fc, tr, tc, k);
    }
  }
}
