/**
 * The static evaluation `evaluateBoard`: material plus mobility, signed by colour
 * (black, the engine's side, counts positive), minus half the value of every
 * piece standing on a threatened square. Scores are kept doubled so that the
 * half-value penalty stays an integer.
 */
module Evaluation {
  import opened Pieces
  import opened Boards
  import opened Generators
  import opened CheckAnalysis

  /** getPieceValue */
  function PieceValue(k: Kind): nat
  {
    match k
    case Pawn => 1
    case Knight => 3
    case Bishop => 3
    case Rook => 5
    case Queen => 9
    case King => 10
  }

  /** buildThreatMap: some piece, of either colour, lists square (x, y) among its possible moves. */
  ghost predicate Threatened(b: Board, x: int, y: int)
  {
    OnBoard(x, y)
    && exists r, c :: OnBoard(r, c) && b[r][c].Some? && (x, y) in PossibleMoves(b, b[r][c].value, r, c)
  }

  /** Twice what square (r, c) adds to the score. */
  ghost function Contribution(b: Board, r: int, c: int): int
    requires OnBoard(r, c)
  {
    match b[r][c]
    case None => 0
    case Some(p) =>
      var value: int := PieceValue(p.kind);
      var mobility: int := Mobility(b, p, r, c);
      var black := ColorOf(b[r][c]) == Black;
      (if black then 2 * (value + mobility) else -2 * (value + mobility))
      + (if Threatened(b, r, c) then (if black then -value else value) else 0)
  }

  /** The doubled contributions of the squares from (r, c) on, in row-major order. */
  ghost function ScoreFrom(b: Board, r: int, c: int): int
    requires 0 <= r <= 8 && 0 <= c <= 8
    decreases 8 - r, 8 - c
  {
    if r == 8 then 0
    else if c == 8 then ScoreFrom(b, r + 1, 0)
    else Contribution(b, r, c) + ScoreFrom(b, r, c + 1)
  }

  /** evaluateBoard, doubled. */
  ghost function Evaluate(b: Board): int
  {
    ScoreFrom(b, 0, 0)
  }

  /** Some piece on a square before (row, col) in row-major order lists (x, y) among its possible moves. */
  ghost predicate ThreatenedBefore(b: Board, x: int, y: int, row: int, col: int)
  {
    exists r, c :: OnBoard(r, c) && Before(r, c, row, col) && b[r][c].Some?
                   && (x, y) in PossibleMoves(b, b[r][c].value, r, c)
  }

  /** Adding square (row, col) to the scanned prefix adds exactly its piece's possible moves. */
  lemma ThreatenedBeforeStep(b: Board, x: int, y: int, row: int, col: int)
    requires OnBoard(row, col)
    ensures ThreatenedBefore(b, x, y, row, col + 1)
            <==> ThreatenedBefore(b, x, y, row, col)
                 || (b[row][col].Some? && (x, y) in PossibleMoves(b, b[row][col].value, row, col))
  {
    if ThreatenedBefore(b, x, y, row, col + 1) {
      var r, c :| OnBoard(r, c) && Before(r, c, row, col + 1) && b[r][c].Some?
                  && (x, y) in PossibleMoves(b, b[r][c].value, r, c);
      if !(r == row && c == col) {
        assert Before(r, c, row, col);
      }
    }
  }

  /** The prefix ending at column 8 of a row is the prefix ending before the next row. */
  lemma ThreatenedBeforeCarry(b: Board, x: int, y: int, row: int)
    ensures ThreatenedBefore(b, x, y, row, 8) <==> ThreatenedBefore(b, x, y, row + 1, 0)
  {
    if ThreatenedBefore(b, x, y, row + 1, 0) {
      var r, c :| OnBoard(r, c) && Before(r, c, row + 1, 0) && b[r][c].Some?
                  && (x, y) in PossibleMoves(b, b[r][c].value, r, c);
      assert Before(r, c, row, 8);
    }
  }

  /** The prefix of the whole board is the threat map. */
  lemma ThreatenedBeforeAll(b: Board, x: int, y: int)
    requires OnBoard(x, y)
    ensures ThreatenedBefore(b, x, y, 8, 0) <==> Threatened(b, x, y)
  {
  }

  /** A square's doubled contribution from its piece, the piece's mobility and whether the square is threatened. */
  lemma ContributionOf(b: Board, r: int, c: int, p: Piece, threatened: bool)
    requires OnBoard(r, c) && b[r][c] == Some(p) && threatened == Threatened(b, r, c)
    ensures Contribution(b, r, c)
            == (if p.color == Black then 2 * (PieceValue(p.kind) + Mobility(b, p, r, c))
                else -2 * (PieceValue(p.kind) + Mobility(b, p, r, c)))
               + (if threatened then (if p.color == Black then -(PieceValue(p.kind) as int) else PieceValue(p.kind)) else 0)
  {
  }
}
