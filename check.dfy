/** Check analysis: `isKingInCheck` and `isCheckmate` as predicates on a board value. */
module CheckAnalysis {
  import opened Pieces
  import opened Boards
  import opened Rules

  /** Square (i, j) comes before square (r, c) in the engine's row-major scanning order. */
  predicate Before(i: int, j: int, r: int, c: int)
  {
    i < r || (i == r && j < c)
  }

  predicate IsKing(b: Board, color: Color, r: int, c: int)
    requires OnBoard(r, c)
  {
    b[r][c] == Some(Piece(King, color))
  }

  /** The first king of `color` at or after square (r, c) in row-major order. */
  function FindKingFrom(b: Board, color: Color, r: int, c: int): (k: Option<(int, int)>)
    requires 0 <= r <= 8 && 0 <= c <= 8
    ensures k.Some? ==>
              && OnBoard(k.value.0, k.value.1) && IsKing(b, color, k.value.0, k.value.1)
              && !Before(k.value.0, k.value.1, r, c)
              && forall i, j :: OnBoard(i, j) && !Before(i, j, r, c) && Before(i, j, k.value.0, k.value.1)
                                ==> !IsKing(b, color, i, j)
    ensures k.None? ==> forall i, j :: OnBoard(i, j) && !Before(i, j, r, c) ==> !IsKing(b, color, i, j)
    decreases 8 - r, 8 - c
  {
    if r == 8 then None
    else if c == 8 then FindKingFrom(b, color, r + 1, 0)
    else if IsKing(b, color, r, c) then Some((r, c))
    else FindKingFrom(b, color, r, c + 1)
  }

  /**
   * The king `isKingInCheck` looks at: the first king of `color` in row-major
   * order, or none when the board has no king of that colour.
   */
  function FirstKing(b: Board, color: Color): (k: Option<(int, int)>)
    ensures k.Some? ==>
              && OnBoard(k.value.0, k.value.1) && IsKing(b, color, k.value.0, k.value.1)
              && forall i, j :: OnBoard(i, j) && Before(i, j, k.value.0, k.value.1) ==> !IsKing(b, color, i, j)
    ensures k.None? ==> forall i, j :: OnBoard(i, j) ==> !IsKing(b, color, i, j)
  {
    FindKingFrom(b, color, 0, 0)
  }

  /** The piece on (r, c) is not of `color` and may move onto square (kr, kc). */
  predicate Attacks(b: Board, lm: Option<LastMove>, color: Color, r: int, c: int, kr: int, kc: int)
    requires OnBoard(r, c) && OnBoard(kr, kc)
  {
    b[r][c].Some? && ColorOf(b[r][c]) != color && ValidMove(b, lm, b[r][c].value, r, c, kr, kc)
  }

  /** isKingInCheck: some piece not of `color` may move onto the first king of `color`. */
  ghost predicate InCheck(b: Board, lm: Option<LastMove>, color: Color)
  {
    match FirstKing(b, color)
    case None => false
    case Some(k) => exists r, c :: OnBoard(r, c) && Attacks(b, lm, color, r, c, k.0, k.1)
  }

  /**
   * A move of a `color` piece from (r, c) to (tr, tc) that the rules allow, that does
   * not land on a `color` piece, and after whose simulation `color` is not in check.
   */
  ghost predicate Escape(b: Board, lm: Option<LastMove>, color: Color, r: int, c: int, tr: int, tc: int)
  {
    && OnBoard(r, c) && OnBoard(tr, tc)
    && b[r][c].Some? && ColorOf(b[r][c]) == color
    && ValidMove(b, lm, b[r][c].value, r, c, tr, tc)
    && (b[tr][tc].None? || ColorOf(b[tr][tc]) != color)
    && !InCheck(Simulate(b, r, c, tr, tc), lm, color)
  }

  /**
   * isCheckmate: `color` has no escaping move. Whether the king is attacked now
   * is not part of it, so a stalemate is reported too.
   */
  ghost predicate Checkmate(b: Board, lm: Option<LastMove>, color: Color)
  {
    !exists r, c, tr, tc :: Escape(b, lm, color, r, c, tr, tc)
  }

  /** A king of `color` with none before it in row-major order is the one `FirstKing` finds. */
  lemma FirstKingAt(b: Board, color: Color, r: int, c: int)
    requires OnBoard(r, c) && IsKing(b, color, r, c)
    requires forall i, j :: OnBoard(i, j) && Before(i, j, r, c) ==> !IsKing(b, color, i, j)
    ensures FirstKing(b, color) == Some((r, c))
  {
    var k := FirstKing(b, color);
    assert k.Some?;
  }

  /** With no king of `color` on the board, `color` is never in check. */
  lemma NoFirstKing(b: Board, lm: Option<LastMove>, color: Color)
    requires forall i, j :: OnBoard(i, j) ==> !IsKing(b, color, i, j)
    ensures FirstKing(b, color).None? && !InCheck(b, lm, color)
  {
  }

  /**
   * With (kr, kc) the first king of `color` in row-major order, `color` is in
   * check exactly when some piece that does not read as `color` may move onto
   * (kr, kc); kings after the first one are never looked at.
   */
  lemma InCheckAt(b: Board, lm: Option<LastMove>, color: Color, kr: int, kc: int)
    requires OnBoard(kr, kc) && IsKing(b, color, kr, kc)
    requires forall i, j :: OnBoard(i, j) && Before(i, j, kr, kc) ==> !IsKing(b, color, i, j)
    ensures InCheck(b, lm, color)
            <==> exists r, c :: OnBoard(r, c) && b[r][c].Some? && ColorOf(b[r][c]) != color
                                && ValidMove(b, lm, b[r][c].value, r, c, kr, kc)
  {
    FirstKingAt(b, color, kr, kc);
  }
}
