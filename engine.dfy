/**
 * The game object: the board cells, `gameState` and `moveHistory`, with the
 * engine's functions as methods that read and write the cells in place.
 * Every method is proved against the corresponding function of the value
 * model.
 */
module Engine {
  import opened Pieces
  import opened Boards
  import opened Rules
  import opened CheckAnalysis
  import opened Generators
  import opened Evaluation
  import opened Search
  import opened Executor

  /** The four buttons of the promotion dialog. */
  datatype PromotionChoice = ToQueen | ToRook | ToBishop | ToKnight

  function ChoiceKind(choice: PromotionChoice): (k: Kind)
    ensures PromotionKind(k)
  {
    match choice
    case ToQueen => Queen
    case ToRook => Rook
    case ToBishop => Bishop
    case ToKnight => Knight
  }

  /**
   * aiMove on a snapshot: nothing while a promotion is open or when the AI
   * finds no move; otherwise movePiece with the AI's choice, which may still
   * refuse it.
   */
  ghost function AiTurn(g: Snapshot): Snapshot
  {
    if g.promotion.Some? then g
    else
      match AiChoice(g.board, g.lastMove, g.checkmate)
      case None => g
      case Some(m) =>
        AiChoiceFirstBest(g.board, g.lastMove, g.checkmate);
        Step(g, m.fromRow, m.fromCol, m.toRow, m.toCol).game
  }

  class Game {
    /** The 8x8 cells; what a cell displays is its contents. */
    const board: array2<Option<Piece>>
    /** gameState.currentPlayer */
    var currentPlayer: Color
    /** gameState.lastMove */
    var lastMove: Option<LastMove>
    /** gameState.awaitingPromotion, together with the square and colour of the pawn its dialog promotes */
    var promotion: Option<Promotion>
    /** gameState.checkmate */
    var checkmate: bool
    /** moveHistory */
    var moveHistory: seq<string>

    ghost predicate Valid()
      reads this
    {
      && board.Length0 == 8 && board.Length1 == 8
      && (promotion.Some? ==> OnBoard(promotion.value.row, promotion.value.col))
    }

    /** The cells as a board value. */
    function Cells(): (b: Board)
      reads board
      requires board.Length0 == 8 && board.Length1 == 8
      ensures forall i, j :: OnBoard(i, j) ==> b[i][j] == board[i, j]
    {
      seq(8, i requires 0 <= i < 8 reads board =>
        seq(8, j requires 0 <= j < 8 reads board => board[i, j]))
    }

    /** The observable state. */
    ghost function View(): Snapshot
      reads this, board
      requires Valid()
    {
      Snapshot(Cells(), currentPlayer, lastMove, promotion, checkmate, moveHistory)
    }

    /** createChessboard with the initial gameState: the start position, white to move, an empty move list. */
    constructor ()
      ensures Valid() && fresh(board)
      ensures View() == Snapshot(InitialBoard(), White, None, None, false, [])
    {
      var init := InitialBoard();
      board := new Option<Piece>[8, 8]((i, j) requires 0 <= i < 8 && 0 <= j < 8 => init[i][j]);
      currentPlayer, lastMove, promotion, checkmate, moveHistory := White, None, None, false, [];
      new;
      Extensionality(Cells(), init);
    }

    /**
     * isPathClear: walks from the square after the origin towards the target
     * and fails at the first occupied square.
     */
    method IsPathClear(fromRow: int, fromCol: int, toRow: int, toCol: int) returns (clear: bool)
      requires Valid()
      requires OnBoard(fromRow, fromCol) && OnBoard(toRow, toCol) && Aligned(fromRow, fromCol, toRow, toCol)
      ensures clear == PathClear(Cells(), fromRow, fromCol, toRow, toCol)
    {
      var rowStep := if toRow > fromRow then 1 else if toRow < fromRow then -1 else 0;
      var colStep := if toCol > fromCol then 1 else if toCol < fromCol then -1 else 0;
      var currentRow, currentCol := fromRow + rowStep, fromCol + colStep;
      ghost var b := Cells();
      ghost var n := Dist(fromRow, fromCol, toRow, toCol);
      ghost var k := 1;
      while currentRow != toRow || currentCol != toCol
        invariant 1 <= k && (n == 0 || k <= n)
        invariant currentRow == Along(fromRow, toRow, k) && currentCol == Along(fromCol, toCol, k)
        invariant forall i :: 0 < i < k && i < n ==> GetCell(b, Along(fromRow, toRow, i), Along(fromCol, toCol, i)).None?
        decreases n - k
      {
        BetweenOnBoard(fromRow, fromCol, toRow, toCol, k);
        if n == 0 || k == n {
          assert false;
        }
        if board[currentRow, currentCol].Some? {
          return false;
        }
        currentRow, currentCol := currentRow + rowStep, currentCol + colStep;
        k := k + 1;
      }
      if 0 < k < n {
        BetweenOnBoard(fromRow, fromCol, toRow, toCol, k);
      }
      return true;
    }

    /** isValidMove, with the path walked by `IsPathClear` for the sliding pieces. */
    method IsValidMove(piece: Piece, fromRow: int, fromCol: int, toRow: int, toCol: int) returns (valid: bool)
      requires Valid() && OnBoard(fromRow, fromCol) && OnBoard(toRow, toCol)
      ensures valid == ValidMove(Cells(), lastMove, piece, fromRow, fromCol, toRow, toCol)
    {
      var rowDiff, colDiff := Abs(toRow - fromRow), Abs(toCol - fromCol);
      match piece.kind {
        case King =>
          valid := rowDiff <= 1 && colDiff <= 1;
        case Queen =>
          valid := false;
          if rowDiff == colDiff || rowDiff == 0 || colDiff == 0 {
            valid := IsPathClear(fromRow, fromCol, toRow, toCol);
          }
        case Rook =>
          valid := false;
          if rowDiff == 0 || colDiff == 0 {
            valid := IsPathClear(fromRow, fromCol, toRow, toCol);
          }
        case Bishop =>
          valid := false;
          if rowDiff == colDiff {
            valid := IsPathClear(fromRow, fromCol, toRow, toCol);
          }
        case Knight =>
          valid := (rowDiff == 2 && colDiff == 1) || (rowDiff == 1 && colDiff == 2);
        case Pawn =>
          valid := PawnMove(Cells(), lastMove, piece.color, fromRow, fromCol, toRow, toCol);
      }
    }

    /** The first loop of isKingInCheck: the first king of `color` in row-major order. */
    method FindKing(color: Color) returns (kingCell: Option<(int, int)>)
      requires Valid()
      ensures kingCell == FirstKing(Cells(), color)
    {
      ghost var b := Cells();
      kingCell := None;
      for row := 0 to 8
        invariant Cells() == b
        invariant kingCell.None?
        invariant forall i, j :: OnBoard(i, j) && i < row ==> !IsKing(b, color, i, j)
      {
        for col := 0 to 8
          invariant kingCell.None?
          invariant forall j :: 0 <= j < col ==> !IsKing(b, color, row, j)
        {
          if board[row, col] == Some(Piece(King, color)) {
            kingCell := Some((row, col));
            FirstKingAt(b, color, row, col);
            break;
          }
        }
        if kingCell.Some? {
          break;
        }
      }
      if kingCell.None? {
        NoFirstKing(b, lastMove, color);
      }
    }

    /** The second loop of isKingInCheck: some piece not of `color` may move onto (kingRow, kingCol). */
    method IsAttacked(color: Color, kingRow: int, kingCol: int) returns (attacked: bool)
      requires Valid() && OnBoard(kingRow, kingCol)
      ensures attacked <==> exists r, c :: OnBoard(r, c) && Attacks(Cells(), lastMove, color, r, c, kingRow, kingCol)
    {
      ghost var b := Cells();
      for row := 0 to 8
        invariant Cells() == b
        invariant forall i, j :: OnBoard(i, j) && i < row ==> !Attacks(b, lastMove, color, i, j, kingRow, kingCol)
      {
        for col := 0 to 8
          invariant forall j :: 0 <= j < col ==> !Attacks(b, lastMove, color, row, j, kingRow, kingCol)
        {
          var cell := board[row, col];
          if cell.Some? && ColorOf(cell) != color {
            var valid := IsValidMove(cell.value, row, col, kingRow, kingCol);
            if valid {
              return true;
            }
          }
        }
      }
      return false;
    }

    /** isKingInCheck: find the first king of `color`, then look for a piece of the other colour that may move onto it. */
    method IsKingInCheck(color: Color) returns (inCheck: bool)
      requires Valid()
      ensures inCheck == InCheck(Cells(), lastMove, color)
    {
      var kingCell := FindKing(color);
      if kingCell.None? {
        return false;
      }
      inCheck := IsAttacked(color, kingCell.value.0, kingCell.value.1);
    }

    /**
     * One candidate of isCheckmate: the piece of `color` on (row, col) is moved to
     * (toRow, toCol) when the rules allow it and the target holds no piece of
     * `color`, the check test runs on the changed cells, and both cells are put back.
     */
    method TryEscape(color: Color, row: int, col: int, toRow: int, toCol: int) returns (escapes: bool)
      requires Valid() && OnBoard(row, col) && OnBoard(toRow, toCol)
      requires board[row, col].Some? && ColorOf(board[row, col]) == color
      modifies board
      ensures Cells() == old(Cells())
      ensures escapes == Escape(old(Cells()), lastMove, color, row, col, toRow, toCol)
    {
      ghost var b := Cells();
      var fromContent := board[row, col];
      var toContent := board[toRow, toCol];
      var valid := IsValidMove(fromContent.value, row, col, toRow, toCol);
      if !(valid && (toContent.None? || ColorOf(toContent) != color)) {
        return false;
      }
      SimulateMove(row, col, toRow, toCol);
      var stillInCheck := IsKingInCheck(color);
      WriteBack(row, col, fromContent, toRow, toCol, toContent);
      UndoSimulate(b, row, col, toRow, toCol);
      escapes := !stillInCheck;
    }

    /** The two inner loops of isCheckmate: some target square gives the piece on (row, col) an escape. */
    method EscapeFrom(color: Color, row: int, col: int) returns (found: bool)
      requires Valid() && OnBoard(row, col)
      requires board[row, col].Some? && ColorOf(board[row, col]) == color
      modifies board
      ensures Cells() == old(Cells())
      ensures found <==> exists tr, tc :: Escape(old(Cells()), lastMove, color, row, col, tr, tc)
    {
      ghost var b := Cells();
      for toRow := 0 to 8
        invariant Cells() == b
        invariant forall tr, tc :: tr < toRow ==> !Escape(b, lastMove, color, row, col, tr, tc)
      {
        for toCol := 0 to 8
          invariant Cells() == b
          invariant forall tr, tc :: Before(tr, tc, toRow, toCol) ==> !Escape(b, lastMove, color, row, col, tr, tc)
        {
          var escapes := TryEscape(color, row, col, toRow, toCol);
          if escapes {
            return true;
          }
        }
      }
      return false;
    }

    /**
     * isCheckmate: scans every piece of `color` and every target for a move that
     * leaves `color` out of check; the cells end as they began.
     */
    method IsCheckmate(color: Color) returns (mate: bool)
      requires Valid()
      modifies board
      ensures Cells() == old(Cells())
      ensures mate == Checkmate(old(Cells()), lastMove, color)
    {
      ghost var b := Cells();
      for row := 0 to 8
        invariant Cells() == b
        invariant forall r, c, tr, tc :: r < row ==> !Escape(b, lastMove, color, r, c, tr, tc)
      {
        for col := 0 to 8
          invariant Cells() == b
          invariant forall r, c, tr, tc :: Before(r, c, row, col) ==> !Escape(b, lastMove, color, r, c, tr, tc)
        {
          var fromContent := board[row, col];
          if fromContent.Some? && ColorOf(fromContent) == color {
            var found := EscapeFrom(color, row, col);
            if found {
              return false;
            }
          }
        }
      }
      return true;
    }

    /** calculateKnightMoves */
    static method CalculateKnightMoves(row: int, col: int) returns (moves: seq<Square>)
      ensures moves == KnightTargets(row, col)
    {
      ghost var jumps := seq(8, i requires 0 <= i < 8 => (row + KnightOffsets[i].0, col + KnightOffsets[i].1));
      moves := [];
      for i := 0 to 8
        invariant moves == OnBoardOnly(jumps[..i])
      {
        var newRow, newCol := row + KnightOffsets[i].0, col + KnightOffsets[i].1;
        if OnBoard(newRow, newCol) {
          moves := moves + [(newRow, newCol)];
        }
        assert jumps[..i + 1][..i] == jumps[..i];
      }
      assert jumps[..8] == jumps;
    }

    /**
     * The walk shared by `calculateBishopMoves`, `calculateRookMoves` and
     * `getSlidingMoves`: for each direction, push squares until the edge or the
     * first occupied square, which is pushed too.
     */
    method WalkRays(row: int, col: int, dirs: seq<Dir>) returns (moves: seq<Square>)
      requires Valid()
      ensures moves == Rays(Cells(), row, col, dirs)
    {
      ghost var b := Cells();
      moves := [];
      for i := 0 to |dirs|
        invariant moves == Rays(b, row, col, dirs[..i])
      {
        var d := dirs[i];
        var ray := WalkRay(row + d.0, col + d.1, d);
        moves := moves + ray;
        assert dirs[..i + 1][..i] == dirs[..i];
      }
      assert dirs[..|dirs|] == dirs;
    }

    /** The inner loop of the sliding-piece generators: step from (row, col) along `d` up to the edge or the first piece. */
    method WalkRay(row: int, col: int, d: Dir) returns (ray: seq<Square>)
      requires Valid()
      ensures ray == Ray(Cells(), row, col, d)
    {
      ghost var b := Cells();
      ray := [];
      var r, c := row, col;
      while OnBoard(r, c)
        invariant ray + Ray(b, r, c, d) == Ray(b, row, col, d)
        decreases Room(r, d.0) + Room(c, d.1)
      {
        ghost var rest := Ray(b, r, c, d);
        ray := ray + [(r, c)];
        if board[r, c].Some? {
          assert rest == [(r, c)];
          break;
        }
        assert rest == [(r, c)] + Ray(b, r + d.0, c + d.1, d);
        r, c := r + d.0, c + d.1;
      }
    }

    /** calculateBishopMoves */
    method CalculateBishopMoves(row: int, col: int) returns (moves: seq<Square>)
      requires Valid()
      ensures moves == Rays(Cells(), row, col, BishopDirs)
    {
      moves := WalkRays(row, col, BishopDirs);
    }

    /** calculateRookMoves */
    method CalculateRookMoves(row: int, col: int) returns (moves: seq<Square>)
      requires Valid()
      ensures moves == Rays(Cells(), row, col, RookDirs)
    {
      moves := WalkRays(row, col, RookDirs);
    }

    /** calculateQueenMoves: the rook's list followed by the bishop's. */
    method CalculateQueenMoves(row: int, col: int) returns (moves: seq<Square>)
      requires Valid()
      ensures moves == Rays(Cells(), row, col, RookDirs) + Rays(Cells(), row, col, BishopDirs)
    {
      moves := CalculateRookMoves(row, col);
      var diagonal := CalculateBishopMoves(row, col);
      moves := moves + diagonal;
    }

    /** `.filter(move => !isBlockedBySameColor(move, color))` */
    method DropBlocked(moves: seq<Square>, color: Color) returns (kept: seq<Square>)
      requires Valid()
      ensures kept == NotBlocked(Cells(), moves, color)
    {
      kept := [];
      for i := 0 to |moves|
        invariant kept == NotBlocked(Cells(), moves[..i], color)
      {
        if !BlockedBySameColor(Cells(), moves[i], color) {
          kept := kept + [moves[i]];
        }
        assert moves[..i + 1][..i] == moves[..i];
      }
      assert moves[..|moves|] == moves;
    }

    /** getSlidingMoves */
    method GetSlidingMoves(row: int, col: int, dirs: seq<Dir>, color: Color) returns (moves: seq<Square>)
      requires Valid()
      ensures moves == SlidingMoves(Cells(), row, col, dirs, color)
    {
      var reached := WalkRays(row, col, dirs);
      moves := DropBlocked(reached, color);
    }

    /** One diagonal of calculatePawnMoves: on the board and not of the pawn's colour. */
    method PawnCapture(r: int, c: int, color: Color) returns (moves: seq<Square>)
      requires Valid()
      ensures moves == CaptureTarget(Cells(), r, c, color)
    {
      moves := [];
      if OnBoard(r, c) && ColorOf(board[r, c]) != color {
        moves := [(r, c)];
      }
    }

    /** The forward squares of calculatePawnMoves. */
    method PawnForward(row: int, col: int, color: Color) returns (moves: seq<Square>)
      requires Valid()
      ensures moves == PawnAdvance(Cells(), row, col, color)
    {
      var direction := Forward(color);
      moves := [];
      if OnBoard(row + direction, col) && board[row + direction, col].None? {
        moves := moves + [(row + direction, col)];
        if (color == Black && row == 1) || (color == White && row == 6) {
          if board[row + direction * 2, col].None? {
            moves := moves + [(row + direction * 2, col)];
          }
        }
      }
    }

    /** calculatePawnMoves */
    method CalculatePawnMoves(row: int, col: int, color: Color) returns (moves: seq<Square>)
      requires Valid()
      ensures moves == PawnTargets(Cells(), row, col, color)
    {
      var direction := Forward(color);
      moves := PawnForward(row, col, color);
      // the two capture directions, left then right
      var left := PawnCapture(row + direction, col - 1, color);
      var right := PawnCapture(row + direction, col + 1, color);
      moves := moves + left + right;
    }

    /** getPiecePossibleMoves */
    method GetPiecePossibleMoves(piece: Piece, row: int, col: int) returns (moves: seq<Square>)
      requires Valid()
      ensures moves == PossibleMoves(Cells(), piece, row, col)
    {
      var color := ColorOf(Some(piece));
      match piece.kind {
        case Knight =>
          var jumps := CalculateKnightMoves(row, col);
          moves := DropBlocked(jumps, color);
        case Bishop =>
          moves := GetSlidingMoves(row, col, BishopDirs, color);
        case Rook =>
          moves := GetSlidingMoves(row, col, RookDirs, color);
        case Queen =>
          moves := GetSlidingMoves(row, col, BishopDirs + RookDirs, color);
        case Pawn =>
          moves := CalculatePawnMoves(row, col, color);
        case King =>
          moves := [];
      }
    }

    /** getPieceMobility */
    method GetPieceMobility(piece: Piece, row: int, col: int) returns (mobility: nat)
      requires Valid()
      ensures mobility == Mobility(Cells(), piece, row, col)
    {
      var color := ColorOf(Some(piece));
      var moves: seq<Square> := [];
      match piece.kind {
        case Knight =>
          moves := CalculateKnightMoves(row, col);
        case Bishop =>
          moves := CalculateBishopMoves(row, col);
        case Rook =>
          moves := CalculateRookMoves(row, col);
        case Queen =>
          moves := CalculateQueenMoves(row, col);
        case Pawn =>
          moves := CalculatePawnMoves(row, col, color);
        case King =>
          return 0;
      }
      var kept := DropBlocked(moves, color);
      mobility := |kept|;
    }

    /** Sets threats[x, y] for every on-board (x, y) among `moves`. */
    static method MarkThreats(threats: array2<bool>, moves: seq<Square>)
      requires threats.Length0 == 8 && threats.Length1 == 8
      modifies threats
      ensures forall x, y :: OnBoard(x, y) ==> threats[x, y] == (old(threats[x, y]) || (x, y) in moves)
    {
      for i := 0 to |moves|
        invariant forall x, y :: OnBoard(x, y) ==> threats[x, y] == (old(threats[x, y]) || (x, y) in moves[..i])
      {
        var (r, c) := moves[i];
        if OnBoard(r, c) {
          threats[r, c] := true;
        }
        assert moves[..i + 1] == moves[..i] + [moves[i]];
      }
      assert moves[..|moves|] == moves;
    }

    /** buildThreatMap */
    method BuildThreatMap() returns (threats: array2<bool>)
      requires Valid()
      ensures fresh(threats) && threats.Length0 == 8 && threats.Length1 == 8
      ensures forall x, y :: OnBoard(x, y) ==> threats[x, y] == Threatened(Cells(), x, y)
    {
      ghost var b := Cells();
      threats := new bool[8, 8]((_, _) => false);
      for row := 0 to 8
        invariant forall x, y :: OnBoard(x, y) ==> threats[x, y] == ThreatenedBefore(b, x, y, row, 0)
      {
        for col := 0 to 8
          invariant forall x, y :: OnBoard(x, y) ==> threats[x, y] == ThreatenedBefore(b, x, y, row, col)
        {
          var cell := board[row, col];
          if cell.Some? {
            var moves := GetPiecePossibleMoves(cell.value, row, col);
            MarkThreats(threats, moves);
          }
          forall x, y | OnBoard(x, y)
            ensures threats[x, y] == ThreatenedBefore(b, x, y, row, col + 1)
          {
            ThreatenedBeforeStep(b, x, y, row, col);
          }
        }
        forall x, y | OnBoard(x, y)
          ensures threats[x, y] == ThreatenedBefore(b, x, y, row + 1, 0)
        {
          ThreatenedBeforeCarry(b, x, y, row);
        }
      }
      forall x, y | OnBoard(x, y)
        ensures threats[x, y] == Threatened(b, x, y)
      {
        ThreatenedBeforeAll(b, x, y);
      }
    }

    /** What square (row, col) adds to evaluateBoard, doubled. */
    method SquareScore(threats: array2<bool>, row: int, col: int) returns (delta: int)
      requires Valid() && OnBoard(row, col)
      requires threats.Length0 == 8 && threats.Length1 == 8
      requires forall x, y :: OnBoard(x, y) ==> threats[x, y] == Threatened(Cells(), x, y)
      ensures delta == Contribution(Cells(), row, col)
    {
      delta := 0;
      var cell := board[row, col];
      if cell.Some? {
        var piece := cell.value;
        var color := ColorOf(cell);
        var value: int := PieceValue(piece.kind);
        var mobility: int := GetPieceMobility(piece, row, col);
        delta := if color == Black then 2 * (value + mobility) else -2 * (value + mobility);
        // a piece on a threatened square loses half its value
        if threats[row, col] {
          delta := delta + if color == Black then -value else value;
        }
        ContributionOf(Cells(), row, col, piece, threats[row, col]);
      }
    }

    /** One row of evaluateBoard's double loop. */
    method RowScore(threats: array2<bool>, row: int) returns (sum: int)
      requires Valid() && 0 <= row < 8
      requires threats.Length0 == 8 && threats.Length1 == 8
      requires forall x, y :: OnBoard(x, y) ==> threats[x, y] == Threatened(Cells(), x, y)
      ensures sum + ScoreFrom(Cells(), row + 1, 0) == ScoreFrom(Cells(), row, 0)
    {
      ghost var b := Cells();
      sum := 0;
      for col := 0 to 8
        invariant sum + ScoreFrom(b, row, col) == ScoreFrom(b, row, 0)
      {
        var delta := SquareScore(threats, row, col);
        sum := sum + delta;
      }
    }

    /** evaluateBoard, doubled: the score is twice the source's. */
    method EvaluateBoard() returns (score: int)
      requires Valid()
      ensures score == Evaluate(Cells())
    {
      ghost var b := Cells();
      score := 0;
      var threats := BuildThreatMap();
      for row := 0 to 8
        invariant score + ScoreFrom(b, row, 0) == Evaluate(b)
        invariant Cells() == b
        invariant forall x, y :: OnBoard(x, y) ==> threats[x, y] == Threatened(b, x, y)
      {
        var sum := RowScore(threats, row);
        score := score + sum;
      }
    }

    /** The writes of an accepted movePiece: the en-passant victim, the origin, the target. */
    method PlaceMove(fromRow: int, fromCol: int, toRow: int, toCol: int)
      requires Valid() && OnBoard(fromRow, fromCol) && OnBoard(toRow, toCol) && board[fromRow, fromCol].Some?
      modifies board
      ensures Cells() == Placed(old(Cells()), fromRow, fromCol, toRow, toCol)
    {
      ghost var b := Cells();
      var piece := board[fromRow, fromCol];
      if piece.value.kind == Pawn && Abs(toCol - fromCol) == 1 && board[toRow, toCol].None? {
        board[fromRow, toCol] := None;
      }
      board[fromRow, fromCol] := None;
      board[toRow, toCol] := piece;
      Extensionality(Cells(), Placed(b, fromRow, fromCol, toRow, toCol));
    }

    /** The rollback of movePiece: the origin and the target get their old contents back, in that order. */
    method WriteBack(fromRow: int, fromCol: int, piece: Option<Piece>, toRow: int, toCol: int, targetPiece: Option<Piece>)
      requires Valid() && OnBoard(fromRow, fromCol) && OnBoard(toRow, toCol)
      modifies board
      ensures Cells() == Set(Set(old(Cells()), fromRow, fromCol, piece), toRow, toCol, targetPiece)
    {
      ghost var b := Cells();
      board[fromRow, fromCol] := piece;
      board[toRow, toCol] := targetPiece;
      Extensionality(Cells(), Set(Set(b, fromRow, fromCol, piece), toRow, toCol, targetPiece));
    }

    /** The tail of movePiece: when the side now to move is in check, test it for checkmate and set the flag. */
    method UpdateCheckmate()
      requires Valid()
      modifies this, board
      ensures Valid() && Cells() == old(Cells())
      ensures currentPlayer == old(currentPlayer) && lastMove == old(lastMove) && promotion == old(promotion)
      ensures moveHistory == old(moveHistory)
      ensures checkmate == (old(checkmate) || (InCheck(Cells(), lastMove, currentPlayer) && Checkmate(Cells(), lastMove, currentPlayer)))
    {
      var inCheck := IsKingInCheck(currentPlayer);
      if inCheck {
        var mate := IsCheckmate(currentPlayer);
        if mate {
          checkmate := true;
        }
      }
    }

    /**
     * movePiece(fromCell, toCell): the gates (an open promotion, an own piece on
     * the target, a move `isValidMove` refuses), then the move itself.
     */
    method MovePiece(fromRow: int, fromCol: int, toRow: int, toCol: int) returns (ok: bool)
      requires Valid() && OnBoard(fromRow, fromCol) && OnBoard(toRow, toCol)
      modifies this, board
      ensures Valid()
      ensures View() == Step(old(View()), fromRow, fromCol, toRow, toCol).game
      ensures ok == Step(old(View()), fromRow, fromCol, toRow, toCol).ok
    {
      if promotion.Some? {
        return false;
      }
      var piece := board[fromRow, fromCol];
      var targetPiece := board[toRow, toCol];
      // no capturing one's own piece
      if targetPiece.Some? && ColorOf(targetPiece) == currentPlayer {
        return false;
      }
      // an empty origin falls to the default case of isValidMove
      if piece.None? {
        return false;
      }
      var valid := IsValidMove(piece.value, fromRow, fromCol, toRow, toCol);
      if !valid {
        return false;
      }
      ok := CommitMove(fromRow, fromCol, toRow, toCol);
    }

    /**
     * The accepted branch of movePiece: the en-passant removal, the move, the
     * promotion trigger and `lastMove`, then the rest in `SettleMove`.
     */
    method CommitMove(fromRow: int, fromCol: int, toRow: int, toCol: int) returns (ok: bool)
      requires Valid() && OnBoard(fromRow, fromCol) && OnBoard(toRow, toCol)
      requires Accepted(View(), fromRow, fromCol, toRow, toCol)
      modifies this, board
      ensures Valid()
      ensures View() == Step(old(View()), fromRow, fromCol, toRow, toCol).game
      ensures ok == Step(old(View()), fromRow, fromCol, toRow, toCol).ok
    {
      ghost var g := View();
      var piece := board[fromRow, fromCol];
      var targetPiece := board[toRow, toCol];
      PlaceMove(fromRow, fromCol, toRow, toCol);
      if Promotes(piece.value, toRow) {
        promotion := Some(Promotion(toRow, toCol, piece.value.color));
      }
      lastMove := Some(LastMove(piece.value, fromRow, fromCol, toRow, toCol));
      assert View() == Moved(g, fromRow, fromCol, toRow, toCol);
      ok := SettleMove(g, fromRow, fromCol, toRow, toCol, piece, targetPiece);
    }

    /**
     * The rest of an accepted movePiece from the game `Moved` gives: the
     * self-check rollback of the two cells, or the move list, the turn toggle
     * and the checkmate test for the side now to move.
     */
    method SettleMove(ghost g: Snapshot, fromRow: int, fromCol: int, toRow: int, toCol: int,
                      piece: Option<Piece>, targetPiece: Option<Piece>) returns (ok: bool)
      requires Valid() && OnBoard(fromRow, fromCol) && OnBoard(toRow, toCol)
      requires piece == g.board[fromRow][fromCol] && piece.Some? && targetPiece == g.board[toRow][toCol]
      requires View() == Moved(g, fromRow, fromCol, toRow, toCol)
      modifies this, board
      ensures Valid()
      ensures View() == Settle(g, old(View()), fromRow, fromCol, toRow, toCol).game
      ensures ok == Settle(g, old(View()), fromRow, fromCol, toRow, toCol).ok
    {
      var selfCheck := IsKingInCheck(currentPlayer);
      if selfCheck {
        // only the two cells of the move are written back
        WriteBack(fromRow, fromCol, piece, toRow, toCol, targetPiece);
        return false;
      }
      moveHistory := moveHistory + [Notation(piece.value, fromRow, fromCol, toRow, toCol)];
      currentPlayer := Opponent(currentPlayer);
      UpdateCheckmate();
      ok := true;
    }

    /** The click handler of the promotion dialog's button for `choice`; without an open dialog nothing happens. */
    method ChoosePromotion(choice: PromotionChoice) returns (ok: bool)
      requires Valid()
      modifies this, board
      ensures Valid()
      ensures old(promotion).None? ==> !ok && View() == old(View())
      ensures old(promotion).Some? ==> ok && View() == Promote(old(View()), ChoiceKind(choice))
    {
      if promotion.None? {
        return false;
      }
      ghost var g := View();
      var pr := promotion.value;
      board[pr.row, pr.col] := Some(Piece(ChoiceKind(choice), pr.color));
      promotion := None;
      currentPlayer := Opponent(pr.color);
      Extensionality(Cells(), Promote(g, ChoiceKind(choice)).board);
      ok := true;
    }

    /** restartGame */
    method RestartGame()
      requires Valid()
      modifies this, board
      ensures Valid()
      ensures View() == Restart(old(View()))
    {
      currentPlayer, lastMove, promotion, checkmate := White, None, None, false;
      var init := InitialBoard();
      for row := 0 to 8
        modifies board
        invariant forall i, j :: OnBoard(i, j) && i < row ==> board[i, j] == init[i][j]
      {
        for col := 0 to 8
          invariant forall i, j :: OnBoard(i, j) && i < row ==> board[i, j] == init[i][j]
          invariant forall j :: 0 <= j < col ==> board[row, j] == init[row][j]
        {
          board[row, col] := init[row][col];
        }
      }
      Extensionality(Cells(), init);
    }

    /**
     * minimax(depth, isMaximizing, alpha, beta): each candidate move is
     * simulated on the cells, searched one level deeper and undone before its
     * value is compared, so the cells end as they began, also on a cut-off.
     */
    method Minimax(depth: nat, isMaximizing: bool, alpha: Score, beta: Score) returns (v: Score)
      requires Valid()
      modifies board
      decreases depth, 3, 0
      ensures Cells() == old(Cells())
      ensures v == AlphaBeta(old(Cells()), lastMove, checkmate, depth, isMaximizing, alpha, beta)
    {
      if depth == 0 || checkmate {
        var score := EvaluateBoard();
        return Fin(score);
      }
      ghost var b := Cells();
      ghost var total := AlphaBeta(b, lastMove, checkmate, depth, isMaximizing, alpha, beta);
      var bestValue := if isMaximizing then NegInf else PosInf;
      var a, z := alpha, beta;
      for row := 0 to 8
        invariant Cells() == b
        invariant Scan(b, lastMove, checkmate, depth, isMaximizing, row, 0, 0, 0, bestValue, a, z) == total
      {
        for col := 0 to 8
          invariant Cells() == b
          invariant Scan(b, lastMove, checkmate, depth, isMaximizing, row, col, 0, 0, bestValue, a, z) == total
        {
          var fromContent := board[row, col];
          if fromContent.Some? && ColorOf(fromContent) == Side(isMaximizing) {
            var cut;
            bestValue, a, z, cut := SearchFrom(row, col, fromContent.value, depth, isMaximizing, bestValue, a, z);
            if cut {
              return bestValue;
            }
          }
        }
      }
      return bestValue;
    }

    /**
     * The two inner loops of minimax for the piece on (row, col): every target
     * square in order, with the running best value and window, stopping at a
     * cut-off.
     */
    method SearchFrom(row: int, col: int, piece: Piece, depth: nat, isMaximizing: bool, best: Score, alpha: Score, beta: Score)
      returns (best': Score, alpha': Score, beta': Score, cut: bool)
      requires Valid() && OnBoard(row, col) && depth > 0
      requires board[row, col] == Some(piece) && ColorOf(Some(piece)) == Side(isMaximizing)
      modifies board
      decreases depth, 2, 0
      ensures Cells() == old(Cells())
      ensures cut ==> Scan(old(Cells()), lastMove, checkmate, depth, isMaximizing, row, col, 0, 0, best, alpha, beta) == best'
      ensures !cut ==> Scan(old(Cells()), lastMove, checkmate, depth, isMaximizing, row, col, 0, 0, best, alpha, beta)
                       == Scan(old(Cells()), lastMove, checkmate, depth, isMaximizing, row, col + 1, 0, 0, best', alpha', beta')
    {
      ghost var b := Cells();
      ghost var total := Scan(b, lastMove, checkmate, depth, isMaximizing, row, col, 0, 0, best, alpha, beta);
      best', alpha', beta', cut := best, alpha, beta, false;
      for toRow := 0 to 8
        invariant Cells() == b && !cut
        invariant Scan(b, lastMove, checkmate, depth, isMaximizing, row, col, toRow, 0, best', alpha', beta') == total
      {
        for toCol := 0 to 8
          invariant Cells() == b && !cut
          invariant Scan(b, lastMove, checkmate, depth, isMaximizing, row, col, toRow, toCol, best', alpha', beta') == total
        {
          best', alpha', beta', cut := SearchTarget(row, col, toRow, toCol, piece, depth, isMaximizing, best', alpha', beta');
          if cut {
            return;
          }
        }
      }
    }

    /**
     * The body of minimax's innermost loop: a valid move is simulated, searched
     * one level deeper and undone, its value folded into the best value and
     * the window; `cut` reports the alpha-beta cut-off.
     */
    method SearchTarget(row: int, col: int, toRow: int, toCol: int, piece: Piece, depth: nat, isMaximizing: bool,
                        best: Score, alpha: Score, beta: Score)
      returns (best': Score, alpha': Score, beta': Score, cut: bool)
      requires Valid() && OnBoard(row, col) && OnBoard(toRow, toCol) && depth > 0
      requires board[row, col] == Some(piece) && ColorOf(Some(piece)) == Side(isMaximizing)
      modifies board
      decreases depth, 1, 1
      ensures Cells() == old(Cells())
      ensures cut ==> Scan(old(Cells()), lastMove, checkmate, depth, isMaximizing, row, col, toRow, toCol, best, alpha, beta) == best'
      ensures !cut ==> Scan(old(Cells()), lastMove, checkmate, depth, isMaximizing, row, col, toRow, toCol, best, alpha, beta)
                       == Scan(old(Cells()), lastMove, checkmate, depth, isMaximizing, row, col, toRow, toCol + 1, best', alpha', beta')
    {
      ScanAt(Cells(), lastMove, checkmate, depth, isMaximizing, row, col, toRow, toCol, best, alpha, beta);
      best', alpha', beta', cut := best, alpha, beta, false;
      var valid := IsValidMove(piece, row, col, toRow, toCol);
      if valid {
        best', alpha', beta', cut := SearchCandidate(row, col, toRow, toCol, depth, isMaximizing, best, alpha, beta);
      }
    }

    /**
     * A valid move of minimax's innermost loop: simulated, searched one level
     * deeper and undone, its value folded into the best value and the window;
     * `cut` reports the alpha-beta cut-off.
     */
    method SearchCandidate(row: int, col: int, toRow: int, toCol: int, depth: nat, isMaximizing: bool,
                           best: Score, alpha: Score, beta: Score)
      returns (best': Score, alpha': Score, beta': Score, cut: bool)
      requires Valid() && OnBoard(row, col) && OnBoard(toRow, toCol) && depth > 0
      modifies board
      decreases depth, 1, 0
      ensures Cells() == old(Cells())
      ensures var e := AlphaBeta(Simulate(old(Cells()), row, col, toRow, toCol), lastMove, checkmate, depth - 1, !isMaximizing, alpha, beta);
              && best' == (if isMaximizing then Max(best, e) else Min(best, e))
              && alpha' == (if isMaximizing then Max(alpha, best') else alpha)
              && beta' == (if isMaximizing then beta else Min(beta, best'))
              && cut == Le(beta', alpha')
    {
      var evaluation := Simulated(row, col, toRow, toCol, depth - 1, !isMaximizing, alpha, beta);
      best', alpha', beta' := best, alpha, beta;
      if isMaximizing {
        best' := Max(best, evaluation);
        alpha' := Max(alpha, best');
      } else {
        best' := Min(best, evaluation);
        beta' := Min(beta, best');
      }
      // alpha-beta cut-off
      cut := Le(beta', alpha');
    }

    /** One simulated move of minimax: move the piece, search, put both cells back. */
    method Simulated(row: int, col: int, toRow: int, toCol: int, depth: nat, isMaximizing: bool, alpha: Score, beta: Score)
      returns (v: Score)
      requires Valid() && OnBoard(row, col) && OnBoard(toRow, toCol)
      modifies board
      decreases depth + 1, 0, 0
      ensures Cells() == old(Cells())
      ensures v == AlphaBeta(Simulate(old(Cells()), row, col, toRow, toCol), lastMove, checkmate, depth, isMaximizing, alpha, beta)
    {
      ghost var b := Cells();
      var fromContent := board[row, col];
      var toContent := board[toRow, toCol];
      SimulateMove(row, col, toRow, toCol);
      v := Minimax(depth, isMaximizing, alpha, beta);
      WriteBack(row, col, fromContent, toRow, toCol, toContent);
      UndoSimulate(b, row, col, toRow, toCol);
    }

    /** The simulated move of minimax and aiMove: the origin is emptied, then the target gets its piece. */
    method SimulateMove(row: int, col: int, toRow: int, toCol: int)
      requires Valid() && OnBoard(row, col) && OnBoard(toRow, toCol)
      modifies board
      ensures Cells() == Simulate(old(Cells()), row, col, toRow, toCol)
    {
      ghost var b := Cells();
      var fromContent := board[row, col];
      board[row, col] := None;
      board[toRow, toCol] := fromContent;
      Extensionality(Cells(), Simulate(b, row, col, toRow, toCol));
    }
  
    /**
     * aiMove: unless a promotion is open, choose the AI's move and play it
     * with movePiece. The choice is returned; the cells and gameState end as
     * `AiTurn` says.
     */
    method AiMove() returns (choice: Option<Move>)
      requires Valid()
      modifies this, board
      ensures Valid()
      ensures choice == if old(promotion).Some? then None else AiChoice(old(Cells()), old(lastMove), old(checkmate))
      ensures View() == AiTurn(old(View()))
    {
      if promotion.Some? {
        return None;
      }
      choice := ChooseAiMove();
      if choice.Some? {
        AiChoiceFirstBest(Cells(), lastMove, checkmate);
        var m := choice.value;
        var moved := MovePiece(m.fromRow, m.fromCol, m.toRow, m.toCol);
      }
    }

    /**
     * The four loops of aiMove: every black piece, every target, each
     * candidate simulated and valued by minimax(2, false, -Infinity, Infinity),
     * the first strictly greatest value kept. The cells end as they began.
     */
    method ChooseAiMove() returns (bestMove: Option<Move>)
      requires Valid()
      modifies board
      ensures Cells() == old(Cells())
      ensures bestMove == AiChoice(old(Cells()), lastMove, checkmate)
    {
      ghost var b := Cells();
      ghost var owned, cand, worth := RootOwned(b), RootCandidate(b, lastMove), RootWorth(b, lastMove, checkmate);
      ghost var total := BestScan(owned, cand, worth, 0, 0, 0, 0, None, NegInf);
      var bestValue := NegInf;
      bestMove := None;
      for row := 0 to 8
        invariant Cells() == b
        invariant BestScan(owned, cand, worth, row, 0, 0, 0, bestMove, bestValue) == total
      {
        for col := 0 to 8
          invariant Cells() == b
          invariant BestScan(owned, cand, worth, row, col, 0, 0, bestMove, bestValue) == total
        {
          var fromContent := board[row, col];
          if fromContent.Some? && ColorOf(fromContent) == Black {
            bestMove, bestValue := RootFrom(row, col, fromContent.value, bestMove, bestValue);
          }
        }
      }
    }

    /** The two inner loops of aiMove for the black piece on (row, col). */
    method RootFrom(row: int, col: int, piece: Piece, best: Option<Move>, bestValue: Score)
      returns (best': Option<Move>, bestValue': Score)
      requires Valid() && OnBoard(row, col)
      requires board[row, col] == Some(piece) && ColorOf(Some(piece)) == Black
      modifies board
      ensures Cells() == old(Cells())
      ensures BestScan(RootOwned(old(Cells())), RootCandidate(old(Cells()), lastMove), RootWorth(old(Cells()), lastMove, checkmate),
                       row, col, 0, 0, best, bestValue)
              == BestScan(RootOwned(old(Cells())), RootCandidate(old(Cells()), lastMove), RootWorth(old(Cells()), lastMove, checkmate),
                          row, col + 1, 0, 0, best', bestValue')
    {
      ghost var b := Cells();
      ghost var owned, cand, worth := RootOwned(b), RootCandidate(b, lastMove), RootWorth(b, lastMove, checkmate);
      ghost var total := BestScan(owned, cand, worth, row, col, 0, 0, best, bestValue);
      best', bestValue' := best, bestValue;
      for toRow := 0 to 8
        invariant Cells() == b
        invariant BestScan(owned, cand, worth, row, col, toRow, 0, best', bestValue') == total
      {
        for toCol := 0 to 8
          invariant Cells() == b
          invariant BestScan(owned, cand, worth, row, col, toRow, toCol, best', bestValue') == total
        {
          best', bestValue' := RootTarget(row, col, toRow, toCol, piece, best', bestValue');
        }
      }
    }

    /** The body of aiMove's innermost loop: simulate and value a candidate, keep it if strictly better. */
    method RootTarget(row: int, col: int, toRow: int, toCol: int, piece: Piece, best: Option<Move>, bestValue: Score)
      returns (best': Option<Move>, bestValue': Score)
      requires Valid() && OnBoard(row, col) && OnBoard(toRow, toCol)
      requires board[row, col] == Some(piece) && ColorOf(Some(piece)) == Black
      modifies board
      ensures Cells() == old(Cells())
      ensures BestScan(RootOwned(old(Cells())), RootCandidate(old(Cells()), lastMove), RootWorth(old(Cells()), lastMove, checkmate),
                       row, col, toRow, toCol, best, bestValue)
              == BestScan(RootOwned(old(Cells())), RootCandidate(old(Cells()), lastMove), RootWorth(old(Cells()), lastMove, checkmate),
                          row, col, toRow, toCol + 1, best', bestValue')
    {
      ghost var b := Cells();
      BestScanAt(RootOwned(b), RootCandidate(b, lastMove), RootWorth(b, lastMove, checkmate), row, col, toRow, toCol, best, bestValue);
      best', bestValue' := best, bestValue;
      var valid := IsValidMove(piece, row, col, toRow, toCol);
      var toContent := board[toRow, toCol];
      if valid && (toContent.None? || ColorOf(toContent) == White) {
        var evaluation := Simulated(row, col, toRow, toCol, 2, false, NegInf, PosInf);
        if !Le(evaluation, bestValue) {
          best', bestValue' := Some(Move(row, col, toRow, toCol)), evaluation;
        }
      }
    }
  }
}
