/**
 * The move lists the evaluator uses (`calculate*Moves`, `getSlidingMoves`,
 * `getPiecePossibleMoves`), as functions giving each list in the order the
 * source pushes its entries.
 */
module Generators {
  import opened Pieces
  import opened Boards
  import opened Rules

  type Square = (int, int)

  predicate IsUnit(d: (int, int))
  {
    -1 <= d.0 <= 1 && -1 <= d.1 <= 1 && d != (0, 0)
  }

  /** A direction of a sliding piece: one step along a rank, a file or a diagonal. */
  type Dir = d: (int, int) | IsUnit(d) witness (1, 0)

  const BishopDirs: seq<Dir> := [(-1, -1), (-1, 1), (1, -1), (1, 1)]
  const RookDirs: seq<Dir> := [(-1, 0), (1, 0), (0, -1), (0, 1)]
  const KnightOffsets: seq<(int, int)> := [(-2, -1), (-2, 1), (2, -1), (2, 1), (-1, -2), (-1, 2), (1, -2), (1, 2)]

  /** How many more steps in direction `s` keep coordinate `x` on the board (plus one). */
  function Room(x: int, s: int): int
  {
    if s > 0 then 8 - x else if s < 0 then x + 1 else 0
  }

  /**
   * The squares a slider reaches walking in direction `d`, starting with square
   * (r, c): every square up to the edge, stopping after the first occupied one.
   */
  function Ray(b: Board, r: int, c: int, d: Dir): (s: seq<Square>)
    ensures forall i :: 0 <= i < |s| ==> OnBoard(s[i].0, s[i].1)
    ensures forall i :: 0 <= i < |s| - 1 ==> GetCell(b, s[i].0, s[i].1).None?
    decreases Room(r, d.0) + Room(c, d.1)
  {
    if !OnBoard(r, c) then []
    else if b[r][c].Some? then [(r, c)]
    else [(r, c)] + Ray(b, r + d.0, c + d.1, d)
  }

  /** The rays from (r, c) in each of `dirs`, one after the other. */
  function Rays(b: Board, r: int, c: int, dirs: seq<Dir>): (s: seq<Square>)
    ensures forall i :: 0 <= i < |s| ==> OnBoard(s[i].0, s[i].1)
  {
    if |dirs| == 0 then []
    else
      var d := dirs[|dirs| - 1];
      Rays(b, r, c, dirs[..|dirs| - 1]) + Ray(b, r + d.0, c + d.1, d)
  }

  /**
   * The walk of `calculateBishopMoves`' inner loop: the ray is the squares
   * (r, c), (r, c) + d, (r, c) + 2d, ..., it is empty exactly when (r, c) is
   * off the board, and it stops at the first occupied square or at the edge.
   */
  lemma RayShape(b: Board, r: int, c: int, d: Dir)
    ensures var s := Ray(b, r, c, d);
            && (forall i :: 0 <= i < |s| ==> s[i] == (r + i * d.0, c + i * d.1))
            && (|s| > 0 <==> OnBoard(r, c))
            && (|s| > 0 ==> GetCell(b, s[|s| - 1].0, s[|s| - 1].1).Some?
                            || !OnBoard(s[|s| - 1].0 + d.0, s[|s| - 1].1 + d.1))
  {
    RaySquares(b, r, c, d);
    RayStops(b, r, c, d);
  }

  /** The i-th square of the walk from (r, c) is (r, c) + id. */
  lemma {:induction false} RaySquares(b: Board, r: int, c: int, d: Dir)
    ensures forall i :: 0 <= i < |Ray(b, r, c, d)| ==> Ray(b, r, c, d)[i] == (r + i * d.0, c + i * d.1)
    decreases Room(r, d.0) + Room(c, d.1)
  {
    if OnBoard(r, c) && b[r][c].None? {
      var r', c' := r + d.0, c + d.1;
      RaySquares(b, r', c', d);
      RayPositions(Ray(b, r, c, d), Ray(b, r', c', d), r, c, r', c', d);
    }
  }

  /** The walk from an on-board square ends on an occupied square or at the edge. */
  lemma {:induction false} RayStops(b: Board, r: int, c: int, d: Dir)
    ensures var s := Ray(b, r, c, d);
            && (|s| > 0 <==> OnBoard(r, c))
            && (|s| > 0 ==> GetCell(b, s[|s| - 1].0, s[|s| - 1].1).Some?
                            || !OnBoard(s[|s| - 1].0 + d.0, s[|s| - 1].1 + d.1))
    decreases Room(r, d.0) + Room(c, d.1)
  {
    if OnBoard(r, c) && b[r][c].None? {
      var s, t := Ray(b, r, c, d), Ray(b, r + d.0, c + d.1, d);
      RayStops(b, r + d.0, c + d.1, d);
      assert s == [(r, c)] + t;
      if |t| > 0 {
        assert s[|s| - 1] == t[|t| - 1];
      }
    }
  }

  /** Putting (r, c) in front of the squares (r, c) + (i + 1)d gives the squares (r, c) + id. */
  lemma RayPositions(s: seq<Square>, t: seq<Square>, r: int, c: int, r': int, c': int, d: Dir)
    requires r' == r + d.0 && c' == c + d.1 && s == [(r, c)] + t
    requires forall i :: 0 <= i < |t| ==> t[i] == (r' + i * d.0, c' + i * d.1)
    ensures forall i :: 0 <= i < |s| ==> s[i] == (r + i * d.0, c + i * d.1)
  {
    forall i | 0 < i < |s|
      ensures s[i] == (r + i * d.0, c + i * d.1)
    {
      assert s[i] == t[i - 1];
      assert (i - 1) * d.0 == i * d.0 - d.0 && (i - 1) * d.1 == i * d.1 - d.1;
    }
  }

  /** Square m lies on the ray of one of `dirs`. */
  ghost predicate OnSomeRay(b: Board, r: int, c: int, dirs: seq<Dir>, m: Square)
  {
    exists k :: 0 <= k < |dirs| && m in Ray(b, r + dirs[k].0, c + dirs[k].1, dirs[k])
  }

  /** On a ray of `dirs` means on a ray of all but the last direction, or on the last one's. */
  lemma OnSomeRaySplit(b: Board, r: int, c: int, dirs: seq<Dir>, m: Square)
    requires |dirs| > 0
    ensures var n := |dirs| - 1;
            OnSomeRay(b, r, c, dirs, m)
            <==> OnSomeRay(b, r, c, dirs[..n], m) || m in Ray(b, r + dirs[n].0, c + dirs[n].1, dirs[n])
  {
    var n := |dirs| - 1;
    if OnSomeRay(b, r, c, dirs, m) {
      var k :| 0 <= k < |dirs| && m in Ray(b, r + dirs[k].0, c + dirs[k].1, dirs[k]);
      if k < n {
        assert dirs[..n][k] == dirs[k];
      }
    }
    if OnSomeRay(b, r, c, dirs[..n], m) {
      var k :| 0 <= k < n && m in Ray(b, r + dirs[..n][k].0, c + dirs[..n][k].1, dirs[..n][k]);
      assert dirs[..n][k] == dirs[k];
    }
  }

  /** A square is among the rays of `dirs` exactly when it is on the ray of one of the directions. */
  lemma {:induction false} RaysMembers(b: Board, r: int, c: int, dirs: seq<Dir>)
    ensures forall m :: m in Rays(b, r, c, dirs) <==> OnSomeRay(b, r, c, dirs, m)
  {
    if |dirs| > 0 {
      var n := |dirs| - 1;
      RaysMembers(b, r, c, dirs[..n]);
      forall m
        ensures m in Rays(b, r, c, dirs) <==> OnSomeRay(b, r, c, dirs, m)
      {
        OnSomeRaySplit(b, r, c, dirs, m);
      }
    }
  }

  /** isBlockedBySameColor: an on-board square whose contents read as `color` (an empty square reads as black). */
  predicate BlockedBySameColor(b: Board, s: Square, color: Color)
  {
    OnBoard(s.0, s.1) && ColorOf(b[s.0][s.1]) == color
  }

  /** `moves.filter(move => !isBlockedBySameColor(move, color))` */
  function NotBlocked(b: Board, moves: seq<Square>, color: Color): (s: seq<Square>)
    ensures |s| <= |moves|
    ensures forall m :: m in s <==> m in moves && !BlockedBySameColor(b, m, color)
  {
    if |moves| == 0 then []
    else
      var m := moves[|moves| - 1];
      NotBlocked(b, moves[..|moves| - 1], color) + (if BlockedBySameColor(b, m, color) then [] else [m])
  }

  /**
   * For a black mover the filter also drops every empty square, since an empty
   * cell reads as black: an on-board square survives only when a white piece
   * stands on it.
   */
  lemma NotBlockedBlack(b: Board, moves: seq<Square>)
    ensures forall m :: m in NotBlocked(b, moves, Black) <==>
      m in moves && (!OnBoard(m.0, m.1) || (b[m.0][m.1].Some? && b[m.0][m.1].value.color == White))
  {
  }

  /** For a white mover an empty on-board square is kept. */
  lemma NotBlockedWhiteEmpty(b: Board, moves: seq<Square>, m: Square)
    requires m in moves && OnBoard(m.0, m.1) && b[m.0][m.1].None?
    ensures m in NotBlocked(b, moves, White)
  {
  }

  /** The moves list `getSlidingMoves` returns. */
  function SlidingMoves(b: Board, r: int, c: int, dirs: seq<Dir>, color: Color): seq<Square>
  {
    NotBlocked(b, Rays(b, r, c, dirs), color)
  }

  /** Keeps the on-board squares, in order. */
  function OnBoardOnly(moves: seq<Square>): (s: seq<Square>)
    ensures forall m :: m in s <==> m in moves && OnBoard(m.0, m.1)
  {
    if |moves| == 0 then []
    else
      var m := moves[|moves| - 1];
      OnBoardOnly(moves[..|moves| - 1]) + (if OnBoard(m.0, m.1) then [m] else [])
  }

  /** calculateKnightMoves: the on-board squares a knight's jump away, in the order of the offsets. */
  function KnightTargets(r: int, c: int): seq<Square>
  {
    OnBoardOnly(seq(8, i requires 0 <= i < 8 => (r + KnightOffsets[i].0, c + KnightOffsets[i].1)))
  }

  /** A diagonal pawn target when it is on the board and does not read as the pawn's colour. */
  function CaptureTarget(b: Board, r: int, c: int, color: Color): seq<Square>
  {
    if OnBoard(r, c) && ColorOf(b[r][c]) != color then [(r, c)] else []
  }

  /**
   * The forward part of calculatePawnMoves: one step onto an empty square,
   * then two steps from the start rank when that square is empty too.
   */
  function PawnAdvance(b: Board, r: int, c: int, color: Color): seq<Square>
  {
    var dir := Forward(color);
    if OnBoard(r + dir, c) && b[r + dir][c].None? then
      [(r + dir, c)]
      + (if ((color == Black && r == 1) || (color == White && r == 6)) && b[r + 2 * dir][c].None?
         then [(r + 2 * dir, c)] else [])
    else []
  }

  /** calculatePawnMoves: the forward squares, then the two diagonals. */
  function PawnTargets(b: Board, r: int, c: int, color: Color): seq<Square>
  {
    var dir := Forward(color);
    PawnAdvance(b, r, c, color) + CaptureTarget(b, r + dir, c - 1, color) + CaptureTarget(b, r + dir, c + 1, color)
  }

  /** The square ahead when it is empty, and the square two ahead from the start row when both are empty. */
  ghost predicate AdvanceSquare(b: Board, r: int, c: int, color: Color, m: Square)
    requires OnBoard(r, c)
  {
    var dir := Forward(color);
    || (m == (r + dir, c) && OnBoard(r + dir, c) && b[r + dir][c].None?)
    || (m == (r + 2 * dir, c) && ((color == Black && r == 1) || (color == White && r == 6))
        && b[r + dir][c].None? && b[r + 2 * dir][c].None?)
  }

  /** A forward diagonal that is on the board and does not read as `color`. */
  ghost predicate DiagonalSquare(b: Board, r: int, c: int, color: Color, m: Square)
  {
    var dir := Forward(color);
    (m == (r + dir, c - 1) || m == (r + dir, c + 1)) && OnBoard(m.0, m.1) && ColorOf(b[m.0][m.1]) != color
  }

  /**
   * What calculatePawnMoves lists for a pawn of `color` on (r, c): the square
   * ahead when it is empty, the square two ahead from the start row when both
   * are empty, and each forward diagonal that is on the board and does not
   * read as `color`.
   */
  lemma {:induction false} PawnTargetsMembers(b: Board, r: int, c: int, color: Color)
    requires OnBoard(r, c)
    ensures forall m :: m in PawnTargets(b, r, c, color)
                        <==> AdvanceSquare(b, r, c, color, m) || DiagonalSquare(b, r, c, color, m)
  {
    var dir := Forward(color);
    var adv, left, right := PawnAdvance(b, r, c, color), CaptureTarget(b, r + dir, c - 1, color), CaptureTarget(b, r + dir, c + 1, color);
    assert PawnTargets(b, r, c, color) == adv + left + right;
    forall m
      ensures m in adv <==> AdvanceSquare(b, r, c, color, m)
    {
    }
    forall m
      ensures m in left + right <==> DiagonalSquare(b, r, c, color, m)
    {
    }
  }

  /**
   * The squares calculatePawnMoves lists are on the board, and the forward
   * ones and the occupied diagonals are moves isValidMove accepts for that pawn.
   */
  lemma PawnTargetsValid(b: Board, lm: Option<LastMove>, r: int, c: int, color: Color)
    requires OnBoard(r, c)
    ensures forall m :: m in PawnTargets(b, r, c, color) ==>
              && OnBoard(m.0, m.1)
              && (m.1 == c || b[m.0][m.1].Some? ==> ValidMove(b, lm, Piece(Pawn, color), r, c, m.0, m.1))
  {
    PawnTargetsMembers(b, r, c, color);
    forall m | m in PawnTargets(b, r, c, color)
      ensures OnBoard(m.0, m.1)
      ensures m.1 == c || b[m.0][m.1].Some? ==> ValidMove(b, lm, Piece(Pawn, color), r, c, m.0, m.1)
    {
      if AdvanceSquare(b, r, c, color, m) {
        assert OnBoard(m.0, m.1);
        assert PawnMove(b, lm, color, r, c, m.0, m.1);
      } else {
        assert DiagonalSquare(b, r, c, color, m);
        if b[m.0][m.1].Some? {
          assert PawnMove(b, lm, color, r, c, m.0, m.1);
        }
      }
    }
  }

  /**
   * An empty square diagonally ahead reads as black, so calculatePawnMoves
   * lists it for a white pawn and never for a black one.
   */
  lemma PawnEmptyDiagonal(b: Board, r: int, c: int, color: Color, side: int)
    requires OnBoard(r, c) && (side == -1 || side == 1)
    requires OnBoard(r + Forward(color), c + side) && b[r + Forward(color)][c + side].None?
    ensures (r + Forward(color), c + side) in PawnTargets(b, r, c, color) <==> color == White
  {
    PawnTargetsMembers(b, r, c, color);
  }

  /** getPiecePossibleMoves: the moves that feed the threat map; a king has none. */
  function PossibleMoves(b: Board, p: Piece, r: int, c: int): seq<Square>
  {
    var color := ColorOf(Some(p));
    match p.kind
    case Knight => NotBlocked(b, KnightTargets(r, c), color)
    case Bishop => SlidingMoves(b, r, c, BishopDirs, color)
    case Rook => SlidingMoves(b, r, c, RookDirs, color)
    case Queen => SlidingMoves(b, r, c, BishopDirs + RookDirs, color)
    case Pawn => PawnTargets(b, r, c, color)
    case King => []
  }

  /** getPieceMobility: the number of targets not blocked by the piece's own colour; a king has none. */
  function Mobility(b: Board, p: Piece, r: int, c: int): nat
  {
    var color := ColorOf(Some(p));
    match p.kind
    case Knight => |NotBlocked(b, KnightTargets(r, c), color)|
    case Bishop => |NotBlocked(b, Rays(b, r, c, BishopDirs), color)|
    case Rook => |NotBlocked(b, Rays(b, r, c, RookDirs), color)|
    case Queen => |NotBlocked(b, Rays(b, r, c, RookDirs) + Rays(b, r, c, BishopDirs), color)|
    case Pawn => |NotBlocked(b, PawnTargets(b, r, c, color), color)|
    case King => 0
  }

  /** Filtering a concatenation filters each part. */
  lemma {:induction false} NotBlockedConcat(b: Board, s: seq<Square>, t: seq<Square>, color: Color)
    ensures NotBlocked(b, s + t, color) == NotBlocked(b, s, color) + NotBlocked(b, t, color)
    decreases |t|
  {
    if |t| == 0 {
      assert s + t == s;
    } else {
      var t' := t[..|t| - 1];
      assert (s + t)[..|s + t| - 1] == s + t';
      assert (s + t)[|s + t| - 1] == t[|t| - 1];
      NotBlockedConcat(b, s, t', color);
    }
  }

  /** The rays of two direction lists one after the other are the rays of the joined list. */
  lemma {:induction false} RaysConcat(b: Board, r: int, c: int, d1: seq<Dir>, d2: seq<Dir>)
    ensures Rays(b, r, c, d1 + d2) == Rays(b, r, c, d1) + Rays(b, r, c, d2)
    decreases |d2|
  {
    if |d2| == 0 {
      assert d1 + d2 == d1;
    } else {
      var d2' := d2[..|d2| - 1];
      assert (d1 + d2)[..|d1 + d2| - 1] == d1 + d2';
      assert (d1 + d2)[|d1 + d2| - 1] == d2[|d2| - 1];
      RaysConcat(b, r, c, d1, d2');
    }
  }

  /**
   * getPieceMobility counts what getPiecePossibleMoves lists, for every piece
   * but the pawn: the queen's rook-then-bishop order in the one and
   * bishop-then-rook order in the other do not change the count. A pawn's
   * mobility filters its moves once more and so is at most their number.
   */
  lemma MobilityCountsPossibleMoves(b: Board, p: Piece, r: int, c: int)
    ensures p.kind != Pawn ==> Mobility(b, p, r, c) == |PossibleMoves(b, p, r, c)|
    ensures p.kind == Pawn ==> Mobility(b, p, r, c) <= |PossibleMoves(b, p, r, c)|
  {
    if p.kind == Queen {
      var color := ColorOf(Some(p));
      var rook, bishop := Rays(b, r, c, RookDirs), Rays(b, r, c, BishopDirs);
      RaysConcat(b, r, c, BishopDirs, RookDirs);
      NotBlockedConcat(b, rook, bishop, color);
      NotBlockedConcat(b, bishop, rook, color);
    }
  }
}
