/** The 8x8 board as a value: rows 0..7 from black's back rank, columns 0..7 from file a. */
module Boards {
  import opened Pieces

  type Cell = Option<Piece>

  predicate IsGrid(b: seq<seq<Cell>>)
  {
    |b| == 8 && forall r :: 0 <= r < 8 ==> |b[r]| == 8
  }

  type Board = b: seq<seq<Cell>> | IsGrid(b) witness seq(8, _ => seq(8, _ => None))

  /** isValidMovePosition */
  predicate OnBoard(r: int, c: int)
  {
    0 <= r < 8 && 0 <= c < 8
  }

  /** getCell: the contents of a square, with every off-board coordinate reading as no cell at all. */
  function GetCell(b: Board, r: int, c: int): (cell: Cell)
    ensures !OnBoard(r, c) ==> cell.None?
    ensures OnBoard(r, c) ==> cell == b[r][c]
  {
    if OnBoard(r, c) then b[r][c] else None
  }

  /** The board with one square's contents replaced. */
  function Set(b: Board, r: int, c: int, v: Cell): (b': Board)
    requires OnBoard(r, c)
    ensures forall i, j :: OnBoard(i, j) ==> b'[i][j] == if i == r && j == c then v else b[i][j]
  {
    b[r := b[r][c := v]]
  }

  /** Two boards with the same contents on every square are the same board. */
  lemma Extensionality(b: Board, b': Board)
    requires forall i, j :: OnBoard(i, j) ==> b[i][j] == b'[i][j]
    ensures b == b'
  {
    forall i | 0 <= i < 8
      ensures b[i] == b'[i]
    {
      assert forall j :: 0 <= j < 8 ==> b[i][j] == b'[i][j];
    }
  }

  /**
   * The simulated move of the engine: the origin is emptied and then the
   * destination receives what the origin held.
   */
  function Simulate(b: Board, fr: int, fc: int, tr: int, tc: int): (b': Board)
    requires OnBoard(fr, fc) && OnBoard(tr, tc)
    ensures b'[tr][tc] == b[fr][fc]
    ensures (fr, fc) != (tr, tc) ==> b'[fr][fc].None?
    ensures forall i, j :: OnBoard(i, j) && (i, j) != (fr, fc) && (i, j) != (tr, tc) ==> b'[i][j] == b[i][j]
  {
    Set(Set(b, fr, fc, None), tr, tc, b[fr][fc])
  }

  /** Undoing a simulated move by writing back both original cells restores the board. */
  lemma {:induction false} UndoSimulate(b: Board, fr: int, fc: int, tr: int, tc: int)
    requires OnBoard(fr, fc) && OnBoard(tr, tc)
    ensures Set(Set(Simulate(b, fr, fc, tr, tc), fr, fc, b[fr][fc]), tr, tc, b[tr][tc]) == b
  {
    var u := Set(Set(Simulate(b, fr, fc, tr, tc), fr, fc, b[fr][fc]), tr, tc, b[tr][tc]);
    Extensionality(u, b);
  }

  function PieceCell(k: Kind, c: Color): Cell { Some(Piece(k, c)) }

  /** initialBoard: black on rows 0 and 1, white on rows 6 and 7, queens on column 3, kings on column 4. */
  function InitialBoard(): (b: Board)
    ensures forall c :: 0 <= c < 8 ==> b[1][c] == Some(Piece(Pawn, Black)) && b[6][c] == Some(Piece(Pawn, White))
    ensures forall r, c :: 2 <= r < 6 && 0 <= c < 8 ==> b[r][c].None?
    ensures b[0][4] == Some(Piece(King, Black)) && b[7][4] == Some(Piece(King, White))
    ensures forall c :: 0 <= c < 8 ==>
              && b[0][c] == Some(Piece([Rook, Knight, Bishop, Queen, King, Bishop, Knight, Rook][c], Black))
              && b[7][c] == Some(Piece([Rook, Knight, Bishop, Queen, King, Bishop, Knight, Rook][c], White))
  {
    var back := [Rook, Knight, Bishop, Queen, King, Bishop, Knight, Rook];
    var empty := seq(8, _ => None);
    [ seq(8, c requires 0 <= c < 8 => PieceCell(back[c], Black)),
      seq(8, _ => PieceCell(Pawn, Black)),
      empty, empty, empty, empty,
      seq(8, _ => PieceCell(Pawn, White)),
      seq(8, c requires 0 <= c < 8 => PieceCell(back[c], White)) ]
  }
}
