/** Pieces, colours and the glyphs the board cells display. */
module Pieces {

  /** A cell's contents: `None` is an empty cell (empty display text). */
  datatype Option<+T> = None | Some(value: T)

  datatype Color = White | Black

  datatype Kind = King | Queen | Rook | Bishop | Knight | Pawn

  /** One glyph of the board: a piece type together with its colour. */
  datatype Piece = Piece(kind: Kind, color: Color)

  function Opponent(c: Color): (o: Color)
    ensures o != c
  {
    if c == White then Black else White
  }

  /**
   * The colour the engine reads off a cell. Only a white glyph reads as white:
   * every other text, the empty one included, reads as black.
   */
  function ColorOf(cell: Option<Piece>): (c: Color)
    ensures cell.None? ==> c == Black
    ensures cell.Some? ==> c == cell.value.color
  {
    match cell
    case Some(p) => p.color
    case None => Black
  }

  /** The Unicode chess symbol displayed for a piece. */
  function Glyph(p: Piece): char
  {
    match (p.color, p.kind)
    case (White, King) => '♔'
    case (White, Queen) => '♕'
    case (White, Rook) => '♖'
    case (White, Bishop) => '♗'
    case (White, Knight) => '♘'
    case (White, Pawn) => '♙'
    case (Black, King) => '♚'
    case (Black, Queen) => '♛'
    case (Black, Rook) => '♜'
    case (Black, Bishop) => '♝'
    case (Black, Knight) => '♞'
    case (Black, Pawn) => '♟'
  }

  /** Each of the twelve pieces has its own glyph, so a cell's text identifies its piece. */
  lemma GlyphInjective(p: Piece, q: Piece)
    requires Glyph(p) == Glyph(q)
    ensures p == q
  {
  }
}
