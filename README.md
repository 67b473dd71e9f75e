# chess.js in Dafny

This project models the game logic of `chess.js`, a browser chess game in which
a human plays White against a minimax AI playing Black.

- **The board.** The page shows an 8×8 grid of cells. What a cell displays *is*
  the game state: a Unicode piece glyph, or nothing.
- **Value model.** The functions of the model describe the board as an 8×8
  sequence of `Option<Piece>` (`Boards.Board`).
- **The `Engine.Game` class.** It keeps the same cells in an `array2`, together
  with the fields of `gameState` and the `moveHistory` list. Its methods
  rewrite those in place, exactly where the script writes `textContent`.
- **Proof obligations.** Every method is proved against a function of the value
  model. Properties of the rules, the search and the move executor are proved
  as lemmas about those functions.

The modules follow the script's concerns:

| module | file | what it covers |
|---|---|---|
| `Pieces` | `pieces.dfy` | the glyph table and `getPieceColor` |
| `Boards` | `boards.dfy` | the cells, `getCell` and the start position |
| `Rules` | `rules.dfy` | `isValidMove` and `isPathClear` |
| `CheckAnalysis` | `check.dfy` | `isKingInCheck` and `isCheckmate` |
| `Generators` | `generators.dfy` | `calculate*Moves`, `getSlidingMoves`, `getPiecePossibleMoves` and `getPieceMobility` |
| `Evaluation` | `evaluation.dfy` | `buildThreatMap` and `evaluateBoard` |
| `Search` | `search.dfy` | `minimax` with alpha-beta, and the root search of `aiMove` |
| `Executor` | `executor.dfy` | `movePiece`, promotion, restart and the move notation |
| `Engine` | `engine.dfy` | the `Game` class |

The script's quirks are modelled as written:

- **`getPieceColor` says Black for anything that is not a white glyph, including
  an empty cell.** So a diagonal pawn target that is empty counts as a capture
  square for a white pawn in `calculatePawnMoves`.
- **`isBlockedBySameColor` therefore treats every empty square as blocked for
  Black.** Black knights, bishops, rooks and queens list only squares holding
  White pieces in their possible moves and their mobility, and a black pawn's
  mobility counts only its diagonal captures. So the threat map and
  `evaluateBoard` see Black as nearly immobile.
- **`isKingInCheck` only looks at the first king of the colour in row-major
  order, and reports no check when there is none.**
- **The threat map marks every square any piece could move to, whatever its
  colour.**
- **Non-captures read as captures.** `isValidMove` accepts a pawn's diagonal
  step onto *any* occupied cell, and `movePiece` treats a pawn moving one
  column sideways onto an empty square as en passant.
- **The self-check rollback restores only the origin and target cells.** So a
  pawn taken en passant stays removed.
- **The AI's root search keeps a move only when its value is strictly greater
  than the best so far.** So among equal moves the first one in row-major
  order wins.
- **Minimax returns as soon as `beta <= alpha`.**
- **Minimax does not filter out its own pieces.** Its inner loops call
  `isValidMove` on every target cell and nothing else, so the search
  simulates a side capturing its own pieces (chess.js:271).
- **Null moves pass `isValidMove`.** A king, queen, rook or bishop "moving"
  onto its own square is accepted: both differences are zero and the path
  walk has nothing to check (chess.js:696, 701-713, 955). So every side that
  still has a king or a sliding piece has a candidate move in minimax.

Scores are kept doubled so that the half-value threat penalty stays an
integer. The order of scores, and so every choice the search makes, is the
same as with the script's values. The search's starting value of
plus or minus infinity is the `Score` datatype's `PosInf` and `NegInf`.

## Model

| member | source | states |
|---|---|---|
| Pieces.Opponent | chess.js:161 | the turn always passes to the other colour |
| Pieces.ColorOf | chess.js:685-687 | an empty cell reads as Black; a piece reads as its own colour |
| Pieces.Glyph | chess.js:3-20 | definition: the glyph table; Pieces.GlyphInjective states that no two pieces share a glyph |
| Pieces.GlyphInjective | chess.js:3-20 | no two pieces share a glyph, so a cell's text determines its piece |
| Boards.OnBoard | chess.js:478-480 | definition of isValidMovePosition: both coordinates in 0..7 |
| Boards.GetCell | chess.js:59-64 | off-board coordinates give no cell; on-board ones give that cell |
| Boards.Simulate | chess.js:272-276 | the simulated move puts the origin's contents on the target, empties the origin and changes no other cell |
| Boards.UndoSimulate | chess.js:283-285 | writing the saved origin and target contents back after a simulated move restores the board exactly |
| Boards.InitialBoard | chess.js:28-37 | the start position: the back ranks rook, knight, bishop, queen, king, bishop, knight, rook for Black on row 0 and White on row 7, pawns on rows 1 and 6, rows 2-5 empty |
| Rules.ValidMove | chess.js:689-768 | definition of isValidMove's switch; its laws per kind are stated by Rules.PieceRules and Rules.PawnRules |
| Rules.PathClear | chess.js:948-963 | definition: every square strictly between origin and target is empty; Engine.Game.IsPathClear is proved equal to it, and Rules.PathClearShort and Rules.PathClearFrame state its properties |
| Rules.PieceRules | chess.js:689-717 | king: at most one step each way; knight: displacements {1,2}; queen, rook, bishop: aligned on their lines with a clear path, both directions of each equivalence |
| Rules.PawnRules | chess.js:719-764 | pawn: one step forward iff empty; two steps iff on the start row with both squares empty; a forward diagonal onto an occupied cell always; onto an empty cell iff the last move was an enemy pawn's double step beside it; nothing else |
| Rules.PathClearShort | chess.js:948-963 | a move of at most one square always has a clear path |
| Rules.PathClearFrame | chess.js:948-963 | the path test depends only on the squares strictly between origin and target |
| CheckAnalysis.InCheck | chess.js:770-800 | definition of isKingInCheck on a board; CheckAnalysis.InCheckAt and CheckAnalysis.NoFirstKing characterise it |
| CheckAnalysis.Escape | chess.js:911-936 | definition: a move of an own piece onto a square not holding an own piece after which the colour is not in check; Engine.Game.TryEscape is proved equal to it |
| CheckAnalysis.Checkmate | chess.js:908-946 | definition: no own piece has an escape; Engine.Game.IsCheckmate is proved equal to it |
| CheckAnalysis.FindKingFrom | chess.js:771-782 | the scan from a square finds the first king of the colour at or after it in row-major order, or reports there is none |
| CheckAnalysis.FirstKing | chess.js:771-782 | the found king is a king of that colour with none before it in row-major order; none found means the colour has no king |
| CheckAnalysis.FirstKingAt | chess.js:771-782 | a king of the colour with no earlier one is the king the scan finds |
| CheckAnalysis.NoFirstKing | chess.js:783 | with no king of the colour on the board, the colour is never in check |
| CheckAnalysis.InCheckAt | chess.js:786-799 | with (kr,kc) the first king, in check iff some piece not reading as that colour may move onto (kr,kc) |
| Generators.Ray | chess.js:490-497 | a ray stays on the board and every square on it but the last is empty; Generators.RayShape states the rest |
| Generators.RayShape | chess.js:488-497 | the ray from (r,c) in direction d is the squares (r,c)+i·d, it is empty exactly when (r,c) is off the board, and it ends on an occupied square or at the edge |
| Generators.Rays | chess.js:487-498 | the rays of all directions stay on the board; Generators.RaysMembers states which squares they hold |
| Generators.RaysMembers | chess.js:487-498 | a square is among the rays of a direction list exactly when it lies on the ray of one of the directions |
| Generators.BlockedBySameColor | chess.js:559-563 | definition of isBlockedBySameColor: an on-board square whose contents read as the given colour |
| Generators.KnightTargets | chess.js:460-476 | definition: the on-board jumps in the order of the offsets; Generators.OnBoardOnly gives its membership and Engine.Game.CalculateKnightMoves is proved equal to it |
| Generators.SlidingMoves | chess.js:402-415 | definition: the rays of the directions, filtered by Generators.NotBlocked |
| Generators.PawnTargets | chess.js:528-557 | definition of calculatePawnMoves' list; Generators.PawnTargetsMembers, Generators.PawnTargetsValid and Generators.PawnEmptyDiagonal state what it holds |
| Generators.PawnTargetsMembers | chess.js:528-557 | a square is listed exactly when it is the empty square ahead, the square two ahead from the start row with both squares empty, or a forward diagonal on the board that does not read as the pawn's colour |
| Generators.PawnTargetsValid | chess.js:528-557 | every listed square is on the board, and the forward ones and the occupied diagonals are moves isValidMove accepts for that pawn |
| Generators.PawnEmptyDiagonal | chess.js:547-551 | an empty on-board diagonal is listed for a white pawn and never for a black one |
| Generators.PossibleMoves | chess.js:368-400 | definition of getPiecePossibleMoves' switch; Generators.MobilityCountsPossibleMoves relates it to mobility |
| Generators.Mobility | chess.js:418-446 | definition of getPieceMobility's switch; Generators.MobilityCountsPossibleMoves relates it to the possible moves |
| Generators.NotBlocked | chess.js:559-563 | the filter keeps exactly the squares that are off the board or whose contents do not read as the mover's colour (for Black every empty square is dropped), and never lengthens the list |
| Generators.NotBlockedBlack | chess.js:559-563 | for a black mover a square is kept exactly when it is off the board or holds a white piece |
| Generators.NotBlockedWhiteEmpty | chess.js:559-563 | for a white mover an empty on-board square is kept |
| Generators.OnBoardOnly | chess.js:467-473 | the knight filter keeps exactly the on-board squares |
| Generators.NotBlockedConcat | chess.js:522-526 | filtering a concatenation is concatenating the filtered parts |
| Generators.RaysConcat | chess.js:522-526 | the queen's rook rays followed by its bishop rays are the rays of the joined direction list |
| Generators.MobilityCountsPossibleMoves | chess.js:368-446 | for every piece but the pawn, mobility is exactly the number of possible moves; a pawn's mobility is at most that number |
| Evaluation.PieceValue | chess.js:448-458 | the value table: pawn 1, knight 3, bishop 3, rook 5, queen 9, king 10 |
| Evaluation.Threatened | chess.js:345-366 | definition: some piece lists the square among its possible moves; Evaluation.ThreatenedBeforeAll and Engine.Game.BuildThreatMap are proved against it |
| Evaluation.Contribution | chess.js:325-336 | definition of one square's doubled term; Engine.Game.SquareScore is proved equal to it |
| Evaluation.Evaluate | chess.js:319-343 | definition: the doubled sum of the squares' terms in row-major order; Engine.Game.EvaluateBoard is proved equal to it |
| Evaluation.ThreatenedBeforeStep | chess.js:348-362 | scanning one more square adds exactly that square's piece's possible moves to the threat map |
| Evaluation.ThreatenedBeforeCarry | chess.js:348-349 | the end of one row of the threat-map scan is the start of the next |
| Evaluation.ThreatenedBeforeAll | chess.js:345-366 | the threat map after the whole scan marks exactly the threatened squares |
| Search.LeTotalOrder | chess.js:255 | scores with the two infinities are totally ordered |
| Search.AlphaBeta | chess.js:249-313 | definition of minimax's value: the evaluation at depth 0 or after checkmate, otherwise the loops' fold; Search.AlphaBetaNoMoves and Engine.Game.Minimax are proved about it |
| Search.Scan | chess.js:259-305 | definition of minimax's loops as a fold over (row, col, toRow, toCol) with best, alpha and beta |
| Search.ScanPass | chess.js:259-305 | when the side to move has no candidate, each loop step leaves the result unchanged |
| Search.ScanNoMoves | chess.js:259-305 | when the side to move has no candidate, the loops return the starting best value |
| Search.AlphaBetaNoMoves | chess.js:249-313 | below the leaves and without checkmate, a side with no candidate moves gets minus infinity when maximizing and plus infinity when minimizing; because of null moves this case arises only for a side with no king and no queen, rook or bishop |
| Search.BestScan | chess.js:614-654 | definition of aiMove's loops as a fold keeping the best move and value |
| Search.AiChoice | chess.js:604-654 | definition: the fold from the start with no move and minus infinity; Search.AiChoiceFirstBest states what it picks |
| Search.BestScanStep | chess.js:614-654 | one step of the root loops keeps the invariant that the best so far is the first maximal candidate seen |
| Search.BestScanFirstBest | chess.js:614-654 | the root loops end with the first candidate of maximal value, and none when every value is minus infinity |
| Search.RootCandidatesOwned | chess.js:618-627 | every root candidate starts from a black piece |
| Search.AiChoiceFirstBest | chess.js:614-654 | the AI's choice is a black move that isValidMove accepts onto an empty or white square (it may leave Black's king in check), of value above minus infinity, no candidate is worth more, and every earlier candidate is worth strictly less; no choice means every candidate is worth minus infinity |
| Executor.Notation | chess.js:979 | a move's notation is 14 characters |
| Executor.NotationRoundTrip | chess.js:979-980 | the notation determines the piece and both squares: parsing it gives them back |
| Executor.Placed | chess.js:122-133 | the target gets the moving piece, the origin is emptied, an en-passant victim beside the origin is removed, and nothing else changes |
| Executor.Promote | chess.js:196-230 | one of the dialog's four pieces of the pawn's colour replaces the pawn, the dialog closes and the turn goes to the other colour; nothing else changes |
| Executor.Restart | chess.js:884-905 | restart gives the start position, White to move, no last move, no open promotion and no checkmate, and keeps the move list |
| Executor.Step | chess.js:100-191 | definition of movePiece: the gates, then Executor.Moved and Executor.Settle; Executor.StepSpec states what it does |
| Executor.Moved | chess.js:121-146 | definition of the first half of an accepted movePiece: the placed board, the last move and the promotion trigger |
| Executor.Settle | chess.js:148-188 | definition of the second half of movePiece: the two-cell rollback on self-check, or the move list, the turn and the checkmate flag |
| Executor.StepSpec | chess.js:100-191 | a rejected move changes nothing; an accepted one records the last move and the promotion and succeeds iff the king of the player to move is not in check on the placed board; a success commits the board, passes the turn, lists the move and sets the checkmate flag when the new player is in check and mated; a failure restores the two cells (the whole board unless it was en passant) and keeps turn, list and flag |
| Engine.AiTurn | chess.js:604-660 | definition of aiMove on a game: nothing while a promotion is open or when there is no choice, otherwise movePiece with Search.AiChoice's move |
| Engine.Game.constructor | chess.js:22-37 | a new game is the start position, White to move, nothing pending, empty history |
| Engine.Game.IsPathClear | chess.js:948-963 | the loop's answer is the path predicate |
| Engine.Game.IsValidMove | chess.js:689-768 | the switch's answer is the move rule |
| Engine.Game.FindKing | chess.js:771-782 | the nested scan returns the first king of the colour |
| Engine.Game.IsAttacked | chess.js:786-797 | the scan answers whether some opposing piece attacks the king's square |
| Engine.Game.IsKingInCheck | chess.js:770-800 | the answer is the check predicate on the current cells |
| Engine.Game.TryEscape | chess.js:918-936 | tries one reply in place, restores the cells, and answers whether it leaves the king safe |
| Engine.Game.EscapeFrom | chess.js:911-939 | the cells are restored, and the answer is whether some reply from the square leaves the king safe |
| Engine.Game.IsCheckmate | chess.js:908-946 | the cells are restored, and the answer is the checkmate predicate |
| Engine.Game.CalculateKnightMoves | chess.js:460-476 | the offset loop returns the knight's on-board jumps in offset order |
| Engine.Game.WalkRays | chess.js:487-498 | the rays collected for a direction list |
| Engine.Game.WalkRay | chess.js:490-497 | the inner while loop collects one ray |
| Engine.Game.CalculateBishopMoves | chess.js:482-500 | the four diagonal rays |
| Engine.Game.CalculateRookMoves | chess.js:502-520 | the four straight rays |
| Engine.Game.CalculateQueenMoves | chess.js:522-526 | the rook rays followed by the bishop rays |
| Engine.Game.DropBlocked | chess.js:414 | the filter loop equals Generators.NotBlocked: it drops the on-board squares whose contents read as the mover's colour, which for Black includes every empty square |
| Engine.Game.GetSlidingMoves | chess.js:402-415 | the sliding moves of a direction list, filtered |
| Engine.Game.CalculatePawnMoves | chess.js:528-557 | returns the pawn's list, whose contents Generators.PawnTargetsMembers gives |
| Engine.Game.GetPiecePossibleMoves | chess.js:368-400 | the switch returns the possible moves of the piece |
| Engine.Game.GetPieceMobility | chess.js:418-446 | the switch returns the piece's mobility |
| Engine.Game.MarkThreats | chess.js:356-360 | marks exactly the on-board squares of a move list and leaves every other entry as it was |
| Engine.Game.BuildThreatMap | chess.js:345-366 | a fresh 8×8 map marking exactly the threatened squares |
| Engine.Game.SquareScore | chess.js:323-337 | one square's doubled contribution |
| Engine.Game.RowScore | chess.js:322-338 | one row's doubled contributions |
| Engine.Game.EvaluateBoard | chess.js:319-343 | the doubled evaluation of the current cells |
| Engine.Game.PlaceMove | chess.js:122-133 | writes the cells of a carried-out move |
| Engine.Game.WriteBack | chess.js:149-154 | writes back the origin and target cells |
| Engine.Game.UpdateCheckmate | chess.js:163-186 | sets the checkmate flag exactly when the player to move is in check and mated; nothing else changes |
| Engine.Game.MovePiece | chess.js:100-191 | the new game state and the answer are those of one move step |
| Engine.Game.CommitMove | chess.js:121-188 | an accepted move carries out the move step |
| Engine.Game.SettleMove | chess.js:148-188 | the self-check rollback, or the move list, the turn and the checkmate flag |
| Engine.Game.ChoosePromotion | chess.js:217-229 | with no open dialog nothing changes; otherwise the promotion step |
| Engine.Game.RestartGame | chess.js:884-905 | the new state is the restarted game |
| Engine.Game.Minimax | chess.js:249-313 | the cells are restored, and the value is the alpha-beta value of the position |
| Engine.Game.SearchFrom | chess.js:268-306 | the inner two loops for one origin square advance the minimax fold |
| Engine.Game.SearchTarget | chess.js:269-305 | one target square advances the minimax fold |
| Engine.Game.SearchCandidate | chess.js:271-300 | one candidate move updates best, alpha and beta by the child's value and reports the cut-off |
| Engine.Game.Simulated | chess.js:272-285 | the child's value after a simulated move, with the cells restored |
| Engine.Game.SimulateMove | chess.js:272-276 | the cells after a simulated move |
| Engine.Game.AiMove | chess.js:604-675 | nothing while a promotion is open; otherwise the AI's first best move, carried out by the move step |
| Engine.Game.ChooseAiMove | chess.js:610-654 | the cells are restored and the chosen move is the AI's first best move |
| Engine.Game.RootFrom | chess.js:615-653 | the target loops for one black origin advance the root search |
| Engine.Game.RootTarget | chess.js:618-652 | one target square advances the root search |

## Left out

- Rendering, clicks and selection (`createChessboard`, `onCellClick`, the CSS classes) are outside the game logic. The board is created directly in its start position.
- The modals (`showGameOver`, `showcheck`, `hideGameOver`, the promotion dialog's DOM) are not modelled. The dialog is the `promotion` field, and each of its four buttons is a `ChoosePromotion` choice.
- `setTimeout` scheduling is not modelled. The AI's turn is the separate method `AiMove`, which a caller invokes after a move that passes the turn to Black or after a white promotion.
- The AI's own promotion step (chess.js:660-671) is not modelled. After its move, `aiMove` sets the module-level `awaitingPromotion` flag (chess.js:572, 663) when a black pawn reached row 7. It then starts a timer that turns the pawn into a queen a second later and clears the flag (chess.js:666-669). The timer callback is an event concurrent with the player's clicks.
- The module-level `awaitingPromotion` flag is not modelled either. `aiMove` returns at once while it is set (chess.js:605-608). So if the player closes the promotion dialog and moves within that second, the AI does not answer that move; the model's `AiMove` always answers. The never-called `showPromotionOptions` (chess.js:574-601) also sets the flag and is not part of this model.
- Engine.Game.RestartGame: clears any open promotion, as the rebuilt `gameState` of the script does. A dialog left on the page could still be clicked in the script and would then promote a cell of the new game; in the model that click does nothing.
- The `check` field of `gameState` is never read by the game logic and is not modelled.
- `updateMoveList`'s early return when the list element is missing is not modelled. Its DOM append and scrolling are not modelled either; the move is added to `moveHistory` unconditionally.
- Console messages are not modelled, and neither is `foundValidMove` or `foundMove` beyond its effect (whether a move was chosen).
- Engine.Game.IsValidMove: the move rule is stated for on-board squares only. Every caller in the script passes board coordinates.
- Engine.Game.MovePiece: the requires demands on-board squares. The script takes two existing cells.
- Engine.Game.AiMove: when `movePiece` refuses the chosen move because it leaves Black's king in check, the AI does not try another move. The script does not either, and the model states exactly that.
- Search.AlphaBetaNoMoves: the model does not prove that the pruned search returns the same value as plain minimax. It states the alpha-beta value the script computes.
- Scores are doubled integers rather than JavaScript numbers. No floating-point rounding is modelled, since every score the script forms is a multiple of one half.
