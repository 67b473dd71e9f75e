/**
 * The alpha-beta search `minimax` and the root selection of `aiMove`, as
 * functions of the board they start from. Both walk the board exactly as the
 * source's four nested loops do: origin row, origin column, target row, target
 * column.
 */
module Search {
  import opened Pieces
  import opened Boards
  import opened Rules
  import opened Evaluation

  /** A search value: the source's -Infinity, a finite (doubled) score, or +Infinity. */
  datatype Score = NegInf | Fin(twice: int) | PosInf

  predicate Le(a: Score, b: Score)
  {
    a.NegInf? || b.PosInf? || (a.Fin? && b.Fin? && a.twice <= b.twice)
  }

  /** `Math.max` */
  function Max(a: Score, b: Score): Score
  {
    if Le(a, b) then b else a
  }

  /** `Math.min` */
  function Min(a: Score, b: Score): Score
  {
    if Le(a, b) then a else b
  }

  /** `<=` on search values is a total order. */
  lemma LeTotalOrder(a: Score, b: Score, c: Score)
    ensures Le(a, a)
    ensures Le(a, b) || Le(b, a)
    ensures Le(a, b) && Le(b, a) ==> a == b
    ensures Le(a, b) && Le(b, c) ==> Le(a, c)
  {
  }

  /** The colour that moves at a node: black maximises, white minimises. */
  function Side(maximizing: bool): Color
  {
    if maximizing then Black else White
  }

  /** The origin test of the loops: the cell is not empty and reads as `side`. */
  predicate Owns(b: Board, side: Color, r: int, c: int)
    requires OnBoard(r, c)
  {
    b[r][c].Some? && ColorOf(b[r][c]) == side
  }

  /** A move the search simulates: a `side` piece that `isValidMove` lets go to (tr, tc), whatever stands there. */
  predicate SearchMove(b: Board, lm: Option<LastMove>, side: Color, r: int, c: int, tr: int, tc: int)
    requires OnBoard(r, c) && OnBoard(tr, tc)
  {
    Owns(b, side, r, c) && ValidMove(b, lm, b[r][c].value, r, c, tr, tc)
  }

  /** Lexicographic order on (origin row, origin column, target row, target column): the loops' order. */
  predicate Earlier(r: int, c: int, tr: int, tc: int, r': int, c': int, tr': int, tc': int)
  {
    r < r' || (r == r' && (c < c' || (c == c' && (tr < tr' || (tr == tr' && tc < tc')))))
  }

  /**
   * minimax(depth, maximizing, alpha, beta) on board `b`, with the last move
   * `lm` and the checkmate flag `mate` that stay fixed during the search.
   */
  ghost function AlphaBeta(b: Board, lm: Option<LastMove>, mate: bool, depth: nat, maximizing: bool,
                           alpha: Score, beta: Score): Score
    decreases depth, 1, 0, 0, 0, 0
  {
    if depth == 0 || mate then Fin(Evaluate(b))
    else Scan(b, lm, mate, depth, maximizing, 0, 0, 0, 0, if maximizing then NegInf else PosInf, alpha, beta)
  }

  /**
   * The rest of a node's loops from position (r, c, tr, tc), with the running
   * best value and window. A column or row index of 8 stands for the end of
   * that loop.
   */
  ghost function Scan(b: Board, lm: Option<LastMove>, mate: bool, depth: nat, maximizing: bool,
                      r: int, c: int, tr: int, tc: int, best: Score, alpha: Score, beta: Score): Score
    requires depth > 0
    requires 0 <= r <= 8 && 0 <= c <= 8 && 0 <= tr <= 8 && 0 <= tc <= 8
    decreases depth, 0, 8 - r, 8 - c, 8 - tr, 8 - tc
  {
    if r == 8 then best
    else if c == 8 then Scan(b, lm, mate, depth, maximizing, r + 1, 0, 0, 0, best, alpha, beta)
    else if tr == 8 then Scan(b, lm, mate, depth, maximizing, r, c + 1, 0, 0, best, alpha, beta)
    else if tc == 8 then Scan(b, lm, mate, depth, maximizing, r, c, tr + 1, 0, best, alpha, beta)
    else if tr == 0 && tc == 0 && !Owns(b, Side(maximizing), r, c) then
      Scan(b, lm, mate, depth, maximizing, r, c + 1, 0, 0, best, alpha, beta)
    else if !SearchMove(b, lm, Side(maximizing), r, c, tr, tc) then
      Scan(b, lm, mate, depth, maximizing, r, c, tr, tc + 1, best, alpha, beta)
    else
      var e := AlphaBeta(Simulate(b, r, c, tr, tc), lm, mate, depth - 1, !maximizing, alpha, beta);
      var best' := if maximizing then Max(best, e) else Min(best, e);
      var alpha' := if maximizing then Max(alpha, best') else alpha;
      var beta' := if maximizing then beta else Min(beta, best');
      if Le(beta', alpha') then best'
      else Scan(b, lm, mate, depth, maximizing, r, c, tr, tc + 1, best', alpha', beta')
  }

  /** One step of a node's loops at a target, unless it is the first target of an origin the side to move does not own. */
  lemma ScanAt(b: Board, lm: Option<LastMove>, mate: bool, depth: nat, maximizing: bool,
               r: int, c: int, tr: int, tc: int, best: Score, alpha: Score, beta: Score)
    requires depth > 0 && OnBoard(r, c) && OnBoard(tr, tc) && !(tr == 0 && tc == 0 && !Owns(b, Side(maximizing), r, c))
    ensures !SearchMove(b, lm, Side(maximizing), r, c, tr, tc)
            ==> Scan(b, lm, mate, depth, maximizing, r, c, tr, tc, best, alpha, beta)
                == Scan(b, lm, mate, depth, maximizing, r, c, tr, tc + 1, best, alpha, beta)
    ensures SearchMove(b, lm, Side(maximizing), r, c, tr, tc)
            ==> var e := AlphaBeta(Simulate(b, r, c, tr, tc), lm, mate, depth - 1, !maximizing, alpha, beta);
                var best' := if maximizing then Max(best, e) else Min(best, e);
                var alpha' := if maximizing then Max(alpha, best') else alpha;
                var beta' := if maximizing then beta else Min(beta, best');
                Scan(b, lm, mate, depth, maximizing, r, c, tr, tc, best, alpha, beta)
                == if Le(beta', alpha') then best' else Scan(b, lm, mate, depth, maximizing, r, c, tr, tc + 1, best', alpha', beta')
  {
  }

  /** `side` has no move the search would simulate. */
  ghost predicate NoSearchMove(b: Board, lm: Option<LastMove>, side: Color)
  {
    forall r, c, tr, tc :: OnBoard(r, c) && OnBoard(tr, tc) ==> !SearchMove(b, lm, side, r, c, tr, tc)
  }

  /** Without a move to simulate, one step of a node's loops changes neither the best value nor the window. */
  lemma ScanPass(b: Board, lm: Option<LastMove>, mate: bool, depth: nat, maximizing: bool,
                 r: int, c: int, tr: int, tc: int, best: Score, alpha: Score, beta: Score)
    returns (r': int, c': int, tr': int, tc': int)
    requires depth > 0 && 0 <= r < 8 && 0 <= c <= 8 && 0 <= tr <= 8 && 0 <= tc <= 8
    requires NoSearchMove(b, lm, Side(maximizing))
    ensures 0 <= r' <= 8 && 0 <= c' <= 8 && 0 <= tr' <= 8 && 0 <= tc' <= 8
    ensures r' > r || (r' == r && (c' > c || (c' == c && (tr' > tr || (tr' == tr && tc' > tc)))))
    ensures Scan(b, lm, mate, depth, maximizing, r, c, tr, tc, best, alpha, beta)
            == Scan(b, lm, mate, depth, maximizing, r', c', tr', tc', best, alpha, beta)
  {
    if c == 8 {
      r', c', tr', tc' := r + 1, 0, 0, 0;
    } else if tr == 8 {
      r', c', tr', tc' := r, c + 1, 0, 0;
    } else if tc == 8 {
      r', c', tr', tc' := r, c, tr + 1, 0;
    } else if tr == 0 && tc == 0 && !Owns(b, Side(maximizing), r, c) {
      r', c', tr', tc' := r, c + 1, 0, 0;
    } else {
      ScanAt(b, lm, mate, depth, maximizing, r, c, tr, tc, best, alpha, beta);
      assert !SearchMove(b, lm, Side(maximizing), r, c, tr, tc);
      r', c', tr', tc' := r, c, tr, tc + 1;
    }
  }

  /** Without a move to simulate, a node's loops return the best value they started with. */
  lemma {:induction false} ScanNoMoves(b: Board, lm: Option<LastMove>, mate: bool, depth: nat, maximizing: bool,
                                       r: int, c: int, tr: int, tc: int, best: Score, alpha: Score, beta: Score)
    requires depth > 0 && 0 <= r <= 8 && 0 <= c <= 8 && 0 <= tr <= 8 && 0 <= tc <= 8
    requires NoSearchMove(b, lm, Side(maximizing))
    ensures Scan(b, lm, mate, depth, maximizing, r, c, tr, tc, best, alpha, beta) == best
    decreases 8 - r, 8 - c, 8 - tr, 8 - tc
  {
    if r < 8 {
      var r', c', tr', tc' := ScanPass(b, lm, mate, depth, maximizing, r, c, tr, tc, best, alpha, beta);
      ScanNoMoves(b, lm, mate, depth, maximizing, r', c', tr', tc', best, alpha, beta);
    }
  }

  /**
   * minimax scores a position in which the side to move has no move as
   * -Infinity for the maximizing side and Infinity for the minimizing one,
   * whatever the window, unless the depth is spent or the game is over.
   */
  lemma AlphaBetaNoMoves(b: Board, lm: Option<LastMove>, mate: bool, depth: nat, maximizing: bool, alpha: Score, beta: Score)
    requires depth > 0 && !mate && NoSearchMove(b, lm, Side(maximizing))
    ensures AlphaBeta(b, lm, mate, depth, maximizing, alpha, beta) == if maximizing then NegInf else PosInf
  {
    ScanNoMoves(b, lm, mate, depth, maximizing, 0, 0, 0, 0, if maximizing then NegInf else PosInf, alpha, beta);
  }

  /** A move of aiMove's outer loops. */
  datatype Move = Move(fromRow: int, fromCol: int, toRow: int, toCol: int)

  /** A root candidate of aiMove: a black piece that may go to an empty square or onto a white piece. */
  predicate RootMove(b: Board, lm: Option<LastMove>, r: int, c: int, tr: int, tc: int)
  {
    OnBoard(r, c) && OnBoard(tr, tc) && SearchMove(b, lm, Black, r, c, tr, tc)
    && (b[tr][tc].None? || ColorOf(b[tr][tc]) == White)
  }

  /** The value aiMove gives a root candidate: minimax(2, false, -Infinity, Infinity) after simulating it. */
  ghost function RootValue(b: Board, lm: Option<LastMove>, mate: bool, r: int, c: int, tr: int, tc: int): Score
    requires OnBoard(r, c) && OnBoard(tr, tc)
  {
    AlphaBeta(Simulate(b, r, c, tr, tc), lm, mate, 2, false, NegInf, PosInf)
  }

  /**
   * The rest of a first-best scan over the positions of four nested 8-step
   * loops, from position (r, c, tr, tc): origins that `owned` refuses are
   * skipped whole, and a `cand` position replaces the best so far only when
   * its `worth` is strictly greater. A column or row index of 8 stands for the
   * end of that loop.
   */
  ghost function BestScan(owned: (int, int) -> bool, cand: (int, int, int, int) -> bool, worth: (int, int, int, int) -> Score,
                          r: int, c: int, tr: int, tc: int, best: Option<Move>, bestValue: Score): Option<Move>
    requires 0 <= r <= 8 && 0 <= c <= 8 && 0 <= tr <= 8 && 0 <= tc <= 8
    decreases 8 - r, 8 - c, 8 - tr, 8 - tc
  {
    if r == 8 then best
    else if c == 8 then BestScan(owned, cand, worth, r + 1, 0, 0, 0, best, bestValue)
    else if tr == 8 then BestScan(owned, cand, worth, r, c + 1, 0, 0, best, bestValue)
    else if tc == 8 then BestScan(owned, cand, worth, r, c, tr + 1, 0, best, bestValue)
    else if tr == 0 && tc == 0 && !owned(r, c) then BestScan(owned, cand, worth, r, c + 1, 0, 0, best, bestValue)
    else if !cand(r, c, tr, tc) then BestScan(owned, cand, worth, r, c, tr, tc + 1, best, bestValue)
    else if !Le(worth(r, c, tr, tc), bestValue) then
      BestScan(owned, cand, worth, r, c, tr, tc + 1, Some(Move(r, c, tr, tc)), worth(r, c, tr, tc))
    else BestScan(owned, cand, worth, r, c, tr, tc + 1, best, bestValue)
  }

  /** The origins of aiMove's loops: squares holding a piece that reads as black. */
  function RootOwned(b: Board): (int, int) -> bool
  {
    (r, c) => OnBoard(r, c) && Owns(b, Black, r, c)
  }

  /** The candidates of aiMove's loops. */
  function RootCandidate(b: Board, lm: Option<LastMove>): (int, int, int, int) -> bool
  {
    (r, c, tr, tc) => RootMove(b, lm, r, c, tr, tc)
  }

  /** The values of aiMove's candidates. */
  ghost function RootWorth(b: Board, lm: Option<LastMove>, mate: bool): (int, int, int, int) -> Score
  {
    (r, c, tr, tc) => if OnBoard(r, c) && OnBoard(tr, tc) then RootValue(b, lm, mate, r, c, tr, tc) else NegInf
  }

  /** The move aiMove plays, if any. */
  ghost function AiChoice(b: Board, lm: Option<LastMove>, mate: bool): Option<Move>
  {
    BestScan(RootOwned(b), RootCandidate(b, lm), RootWorth(b, lm, mate), 0, 0, 0, 0, None, NegInf)
  }

  /**
   * The number of loop steps before position (r, c, tr, tc) of a four-deep
   * 8x8x8x8 scan; an index of 8 in a normalised position is the carry into
   * the next outer step, so it names the same step as the position it
   * carries to.
   */
  function Index(r: int, c: int, tr: int, tc: int): int
  {
    ((r * 8 + c) * 8 + tr) * 8 + tc
  }

  /** For positions on the board, the loops' order is the order of the indices. */
  lemma EarlierIndex(r: int, c: int, tr: int, tc: int, r': int, c': int, tr': int, tc': int)
    requires OnBoard(r, c) && OnBoard(tr, tc) && OnBoard(r', c') && OnBoard(tr', tc')
    ensures Earlier(r, c, tr, tc, r', c', tr', tc') <==> Index(r, c, tr, tc) < Index(r', c', tr', tc')
  {
  }

  /** The only on-board position with the index of an on-board position is that position. */
  lemma IndexInjective(r: int, c: int, tr: int, tc: int, r': int, c': int, tr': int, tc': int)
    requires OnBoard(r, c) && OnBoard(tr, tc) && OnBoard(r', c') && OnBoard(tr', tc')
    requires Index(r, c, tr, tc) == Index(r', c', tr', tc')
    ensures r == r' && c == c' && tr == tr' && tc == tc'
  {
  }

  /** The positions from (r, c, 0, 0) up to (r, c + 1, 0, 0) all have origin (r, c). */
  lemma IndexOrigin(r: int, c: int, r': int, c': int, tr': int, tc': int)
    requires OnBoard(r, c) && OnBoard(r', c') && OnBoard(tr', tc')
    requires Index(r, c, 0, 0) <= Index(r', c', tr', tc') < Index(r, c, 0, 0) + 64
    ensures r' == r && c' == c
  {
  }

  /** Every candidate is a position on the board with an accepted origin. */
  ghost predicate CandidatesOwned(owned: (int, int) -> bool, cand: (int, int, int, int) -> bool)
  {
    forall r, c, tr, tc :: cand(r, c, tr, tc) ==> OnBoard(r, c) && OnBoard(tr, tc) && owned(r, c)
  }

  /**
   * `m` is the first candidate of greatest worth, and that worth is above
   * -Infinity; no `m` means every candidate is worth -Infinity.
   */
  ghost predicate IsFirstBest(cand: (int, int, int, int) -> bool, worth: (int, int, int, int) -> Score, m: Option<Move>)
  {
    match m
    case Some(mv) =>
      && cand(mv.fromRow, mv.fromCol, mv.toRow, mv.toCol)
      && worth(mv.fromRow, mv.fromCol, mv.toRow, mv.toCol) != NegInf
      && (forall r, c, tr, tc :: cand(r, c, tr, tc) ==> Le(worth(r, c, tr, tc), worth(mv.fromRow, mv.fromCol, mv.toRow, mv.toCol)))
      && (forall r, c, tr, tc :: cand(r, c, tr, tc) && Earlier(r, c, tr, tc, mv.fromRow, mv.fromCol, mv.toRow, mv.toCol)
                                 ==> !Le(worth(mv.fromRow, mv.fromCol, mv.toRow, mv.toCol), worth(r, c, tr, tc)))
    case None =>
      forall r, c, tr, tc :: cand(r, c, tr, tc) ==> worth(r, c, tr, tc) == NegInf
  }

  /** The state of a first-best scan before step `k`: `IsFirstBest` over the candidates already visited. */
  ghost predicate BestSoFar(cand: (int, int, int, int) -> bool, worth: (int, int, int, int) -> Score, k: int,
                            best: Option<Move>, bestValue: Score)
  {
    match best
    case None =>
      && bestValue == NegInf
      && (forall r, c, tr, tc :: cand(r, c, tr, tc) && Index(r, c, tr, tc) < k ==> worth(r, c, tr, tc) == NegInf)
    case Some(mv) =>
      && cand(mv.fromRow, mv.fromCol, mv.toRow, mv.toCol)
      && Index(mv.fromRow, mv.fromCol, mv.toRow, mv.toCol) < k
      && worth(mv.fromRow, mv.fromCol, mv.toRow, mv.toCol) == bestValue && bestValue != NegInf
      && (forall r, c, tr, tc :: cand(r, c, tr, tc) && Index(r, c, tr, tc) < k ==> Le(worth(r, c, tr, tc), bestValue))
      && (forall r, c, tr, tc :: cand(r, c, tr, tc) && Index(r, c, tr, tc) < Index(mv.fromRow, mv.fromCol, mv.toRow, mv.toCol)
                                 ==> !Le(bestValue, worth(r, c, tr, tc)))
  }

  /** After the last step, the best so far is the first best candidate. */
  lemma BestSoFarFinal(owned: (int, int) -> bool, cand: (int, int, int, int) -> bool, worth: (int, int, int, int) -> Score,
                       k: int, best: Option<Move>, bestValue: Score)
    requires CandidatesOwned(owned, cand) && k >= Index(8, 0, 0, 0)
    requires BestSoFar(cand, worth, k, best, bestValue)
    ensures IsFirstBest(cand, worth, best)
  {
    if best.Some? {
      var mv := best.value;
      forall r, c, tr, tc | cand(r, c, tr, tc) && Earlier(r, c, tr, tc, mv.fromRow, mv.fromCol, mv.toRow, mv.toCol)
        ensures !Le(worth(mv.fromRow, mv.fromCol, mv.toRow, mv.toCol), worth(r, c, tr, tc))
      {
        EarlierIndex(r, c, tr, tc, mv.fromRow, mv.fromCol, mv.toRow, mv.toCol);
      }
    }
  }

  /** Skipping the targets of a refused origin keeps the state. */
  lemma BestSoFarSkip(owned: (int, int) -> bool, cand: (int, int, int, int) -> bool, worth: (int, int, int, int) -> Score,
                      r: int, c: int, best: Option<Move>, bestValue: Score)
    requires CandidatesOwned(owned, cand) && OnBoard(r, c) && !owned(r, c)
    requires BestSoFar(cand, worth, Index(r, c, 0, 0), best, bestValue)
    ensures BestSoFar(cand, worth, Index(r, c, 0, 0) + 64, best, bestValue)
  {
    forall r', c', tr', tc' | cand(r', c', tr', tc')
      ensures Index(r', c', tr', tc') < Index(r, c, 0, 0) + 64 ==> Index(r', c', tr', tc') < Index(r, c, 0, 0)
    {
      if Index(r, c, 0, 0) <= Index(r', c', tr', tc') < Index(r, c, 0, 0) + 64 {
        IndexOrigin(r, c, r', c', tr', tc');
      }
    }
  }

  /** Passing a position that is not a candidate keeps the state. */
  lemma BestSoFarPass(owned: (int, int) -> bool, cand: (int, int, int, int) -> bool, worth: (int, int, int, int) -> Score,
                      r: int, c: int, tr: int, tc: int, best: Option<Move>, bestValue: Score)
    requires CandidatesOwned(owned, cand) && OnBoard(r, c) && OnBoard(tr, tc) && !cand(r, c, tr, tc)
    requires BestSoFar(cand, worth, Index(r, c, tr, tc), best, bestValue)
    ensures BestSoFar(cand, worth, Index(r, c, tr, tc) + 1, best, bestValue)
  {
    forall r', c', tr', tc' | cand(r', c', tr', tc') && Index(r', c', tr', tc') == Index(r, c, tr, tc)
      ensures false
    {
      IndexInjective(r, c, tr, tc, r', c', tr', tc');
    }
  }

  /** Visiting a candidate strictly better than the best so far makes it the best. */
  lemma BestSoFarBetter(owned: (int, int) -> bool, cand: (int, int, int, int) -> bool, worth: (int, int, int, int) -> Score,
                        r: int, c: int, tr: int, tc: int, best: Option<Move>, bestValue: Score)
    requires CandidatesOwned(owned, cand) && cand(r, c, tr, tc)
    requires BestSoFar(cand, worth, Index(r, c, tr, tc), best, bestValue)
    requires !Le(worth(r, c, tr, tc), bestValue)
    ensures BestSoFar(cand, worth, Index(r, c, tr, tc) + 1, Some(Move(r, c, tr, tc)), worth(r, c, tr, tc))
  {
    var e := worth(r, c, tr, tc);
    var k := Index(r, c, tr, tc);
    LeTotalOrder(bestValue, e, e);
    forall r', c', tr', tc' | cand(r', c', tr', tc') && Index(r', c', tr', tc') < k + 1
      ensures Le(worth(r', c', tr', tc'), e)
    {
      if Index(r', c', tr', tc') == k {
        IndexInjective(r, c, tr, tc, r', c', tr', tc');
      } else {
        LeTotalOrder(worth(r', c', tr', tc'), bestValue, e);
      }
    }
    forall r', c', tr', tc' | cand(r', c', tr', tc') && Index(r', c', tr', tc') < k
      ensures !Le(e, worth(r', c', tr', tc'))
    {
      LeTotalOrder(e, worth(r', c', tr', tc'), bestValue);
    }
  }

  /** Visiting a candidate no better than the best so far keeps the state. */
  lemma BestSoFarNotBetter(owned: (int, int) -> bool, cand: (int, int, int, int) -> bool, worth: (int, int, int, int) -> Score,
                           r: int, c: int, tr: int, tc: int, best: Option<Move>, bestValue: Score)
    requires CandidatesOwned(owned, cand) && cand(r, c, tr, tc)
    requires BestSoFar(cand, worth, Index(r, c, tr, tc), best, bestValue)
    requires Le(worth(r, c, tr, tc), bestValue)
    ensures BestSoFar(cand, worth, Index(r, c, tr, tc) + 1, best, bestValue)
  {
    forall r', c', tr', tc' | cand(r', c', tr', tc') && Index(r', c', tr', tc') == Index(r, c, tr, tc)
      ensures worth(r', c', tr', tc') == worth(r, c, tr, tc)
    {
      IndexInjective(r, c, tr, tc, r', c', tr', tc');
    }
  }

  /**
   * One step of a first-best scan from a position before the end: the scan
   * goes on from the next position with the same result, and the step keeps
   * `BestSoFar`.
   */
  lemma BestScanStep(owned: (int, int) -> bool, cand: (int, int, int, int) -> bool, worth: (int, int, int, int) -> Score,
                     r: int, c: int, tr: int, tc: int, best: Option<Move>, bestValue: Score)
    returns (r': int, c': int, tr': int, tc': int, best': Option<Move>, bestValue': Score)
    requires 0 <= r < 8 && 0 <= c <= 8 && 0 <= tr <= 8 && 0 <= tc <= 8
    requires (c == 8 ==> tr == 0 && tc == 0) && (tr == 8 ==> tc == 0)
    requires CandidatesOwned(owned, cand)
    requires BestSoFar(cand, worth, Index(r, c, tr, tc), best, bestValue)
    ensures 0 <= r' <= 8 && 0 <= c' <= 8 && 0 <= tr' <= 8 && 0 <= tc' <= 8
    ensures (c' == 8 ==> tr' == 0 && tc' == 0) && (tr' == 8 ==> tc' == 0)
    ensures r' > r || (r' == r && (c' > c || (c' == c && (tr' > tr || (tr' == tr && tc' > tc)))))
    ensures BestSoFar(cand, worth, Index(r', c', tr', tc'), best', bestValue')
    ensures BestScan(owned, cand, worth, r, c, tr, tc, best, bestValue) == BestScan(owned, cand, worth, r', c', tr', tc', best', bestValue')
  {
    r', c', tr', tc', best', bestValue' := r, c, tr, tc + 1, best, bestValue;
    if c == 8 || tr == 8 || tc == 8 {
      r', c', tr', tc' := if c == 8 then r + 1 else r, if c == 8 then 0 else if tr == 8 then c + 1 else c,
                          if c == 8 || tr == 8 then 0 else tr + 1, 0;
      assert Index(r', c', tr', tc') == Index(r, c, tr, tc);
    } else {
      r', c', tr', tc', best', bestValue' := BestVisitStep(owned, cand, worth, r, c, tr, tc, best, bestValue);
    }
  }

  /** The step of `BestScanStep` at a position inside all four loops. */
  lemma BestVisitStep(owned: (int, int) -> bool, cand: (int, int, int, int) -> bool, worth: (int, int, int, int) -> Score,
                      r: int, c: int, tr: int, tc: int, best: Option<Move>, bestValue: Score)
    returns (r': int, c': int, tr': int, tc': int, best': Option<Move>, bestValue': Score)
    requires OnBoard(r, c) && OnBoard(tr, tc)
    requires CandidatesOwned(owned, cand)
    requires BestSoFar(cand, worth, Index(r, c, tr, tc), best, bestValue)
    ensures r' == r && ((c' == c + 1 && tr' == 0 && tc' == 0) || (c' == c && tr' == tr && tc' == tc + 1))
    ensures BestSoFar(cand, worth, Index(r', c', tr', tc'), best', bestValue')
    ensures BestScan(owned, cand, worth, r, c, tr, tc, best, bestValue) == BestScan(owned, cand, worth, r', c', tr', tc', best', bestValue')
  {
    r', c', tr', tc', best', bestValue' := r, c, tr, tc + 1, best, bestValue;
    if tr == 0 && tc == 0 && !owned(r, c) {
      BestSoFarSkip(owned, cand, worth, r, c, best, bestValue);
      c', tc' := c + 1, 0;
      assert Index(r', c', tr', tc') == Index(r, c, 0, 0) + 64;
      return;
    }
    assert Index(r', c', tr', tc') == Index(r, c, tr, tc) + 1;
    best', bestValue' := BestTargetStep(owned, cand, worth, r, c, tr, tc, best, bestValue);
  }

  /** The step of `BestVisitStep` at a target of an accepted origin. */
  lemma BestTargetStep(owned: (int, int) -> bool, cand: (int, int, int, int) -> bool, worth: (int, int, int, int) -> Score,
                       r: int, c: int, tr: int, tc: int, best: Option<Move>, bestValue: Score)
    returns (best': Option<Move>, bestValue': Score)
    requires OnBoard(r, c) && OnBoard(tr, tc) && !(tr == 0 && tc == 0 && !owned(r, c))
    requires CandidatesOwned(owned, cand)
    requires BestSoFar(cand, worth, Index(r, c, tr, tc), best, bestValue)
    ensures BestSoFar(cand, worth, Index(r, c, tr, tc) + 1, best', bestValue')
    ensures BestScan(owned, cand, worth, r, c, tr, tc, best, bestValue) == BestScan(owned, cand, worth, r, c, tr, tc + 1, best', bestValue')
  {
    best', bestValue' := best, bestValue;
    if !cand(r, c, tr, tc) {
      BestSoFarPass(owned, cand, worth, r, c, tr, tc, best, bestValue);
    } else if !Le(worth(r, c, tr, tc), bestValue) {
      BestSoFarBetter(owned, cand, worth, r, c, tr, tc, best, bestValue);
      best', bestValue' := Some(Move(r, c, tr, tc)), worth(r, c, tr, tc);
    } else {
      BestSoFarNotBetter(owned, cand, worth, r, c, tr, tc, best, bestValue);
    }
  }

  /** A first-best scan keeps `BestSoFar`, so it ends with the first best candidate. */
  lemma {:induction false} BestScanFirstBest(owned: (int, int) -> bool, cand: (int, int, int, int) -> bool,
                                             worth: (int, int, int, int) -> Score,
                                             r: int, c: int, tr: int, tc: int, best: Option<Move>, bestValue: Score)
    requires 0 <= r <= 8 && 0 <= c <= 8 && 0 <= tr <= 8 && 0 <= tc <= 8
    requires (c == 8 ==> tr == 0 && tc == 0) && (tr == 8 ==> tc == 0)
    requires CandidatesOwned(owned, cand)
    requires BestSoFar(cand, worth, Index(r, c, tr, tc), best, bestValue)
    ensures IsFirstBest(cand, worth, BestScan(owned, cand, worth, r, c, tr, tc, best, bestValue))
    decreases 8 - r, 8 - c, 8 - tr, 8 - tc
  {
    if r == 8 {
      BestSoFarFinal(owned, cand, worth, Index(r, c, tr, tc), best, bestValue);
    } else {
      var r', c', tr', tc', best', bestValue' := BestScanStep(owned, cand, worth, r, c, tr, tc, best, bestValue);
      BestScanFirstBest(owned, cand, worth, r', c', tr', tc', best', bestValue');
    }
  }

  /** One step of a first-best scan at a target of an accepted origin. */
  lemma BestScanAt(owned: (int, int) -> bool, cand: (int, int, int, int) -> bool, worth: (int, int, int, int) -> Score,
                   r: int, c: int, tr: int, tc: int, best: Option<Move>, bestValue: Score)
    requires OnBoard(r, c) && OnBoard(tr, tc) && owned(r, c)
    ensures BestScan(owned, cand, worth, r, c, tr, tc, best, bestValue)
            == if cand(r, c, tr, tc) && !Le(worth(r, c, tr, tc), bestValue)
               then BestScan(owned, cand, worth, r, c, tr, tc + 1, Some(Move(r, c, tr, tc)), worth(r, c, tr, tc))
               else BestScan(owned, cand, worth, r, c, tr, tc + 1, best, bestValue)
  {
  }

  /** Every root candidate is a move of a black piece between squares of the board. */
  lemma RootCandidatesOwned(b: Board, lm: Option<LastMove>)
    ensures CandidatesOwned(RootOwned(b), RootCandidate(b, lm))
  {
  }

  /**
   * aiMove plays a root candidate of value above -Infinity that no candidate
   * beats and that every earlier candidate falls strictly short of; it plays
   * nothing only when every candidate is worth -Infinity, in particular when
   * there is none.
   */
  lemma AiChoiceFirstBest(b: Board, lm: Option<LastMove>, mate: bool)
    ensures match AiChoice(b, lm, mate)
            case Some(m) =>
              && RootMove(b, lm, m.fromRow, m.fromCol, m.toRow, m.toCol)
              && RootValue(b, lm, mate, m.fromRow, m.fromCol, m.toRow, m.toCol) != NegInf
              && (forall r, c, tr, tc :: RootMove(b, lm, r, c, tr, tc)
                    ==> Le(RootValue(b, lm, mate, r, c, tr, tc), RootValue(b, lm, mate, m.fromRow, m.fromCol, m.toRow, m.toCol)))
              && (forall r, c, tr, tc :: RootMove(b, lm, r, c, tr, tc) && Earlier(r, c, tr, tc, m.fromRow, m.fromCol, m.toRow, m.toCol)
                    ==> !Le(RootValue(b, lm, mate, m.fromRow, m.fromCol, m.toRow, m.toCol), RootValue(b, lm, mate, r, c, tr, tc)))
            case None =>
              forall r, c, tr, tc :: RootMove(b, lm, r, c, tr, tc) ==> RootValue(b, lm, mate, r, c, tr, tc) == NegInf
  {
    var owned, cand, worth := RootOwned(b), RootCandidate(b, lm), RootWorth(b, lm, mate);
    RootCandidatesOwned(b, lm);
    BestScanFirstBest(owned, cand, worth, 0, 0, 0, 0, None, NegInf);
    var m := AiChoice(b, lm, mate);
    assert IsFirstBest(cand, worth, m);
    if m.Some? {
      var mv := m.value;
      forall r, c, tr, tc | RootMove(b, lm, r, c, tr, tc)
        ensures Le(RootValue(b, lm, mate, r, c, tr, tc), RootValue(b, lm, mate, mv.fromRow, mv.fromCol, mv.toRow, mv.toCol))
      {
        assert cand(r, c, tr, tc);
      }
      forall r, c, tr, tc | RootMove(b, lm, r, c, tr, tc) && Earlier(r, c, tr, tc, mv.fromRow, mv.fromCol, mv.toRow, mv.toCol)
        ensures !Le(RootValue(b, lm, mate, mv.fromRow, mv.fromCol, mv.toRow, mv.toCol), RootValue(b, lm, mate, r, c, tr, tc))
      {
        assert cand(r, c, tr, tc);
      }
    } else {
      forall r, c, tr, tc | RootMove(b, lm, r, c, tr, tc)
        ensures RootValue(b, lm, mate, r, c, tr, tc) == NegInf
      {
        assert cand(r, c, tr, tc);
      }
    }
  }
}
