/**
 The AI's move search on boards: minimax with alpha-beta pruning, where the
 maximising levels play the AI's discs and the minimising levels its
 opponent's, every leaf is scored by the static evaluator from the AI's
 side, and a node is a leaf when the depth is used up or the side to move
 has no legal move.

 The search is the tree search of module Search run on the game tree that
 the rules span from a board. Next to it stands a reference written
 directly on boards, minimax without pruning, and the search is proved to
 agree with it.
 */
module Engine {
  import opened ReversiBoard
  import opened Rules
  import opened Moves
  import opened Evaluator
  import opened Search

  /** The side whose move is searched at a level. */
  function Side(ai: AI, maximizing: bool): int {
    if maximizing then ai.player else ai.opponent
  }

  /** The board after the side to move plays its k-th legal move. */
  function ChildBoard(ai: AI, b: Board, maximizing: bool, k: int): Board
    requires 0 <= k < |ValidMoves(b, Side(ai, maximizing))|
  {
    var m := ValidMoves(b, Side(ai, maximizing))[k];
    assert m in ValidMoves(b, Side(ai, maximizing));
    MakeMove(b, m.x, m.y, Side(ai, maximizing))
  }

  /** The game tree to the given depth: every node carries its board's
      static score, and, while depth remains, one branch per legal move of
      the side to move, in generation order. Every score in it lies in the
      evaluator's range. */
  function GameTree(ai: AI, b: Board, depth: nat, maximizing: bool): (t: Tree)
    ensures EvalsWithin(t, -MaxScore, MaxScore)
    decreases depth
  {
    EvaluateBounded(ai, b);
    var moves := ValidMoves(b, Side(ai, maximizing));
    var branches :=
      if depth == 0 then []
      else
        seq(|moves|, k requires 0 <= k < |moves| =>
          Branch(moves[k], GameTree(ai, ChildBoard(ai, b, maximizing, k), depth - 1, !maximizing)));
    Tree(Evaluate(ai, b), branches)
  }

  /** The branches of the game tree are the legal moves of the side to
      move, in generation order, unless the depth is used up. */
  lemma GameTreeMoves(ai: AI, b: Board, depth: nat, maximizing: bool)
    ensures var t := GameTree(ai, b, depth, maximizing);
      var moves := ValidMoves(b, Side(ai, maximizing));
      && t.eval == Evaluate(ai, b)
      && |t.branches| == (if depth == 0 then 0 else |moves|)
      && (forall k :: 0 <= k < |t.branches| ==> t.branches[k].move == moves[k])
      && (forall m :: IsMoveOf(m, t) <==> depth > 0 && m in moves)
  {
    var t := GameTree(ai, b, depth, maximizing);
    var moves := ValidMoves(b, Side(ai, maximizing));
    forall m | depth > 0 && m in moves
      ensures IsMoveOf(m, t)
    {
      var k :| 0 <= k < |moves| && moves[k] == m;
      assert t.branches[k].move == m;
    }
  }

  /** The k-th branch of the game tree plays the k-th legal move into the
      game tree of the resulting board, one level shallower. */
  lemma GameTreeBranch(ai: AI, b: Board, depth: nat, maximizing: bool, k: int)
    requires depth > 0 && 0 <= k < |ValidMoves(b, Side(ai, maximizing))|
    ensures |GameTree(ai, b, depth, maximizing).branches| == |ValidMoves(b, Side(ai, maximizing))|
    ensures GameTree(ai, b, depth, maximizing).branches[k] ==
      Branch(ValidMoves(b, Side(ai, maximizing))[k],
             GameTree(ai, ChildBoard(ai, b, maximizing, k), depth - 1, !maximizing))
  {
  }

  /** Minimax with alpha-beta pruning from board b: a leaf gives the static
      score and no move; otherwise one of the legal moves of the side to
      move comes back with a finite score. */
  function Minimax(ai: AI, b: Board, depth: nat, maximizing: bool, alpha: Score, beta: Score): (r: SearchResult)
    ensures r.score.Fin?
    ensures r.move.None? <==> depth == 0 || |ValidMoves(b, Side(ai, maximizing))| == 0
    ensures r.move.None? ==> r.score == Fin(Evaluate(ai, b))
    ensures r.move.Some? ==> r.move.value in ValidMoves(b, Side(ai, maximizing))
  {
    GameTreeMoves(ai, b, depth, maximizing);
    AlphaBeta(GameTree(ai, b, depth, maximizing), maximizing, alpha, beta)
  }

  /** The move the AI plays: the root search with the full window, for its
      own side and its own depth (None when it has no move or no depth). */
  function ChooseMove(ai: AI, b: Board): (m: Option<Pos>)
    ensures m.None? <==> ai.depth == 0 || |ValidMoves(b, ai.player)| == 0
    ensures m.Some? ==> m.value in ValidMoves(b, ai.player)
  {
    Minimax(ai, b, ai.depth, true, NegInf, PosInf).move
  }

  // ---------------------------------------------------------------------
  // The reference: minimax without pruning, on boards.
  // ---------------------------------------------------------------------

  /** The minimax value of a board. */
  function MinimaxValue(ai: AI, b: Board, depth: nat, maximizing: bool): int
    decreases depth, 1
  {
    var moves := ValidMoves(b, Side(ai, maximizing));
    if depth == 0 || |moves| == 0 then Evaluate(ai, b)
    else
      var vals := MoveValues(ai, b, depth, maximizing);
      if maximizing then MaxOf(vals) else MinOf(vals)
  }

  /** The values of the legal moves, in generation order. */
  function MoveValues(ai: AI, b: Board, depth: nat, maximizing: bool): (vals: seq<int>)
    requires depth > 0
    ensures |vals| == |ValidMoves(b, Side(ai, maximizing))|
    decreases depth, 0
  {
    var n := |ValidMoves(b, Side(ai, maximizing))|;
    seq(n, k requires 0 <= k < n => MinimaxValue(ai, ChildBoard(ai, b, maximizing, k), depth - 1, !maximizing))
  }

  /** The first legal move, in generation order, whose value is the board's
      minimax value (None at a leaf). */
  function FirstBest(ai: AI, b: Board, depth: nat, maximizing: bool): Option<Pos> {
    var moves := ValidMoves(b, Side(ai, maximizing));
    if depth == 0 || |moves| == 0 then None
    else
      var vals := MoveValues(ai, b, depth, maximizing);
      Some(moves[FirstIndex(vals, if maximizing then MaxOf(vals) else MinOf(vals))])
  }

  // ---------------------------------------------------------------------
  // Agreement.
  // ---------------------------------------------------------------------

  /** The unpruned value of the game tree is the board-level minimax value,
      and its branch values are the values of the legal moves. */
  lemma {:induction false} GameTreeValue(ai: AI, b: Board, depth: nat, maximizing: bool)
    ensures Value(GameTree(ai, b, depth, maximizing), maximizing) == MinimaxValue(ai, b, depth, maximizing)
    ensures depth > 0 ==> ChildValues(GameTree(ai, b, depth, maximizing), maximizing) == MoveValues(ai, b, depth, maximizing)
    decreases depth
  {
    var t := GameTree(ai, b, depth, maximizing);
    if depth > 0 {
      var vals := ChildValues(t, maximizing);
      var mv := MoveValues(ai, b, depth, maximizing);
      forall k | 0 <= k < |vals|
        ensures vals[k] == mv[k]
      {
        var child := ChildBoard(ai, b, maximizing, k);
        GameTreeBranch(ai, b, depth, maximizing, k);
        assert vals[k] == Value(GameTree(ai, child, depth - 1, !maximizing), !maximizing);
        GameTreeValue(ai, child, depth - 1, !maximizing);
      }
      assert vals == mv;
    }
  }

  /** Whatever the window with alpha < beta, the pruned search keeps the
      fail-soft bounds against the board's minimax value: at most alpha when
      the value is, exact strictly inside the window, at least beta when the
      value is. */
  lemma MinimaxFailSoft(ai: AI, b: Board, depth: nat, maximizing: bool, alpha: Score, beta: Score)
    requires Lt(alpha, beta)
    ensures FailSoft(Minimax(ai, b, depth, maximizing, alpha, beta).score,
                     Fin(MinimaxValue(ai, b, depth, maximizing)), alpha, beta)
  {
    AlphaBetaFailSoft(GameTree(ai, b, depth, maximizing), maximizing, alpha, beta);
    GameTreeValue(ai, b, depth, maximizing);
  }

  /** With the full window the search returns exactly the minimax value and
      the first legal move that reaches it. */
  lemma MinimaxRootExact(ai: AI, b: Board, depth: nat, maximizing: bool)
    ensures Minimax(ai, b, depth, maximizing, NegInf, PosInf) ==
      SearchResult(Fin(MinimaxValue(ai, b, depth, maximizing)), FirstBest(ai, b, depth, maximizing))
  {
    var t := GameTree(ai, b, depth, maximizing);
    AlphaBetaRootExact(t, maximizing);
    GameTreeValue(ai, b, depth, maximizing);
  }

  /** The AI plays the first legal move whose minimax value, to its depth,
      is the best it can force. */
  lemma ChooseMoveIsFirstBest(ai: AI, b: Board)
    ensures ChooseMove(ai, b) == FirstBest(ai, b, ai.depth, true)
  {
    MinimaxRootExact(ai, b, ai.depth, true);
  }

  /** The minimax value of a board never leaves the evaluator's range. */
  lemma {:induction false} MinimaxValueBounded(ai: AI, b: Board, depth: nat, maximizing: bool)
    ensures -MaxScore <= MinimaxValue(ai, b, depth, maximizing) <= MaxScore
    decreases depth, 1
  {
    if depth == 0 || |ValidMoves(b, Side(ai, maximizing))| == 0 {
      EvaluateBounded(ai, b);
    } else {
      MoveValuesBounded(ai, b, depth, maximizing);
      ExtremesWithin(MoveValues(ai, b, depth, maximizing), -MaxScore, MaxScore);
    }
  }

  lemma {:induction false} MoveValuesBounded(ai: AI, b: Board, depth: nat, maximizing: bool)
    requires depth > 0
    ensures forall k :: 0 <= k < |MoveValues(ai, b, depth, maximizing)| ==>
      -MaxScore <= MoveValues(ai, b, depth, maximizing)[k] <= MaxScore
    decreases depth, 0
  {
    var vals := MoveValues(ai, b, depth, maximizing);
    forall k | 0 <= k < |vals|
      ensures -MaxScore <= vals[k] <= MaxScore
    {
      MinimaxValueBounded(ai, ChildBoard(ai, b, maximizing, k), depth - 1, !maximizing);
    }
  }

  /** Whatever the window, the search's score stays within the evaluator's range. */
  lemma MinimaxBounded(ai: AI, b: Board, depth: nat, maximizing: bool, alpha: Score, beta: Score)
    ensures Within(Minimax(ai, b, depth, maximizing, alpha, beta).score, -MaxScore, MaxScore)
  {
    AlphaBetaWithin(GameTree(ai, b, depth, maximizing), maximizing, alpha, beta, -MaxScore, MaxScore);
  }
}
