/**
 The static evaluator: a fixed table of positional weights (corners high,
 the cells next to corners negative), scored as the weights under the AI's
 discs minus the weights under its opponent's discs.
 */
module Evaluator {
  import opened ReversiBoard

  /** The positional weight table, one row per board row. */
  const Weights: seq<seq<int>> := [
    [100, -10,  10,   5,   5,  10, -10, 100],
    [-10, -30,  -2,  -2,  -2,  -2, -30, -10],
    [ 10,  -2,  -1,  -1,  -1,  -1,  -2,  10],
    [  5,  -2,  -1,  -1,  -1,  -1,  -2,   5],
    [  5,  -2,  -1,  -1,  -1,  -1,  -2,   5],
    [ 10,  -2,  -1,  -1,  -1,  -1,  -2,  10],
    [-10, -30,  -2,  -2,  -2,  -2, -30, -10],
    [100, -10,  10,   5,   5,  10, -10, 100]
  ]

  /** The weight of the cell at a row-major index. */
  function WeightAt(i: int): int
    requires 0 <= i < 64
  {
    Weights[i / 8][i % 8]
  }

  /** The largest possible magnitude of a score: the sum of the absolute weights. */
  const MaxScore := 768

  /** The searching side, its opponent and its search depth. */
  datatype AI = AI(player: int, opponent: int, depth: nat)

  /** An AI for `player`, whose opponent is computed as the rules engine computes it. */
  function NewAI(player: int, depth: nat): (ai: AI)
    ensures ai.player == player && ai.depth == depth
    ensures ai.opponent != ai.player
    ensures IsSide(player) ==> ai.opponent == 3 - player
  {
    AI(player, Opponent(player), depth)
  }

  /** Sum of the weights of the cells, among the first n, that hold v. */
  function WeightOf(b: Board, v: int, n: int): int
    requires 0 <= n <= 64
  {
    if n == 0 then 0 else WeightOf(b, v, n - 1) + (if b[n - 1] == v then WeightAt(n - 1) else 0)
  }

  /** The AI's weight minus the opponent's weight. */
  function Evaluate(ai: AI, b: Board): int {
    WeightOf(b, ai.player, |b|) - WeightOf(b, ai.opponent, |b|)
  }

  /** No board scores beyond the sum of the absolute weights, for either side. */
  lemma EvaluateBounded(ai: AI, b: Board)
    ensures -MaxScore <= Evaluate(ai, b) <= MaxScore
  {
    if ai.player != ai.opponent {
      EvaluateIsCellSum(b, ai.player, ai.opponent, |b|);
      CellSumBounded(b, ai.player, ai.opponent, |b|);
      AbsWeightTotal();
    }
  }

  /** What one cell holding v adds to the score of `me` against `them`. */
  function Contribution(v: int, w: int, me: int, them: int): int {
    if v == me then w else if v == them then -w else 0
  }

  /** The score read cell by cell: the signed weights of the first n cells. */
  function CellSum(b: Board, me: int, them: int, n: int): int
    requires 0 <= n <= 64
  {
    if n == 0 then 0 else CellSum(b, me, them, n - 1) + Contribution(b[n - 1], WeightAt(n - 1), me, them)
  }

  /** Sum of the absolute weights of the first n cells. */
  function AbsWeight(n: int): int
    requires 0 <= n <= 64
  {
    if n == 0 then 0 else AbsWeight(n - 1) + (if WeightAt(n - 1) < 0 then -WeightAt(n - 1) else WeightAt(n - 1))
  }

  /** The difference of the two masked sums is the cell-by-cell signed sum. */
  lemma {:induction false} EvaluateIsCellSum(b: Board, me: int, them: int, n: int)
    requires 0 <= n <= 64 && me != them
    ensures WeightOf(b, me, n) - WeightOf(b, them, n) == CellSum(b, me, them, n)
  {
    if n > 0 {
      EvaluateIsCellSum(b, me, them, n - 1);
    }
  }

  lemma {:induction false} CellSumBounded(b: Board, me: int, them: int, n: int)
    requires 0 <= n <= 64
    ensures -AbsWeight(n) <= CellSum(b, me, them, n) <= AbsWeight(n)
  {
    if n > 0 {
      CellSumBounded(b, me, them, n - 1);
    }
  }

  lemma AbsWeightTotal()
    ensures AbsWeight(64) == MaxScore
  {
    AbsWeightRows7();
  }

  /** The running totals of the absolute weights, row by row. */
  lemma AbsWeightRows1()
    ensures AbsWeight(8) == 250
  {
  }

  lemma AbsWeightRows2()
    ensures AbsWeight(16) == 338
  {
    AbsWeightRows1();
  }

  lemma AbsWeightRows3()
    ensures AbsWeight(24) == 366
  {
    AbsWeightRows2();
  }

  lemma AbsWeightRows4()
    ensures AbsWeight(32) == 384
  {
    AbsWeightRows3();
  }

  lemma AbsWeightRows5()
    ensures AbsWeight(40) == 402
  {
    AbsWeightRows4();
  }

  lemma AbsWeightRows6()
    ensures AbsWeight(48) == 430
  {
    AbsWeightRows5();
  }

  lemma AbsWeightRows7()
    ensures AbsWeight(56) == 518
  {
    AbsWeightRows6();
  }

  /** Swapping the roles of the two sides negates the score. */
  lemma EvaluateAntisymmetric(b: Board, p: int, d: nat, d': nat)
    requires IsSide(p)
    ensures Evaluate(NewAI(p, d), b) == -Evaluate(NewAI(Opponent(p), d'), b)
  {
  }

  /** Changing the cell at index j changes the cell-by-cell sum by the difference of that cell's contributions. */
  lemma {:induction false} CellSumPut(b: Board, me: int, them: int, n: int, j: int, v: int)
    requires 0 <= n <= 64 && 0 <= j < 64
    ensures CellSum(b[j := v], me, them, n) ==
      CellSum(b, me, them, n) +
      (if j < n then Contribution(v, WeightAt(j), me, them) - Contribution(b[j], WeightAt(j), me, them) else 0)
  {
    if n > 0 {
      CellSumPut(b, me, them, n - 1, j, v);
    }
  }

  lemma {:induction false} CellSumEmpty(me: int, them: int, n: int)
    requires 0 <= n <= 64 && me != 0 && them != 0
    ensures CellSum(EmptyBoard(), me, them, n) == 0
  {
    if n > 0 {
      CellSumEmpty(me, them, n - 1);
    }
  }

  /** Empty cells contribute nothing: the empty board scores 0, and putting
      v on an empty cell moves the score by exactly that cell's signed weight. */
  lemma EvaluateAfterPut(ai: AI, b: Board, c: Pos, v: int)
    requires OnBoard(c) && At(b, c) == 0
    requires ai.player != 0 && ai.opponent != 0 && ai.player != ai.opponent
    ensures Evaluate(ai, EmptyBoard()) == 0
    ensures Evaluate(ai, Put(b, c, v)) ==
      Evaluate(ai, b) + Contribution(v, WeightAt(Idx(c)), ai.player, ai.opponent)
  {
    EvaluateIsCellSum(EmptyBoard(), ai.player, ai.opponent, 64);
    CellSumEmpty(ai.player, ai.opponent, 64);
    EvaluateIsCellSum(b, ai.player, ai.opponent, 64);
    EvaluateIsCellSum(Put(b, c, v), ai.player, ai.opponent, 64);
    CellSumPut(b, ai.player, ai.opponent, 64, Idx(c), v);
  }
}
