/**
 Depth-bounded minimax with fail-soft alpha-beta pruning. The maximising
 levels move for the AI's side and the minimising levels for its opponent;
 leaves are scored from the AI's side. A loop over the legal moves keeps the
 first move that strictly improves the best score and stops once beta <= alpha.

 The search is written over the game tree that the board functions span:
 each node holds the static score of its position and, unless the depth is
 used up or the side to move has no move, one branch per legal move in
 generation order. The program builds each child board only when its loop
 reaches it; as every function here is pure, searching the tree gives the
 same results.

 Alongside the search sits plain minimax without pruning; the search is
 proved to keep the classic fail-soft bounds against it at every node, and to
 return exactly its value, and its first best move, at the root.
 */
module Search {
  import opened ReversiBoard

  datatype Option<T> = None | Some(value: T)

  /** A score, extended with the two infinities that start the search. */
  datatype Score = NegInf | Fin(v: int) | PosInf

  predicate Le(a: Score, b: Score) {
    a.NegInf? || b.PosInf? || (a.Fin? && b.Fin? && a.v <= b.v)
  }

  predicate Lt(a: Score, b: Score) {
    !Le(b, a)
  }

  function Max(a: Score, b: Score): Score {
    if Le(a, b) then b else a
  }

  function Min(a: Score, b: Score): Score {
    if Le(a, b) then a else b
  }

  /** A score and the move that reaches it (None at a leaf). */
  datatype SearchResult = SearchResult(score: Score, move: Option<Pos>)

  /** A position of the search: its static score and its branches, one per
      move searched from it (none at a leaf). */
  datatype Tree = Tree(eval: int, branches: seq<Branch>)
  datatype Branch = Branch(move: Pos, tree: Tree)

  /** m is the move of one of t's branches. */
  predicate IsMoveOf(m: Pos, t: Tree) {
    exists k :: 0 <= k < |t.branches| && t.branches[k].move == m
  }

  // ---------------------------------------------------------------------
  // The search.
  // ---------------------------------------------------------------------

  /** The best-so-far of a move loop once at least one move was examined. */
  predicate Started(acc: SearchResult, t: Tree) {
    acc.score.Fin? && acc.move.Some? && IsMoveOf(acc.move.value, t)
  }

  /** The best-so-far after a maximising step: the move is replaced only on a
      strict improvement, so the earliest of equal scores is kept. */
  function Raise(acc: SearchResult, e: Score, m: Pos): (r: SearchResult)
    ensures r.score == Max(acc.score, e)
    ensures r.move == (if Lt(acc.score, e) then Some(m) else acc.move)
  {
    if Lt(acc.score, e) then SearchResult(e, Some(m)) else acc
  }

  /** The best-so-far after a minimising step, kept on ties likewise. */
  function Lower(acc: SearchResult, e: Score, m: Pos): (r: SearchResult)
    ensures r.score == Min(acc.score, e)
    ensures r.move == (if Lt(e, acc.score) then Some(m) else acc.move)
  {
    if Lt(e, acc.score) then SearchResult(e, Some(m)) else acc
  }

  /** Alpha-beta over a tree. A leaf is scored statically with no move;
      otherwise the result is a finite score and one of the node's moves. */
  function AlphaBeta(t: Tree, maximizing: bool, alpha: Score, beta: Score): (r: SearchResult)
    ensures r.score.Fin?
    ensures r.move.None? <==> |t.branches| == 0
    ensures r.move.Some? ==> IsMoveOf(r.move.value, t)
    ensures |t.branches| == 0 ==> r.score == Fin(t.eval)
    decreases t, 1
  {
    if |t.branches| == 0 then SearchResult(Fin(t.eval), None)
    else if maximizing then MaxLoop(t, 0, alpha, beta, SearchResult(NegInf, None))
    else MinLoop(t, 0, alpha, beta, SearchResult(PosInf, None))
  }

  /** The maximising loop from the i-th branch on, with the best-so-far in acc. */
  function MaxLoop(t: Tree, i: nat, alpha: Score, beta: Score, acc: SearchResult): (r: SearchResult)
    requires 0 < |t.branches| && i <= |t.branches|
    requires (i == 0 && acc == SearchResult(NegInf, None)) || (i > 0 && Started(acc, t))
    ensures Started(r, t)
    decreases t, 0, |t.branches| - i
  {
    if i == |t.branches| then acc
    else
      var br := t.branches[i];
      var e := AlphaBeta(br.tree, false, alpha, beta).score;
      var acc' := Raise(acc, e, br.move);
      var alpha' := Max(alpha, e);
      if Le(beta, alpha') then acc'
      else MaxLoop(t, i + 1, alpha', beta, acc')
  }

  /** The minimising loop from the i-th branch on, with the best-so-far in acc. */
  function MinLoop(t: Tree, i: nat, alpha: Score, beta: Score, acc: SearchResult): (r: SearchResult)
    requires 0 < |t.branches| && i <= |t.branches|
    requires (i == 0 && acc == SearchResult(PosInf, None)) || (i > 0 && Started(acc, t))
    ensures Started(r, t)
    decreases t, 0, |t.branches| - i
  {
    if i == |t.branches| then acc
    else
      var br := t.branches[i];
      var e := AlphaBeta(br.tree, true, alpha, beta).score;
      var acc' := Lower(acc, e, br.move);
      var beta' := Min(beta, e);
      if Le(beta', alpha) then acc'
      else MinLoop(t, i + 1, alpha, beta', acc')
  }

  // ---------------------------------------------------------------------
  // Plain minimax, the reference.
  // ---------------------------------------------------------------------

  function MaxOf(s: seq<int>): (m: int)
    requires |s| > 0
    ensures m in s
    ensures forall k :: 0 <= k < |s| ==> s[k] <= m
  {
    if |s| == 1 then s[0]
    else
      var m := MaxOf(s[..|s| - 1]);
      if s[|s| - 1] > m then s[|s| - 1] else m
  }

  function MinOf(s: seq<int>): (m: int)
    requires |s| > 0
    ensures m in s
    ensures forall k :: 0 <= k < |s| ==> m <= s[k]
  {
    if |s| == 1 then s[0]
    else
      var m := MinOf(s[..|s| - 1]);
      if s[|s| - 1] < m then s[|s| - 1] else m
  }

  /** The position of the first occurrence of t in s. */
  function FirstIndex(s: seq<int>, t: int): (k: nat)
    requires t in s
    ensures k < |s| && s[k] == t && forall j :: 0 <= j < k ==> s[j] != t
  {
    if s[0] == t then 0 else 1 + FirstIndex(s[1..], t)
  }

  /** The minimax value of a tree without pruning. */
  function Value(t: Tree, maximizing: bool): int
    decreases t, 1
  {
    if |t.branches| == 0 then t.eval
    else
      var vals := ChildValues(t, maximizing);
      if maximizing then MaxOf(vals) else MinOf(vals)
  }

  /** The values of the branches, in order. */
  function ChildValues(t: Tree, maximizing: bool): (vals: seq<int>)
    ensures |vals| == |t.branches|
    decreases t, 0
  {
    seq(|t.branches|, k requires 0 <= k < |t.branches| => Value(t.branches[k].tree, !maximizing))
  }

  /** The first move, in branch order, whose value is the node's value (None at a leaf). */
  function BestMove(t: Tree, maximizing: bool): Option<Pos> {
    if |t.branches| == 0 then None
    else
      var vals := ChildValues(t, maximizing);
      var v := if maximizing then MaxOf(vals) else MinOf(vals);
      Some(t.branches[FirstIndex(vals, v)].move)
  }

  // ---------------------------------------------------------------------
  // Order facts about scores.
  // ---------------------------------------------------------------------

  /** The fail-soft bounds of Knuth and Moore for a result r searched in the
      window (alpha, beta) against the true value v: below the window r is an
      upper bound no larger than alpha, inside it r is exact, and above it r
      is a lower bound no smaller than beta. */
  predicate FailSoft(r: Score, v: Score, alpha: Score, beta: Score) {
    && (Le(v, alpha) ==> Le(v, r) && Le(r, alpha))
    && (Lt(alpha, v) && Lt(v, beta) ==> r == v)
    && (Le(beta, v) ==> Le(beta, r) && Le(r, v))
  }

  /** One maximising step: the larger best-so-far keeps the fail-soft bounds
      for the longer prefix, alpha stays the larger of its start and the
      best-so-far, and on a cutoff the result bounds the whole list too. */
  lemma MaxStep(best: Score, w: Score, e: Score, v: int, alpha0: Score, beta: Score, whole: Score)
    requires Lt(Max(alpha0, best), beta)
    requires FailSoft(best, w, alpha0, beta)
    requires FailSoft(e, Fin(v), Max(alpha0, best), beta)
    requires Le(Max(w, Fin(v)), whole)
    ensures FailSoft(Max(best, e), Max(w, Fin(v)), alpha0, beta)
    ensures Max(Max(alpha0, best), e) == Max(alpha0, Max(best, e))
    ensures Le(beta, Max(Max(alpha0, best), e)) ==> FailSoft(Max(best, e), whole, alpha0, beta)
  {
  }

  /** One minimising step, the mirror image of MaxStep. */
  lemma MinStep(best: Score, w: Score, e: Score, v: int, alpha: Score, beta0: Score, whole: Score)
    requires Lt(alpha, Min(beta0, best))
    requires FailSoft(best, w, alpha, beta0)
    requires FailSoft(e, Fin(v), alpha, Min(beta0, best))
    requires Le(whole, Min(w, Fin(v)))
    ensures FailSoft(Min(best, e), Min(w, Fin(v)), alpha, beta0)
    ensures Min(Min(beta0, best), e) == Min(beta0, Min(best, e))
    ensures Le(Min(Min(beta0, best), e), alpha) ==> FailSoft(Min(best, e), whole, alpha, beta0)
  {
  }

  // ---------------------------------------------------------------------
  // Prefixes of the children's values.
  // ---------------------------------------------------------------------

  /** The largest of the first i values, or minus infinity before the first. */
  function PrefixMax(vals: seq<int>, i: int): Score
    requires 0 <= i <= |vals|
  {
    if i == 0 then NegInf else Fin(MaxOf(vals[..i]))
  }

  /** The smallest of the first i values, or plus infinity before the first. */
  function PrefixMin(vals: seq<int>, i: int): Score
    requires 0 <= i <= |vals|
  {
    if i == 0 then PosInf else Fin(MinOf(vals[..i]))
  }

  lemma PrefixStep(vals: seq<int>, i: int)
    requires 0 <= i < |vals|
    ensures PrefixMax(vals, i + 1) == Max(PrefixMax(vals, i), Fin(vals[i]))
    ensures PrefixMin(vals, i + 1) == Min(PrefixMin(vals, i), Fin(vals[i]))
    ensures Le(PrefixMax(vals, i + 1), Fin(MaxOf(vals)))
    ensures Le(Fin(MinOf(vals)), PrefixMin(vals, i + 1))
  {
    assert vals[..i + 1][..i] == vals[..i];
    assert vals[..i + 1][i] == vals[i];
    assert MaxOf(vals[..i + 1]) in vals[..i + 1];
    assert MinOf(vals[..i + 1]) in vals[..i + 1];
  }

  lemma PrefixWhole(vals: seq<int>)
    requires |vals| > 0
    ensures PrefixMax(vals, |vals|) == Fin(MaxOf(vals))
    ensures PrefixMin(vals, |vals|) == Fin(MinOf(vals))
  {
    assert vals[..|vals|] == vals;
  }

  // ---------------------------------------------------------------------
  // Soundness of the pruning.
  // ---------------------------------------------------------------------

  /** At every node and for every window with alpha < beta, the pruned
      search keeps the fail-soft bounds against the unpruned value. */
  lemma AlphaBetaFailSoft(t: Tree, maximizing: bool, alpha: Score, beta: Score)
    requires Lt(alpha, beta)
    ensures FailSoft(AlphaBeta(t, maximizing, alpha, beta).score, Fin(Value(t, maximizing)), alpha, beta)
    decreases t, 1
  {
    if |t.branches| > 0 {
      PrefixWhole(ChildValues(t, maximizing));
      if maximizing {
        MaxLoopFailSoft(t, 0, alpha, alpha, beta, SearchResult(NegInf, None));
      } else {
        MinLoopFailSoft(t, 0, alpha, beta, beta, SearchResult(PosInf, None));
      }
    }
  }

  /** One pass of the maximising loop: the best-so-far it leaves keeps the
      bounds of the longer prefix, and, when the loop stops there, those of
      the whole list. */
  lemma MaxLoopStepBounds(t: Tree, i: nat, alpha0: Score, alpha: Score, beta: Score, acc: SearchResult)
    requires i < |t.branches|
    requires (i == 0 && acc == SearchResult(NegInf, None)) || (i > 0 && Started(acc, t))
    requires alpha == Max(alpha0, acc.score) && Lt(alpha, beta)
    requires FailSoft(acc.score, PrefixMax(ChildValues(t, true), i), alpha0, beta)
    ensures var e := AlphaBeta(t.branches[i].tree, false, alpha, beta).score;
      var acc' := Raise(acc, e, t.branches[i].move);
      && Started(acc', t)
      && Max(alpha, e) == Max(alpha0, acc'.score)
      && FailSoft(acc'.score, PrefixMax(ChildValues(t, true), i + 1), alpha0, beta)
      && (Le(beta, Max(alpha, e)) ==>
            FailSoft(acc'.score, PrefixMax(ChildValues(t, true), |t.branches|), alpha0, beta))
    decreases t, 0, |t.branches| - i, 0
  {
    var vals := ChildValues(t, true);
    var br := t.branches[i];
    var e := AlphaBeta(br.tree, false, alpha, beta).score;
    AlphaBetaFailSoft(br.tree, false, alpha, beta);
    assert vals[i] == Value(br.tree, false);
    assert IsMoveOf(br.move, t);
    PrefixStep(vals, i);
    PrefixWhole(vals);
    MaxStep(acc.score, PrefixMax(vals, i), e, vals[i], alpha0, beta, PrefixMax(vals, |t.branches|));
  }

  /** The maximising loop, with alpha raised to the best-so-far, keeps the
      bounds of its prefix up to the whole list. */
  lemma MaxLoopFailSoft(t: Tree, i: nat, alpha0: Score, alpha: Score, beta: Score, acc: SearchResult)
    requires 0 < |t.branches| && i <= |t.branches|
    requires (i == 0 && acc == SearchResult(NegInf, None)) || (i > 0 && Started(acc, t))
    requires alpha == Max(alpha0, acc.score) && Lt(alpha, beta)
    requires FailSoft(acc.score, PrefixMax(ChildValues(t, true), i), alpha0, beta)
    ensures FailSoft(MaxLoop(t, i, alpha, beta, acc).score, PrefixMax(ChildValues(t, true), |t.branches|), alpha0, beta)
    decreases t, 0, |t.branches| - i, 1
  {
    if i < |t.branches| {
      var br := t.branches[i];
      var e := AlphaBeta(br.tree, false, alpha, beta).score;
      var acc' := Raise(acc, e, br.move);
      MaxLoopStepBounds(t, i, alpha0, alpha, beta, acc);
      if Le(beta, Max(alpha, e)) {
        assert MaxLoop(t, i, alpha, beta, acc) == acc';
      } else {
        MaxLoopFailSoft(t, i + 1, alpha0, Max(alpha, e), beta, acc');
        assert MaxLoop(t, i, alpha, beta, acc) == MaxLoop(t, i + 1, Max(alpha, e), beta, acc');
      }
    }
  }

  /** One pass of the minimising loop, likewise. */
  lemma MinLoopStepBounds(t: Tree, i: nat, alpha: Score, beta0: Score, beta: Score, acc: SearchResult)
    requires i < |t.branches|
    requires (i == 0 && acc == SearchResult(PosInf, None)) || (i > 0 && Started(acc, t))
    requires beta == Min(beta0, acc.score) && Lt(alpha, beta)
    requires FailSoft(acc.score, PrefixMin(ChildValues(t, false), i), alpha, beta0)
    ensures var e := AlphaBeta(t.branches[i].tree, true, alpha, beta).score;
      var acc' := Lower(acc, e, t.branches[i].move);
      && Started(acc', t)
      && Min(beta, e) == Min(beta0, acc'.score)
      && FailSoft(acc'.score, PrefixMin(ChildValues(t, false), i + 1), alpha, beta0)
      && (Le(Min(beta, e), alpha) ==>
            FailSoft(acc'.score, PrefixMin(ChildValues(t, false), |t.branches|), alpha, beta0))
    decreases t, 0, |t.branches| - i, 0
  {
    var vals := ChildValues(t, false);
    var br := t.branches[i];
    var e := AlphaBeta(br.tree, true, alpha, beta).score;
    AlphaBetaFailSoft(br.tree, true, alpha, beta);
    assert vals[i] == Value(br.tree, true);
    assert IsMoveOf(br.move, t);
    PrefixStep(vals, i);
    PrefixWhole(vals);
    MinStep(acc.score, PrefixMin(vals, i), e, vals[i], alpha, beta0, PrefixMin(vals, |t.branches|));
  }

  /** The minimising loop, with beta lowered to the best-so-far, keeps the
      bounds of its prefix up to the whole list. */
  lemma MinLoopFailSoft(t: Tree, i: nat, alpha: Score, beta0: Score, beta: Score, acc: SearchResult)
    requires 0 < |t.branches| && i <= |t.branches|
    requires (i == 0 && acc == SearchResult(PosInf, None)) || (i > 0 && Started(acc, t))
    requires beta == Min(beta0, acc.score) && Lt(alpha, beta)
    requires FailSoft(acc.score, PrefixMin(ChildValues(t, false), i), alpha, beta0)
    ensures FailSoft(MinLoop(t, i, alpha, beta, acc).score, PrefixMin(ChildValues(t, false), |t.branches|), alpha, beta0)
    decreases t, 0, |t.branches| - i, 1
  {
    if i < |t.branches| {
      var br := t.branches[i];
      var e := AlphaBeta(br.tree, true, alpha, beta).score;
      var acc' := Lower(acc, e, br.move);
      MinLoopStepBounds(t, i, alpha, beta0, beta, acc);
      if Le(Min(beta, e), alpha) {
        assert MinLoop(t, i, alpha, beta, acc) == acc';
      } else {
        MinLoopFailSoft(t, i + 1, alpha, beta0, Min(beta, e), acc');
        assert MinLoop(t, i, alpha, beta, acc) == MinLoop(t, i + 1, alpha, Min(beta, e), acc');
      }
    }
  }

  // ---------------------------------------------------------------------
  // Exactness at the root.
  // ---------------------------------------------------------------------

  /** Appending to a list does not move the first occurrence of a value
      already in it, and a new value first occurs at the end. */
  lemma FirstIndexAppend(s: seq<int>, x: int, m: int)
    requires m in s + [x]
    ensures m in s ==> FirstIndex(s + [x], m) == FirstIndex(s, m)
    ensures m !in s ==> FirstIndex(s + [x], m) == |s|
  {
    if m in s {
      var k := FirstIndex(s, m);
      assert (s + [x])[k] == m;
    }
  }

  /** The largest of a longer prefix and where it first occurs: the new
      element takes over only when it is strictly larger. */
  lemma MaxPrefixStep(vals: seq<int>, i: nat)
    requires i < |vals|
    ensures i == 0 ==> MaxOf(vals[..1]) == vals[0] && FirstIndex(vals[..1], vals[0]) == 0
    ensures i > 0 ==>
      var m := MaxOf(vals[..i]);
      && MaxOf(vals[..i + 1]) == (if vals[i] > m then vals[i] else m)
      && FirstIndex(vals[..i + 1], MaxOf(vals[..i + 1])) == (if vals[i] > m then i else FirstIndex(vals[..i], m))
  {
    assert vals[..i + 1] == vals[..i] + [vals[i]];
    if i > 0 {
      var m := MaxOf(vals[..i]);
      assert vals[..i + 1][..i] == vals[..i];
      if vals[i] > m {
        assert vals[i] !in vals[..i];
        FirstIndexAppend(vals[..i], vals[i], vals[i]);
      } else {
        FirstIndexAppend(vals[..i], vals[i], m);
      }
    }
  }

  /** The smallest of a longer prefix and where it first occurs: the new
      element takes over only when it is strictly smaller. */
  lemma MinPrefixStep(vals: seq<int>, i: nat)
    requires i < |vals|
    ensures i == 0 ==> MinOf(vals[..1]) == vals[0] && FirstIndex(vals[..1], vals[0]) == 0
    ensures i > 0 ==>
      var m := MinOf(vals[..i]);
      && MinOf(vals[..i + 1]) == (if vals[i] < m then vals[i] else m)
      && FirstIndex(vals[..i + 1], MinOf(vals[..i + 1])) == (if vals[i] < m then i else FirstIndex(vals[..i], m))
  {
    assert vals[..i + 1] == vals[..i] + [vals[i]];
    if i > 0 {
      var m := MinOf(vals[..i]);
      assert vals[..i + 1][..i] == vals[..i];
      if vals[i] < m {
        assert vals[i] !in vals[..i];
        FirstIndexAppend(vals[..i], vals[i], vals[i]);
      } else {
        FirstIndexAppend(vals[..i], vals[i], m);
      }
    }
  }

  /** The best of the first i branches, as the loop records it. */
  function PrefixBest(t: Tree, vals: seq<int>, i: nat, maximizing: bool): (r: SearchResult)
    requires 0 < i <= |vals| == |t.branches|
    ensures Started(r, t)
  {
    var m := if maximizing then MaxOf(vals[..i]) else MinOf(vals[..i]);
    var k := FirstIndex(vals[..i], m);
    assert IsMoveOf(t.branches[k].move, t);
    SearchResult(Fin(m), Some(t.branches[k].move))
  }

  /** One step of MaxLoopExact: the child searched in the window that the
      best-so-far leaves open changes the best-so-far exactly as the prefix
      largest value and its first position change. */
  lemma MaxExactStep(t: Tree, i: nat, acc: SearchResult)
    requires i < |t.branches|
    requires (i == 0 && acc == SearchResult(NegInf, None)) ||
             (i > 0 && acc == PrefixBest(t, ChildValues(t, true), i, true))
    ensures Raise(acc, AlphaBeta(t.branches[i].tree, false, acc.score, PosInf).score, t.branches[i].move)
      == PrefixBest(t, ChildValues(t, true), i + 1, true)
  {
    var vals := ChildValues(t, true);
    var br := t.branches[i];
    AlphaBetaFailSoft(br.tree, false, acc.score, PosInf);
    assert vals[i] == Value(br.tree, false);
    MaxPrefixStep(vals, i);
  }

  /** With beta at plus infinity, the maximising loop never cuts off, and
      its alpha is always its best-so-far; it ends with the largest child
      value and the first branch reaching it. */
  lemma {:induction false} MaxLoopExact(t: Tree, i: nat, acc: SearchResult)
    requires 0 < |t.branches| && i <= |t.branches|
    requires (i == 0 && acc == SearchResult(NegInf, None)) ||
             (i > 0 && acc == PrefixBest(t, ChildValues(t, true), i, true))
    ensures MaxLoop(t, i, acc.score, PosInf, acc) == PrefixBest(t, ChildValues(t, true), |t.branches|, true)
    decreases |t.branches| - i
  {
    var vals := ChildValues(t, true);
    if i < |t.branches| {
      var br := t.branches[i];
      var acc' := Raise(acc, AlphaBeta(br.tree, false, acc.score, PosInf).score, br.move);
      MaxExactStep(t, i, acc);
      MaxLoopExact(t, i + 1, acc');
      assert MaxLoop(t, i, acc.score, PosInf, acc) == MaxLoop(t, i + 1, acc'.score, PosInf, acc');
    }
  }

  /** One step of MinLoopExact: the child searched in the window that the
      best-so-far leaves open changes the best-so-far exactly as the prefix
      smallest value and its first position change. */
  lemma MinExactStep(t: Tree, i: nat, acc: SearchResult)
    requires i < |t.branches|
    requires (i == 0 && acc == SearchResult(PosInf, None)) ||
             (i > 0 && acc == PrefixBest(t, ChildValues(t, false), i, false))
    ensures Lower(acc, AlphaBeta(t.branches[i].tree, true, NegInf, acc.score).score, t.branches[i].move)
      == PrefixBest(t, ChildValues(t, false), i + 1, false)
  {
    var vals := ChildValues(t, false);
    var br := t.branches[i];
    AlphaBetaFailSoft(br.tree, true, NegInf, acc.score);
    assert vals[i] == Value(br.tree, true);
    MinPrefixStep(vals, i);
  }

  /** The minimising mirror of MaxLoopExact, with alpha at minus infinity. */
  lemma {:induction false} MinLoopExact(t: Tree, i: nat, acc: SearchResult)
    requires 0 < |t.branches| && i <= |t.branches|
    requires (i == 0 && acc == SearchResult(PosInf, None)) ||
             (i > 0 && acc == PrefixBest(t, ChildValues(t, false), i, false))
    ensures MinLoop(t, i, NegInf, acc.score, acc) == PrefixBest(t, ChildValues(t, false), |t.branches|, false)
    decreases |t.branches| - i
  {
    var vals := ChildValues(t, false);
    if i < |t.branches| {
      var br := t.branches[i];
      var acc' := Lower(acc, AlphaBeta(br.tree, true, NegInf, acc.score).score, br.move);
      MinExactStep(t, i, acc);
      MinLoopExact(t, i + 1, acc');
      assert MinLoop(t, i, NegInf, acc.score, acc) == MinLoop(t, i + 1, NegInf, acc'.score, acc');
    }
  }

  /** Searched with the full window, alpha-beta returns exactly the minimax
      value and the first move, in branch order, that reaches it. */
  lemma AlphaBetaRootExact(t: Tree, maximizing: bool)
    ensures AlphaBeta(t, maximizing, NegInf, PosInf) == SearchResult(Fin(Value(t, maximizing)), BestMove(t, maximizing))
  {
    if |t.branches| > 0 {
      var vals := ChildValues(t, maximizing);
      assert vals[..|vals|] == vals;
      if maximizing {
        MaxLoopExact(t, 0, SearchResult(NegInf, None));
      } else {
        MinLoopExact(t, 0, SearchResult(PosInf, None));
      }
    }
  }

  // ---------------------------------------------------------------------
  // Bounds.
  // ---------------------------------------------------------------------

  /** Every static score in the tree lies in [lo, hi]. */
  predicate EvalsWithin(t: Tree, lo: int, hi: int)
    decreases t
  {
    && lo <= t.eval <= hi
    && forall k :: 0 <= k < |t.branches| ==> EvalsWithin(t.branches[k].tree, lo, hi)
  }

  /** A finite score in [lo, hi]. */
  predicate Within(s: Score, lo: int, hi: int) {
    s.Fin? && lo <= s.v <= hi
  }

  /** The search only ever returns a static score of the tree, so it stays
      within any bounds that all of them keep, whatever the window. */
  lemma AlphaBetaWithin(t: Tree, maximizing: bool, alpha: Score, beta: Score, lo: int, hi: int)
    requires EvalsWithin(t, lo, hi)
    ensures Within(AlphaBeta(t, maximizing, alpha, beta).score, lo, hi)
    decreases t, 1
  {
    if |t.branches| > 0 {
      if maximizing {
        MaxLoopWithin(t, 0, alpha, beta, SearchResult(NegInf, None), lo, hi);
      } else {
        MinLoopWithin(t, 0, alpha, beta, SearchResult(PosInf, None), lo, hi);
      }
    }
  }

  lemma MaxLoopWithin(t: Tree, i: nat, alpha: Score, beta: Score, acc: SearchResult, lo: int, hi: int)
    requires 0 < |t.branches| && i <= |t.branches|
    requires (i == 0 && acc == SearchResult(NegInf, None)) || (i > 0 && Started(acc, t))
    requires EvalsWithin(t, lo, hi)
    requires i > 0 ==> Within(acc.score, lo, hi)
    ensures Within(MaxLoop(t, i, alpha, beta, acc).score, lo, hi)
    decreases t, 0, |t.branches| - i
  {
    if i < |t.branches| {
      var br := t.branches[i];
      var e := AlphaBeta(br.tree, false, alpha, beta).score;
      AlphaBetaWithin(br.tree, false, alpha, beta, lo, hi);
      var acc' := Raise(acc, e, br.move);
      if Le(beta, Max(alpha, e)) {
        assert MaxLoop(t, i, alpha, beta, acc) == acc';
      } else {
        MaxLoopWithin(t, i + 1, Max(alpha, e), beta, acc', lo, hi);
        assert MaxLoop(t, i, alpha, beta, acc) == MaxLoop(t, i + 1, Max(alpha, e), beta, acc');
      }
    }
  }

  lemma MinLoopWithin(t: Tree, i: nat, alpha: Score, beta: Score, acc: SearchResult, lo: int, hi: int)
    requires 0 < |t.branches| && i <= |t.branches|
    requires (i == 0 && acc == SearchResult(PosInf, None)) || (i > 0 && Started(acc, t))
    requires EvalsWithin(t, lo, hi)
    requires i > 0 ==> Within(acc.score, lo, hi)
    ensures Within(MinLoop(t, i, alpha, beta, acc).score, lo, hi)
    decreases t, 0, |t.branches| - i
  {
    if i < |t.branches| {
      var br := t.branches[i];
      var e := AlphaBeta(br.tree, true, alpha, beta).score;
      AlphaBetaWithin(br.tree, true, alpha, beta, lo, hi);
      var acc' := Lower(acc, e, br.move);
      if Le(Min(beta, e), alpha) {
        assert MinLoop(t, i, alpha, beta, acc) == acc';
      } else {
        MinLoopWithin(t, i + 1, alpha, Min(beta, e), acc', lo, hi);
        assert MinLoop(t, i, alpha, beta, acc) == MinLoop(t, i + 1, alpha, Min(beta, e), acc');
      }
    }
  }

  /** The largest and the smallest of a list keep any bounds its elements keep. */
  lemma ExtremesWithin(vals: seq<int>, lo: int, hi: int)
    requires |vals| > 0
    requires forall k :: 0 <= k < |vals| ==> lo <= vals[k] <= hi
    ensures lo <= MaxOf(vals) <= hi && lo <= MinOf(vals) <= hi
  {
  }
}
