/**
 The end of the game: the side to move has no legal move and neither has
 the other side. The other side is written 3 - current, as the game loop
 writes it.
 */
module Game {
  import opened ReversiBoard
  import opened Rules

  /** Both the side to move and the other side are without a legal move. */
  predicate GameOver(b: Board, current: int) {
    |ValidMoves(b, current)| == 0 && |ValidMoves(b, 3 - current)| == 0
  }

  /** No empty cell lets p flank an opponent run. */
  ghost predicate Stuck(b: Board, p: int) {
    forall c :: OnBoard(c) && At(b, c) == 0 ==> !Flanks(b, c, p)
  }

  /** A side has no legal move exactly when no empty cell flanks for it. */
  lemma NoMovesIffStuck(b: Board, p: int)
    ensures |ValidMoves(b, p)| == 0 <==> Stuck(b, p)
  {
    var ms := ValidMoves(b, p);
    if |ms| == 0 {
      forall c | OnBoard(c) && At(b, c) == 0
        ensures !Flanks(b, c, p)
      {
        ValidMovesFlanking(b, p, c);
      }
    } else {
      ValidMovesFlanking(b, p, ms[0]);
    }
  }

  /** The game is over exactly when neither side can flank from any empty cell;
      which of the two sides is to move does not matter. */
  lemma GameOverIffStuck(b: Board, current: int)
    ensures GameOver(b, current) ==> Stuck(b, current) && Stuck(b, 3 - current)
    ensures Stuck(b, current) && Stuck(b, 3 - current) ==> GameOver(b, current)
  {
    var now, next := |ValidMoves(b, current)| == 0, |ValidMoves(b, 3 - current)| == 0;
    NoMovesIffStuck(b, current);
    NoMovesIffStuck(b, 3 - current);
    assert GameOver(b, current) <==> now && next;
    assert now <==> Stuck(b, current);
    assert next <==> Stuck(b, 3 - current);
  }

  /** A full board ends the game. */
  lemma FullBoardOver(b: Board, current: int)
    requires forall i :: 0 <= i < |b| ==> b[i] != 0
    ensures GameOver(b, current)
  {
    GameOverIffStuck(b, current);
  }

  /** A side flanks only where its opponent's disc lies next to the cell and
      one of its own discs lies further along. */
  lemma FlanksNeedsBoth(b: Board, c: Pos, p: int)
    requires Flanks(b, c, p)
    ensures exists e :: OnBoard(e) && At(b, e) == Opponent(p)
    ensures exists e :: OnBoard(e) && At(b, e) == p
  {
    var d, k :| AnchoredRun(b, c, d, p, k);
    assert OnBoard(Ray(c, d, 1)) && At(b, Ray(c, d, 1)) == Opponent(p);
  }

  /** With the discs of one side gone from the board, neither side can move,
      and the game is over. */
  lemma OneColourOver(b: Board, current: int, gone: int)
    requires IsSide(current) && IsSide(gone)
    requires forall i :: 0 <= i < |b| ==> b[i] != gone
    ensures GameOver(b, current)
  {
    forall p, c | IsSide(p) && OnBoard(c) && At(b, c) == 0
      ensures !Flanks(b, c, p)
    {
      if Flanks(b, c, p) {
        FlanksNeedsBoth(b, c, p);
      }
    }
    GameOverIffStuck(b, current);
  }

  /** At the opening, side 1 flanks (3,3) from (2,3) and side 2 flanks
      (3,4) from (2,4), both looking down the column. */
  lemma OpeningFlanks()
    ensures AnchoredRun(Opening(), Pos(2, 3), S, 1, 1)
    ensures AnchoredRun(Opening(), Pos(2, 4), S, 2, 1)
  {
    OpeningCells();
    assert Ray(Pos(2, 3), S, 1) == Pos(3, 3) && Ray(Pos(2, 3), S, 2) == Pos(4, 3);
    assert Ray(Pos(2, 4), S, 1) == Pos(3, 4) && Ray(Pos(2, 4), S, 2) == Pos(4, 4);
  }

  /** A side that flanks from an empty cell has a legal move. */
  lemma FlankGivesMove(b: Board, p: int, c: Pos)
    requires OnBoard(c) && At(b, c) == 0 && Flanks(b, c, p)
    ensures |ValidMoves(b, p)| > 0
  {
    ValidMovesFlanking(b, p, c);
  }

  /** The game is not over at the opening, whichever side is to move. */
  lemma OpeningNotOver(b: Board, current: int)
    requires b == Opening() && IsSide(current)
    ensures !GameOver(b, current)
  {
    OpeningHasMoves(b);
    if current == 2 {
      assert 3 - current == 1;
    }
  }

  /** At the opening both sides have a legal move. */
  lemma OpeningHasMoves(b: Board)
    requires b == Opening()
    ensures |ValidMoves(b, 1)| > 0 && |ValidMoves(b, 2)| > 0
  {
    OpeningFlanks();
    OpeningCells();
    assert At(b, Pos(2, 3)) == 0 && At(b, Pos(2, 4)) == 0;
    assert Flanks(b, Pos(2, 3), 1) by {
      assert AnchoredRun(b, Pos(2, 3), S, 1, 1);
    }
    assert Flanks(b, Pos(2, 4), 2) by {
      assert AnchoredRun(b, Pos(2, 4), S, 2, 1);
    }
    FlankGivesMove(b, 1, Pos(2, 3));
    FlankGivesMove(b, 2, Pos(2, 4));
  }
}
