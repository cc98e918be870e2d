/**
 The opening position worked through: side 1's legal moves in the order the
 generator lists them, and the first of them played out.
 */
module OpeningScenario {
  import opened ReversiBoard
  import opened Rules
  import opened Moves

  /** The legal moves of side 1 at the opening, in row-major order. */
  const OpeningMoves: seq<Pos> := [Pos(2, 3), Pos(3, 2), Pos(4, 5), Pos(5, 4)]

  /** The board is laid out as the opening, index by index. */
  ghost predicate Laid(b: Board) {
    forall i :: 0 <= i < 64 ==> b[i] == Initial(i)
  }

  lemma OpeningLaid(b: Board)
    requires b == Opening()
    ensures Laid(b)
  {
    OpeningCells();
  }

  /** Which cells hold which side at the opening, for one cell. */
  lemma OpeningHolds(b: Board, e: Pos)
    requires Laid(b) && OnBoard(e)
    ensures At(b, e) == 2 <==> e == Pos(3, 3) || e == Pos(4, 4)
    ensures At(b, e) == 1 <==> e == Pos(3, 4) || e == Pos(4, 3)
    ensures At(b, e) == 0 || At(b, e) == 1 || At(b, e) == 2
  {
    assert At(b, e) == Initial(Idx(e));
  }

  /** Every run side 1 can flank at the opening is a single disc of side 2,
      reached from one of four cells, each looking in one direction. */
  lemma OpeningRuns(b: Board, c: Pos, d: Dir, k: int)
    requires Laid(b) && AnchoredRun(b, c, d, 1, k)
    ensures k == 1
    ensures || (c == Pos(2, 3) && d == S) || (c == Pos(3, 2) && d == E)
            || (c == Pos(4, 5) && d == W) || (c == Pos(5, 4) && d == N)
  {
    var r1, r2, r3 := Ray(c, d, 1), Ray(c, d, 2), Ray(c, d, 3);
    assert OnBoard(r1) && At(b, r1) == 2;
    assert OnBoard(r2) && At(b, r2) != 0;
    assert k >= 2 ==> OnBoard(r3) && At(b, r3) != 0;
    OpeningHolds(b, r1);
    OpeningHolds(b, r2);
    if OnBoard(r3) {
      OpeningHolds(b, r3);
    }
  }

  /** Two row-major lists with the same cells are the same list. */
  lemma {:induction false} RowMajorUnique(a: seq<Pos>, b: seq<Pos>)
    requires RowMajor(a) && RowMajor(b)
    requires forall c :: c in a <==> c in b
    ensures a == b
    decreases |a|
  {
    assert |a| > 0 ==> a[0] in a;
    assert |b| > 0 ==> b[0] in b;
    if |a| > 0 && |b| > 0 {
      var j :| 0 <= j < |b| && b[j] == a[0];
      var i :| 0 <= i < |a| && a[i] == b[0];
      assert i == 0 && j == 0;
      forall c
        ensures c in a[1..] ==> c in b[1..]
      {
        if c in a[1..] {
          var i' :| 1 <= i' < |a| && a[i'] == c;
          assert c in a;
          var j' :| 0 <= j' < |b| && b[j'] == c;
          assert j' != 0;
          assert b[1..][j' - 1] == c;
        }
      }
      forall c
        ensures c in b[1..] ==> c in a[1..]
      {
        if c in b[1..] {
          var j' :| 1 <= j' < |b| && b[j'] == c;
          assert c in b;
          var i' :| 0 <= i' < |a| && a[i'] == c;
          assert i' != 0;
          assert a[1..][i' - 1] == c;
        }
      }
      RowMajorUnique(a[1..], b[1..]);
      assert a == [a[0]] + a[1..] && b == [b[0]] + b[1..];
    }
  }

  /** Every legal move of side 1 at the opening is one of the four. */
  lemma OpeningMovesWithin(b: Board, c: Pos)
    requires Laid(b) && c in ValidMoves(b, 1)
    ensures c in OpeningMoves
  {
    ValidMovesFlanking(b, 1, c);
    var d, k :| AnchoredRun(b, c, d, 1, k);
    OpeningRuns(b, c, d, k);
  }

  /** Each of the four is a legal move of side 1 at the opening. */
  lemma OpeningMovesPresent(b: Board)
    requires Laid(b)
    ensures forall c :: c in OpeningMoves ==> c in ValidMoves(b, 1)
  {
    Present(b, Pos(2, 3), S, Pos(3, 3), Pos(4, 3));
    Present(b, Pos(3, 2), E, Pos(3, 3), Pos(3, 4));
    Present(b, Pos(4, 5), W, Pos(4, 4), Pos(4, 3));
    Present(b, Pos(5, 4), N, Pos(4, 4), Pos(3, 4));
  }

  /** An empty cell with a side-2 disc next to it along d and a side-1 disc
      behind that is a legal move of side 1. */
  lemma Present(b: Board, c: Pos, d: Dir, e1: Pos, e2: Pos)
    requires Laid(b) && OnBoard(c)
    requires Ray(c, d, 1) == e1 && Ray(c, d, 2) == e2
    requires c != Pos(3, 3) && c != Pos(4, 4) && c != Pos(3, 4) && c != Pos(4, 3)
    requires e1 == Pos(3, 3) || e1 == Pos(4, 4)
    requires e2 == Pos(3, 4) || e2 == Pos(4, 3)
    ensures c in ValidMoves(b, 1)
  {
    OpeningHolds(b, c);
    OpeningHolds(b, e1);
    OpeningHolds(b, e2);
    assert AnchoredRun(b, c, d, 1, 1);
    ValidMovesFlanking(b, 1, c);
  }

  /** A row-major list holding exactly the four cells is the list of the four. */
  lemma PinnedToOpeningMoves(ms: seq<Pos>)
    requires RowMajor(ms)
    requires forall c :: c in ms ==> c in OpeningMoves
    requires forall c :: c in OpeningMoves ==> c in ms
    ensures ms == OpeningMoves
  {
    RowMajorUnique(ms, OpeningMoves);
  }

  /** Side 1's legal moves at the opening are exactly (2,3), (3,2), (4,5)
      and (5,4), in that order. */
  lemma OpeningMovesOfSide1(b: Board)
    requires b == Opening()
    ensures ValidMoves(b, 1) == OpeningMoves
  {
    OpeningLaid(b);
    var ms := ValidMoves(b, 1);
    forall c | c in ms
      ensures c in OpeningMoves
    {
      OpeningMovesWithin(b, c);
    }
    OpeningMovesPresent(b);
    PinnedToOpeningMoves(ms);
  }

  /** Positions where s holds o and t holds p: exactly one gives a count of one. */
  lemma {:induction false} FlipsSingle(s: seq<int>, t: seq<int>, o: int, p: int, j: int)
    requires |s| == |t| && 0 <= j < |s| && s[j] == o && t[j] == p
    requires forall i :: 0 <= i < |s| && i != j ==> !(s[i] == o && t[i] == p)
    ensures Flips(s, t, o, p) == 1
  {
    if j > 0 {
      FlipsSingle(s[1..], t[1..], o, p, j - 1);
    } else {
      FlipsNone(s[1..], t[1..], o, p);
    }
  }

  lemma {:induction false} FlipsNone(s: seq<int>, t: seq<int>, o: int, p: int)
    requires |s| == |t|
    requires forall i :: 0 <= i < |s| ==> !(s[i] == o && t[i] == p)
    ensures Flips(s, t, o, p) == 0
  {
    if s != [] {
      FlipsNone(s[1..], t[1..], o, p);
    }
  }

  /** Playing (2,3) for side 1 at the opening captures (3,3) and nothing else. */
  lemma OpeningCaptures(b: Board, e: Pos)
    requires Laid(b)
    ensures Captured(b, Pos(2, 3), 1, e) <==> e == Pos(3, 3)
  {
    var c := Pos(2, 3);
    if Captured(b, c, 1, e) {
      var d, k, i :| AnchoredRun(b, c, d, 1, k) && 1 <= i <= k && e == Ray(c, d, i);
      OpeningRuns(b, c, d, k);
    }
    if e == Pos(3, 3) {
      OpeningHolds(b, Pos(3, 3));
      OpeningHolds(b, Pos(4, 3));
      assert AnchoredRun(b, c, S, 1, 1);
      assert e == Ray(c, S, 1);
    }
  }

  /** Playing (2,3) for side 1 at the opening turns (3,3) to side 1 and
      leaves every other cell as it was. */
  lemma OpeningFirstMoveCells(b: Board)
    requires Laid(b)
    ensures var r := MakeMove(b, 2, 3, 1);
      && At(r, Pos(2, 3)) == 1
      && (forall e :: OnBoard(e) && e != Pos(2, 3) ==>
            At(r, e) == if e == Pos(3, 3) then 1 else At(b, e))
  {
    MakeMoveSpec(b, 2, 3, 1);
    forall e | OnBoard(e) && e != Pos(2, 3)
      ensures Captured(b, Pos(2, 3), 1, e) <==> e == Pos(3, 3)
    {
      OpeningCaptures(b, e);
    }
  }

  /** On a board laid out as the opening, a change that makes index 27 (the
      cell (3,3)) side 1 and keeps index 36 (the cell (4,4)) side 2 turns
      exactly one disc of side 2 into side 1. */
  lemma OneFlipFromOpening(s: Board, t: Board)
    requires Laid(s)
    requires t[27] == 1 && t[36] == 2
    ensures Flips(s, t, 2, 1) == 1
  {
    FlipsSingle(s, t, 2, 1, 27);
  }

  /** After (2,3) is played for side 1 at the opening, (3,3) holds side 1
      and (4,4) still holds side 2. */
  lemma OpeningFirstMoveKeys(b: Board)
    requires Laid(b)
    ensures MakeMove(b, 2, 3, 1)[27] == 1 && MakeMove(b, 2, 3, 1)[36] == 2
  {
    var r := MakeMove(b, 2, 3, 1);
    OpeningFirstMoveCells(b);
    OpeningHolds(b, Pos(4, 4));
    assert r[27] == At(r, Pos(3, 3));
    assert r[36] == At(r, Pos(4, 4));
  }

  /** Playing (2,3) for side 1 at the opening flips exactly one disc. */
  lemma OpeningFirstFlip(b: Board)
    requires Laid(b)
    ensures Flipped(b, MakeMove(b, 2, 3, 1), 1) == 1
  {
    OpeningFirstMoveKeys(b);
    OneFlipFromOpening(b, MakeMove(b, 2, 3, 1));
  }

  /** Playing (2,3) for side 1 at the opening flips (3,3) and nothing else,
      and leaves four discs of side 1 against one of side 2. */
  lemma OpeningFirstMove(b: Board)
    requires b == Opening()
    ensures var r := MakeMove(b, 2, 3, 1);
      && At(r, Pos(2, 3)) == 1
      && (forall e :: OnBoard(e) && e != Pos(2, 3) ==>
            At(r, e) == if e == Pos(3, 3) then 1 else At(b, e))
      && CountDiscs(r) == (4, 1)
  {
    OpeningLaid(b);
    OpeningFirstMoveCells(b);
    OpeningFirstCounts(b);
  }

  /** After (2,3) is played for side 1 at the opening, side 1 has four discs
      and side 2 one. */
  lemma OpeningFirstCounts(b: Board)
    requires b == Opening()
    ensures CountDiscs(MakeMove(b, 2, 3, 1)) == (4, 1)
  {
    OpeningLaid(b);
    OpeningFirstFlip(b);
    OpeningHolds(b, Pos(2, 3));
    OpeningLayout();
    PlacementAccounting(b, 2, 3, 1);
  }
}
