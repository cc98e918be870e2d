/**
 Move application: place the mover's disc, then, direction by direction,
 walk over the opponent's discs and flip them when the walk halts on one of
 the mover's own discs. The result is characterised cell by cell against the
 board before the move, and the disc counts are accounted for.
 */
module Moves {
  import opened ReversiBoard
  import opened Rules

  /** The board with every listed cell set to v. */
  function PutAll(b: Board, cells: seq<Pos>, v: int): (r: Board)
    requires forall e :: e in cells ==> OnBoard(e)
    ensures forall e :: OnBoard(e) ==> At(r, e) == if e in cells then v else At(b, e)
    decreases cells
  {
    if cells == [] then b else PutAll(Put(b, cells[0], v), cells[1..], v)
  }

  /** One direction of the move: the collected opponent run is flipped to p
      when the walk halts on a disc of p, and left alone otherwise. */
  function FlipDir(b: Board, c: Pos, d: Dir, p: int): Board
    requires OnBoard(c)
  {
    if Anchored(b, c, d, p) then PutAll(b, Run(b, c, d, Opponent(p)), p) else b
  }

  /** The first n directions handled in order, each on the board the previous ones left. */
  function FlipDirs(b: Board, c: Pos, p: int, n: int): Board
    requires OnBoard(c) && 0 <= n <= |Directions|
  {
    if n == 0 then b else FlipDir(FlipDirs(b, c, p, n - 1), c, Directions[n - 1], p)
  }

  /** Place p's disc at (x, y), then flip in every direction. */
  function MakeMove(b: Board, x: int, y: int, p: int): Board
    requires OnBoard(Pos(x, y))
  {
    FlipDirs(Put(b, Pos(x, y), p), Pos(x, y), p, |Directions|)
  }

  /** Cell e lies inside an opponent run that a disc of p placed at c flanks. */
  ghost predicate Captured(b: Board, c: Pos, p: int, e: Pos) {
    exists d, k, i :: AnchoredRun(b, c, d, p, k) && 1 <= i <= k && e == Ray(c, d, i)
  }

  /** A captured cell is an opponent disc on the board, distinct from the placed cell. */
  lemma CapturedIsOpponent(b: Board, c: Pos, p: int, e: Pos)
    requires Captured(b, c, p, e)
    ensures OnBoard(e) && At(b, e) == Opponent(p) && e != c
  {
  }

  // ---------------------------------------------------------------------
  // Frame facts about the walks from one origin.
  // ---------------------------------------------------------------------

  /** Two boards agree on every on-board cell of the ray from c along d. */
  ghost predicate AgreeOnRay(b: Board, b': Board, c: Pos, d: Dir) {
    forall i :: 1 <= i && OnBoard(Ray(c, d, i)) ==> At(b, Ray(c, d, i)) == At(b', Ray(c, d, i))
  }

  /** Rays from one origin in two directions share no cell. */
  lemma RaysDisjoint(c: Pos, d: Dir, d': Dir, i: int, j: int)
    requires 1 <= i && 1 <= j && d != d'
    ensures Ray(c, d, i) != Ray(c, d', j)
  {
  }

  /** The run walked along d contains no cell of the ray along another direction. */
  lemma RunOffOtherRay(b: Board, c: Pos, d: Dir, d': Dir, o: int, i: int)
    requires OnBoard(c) && 1 <= i && d != d'
    ensures Ray(c, d', i) !in Run(b, c, d, o)
  {
    var run := Run(b, c, d, o);
    RunShape(b, c, d, o);
    forall j | 0 <= j < |run|
      ensures run[j] != Ray(c, d', i)
    {
      RaysDisjoint(c, d, d', j + 1, i);
    }
  }

  /** The walk reads nothing but the cells of its ray. */
  lemma {:induction false} RunFrame(b: Board, b': Board, c: Pos, d: Dir, o: int)
    requires OnBoard(c) && AgreeOnRay(b, b', c, d)
    ensures Run(b, c, d, o) == Run(b', c, d, o)
    ensures Stop(b, c, d, o) == Stop(b', c, d, o)
    decreases Span(c.x, DX(d)) + Span(c.y, DY(d))
  {
    var n := Step(c, d);
    RayShift(c, d, 0);
    if OnBoard(n) && At(b, n) == o {
      forall i | 1 <= i
        ensures Ray(n, d, i) == Ray(c, d, i + 1)
      {
        RayShift(c, d, i);
      }
      RunFrame(b, b', n, d, o);
    }
  }

  /** The run that FlipDir flips, read off the original board. */
  ghost predicate InFlippedRun(b: Board, c: Pos, d: Dir, p: int, e: Pos)
    requires OnBoard(c)
  {
    Anchored(b, c, d, p) && e in Run(b, c, d, Opponent(p))
  }

  /** One direction, on a board that agrees with b0 along that direction. */
  lemma FlipDirSpec(b0: Board, b: Board, c: Pos, d: Dir, p: int)
    requires OnBoard(c) && AgreeOnRay(b, b0, c, d)
    ensures forall e :: OnBoard(e) ==>
      At(FlipDir(b, c, d, p), e) == if InFlippedRun(b0, c, d, p, e) then p else At(b, e)
  {
    var o := Opponent(p);
    RunFrame(b, b0, c, d, o);
    RunShape(b0, c, d, o);
  }

  /** No run flipped along one of the first n - 1 directions reaches the ray
      of the n-th. */
  lemma EarlierRunsMissRay(b0: Board, c: Pos, p: int, n: int, i: int, e: Pos)
    requires OnBoard(c) && 0 < n <= |Directions| && 1 <= i && e == Ray(c, Directions[n - 1], i)
    ensures forall d' :: d' in Directions[..n - 1] ==> !InFlippedRun(b0, c, d', p, e)
  {
    var d := Directions[n - 1];
    DirectionsComplete();
    forall d' | d' in Directions[..n - 1]
      ensures !InFlippedRun(b0, c, d', p, e)
    {
      var j :| 0 <= j < n - 1 && Directions[..n - 1][j] == d';
      assert Directions[j] == d' && d != d';
      RunOffOtherRay(b0, c, d', d, Opponent(p), i);
    }
  }

  /** A cell lies in a flipped run of the first n directions exactly when it
      does for the first n - 1 or for the n-th. */
  lemma FlippedRunsSplit(b0: Board, c: Pos, p: int, n: int, e: Pos)
    requires OnBoard(c) && 0 < n <= |Directions|
    ensures (exists d :: d in Directions[..n] && InFlippedRun(b0, c, d, p, e)) <==>
      (exists d :: d in Directions[..n - 1] && InFlippedRun(b0, c, d, p, e))
        || InFlippedRun(b0, c, Directions[n - 1], p, e)
  {
    assert Directions[..n] == Directions[..n - 1] + [Directions[n - 1]];
  }

  /** The first n directions, on a board that agrees with b0 along every ray from c. */
  lemma {:induction false} FlipDirsSpec(b0: Board, b: Board, c: Pos, p: int, n: int)
    requires OnBoard(c) && 0 <= n <= |Directions|
    requires forall d :: AgreeOnRay(b, b0, c, d)
    ensures forall e :: OnBoard(e) ==>
      At(FlipDirs(b, c, p, n), e) ==
        if exists d :: d in Directions[..n] && InFlippedRun(b0, c, d, p, e) then p else At(b, e)
  {
    if n > 0 {
      var d := Directions[n - 1];
      var b1 := FlipDirs(b, c, p, n - 1);
      FlipDirsSpec(b0, b, c, p, n - 1);
      forall i | 1 <= i && OnBoard(Ray(c, d, i))
        ensures At(b1, Ray(c, d, i)) == At(b0, Ray(c, d, i))
      {
        EarlierRunsMissRay(b0, c, p, n, i, Ray(c, d, i));
        assert AgreeOnRay(b, b0, c, d);
      }
      FlipDirSpec(b0, b1, c, d, p);
      forall e | OnBoard(e)
        ensures At(FlipDirs(b, c, p, n), e) ==
          if exists d :: d in Directions[..n] && InFlippedRun(b0, c, d, p, e) then p else At(b, e)
      {
        FlippedRunsSplit(b0, c, p, n, e);
      }
    }
  }

  /** The runs flipped direction by direction are exactly the captured cells. */
  lemma FlippedIffCaptured(b: Board, c: Pos, p: int, e: Pos)
    requires OnBoard(c)
    ensures (exists d :: d in Directions && InFlippedRun(b, c, d, p, e)) <==> Captured(b, c, p, e)
  {
    DirectionsComplete();
    var o := Opponent(p);
    if exists d :: d in Directions && InFlippedRun(b, c, d, p, e) {
      var d :| d in Directions && InFlippedRun(b, c, d, p, e);
      var run := Run(b, c, d, o);
      RunShape(b, c, d, o);
      CapturesGivesAnchoredRun(b, c, d, p);
      var j :| 0 <= j < |run| && run[j] == e;
      assert AnchoredRun(b, c, d, p, |run|) && 1 <= j + 1 <= |run| && e == Ray(c, d, j + 1);
    }
    if Captured(b, c, p, e) {
      var d, k, i :| AnchoredRun(b, c, d, p, k) && 1 <= i <= k && e == Ray(c, d, i);
      AnchoredRunLength(b, c, d, p, k);
      RunShape(b, c, d, o);
      assert Run(b, c, d, o)[i - 1] == e;
      assert d in Directions && InFlippedRun(b, c, d, p, e);
    }
  }

  /** After the move, (x, y) holds p, every captured cell holds p, and every
      other cell is unchanged. */
  lemma MakeMoveSpec(b: Board, x: int, y: int, p: int)
    requires OnBoard(Pos(x, y))
    ensures At(MakeMove(b, x, y, p), Pos(x, y)) == p
    ensures forall e :: OnBoard(e) && e != Pos(x, y) ==>
      At(MakeMove(b, x, y, p), e) == if Captured(b, Pos(x, y), p, e) then p else At(b, e)
  {
    var c := Pos(x, y);
    var b1 := Put(b, c, p);
    DirectionsComplete();
    forall d
      ensures AgreeOnRay(b1, b, c, d)
    {
    }
    FlipDirsSpec(b, b1, c, p, |Directions|);
    assert Directions[..|Directions|] == Directions;
    forall e | OnBoard(e)
      ensures (exists d :: d in Directions && InFlippedRun(b, c, d, p, e)) <==> Captured(b, c, p, e)
    {
      FlippedIffCaptured(b, c, p, e);
    }
  }

  // ---------------------------------------------------------------------
  // Disc accounting.
  // ---------------------------------------------------------------------

  /** Number of positions where s holds o and t holds p. */
  function Flips(s: seq<int>, t: seq<int>, o: int, p: int): nat
    requires |s| == |t|
  {
    if s == [] then 0
    else (if s[0] == o && t[0] == p then 1 else 0) + Flips(s[1..], t[1..], o, p)
  }

  /** Number of opponent discs that the move of p turned into discs of p. */
  function Flipped(b: Board, r: Board, p: int): nat {
    Flips(b, r, Opponent(p), p)
  }

  /** Counting across a change that fills at most one empty position j with
      p and otherwise only turns o into p. */
  lemma {:induction false} CountAfterPlacement(s: seq<int>, t: seq<int>, j: int, o: int, p: int)
    requires |s| == |t| && p != o && p != 0 && o != 0
    requires forall i :: 0 <= i < |s| && i != j ==> t[i] == s[i] || (s[i] == o && t[i] == p)
    requires 0 <= j < |s| ==> s[j] == 0 && t[j] == p
    ensures var placed := if 0 <= j < |s| then 1 else 0;
      && Count(t, p) == Count(s, p) + placed + Flips(s, t, o, p)
      && Count(t, o) == Count(s, o) - Flips(s, t, o, p)
      && Count(t, 0) == Count(s, 0) - placed
  {
    if s != [] {
      CountAfterPlacement(s[1..], t[1..], j - 1, o, p);
    }
  }

  lemma {:induction false} FlipsPositive(s: seq<int>, t: seq<int>, o: int, p: int, i: int)
    requires |s| == |t| && 0 <= i < |s| && s[i] == o && t[i] == p
    ensures Flips(s, t, o, p) >= 1
  {
    if i > 0 {
      FlipsPositive(s[1..], t[1..], o, p, i - 1);
    }
  }

  /** Cell by cell, the move fills (x, y) with p and otherwise either keeps a
      cell or turns an opponent disc into p. */
  lemma MakeMoveCellwise(b: Board, x: int, y: int, p: int)
    requires OnBoard(Pos(x, y))
    ensures var r := MakeMove(b, x, y, p);
      && r[Idx(Pos(x, y))] == p
      && forall i :: 0 <= i < 64 && i != Idx(Pos(x, y)) ==>
           r[i] == b[i] || (b[i] == Opponent(p) && r[i] == p)
  {
    var c := Pos(x, y);
    var r := MakeMove(b, x, y, p);
    MakeMoveSpec(b, x, y, p);
    forall i | 0 <= i < 64 && i != Idx(c)
      ensures r[i] == b[i] || (b[i] == Opponent(p) && r[i] == p)
    {
      var e := PosOf(i);
      assert At(r, e) == r[i] && At(b, e) == b[i];
      if Captured(b, c, p, e) {
        CapturedIsOpponent(b, c, p, e);
      }
    }
  }

  /** A placement that flanks a run flips at least one opponent disc. */
  lemma FlankingMoveFlips(b: Board, x: int, y: int, p: int)
    requires OnBoard(Pos(x, y)) && Flanks(b, Pos(x, y), p)
    ensures Flipped(b, MakeMove(b, x, y, p), p) >= 1
  {
    var c := Pos(x, y);
    var r := MakeMove(b, x, y, p);
    var d, k :| AnchoredRun(b, c, d, p, k);
    var e := Ray(c, d, 1);
    assert Captured(b, c, p, e);
    MakeMoveSpec(b, x, y, p);
    CapturedIsOpponent(b, c, p, e);
    assert At(r, e) == p;
    FlipsPositive(b, r, Opponent(p), p, Idx(e));
  }

  /** Placing a side's disc on an empty cell adds one disc and moves exactly
      the flipped discs from the opponent's count to the mover's. */
  lemma PlacementAccounting(b: Board, x: int, y: int, p: int)
    requires IsSide(p) && OnBoard(Pos(x, y)) && At(b, Pos(x, y)) == 0
    ensures var r := MakeMove(b, x, y, p);
      && Count(r, p) == Count(b, p) + 1 + Flipped(b, r, p)
      && Count(r, Opponent(p)) == Count(b, Opponent(p)) - Flipped(b, r, p)
      && Occupied(r) == Occupied(b) + 1
  {
    var r := MakeMove(b, x, y, p);
    MakeMoveCellwise(b, x, y, p);
    CountAfterPlacement(b, r, Idx(Pos(x, y)), Opponent(p), p);
  }

  /** A flanking placement on an empty cell: one disc more on the board, at
      least one flip, and the flipped discs move from one count to the other. */
  lemma FlankingMoveAccounting(b: Board, p: int, m: Pos)
    requires IsSide(p) && OnBoard(m) && At(b, m) == 0 && Flanks(b, m, p)
    ensures var r := MakeMove(b, m.x, m.y, p);
      && Flipped(b, r, p) >= 1
      && Count(r, p) == Count(b, p) + 1 + Flipped(b, r, p)
      && Count(r, Opponent(p)) == Count(b, Opponent(p)) - Flipped(b, r, p)
      && Occupied(r) == Occupied(b) + 1
  {
    assert Pos(m.x, m.y) == m;
    FlankingMoveFlips(b, m.x, m.y, p);
    PlacementAccounting(b, m.x, m.y, p);
  }

  /** A legal move of a side places one disc, flips at least one opponent
      disc, and moves exactly the flipped discs from one side's count to the
      other's. */
  lemma LegalMoveAccounting(b: Board, p: int, m: Pos)
    requires IsSide(p) && m in ValidMoves(b, p)
    ensures var r := MakeMove(b, m.x, m.y, p);
      && Flipped(b, r, p) >= 1
      && Count(r, p) == Count(b, p) + 1 + Flipped(b, r, p)
      && Count(r, Opponent(p)) == Count(b, Opponent(p)) - Flipped(b, r, p)
      && Occupied(r) == Occupied(b) + 1
  {
    ValidMovesFlanking(b, p, m);
    FlankingMoveAccounting(b, p, m);
  }
}
