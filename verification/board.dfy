/**
 The Reversi board: an 8x8 grid of integer cells (0 empty, 1 and 2 the two
 sides), its opening layout and disc counting.

 The grid is stored row-major in one sequence of 64 cells, so that the cell
 in row x, column y sits at index 8 * x + y. Copying a board is copying a
 value, which is what the search's per-branch deep copies amount to.
 */
module ReversiBoard {

  /** A coordinate pair (row, column). */
  datatype Pos = Pos(x: int, y: int)

  type Board = b: seq<int> | |b| == 64 witness seq(64, _ => 0)

  /** Bounds test: both coordinates lie in 0..7. */
  predicate OnBoard(c: Pos) {
    0 <= c.x < 8 && 0 <= c.y < 8
  }

  /** Row-major index of a cell. */
  function Idx(c: Pos): int {
    8 * c.x + c.y
  }

  /** The cell stored at a row-major index. */
  function PosOf(i: int): (c: Pos)
    requires 0 <= i < 64
    ensures OnBoard(c) && Idx(c) == i
  {
    Pos(i / 8, i % 8)
  }

  lemma IdxInjective(c: Pos, e: Pos)
    requires OnBoard(c) && OnBoard(e) && Idx(c) == Idx(e)
    ensures c == e
  {
  }

  /** The bounds test admits exactly the cells that have a row-major index,
      each recovered from its index. */
  lemma OnBoardIsIndexed(c: Pos)
    ensures OnBoard(c) <==> 0 <= Idx(c) < 64 && PosOf(Idx(c)) == c
  {
  }

  function At(b: Board, c: Pos): int
    requires OnBoard(c)
  {
    b[Idx(c)]
  }

  /** The board with cell c set to v and every other cell unchanged. */
  function Put(b: Board, c: Pos, v: int): (r: Board)
    requires OnBoard(c)
    ensures At(r, c) == v
    ensures forall e :: OnBoard(e) && e != c ==> At(r, e) == At(b, e)
  {
    b[Idx(c) := v]
  }

  /** The two sides that play. */
  predicate IsSide(p: int) {
    p == 1 || p == 2
  }

  /** The opponent of p, computed the way the program does: 1 for side 2, 2 for anything else. */
  function Opponent(p: int): (o: int)
    ensures o != p && o != 0
    ensures IsSide(p) ==> IsSide(o) && o == 3 - p
  {
    if p == 2 then 1 else 2
  }

  function EmptyBoard(): Board {
    seq(64, _ => 0)
  }

  /** The opening position: side 2 on (3,3) and (4,4), side 1 on (3,4) and (4,3). */
  function Opening(): Board {
    var b := EmptyBoard();
    var b := Put(Put(b, Pos(3, 3), 2), Pos(4, 4), 2);
    Put(Put(b, Pos(3, 4), 1), Pos(4, 3), 1)
  }

  /** Number of cells of s that hold v. */
  function Count(s: seq<int>, v: int): nat {
    if s == [] then 0 else (if s[0] == v then 1 else 0) + Count(s[1..], v)
  }

  /** Number of non-empty cells. */
  function Occupied(b: Board): int {
    64 - Count(b, 0)
  }

  /** Discs of side 1 and of side 2, in that order. */
  function CountDiscs(b: Board): (int, int) {
    (Count(b, 1), Count(b, 2))
  }

  /** Counting agrees with the multiplicity of v in the multiset of cells. */
  lemma {:induction false} CountIsMultiplicity(s: seq<int>, v: int)
    ensures Count(s, v) == multiset(s)[v]
  {
    if s != [] {
      CountIsMultiplicity(s[1..], v);
      assert s == [s[0]] + s[1..];
      assert multiset(s) == multiset{s[0]} + multiset(s[1..]);
    }
  }

  /** Counting distributes over concatenation. */
  lemma {:induction false} CountAppend(s: seq<int>, t: seq<int>, v: int)
    ensures Count(s + t, v) == Count(s, v) + Count(t, v)
  {
    if s != [] {
      CountAppend(s[1..], t, v);
      assert (s + t)[1..] == s[1..] + t;
    } else {
      assert s + t == t;
    }
  }

  /** What the opening puts at each row-major index: side 2 at 27 and 36,
      that is (3,3) and (4,4); side 1 at 28 and 35, that is (3,4) and (4,3). */
  function Initial(i: int): int {
    if i == 27 || i == 36 then 2 else if i == 28 || i == 35 then 1 else 0
  }

  /** The opening layout cell by cell, by row-major index. */
  lemma OpeningCells()
    ensures forall i :: 0 <= i < 64 ==> Opening()[i] == Initial(i)
  {
  }

  /** The opening holds two discs per side and four occupied cells. */
  lemma OpeningLayout()
    ensures CountDiscs(Opening()) == (2, 2)
    ensures Occupied(Opening()) == 4
  {
    OpeningCounts(0);
    OpeningCounts(1);
    OpeningCounts(2);
  }

  /** The opening holds side 2 on (3,3) and (4,4), side 1 on (3,4) and
      (4,3), and leaves every other cell empty. */
  lemma OpeningAt()
    ensures forall c :: OnBoard(c) ==>
      At(Opening(), c) == (if c == Pos(3, 3) || c == Pos(4, 4) then 2
                           else if c == Pos(3, 4) || c == Pos(4, 3) then 1
                           else 0)
  {
    OpeningCells();
  }

  /** A run of equal cells counts fully or not at all. */
  lemma {:induction false} CountUniform(s: seq<int>, u: int, v: int)
    requires forall i :: 0 <= i < |s| ==> s[i] == u
    ensures Count(s, v) == if u == v then |s| else 0
  {
    if s != [] {
      CountUniform(s[1..], u, v);
    }
  }

  lemma OpeningCounts(v: int)
    ensures Count(Opening(), v) == if v == 0 then 60 else if v == 1 || v == 2 then 2 else 0
  {
    var b := Opening();
    OpeningCells();
    var pieces := [b[..27], b[27..29], b[29..35], b[35..37], b[37..]];
    assert b == pieces[0] + pieces[1] + pieces[2] + pieces[3] + pieces[4];
    CountUniform(pieces[0], 0, v);
    CountUniform(pieces[2], 0, v);
    CountUniform(pieces[4], 0, v);
    assert pieces[1] == [2, 1] && pieces[3] == [1, 2];
    assert Count([1], v) == (if v == 1 then 1 else 0) by { assert [1][1..] == []; }
    assert Count([2], v) == (if v == 2 then 1 else 0) by { assert [2][1..] == []; }
    assert Count([2, 1], v) == Count([2], v) + Count([1], v) by { assert [2, 1][1..] == [1]; }
    assert Count([1, 2], v) == Count([1], v) + Count([2], v) by { assert [1, 2][1..] == [2]; }
    CountAppend(pieces[0] + pieces[1] + pieces[2] + pieces[3], pieces[4], v);
    CountAppend(pieces[0] + pieces[1] + pieces[2], pieces[3], v);
    CountAppend(pieces[0] + pieces[1], pieces[2], v);
    CountAppend(pieces[0], pieces[1], v);
  }
}
