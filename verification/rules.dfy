/**
 Legal-move generation: the eight-direction walk over opponent discs, the
 per-cell direction loop with its early exit, and the row-major scan of the
 board. Alongside the program's procedure sits a declarative reading of the
 Reversi rule (an opponent run anchored by an own disc), and the two are
 proved to agree.
 */
module Rules {
  import opened ReversiBoard

  /** The eight neighbour offsets, named by compass point with x the row
      (growing downwards) and y the column. */
  datatype Dir = NW | N | NE | W | E | SW | S | SE

  function DX(d: Dir): int {
    match d
    case NW | N | NE => -1
    case W | E => 0
    case SW | S | SE => 1
  }

  function DY(d: Dir): int {
    match d
    case NW | W | SW => -1
    case N | S => 0
    case NE | E | SE => 1
  }

  /** The directions in the order the program tries them. */
  const Directions: seq<Dir> := [NW, N, NE, W, E, SW, S, SE]

  predicate Distinct(ds: seq<Dir>) {
    forall i, j :: 0 <= i < j < |ds| ==> ds[i] != ds[j]
  }

  /** The (row, column) offset of each listed direction, in the same order. */
  function Offsets(): (os: seq<(int, int)>)
    ensures |os| == |Directions|
  {
    seq(|Directions|, i requires 0 <= i < |Directions| => (DX(Directions[i]), DY(Directions[i])))
  }

  /** The direction list holds every direction once, and its offsets are the
      program's eight neighbour offsets in the program's order, so every
      non-zero unit offset is walked. */
  lemma DirectionsComplete()
    ensures forall d: Dir :: d in Directions
    ensures Distinct(Directions)
    ensures Offsets() == [(-1, -1), (-1, 0), (-1, 1), (0, -1), (0, 1), (1, -1), (1, 0), (1, 1)]
    ensures forall dx, dy :: -1 <= dx <= 1 && -1 <= dy <= 1 && (dx, dy) != (0, 0) ==>
      exists d :: d in Directions && DX(d) == dx && DY(d) == dy
  {
    var os := Offsets();
    assert os[0] == (-1, -1) && os[1] == (-1, 0) && os[2] == (-1, 1) && os[3] == (0, -1);
    assert os[4] == (0, 1) && os[5] == (1, -1) && os[6] == (1, 0) && os[7] == (1, 1);
    forall dx, dy | -1 <= dx <= 1 && -1 <= dy <= 1 && (dx, dy) != (0, 0)
      ensures exists d :: d in Directions && DX(d) == dx && DY(d) == dy
    {
      var d := if dx == -1 then (if dy == -1 then NW else if dy == 0 then N else NE)
               else if dx == 0 then (if dy == -1 then W else E)
               else (if dy == -1 then SW else if dy == 0 then S else SE);
      assert d in Directions;
    }

    forall d: Dir
      ensures d in Directions
    {
      match d
      case NW => assert Directions[0] == d;
      case N => assert Directions[1] == d;
      case NE => assert Directions[2] == d;
      case W => assert Directions[3] == d;
      case E => assert Directions[4] == d;
      case SW => assert Directions[5] == d;
      case S => assert Directions[6] == d;
      case SE => assert Directions[7] == d;
    }
  }

  /** One step from c along d. */
  function Step(c: Pos, d: Dir): Pos {
    Pos(c.x + DX(d), c.y + DY(d))
  }

  /** The coordinate c moved i times by the unit offset k (that is, c + i * k). */
  function Along(c: int, k: int, i: int): int {
    if k == 0 then c else if k > 0 then c + i else c - i
  }

  /** The cell i steps from c along d. */
  function Ray(c: Pos, d: Dir, i: int): Pos {
    Pos(Along(c.x, DX(d), i), Along(c.y, DY(d), i))
  }

  /** How many steps a coordinate can still take along offset k before it leaves 0..7. */
  function Span(c: int, k: int): int {
    if k > 0 then 8 - c else if k < 0 then c + 1 else 0
  }

  /** The cells the walk from c along d passes over while they hold o: the
      cells the program steps across, and collects for flipping. */
  function Run(b: Board, c: Pos, d: Dir, o: int): (cells: seq<Pos>)
    requires OnBoard(c)
    ensures forall e :: e in cells ==> OnBoard(e) && At(b, e) == o
    decreases Span(c.x, DX(d)) + Span(c.y, DY(d))
  {
    var n := Step(c, d);
    if OnBoard(n) && At(b, n) == o then [n] + Run(b, n, d, o) else []
  }

  /** The cell where that walk halts: the first one off the board or not holding o. */
  function Stop(b: Board, c: Pos, d: Dir, o: int): Pos
    requires OnBoard(c)
    decreases Span(c.x, DX(d)) + Span(c.y, DY(d))
  {
    var n := Step(c, d);
    if OnBoard(n) && At(b, n) == o then Stop(b, n, d, o) else n
  }

  /** The walk over p's opponent along d halts on a disc of p. */
  predicate Anchored(b: Board, c: Pos, d: Dir, p: int)
    requires OnBoard(c)
  {
    var s := Stop(b, c, d, Opponent(p));
    OnBoard(s) && At(b, s) == p
  }

  /** The direction test of the move generator: at least one opponent disc
      was crossed and the walk halted on p's own disc. */
  predicate Captures(b: Board, c: Pos, d: Dir, p: int)
    requires OnBoard(c)
  {
    |Run(b, c, d, Opponent(p))| > 0 && Anchored(b, c, d, p)
  }

  /** The direction loop over the first n directions: whether one of them
      captures (stopping at the first that does gives the same answer). */
  predicate AnyCapture(b: Board, c: Pos, p: int, n: int)
    requires OnBoard(c) && 0 <= n <= |Directions|
  {
    n > 0 && (AnyCapture(b, c, p, n - 1) || Captures(b, c, Directions[n - 1], p))
  }

  /** The per-cell test: the cell is empty and some direction captures. */
  predicate LegalAt(b: Board, c: Pos, p: int)
    requires OnBoard(c)
  {
    At(b, c) == 0 && AnyCapture(b, c, p, |Directions|)
  }

  /** The row-major scan of the first n cells, keeping each cell that passes the test once. */
  function Scan(b: Board, p: int, n: int): (ms: seq<Pos>)
    requires 0 <= n <= 64
    ensures forall m :: m in ms ==> OnBoard(m) && Idx(m) < n && At(b, m) == 0
    ensures RowMajor(ms)
  {
    if n == 0 then []
    else Scan(b, p, n - 1) + (if LegalAt(b, PosOf(n - 1), p) then [PosOf(n - 1)] else [])
  }

  /** Cells listed in strictly increasing row-major order (so each at most once). */
  predicate RowMajor(ms: seq<Pos>) {
    forall i, j :: 0 <= i < j < |ms| ==> Idx(ms[i]) < Idx(ms[j])
  }

  /** The legal moves of p: every cell passing the per-cell test, each once, in row-major order. */
  function ValidMoves(b: Board, p: int): (ms: seq<Pos>)
    ensures forall m :: m in ms ==> OnBoard(m) && At(b, m) == 0
    ensures RowMajor(ms)
  {
    Scan(b, p, |b|)
  }

  /** The legal moves are exactly the cells that pass the per-cell test. */
  lemma ValidMovesIffLegalAt(b: Board, p: int, c: Pos)
    requires OnBoard(c)
    ensures c in ValidMoves(b, p) <==> LegalAt(b, c, p)
  {
    ScanSpec(b, p, |b|);
  }

  lemma {:induction false} ScanSpec(b: Board, p: int, n: int)
    requires 0 <= n <= 64
    ensures forall m :: m in Scan(b, p, n) ==> OnBoard(m) && LegalAt(b, m, p)
    ensures forall c :: OnBoard(c) && Idx(c) < n && LegalAt(b, c, p) ==> c in Scan(b, p, n)
  {
    if n > 0 {
      ScanSpec(b, p, n - 1);
      var c := PosOf(n - 1);
      forall e | OnBoard(e) && Idx(e) < n && LegalAt(b, e, p)
        ensures e in Scan(b, p, n)
      {
        if Idx(e) == n - 1 {
          IdxInjective(e, c);
        }
      }
    }
  }

  // ---------------------------------------------------------------------
  // The rule stated declaratively, and its agreement with the walk.
  // ---------------------------------------------------------------------

  /** Cells 1..k from c along d hold p's opponent and cell k + 1 holds p,
      all of them on the board, with k at least 1. */
  ghost predicate AnchoredRun(b: Board, c: Pos, d: Dir, p: int, k: int) {
    && 1 <= k
    && (forall i :: 1 <= i <= k ==> OnBoard(Ray(c, d, i)) && At(b, Ray(c, d, i)) == Opponent(p))
    && OnBoard(Ray(c, d, k + 1)) && At(b, Ray(c, d, k + 1)) == p
  }

  /** Placing p at c would flank an opponent run in some direction. */
  ghost predicate Flanks(b: Board, c: Pos, p: int) {
    exists d, k :: AnchoredRun(b, c, d, p, k)
  }

  lemma RayShift(c: Pos, d: Dir, i: int)
    ensures Ray(Step(c, d), d, i) == Ray(c, d, i + 1)
    ensures Ray(c, d, 1) == Step(c, d)
  {
  }

  /** The walk passes over exactly the rays 1..n and halts at ray n + 1, which is off the board or not o. */
  lemma {:induction false} RunShape(b: Board, c: Pos, d: Dir, o: int)
    requires OnBoard(c)
    ensures forall i :: 0 <= i < |Run(b, c, d, o)| ==>
      var e := Run(b, c, d, o)[i];
      e == Ray(c, d, i + 1) && OnBoard(e) && At(b, e) == o
    ensures Stop(b, c, d, o) == Ray(c, d, |Run(b, c, d, o)| + 1)
    ensures !(OnBoard(Stop(b, c, d, o)) && At(b, Stop(b, c, d, o)) == o)
    decreases Span(c.x, DX(d)) + Span(c.y, DY(d))
  {
    var n := Step(c, d);
    if OnBoard(n) && At(b, n) == o {
      RunShape(b, n, d, o);
      var run := Run(b, c, d, o);
      forall i | 0 <= i < |run|
        ensures run[i] == Ray(c, d, i + 1)
      {
        RayShift(c, d, i);
        if i > 0 {
          RayShift(n, d, i - 1);
          RayShift(c, d, i);
          calc {
            run[i];
            Run(b, n, d, o)[i - 1];
            Ray(n, d, i);
            { RayShift(c, d, i); }
            Ray(c, d, i + 1);
          }
        }
      }
      RayShift(c, d, |Run(b, n, d, o)| + 1);
    }
  }

  /** Conversely, k opponent discs followed by a cell that ends the walk make a walk of length k. */
  lemma {:induction false} RunLengthExact(b: Board, c: Pos, d: Dir, o: int, k: nat)
    requires OnBoard(c)
    requires forall i :: 1 <= i <= k ==> OnBoard(Ray(c, d, i)) && At(b, Ray(c, d, i)) == o
    requires !(OnBoard(Ray(c, d, k + 1)) && At(b, Ray(c, d, k + 1)) == o)
    ensures |Run(b, c, d, o)| == k
    ensures Stop(b, c, d, o) == Ray(c, d, k + 1)
    decreases k
  {
    var n := Step(c, d);
    RayShift(c, d, 0);
    if k > 0 {
      assert OnBoard(Ray(c, d, 1));
      forall i | 0 <= i <= k
        ensures Ray(n, d, i) == Ray(c, d, i + 1)
      {
        RayShift(c, d, i);
      }
      RunLengthExact(b, n, d, o, k - 1);
    }
  }

  /** An anchored run has exactly the length of the walk's run, and the walk halts at its anchor. */
  lemma AnchoredRunLength(b: Board, c: Pos, d: Dir, p: int, k: int)
    requires OnBoard(c) && AnchoredRun(b, c, d, p, k)
    ensures k == |Run(b, c, d, Opponent(p))|
    ensures Stop(b, c, d, Opponent(p)) == Ray(c, d, k + 1)
    ensures Captures(b, c, d, p)
  {
    RunLengthExact(b, c, d, Opponent(p), k);
  }

  /** A walk that crosses opponent discs and halts on p's disc is an anchored run of its own length. */
  lemma CapturesGivesAnchoredRun(b: Board, c: Pos, d: Dir, p: int)
    requires OnBoard(c) && Captures(b, c, d, p)
    ensures AnchoredRun(b, c, d, p, |Run(b, c, d, Opponent(p))|)
  {
    var o := Opponent(p);
    var run := Run(b, c, d, o);
    RunShape(b, c, d, o);
    forall i | 1 <= i <= |run|
      ensures OnBoard(Ray(c, d, i)) && At(b, Ray(c, d, i)) == o
    {
      assert run[i - 1] == Ray(c, d, i);
    }
  }

  /** The walk's direction test is the anchored-run rule. */
  lemma CapturesIffAnchoredRun(b: Board, c: Pos, d: Dir, p: int)
    requires OnBoard(c)
    ensures Captures(b, c, d, p) <==> exists k :: AnchoredRun(b, c, d, p, k)
  {
    if Captures(b, c, d, p) {
      CapturesGivesAnchoredRun(b, c, d, p);
    }
    if exists k :: AnchoredRun(b, c, d, p, k) {
      var k :| AnchoredRun(b, c, d, p, k);
      AnchoredRunLength(b, c, d, p, k);
    }
  }

  lemma {:induction false} AnyCaptureIff(b: Board, c: Pos, p: int, n: int)
    requires OnBoard(c) && 0 <= n <= |Directions|
    ensures AnyCapture(b, c, p, n) <==> exists d :: d in Directions[..n] && Captures(b, c, d, p)
  {
    if n > 0 {
      AnyCaptureIff(b, c, p, n - 1);
      assert Directions[..n] == Directions[..n - 1] + [Directions[n - 1]];
    }
  }

  /** The per-cell test is the Reversi rule: the cell is empty and placing p there flanks a run. */
  lemma LegalAtIffFlanks(b: Board, c: Pos, p: int)
    requires OnBoard(c)
    ensures LegalAt(b, c, p) <==> At(b, c) == 0 && Flanks(b, c, p)
  {
    AnyCaptureIff(b, c, p, |Directions|);
    assert Directions[..|Directions|] == Directions;
    DirectionsComplete();
    if Flanks(b, c, p) {
      var d, k :| AnchoredRun(b, c, d, p, k);
      CapturesIffAnchoredRun(b, c, d, p);
    }
    if AnyCapture(b, c, p, |Directions|) {
      var d :| d in Directions && Captures(b, c, d, p);
      CapturesIffAnchoredRun(b, c, d, p);
    }
  }

  /** A cell is a legal move of p exactly when it is on the board, empty,
      and flanks an opponent run in some direction. */
  lemma ValidMovesFlanking(b: Board, p: int, c: Pos)
    ensures c in ValidMoves(b, p) <==> OnBoard(c) && At(b, c) == 0 && Flanks(b, c, p)
  {
    if OnBoard(c) {
      ValidMovesIffLegalAt(b, p, c);
      LegalAtIffFlanks(b, c, p);
    }
  }
}
