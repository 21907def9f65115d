/**
 The Senku board: a fixed cross of 33 cells on a 7x7 grid, each either
 holding a peg (true) or empty (false), and the jump rule that decides
 whether a peg may jump from one cell to another.
 */
module Boards {

  /** A board position: row and column, both 0-based. */
  datatype Coord = Coord(row: int, col: int)

  /** Occupancy of each board cell. */
  type Board = map<Coord, bool>

  /** The centre cell, the only empty one at the start of a game. */
  const Center: Coord := Coord(3, 3)

  /** Row of the `k`-th short-arm row, for k in 0..3: rows 0, 1, 5, 6. */
  function ArmRow(k: int): int {
    if k < 2 then k else k + 3
  }

  /** The `i`-th cell in the order the game fills them when it lays out the
      board: rows 0, 1, 5, 6 over columns 2..4 (12 cells), then rows 2, 3, 4
      over columns 0..6 (21 cells). */
  function CellAt(i: int): Coord {
    if i < 12 then Coord(ArmRow(i / 3), 2 + i % 3)
    else Coord(2 + (i - 12) / 7, (i - 12) % 7)
  }

  /** The 33 cells in fill order. Board keys are iterated in this order. */
  function CellList(): seq<Coord> {
    seq(33, CellAt)
  }

  /** The cross shape: the two short arms (rows 0, 1, 5, 6, columns 2..4)
      and the full middle band (rows 2..4, columns 0..6). */
  predicate IsCross(c: Coord) {
    || ((c.row == 0 || c.row == 1 || c.row == 5 || c.row == 6) && 2 <= c.col <= 4)
    || (2 <= c.row <= 4 && 0 <= c.col <= 6)
  }

  /** The set of board cells. */
  const Cells: set<Coord> := set r, k | 0 <= r < 7 && 0 <= k < 7 && IsCross(Coord(r, k)) :: Coord(r, k)

  predicate Distinct<T(==)>(s: seq<T>) {
    forall i, j :: 0 <= i < j < |s| ==> s[i] != s[j]
  }

  /** Every element of `keys` is a board cell. */
  predicate AllCells(keys: seq<Coord>) {
    forall i :: 0 <= i < |keys| ==> keys[i] in Cells
  }

  /** A board over exactly the 33 cross cells. */
  predicate ValidBoard(b: Board) {
    b.Keys == Cells
  }

  /** The initial layout: every cell holds a peg except the centre. */
  const InitialBoard: Board := map c | c in Cells :: c != Center

  /** Whether `c` is a key of `b` holding a peg. */
  predicate Occupied(b: Board, c: Coord) {
    c in b && b[c]
  }

  /** Number of cells of `cs` that hold a peg in `b`. */
  function Count(b: Board, cs: seq<Coord>): (n: nat)
    ensures n <= |cs|
  {
    if cs == [] then 0
    else Count(b, cs[..|cs| - 1]) + (if Occupied(b, cs[|cs| - 1]) then 1 else 0)
  }

  /** Number of pegs on the board. */
  function OccupiedCount(b: Board): nat {
    Count(b, CellList())
  }

  /** The distance rule: an orthogonal jump over exactly one cell. */
  predicate CheckDistance(o: Coord, d: Coord) {
    || ((o.row - d.row == 2 || d.row - o.row == 2) && o.col == d.col)
    || ((o.col - d.col == 2 || d.col - o.col == 2) && o.row == d.row)
  }

  /** The four cells a peg at `o` could jump to, ignoring the board edge. */
  function JumpTargets(o: Coord): set<Coord> {
    {Coord(o.row - 2, o.col), Coord(o.row + 2, o.col), Coord(o.row, o.col - 2), Coord(o.row, o.col + 2)}
  }

  /** The component-wise average of two cells, on integers. Under the
      distance rule the average is exact (the sums are even), so it is the
      same cell as the source's averaged tuple, and it lies strictly between
      the two cells. */
  function Mid(o: Coord, d: Coord): (m: Coord)
    ensures CheckDistance(o, d) ==>
              && 2 * m.row == o.row + d.row && 2 * m.col == o.col + d.col
              && o != d && m != o && m != d
  {
    Coord((o.row + d.row) / 2, (o.col + d.col) / 2)
  }

  /** The occupancy rule. Only evaluated once the distance rule holds, which
      puts the midpoint on the board. */
  predicate CheckCells(b: Board, o: Coord, d: Coord)
    requires ValidBoard(b) && o in Cells && d in Cells && CheckDistance(o, d)
  {
    MidpointOnBoard(o, d);
    b[o] && !b[d] && b[Mid(o, d)]
  }

  /** A jump the game accepts: the distance rule, then the occupancy rule. */
  predicate Legal(b: Board, o: Coord, d: Coord)
    requires ValidBoard(b) && o in Cells && d in Cells
  {
    CheckDistance(o, d) && CheckCells(b, o, d)
  }

  /** Some occupied cell can jump to some cell of the board. */
  predicate HasLegalMove(b: Board)
    requires ValidBoard(b)
  {
    exists o, d | o in Cells && d in Cells :: b[o] && Legal(b, o, d)
  }

  //-------------------------------------------------------------------------
  // The cell set
  //-------------------------------------------------------------------------

  /** A cell is a board cell exactly when it lies on the cross. */
  lemma CellsAreCross(c: Coord)
    ensures c in Cells <==> IsCross(c)
  {
    if IsCross(c) {
      assert c == Coord(c.row, c.col);
    }
  }

  /** The enumeration lists exactly the board cells. */
  lemma CellListIsCells()
    ensures forall c :: c in CellList() <==> c in Cells
  {
    forall c
      ensures c in CellList() <==> c in Cells
    {
      CellsAreCross(c);
      if c in Cells {
        CrossIsListed(c);
      }
    }
  }

  lemma CrossIsListed(c: Coord)
    requires IsCross(c)
    ensures c in CellList()
  {
    CellsAreCross(c);
    assert CellList()[IndexOf(c)] == c;
  }

  /** Position of a board cell in the fill order. */
  function IndexOf(c: Coord): (i: nat)
    requires c in Cells
    ensures i < |CellList()| && CellList()[i] == c
  {
    CellsAreCross(c);
    if c.row < 2 then c.row * 3 + c.col - 2
    else if c.row > 4 then (c.row - 3) * 3 + c.col - 2
    else 12 + (c.row - 2) * 7 + c.col
  }

  /** Every listed cell is a board cell. */
  lemma ListedAreCells()
    ensures AllCells(CellList())
  {
    forall i | 0 <= i < |CellList()|
      ensures CellList()[i] in Cells
    {
      CellsAreCross(CellList()[i]);
    }
  }

  lemma CellListDistinct()
    ensures Distinct(CellList())
  {
  }

  /** Each row and each column of the cross is contiguous, so the midpoint of
      a jump between two cells is itself a cell. */
  lemma MidpointOnBoard(o: Coord, d: Coord)
    requires o in Cells && d in Cells && CheckDistance(o, d)
    ensures Mid(o, d) in Cells
  {
    CellsAreCross(o);
    CellsAreCross(d);
    CellsAreCross(Mid(o, d));
  }

  /** The distance rule is symmetric and means "`d` is one of the four jump
      targets of `o`". */
  lemma DistanceIsJumpTarget(o: Coord, d: Coord)
    ensures CheckDistance(o, d) <==> d in JumpTargets(o)
    ensures CheckDistance(o, d) <==> CheckDistance(d, o)
  {
  }

  //-------------------------------------------------------------------------
  // Counting pegs
  //-------------------------------------------------------------------------

  /** Setting one cell changes the count by the difference at that cell. */
  lemma {:induction false} CountUpdate(b: Board, cs: seq<Coord>, c: Coord, v: bool)
    requires Distinct(cs)
    ensures Count(b[c := v], cs)
         == Count(b, cs) - (if c in cs && Occupied(b, c) then 1 else 0) + (if c in cs && v then 1 else 0)
  {
    if cs != [] {
      var init := cs[..|cs| - 1];
      assert Distinct(init);
      CountUpdate(b, init, c, v);
      if cs[|cs| - 1] == c {
        assert c !in init;
      } else {
        assert c in cs <==> c in init;
      }
    }
  }

  /** On the initial layout, every listed cell counts except the centre. */
  lemma {:induction false} CountInitial(cs: seq<Coord>)
    requires Distinct(cs) && AllCells(cs)
    ensures Count(InitialBoard, cs) == |cs| - (if Center in cs then 1 else 0)
  {
    if cs != [] {
      var init := cs[..|cs| - 1];
      assert Distinct(init);
      CountInitial(init);
      if cs[|cs| - 1] == Center {
        assert Center !in init;
      } else {
        assert Center in cs <==> Center in init;
      }
    }
  }

  /** The initial layout covers the 33 cross cells and holds 32 pegs, with the
      centre the one empty cell. */
  lemma InitialLayout()
    ensures ValidBoard(InitialBoard)
    ensures |CellList()| == 33 && |Cells| == 33
    ensures !InitialBoard[Center] && forall c :: c in Cells && c != Center ==> InitialBoard[c]
    ensures OccupiedCount(InitialBoard) == 32
  {
    CellListDistinct();
    CellListIsCells();
    CountInitial(CellList());
    DistinctCard(CellList());
    assert Cells == set c | c in CellList();
  }

  /** A board over the cross whose only empty cell is the centre is the
      initial layout. */
  lemma LaidOutIsInitial(b: Board)
    requires forall k :: k in b <==> k in Cells
    requires forall c :: c in Cells ==> b[c] == (c != Center)
    ensures b == InitialBoard
  {
  }

  /** Two boards with the same cells holding the same pegs are equal. */
  lemma SameBoard(a: Board, b: Board)
    requires forall k :: k in a <==> k in b
    requires forall k :: k in a ==> a[k] == b[k]
    ensures a == b
  {
  }

  lemma {:induction false} DistinctCard<T>(s: seq<T>)
    requires Distinct(s)
    ensures |set x | x in s| == |s|
  {
    if s != [] {
      assert Distinct(s[1..]);
      DistinctCard(s[1..]);
      assert (set x | x in s) == (set x | x in s[1..]) + {s[0]};
      assert s[0] !in s[1..];
    }
  }
}
