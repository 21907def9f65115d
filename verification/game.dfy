/**
 The game engine: the board, the bounded undo history of executed moves and
 the end-of-game tracking flag. Every change is reported to observers; here
 the reports are an append-only trace of events carried in the game value,
 so the order in which an operation reports its changes can be stated.
 */
module Senku {
  import opened Boards
  import opened Stacks
  import opened Moves

  /** What observers are told: a cell gained or lost its peg, the undo history
      changed (with whether it is now empty, the one thing observers ask of
      it), or the game is over with the given number of pegs left. */
  datatype Event =
    | CellOn(cell: Coord)
    | CellOff(cell: Coord)
    | UndoStack(empty: bool)
    | GameOver(cellsLeft: nat)

  datatype Game = Game(board: Board, history: Stack<Move>, tracking: bool, trace: seq<Event>)

  /** Default depth of the undo history. */
  const MaxUndoActions: nat := 5

  /** End-of-game tracking is on by default. */
  const DefaultTracking: bool := true

  /** The engine's invariant: the board covers exactly the cross, the history
      respects its positive capacity, and it holds only well-formed moves. */
  predicate ValidGame(g: Game) {
    && ValidBoard(g.board)
    && g.history.Valid()
    && forall i :: 0 <= i < |g.history.data| ==> WellFormed(g.history.data[i])
  }

  /** The event that reports the current state of cell `c`. */
  function StateEvent(b: Board, c: Coord): Event
    requires c in b
  {
    if b[c] then CellOn(c) else CellOff(c)
  }

  //-------------------------------------------------------------------------
  // Cells
  //-------------------------------------------------------------------------

  /** Put a peg on `c` and report it; nothing else changes. */
  function FillCell(g: Game, c: Coord): (r: Game)
    ensures r.board.Keys == g.board.Keys + {c} && r.board[c]
    ensures ValidBoard(g.board) && c in Cells ==> ValidBoard(r.board)
    ensures forall k :: k in g.board && k != c ==> r.board[k] == g.board[k]
    ensures r.trace == g.trace + [CellOn(c)]
    ensures r.history == g.history && r.tracking == g.tracking
  {
    g.(board := g.board[c := true], trace := g.trace + [CellOn(c)])
  }

  /** Take the peg off `c` and report it; nothing else changes. */
  function EmptyCell(g: Game, c: Coord): (r: Game)
    ensures r.board.Keys == g.board.Keys + {c} && !r.board[c]
    ensures ValidBoard(g.board) && c in Cells ==> ValidBoard(r.board)
    ensures forall k :: k in g.board && k != c ==> r.board[k] == g.board[k]
    ensures r.trace == g.trace + [CellOff(c)]
    ensures r.history == g.history && r.tracking == g.tracking
  {
    g.(board := g.board[c := false], trace := g.trace + [CellOff(c)])
  }

  /** The reports of filling the cells of `cs`, in order. */
  function FillEvents(cs: seq<Coord>): seq<Event> {
    if cs == [] then [] else [CellOn(cs[0])] + FillEvents(cs[1..])
  }

  /** Fill the cells of `cs` one after the other. */
  function FillAll(g: Game, cs: seq<Coord>): (r: Game)
    ensures forall k :: k in r.board <==> k in g.board || k in cs
    ensures forall k :: k in cs ==> r.board[k]
    ensures forall k :: k in g.board && k !in cs ==> r.board[k] == g.board[k]
    ensures r.trace == g.trace + FillEvents(cs)
    ensures r.history == g.history && r.tracking == g.tracking
    decreases |cs|
  {
    if cs == [] then g
    else
      assert g.trace + [CellOn(cs[0])] + FillEvents(cs[1..]) == g.trace + ([CellOn(cs[0])] + FillEvents(cs[1..]));
      FillAll(FillCell(g, cs[0]), cs[1..])
  }

  /** The reports of laying out the board: one peg placed on each cell in
      board order, then the centre emptied. */
  function LayoutEvents(): seq<Event> {
    FillEvents(CellList()) + [CellOff(Center)]
  }

  /** Lay out the initial board: fill every cell, then empty the centre. Keys
      outside the cross, if any, are left alone. */
  function FillBoard(g: Game): (r: Game)
    ensures forall k :: k in r.board <==> k in g.board || k in Cells
    ensures forall c :: c in Cells ==> r.board[c] == (c != Center)
    ensures forall k :: k in g.board && k !in Cells ==> r.board[k] == g.board[k]
    ensures r.trace == g.trace + LayoutEvents()
    ensures r.history == g.history && r.tracking == g.tracking
  {
    CellListIsCells();
    assert g.trace + FillEvents(CellList()) + [CellOff(Center)] == g.trace + LayoutEvents();
    EmptyCell(FillAll(g, CellList()), Center)
  }

  /** A new game with the given undo depth and tracking setting. */
  function NewGame(capacity: nat, tracking: bool): (r: Game)
    ensures r.board == InitialBoard && ValidBoard(r.board) && OccupiedCount(r.board) == 32
    ensures r.history.IsEmpty() && r.history.size == capacity
    ensures r.tracking == tracking
    ensures r.trace == LayoutEvents()
    ensures capacity >= 1 ==> ValidGame(r)
  {
    InitialLayout();
    assert [] + LayoutEvents() == LayoutEvents();
    var r := FillBoard(Game(map[], NewStack(capacity), tracking, []));
    LaidOutIsInitial(r.board);
    r
  }

  /** The game the engine's constructor builds when given no arguments. */
  function DefaultGame(): (r: Game)
    ensures ValidGame(r) && r.board == InitialBoard
    ensures r.history.IsEmpty() && r.history.size == MaxUndoActions
    ensures r.tracking
  {
    NewGame(MaxUndoActions, DefaultTracking)
  }

  /** Turn end-of-game tracking on or off; nothing is reported. */
  function SetTracking(g: Game, track: bool): (r: Game)
    ensures r.tracking == track
    ensures r.board == g.board && r.history == g.history && r.trace == g.trace
  {
    g.(tracking := track)
  }

  //-------------------------------------------------------------------------
  // End of game
  //-------------------------------------------------------------------------

  /** What the end-of-game check reports on board `b`: nothing while some
      jump is possible, otherwise the game over with the pegs left. */
  function GameOverEvents(b: Board): seq<Event>
    requires ValidBoard(b)
  {
    if HasLegalMove(b) then [] else [GameOver(OccupiedCount(b))]
  }

  /** The end-of-game check as a state change: it only reports. */
  function CheckEnd(g: Game): (r: Game)
    requires ValidBoard(g.board)
    ensures r.board == g.board && r.history == g.history && r.tracking == g.tracking
    ensures HasLegalMove(g.board) ==> r.trace == g.trace
    ensures !HasLegalMove(g.board) ==> r.trace == g.trace + [GameOver(OccupiedCount(g.board))]
  {
    g.(trace := g.trace + GameOverEvents(g.board))
  }

  /** Some cell of `keys` is a legal destination for a jump from `p`. */
  predicate JumpAmong(b: Board, p: Coord, keys: seq<Coord>)
    requires ValidBoard(b) && p in Cells && AllCells(keys)
  {
    exists a :: 0 <= a < |keys| && Legal(b, p, keys[a])
  }

  /** Some occupied cell of `keys` can jump to some cell of `keys`. */
  predicate MoveAmong(b: Board, keys: seq<Coord>)
    requires ValidBoard(b) && AllCells(keys)
  {
    exists a :: 0 <= a < |keys| && b[keys[a]] && JumpAmong(b, keys[a], keys)
  }

  /** The inner search of the end-of-game check: try every key, in order, as
      the destination of a jump from `p`, stopping at the first legal one. */
  method JumpFrom(b: Board, p: Coord, keys: seq<Coord>) returns (found: bool)
    requires ValidBoard(b) && p in Cells && AllCells(keys)
    ensures found <==> JumpAmong(b, p, keys)
  {
    var j := 0;
    while j < |keys|
      invariant 0 <= j <= |keys|
      invariant forall a :: 0 <= a < j ==> !Legal(b, p, keys[a])
    {
      var q := keys[j];
      if CheckDistance(p, q) && CheckCells(b, p, q) {
        assert Legal(b, p, keys[j]);
        return true;
      }
      j := j + 1;
    }
    return false;
  }

  /** The end-of-game search over the board keys in iteration order: every
      occupied key against every key, stopping at the first legal jump, and
      counting the occupied keys it has finished with. */
  method ScanKeys(b: Board, keys: seq<Coord>) returns (events: seq<Event>)
    requires ValidBoard(b) && AllCells(keys)
    ensures MoveAmong(b, keys) ==> events == []
    ensures !MoveAmong(b, keys) ==> events == [GameOver(Count(b, keys))]
  {
    var cellsLeft := 0;
    var i := 0;
    while i < |keys|
      invariant 0 <= i <= |keys|
      invariant cellsLeft == Count(b, keys[..i])
      invariant forall a :: 0 <= a < i && b[keys[a]] ==> !JumpAmong(b, keys[a], keys)
    {
      var p := keys[i];
      if b[p] {
        var found := JumpFrom(b, p, keys);
        if found {
          return [];
        }
        cellsLeft := cellsLeft + 1;
      }
      assert keys[..i + 1][..i] == keys[..i];
      i := i + 1;
    }
    assert keys[..i] == keys;
    events := [GameOver(cellsLeft)];
  }

  /** Over the board keys, the search finds a move exactly when one exists. */
  lemma MoveAmongCells(b: Board)
    requires ValidBoard(b)
    ensures AllCells(CellList())
    ensures MoveAmong(b, CellList()) <==> HasLegalMove(b)
  {
    ListedAreCells();
    var keys := CellList();
    if HasLegalMove(b) {
      var o, d :| o in Cells && d in Cells && b[o] && Legal(b, o, d);
      assert keys[IndexOf(d)] == d;
      assert JumpAmong(b, keys[IndexOf(o)], keys);
    }
  }

  /** The end-of-game check as the source runs it, over the board keys in
      iteration order. */
  method ScanForMove(b: Board) returns (events: seq<Event>)
    requires ValidBoard(b)
    ensures HasLegalMove(b) ==> events == []
    ensures !HasLegalMove(b) ==> events == [GameOver(OccupiedCount(b))]
  {
    MoveAmongCells(b);
    events := ScanKeys(b, CellList());
  }

  //-------------------------------------------------------------------------
  // Moves
  //-------------------------------------------------------------------------

  /** A move was executed: remember it (evicting the oldest when the history
      is full), report the history change, then run the end-of-game check if
      tracking is on. */
  function MovementDone(g: Game, m: Move): (r: Game)
    requires ValidGame(g) && WellFormed(m)
    ensures ValidGame(r)
    ensures r.board == g.board && r.tracking == g.tracking
    ensures r.history == Push(g.history, m)
    ensures r.trace == g.trace + [UndoStack(false)] + (if g.tracking then GameOverEvents(g.board) else [])
  {
    var h := Push(g.history, m);
    var g1 := g.(history := h, trace := g.trace + [UndoStack(h.IsEmpty())]);
    if g.tracking then CheckEnd(g1) else g1
  }

  /** The board effects of a legal move: empty the origin, fill the
      destination, empty the midpoint, in that order. */
  function ApplyJump(g: Game, m: Move): (r: Game)
    requires ValidBoard(g.board) && WellFormed(m)
    ensures ValidBoard(r.board)
    ensures !r.board[m.origin] && r.board[m.dest] && !r.board[m.mid]
    ensures forall k :: k in g.board && k != m.origin && k != m.dest && k != m.mid ==> r.board[k] == g.board[k]
    ensures r.trace == g.trace + [CellOff(m.origin), CellOn(m.dest), CellOff(m.mid)]
    ensures r.history == g.history && r.tracking == g.tracking
  {
    WellFormedCells(m);
    assert g.trace + [CellOff(m.origin)] + [CellOn(m.dest)] + [CellOff(m.mid)] == g.trace + [CellOff(m.origin), CellOn(m.dest), CellOff(m.mid)];
    EmptyCell(FillCell(EmptyCell(g, m.origin), m.dest), m.mid)
  }

  /** Execute the move from `o` to `d`: if it breaks the distance or the
      occupancy rule nothing happens; otherwise its board effects are applied
      and the move is recorded. */
  function Execute(g: Game, o: Coord, d: Coord): (r: Game)
    requires ValidGame(g) && o in Cells && d in Cells
    ensures ValidGame(r)
    ensures !Legal(g.board, o, d) ==> r == g
    ensures Legal(g.board, o, d) ==>
              && !r.board[o] && r.board[d] && !r.board[Mid(o, d)]
              && (forall k :: k in g.board && k != o && k != d && k != Mid(o, d) ==> r.board[k] == g.board[k])
              && r.tracking == g.tracking
              && r.history == Push(g.history, MakeMove(o, d))
              && r.trace == g.trace + [CellOff(o), CellOn(d), CellOff(Mid(o, d))] + [UndoStack(false)]
                                    + (if g.tracking then GameOverEvents(r.board) else [])
  {
    var m := MakeMove(o, d);
    if CheckDistance(o, d) && CheckCells(g.board, o, d) then
      MovementDone(ApplyJump(g, m), m)
    else
      g
  }

  /** Reverse a move: fill the origin, fill the midpoint, empty the
      destination, in that order. */
  function RevertMove(g: Game, m: Move): (r: Game)
    requires ValidBoard(g.board) && WellFormed(m)
    ensures ValidBoard(r.board)
    ensures r.board[m.origin] && r.board[m.mid] && !r.board[m.dest]
    ensures forall k :: k in g.board && k != m.origin && k != m.mid && k != m.dest ==> r.board[k] == g.board[k]
    ensures r.trace == g.trace + [CellOn(m.origin), CellOn(m.mid), CellOff(m.dest)]
    ensures r.history == g.history && r.tracking == g.tracking
  {
    WellFormedCells(m);
    assert g.trace + [CellOn(m.origin)] + [CellOn(m.mid)] + [CellOff(m.dest)] == g.trace + [CellOn(m.origin), CellOn(m.mid), CellOff(m.dest)];
    EmptyCell(FillCell(FillCell(g, m.origin), m.mid), m.dest)
  }

  /** Undo the newest move: pop it, reverse it, report the history change.
      The end-of-game check is not run. */
  function Undo(g: Game): (r: Game)
    requires ValidGame(g) && !g.history.IsEmpty()
    ensures ValidGame(r)
    ensures var m := g.history.data[|g.history.data| - 1];
            && r.history.data + [m] == g.history.data
            && r.history.size == g.history.size
            && r.board[m.origin] && r.board[m.mid] && !r.board[m.dest]
            && (forall k :: k in g.board && k != m.origin && k != m.mid && k != m.dest ==> r.board[k] == g.board[k])
            && r.trace == g.trace + [CellOn(m.origin), CellOn(m.mid), CellOff(m.dest)] + [UndoStack(r.history.IsEmpty())]
    ensures r.tracking == g.tracking
  {
    var (rest, m) := Pop(g.history);
    assert m == g.history.data[|g.history.data| - 1];
    var g1 := RevertMove(g.(history := rest), m);
    g1.(trace := g1.trace + [UndoStack(rest.IsEmpty())])
  }

  //-------------------------------------------------------------------------
  // Whole-game operations
  //-------------------------------------------------------------------------

  /** Laying out a board over the cross gives the initial board. */
  function Relaid(g: Game): (r: Game)
    requires ValidBoard(g.board)
    ensures r.board == InitialBoard && ValidBoard(r.board)
    ensures r.trace == g.trace + LayoutEvents()
    ensures r.history == g.history && r.tracking == g.tracking
  {
    var r := FillBoard(g);
    LaidOutIsInitial(r.board);
    InitialLayout();
    r
  }

  /** Start over: lay out the initial board, empty the history, report the
      history change. The tracking setting survives. */
  function Restart(g: Game): (r: Game)
    requires ValidGame(g)
    ensures ValidGame(r) && r.board == InitialBoard
    ensures r.history.IsEmpty() && r.history.size == g.history.size
    ensures r.tracking == g.tracking
    ensures r.trace == g.trace + LayoutEvents() + [UndoStack(true)]
  {
    var g1 := Relaid(g);
    g1.(history := MakeEmpty(g1.history), trace := g1.trace + [UndoStack(true)])
  }

  /** The reports of every cell of `cs` in its current state, in order. */
  function CellEvents(b: Board, cs: seq<Coord>): (es: seq<Event>)
    requires forall i :: 0 <= i < |cs| ==> cs[i] in b
    ensures |es| == |cs|
    ensures forall i :: 0 <= i < |cs| ==> es[i] == StateEvent(b, cs[i])
  {
    if cs == [] then [] else [StateEvent(b, cs[0])] + CellEvents(b, cs[1..])
  }

  /** Replay the whole state for a new observer: the history, then every cell
      in board order. Nothing changes. */
  function GetAllChanges(g: Game): (r: Game)
    requires ValidBoard(g.board)
    ensures r.board == g.board && r.history == g.history && r.tracking == g.tracking
    ensures |r.trace| == |g.trace| + 1 + |CellList()| && r.trace[..|g.trace|] == g.trace
    ensures r.trace[|g.trace|] == UndoStack(g.history.IsEmpty())
    ensures forall i :: 0 <= i < |CellList()| ==> r.trace[|g.trace| + 1 + i] == StateEvent(g.board, CellList()[i])
  {
    ListedAreCells();
    g.(trace := g.trace + [UndoStack(g.history.IsEmpty())] + CellEvents(g.board, CellList()))
  }
}
