/**
 The engine as the two earliest releases wrote it, beside the current one.
 Release 0.2 does a move inline in the game: it fills the destination
 before it empties the origin, and its undo record recomputes the midpoint
 when it is undone. Release 0.1 has the same move order, no end-of-game
 tracking, and a stack family in which a plain bounded stack refuses a push
 when full while the dynamic one evicts. Release 0.5 is the current engine
 word for word and needs nothing here.

 Everything else in 0.2 is the current code: its stack, the board layout,
 the two movement rules, the end-of-game check, the full report and
 restart. So its move below records the move, and checks the end of the
 game, through the current engine's `MovementDone`.
 */
module Releases {
  import opened Boards
  import opened Stacks
  import opened Moves
  import opened Senku

  //-------------------------------------------------------------------------
  // Release 0.1 stacks
  //-------------------------------------------------------------------------

  /** The bounded stack's push, given what `can_push` answers for the stack's
      class: append when allowed, otherwise do nothing. */
  function GuardedPush<T>(s: Stack<T>, x: T, canPush: bool): (r: Stack<T>)
    ensures canPush ==> r.data == s.data + [x]
    ensures !canPush ==> r == s
    ensures r.size == s.size
  {
    if canPush then Stack(s.data + [x], s.size) else s
  }

  /** Release 0.1 `BoundedStack.push`: a full stack silently ignores the
      push. */
  function BoundedPush<T>(s: Stack<T>, x: T): (r: Stack<T>)
    ensures !s.IsFull() ==> r.data == s.data + [x] && r.size == s.size
    ensures s.IsFull() ==> r == s
    ensures s.Valid() ==> r.Valid()
  {
    GuardedPush(s, x, !s.IsFull())
  }

  /** Release 0.1 `DynamicBoundedStack.push`: drop the oldest entry when full,
      then the inherited push, which always appends because the dynamic
      stack's `can_push` answers true. */
  function DynamicPush<T>(s: Stack<T>, x: T): (r: Stack<T>)
    requires !(s.IsFull() && s.IsEmpty())
    ensures r.size == s.size && !r.IsEmpty() && r.data[|r.data| - 1] == x
    ensures s.IsFull() ==> r.data[..|r.data| - 1] == s.data[1..]
    ensures !s.IsFull() ==> r.data[..|r.data| - 1] == s.data
  {
    var kept := if s.IsFull() then Stack(s.data[1..], s.size) else s;
    GuardedPush(kept, x, true)
  }

  /** The release 0.1 dynamic stack behaves exactly like the current one. */
  lemma DynamicPushIsPush<T>(s: Stack<T>, x: T)
    requires !(s.IsFull() && s.IsEmpty())
    ensures DynamicPush(s, x) == Push(s, x)
  {
    var r := Push(s, x);
    assert r.data == r.data[..|r.data| - 1] + [x];
  }

  /** The two release 0.1 stacks agree until the stack is full; from then on
      the bounded one keeps its oldest entries and drops the new one, while
      the dynamic one keeps the newest. */
  lemma BoundedAgainstDynamic<T>(s: Stack<T>, x: T)
    requires s.Valid()
    ensures !s.IsFull() ==> BoundedPush(s, x) == DynamicPush(s, x)
    ensures s.IsFull() ==> BoundedPush(s, x).data == s.data
    ensures s.IsFull() ==> DynamicPush(s, x).data == s.data[1..] + [x]
  {
  }

  //-------------------------------------------------------------------------
  // Release 0.2 and 0.1 moves
  //-------------------------------------------------------------------------

  /** The board effects of a legal move in releases 0.1 and 0.2: fill the
      destination, empty the origin, empty the midpoint, in that order. */
  function EarlyJump(g: Game, m: Move): (r: Game)
    requires ValidBoard(g.board) && WellFormed(m)
    ensures ValidBoard(r.board)
    ensures !r.board[m.origin] && r.board[m.dest] && !r.board[m.mid]
    ensures forall k :: k in g.board && k != m.origin && k != m.dest && k != m.mid ==> r.board[k] == g.board[k]
    ensures r.trace == g.trace + [CellOn(m.dest), CellOff(m.origin), CellOff(m.mid)]
    ensures r.history == g.history && r.tracking == g.tracking
  {
    WellFormedCells(m);
    assert g.trace + [CellOn(m.dest)] + [CellOff(m.origin)] + [CellOff(m.mid)] == g.trace + [CellOn(m.dest), CellOff(m.origin), CellOff(m.mid)];
    EmptyCell(EmptyCell(FillCell(g, m.dest), m.origin), m.mid)
  }

  /** Release 0.2 `SenkuGame.move`: when both rules hold, the board effects in
      the early order, then the move is pushed, the history change reported
      and, with tracking on, the end of the game checked. */
  function Move02(g: Game, o: Coord, d: Coord): (r: Game)
    requires ValidGame(g) && o in Cells && d in Cells
    ensures ValidGame(r)
    ensures !Legal(g.board, o, d) ==> r == g
    ensures Legal(g.board, o, d) ==>
              && !r.board[o] && r.board[d] && !r.board[Mid(o, d)]
              && r.history == Push(g.history, MakeMove(o, d))
              && r.trace == g.trace + [CellOn(d), CellOff(o), CellOff(Mid(o, d))] + [UndoStack(false)]
                                    + (if g.tracking then GameOverEvents(r.board) else [])
  {
    var m := MakeMove(o, d);
    if CheckDistance(o, d) && CheckCells(g.board, o, d) then
      MovementDone(EarlyJump(g, m), m)
    else
      g
  }

  /** Release 0.1 recording of a move: push it on the release 0.1 dynamic
      stack and report the history change. */
  function Recorded01(g: Game, m: Move): (r: Game)
    requires ValidGame(g) && WellFormed(m)
    ensures ValidGame(r)
    ensures r.board == g.board && r.tracking == g.tracking
    ensures r.history == Push(g.history, m)
    ensures r.trace == g.trace + [UndoStack(false)]
  {
    DynamicPushIsPush(g.history, m);
    var h := DynamicPush(g.history, m);
    g.(history := h, trace := g.trace + [UndoStack(h.IsEmpty())])
  }

  /** Release 0.1 `SenkuGame.move`: the same effects, pushed on the release
      0.1 dynamic stack, with the history change reported and no end-of-game
      check. */
  function Move01(g: Game, o: Coord, d: Coord): (r: Game)
    requires ValidGame(g) && o in Cells && d in Cells
    ensures ValidGame(r) && r.tracking == g.tracking
    ensures !Legal(g.board, o, d) ==> r == g
    ensures Legal(g.board, o, d) ==>
              && !r.board[o] && r.board[d] && !r.board[Mid(o, d)]
              && r.history == Push(g.history, MakeMove(o, d))
              && r.trace == g.trace + [CellOn(d), CellOff(o), CellOff(Mid(o, d))] + [UndoStack(false)]
  {
    var m := MakeMove(o, d);
    if CheckDistance(o, d) && CheckCells(g.board, o, d) then
      Recorded01(EarlyJump(g, m), m)
    else
      g
  }

  /** The early effect order reaches the same board. */
  lemma EarlyJumpSameBoard(g: Game, m: Move)
    requires ValidGame(g) && WellFormed(m)
    ensures EarlyJump(g, m).board == ApplyJump(g, m).board
  {
    var a := EarlyJump(g, m).board;
    var b := ApplyJump(g, m).board;
    forall k | k in a
      ensures a[k] == b[k]
    {
    }
    SameBoard(a, b);
  }

  /** The release 0.2 move ends in the same state as the current one, and
      reports the same events except that the first two cell changes come in
      the other order. */
  lemma Move02AgainstExecute(g: Game, o: Coord, d: Coord)
    requires ValidGame(g) && o in Cells && d in Cells
    ensures Move02(g, o, d).board == Execute(g, o, d).board
    ensures Move02(g, o, d).history == Execute(g, o, d).history
    ensures Move02(g, o, d).tracking == Execute(g, o, d).tracking
    ensures Legal(g.board, o, d) ==>
              var tail := if g.tracking then GameOverEvents(Execute(g, o, d).board) else [];
              && Move02(g, o, d).trace == g.trace + [CellOn(d), CellOff(o), CellOff(Mid(o, d))] + [UndoStack(false)] + tail
              && Execute(g, o, d).trace == g.trace + [CellOff(o), CellOn(d), CellOff(Mid(o, d))] + [UndoStack(false)] + tail
  {
    if Legal(g.board, o, d) {
      EarlyJumpSameBoard(g, MakeMove(o, d));
    }
  }

  /** Release 0.1 moves are release 0.2 moves with tracking off: the same
      state and reports, never an end-of-game report. */
  lemma Move01IsUntracked(g: Game, o: Coord, d: Coord)
    requires ValidGame(g) && o in Cells && d in Cells
    ensures Move01(g, o, d) == Move02(g.(tracking := false), o, d).(tracking := g.tracking)
  {
    var m := MakeMove(o, d);
    if Legal(g.board, o, d) {
      DynamicPushIsPush(EarlyJump(g, m).history, m);
    }
  }

  //-------------------------------------------------------------------------
  // Release 0.2 and 0.1 undo
  //-------------------------------------------------------------------------

  /** `UndoAction.undo` of releases 0.1 and 0.2: the record keeps only the
      two ends and recomputes the midpoint; fill the origin, fill the
      midpoint, empty the destination. */
  function UndoAction(g: Game, o: Coord, d: Coord): (r: Game)
    requires ValidBoard(g.board) && o in Cells && d in Cells && CheckDistance(o, d)
    ensures ValidBoard(r.board)
    ensures r.board[o] && r.board[Mid(o, d)] && !r.board[d]
    ensures r.trace == g.trace + [CellOn(o), CellOn(Mid(o, d)), CellOff(d)]
  {
    MidpointOnBoard(o, d);
    assert g.trace + [CellOn(o)] + [CellOn(Mid(o, d))] + [CellOff(d)] == g.trace + [CellOn(o), CellOn(Mid(o, d)), CellOff(d)];
    EmptyCell(FillCell(FillCell(g, o), Mid(o, d)), d)
  }

  /** Recomputing the midpoint at undo time reverses the same cells as the
      current move command, which stores it. */
  lemma UndoActionIsRevert(g: Game, o: Coord, d: Coord)
    requires ValidGame(g) && o in Cells && d in Cells && CheckDistance(o, d)
    ensures UndoAction(g, o, d) == RevertMove(g, MakeMove(o, d))
  {
  }

  /** Release 0.2 `SenkuGame.undo` (and 0.1's): pop the newest record, undo
      it, report the history change. */
  function Undo02(g: Game): (r: Game)
    requires ValidGame(g) && !g.history.IsEmpty()
    ensures ValidBoard(r.board)
    ensures var m := g.history.data[|g.history.data| - 1];
            && r.history.data + [m] == g.history.data
            && m.origin in Cells && m.dest in Cells && m.mid in Cells
            && r.board[m.origin] && r.board[m.mid] && !r.board[m.dest]
  {
    var (rest, m) := Pop(g.history);
    assert WellFormed(m);
    WellFormedCells(m);
    var g1 := UndoAction(g.(history := rest), m.origin, m.dest);
    g1.(trace := g1.trace + [UndoStack(rest.IsEmpty())])
  }

  /** The early undo is the current one. */
  lemma Undo02IsUndo(g: Game)
    requires ValidGame(g) && !g.history.IsEmpty()
    ensures Undo02(g) == Undo(g)
  {
    var (rest, m) := Pop(g.history);
    assert WellFormed(m);
    UndoActionIsRevert(g.(history := rest), m.origin, m.dest);
  }
}
