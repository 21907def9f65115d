/**
 Properties that relate several engine operations: undo reverses a move,
 every move takes exactly one peg off the board, a game from the initial
 layout ends after at most 31 moves, the end-of-game verdicts, and the
 observers' view of the board kept in step with the board itself.
 */
module SenkuProperties {
  import opened Boards
  import opened Stacks
  import opened Moves
  import opened Senku

  //-------------------------------------------------------------------------
  // Counting pegs across a move
  //-------------------------------------------------------------------------

  /** A board whose keys are the cross cells, and which agrees with `b` except
      at the three cells of a jump from `o` to `d`, is `b` with that jump
      applied. */
  lemma JumpedBoard(b: Board, r: Board, o: Coord, d: Coord)
    requires ValidBoard(b) && ValidBoard(r) && o in Cells && d in Cells && CheckDistance(o, d)
    requires !r[o] && r[d] && !r[Mid(o, d)]
    requires forall k :: k in b && k != o && k != d && k != Mid(o, d) ==> r[k] == b[k]
    ensures r == b[o := false][d := true][Mid(o, d) := false]
  {
    MidpointOnBoard(o, d);
  }

  /** Applying a legal jump to a board takes one peg off it. */
  lemma {:induction false} JumpCount(b: Board, o: Coord, d: Coord)
    requires ValidBoard(b) && o in Cells && d in Cells && Legal(b, o, d)
    ensures OccupiedCount(b[o := false][d := true][Mid(o, d) := false]) == OccupiedCount(b) - 1
  {
    var m := Mid(o, d);
    MidpointOnBoard(o, d);
    CellListDistinct();
    CellListIsCells();
    var b1 := b[o := false];
    var b2 := b1[d := true];
    CountUpdate(b, CellList(), o, false);
    CountUpdate(b1, CellList(), d, true);
    CountUpdate(b2, CellList(), m, false);
  }

  /** A legal jump needs a peg at its origin and another at its midpoint, so
      a board with fewer than two pegs has no legal move. */
  lemma {:induction false} LegalNeedsTwoPegs(b: Board, o: Coord, d: Coord)
    requires ValidBoard(b) && o in Cells && d in Cells && Legal(b, o, d)
    ensures OccupiedCount(b) >= 2
  {
    var m := Mid(o, d);
    MidpointOnBoard(o, d);
    CellListDistinct();
    CellListIsCells();
    var b1 := b[o := false];
    CountUpdate(b, CellList(), o, false);
    CountUpdate(b1, CellList(), m, false);
  }

  /** With at most one peg left the end-of-game check reports the game over. */
  lemma FewPegsIsOver(b: Board)
    requires ValidBoard(b) && OccupiedCount(b) <= 1
    ensures !HasLegalMove(b)
    ensures GameOverEvents(b) == [GameOver(OccupiedCount(b))]
  {
    if HasLegalMove(b) {
      var o, d :| o in Cells && d in Cells && b[o] && Legal(b, o, d);
      LegalNeedsTwoPegs(b, o, d);
    }
  }

  /** A successful move removes exactly one peg; a rejected one changes
      nothing. */
  lemma ExecuteRemovesOnePeg(g: Game, o: Coord, d: Coord)
    requires ValidGame(g) && o in Cells && d in Cells
    ensures Legal(g.board, o, d) ==> OccupiedCount(Execute(g, o, d).board) == OccupiedCount(g.board) - 1
    ensures !Legal(g.board, o, d) ==> OccupiedCount(Execute(g, o, d).board) == OccupiedCount(g.board)
  {
    if Legal(g.board, o, d) {
      JumpedBoard(g.board, Execute(g, o, d).board, o, d);
      JumpCount(g.board, o, d);
    }
  }

  //-------------------------------------------------------------------------
  // Undo
  //-------------------------------------------------------------------------

  /** Executing a legal move and undoing it gives back the board. The history
      comes back too, unless it was full, in which case the move pushed out
      its oldest entry for good. Tracking is untouched. */
  lemma ExecuteThenUndo(g: Game, o: Coord, d: Coord)
    requires ValidGame(g) && o in Cells && d in Cells && Legal(g.board, o, d)
    ensures !Execute(g, o, d).history.IsEmpty()
    ensures var r := Undo(Execute(g, o, d));
            && r.board == g.board
            && r.tracking == g.tracking
            && (!g.history.IsFull() ==> r.history == g.history)
            && (g.history.IsFull() ==> r.history == Stack(g.history.data[1..], g.history.size))
  {
    var e := Execute(g, o, d);
    var m := MakeMove(o, d);
    var r := Undo(e);
    MidpointOnBoard(o, d);
    assert e.history.data[|e.history.data| - 1] == m;
    assert r.history.data == e.history.data[..|e.history.data| - 1];
    forall k | k in r.board
      ensures r.board[k] == g.board[k]
    {
    }
    SameBoard(r.board, g.board);
  }

  /** After an undo, the undone move is legal again, so the game cannot be
      over: this is why undo does not run the end-of-game check. */
  lemma UndoReopensMove(g: Game)
    requires ValidGame(g) && !g.history.IsEmpty()
    ensures var m := g.history.data[|g.history.data| - 1];
            && m.origin in Cells && m.dest in Cells
            && Legal(Undo(g).board, m.origin, m.dest)
    ensures HasLegalMove(Undo(g).board)
  {
    var m := g.history.data[|g.history.data| - 1];
    var b := Undo(g).board;
    assert WellFormed(m);
    WellFormedCells(m);
    assert b[m.origin] && Legal(b, m.origin, m.dest);
  }

  //-------------------------------------------------------------------------
  // Runs of moves
  //-------------------------------------------------------------------------

  /** Every pair of `js` names two board cells. */
  predicate OnBoard(js: seq<(Coord, Coord)>) {
    forall i :: 0 <= i < |js| ==> js[i].0 in Cells && js[i].1 in Cells
  }

  /** Execute the moves of `js` one after the other, as the player asks for
      them. */
  function Play(g: Game, js: seq<(Coord, Coord)>): (r: Game)
    requires ValidGame(g) && OnBoard(js)
    ensures ValidGame(r) && r.tracking == g.tracking && r.history.size == g.history.size
    decreases |js|
  {
    if js == [] then g else Play(Execute(g, js[0].0, js[0].1), js[1..])
  }

  /** Every move of `js` is legal when it is played. */
  predicate AllLegal(g: Game, js: seq<(Coord, Coord)>)
    requires ValidGame(g) && OnBoard(js)
    decreases |js|
  {
    js == [] || (Legal(g.board, js[0].0, js[0].1) && AllLegal(Execute(g, js[0].0, js[0].1), js[1..]))
  }

  /** The moves that `js` pushes on the history. */
  function MovesOf(js: seq<(Coord, Coord)>): (ms: seq<Move>)
    ensures |ms| == |js|
  {
    if js == [] then [] else [MakeMove(js[0].0, js[0].1)] + MovesOf(js[1..])
  }

  /** The `i`-th recorded move is the move of the `i`-th request. */
  lemma {:induction false} MovesOfAt(js: seq<(Coord, Coord)>, i: nat)
    requires i < |js|
    ensures MovesOf(js)[i] == MakeMove(js[i].0, js[i].1)
    decreases |js|
  {
    if i > 0 {
      MovesOfAt(js[1..], i - 1);
    }
  }

  /** The first step of a run of legal moves. */
  lemma PlayStep(g: Game, js: seq<(Coord, Coord)>)
    requires ValidGame(g) && OnBoard(js) && AllLegal(g, js) && js != []
    ensures js[0].0 in Cells && js[0].1 in Cells && Legal(g.board, js[0].0, js[0].1)
    ensures var e := Execute(g, js[0].0, js[0].1);
            && ValidGame(e) && OnBoard(js[1..]) && AllLegal(e, js[1..])
            && Play(g, js) == Play(e, js[1..])
  {
  }

  /** A run of legal moves takes one peg per move, and each move leaves at
      least one peg behind. */
  lemma {:induction false} PlayCount(g: Game, js: seq<(Coord, Coord)>)
    requires ValidGame(g) && OnBoard(js) && AllLegal(g, js)
    ensures OccupiedCount(Play(g, js).board) + |js| == OccupiedCount(g.board)
    ensures js != [] ==> OccupiedCount(Play(g, js).board) >= 1
    decreases |js|
  {
    if js != [] {
      var (o, d) := js[0];
      PlayStep(g, js);
      LegalNeedsTwoPegs(g.board, o, d);
      ExecuteRemovesOnePeg(g, o, d);
      PlayCount(Execute(g, o, d), js[1..]);
    }
  }

  /** A run of legal moves pushes each of them on the history, in order. */
  lemma {:induction false} PlayHistory(g: Game, js: seq<(Coord, Coord)>)
    requires ValidGame(g) && OnBoard(js) && AllLegal(g, js)
    ensures Play(g, js).history == PushAll(g.history, MovesOf(js))
    decreases |js|
  {
    if js != [] {
      var e := Execute(g, js[0].0, js[0].1);
      PlayStep(g, js);
      PlayHistory(e, js[1..]);
      assert MovesOf(js)[1..] == MovesOf(js[1..]);
    }
  }

  /** A game from a board of 32 pegs, as the initial layout is, lasts at
      most 31 moves: each move takes one peg and at least one always stays. */
  lemma GameLength(g: Game, js: seq<(Coord, Coord)>)
    requires ValidGame(g) && OccupiedCount(g.board) == 32 && OnBoard(js) && AllLegal(g, js)
    ensures |js| <= 31
  {
    PlayCount(g, js);
  }

  /** So, starting with an empty history as a new game does, a depth above
      31 never drops a move. */
  lemma DeepHistoryKeepsAll(g: Game, js: seq<(Coord, Coord)>)
    requires ValidGame(g) && OccupiedCount(g.board) == 32 && g.history.IsEmpty() && g.history.size > 31
    requires OnBoard(js) && AllLegal(g, js)
    ensures Play(g, js).history.data == MovesOf(js)
  {
    GameLength(g, js);
    RunHistory(g, js);
  }

  /** The default depth keeps the newest five moves of any game. */
  lemma DefaultHistoryKeepsFive(g: Game, js: seq<(Coord, Coord)>)
    requires ValidGame(g) && g.history.size == MaxUndoActions
    requires OnBoard(js) && AllLegal(g, js) && |js| >= MaxUndoActions
    ensures Play(g, js).history.data == MovesOf(js)[|js| - MaxUndoActions..]
  {
    PlayHistory(g, js);
    LastNSurvive(g.history, MovesOf(js));
  }

  /** The history after a run of legal moves: from an empty history, every
      move while they fit; from any history, only the newest moves once the
      run fills it. */
  lemma RunHistory(g: Game, js: seq<(Coord, Coord)>)
    requires ValidGame(g) && OnBoard(js) && AllLegal(g, js)
    ensures g.history.IsEmpty() && |js| <= g.history.size ==> Play(g, js).history.data == MovesOf(js)
    ensures |js| >= g.history.size ==> Play(g, js).history.data == MovesOf(js)[|js| - g.history.size..]
  {
    PlayHistory(g, js);
    LastNSurvive(g.history, MovesOf(js));
  }

  //-------------------------------------------------------------------------
  // The end of the game
  //-------------------------------------------------------------------------

  /** The initial layout has a legal move: the peg two rows above the
      centre can jump into it. */
  lemma InitialHasMove()
    ensures ValidBoard(InitialBoard)
    ensures HasLegalMove(InitialBoard)
  {
    InitialLayout();
    var o, d := Coord(1, 3), Coord(3, 3);
    CellsAreCross(o);
    CellsAreCross(Coord(2, 3));
    assert Mid(o, d) == Coord(2, 3);
    assert InitialBoard[o] && Legal(InitialBoard, o, d);
  }

  /** So the end-of-game check on a new game reports nothing. */
  lemma NewGameNotOver(capacity: nat, tracking: bool)
    ensures HasLegalMove(NewGame(capacity, tracking).board)
    ensures CheckEnd(NewGame(capacity, tracking)).trace == NewGame(capacity, tracking).trace
  {
    var g := NewGame(capacity, tracking);
    InitialHasMove();
    assert g.trace + [] == g.trace;
  }

  /** A move against the rules changes nothing and reports nothing: here a
      diagonal jump over the centre. */
  lemma DiagonalIsRejected(g: Game)
    requires ValidGame(g)
    ensures Coord(2, 2) in Cells && Coord(4, 4) in Cells
    ensures Execute(g, Coord(2, 2), Coord(4, 4)) == g
  {
    CellsAreCross(Coord(2, 2));
    CellsAreCross(Coord(4, 4));
  }

  //-------------------------------------------------------------------------
  // Restart
  //-------------------------------------------------------------------------

  /** Restarting gives the board and history of a new game of the same
      depth, keeps tracking, and restarting twice is the same as once. */
  lemma RestartIsNewGame(g: Game)
    requires ValidGame(g)
    ensures Restart(g).board == NewGame(g.history.size, g.tracking).board
    ensures Restart(g).history == NewGame(g.history.size, g.tracking).history
    ensures Restart(Restart(g)).board == Restart(g).board
    ensures Restart(Restart(g)).history == Restart(g).history
  {
    assert Restart(g).history.data == [];
  }

  //-------------------------------------------------------------------------
  // What observers see
  //-------------------------------------------------------------------------

  /** An observer's copy of the board after it has seen event `e`. */
  function See(b: Board, e: Event): Board {
    match e
    case CellOn(c) => b[c := true]
    case CellOff(c) => b[c := false]
    case _ => b
  }

  /** An observer's copy of the board after it has seen `es`, in order. */
  function SeeAll(b: Board, es: seq<Event>): Board
    decreases |es|
  {
    if es == [] then b else SeeAll(See(b, es[0]), es[1..])
  }

  lemma {:induction false} SeeAllAppend(b: Board, es: seq<Event>, fs: seq<Event>)
    ensures SeeAll(b, es + fs) == SeeAll(SeeAll(b, es), fs)
    decreases |es|
  {
    if es != [] {
      assert (es + fs)[0] == es[0] && (es + fs)[1..] == es[1..] + fs;
      SeeAllAppend(See(b, es[0]), es[1..], fs);
    } else {
      assert es + fs == fs;
    }
  }

  /** Replaying the state reports of `cs` sets each of its cells as on `src`
      and leaves every other cell as it was. */
  lemma {:induction false} SeeCellEvents(b: Board, src: Board, cs: seq<Coord>)
    requires forall i :: 0 <= i < |cs| ==> cs[i] in src
    ensures forall k :: k in SeeAll(b, CellEvents(src, cs)) <==> k in b || k in cs
    ensures forall k :: k in cs ==> SeeAll(b, CellEvents(src, cs))[k] == src[k]
    ensures forall k :: k in b && k !in cs ==> SeeAll(b, CellEvents(src, cs))[k] == b[k]
    decreases |cs|
  {
    if cs != [] {
      var es := CellEvents(src, cs);
      assert es[1..] == CellEvents(src, cs[1..]);
      assert See(b, es[0]) == b[cs[0] := src[cs[0]]];
      SeeCellEvents(See(b, es[0]), src, cs[1..]);
      assert forall k :: k in cs <==> k == cs[0] || k in cs[1..];
    }
  }

  /** The reports an operation added to the trace `t`. */
  lemma SuffixOf<T>(t: seq<T>, y: seq<T>)
    ensures |t| <= |t + y| && (t + y)[..|t|] == t && (t + y)[|t|..] == y
  {
  }

  /** An observer attached late, whatever cells of the cross it already
      shows (none, for a view not yet drawn), sees exactly the game's board
      once it has replayed the full report. */
  lemma GetAllChangesRebuildsBoard(g: Game, start: Board)
    requires ValidBoard(g.board) && start.Keys <= Cells
    ensures SeeAll(start, GetAllChanges(g).trace[|g.trace|..]) == g.board
  {
    ListedAreCells();
    var y := [UndoStack(g.history.IsEmpty())] + CellEvents(g.board, CellList());
    assert g.trace + [UndoStack(g.history.IsEmpty())] + CellEvents(g.board, CellList()) == g.trace + y;
    SuffixOf(g.trace, y);
    CellListIsCells();
    ReplayCells(start, g.board, CellList(), UndoStack(g.history.IsEmpty()));
  }

  /** A view that has drawn nothing yet, as the board view is when the
      interface opens, shows the game's board after the full report. */
  lemma BlankViewRebuildsBoard(g: Game)
    requires ValidBoard(g.board)
    ensures SeeAll(map[], GetAllChanges(g).trace[|g.trace|..]) == g.board
  {
    GetAllChangesRebuildsBoard(g, map[]);
  }

  /** Replaying a history report and then the state of cells covering the
      whole board rebuilds the board. */
  lemma ReplayCells(start: Board, b: Board, cs: seq<Coord>, u: Event)
    requires ValidBoard(b) && start.Keys <= Cells && u.UndoStack?
    requires AllCells(cs) && forall c :: c in Cells ==> c in cs
    ensures SeeAll(start, [u] + CellEvents(b, cs)) == b
  {
    var es := CellEvents(b, cs);
    var y := [u] + es;
    assert y[0] == u && y[1..] == es;
    SeeCellEvents(start, b, cs);
    SameBoard(SeeAll(start, es), b);
  }

  /** `r` follows `g` by appending reports only, and an observer whose copy
      of the board was `g`'s has `r`'s once it has seen them. */
  predicate InStep(g: Game, r: Game) {
    && |g.trace| <= |r.trace| && r.trace[..|g.trace|] == g.trace
    && SeeAll(g.board, r.trace[|g.trace|..]) == r.board
  }

  lemma InStepTrans(a: Game, b: Game, c: Game)
    requires InStep(a, b) && InStep(b, c)
    ensures InStep(a, c)
  {
    var x := b.trace[|a.trace|..];
    var y := c.trace[|b.trace|..];
    assert b.trace == a.trace + x;
    assert c.trace == b.trace + y;
    assert c.trace == a.trace + (x + y);
    SuffixOf(a.trace, x + y);
    SeeAllAppend(a.board, x, y);
  }

  /** Filling a cell keeps observers in step. */
  lemma FillCellInStep(g: Game, c: Coord)
    ensures InStep(g, FillCell(g, c))
  {
    SuffixOf(g.trace, [CellOn(c)]);
    assert SeeAll(g.board, [CellOn(c)]) == SeeAll(g.board[c := true], []);
  }

  /** Emptying a cell keeps observers in step. */
  lemma EmptyCellInStep(g: Game, c: Coord)
    ensures InStep(g, EmptyCell(g, c))
  {
    SuffixOf(g.trace, [CellOff(c)]);
    assert SeeAll(g.board, [CellOff(c)]) == SeeAll(g.board[c := false], []);
  }

  /** Reports that are not cell changes keep observers in step with a board
      that did not change. */
  lemma QuietInStep(g: Game, r: Game, es: seq<Event>)
    requires r.board == g.board && r.trace == g.trace + es
    requires forall i :: 0 <= i < |es| ==> es[i].GameOver? || es[i].UndoStack?
    ensures InStep(g, r)
  {
    SuffixOf(g.trace, es);
    SeeNoCells(g.board, es);
  }

  /** Recording a move reports only the history change and, perhaps, the
      end of the game, so observers stay in step. */
  lemma MovementDoneInStep(g: Game, m: Move)
    requires ValidGame(g) && WellFormed(m)
    ensures InStep(g, MovementDone(g, m))
  {
    var r := MovementDone(g, m);
    if g.tracking && !HasLegalMove(g.board) {
      assert r.trace == g.trace + [UndoStack(false), GameOver(OccupiedCount(g.board))];
      QuietInStep(g, r, [UndoStack(false), GameOver(OccupiedCount(g.board))]);
    } else {
      QuietInStep(g, r, [UndoStack(false)]);
    }
  }

  /** Executing a move, accepted or not, keeps observers in step: what it
      reports turns their copy of the old board into the new one. */
  lemma ExecuteInStep(g: Game, o: Coord, d: Coord)
    requires ValidGame(g) && o in Cells && d in Cells
    ensures InStep(g, Execute(g, o, d))
  {
    if Legal(g.board, o, d) {
      var m := MakeMove(o, d);
      var g1 := EmptyCell(g, o);
      var g2 := FillCell(g1, d);
      var g3 := EmptyCell(g2, m.mid);
      EmptyCellInStep(g, o);
      FillCellInStep(g1, d);
      EmptyCellInStep(g2, m.mid);
      InStepTrans(g, g1, g2);
      InStepTrans(g, g2, g3);
      assert g3 == ApplyJump(g, m);
      MovementDoneInStep(g3, m);
      InStepTrans(g, g3, MovementDone(g3, m));
    } else {
      QuietInStep(g, g, []);
    }
  }

  /** Undo keeps observers in step. */
  lemma UndoInStep(g: Game)
    requires ValidGame(g) && !g.history.IsEmpty()
    ensures InStep(g, Undo(g))
  {
    var (rest, m) := Pop(g.history);
    var g0 := g.(history := rest);
    var g1 := FillCell(g0, m.origin);
    var g2 := FillCell(g1, m.mid);
    var g3 := EmptyCell(g2, m.dest);
    QuietInStep(g, g0, []);
    FillCellInStep(g0, m.origin);
    FillCellInStep(g1, m.mid);
    EmptyCellInStep(g2, m.dest);
    InStepTrans(g, g0, g1);
    InStepTrans(g, g1, g2);
    InStepTrans(g, g2, g3);
    var r := Undo(g);
    assert r == g3.(trace := g3.trace + [UndoStack(rest.IsEmpty())]);
    QuietInStep(g3, r, [UndoStack(rest.IsEmpty())]);
    InStepTrans(g, g3, r);
  }

  /** Filling cells one after the other keeps observers in step. */
  lemma {:induction false} FillAllInStep(g: Game, cs: seq<Coord>)
    ensures InStep(g, FillAll(g, cs))
    decreases |cs|
  {
    if cs == [] {
      QuietInStep(g, g, []);
    } else {
      var g1 := FillCell(g, cs[0]);
      FillCellInStep(g, cs[0]);
      FillAllInStep(g1, cs[1..]);
      InStepTrans(g, g1, FillAll(g1, cs[1..]));
    }
  }

  /** Laying out the board keeps observers in step: replaying the layout
      reports turns their copy of the old board into the initial one. */
  lemma RelaidInStep(g: Game)
    requires ValidBoard(g.board)
    ensures InStep(g, Relaid(g))
  {
    var f := FillAll(g, CellList());
    FillAllInStep(g, CellList());
    EmptyCellInStep(f, Center);
    InStepTrans(g, f, EmptyCell(f, Center));
    assert Relaid(g) == EmptyCell(f, Center);
  }

  /** Restarting keeps observers in step. */
  lemma RestartInStep(g: Game)
    requires ValidGame(g)
    ensures InStep(g, Restart(g))
  {
    var g1 := Relaid(g);
    RelaidInStep(g);
    QuietInStep(g1, Restart(g), [UndoStack(true)]);
    InStepTrans(g, g1, Restart(g));
  }

  /** An observer that starts with no board and sees every report of a new
      game has the initial layout. */
  lemma NewGameObserved(capacity: nat, tracking: bool)
    ensures SeeAll(map[], NewGame(capacity, tracking).trace) == InitialBoard
  {
    var g0 := Game(map[], NewStack(capacity), tracking, []);
    var f := FillAll(g0, CellList());
    FillAllInStep(g0, CellList());
    EmptyCellInStep(f, Center);
    InStepTrans(g0, f, EmptyCell(f, Center));
    assert NewGame(capacity, tracking) == EmptyCell(f, Center);
  }

  /** Reports other than cell changes leave an observer's board alone. */
  lemma {:induction false} SeeNoCells(b: Board, es: seq<Event>)
    requires forall i :: 0 <= i < |es| ==> es[i].GameOver? || es[i].UndoStack?
    ensures SeeAll(b, es) == b
    decreases |es|
  {
    if es != [] {
      SeeNoCells(b, es[1..]);
    }
  }
}
