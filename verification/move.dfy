/**
 A move command: the jump a player asks for, from an origin to a destination,
 and the midpoint whose peg the jump captures. Building a move validates
 nothing; the game checks the rules when it executes the move.
 */
module Moves {
  import opened Boards

  datatype Move = Move(origin: Coord, dest: Coord, mid: Coord)

  /** The move from `o` to `d`, with its midpoint the average of the two. */
  function MakeMove(o: Coord, d: Coord): (m: Move)
    ensures m.origin == o && m.dest == d
    ensures CheckDistance(o, d) ==>
              && 2 * m.mid.row == o.row + d.row
              && 2 * m.mid.col == o.col + d.col
              && m.mid != o && m.mid != d
  {
    Move(o, d, Mid(o, d))
  }

  /** A move between two board cells that satisfies the distance rule, as
      every move the game has executed is. */
  predicate WellFormed(m: Move) {
    && m.origin in Cells && m.dest in Cells
    && CheckDistance(m.origin, m.dest)
    && m.mid == Mid(m.origin, m.dest)
  }

  /** The three cells a well-formed move touches are distinct board cells. */
  lemma WellFormedCells(m: Move)
    requires WellFormed(m)
    ensures m.mid in Cells
    ensures m.origin != m.dest && m.origin != m.mid && m.dest != m.mid
  {
    MidpointOnBoard(m.origin, m.dest);
  }
}
