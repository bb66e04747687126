/** Values shared by the pieces and the game engine: teams, piece kinds, the
    board as a grid of optional occupants, and moves. */
module ChessBoard {

  datatype Option<T> = None | Some(value: T)

  /** The two sides; One moves first. */
  datatype Team = One | Two

  function Opponent(t: Team): (o: Team)
    ensures o != t
  {
    if t == One then Two else One
  }

  datatype PieceType = Pawn | Knight | Bishop | Rook | Queen | King

  /** What a cell shows to the outside: the occupant's team and kind. */
  datatype PieceInfo = PieceInfo(team: Team, kind: PieceType)

  /** A piece together with the cell it stands on. */
  datatype Piece = Piece(team: Team, kind: PieceType, col: int, row: int)

  /** A width x height grid; a cell missing from `cells` is empty. */
  datatype Board = Board(width: nat, height: nat, cells: map<(int, int), PieceInfo>)

  /** A relocation of a piece of `team` from (fromCol, fromRow) to (toCol, toRow). */
  datatype Move = Move(team: Team, fromCol: int, fromRow: int, toCol: int, toRow: int)

  predicate ValidCoordinates(b: Board, col: int, row: int)
  {
    0 <= col < b.width && 0 <= row < b.height
  }

  function PieceAt(b: Board, col: int, row: int): (p: Option<PieceInfo>)
    ensures p.Some? <==> (col, row) in b.cells
    ensures p.Some? ==> b.cells[(col, row)] == p.value
  {
    if (col, row) in b.cells then Some(b.cells[(col, row)]) else None
  }

  /** No piece stands outside the grid. */
  predicate WellFormed(b: Board)
  {
    forall cell :: cell in b.cells ==> ValidCoordinates(b, cell.0, cell.1)
  }
}
