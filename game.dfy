/** The game engine as its interface describes it: a board, the team to move
    and an undo history, with the rule checks that are particular to a game
    mode supplied as parameters. */
module ChessGame {
  import opened ChessBoard

  /** A value, or the IllegalArgumentException the engine throws. */
  datatype Outcome<T> = Ok(value: T) | IllegalArgument

  /** One committed move and the piece it took, if any. */
  datatype HistoryEntry = HistoryEntry(move: Move, captured: Option<PieceInfo>)

  /** What a game mode decides: its starting layout, whether the piece on
      (fromCol, fromRow) may move to (toCol, toRow), whether that move would
      leave the mover in check, and how a textual cell name maps to a cell. */
  datatype GameMode = GameMode(
    initial: Board,
    validMove: (Board, int, int, int, int) -> bool,
    leavesInCheck: (Board, int, int, int, int) -> bool,
    parseCell: string -> Option<(int, int)>)

  /** The board after the piece on the move's origin relocates to its
      destination, replacing whatever stood there. */
  function Apply(b: Board, m: Move): (b': Board)
    requires PieceAt(b, m.fromCol, m.fromRow).Some?
    ensures b'.width == b.width && b'.height == b.height
    ensures PieceAt(b', m.toCol, m.toRow) == PieceAt(b, m.fromCol, m.fromRow)
    ensures (m.fromCol, m.fromRow) != (m.toCol, m.toRow) ==> PieceAt(b', m.fromCol, m.fromRow) == None
    ensures forall c, r :: (c, r) != (m.fromCol, m.fromRow) && (c, r) != (m.toCol, m.toRow) ==>
              PieceAt(b', c, r) == PieceAt(b, c, r)
  {
    var p := b.cells[(m.fromCol, m.fromRow)];
    b.(cells := (b.cells - {(m.fromCol, m.fromRow)})[(m.toCol, m.toRow) := p])
  }

  /** The board before `m`: the piece on the destination goes back to the
      origin and `captured` returns to the destination. */
  function Unapply(b: Board, m: Move, captured: Option<PieceInfo>): Board
    requires PieceAt(b, m.toCol, m.toRow).Some?
  {
    var p := b.cells[(m.toCol, m.toRow)];
    var back := (b.cells - {(m.toCol, m.toRow)})[(m.fromCol, m.fromRow) := p];
    b.(cells := if captured.Some? then back[(m.toCol, m.toRow) := captured.value] else back)
  }

  /** Undoing a move with the piece that stood on its destination gives back
      the board exactly. */
  lemma UndoRestores(b: Board, m: Move)
    requires PieceAt(b, m.fromCol, m.fromRow).Some?
    ensures PieceAt(Apply(b, m), m.toCol, m.toRow).Some?
    ensures Unapply(Apply(b, m), m, PieceAt(b, m.toCol, m.toRow)) == b
  {
  }

  /** Moving a piece keeps every piece on the grid when the destination is on it. */
  lemma ApplyWellFormed(b: Board, m: Move)
    requires PieceAt(b, m.fromCol, m.fromRow).Some?
    requires WellFormed(b) && ValidCoordinates(b, m.toCol, m.toRow)
    ensures WellFormed(Apply(b, m))
  {
  }

  /** The board reached from `init` by the moves of `h`, in order. */
  function Replay(init: Board, h: seq<HistoryEntry>): Board
  {
    if h == [] then init
    else
      var before := Replay(init, h[..|h| - 1]);
      var m := h[|h| - 1].move;
      if PieceAt(before, m.fromCol, m.fromRow).Some? then Apply(before, m) else before
  }

  /** Every entry of `h` was a move of a piece between cells of the grid, and
      records the piece that stood on its destination. */
  ghost predicate Recorded(init: Board, h: seq<HistoryEntry>)
  {
    h != [] ==>
      Recorded(init, h[..|h| - 1])
      && var before := Replay(init, h[..|h| - 1]);
         var e := h[|h| - 1];
         ValidCoordinates(before, e.move.fromCol, e.move.fromRow)
         && ValidCoordinates(before, e.move.toCol, e.move.toRow)
         && PieceAt(before, e.move.fromCol, e.move.fromRow).Some?
         && e.captured == PieceAt(before, e.move.toCol, e.move.toRow)
  }

  /** Recording a move of a piece between cells of the grid, with the piece
      on its destination, extends a recorded history and replays to the moved
      board. */
  lemma RecordMove(init: Board, h: seq<HistoryEntry>, e: HistoryEntry)
    requires Recorded(init, h)
    requires ValidCoordinates(Replay(init, h), e.move.fromCol, e.move.fromRow)
    requires ValidCoordinates(Replay(init, h), e.move.toCol, e.move.toRow)
    requires PieceAt(Replay(init, h), e.move.fromCol, e.move.fromRow).Some?
    requires e.captured == PieceAt(Replay(init, h), e.move.toCol, e.move.toRow)
    ensures Recorded(init, h + [e])
    ensures Replay(init, h + [e]) == Apply(Replay(init, h), e.move)
  {
  }

  /** Committing a move of a piece of the team to move, between cells of the
      grid, from a valid state gives a valid state. */
  lemma MoveFacts(init: Board, b: Board, h: seq<HistoryEntry>, t: Team, e: HistoryEntry)
    requires WellFormed(b) && Recorded(init, h) && b == Replay(init, h) && t == TurnAfter(|h|)
    requires ValidCoordinates(b, e.move.fromCol, e.move.fromRow) && ValidCoordinates(b, e.move.toCol, e.move.toRow)
    requires PieceAt(b, e.move.fromCol, e.move.fromRow).Some?
    requires e.captured == PieceAt(b, e.move.toCol, e.move.toRow)
    ensures WellFormed(Apply(b, e.move)) && Recorded(init, h + [e])
    ensures Apply(b, e.move) == Replay(init, h + [e]) && Opponent(t) == TurnAfter(|h + [e]|)
  {
    ApplyWellFormed(b, e.move);
    RecordMove(init, h, e);
  }

  /** The team to move after n plies: the teams alternate, One first. */
  function TurnAfter(n: nat): Team
  {
    if n % 2 == 0 then One else Two
  }

  /** The [col][row] picture of a board. */
  function Snapshot(b: Board): (snap: seq<seq<Option<PieceInfo>>>)
    ensures |snap| == b.width
    ensures forall c :: 0 <= c < |snap| ==> |snap[c]| == b.height
    ensures forall c, r :: 0 <= c < b.width && 0 <= r < b.height ==> snap[c][r] == PieceAt(b, c, r)
  {
    seq(b.width, c => seq(b.height, r => PieceAt(b, c, r)))
  }

  /** The snapshot loses nothing: two boards of the same size with the same
      snapshot are the same board. */
  lemma SnapshotInjective(b1: Board, b2: Board)
    requires WellFormed(b1) && WellFormed(b2)
    requires b1.width == b2.width && b1.height == b2.height
    requires Snapshot(b1) == Snapshot(b2)
    ensures b1 == b2
  {
    forall k | k in b1.cells ensures k in b2.cells && b2.cells[k] == b1.cells[k] {
      assert Snapshot(b1)[k.0][k.1] == Snapshot(b2)[k.0][k.1];
    }
    forall k | k in b2.cells ensures k in b1.cells {
      assert Snapshot(b1)[k.0][k.1] == Snapshot(b2)[k.0][k.1];
    }
    assert b1.cells == b2.cells;
  }

  class ChessGameModel {
    const mode: GameMode
    var board: Board
    var turn: Team
    var history: seq<HistoryEntry>

    /** The board is what the history makes of the starting layout, no piece
        is off the grid, and the turn alternates with the number of plies. */
    ghost predicate Valid()
      reads this
    {
      WellFormed(mode.initial) && WellFormed(board)
      && Recorded(mode.initial, history)
      && board == Replay(mode.initial, history)
      && turn == TurnAfter(|history|)
    }

    constructor (mode: GameMode)
      requires WellFormed(mode.initial)
      ensures Valid()
      ensures this.mode == mode && board == mode.initial && turn == One && history == []
    {
      this.mode := mode;
      board := mode.initial;
      turn := One;
      history := [];
    }

    /** The game mode's check test, asked of the live board; as a function
        it cannot change the game. */
    function WillCauseInvalidStateFromCheck(fromCol: int, fromRow: int, targetCol: int, targetRow: int): (r: bool)
      reads this
      ensures r == mode.leavesInCheck(board, fromCol, fromRow, targetCol, targetRow)
    {
      mode.leavesInCheck(board, fromCol, fromRow, targetCol, targetRow)
    }

    /** The move is accepted: both cells are on the grid, the origin holds a
        piece of the team to move, the game mode allows the move and it does
        not leave the mover in check. */
    predicate Legal(fromCol: int, fromRow: int, targetCol: int, targetRow: int)
      reads this
    {
      ValidCoordinates(board, fromCol, fromRow) && ValidCoordinates(board, targetCol, targetRow)
      && PieceAt(board, fromCol, fromRow).Some? && PieceAt(board, fromCol, fromRow).value.team == turn
      && mode.validMove(board, fromCol, fromRow, targetCol, targetRow)
      && !WillCauseInvalidStateFromCheck(fromCol, fromRow, targetCol, targetRow)
    }

    method MovePiece(fromCol: int, fromRow: int, targetCol: int, targetRow: int)
      returns (outcome: Outcome<Option<PieceInfo>>)
      requires Valid()
      modifies this
      ensures Valid()
      ensures outcome.Ok? <==> old(Legal(fromCol, fromRow, targetCol, targetRow))
      ensures old(WillCauseInvalidStateFromCheck(fromCol, fromRow, targetCol, targetRow)) ==> outcome.IllegalArgument?
      ensures outcome.IllegalArgument? ==> board == old(board) && turn == old(turn) && history == old(history)
      ensures outcome.Ok? ==>
                && outcome.value == old(PieceAt(board, targetCol, targetRow))
                && PieceAt(board, targetCol, targetRow) == old(PieceAt(board, fromCol, fromRow))
                && ((fromCol, fromRow) != (targetCol, targetRow) ==> PieceAt(board, fromCol, fromRow) == None)
                && (forall c, r :: (c, r) != (fromCol, fromRow) && (c, r) != (targetCol, targetRow) ==>
                      PieceAt(board, c, r) == old(PieceAt(board, c, r)))
                && turn == Opponent(old(turn))
                && history == old(history) + [HistoryEntry(Move(old(turn), fromCol, fromRow, targetCol, targetRow), outcome.value)]
    {
      if !Legal(fromCol, fromRow, targetCol, targetRow) {
        return IllegalArgument;
      }
      var m := Move(turn, fromCol, fromRow, targetCol, targetRow);
      var taken := PieceAt(board, targetCol, targetRow);
      var entry := HistoryEntry(m, taken);
      MoveFacts(mode.initial, board, history, turn, entry);
      board, history, turn := Apply(board, m), history + [entry], Opponent(turn);
      outcome := Ok(taken);
    }

    /** The team to move: One after an even number of plies, Two after an odd one. */
    function WhosTurn(): (t: Team)
      reads this
      requires Valid()
      ensures t == TurnAfter(|history|)
    {
      turn
    }

    /** The pieces of the live board, indexed [col][row]. */
    function GetBoard(): (snap: seq<seq<Option<PieceInfo>>>)
      reads this
      ensures snap == Snapshot(board)
    {
      Snapshot(board)
    }

    /** Whether a piece stands on the named cell; a name that does not denote a
        cell of the grid is an illegal argument. */
    function HasPieceOnCell(cell: string): (r: Outcome<bool>)
      reads this
      ensures r.Ok? <==> mode.parseCell(cell).Some?
                         && ValidCoordinates(board, mode.parseCell(cell).value.0, mode.parseCell(cell).value.1)
      ensures r.Ok? ==> (r.value <==> (mode.parseCell(cell).value in board.cells))
    {
      match mode.parseCell(cell)
      case None => IllegalArgument
      case Some(at) =>
        if ValidCoordinates(board, at.0, at.1) then Ok(PieceAt(board, at.0, at.1).Some?) else IllegalArgument
    }

    /** Takes back the last move, putting a taken piece back; with no history
        nothing changes. */
    method UndoLastMove()
      requires Valid()
      modifies this
      ensures Valid()
      ensures old(history) == [] ==> board == old(board) && turn == old(turn) && history == old(history)
      ensures old(history) != [] ==>
                && history == old(history)[..|old(history)| - 1]
                && board == Replay(mode.initial, history)
                && turn == Opponent(old(turn))
    {
      if history != [] {
        var e := history[|history| - 1];
        ghost var before := Replay(mode.initial, history[..|history| - 1]);
        UndoRestores(before, e.move);
        board := Unapply(board, e.move, e.captured);
        history := history[..|history| - 1];
        turn := Opponent(turn);
      }
    }

    /** Back to the mode's starting layout, One to move, no history. */
    method RestartGame()
      requires Valid()
      modifies this
      ensures Valid()
      ensures board == mode.initial && turn == One && history == []
    {
      board := mode.initial;
      turn := One;
      history := [];
    }

    /** A move followed by its undo leaves the game as it was. */
    method MoveThenUndo(fromCol: int, fromRow: int, targetCol: int, targetRow: int)
      returns (outcome: Outcome<Option<PieceInfo>>)
      requires Valid()
      modifies this
      ensures Valid()
      ensures board == old(board) && turn == old(turn) && history == old(history)
    {
      outcome := MovePiece(fromCol, fromRow, targetCol, targetRow);
      if outcome.Ok? {
        UndoLastMove();
        assert history == old(history);
      }
    }
  }
}
