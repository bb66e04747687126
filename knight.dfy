/** The knight: its move rule, the enemy pieces it attacks and the moves it
    generates, all by jumping to the eight fixed offsets. */
module Knights {
  import opened ChessBoard

  /** The check every piece runs before its own geometry (the inherited
      validMove): given the moving piece, the target cell, the board and the
      piece's own answer to whether the path to the target is free. */
  type BaseCheck = (Piece, int, int, Board, bool) -> bool

  /** The base check looks at the board only through its size, the target
      cell and the path answer it is given. */
  ghost predicate SeesOnlyTarget(base: BaseCheck)
  {
    forall p: Piece, tc: int, tr: int, b1: Board, b2: Board, free: bool ::
      b1.width == b2.width && b1.height == b2.height && PieceAt(b1, tc, tr) == PieceAt(b2, tc, tr)
      ==> base(p, tc, tr, b1, free) == base(p, tc, tr, b2, free)
  }

  /** The eight (column, row) displacements, in the order the knight visits them. */
  const Offsets: seq<(int, int)> :=
    [(-1, -2), (1, -2), (-1, 2), (1, 2), (-2, -1), (2, -1), (-2, 1), (2, 1)]

  function Abs(x: int): nat
  {
    if x < 0 then -x else x
  }

  /** The target cells of a knight on (col, row), in visiting order. */
  function KnightTargets(col: int, row: int): (ts: seq<(int, int)>)
    ensures |ts| == |Offsets|
    ensures forall i :: 0 <= i < |ts| ==> ts[i] == (col + Offsets[i].0, row + Offsets[i].1)
  {
    [(col - 1, row - 2), (col + 1, row - 2), (col - 1, row + 2), (col + 1, row + 2),
     (col - 2, row - 1), (col + 2, row - 1), (col - 2, row + 1), (col + 2, row + 1)]
  }

  /** The arithmetic shape test (both distances non-zero, summing to 3) picks
      out exactly the eight offsets. */
  lemma LShapeIffOffset(dc: int, dr: int)
    ensures (dc, dr) in Offsets <==> Abs(dc) != 0 && Abs(dr) != 0 && Abs(dc) + Abs(dr) == 3
  {
  }

  /** No two visited targets coincide. */
  lemma TargetsDistinct(col: int, row: int)
    ensures forall i, j :: 0 <= i < j < 8 ==> KnightTargets(col, row)[i] != KnightTargets(col, row)[j]
  {
  }

  /** A cell at a knight offset from (col, row) is one of its targets. */
  lemma OffsetIsTarget(col: int, row: int, tc: int, tr: int)
    requires (tc - col, tr - row) in Offsets
    ensures (tc, tr) in KnightTargets(col, row)
  {
  }

  class Knight {
    var team: Team
    var col: int
    var row: int
    const kind: PieceType := PieceType.Knight

    constructor (team: Team, col: int, row: int)
      ensures this.team == team && this.col == col && this.row == row
      ensures kind == PieceType.Knight
    {
      this.team := team;
      this.col := col;
      this.row := row;
    }

    /** This knight as a value. */
    function View(): Piece
      reads this
    {
      Piece(team, kind, col, row)
    }

    /** A knight jumps: nothing between origin and target can block it. */
    function PathFree(targetCol: int, targetRow: int, board: Board): (free: bool)
      ensures free
    {
      true
    }

    /** A target is valid when the base check accepts it and both distances
        are non-zero and add up to 3; a rejection by the base check is final. */
    function ValidMove(targetCol: int, targetRow: int, board: Board, base: BaseCheck): (ok: bool)
      reads this
      ensures ok ==> base(View(), targetCol, targetRow, board, true)
    {
      if !base(View(), targetCol, targetRow, board, PathFree(targetCol, targetRow, board)) then false
      else
        var distCol := Abs(col - targetCol);
        var distRow := Abs(row - targetRow);
        if distCol == 0 || distRow == 0 then false
        else if distCol + distRow != 3 then false
        else true
    }

    /** Valid exactly when the base check accepts the target and the
        displacement is one of the eight knight offsets. */
    lemma ValidMoveIffOffset(targetCol: int, targetRow: int, board: Board, base: BaseCheck)
      ensures ValidMove(targetCol, targetRow, board, base)
              <==> base(View(), targetCol, targetRow, board, true) && (targetCol - col, targetRow - row) in Offsets
    {
      LShapeIffOffset(targetCol - col, targetRow - row);
    }

    /** Under a base check that sees only the target cell, nothing else on
        the board, in particular no piece between origin and target, changes
        whether the knight may move there. */
    lemma NotBlocked(b1: Board, b2: Board, targetCol: int, targetRow: int, base: BaseCheck)
      requires SeesOnlyTarget(base)
      requires b1.width == b2.width && b1.height == b2.height
      requires PieceAt(b1, targetCol, targetRow) == PieceAt(b2, targetCol, targetRow)
      ensures ValidMove(targetCol, targetRow, b1, base) == ValidMove(targetCol, targetRow, b2, base)
    {
    }

    /** The target survives both filters of both helpers. */
    predicate Admissible(targetCol: int, targetRow: int, board: Board, base: BaseCheck)
      reads this
    {
      ValidCoordinates(board, targetCol, targetRow) && ValidMove(targetCol, targetRow, board, base)
    }

    /** An admissible target is at a knight offset. */
    lemma AdmissibleIsOffset(targetCol: int, targetRow: int, board: Board, base: BaseCheck)
      requires Admissible(targetCol, targetRow, board, base)
      ensures (targetCol - col, targetRow - row) in Offsets
      ensures (targetCol, targetRow) in KnightTargets(col, row)
    {
      ValidMoveIffOffset(targetCol, targetRow, board, base);
      OffsetIsTarget(col, row, targetCol, targetRow);
    }

    /** The move to the target, when it is admissible; nothing otherwise. */
    function MoveIfAdmissible(targetCol: int, targetRow: int, board: Board, base: BaseCheck): seq<Move>
      reads this
    {
      if Admissible(targetCol, targetRow, board, base) then [Move(team, col, row, targetCol, targetRow)] else []
    }

    /** `p` is an enemy piece on a cell this knight may move to. */
    predicate CanTake(p: Piece, board: Board, base: BaseCheck)
      reads this
    {
      Admissible(p.col, p.row, board, base)
      && PieceAt(board, p.col, p.row) == Some(PieceInfo(p.team, p.kind)) && p.team != team
    }

    /** The enemy piece this knight takes by jumping to the target, if any. */
    function TakeAt(targetCol: int, targetRow: int, board: Board, base: BaseCheck): (taken: set<Piece>)
      reads this
      ensures forall p :: p in taken <==> p.col == targetCol && p.row == targetRow && CanTake(p, board, base)
    {
      var target := PieceAt(board, targetCol, targetRow);
      if Admissible(targetCol, targetRow, board, base) && target.Some? && target.value.team != team
      then {Piece(target.value.team, target.value.kind, targetCol, targetRow)}
      else {}
    }

    /** The enemy pieces on the admissible cells among the first `n` of `targets`. */
    function TakenFrom(targets: seq<(int, int)>, n: nat, board: Board, base: BaseCheck): set<Piece>
      requires n <= |targets|
      reads this
    {
      if n == 0 then {}
      else TakenFrom(targets, n - 1, board, base) + TakeAt(targets[n - 1].0, targets[n - 1].1, board, base)
    }

    /** A piece is taken from the first `n` targets exactly when it stands on
        one of them and this knight can take it. */
    lemma {:induction false} TakenFromIff(targets: seq<(int, int)>, n: nat, board: Board, base: BaseCheck)
      requires n <= |targets|
      ensures forall p :: p in TakenFrom(targets, n, board, base) <==>
                (p.col, p.row) in targets[..n] && CanTake(p, board, base)
    {
      if n != 0 {
        TakenFromIff(targets, n - 1, board, base);
        assert targets[..n] == targets[..n - 1] + [targets[n - 1]];
      }
    }

    /** Adds the enemy piece on the target, when the knight may jump there;
        that target is `targets[k]`, and the pieces so far are those on the
        targets before it. */
    method AddPieceFromJump(targetCol: int, targetRow: int, result: set<Piece>, board: Board, base: BaseCheck,
                            ghost targets: seq<(int, int)>, ghost k: nat)
      returns (result': set<Piece>)
      requires k < |targets| && targets[k] == (targetCol, targetRow)
      requires result == TakenFrom(targets, k, board, base)
      ensures result' == result + TakeAt(targetCol, targetRow, board, base)
      ensures result' == TakenFrom(targets, k + 1, board, base)
    {
      result' := result;
      if ValidCoordinates(board, targetCol, targetRow) && ValidMove(targetCol, targetRow, board, base) {
        var target := PieceAt(board, targetCol, targetRow);
        if target.Some? && target.value.team != team {
          result' := result + {Piece(target.value.team, target.value.kind, targetCol, targetRow)};
        }
      }
    }

    /** The pieces taken from this knight's own eight targets are exactly
        the enemy pieces it can take, each at a knight offset. */
    lemma KnightTakesProperties(taken: set<Piece>, board: Board, base: BaseCheck)
      requires taken == TakenFrom(KnightTargets(col, row), 8, board, base)
      ensures forall p :: p in taken <==> CanTake(p, board, base)
      ensures forall p :: p in taken ==> p.team != team && (p.col - col, p.row - row) in Offsets
    {
      var ts := KnightTargets(col, row);
      TakenFromIff(ts, 8, board, base);
      assert ts[..8] == ts;
      forall p | CanTake(p, board, base) ensures (p.col, p.row) in ts && (p.col - col, p.row - row) in Offsets {
        AdmissibleIsOffset(p.col, p.row, board, base);
      }
    }

    /** Exactly the enemy pieces standing on cells this knight may move to. */
    method CanTakeThese(board: Board, base: BaseCheck) returns (result: set<Piece>)
      ensures forall p :: p in result <==> CanTake(p, board, base)
      ensures forall p :: p in result ==> p.team != team && (p.col - col, p.row - row) in Offsets
    {
      ghost var ts := KnightTargets(col, row);
      result := {};
      result := AddPieceFromJump(col - 1, row - 2, result, board, base, ts, 0);
      result := AddPieceFromJump(col + 1, row - 2, result, board, base, ts, 1);
      result := AddPieceFromJump(col - 1, row + 2, result, board, base, ts, 2);
      result := AddPieceFromJump(col + 1, row + 2, result, board, base, ts, 3);
      result := AddPieceFromJump(col - 2, row - 1, result, board, base, ts, 4);
      result := AddPieceFromJump(col + 2, row - 1, result, board, base, ts, 5);
      result := AddPieceFromJump(col - 2, row + 1, result, board, base, ts, 6);
      result := AddPieceFromJump(col + 2, row + 1, result, board, base, ts, 7);
      KnightTakesProperties(result, board, base);
    }

    /** The moves to the admissible cells among the first `n` of `targets`,
        in the order of `targets`. */
    function MovesTo(targets: seq<(int, int)>, n: nat, board: Board, base: BaseCheck): seq<Move>
      requires n <= |targets|
      reads this
    {
      if n == 0 then []
      else MovesTo(targets, n - 1, board, base) + MoveIfAdmissible(targets[n - 1].0, targets[n - 1].1, board, base)
    }

    lemma {:induction false} MovesToLength(targets: seq<(int, int)>, n: nat, board: Board, base: BaseCheck)
      requires n <= |targets|
      ensures |MovesTo(targets, n, board, base)| <= n
    {
      if n != 0 {
        MovesToLength(targets, n - 1, board, base);
      }
    }

    /** Every generated move is this knight's, from its cell, to an admissible
        target among the first `n`. */
    lemma {:induction false} MovesToSound(targets: seq<(int, int)>, n: nat, board: Board, base: BaseCheck)
      requires n <= |targets|
      ensures forall m :: m in MovesTo(targets, n, board, base) ==>
                m.team == team && m.fromCol == col && m.fromRow == row
                && (m.toCol, m.toRow) in targets[..n] && Admissible(m.toCol, m.toRow, board, base)
    {
      if n != 0 {
        MovesToSound(targets, n - 1, board, base);
        assert targets[..n] == targets[..n - 1] + [targets[n - 1]];
      }
    }

    /** Every admissible target among the first `n` gets a move. */
    lemma {:induction false} MovesToComplete(targets: seq<(int, int)>, n: nat, board: Board, base: BaseCheck)
      requires n <= |targets|
      ensures forall i :: 0 <= i < n && Admissible(targets[i].0, targets[i].1, board, base) ==>
                exists m :: m in MovesTo(targets, n, board, base) && m.toCol == targets[i].0 && m.toRow == targets[i].1
    {
      if n != 0 {
        MovesToComplete(targets, n - 1, board, base);
        var ms := MovesTo(targets, n, board, base);
        forall i | 0 <= i < n && Admissible(targets[i].0, targets[i].1, board, base)
          ensures exists m :: m in ms && m.toCol == targets[i].0 && m.toRow == targets[i].1
        {
          if i < n - 1 {
            var m :| m in MovesTo(targets, n - 1, board, base) && m.toCol == targets[i].0 && m.toRow == targets[i].1;
            assert m in ms;
          } else {
            assert Move(team, col, row, targets[i].0, targets[i].1) in ms;
          }
        }
      }
    }

    /** No two moves of `ms` share a destination. */
    predicate DistinctDestinations(ms: seq<Move>)
    {
      forall i, j :: 0 <= i < j < |ms| ==> (ms[i].toCol, ms[i].toRow) != (ms[j].toCol, ms[j].toRow)
    }

    /** Distinct targets give moves with distinct destinations. */
    lemma {:induction false} MovesToDistinct(targets: seq<(int, int)>, n: nat, board: Board, base: BaseCheck)
      requires n <= |targets|
      requires forall i, j :: 0 <= i < j < |targets| ==> targets[i] != targets[j]
      ensures DistinctDestinations(MovesTo(targets, n, board, base))
    {
      if n != 0 {
        MovesToDistinct(targets, n - 1, board, base);
        MovesToSound(targets, n - 1, board, base);
        var t := targets[n - 1];
        assert t !in targets[..n - 1];
        var rest := MovesTo(targets, n - 1, board, base);
        forall i | 0 <= i < |rest| ensures (rest[i].toCol, rest[i].toRow) != t {
          assert rest[i] in rest;
        }
        var ms := MovesTo(targets, n, board, base);
        assert DistinctDestinations(rest);
        forall i, j | 0 <= i < j < |ms| ensures (ms[i].toCol, ms[i].toRow) != (ms[j].toCol, ms[j].toRow) {
          if Admissible(t.0, t.1, board, base) {
            assert ms == rest + [Move(team, col, row, t.0, t.1)];
            assert ms[i] == rest[i];
            if j == |rest| {
              assert (ms[j].toCol, ms[j].toRow) == t;
              assert (rest[i].toCol, rest[i].toRow) != t;
            } else {
              assert ms[j] == rest[j];
              assert (rest[i].toCol, rest[i].toRow) != (rest[j].toCol, rest[j].toRow);
            }
          } else {
            assert ms == rest;
            assert (rest[i].toCol, rest[i].toRow) != (rest[j].toCol, rest[j].toRow);
          }
        }
      }
    }

    /** Appends the move to (targetCol, targetRow) when that target is
        admissible; that target is `targets[k]`, and the moves so far are
        those of the targets before it. */
    method AddMoveIfValid(targetCol: int, targetRow: int, allMoves: seq<Move>, board: Board, base: BaseCheck,
                          ghost targets: seq<(int, int)>, ghost k: nat)
      returns (allMoves': seq<Move>)
      requires k < |targets| && targets[k] == (targetCol, targetRow)
      requires allMoves == MovesTo(targets, k, board, base)
      ensures allMoves' == allMoves + MoveIfAdmissible(targetCol, targetRow, board, base)
      ensures allMoves' == MovesTo(targets, k + 1, board, base)
    {
      allMoves' := allMoves;
      if ValidCoordinates(board, targetCol, targetRow) && ValidMove(targetCol, targetRow, board, base) {
        allMoves' := allMoves + [Move(team, col, row, targetCol, targetRow)];
      }
    }

    /** The moves to this knight's own eight targets: at most eight, sound,
        complete and with distinct destinations. */
    lemma KnightMovesProperties(ms: seq<Move>, board: Board, base: BaseCheck)
      requires ms == MovesTo(KnightTargets(col, row), 8, board, base)
      ensures |ms| <= 8
      ensures forall m :: m in ms ==>
                m.team == team && m.fromCol == col && m.fromRow == row
                && ValidCoordinates(board, m.toCol, m.toRow) && ValidMove(m.toCol, m.toRow, board, base)
      ensures forall tc, tr :: ValidCoordinates(board, tc, tr) && ValidMove(tc, tr, board, base) ==>
                exists m :: m in ms && m.toCol == tc && m.toRow == tr
      ensures forall i, j :: 0 <= i < j < |ms| ==>
                (ms[i].toCol, ms[i].toRow) != (ms[j].toCol, ms[j].toRow)
    {
      var ts := KnightTargets(col, row);
      MovesToLength(ts, 8, board, base);
      MovesToSound(ts, 8, board, base);
      MovesToComplete(ts, 8, board, base);
      TargetsDistinct(col, row);
      MovesToDistinct(ts, 8, board, base);
      forall tc, tr | ValidCoordinates(board, tc, tr) && ValidMove(tc, tr, board, base)
        ensures exists m :: m in ms && m.toCol == tc && m.toRow == tr
      {
        AdmissibleIsOffset(tc, tr, board, base);
        var i :| 0 <= i < 8 && ts[i] == (tc, tr);
      }
    }

    /** The moves to every in-bounds cell this knight may move to, at most
        eight, with distinct destinations, in the fixed offset order. */
    method GenerateAllPossibleMoves(board: Board, base: BaseCheck) returns (moves: seq<Move>)
      ensures moves == MovesTo(KnightTargets(col, row), 8, board, base)
      ensures |moves| <= 8
      ensures forall m :: m in moves ==>
                m.team == team && m.fromCol == col && m.fromRow == row
                && ValidCoordinates(board, m.toCol, m.toRow) && ValidMove(m.toCol, m.toRow, board, base)
      ensures forall tc, tr :: ValidCoordinates(board, tc, tr) && ValidMove(tc, tr, board, base) ==>
                exists m :: m in moves && m.toCol == tc && m.toRow == tr
      ensures forall i, j :: 0 <= i < j < |moves| ==>
                (moves[i].toCol, moves[i].toRow) != (moves[j].toCol, moves[j].toRow)
    {
      ghost var ts := KnightTargets(col, row);
      moves := [];
      moves := AddMoveIfValid(col - 1, row - 2, moves, board, base, ts, 0);
      moves := AddMoveIfValid(col + 1, row - 2, moves, board, base, ts, 1);
      moves := AddMoveIfValid(col - 1, row + 2, moves, board, base, ts, 2);
      moves := AddMoveIfValid(col + 1, row + 2, moves, board, base, ts, 3);
      moves := AddMoveIfValid(col - 2, row - 1, moves, board, base, ts, 4);
      moves := AddMoveIfValid(col + 2, row - 1, moves, board, base, ts, 5);
      moves := AddMoveIfValid(col - 2, row + 1, moves, board, base, ts, 6);
      moves := AddMoveIfValid(col + 2, row + 1, moves, board, base, ts, 7);
      KnightMovesProperties(moves, board, base);
    }

    /** From a corner of an 8 x 8 board, with a base check that rejects
        nothing, only two of the eight targets survive the bounds filter. */
    lemma CornerHasTwoMoves(board: Board, base: BaseCheck)
      requires col == 0 && row == 0 && board.width == 8 && board.height == 8
      requires forall tc, tr :: base(View(), tc, tr, board, true)
      ensures MovesTo(KnightTargets(col, row), 8, board, base) == [Move(team, 0, 0, 1, 2), Move(team, 0, 0, 2, 1)]
    {
      var ts := KnightTargets(col, row);
      assert MovesTo(ts, 1, board, base) == [];
      assert MovesTo(ts, 2, board, base) == [];
      assert MovesTo(ts, 3, board, base) == [];
      assert MoveIfAdmissible(1, 2, board, base) == [Move(team, 0, 0, 1, 2)];
      assert MovesTo(ts, 4, board, base) == [Move(team, 0, 0, 1, 2)];
      assert MovesTo(ts, 5, board, base) == [Move(team, 0, 0, 1, 2)];
      assert MovesTo(ts, 6, board, base) == [Move(team, 0, 0, 1, 2)];
      assert MovesTo(ts, 7, board, base) == [Move(team, 0, 0, 1, 2)];
      assert MoveIfAdmissible(2, 1, board, base) == [Move(team, 0, 0, 2, 1)];
    }

    /** From the centre of an 8 x 8 board, with a base check that rejects
        nothing, all eight targets give a move. */
    lemma CentreHasEightMoves(board: Board, base: BaseCheck)
      requires col == 3 && row == 3 && board.width == 8 && board.height == 8
      requires forall tc, tr :: base(View(), tc, tr, board, true)
      ensures |MovesTo(KnightTargets(col, row), 8, board, base)| == 8
    {
      var ts := KnightTargets(col, row);
      forall k | 0 <= k < 8 ensures |MoveIfAdmissible(ts[k].0, ts[k].1, board, base)| == 1 {
        assert Admissible(ts[k].0, ts[k].1, board, base);
      }
      assert |MovesTo(ts, 1, board, base)| == 1;
      assert |MovesTo(ts, 2, board, base)| == 2;
      assert |MovesTo(ts, 3, board, base)| == 3;
      assert |MovesTo(ts, 4, board, base)| == 4;
      assert |MovesTo(ts, 5, board, base)| == 5;
      assert |MovesTo(ts, 6, board, base)| == 6;
      assert |MovesTo(ts, 7, board, base)| == 7;
      assert |MovesTo(ts, 8, board, base)| == 8;
    }

    /** A new, independent knight with the same team and position. */
    method Copy() returns (k: Knight)
      ensures fresh(k)
      ensures k.team == team && k.col == col && k.row == row && k.kind == PieceType.Knight
    {
      k := new Knight(team, col, row);
    }
  }
}
