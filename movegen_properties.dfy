/*
 * What the move generators promise: the pawn rules (push, double push,
 * promotion fan-out, captures of the enemy only, en passant onto the
 * en-passant tile), the sliding ray as the same walk the attack query
 * makes, steps that land on the board, and castling exactly when its
 * right, its empty squares and its unattacked squares are all there.
 */
module MoveGenProperties {
  import opened Wrappers
  import opened TileCoordinate
  import opened ChessDefinitions
  import opened ChessMove
  import opened ChessGameStatics
  import opened ChessBoardTile
  import opened Board
  import opened Attack
  import opened MoveGeneration

  // ---------------------------------------------------------------- pawns

  /**
   * Every move of one pawn fan-out goes from `from` to `to`, captures what
   * it was given and has no flag; it promotes exactly when the pawn stands
   * on its promotion rank, and then the four moves promote to queen, rook,
   * bishop and knight of the pawn's colour, in that order.
   */
  lemma PawnMovesFields(from: TileCoord, to: TileCoord, captured: Option<TileState>, white: bool)
    requires from.ToInt() < 128 && to.ToInt() < 128
    ensures forall m :: m in PawnMoves(from, to, captured, white) ==>
      && m.GetFromTileIndex() == from.ToInt() && m.GetToTileIndex() == to.ToInt()
      && m.GetCapturedPiece() == CodeOf(captured)
      && !m.IsEnPassantMove() && !m.IsPawnStartMove() && !m.IsCastlingMove()
      && (IsPromotionMove(m) <==> from.rank == PromotionRank(white))
    ensures from.rank == PromotionRank(white) ==>
      forall k :: 0 <= k < 4 ==> PawnMoves(from, to, captured, white)[k].GetPromotedPiece() == GetCode(PromotionPieces(white)[k])
  {
    var ps := PromotionPieces(white);
    var ms := PawnMoves(from, to, captured, white);
    if from.rank == PromotionRank(white) {
      forall k | 0 <= k < 4
        ensures ms[k] == NewMove(from, to, captured, Some(ps[k]), 0)
      {
      }
      forall k | 0 <= k < 4
        ensures PlainMove(ms[k], from, to, captured) && ms[k].GetPromotedPiece() == GetCode(ps[k]) && IsPromotionMove(ms[k])
      {
        PlainMoveFields(from, to, captured, Some(ps[k]));
      }
    } else {
      PlainMoveFields(from, to, captured, None);
    }
  }

  /** A move from `from` to `to` capturing `captured` and carrying no flag. */
  predicate PlainMove(m: ChessMove, from: TileCoord, to: TileCoord, captured: Option<TileState>) {
    && m.GetFromTileIndex() == from.ToInt() && m.GetToTileIndex() == to.ToInt()
    && m.GetCapturedPiece() == CodeOf(captured)
    && !m.IsEnPassantMove() && !m.IsPawnStartMove() && !m.IsCastlingMove()
  }

  /** A move packed without flags decodes to what was packed. */
  lemma PlainMoveFields(from: TileCoord, to: TileCoord, captured: Option<TileState>, promoted: Option<TileState>)
    requires from.ToInt() < 128 && to.ToInt() < 128
    ensures PlainMove(NewMove(from, to, captured, promoted, 0), from, to, captured)
    ensures NewMove(from, to, captured, promoted, 0).GetPromotedPiece() == CodeOf(promoted)
  {
    assert IsFlagSet(0);
    NewMoveRoundTrip(from, to, captured, promoted, 0);
  }

  /** A pawn capture takes an enemy piece standing on the diagonal cell. */
  lemma PawnCaptureFields(ts: seq<ChessBoardTile>, from: TileCoord, i: int, white: bool)
    requires SaneTiles(ts) && IsListedCoord(from) && 0 <= i < BoardSize
    ensures forall m :: m in PawnCapture(ts, from, i, white) ==>
      && m.GetFromTileIndex() == from.ToInt() && m.GetToTileIndex() == ts[i].coords.ToInt()
      && !ts[i].IsEmpty() && GetColor(ts[i].GetPiece()) == Enemy(white)
      && IsCaptureMove(m) && m.GetCapturedPiece() == GetCode(ts[i].GetPiece())
      && !m.IsEnPassantMove() && !m.IsPawnStartMove() && !m.IsCastlingMove()
  {
    if !ts[i].IsEmpty() && GetColor(ts[i].GetPiece()) == Enemy(white) {
      PawnMovesFields(from, ts[i].GetPosition(), Some(ts[i].GetPiece()), white);
    }
  }

  /** An en-passant capture is a flagged move onto the en-passant tile, capturing no recorded piece. */
  lemma EnPassantFields(ts: seq<ChessBoardTile>, ep: Option<int>, from: TileCoord, i: int)
    requires SaneTiles(ts) && IsListedCoord(from) && 0 <= i < BoardSize
    ensures forall m :: m in EnPassantCapture(ts, ep, from, i) ==>
      && ep == Some(i)
      && m.GetFromTileIndex() == from.ToInt() && m.GetToTileIndex() == ts[i].coords.ToInt()
      && m.IsEnPassantMove() && !m.IsPawnStartMove() && !m.IsCastlingMove()
      && !IsCaptureMove(m) && !IsPromotionMove(m)
  {
    if ep == Some(i) {
      assert IsFlagSet(FlagEnPassant);
      NewMoveRoundTrip(from, ts[i].GetPosition(), None, None, FlagEnPassant);
    }
  }

  /** The double push: the pawn-start flag alone, from `from` to `to`. */
  lemma PawnStartFields(from: TileCoord, to: TileCoord)
    requires from.ToInt() < 128 && to.ToInt() < 128
    ensures var m := Quiet(from, to, FlagPawnStart);
      && m.GetFromTileIndex() == from.ToInt() && m.GetToTileIndex() == to.ToInt()
      && m.IsPawnStartMove() && !m.IsEnPassantMove() && !m.IsCastlingMove()
      && !IsCaptureMove(m) && !IsPromotionMove(m)
  {
    assert IsFlagSet(FlagPawnStart);
    NewMoveRoundTrip(from, to, None, None, FlagPawnStart);
  }

  /**
   * GeneratePawnMoves gives a pawn no move at all while the square ahead
   * is occupied (captures included, as written), and otherwise a
   * pawn-start move exactly when the pawn stands on its start rank and both
   * squares ahead are empty, landing two squares ahead.
   */
  lemma PawnPushRules(ts: seq<ChessBoardTile>, ep: Option<int>, from: TileCoord, white: bool)
    requires SaneTiles(ts) && IsListedCoord(from)
    ensures var fi := from.ToInt(); var f := Forward(white);
      && (PawnMovesFrom(ts, ep, from, white) != [] ==> ts[fi + f].IsEmpty())
      && (forall m :: m in PawnMovesFrom(ts, ep, from, white) && m.IsPawnStartMove() ==>
            && from.rank == StartRank(white) && ts[fi + f].IsEmpty() && ts[fi + 2 * f].IsEmpty()
            && m.GetFromTileIndex() == fi && m.GetToTileIndex() == ts[fi + 2 * f].coords.ToInt()
            && !IsCaptureMove(m) && !IsPromotionMove(m))
      && ((exists m :: m in PawnMovesFrom(ts, ep, from, white) && m.IsPawnStartMove()) <==>
            from.rank == StartRank(white) && ts[fi + f].IsEmpty() && ts[fi + 2 * f].IsEmpty())
  {
    var fi := from.ToInt();
    var f := Forward(white);
    if ts[fi + f].IsEmpty() {
      PawnMovesFields(from, ts[fi + f].GetPosition(), None, white);
      PawnCapturesFields(ts, from, white);
      PawnEnPassantFields(ts, ep, from, white);
      PawnStartFields(from, ts[fi + 2 * f].GetPosition());
      if from.rank == StartRank(white) && ts[fi + 2 * f].IsEmpty() {
        assert DoublePush(ts, from, white)[0] in PawnMovesFrom(ts, ep, from, white);
      }
    }
  }

  /** Both diagonal captures of one pawn: each takes an enemy piece on one of the two diagonal cells. */
  lemma PawnCapturesFields(ts: seq<ChessBoardTile>, from: TileCoord, white: bool)
    requires SaneTiles(ts) && IsListedCoord(from)
    ensures var fi := from.ToInt();
      forall m :: m in PawnCaptures(ts, from, white) ==>
        && !m.IsPawnStartMove() && !m.IsEnPassantMove() && IsCaptureMove(m) && m.GetFromTileIndex() == fi
        && exists i :: i in {fi + Diagonal(white, 9), fi + Diagonal(white, 11)} && 0 <= i < BoardSize
             && m.GetToTileIndex() == ts[i].coords.ToInt()
             && GetColor(ts[i].GetPiece()) == Enemy(white) && m.GetCapturedPiece() == GetCode(ts[i].GetPiece())
  {
    var fi := from.ToInt();
    PawnCaptureFields(ts, from, fi + Diagonal(white, 9), white);
    PawnCaptureFields(ts, from, fi + Diagonal(white, 11), white);
  }

  /** Both en-passant captures of one pawn: each lands on the en-passant tile, one of the two diagonal cells. */
  lemma PawnEnPassantFields(ts: seq<ChessBoardTile>, ep: Option<int>, from: TileCoord, white: bool)
    requires SaneTiles(ts) && IsListedCoord(from)
    ensures var fi := from.ToInt();
      forall m :: m in EnPassantCaptures(ts, ep, from, white) ==>
        && !m.IsPawnStartMove() && m.IsEnPassantMove() && !IsCaptureMove(m) && m.GetFromTileIndex() == fi
        && ep.Some? && ep.value in {fi + Diagonal(white, 9), fi + Diagonal(white, 11)}
        && m.GetToTileIndex() == ts[ep.value].coords.ToInt()
  {
    var fi := from.ToInt();
    EnPassantFields(ts, ep, from, fi + Diagonal(white, 9));
    EnPassantFields(ts, ep, from, fi + Diagonal(white, 11));
  }

  /**
   * Every capture GeneratePawnMoves lists takes an enemy piece on one of
   * the pawn's two diagonal cells, and every en-passant move lands on the
   * en-passant tile, which is one of those cells.
   */
  lemma PawnCaptureRules(ts: seq<ChessBoardTile>, ep: Option<int>, from: TileCoord, white: bool)
    requires SaneTiles(ts) && IsListedCoord(from)
    ensures var fi := from.ToInt();
      && (forall m :: m in PawnMovesFrom(ts, ep, from, white) ==> m.GetFromTileIndex() == fi)
      && (forall m :: m in PawnMovesFrom(ts, ep, from, white) && IsCaptureMove(m) ==>
            exists i :: i in {fi + Diagonal(white, 9), fi + Diagonal(white, 11)} && 0 <= i < BoardSize
              && m.GetToTileIndex() == ts[i].coords.ToInt()
              && GetColor(ts[i].GetPiece()) == Enemy(white) && m.GetCapturedPiece() == GetCode(ts[i].GetPiece()))
      && (forall m :: m in PawnMovesFrom(ts, ep, from, white) && m.IsEnPassantMove() ==>
            ep.Some? && ep.value in {fi + Diagonal(white, 9), fi + Diagonal(white, 11)})
  {
    forall m | m in PawnMovesFrom(ts, ep, from, white) {
      PawnMoveRules(ts, ep, from, white, m);
    }
  }

  /** One move of GeneratePawnMoves: from the pawn, a capture onto an enemy on a diagonal, an en-passant move onto the en-passant tile. */
  lemma PawnMoveRules(ts: seq<ChessBoardTile>, ep: Option<int>, from: TileCoord, white: bool, m: ChessMove)
    requires SaneTiles(ts) && IsListedCoord(from) && m in PawnMovesFrom(ts, ep, from, white)
    ensures var fi := from.ToInt();
      && m.GetFromTileIndex() == fi
      && (IsCaptureMove(m) ==>
            exists i :: i in {fi + Diagonal(white, 9), fi + Diagonal(white, 11)} && 0 <= i < BoardSize
              && m.GetToTileIndex() == ts[i].coords.ToInt()
              && GetColor(ts[i].GetPiece()) == Enemy(white) && m.GetCapturedPiece() == GetCode(ts[i].GetPiece()))
      && (m.IsEnPassantMove() ==> ep.Some? && ep.value in {fi + Diagonal(white, 9), fi + Diagonal(white, 11)})
  {
    var fi := from.ToInt();
    var f := Forward(white);
    PawnMovesFromParts(ts, ep, from, white, m);
    if m in PawnMoves(from, ts[fi + f].GetPosition(), None, white) {
      PawnMovesFields(from, ts[fi + f].GetPosition(), None, white);
    } else if m in DoublePush(ts, from, white) {
      PawnStartFields(from, ts[fi + 2 * f].GetPosition());
    } else if m in PawnCaptures(ts, from, white) {
      PawnCapturesFields(ts, from, white);
    } else {
      PawnEnPassantFields(ts, ep, from, white);
    }
  }

  /** A move of GeneratePawnMoves comes from one of its four parts, all made only when the square ahead is empty. */
  lemma PawnMovesFromParts(ts: seq<ChessBoardTile>, ep: Option<int>, from: TileCoord, white: bool, m: ChessMove)
    requires SaneTiles(ts) && IsListedCoord(from) && m in PawnMovesFrom(ts, ep, from, white)
    ensures var fi := from.ToInt(); var f := Forward(white);
      && ts[fi + f].IsEmpty()
      && (|| m in PawnMoves(from, ts[fi + f].GetPosition(), None, white)
          || m in DoublePush(ts, from, white)
          || m in PawnCaptures(ts, from, white)
          || m in EnPassantCaptures(ts, ep, from, white))
  {
  }

  // ---------------------------------------------------------------- sliding rays

  /** The move a ray or a step makes onto an occupied cell: a capture of the piece there. */
  lemma CaptureMoveFields(from: TileCoord, to: TileCoord, q: TileState)
    requires from.ToInt() < 128 && to.ToInt() < 128 && q != NoPiece
    ensures var m := NewMove(from, to, Some(q), None, 0);
      && m.GetFromTileIndex() == from.ToInt() && m.GetToTileIndex() == to.ToInt()
      && IsCaptureMove(m) && m.GetCapturedPiece() == GetCode(q) && !IsPromotionMove(m)
      && !m.IsEnPassantMove() && !m.IsPawnStartMove() && !m.IsCastlingMove()
  {
    assert IsFlagSet(0);
    NewMoveRoundTrip(from, to, Some(q), None, 0);
  }

  /** The move a ray or a step makes onto an empty cell: a quiet move. */
  lemma QuietMoveFields(from: TileCoord, to: TileCoord)
    requires from.ToInt() < 128 && to.ToInt() < 128
    ensures var m := Quiet(from, to, 0);
      && m.GetFromTileIndex() == from.ToInt() && m.GetToTileIndex() == to.ToInt()
      && !IsCaptureMove(m) && !IsPromotionMove(m)
      && !m.IsEnPassantMove() && !m.IsPawnStartMove() && !m.IsCastlingMove()
  {
    assert IsFlagSet(0);
    NewMoveRoundTrip(from, to, None, None, 0);
  }

  /** The j-th move of one ray of GenerateSlideMoves is the ray move onto the on-board cell pos + j*d. */
  lemma {:induction false} SlideRayMove(ts: seq<ChessBoardTile>, from: TileCoord, pos: int, d: int, side: PieceColor, j: int)
    requires CellsIndexed(ts) && 0 <= pos < BoardSize && d in KingDirections
    requires 0 <= j < |SlideRay(ts, from, pos, d, side)|
    ensures 0 <= Step(pos, d, j) < BoardSize && ts[Step(pos, d, j)].IsOnBoard()
    ensures SlideRay(ts, from, pos, d, side)[j] == RayMove(ts, from, Step(pos, d, j))
    decreases j
  {
    StepShift(pos, d, 0);
    if j > 0 {
      var rest := SlideRay(ts, from, pos + d, d, side);
      assert SlideRay(ts, from, pos, d, side)[j] == rest[j - 1];
      SlideRayMove(ts, from, pos + d, d, side, j - 1);
      StepShift(pos, d, j - 1);
    }
  }

  /** The cells before the last move of a ray form a clear run, and the last move lands on the board. */
  lemma {:induction false} RayRun(ts: seq<ChessBoardTile>, pos: int, d: int, side: PieceColor)
    requires CellsIndexed(ts) && 0 <= pos < BoardSize && d in KingDirections
    ensures var n := RayCount(ts, pos, d, side);
      n > 0 ==> ClearRun(ts, pos, d, n - 1) && 0 <= Step(pos, d, n - 1) < BoardSize && ts[Step(pos, d, n - 1)].IsOnBoard()
    decreases if d > 0 then BoardSize - pos else pos
  {
    StepShift(pos, d, 0);
    if ts[pos].IsOnBoard() && ts[pos].IsEmpty() {
      var n' := RayCount(ts, pos + d, d, side);
      RayRun(ts, pos + d, d, side);
      if n' > 0 {
        StepShift(pos, d, n' - 1);
      }
    }
  }

  /** The number of moves one ray of GenerateSlideMoves makes from cell pos: one per empty cell, and one more for an opponent. */
  function RayCount(ts: seq<ChessBoardTile>, pos: int, d: int, side: PieceColor): nat
    requires CellsIndexed(ts) && 0 <= pos < BoardSize && d in KingDirections
    decreases if d > 0 then BoardSize - pos else pos
  {
    if !ts[pos].IsOnBoard() then 0
    else if !ts[pos].IsEmpty() then (if IsOpponentOf(ts[pos].GetPiece(), side) then 1 else 0)
    else 1 + RayCount(ts, pos + d, d, side)
  }

  /** One ray of GenerateSlideMoves makes RayCount moves. */
  lemma {:induction false} SlideRayCount(ts: seq<ChessBoardTile>, from: TileCoord, pos: int, d: int, side: PieceColor)
    requires CellsIndexed(ts) && 0 <= pos < BoardSize && d in KingDirections
    ensures |SlideRay(ts, from, pos, d, side)| == RayCount(ts, pos, d, side)
    decreases if d > 0 then BoardSize - pos else pos
  {
    StepShift(pos, d, 0);
    if ts[pos].IsOnBoard() && ts[pos].IsEmpty() {
      assert |SlideRay(ts, from, pos, d, side)| == 1 + |SlideRay(ts, from, pos + d, d, side)|;
      SlideRayCount(ts, from, pos + d, d, side);
    }
  }

  /** A ray whose last move lands on an occupied cell ends on an opponent, the first piece the ray meets. */
  lemma {:induction false} RayCaptureEnd(ts: seq<ChessBoardTile>, pos: int, d: int, side: PieceColor)
    requires CellsIndexed(ts) && 0 <= pos < BoardSize && d in KingDirections
    ensures var n := RayCount(ts, pos, d, side);
      n > 0 && 0 <= Step(pos, d, n - 1) < BoardSize && !ts[Step(pos, d, n - 1)].IsEmpty() ==>
        IsOpponentOf(ts[Step(pos, d, n - 1)].GetPiece(), side) && RayFirst(ts, pos, d) == Some(ts[Step(pos, d, n - 1)].GetPiece())
    decreases if d > 0 then BoardSize - pos else pos
  {
    StepShift(pos, d, 0);
    if ts[pos].IsOnBoard() && ts[pos].IsEmpty() {
      var n' := RayCount(ts, pos + d, d, side);
      RayCaptureEnd(ts, pos + d, d, side);
      if n' > 0 {
        StepShift(pos, d, n' - 1);
      }
    }
  }

  /** A ray that ends on an empty cell, or makes no move, is a clear run, and the first piece past it is no opponent. */
  lemma {:induction false} RayQuietEnd(ts: seq<ChessBoardTile>, pos: int, d: int, side: PieceColor)
    requires CellsIndexed(ts) && 0 <= pos < BoardSize && d in KingDirections
    ensures var n := RayCount(ts, pos, d, side);
      n == 0 || (0 <= Step(pos, d, n - 1) < BoardSize && ts[Step(pos, d, n - 1)].IsEmpty()) ==>
        ClearRun(ts, pos, d, n) && (RayFirst(ts, pos, d).Some? ==> !IsOpponentOf(RayFirst(ts, pos, d).value, side))
    decreases if d > 0 then BoardSize - pos else pos
  {
    StepShift(pos, d, 0);
    if ts[pos].IsOnBoard() && ts[pos].IsEmpty() {
      var n' := RayCount(ts, pos + d, d, side);
      RayQuietEnd(ts, pos + d, d, side);
      if n' > 0 {
        StepShift(pos, d, n' - 1);
      }
    }
  }

  /** The ray move onto cell i starts at the slider, lands on i, and captures exactly when i is occupied, taking what stands there. */
  lemma RayMoveFields(ts: seq<ChessBoardTile>, from: TileCoord, i: int)
    requires CellsIndexed(ts) && from.ToInt() < 128 && 0 <= i < BoardSize && ts[i].IsOnBoard()
    ensures var m := RayMove(ts, from, i);
      && m.GetFromTileIndex() == from.ToInt() && m.GetToTileIndex() == i
      && (IsCaptureMove(m) <==> !ts[i].IsEmpty())
      && (IsCaptureMove(m) ==> m.GetCapturedPiece() == GetCode(ts[i].GetPiece()))
      && !IsPromotionMove(m) && !m.IsEnPassantMove() && !m.IsPawnStartMove() && !m.IsCastlingMove()
  {
    if ts[i].IsEmpty() {
      QuietMoveFields(from, ts[i].GetPosition());
    } else {
      CaptureMoveFields(from, ts[i].GetPosition(), ts[i].GetPiece());
    }
  }

  /**
   * One ray of GenerateSlideMoves is the walk the attack query makes: its
   * j-th move goes from the slider to cell pos + j*d; every move but the
   * last is a quiet move and the cells up to it are empty and on the board;
   * and the ray ends in a capture exactly when the first piece the walk
   * meets belongs to the opponent, the capture taking that piece.
   */
  lemma SlideRayIsRayWalk(ts: seq<ChessBoardTile>, from: TileCoord, pos: int, d: int, side: PieceColor)
    requires CellsIndexed(ts) && from.ToInt() < 128 && 0 <= pos < BoardSize && d in KingDirections
    ensures var ms := SlideRay(ts, from, pos, d, side);
      && (forall j :: 0 <= j < |ms| ==> ms[j].GetFromTileIndex() == from.ToInt() && ms[j].GetToTileIndex() == Step(pos, d, j))
      && (forall j :: 0 <= j < |ms| - 1 ==> !IsCaptureMove(ms[j]))
      && ClearRun(ts, pos, d, if |ms| > 0 then |ms| - 1 else 0)
      && ((exists j :: 0 <= j < |ms| && IsCaptureMove(ms[j])) <==>
            RayFirst(ts, pos, d).Some? && IsOpponentOf(RayFirst(ts, pos, d).value, side))
      && (|ms| > 0 && IsCaptureMove(ms[|ms| - 1]) ==>
            RayFirst(ts, pos, d).Some? && ms[|ms| - 1].GetCapturedPiece() == GetCode(RayFirst(ts, pos, d).value))
  {
    var ms := SlideRay(ts, from, pos, d, side);
    forall j | 0 <= j < |ms|
      ensures ms[j].GetFromTileIndex() == from.ToInt() && ms[j].GetToTileIndex() == Step(pos, d, j)
      ensures j < |ms| - 1 ==> !IsCaptureMove(ms[j])
    {
      SlideRayMoveAt(ts, from, pos, d, side, j);
    }
    SlideRayCount(ts, from, pos, d, side);
    RayRun(ts, pos, d, side);
    SlideRayEnd(ts, from, pos, d, side);
  }

  /** The j-th move of one ray: from the slider onto pos + j*d, and a capture only when it is the last move. */
  lemma SlideRayMoveAt(ts: seq<ChessBoardTile>, from: TileCoord, pos: int, d: int, side: PieceColor, j: int)
    requires CellsIndexed(ts) && from.ToInt() < 128 && 0 <= pos < BoardSize && d in KingDirections
    requires 0 <= j < |SlideRay(ts, from, pos, d, side)|
    ensures var ms := SlideRay(ts, from, pos, d, side);
      && ms[j].GetFromTileIndex() == from.ToInt() && ms[j].GetToTileIndex() == Step(pos, d, j)
      && (j < |ms| - 1 ==> !IsCaptureMove(ms[j]))
  {
    var ms := SlideRay(ts, from, pos, d, side);
    SlideRayMove(ts, from, pos, d, side, j);
    SlideRayCount(ts, from, pos, d, side);
    RayRun(ts, pos, d, side);
    ClearRunCells(ts, pos, d, |ms| - 1, j);
    RayMoveFields(ts, from, Step(pos, d, j));
  }

  /** The last move of one ray is a capture exactly when the first piece the walk meets is an opponent, and it takes that piece. */
  lemma SlideRayEnd(ts: seq<ChessBoardTile>, from: TileCoord, pos: int, d: int, side: PieceColor)
    requires CellsIndexed(ts) && from.ToInt() < 128 && 0 <= pos < BoardSize && d in KingDirections
    ensures var ms := SlideRay(ts, from, pos, d, side);
      && ((exists j :: 0 <= j < |ms| && IsCaptureMove(ms[j])) <==>
            RayFirst(ts, pos, d).Some? && IsOpponentOf(RayFirst(ts, pos, d).value, side))
      && (|ms| > 0 && IsCaptureMove(ms[|ms| - 1]) ==>
            RayFirst(ts, pos, d).Some? && ms[|ms| - 1].GetCapturedPiece() == GetCode(RayFirst(ts, pos, d).value))
  {
    var ms := SlideRay(ts, from, pos, d, side);
    SlideRayCount(ts, from, pos, d, side);
    if |ms| == 0 {
      RayQuietEnd(ts, pos, d, side);
    } else {
      var last := Step(pos, d, |ms| - 1);
      SlideRayMove(ts, from, pos, d, side, |ms| - 1);
      RayMoveFields(ts, from, last);
      if ts[last].IsEmpty() {
        RayQuietEnd(ts, pos, d, side);
        forall j | 0 <= j < |ms|
          ensures !IsCaptureMove(ms[j])
        {
          if j < |ms| - 1 {
            SlideRayMoveAt(ts, from, pos, d, side, j);
          }
        }
      } else {
        RayCaptureEnd(ts, pos, d, side);
        assert IsCaptureMove(ms[|ms| - 1]);
      }
    }
  }

  /** Every cell of a clear run is inside the array, on the board and empty. */
  lemma {:induction false} ClearRunCells(ts: seq<ChessBoardTile>, pos: int, d: int, k: nat, j: nat)
    requires |ts| == BoardSize && ClearRun(ts, pos, d, k)
    ensures j < k ==> 0 <= Step(pos, d, j) < BoardSize && ts[Step(pos, d, j)].IsOnBoard() && ts[Step(pos, d, j)].IsEmpty()
    decreases k
  {
    StepShift(pos, d, 0);
    if 0 < j < k {
      StepShift(pos, d, j - 1);
      ClearRunCells(ts, pos + d, d, k - 1, j - 1);
    }
  }

  // ---------------------------------------------------------------- knight and king steps

  /**
   * One offset of GenerateNonSlideMoves gives at most one move, onto an
   * on-board cell: a quiet move when the cell is empty, a capture when it
   * holds an opponent, nothing when it holds one of the mover's own pieces.
   */
  lemma StepMoveRules(ts: seq<ChessBoardTile>, from: TileCoord, i: int, side: PieceColor)
    requires SaneTiles(ts) && from.ToInt() < 128 && 0 <= i < BoardSize
    ensures var ms := StepMove(ts, from, i, side);
      && (|ms| == 1 <==> ts[i].IsOnBoard() && (ts[i].IsEmpty() || IsOpponentOf(ts[i].GetPiece(), side)))
      && (forall m :: m in ms ==>
            && IsPlayable(i) && m.GetFromTileIndex() == from.ToInt() && m.GetToTileIndex() == i
            && (IsCaptureMove(m) <==> !ts[i].IsEmpty())
            && (IsCaptureMove(m) ==> m.GetCapturedPiece() == GetCode(ts[i].GetPiece())))
  {
    if ts[i].IsOnBoard() {
      SaneCellIndex(ts, i);
      SaneIsIndexed(ts);
      RayMoveFields(ts, from, i);
    }
  }

  /** All offsets of one knight or king: at most one move each, every one onto a playable cell one offset away. */
  lemma StepMovesRules(ts: seq<ChessBoardTile>, from: TileCoord, dirs: seq<int>, side: PieceColor)
    requires SaneTiles(ts) && IsListedCoord(from)
    requires forall k :: 0 <= k < |dirs| ==> -21 <= dirs[k] <= 21
    ensures |StepMoves(ts, from, dirs, side)| <= |dirs|
    ensures forall m :: m in StepMoves(ts, from, dirs, side) ==>
      && m.GetFromTileIndex() == from.ToInt()
      && IsPlayable(m.GetToTileIndex())
      && exists k :: 0 <= k < |dirs| && m.GetToTileIndex() == from.ToInt() + dirs[k]
  {
    var f := StepFrom(ts, from, side);
    forall k | 0 <= k < |dirs|
      ensures f.requires(dirs[k]) && |f(dirs[k])| <= 1
    {
      assert f(dirs[k]) == StepMove(ts, from, from.ToInt() + dirs[k], side);
    }
    EachDirCount(dirs, f);
    forall m | m in StepMoves(ts, from, dirs, side)
      ensures m.GetFromTileIndex() == from.ToInt() && IsPlayable(m.GetToTileIndex())
      ensures exists k :: 0 <= k < |dirs| && m.GetToTileIndex() == from.ToInt() + dirs[k]
    {
      var k := EachDirMember(dirs, f, m);
      StepMoveRules(ts, from, from.ToInt() + dirs[k], side);
    }
  }

  /** Offsets that give at most one move each give at most one move per offset. */
  lemma {:induction false} EachDirCount(dirs: seq<int>, f: int --> seq<ChessMove>)
    requires forall k :: 0 <= k < |dirs| ==> f.requires(dirs[k]) && |f(dirs[k])| <= 1
    ensures |EachDir(dirs, f)| <= |dirs|
  {
    if dirs != [] {
      EachDirCount(dirs[..|dirs| - 1], f);
    }
  }

  /** A move of EachDir is a move of one of the offsets. */
  lemma {:induction false} EachDirMember(dirs: seq<int>, f: int --> seq<ChessMove>, m: ChessMove) returns (k: int)
    requires forall k :: 0 <= k < |dirs| ==> f.requires(dirs[k])
    requires m in EachDir(dirs, f)
    ensures 0 <= k < |dirs| && m in f(dirs[k])
    decreases |dirs|
  {
    var init := dirs[..|dirs| - 1];
    if m in EachDir(init, f) {
      k := EachDirMember(init, f, m);
    } else {
      k := |dirs| - 1;
    }
  }

  // ---------------------------------------------------------------- castling

  /** A castling move from e to t: the castling flag alone, from e to t. */
  lemma CastleMoveFields(e: int, t: int)
    requires IsPlayable(e) && IsPlayable(t)
    ensures var m := CastleMove(e, t);
      && m.GetFromTileIndex() == e && m.GetToTileIndex() == t
      && m.IsCastlingMove() && !m.IsEnPassantMove() && !m.IsPawnStartMove()
      && !IsCaptureMove(m) && !IsPromotionMove(m)
  {
    assert IsFlagSet(FlagCastling);
    NewMoveRoundTrip(CoordAt(e), CoordAt(t), None, None, FlagCastling);
  }

  /**
   * White castles king side exactly when it holds the right, F1 and G1 are
   * empty and neither E1 nor F1 is attacked by black; queen side exactly
   * when it holds the right, D1, C1 and B1 are empty and neither E1 nor D1
   * is attacked. Every move generated is a castling move from E1.
   */
  lemma WhiteCastlingRules(ts: seq<ChessBoardTile>, cp: int)
    requires SaneTiles(ts) && IsCastleSet(cp)
    ensures CastleMove(E1, G1) in WhiteCastling(ts, cp) <==>
      HasRight(cp, WhiteKingCastle) && ts[F1].IsEmpty() && ts[G1].IsEmpty() && !Attacked(ts, E1, Black) && !Attacked(ts, F1, Black)
    ensures CastleMove(E1, C1) in WhiteCastling(ts, cp) <==>
      HasRight(cp, WhiteQueenCastle) && ts[D1].IsEmpty() && ts[C1].IsEmpty() && ts[B1].IsEmpty() && !Attacked(ts, E1, Black) && !Attacked(ts, D1, Black)
    ensures forall m :: m in WhiteCastling(ts, cp) ==> m.IsCastlingMove() && m.GetFromTileIndex() == E1 && m.GetToTileIndex() in {G1, C1}
  {
    CastleMoveFields(E1, G1);
    CastleMoveFields(E1, C1);
    assert CastleMove(E1, G1).GetToTileIndex() != CastleMove(E1, C1).GetToTileIndex();
  }

  /** The mirror image for black on rank Eight, against white attacks. */
  lemma BlackCastlingRules(ts: seq<ChessBoardTile>, cp: int)
    requires SaneTiles(ts) && IsCastleSet(cp)
    ensures CastleMove(E8, G8) in BlackCastling(ts, cp) <==>
      HasRight(cp, BlackKingCastle) && ts[F8].IsEmpty() && ts[G8].IsEmpty() && !Attacked(ts, E8, White) && !Attacked(ts, F8, White)
    ensures CastleMove(E8, C8) in BlackCastling(ts, cp) <==>
      HasRight(cp, BlackQueenCastle) && ts[D8].IsEmpty() && ts[C8].IsEmpty() && ts[B8].IsEmpty() && !Attacked(ts, E8, White) && !Attacked(ts, D8, White)
    ensures forall m :: m in BlackCastling(ts, cp) ==> m.IsCastlingMove() && m.GetFromTileIndex() == E8 && m.GetToTileIndex() in {G8, C8}
  {
    CastleMoveFields(E8, G8);
    CastleMoveFields(E8, C8);
    assert CastleMove(E8, G8).GetToTileIndex() != CastleMove(E8, C8).GetToTileIndex();
  }
}
