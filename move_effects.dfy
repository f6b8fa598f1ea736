/*
 * What MakeMove does to the castling permission, the fifty-move counter, the
 * en-passant tile, the side to move, the king cache and the pieces on the
 * board, each stated against the position before the move.
 */
module MoveEffects {
  import opened Wrappers
  import opened TileCoordinate
  import opened ChessDefinitions
  import opened ChessMove
  import opened ChessGameStatics
  import opened ChessBoardTile
  import opened Board
  import opened Attack
  import opened Hash
  import opened Position

  /** Two masks applied in turn keep only rights held before and held by both masks. */
  lemma MasksShrinkRights(a: int, m1: int, m2: int)
    requires IsCastleSet(a) && IsCastleSet(m1) && IsCastleSet(m2)
    ensures CastleSubset(CastleAnd(CastleAnd(a, m1), m2), a)
    ensures forall bit :: bit in {1, 2, 4, 8} ==>
      (HasRight(CastleAnd(CastleAnd(a, m1), m2), bit) <==> HasRight(a, bit) && HasRight(m1, bit) && HasRight(m2, bit))
  {
  }

  /** CompleteMove's effect on everything but the board. */
  lemma CompleteMoveEffects(k: HashKeys, p: Position, m: ChessMove, from: ChessBoardTile, to: ChessBoardTile)
    requires KeysShape(k) && Shaped(p) && (p.side == White || p.side == Black) && p.ep.None?
    requires CompleteMove(k, p, m, from, to).Moved?
    ensures var r := CompleteMove(k, p, m, from, to);
      var piece := from.GetPiece();
      var sc := ColorCode(p.side);
      && from.IsOnBoard() && to.IsOnBoard()
      && r.pos.cp == p.cp
      && r.pos.side == Opponent(p.side)
      && (GetPieceFromCode(m.GetCapturedPiece()) != NoPiece || IsA(piece, Pawn) ==> r.pos.fifty == 0)
      && (GetPieceFromCode(m.GetCapturedPiece()) == NoPiece && !IsA(piece, Pawn) ==> r.pos.fifty == p.fifty + 1)
      && (IsA(piece, Pawn) && m.IsPawnStartMove() ==> r.pos.ep == Some(PassedCell(p.side, from.coords.ToInt())))
      && (!(IsA(piece, Pawn) && m.IsPawnStartMove()) ==> r.pos.ep == None)
      && (IsA(piece, King) ==> r.pos.kings == p.kings[sc := to.coords])
      && (!IsA(piece, King) ==> r.pos.kings == p.kings)
      && IsReal(r.pos.kings[sc].file) && IsReal(r.pos.kings[sc].rank)
      && (r.kingAttacked <==> Attacked(r.pos.tiles, GetTileIndexAt(r.pos.kings[sc].file, r.pos.kings[sc].rank), r.pos.side))
  {
    var piece := from.GetPiece();
    var p3 := CaptureStep(k, p, m, to.GetPosition()).value;
    var p4 := PawnStep(k, p3, m, piece, from.GetPosition()).value;
    var p5 := MovePieceS(k, p4, from.GetPosition(), to.GetPosition()).value;
    FinishMoveEffects(k, p5, m, piece, to.GetPosition());
  }

  /** FinishMove's effect on everything but the board. */
  lemma FinishMoveEffects(k: HashKeys, p: Position, m: ChessMove, piece: TileState, to: TileCoord)
    requires KeysShape(k) && Shaped(p) && (p.side == White || p.side == Black)
    requires FinishMove(k, p, m, piece, to).Moved?
    ensures var r := FinishMove(k, p, m, piece, to);
      var sc := ColorCode(p.side);
      && r.pos.cp == p.cp && r.pos.fifty == p.fifty && r.pos.ep == p.ep
      && r.pos.side == Opponent(p.side)
      && (IsA(piece, King) ==> r.pos.kings == p.kings[sc := to])
      && (!IsA(piece, King) ==> r.pos.kings == p.kings)
      && IsReal(r.pos.kings[sc].file) && IsReal(r.pos.kings[sc].rank)
      && (r.kingAttacked <==> Attacked(r.pos.tiles, GetTileIndexAt(r.pos.kings[sc].file, r.pos.kings[sc].rank), r.pos.side))
  {
  }

  /**
   * MakeMove's effect on the scalar state: the side to move was White or
   * Black and flips; the castling permission is the old one masked by the
   * From and To cells' masks, so it only loses rights; the fifty-move counter
   * resets after a capture or a pawn move and steps otherwise; the
   * en-passant tile is set exactly by a pawn-start move, to the cell passed
   * over.
   */
  lemma MakeMoveState(k: HashKeys, p: Position, m: ChessMove)
    requires KeysShape(k) && Shaped(p) && MakeMoveS(k, p, m).Moved?
    ensures var r := MakeMoveS(k, p, m).pos;
      var fi := m.GetFromTileIndex();
      var ti := m.GetToTileIndex();
      && 0 <= fi < BoardSize && 0 <= ti < BoardSize
      && p.tiles[fi].IsOnBoard() && p.tiles[ti].IsOnBoard() && !p.tiles[fi].IsEmpty()
      && (p.side == White || p.side == Black) && r.side == Opponent(p.side)
      && r.cp == CastleAnd(CastleAnd(p.cp, CastleMask(fi)), CastleMask(ti))
      && CastleSubset(r.cp, p.cp)
      && (GetPieceFromCode(m.GetCapturedPiece()) != NoPiece || IsA(p.tiles[fi].GetPiece(), Pawn) ==> r.fifty == 0)
      && (GetPieceFromCode(m.GetCapturedPiece()) == NoPiece && !IsA(p.tiles[fi].GetPiece(), Pawn) ==> r.fifty == p.fifty + 1)
      && (r.ep.Some? <==> IsA(p.tiles[fi].GetPiece(), Pawn) && m.IsPawnStartMove())
      && (r.ep.Some? ==> r.ep.value == PassedCell(p.side, fi))
  {
    var fi := m.GetFromTileIndex();
    var ti := m.GetToTileIndex();
    var p2 := MakeMoveParts(k, p, m);
    CompleteMoveEffects(k, p2, m, p.tiles[fi], p.tiles[ti]);
    MasksShrinkRights(p.cp, CastleMask(fi), CastleMask(ti));
  }

  /**
   * A completed MakeMove is CompleteMove run on the position p2 left by the
   * special step and the rights step; p2 keeps the side, the counter and the
   * king cache, has no en-passant tile and the masked castling permission.
   */
  lemma MakeMoveParts(k: HashKeys, p: Position, m: ChessMove) returns (p2: Position)
    requires KeysShape(k) && Shaped(p) && MakeMoveS(k, p, m).Moved?
    ensures var fi := m.GetFromTileIndex();
      var ti := m.GetToTileIndex();
      && 0 <= fi < BoardSize && 0 <= ti < BoardSize && (p.side == White || p.side == Black)
      && !p.tiles[fi].IsEmpty()
      && Shaped(p2) && p2.side == p.side && p2.fifty == p.fifty && p2.kings == p.kings && p2.ep.None?
      && p2.cp == CastleAnd(CastleAnd(p.cp, CastleMask(fi)), CastleMask(ti))
      && CompleteMove(k, p2, m, p.tiles[fi], p.tiles[ti]).Moved?
      && MakeMoveS(k, p, m) == CompleteMove(k, p2, m, p.tiles[fi], p.tiles[ti])
  {
    var fi := m.GetFromTileIndex();
    var ti := m.GetToTileIndex();
    MakeMoveSteps(k, p, m);
    var p1 := SpecialStep(k, p, m, fi, p.tiles[ti].coords.coordinate).value;
    p2 := RightsStep(k, p1, p.tiles[fi].castlePermission, p.tiles[ti].castlePermission);
  }

  /** MakeMove leaves the king cache as CompleteMove does: only the mover's entry, and only on a king move. */
  lemma MakeMoveKingCache(k: HashKeys, p: Position, m: ChessMove)
    requires KeysShape(k) && Shaped(p) && MakeMoveS(k, p, m).Moved?
    ensures var r := MakeMoveS(k, p, m);
      var fi := m.GetFromTileIndex();
      var ti := m.GetToTileIndex();
      var sc := ColorCode(p.side);
      && 0 <= fi < BoardSize && 0 <= ti < BoardSize && 0 <= sc < 2
      && (IsA(p.tiles[fi].GetPiece(), King) ==> r.pos.kings == p.kings[sc := CoordAt(ti)])
      && (!IsA(p.tiles[fi].GetPiece(), King) ==> r.pos.kings == p.kings)
  {
    var fi := m.GetFromTileIndex();
    var ti := m.GetToTileIndex();
    var p2 := MakeMoveParts(k, p, m);
    CompleteMoveEffects(k, p2, m, p.tiles[fi], p.tiles[ti]);
    assert p.tiles[ti].coords == CoordAt(ti);
  }

  /** MakeMove's verdict: whether the mover's cached king square is attacked by the side now to move. */
  lemma MakeMoveVerdict(k: HashKeys, p: Position, m: ChessMove)
    requires KeysShape(k) && Shaped(p) && MakeMoveS(k, p, m).Moved?
    ensures var r := MakeMoveS(k, p, m);
      var sc := ColorCode(p.side);
      && 0 <= sc < 2
      && IsReal(r.pos.kings[sc].file) && IsReal(r.pos.kings[sc].rank)
      && (r.kingAttacked <==> Attacked(r.pos.tiles, GetTileIndexAt(r.pos.kings[sc].file, r.pos.kings[sc].rank), Opponent(p.side)))
  {
    var fi := m.GetFromTileIndex();
    var ti := m.GetToTileIndex();
    var p2 := MakeMoveParts(k, p, m);
    CompleteMoveEffects(k, p2, m, p.tiles[fi], p.tiles[ti]);
  }

  // ---------------------------------------------------------------- the board

  /** The pieces after the special step: the en-passant victim's cell emptied, or the castling rook moved. */
  function SpecialPieces(ps: seq<TileState>, side: PieceColor, m: ChessMove, fi: int, ti: int): (qs: seq<TileState>)
    requires |ps| == BoardSize
    ensures |qs| == BoardSize
  {
    if m.IsEnPassantMove() then
      var v := EnPassantVictim(side, fi);
      if 0 <= v < BoardSize then ps[v := NoPiece] else ps
    else if m.IsCastlingMove() && RookMove(ti).Some? then
      var a := RookMove(ti).value.0;
      var b := RookMove(ti).value.1;
      ps[a := NoPiece][b := ps[a]]
    else ps
  }

  /**
   * The pieces after a move, cell by cell: after the special step, the From
   * cell is emptied and the To cell holds the promoted piece, or else the
   * piece that stood on From.
   */
  function PiecesAfterMove(ps: seq<TileState>, side: PieceColor, m: ChessMove): (qs: seq<TileState>)
    requires |ps| == BoardSize && m.GetFromTileIndex() < BoardSize && m.GetToTileIndex() < BoardSize
    ensures |qs| == BoardSize
  {
    var fi := m.GetFromTileIndex();
    var ti := m.GetToTileIndex();
    var ps1 := SpecialPieces(ps, side, m, fi, ti);
    var promoted := GetPieceFromCode(m.GetPromotedPiece());
    ps1[fi := NoPiece][ti := if promoted != NoPiece then promoted else ps1[fi]]
  }

  lemma PiecesSet(ts: seq<ChessBoardTile>, i: int, q: TileState)
    requires 0 <= i < |ts|
    ensures Pieces(ts[i := ts[i].SetPiece(q)]) == Pieces(ts)[i := q]
  {
  }

  lemma PiecesMoved(ts: seq<ChessBoardTile>, fi: int, ti: int)
    requires 0 <= fi < |ts| && 0 <= ti < |ts|
    ensures Pieces(MovedTiles(ts, fi, ti)) == Pieces(ts)[fi := NoPiece][ti := ts[fi].GetPiece()]
  {
    var ts1 := ts[fi := ts[fi].SetPiece(NoPiece)];
    PiecesSet(ts, fi, NoPiece);
    PiecesSet(ts1, ti, ts[fi].GetPiece());
  }

  /** The special step moves pieces as SpecialPieces says. */
  lemma SpecialStepPieces(k: HashKeys, p: Position, m: ChessMove, fi: int, ti: int)
    requires KeysShape(k) && Shaped(p) && 0 <= fi < BoardSize && 0 <= ti < BoardSize
    requires SpecialStep(k, p, m, fi, ti).Some?
    ensures Pieces(SpecialStep(k, p, m, fi, ti).value.tiles) == SpecialPieces(Pieces(p.tiles), p.side, m, fi, ti)
  {
    if m.IsEnPassantMove() {
      var v := EnPassantVictim(p.side, fi);
      assert p.tiles[v].IsOnBoard();
      PiecesSet(p.tiles, v, NoPiece);
    } else if m.IsCastlingMove() {
      var a := RookMove(ti).value.0;
      var b := RookMove(ti).value.1;
      PiecesMoved(p.tiles, a, b);
    }
  }

  /** The capture step empties the To cell exactly when a captured piece was packed. */
  lemma CaptureStepPieces(k: HashKeys, p: Position, m: ChessMove, to: TileCoord, ti: int)
    requires KeysShape(k) && Shaped(p) && 0 <= ti < BoardSize && to == p.tiles[ti].coords && to.IsValid()
    requires CaptureStep(k, p, m, to).Some?
    ensures Pieces(CaptureStep(k, p, m, to).value.tiles)
            == if GetPieceFromCode(m.GetCapturedPiece()) != NoPiece then Pieces(p.tiles)[ti := NoPiece] else Pieces(p.tiles)
  {
    if GetPieceFromCode(m.GetCapturedPiece()) != NoPiece {
      assert to.ToInt() == ti;
      PiecesSet(p.tiles, ti, NoPiece);
    }
  }

  /** The promotion step puts a packed promoted piece on the To cell. */
  lemma PromoteStepPieces(k: HashKeys, p: Position, m: ChessMove, to: TileCoord, ti: int)
    requires KeysShape(k) && Shaped(p) && 0 <= ti < BoardSize && to == p.tiles[ti].coords && to.IsValid()
    requires PromoteStep(k, p, m, to).Some?
    ensures var promoted := GetPieceFromCode(m.GetPromotedPiece());
      Pieces(PromoteStep(k, p, m, to).value.tiles) == if promoted != NoPiece then Pieces(p.tiles)[ti := promoted] else Pieces(p.tiles)
  {
    var promoted := GetPieceFromCode(m.GetPromotedPiece());
    if promoted != NoPiece {
      assert to.ToInt() == ti;
      var p6 := ClearPieceS(k, p, to).value;
      PiecesSet(p.tiles, ti, NoPiece);
      PiecesSet(p6.tiles, ti, promoted);
    }
  }

  /** FinishMove leaves the board the promotion step leaves. */
  lemma FinishMoveTiles(k: HashKeys, p: Position, m: ChessMove, piece: TileState, to: TileCoord)
    requires KeysShape(k) && Shaped(p) && (p.side == White || p.side == Black)
    requires FinishMove(k, p, m, piece, to).Moved?
    ensures PromoteStep(k, p, m, to).Some?
    ensures FinishMove(k, p, m, piece, to).pos.tiles == PromoteStep(k, p, m, to).value.tiles
  {
  }

  /** The three successful steps inside a completed CompleteMove. */
  lemma CompleteMoveSteps(k: HashKeys, p: Position, m: ChessMove, from: ChessBoardTile, to: ChessBoardTile)
    requires KeysShape(k) && Shaped(p) && (p.side == White || p.side == Black)
    requires CompleteMove(k, p, m, from, to).Moved?
    ensures CaptureStep(k, p, m, to.coords).Some?
    ensures PawnStep(k, CaptureStep(k, p, m, to.coords).value, m, from.GetPiece(), from.coords).Some?
    ensures var p4 := PawnStep(k, CaptureStep(k, p, m, to.coords).value, m, from.GetPiece(), from.coords).value;
      && MovePieceS(k, p4, from.coords, to.coords).Some?
      && CompleteMove(k, p, m, from, to) == FinishMove(k, MovePieceS(k, p4, from.coords, to.coords).value, m, from.GetPiece(), to.coords)
  {
  }

  lemma MoveThenPlace(ps: seq<TileState>, fi: int, ti: int, q: TileState, x: TileState)
    requires 0 <= fi < |ps| && 0 <= ti < |ps|
    ensures ps[ti := x][fi := NoPiece][ti := q] == ps[fi := NoPiece][ti := q]
    ensures ps[fi := NoPiece][ti := q][ti := x] == ps[fi := NoPiece][ti := x]
  {
  }

  /** The capture, pawn and move steps of a completed CompleteMove: the piece on From now stands on To. */
  lemma CompleteMoveMoved(k: HashKeys, p: Position, m: ChessMove, from: ChessBoardTile, to: ChessBoardTile, fi: int, ti: int)
    returns (p5: Position)
    requires KeysShape(k) && Shaped(p) && (p.side == White || p.side == Black)
    requires 0 <= fi < BoardSize && 0 <= ti < BoardSize && from.coords == p.tiles[fi].coords && to.coords == p.tiles[ti].coords
    requires CompleteMove(k, p, m, from, to).Moved?
    ensures Shaped(p5) && p5.side == p.side && to.coords == p5.tiles[ti].coords && to.coords.IsValid()
    ensures CompleteMove(k, p, m, from, to) == FinishMove(k, p5, m, from.GetPiece(), to.coords)
    ensures Pieces(p5.tiles) == Pieces(p.tiles)[fi := NoPiece][ti := p.tiles[fi].GetPiece()]
  {
    p5 := CompleteMoveTiles(k, p, m, from, to, fi, ti);
    CaptureStepPieces(k, p, m, to.coords, ti);
    var captured := GetPieceFromCode(m.GetCapturedPiece()) != NoPiece;
    assert captured ==> ti != fi;
    CapturedThenMoved(Pieces(p.tiles), CaptureStep(k, p, m, to.coords).value.tiles, p5.tiles, fi, ti, captured);
  }

  /** The position the capture, pawn and move steps reach: the captured board with From moved onto To. */
  lemma CompleteMoveTiles(k: HashKeys, p: Position, m: ChessMove, from: ChessBoardTile, to: ChessBoardTile, fi: int, ti: int)
    returns (p5: Position)
    requires KeysShape(k) && Shaped(p) && (p.side == White || p.side == Black)
    requires 0 <= fi < BoardSize && 0 <= ti < BoardSize && from.coords == p.tiles[fi].coords && to.coords == p.tiles[ti].coords
    requires CompleteMove(k, p, m, from, to).Moved?
    ensures Shaped(p5) && p5.side == p.side && to.coords == p5.tiles[ti].coords && to.coords.IsValid()
    ensures CompleteMove(k, p, m, from, to) == FinishMove(k, p5, m, from.GetPiece(), to.coords)
    ensures CaptureStep(k, p, m, to.coords).Some?
    ensures p5.tiles == MovedTiles(CaptureStep(k, p, m, to.coords).value.tiles, fi, ti)
  {
    CompleteMoveSteps(k, p, m, from, to);
    var p3 := CaptureStep(k, p, m, to.coords).value;
    var p4 := PawnStep(k, p3, m, from.GetPiece(), from.coords).value;
    p5 := MovePieceS(k, p4, from.coords, to.coords).value;
    assert from.IsOnBoard() && to.IsOnBoard();
    assert from.coords.ToInt() == fi && to.coords.ToInt() == ti;
  }

  /** Emptying To (or not) and then moving From onto To leaves From's piece on To. */
  lemma CapturedThenMoved(ps: seq<TileState>, ts: seq<ChessBoardTile>, us: seq<ChessBoardTile>, fi: int, ti: int, captured: bool)
    requires 0 <= fi < |ts| && 0 <= ti < |ts| && |ps| == |ts| && (captured ==> ti != fi)
    requires Pieces(ts) == if captured then ps[ti := NoPiece] else ps
    requires us == MovedTiles(ts, fi, ti)
    ensures Pieces(us) == ps[fi := NoPiece][ti := ps[fi]]
  {
    assert ts[fi].GetPiece() == Pieces(ts)[fi];
    PiecesMoved(ts, fi, ti);
    MoveThenPlace(ps, fi, ti, ps[fi], NoPiece);
  }

  /** CompleteMove moves the piece from From to To, replaced by a packed promoted piece. */
  lemma CompleteMovePieces(k: HashKeys, p: Position, m: ChessMove, from: ChessBoardTile, to: ChessBoardTile, fi: int, ti: int)
    requires KeysShape(k) && Shaped(p) && (p.side == White || p.side == Black)
    requires 0 <= fi < BoardSize && 0 <= ti < BoardSize && from.coords == p.tiles[fi].coords && to.coords == p.tiles[ti].coords
    requires CompleteMove(k, p, m, from, to).Moved?
    ensures var promoted := GetPieceFromCode(m.GetPromotedPiece());
      Pieces(CompleteMove(k, p, m, from, to).pos.tiles)
        == Pieces(p.tiles)[fi := NoPiece][ti := if promoted != NoPiece then promoted else p.tiles[fi].GetPiece()]
  {
    var p5 := CompleteMoveMoved(k, p, m, from, to, fi, ti);
    FinishMoveTiles(k, p5, m, from.GetPiece(), to.coords);
    PromoteStepPieces(k, p5, m, to.coords, ti);
    MoveThenPlace(Pieces(p.tiles), fi, ti, p.tiles[fi].GetPiece(), GetPieceFromCode(m.GetPromotedPiece()));
  }

  /** The special step and the rights step inside a completed MakeMove. */
  lemma MakeMoveSteps(k: HashKeys, p: Position, m: ChessMove)
    requires KeysShape(k) && Shaped(p) && MakeMoveS(k, p, m).Moved?
    ensures var fi := m.GetFromTileIndex();
      var ti := m.GetToTileIndex();
      && 0 <= fi < BoardSize && 0 <= ti < BoardSize && (p.side == White || p.side == Black)
      && SpecialStep(k, p, m, fi, p.tiles[ti].coords.coordinate).Some?
      && var p2 := RightsStep(k, SpecialStep(k, p, m, fi, p.tiles[ti].coords.coordinate).value,
                              p.tiles[fi].castlePermission, p.tiles[ti].castlePermission);
         MakeMoveS(k, p, m) == CompleteMove(k, p2, m, p.tiles[fi], p.tiles[ti])
  {
  }

  /** MakeMove leaves the pieces PiecesAfterMove describes. */
  lemma MakeMoveBoard(k: HashKeys, p: Position, m: ChessMove)
    requires KeysShape(k) && Shaped(p) && MakeMoveS(k, p, m).Moved?
    ensures m.GetFromTileIndex() < BoardSize && m.GetToTileIndex() < BoardSize
    ensures Pieces(MakeMoveS(k, p, m).pos.tiles) == PiecesAfterMove(Pieces(p.tiles), p.side, m)
  {
    MakeMoveSteps(k, p, m);
    var fi := m.GetFromTileIndex();
    var ti := m.GetToTileIndex();
    var from := p.tiles[fi];
    var to := p.tiles[ti];
    var p1 := SpecialStep(k, p, m, fi, to.coords.coordinate).value;
    var p2 := RightsStep(k, p1, from.castlePermission, to.castlePermission);
    CompleteMoveSteps(k, p2, m, from, to);
    assert to.IsOnBoard() && to.coords.coordinate == ti;
    SpecialStepPieces(k, p, m, fi, ti);
    SpecialStepCells(k, p, m, fi, ti);
    var ps1 := SpecialPieces(Pieces(p.tiles), p.side, m, fi, ti);
    assert Pieces(p2.tiles) == ps1;
    assert p2.tiles[fi].GetPiece() == ps1[fi];
    CompleteMovePieces(k, p2, m, from, to, fi, ti);
  }

  /** The special step keeps every cell's coordinate and castle mask. */
  lemma SpecialStepCells(k: HashKeys, p: Position, m: ChessMove, fi: int, ti: int)
    requires KeysShape(k) && Shaped(p) && 0 <= fi < BoardSize && 0 <= ti < BoardSize
    requires SpecialStep(k, p, m, fi, ti).Some?
    ensures forall i :: 0 <= i < BoardSize ==> SpecialStep(k, p, m, fi, ti).value.tiles[i].coords == p.tiles[i].coords
  {
  }
}
