/*
 * FChessTileState and FChessBoardTile. Both are value types: the board keeps
 * them in an array and copies them freely (MakeMove takes copies of the from
 * and to tiles before changing the board), so each mutator is a function
 * returning the updated tile, and the board writes the result back into its
 * cell.
 */
module ChessBoardTile {
  import opened TileCoordinate
  import opened ChessDefinitions

  /** FChessTileState: the piece standing on a tile (the empty piece when none). */
  datatype ChessTileState = ChessTileState(piece: TileState) {

    function GetChessPiece(): TileState { piece }

    /** SetPiece: replaces the piece. */
    function SetPiece(p: TileState): (r: ChessTileState)
      ensures r.GetChessPiece() == p
      ensures r.IsEmpty() <==> p == NoPiece
    {
      ChessTileState(p)
    }

    /** ClearTile: the tile holds the empty piece afterwards. */
    function ClearTile(): (r: ChessTileState)
      ensures r.IsEmpty()
    {
      ChessTileState(NoPiece)
    }

    /** IsEmpty: the piece equals the empty piece. */
    predicate IsEmpty() { piece == NoPiece }
  }

  /** The default state: the empty piece. */
  const EmptyState := ChessTileState(NoPiece)

  /** A castle mask that clears no right. */
  const FullCastleMask := 15

  /** FChessBoardTile: the piece, the tile's coordinate and its castling-permission mask. */
  datatype ChessBoardTile = ChessBoardTile(state: ChessTileState, coords: TileCoord, castlePermission: int) {

    /** Reset: empties the tile and clears its coordinate; the castle mask stays. */
    function Reset(): (r: ChessBoardTile)
      ensures r.IsEmpty() && !r.IsOnBoard()
      ensures r.coords == DefaultCoord()
      ensures r.castlePermission == castlePermission
    {
      ChessBoardTile(state.ClearTile(), DefaultCoord(), castlePermission)
    }

    function GetState(): ChessTileState { state }

    /** SetPiece: changes only the piece. */
    function SetPiece(p: TileState): (r: ChessBoardTile)
      ensures r.GetPiece() == p && (r.IsEmpty() <==> p == NoPiece)
      ensures r.coords == coords && r.castlePermission == castlePermission
    {
      ChessBoardTile(state.SetPiece(p), coords, castlePermission)
    }

    function GetPosition(): TileCoord { coords }

    /** SetPosition: changes only the coordinate. */
    function SetPosition(c: TileCoord): (r: ChessBoardTile)
      ensures r.GetPosition() == c && (r.IsOnBoard() <==> c.IsValid())
      ensures r.state == state && r.castlePermission == castlePermission
    {
      ChessBoardTile(state, c, castlePermission)
    }

    /** SetPosition(File, Rank): the coordinate FTileCoord(File, Rank). */
    function SetPositionFileRank(f: Byte, rank: Byte): (r: ChessBoardTile)
      ensures r.GetPosition().file == f && r.GetPosition().rank == rank
      ensures IsReal(f) && IsReal(rank) ==> r.IsOnBoard() && r.GetPosition() == CoordAt(SquareIndex(f, rank))
      ensures r.state == state && r.castlePermission == castlePermission
    {
      if IsReal(f) && IsReal(rank) then
        EncodeDecode(f, rank);
        SetPosition(FromFileRank(f, rank))
      else
        SetPosition(FromFileRank(f, rank))
    }

    function GetCastlePermission(): int { castlePermission }

    function GetFileAsInt(): int { coords.file }
    function GetRankAsInt(): int { coords.rank }

    /** GetPieceAsInt: the code of the piece, 0 on an empty tile. */
    function GetPieceAsInt(): (c: int)
      ensures 0 <= c < PieceCodes
      ensures c == 0 <==> IsEmpty()
    {
      GetCode(state.GetChessPiece())
    }

    function GetColorAsInt(): int { GetColorCode(state.GetChessPiece()) }

    /** HasPiece as written: the guard tests `!IsOnBoard()`. */
    predicate HasPieceAsWritten(p: TileState) {
      !IsOnBoard() && !IsEmpty() && state.GetChessPiece() == p
    }

    /** HasPiece as its comment describes it: the tile is not empty and holds p. */
    predicate HasPiece(p: TileState) {
      !IsEmpty() && state.GetChessPiece() == p
    }

    function GetPiece(): TileState { state.GetChessPiece() }

    /** IsOnBoard: the coordinate is valid. */
    predicate IsOnBoard() { coords.IsValid() }

    predicate IsEmpty() { state.IsEmpty() }
  }

  /** FChessBoardTile(): empty, NoTile / None / None, mask 15. */
  function DefaultTile(): (t: ChessBoardTile)
    ensures t.IsEmpty() && !t.IsOnBoard()
    ensures t.GetCastlePermission() == FullCastleMask
  {
    ChessBoardTile(EmptyState, DefaultCoord(), FullCastleMask)
  }

  /** FChessBoardTile(Value): empty, coordinate FTileCoord(NoTile), the given mask. */
  function TileWithMask(value: int): (t: ChessBoardTile)
    ensures t.IsEmpty() && !t.IsOnBoard()
    ensures t.GetCastlePermission() == value
    ensures t.Reset() == t
  {
    ChessBoardTile(EmptyState, FromCombined(NoTile), value)
  }

  /** HasPiece as written never holds on a board square: every tile it could report is off the board. */
  lemma HasPieceAsWrittenIsDead(t: ChessBoardTile, p: TileState)
    requires t.IsOnBoard()
    ensures !t.HasPieceAsWritten(p)
  {
  }

  /** The input that shows it: an on-board e2 tile holding a white pawn. */
  lemma HasPieceCounterexample()
    ensures var t := ChessBoardTile(ChessTileState(WhitePawn), CoordAt(35), FullCastleMask);
      t.IsOnBoard() && t.HasPiece(WhitePawn) && !t.HasPieceAsWritten(WhitePawn)
  {
    DecodePlayable(35);
  }

  /** The intended HasPiece: true exactly for the real piece the tile holds, whether or not it is on the board. */
  lemma HasPieceIntended(t: ChessBoardTile, p: TileState)
    ensures t.HasPiece(p) <==> p != NoPiece && t.GetPiece() == p
    ensures t.HasPieceAsWritten(p) ==> t.HasPiece(p)
  {
  }

  /** Reset followed by SetPiece / SetPosition rebuilds a tile with the same mask. */
  lemma ResetThenPlace(t: ChessBoardTile, p: TileState, f: Byte, r: Byte)
    requires IsReal(f) && IsReal(r)
    ensures var u := t.Reset().SetPiece(p).SetPositionFileRank(f, r);
      && u.GetPiece() == p && u.IsOnBoard() && u.GetPosition().ToInt() == SquareIndex(f, r)
      && u.GetCastlePermission() == t.GetCastlePermission()
  {
  }
}
