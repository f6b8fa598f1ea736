/*
 * UChessGameStatics: move-flag predicates, tile-index arithmetic and the
 * two-character square parser.
 */
module ChessGameStatics {
  import opened Wrappers
  import opened TileCoordinate
  import opened ChessDefinitions
  import opened ChessMove

  predicate IsEnPassantMove(m: ChessMove) { m.IsEnPassantMove() }
  predicate IsPawnStartMove(m: ChessMove) { m.IsPawnStartMove() }
  predicate IsCastlingMove(m: ChessMove) { m.IsCastlingMove() }

  /** IsCaptureMove: the captured field differs from the empty piece's code. */
  predicate IsCaptureMove(m: ChessMove) { m.GetCapturedPiece() != GetCode(NoPiece) }

  /** IsPromotionMove: the promoted field differs from the empty piece's code. */
  predicate IsPromotionMove(m: ChessMove) { m.GetPromotedPiece() != GetCode(NoPiece) }

  /** GetTileIndexAt: File + 21 + Rank * 10, the same index FTileCoord(File, Rank) stores. */
  function GetTileIndexAt(file: Byte, rank: Byte): (i: int)
    ensures IsReal(file) && IsReal(rank) ==> IsPlayable(i) && i == SquareIndex(file, rank)
  {
    if IsReal(file) && IsReal(rank) then
      SquareIsPlayable(file, rank);
      file + 21 + rank * 10
    else
      file + 21 + rank * 10
  }

  /** GetTileIndexAt of a real square is the index FTileCoord(File, Rank) stores, and decodes back to it. */
  lemma TileIndexIsCoordinate(file: Byte, rank: Byte)
    requires IsReal(file) && IsReal(rank)
    ensures GetTileIndexAt(file, rank) == FromFileRank(file, rank).ToInt()
    ensures FromCombined(GetTileIndexAt(file, rank)) == FromFileRank(file, rank)
  {
    EncodeDecode(file, rank);
  }

  /** The file and rank of a playable cell are real and GetTileIndexAt gives the cell back. */
  lemma TileIndexOfCell(i: int)
    requires IsPlayable(i)
    ensures IsReal(CoordAt(i).file) && IsReal(CoordAt(i).rank)
    ensures GetTileIndexAt(CoordAt(i).file, CoordAt(i).rank) == i
  {
    DecodePlayable(i);
  }

  /** GetTileIndexAt_64: Rank * 8 + File. */
  function GetTileIndexAt64(file: Byte, rank: Byte): (i: int)
    ensures IsReal(file) && IsReal(rank) ==> 0 <= i < 64 && i / 8 == rank && i % 8 == file
  {
    rank * 8 + file
  }

  /**
   * ParsePositionFromString: the file is s[0] - 'a' and the rank s[1] - '1',
   * each cast to a uint8 enum, so a character beyond the first 256 code
   * points wraps around.
   */
  function ParsePositionFromString(s: string): (fr: (Byte, Byte))
    requires |s| >= 2
    ensures 'a' <= s[0] <= 'h' ==> fr.0 == s[0] as int - 'a' as int
    ensures '1' <= s[1] <= '8' ==> fr.1 == s[1] as int - '1' as int
    ensures s[0] as int < 256 ==> ('a' <= s[0] <= 'h' <==> IsReal(fr.0))
    ensures s[1] as int < 256 ==> ('1' <= s[1] <= '8' <==> IsReal(fr.1))
  {
    (ToFile(s[0] as int - 'a' as int), ToRank(s[1] as int - '1' as int))
  }

  /** The algebraic name of the square on file f and rank r ("a1" .. "h8"). */
  function SquareName(f: int, r: int): (s: string)
    requires IsReal(f) && IsReal(r)
    ensures |s| == 2 && 'a' <= s[0] <= 'h' && '1' <= s[1] <= '8'
  {
    [('a' as int + f) as char, ('1' as int + r) as char]
  }

  /** Parsing a square name gives back its file and rank, and the tile index of that square. */
  lemma ParseSquareName(f: Byte, r: Byte)
    requires IsReal(f) && IsReal(r)
    ensures ParsePositionFromString(SquareName(f, r)) == (f, r)
    ensures GetTileIndexAt(f, r) == SquareIndex(f, r)
  {
  }

  /** "e3" names file E and rank Three, tile 45. */
  lemma ParseE3()
    ensures ParsePositionFromString("e3") == (4, 2)
    ensures GetTileIndexAt(4, 2) == 45
  {
  }

  /** The 64-square index is a bijection between real (file, rank) pairs and 0..63. */
  lemma Index64Injective(f1: Byte, r1: Byte, f2: Byte, r2: Byte)
    requires IsReal(f1) && IsReal(r1) && IsReal(f2) && IsReal(r2)
    ensures GetTileIndexAt64(f1, r1) == GetTileIndexAt64(f2, r2) <==> f1 == f2 && r1 == r2
    ensures GetTileIndexAt(f1, r1) == GetTileIndexAt(f2, r2) <==> f1 == f2 && r1 == r2
  {
  }

  /** A capture is flagged exactly when a captured piece was packed, a promotion exactly when a promoted piece was. */
  lemma CaptureAndPromotionFlags(from: TileCoord, to: TileCoord, captured: Option<TileState>, promoted: Option<TileState>, flags: bv32)
    requires from.ToInt() < 128 && to.ToInt() < 128 && IsFlagSet(flags)
    ensures IsCaptureMove(NewMove(from, to, captured, promoted, flags)) <==> captured.Some? && captured.value != NoPiece
    ensures IsPromotionMove(NewMove(from, to, captured, promoted, flags)) <==> promoted.Some? && promoted.value != NoPiece
    ensures IsEnPassantMove(NewMove(from, to, captured, promoted, flags)) <==> flags & FlagEnPassant != 0
    ensures IsPawnStartMove(NewMove(from, to, captured, promoted, flags)) <==> flags & FlagPawnStart != 0
    ensures IsCastlingMove(NewMove(from, to, captured, promoted, flags)) <==> flags & FlagCastling != 0
  {
    NewMoveRoundTrip(from, to, captured, promoted, flags);
  }
}
