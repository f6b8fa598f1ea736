/*
 * Tile coordinates of the 10x12 padded board.
 *
 * ETileCoord numbers the 64 playable squares 21..98 (A1 = 21, H1 = 28, A8 = 91,
 * H8 = 98) with NoTile = 99; files A..H and ranks One..Eight are 0..7 with a
 * None sentinel at 8. All three enums have uint8 as underlying type, so a cast
 * of an int32 into them keeps the low eight bits.
 */
module TileCoordinate {

  /** Value of a uint8 enum (ETileCoord, EBoardFile, EBoardRank). */
  type Byte = x: int | 0 <= x < 256

  const FileA: Byte := 0
  const FileH: Byte := 7
  /** EBoardFile::None */
  const FileNone: Byte := 8

  const RankOne: Byte := 0
  const RankTwo: Byte := 1
  const RankSeven: Byte := 6
  const RankEight: Byte := 7
  /** EBoardRank::None */
  const RankNone: Byte := 8

  /** ETileCoord::NoTile, the enumerator after H8. */
  const NoTile: Byte := 99

  // Named squares used by the castling code.
  const A1: Byte := 21
  const B1: Byte := 22
  const C1: Byte := 23
  const D1: Byte := 24
  const E1: Byte := 25
  const F1: Byte := 26
  const G1: Byte := 27
  const H1: Byte := 28
  const A8: Byte := 91
  const B8: Byte := 92
  const C8: Byte := 93
  const D8: Byte := 94
  const E8: Byte := 95
  const F8: Byte := 96
  const G8: Byte := 97
  const H8: Byte := 98

  /** A real file or rank index. */
  predicate IsReal(x: int) { 0 <= x < 8 }

  /** The ETileCoord value of the square on file f and rank r (enumerator layout). */
  function SquareIndex(f: int, r: int): int { 21 + 10 * r + f }

  /** Index i is one of the 64 ETileCoord enumerators A1..H8. */
  predicate IsPlayable(i: int) { 21 <= i <= 98 && 1 <= i % 10 <= 8 }

  /** Cast of an int32 to a uint8 enum: the low eight bits. */
  function ToByte(x: int): Byte { x % 256 }

  /** FTileCoord: the combined index plus the cached rank and file. */
  datatype TileCoord = TileCoord(coordinate: Byte, rank: Byte, file: Byte) {

    /** IsValid: a real square in all three views. */
    predicate IsValid() {
      coordinate != NoTile && rank != RankNone && file != FileNone
    }

    /** ToInt: the combined enum value as an int32. */
    function ToInt(): int { coordinate }

    /** operator==: compares only the combined enum value. */
    predicate Equals(other: TileCoord) { coordinate == other.coordinate }
  }

  /** The default constructor FTileCoord(): NoTile, None, None. */
  function DefaultCoord(): (t: TileCoord)
    ensures !t.IsValid()
    ensures t.coordinate == NoTile && t.rank == RankNone && t.file == FileNone
  {
    TileCoord(NoTile, RankNone, FileNone)
  }

  /**
   * FTileCoord(ETileCoord): rank and file start value-initialised (One, A);
   * NoTile sets both to None, and each eight-square window 21+10r .. 28+10r
   * sets rank r and file index-(21+10r).
   */
  function FromCombined(combined: Byte): (t: TileCoord)
    ensures t.coordinate == combined
    ensures t.rank < 8 <==> combined != NoTile
    ensures t.file < 8 <==> combined != NoTile
  {
    if combined == NoTile then
      TileCoord(combined, RankNone, FileNone)
    else
      var index := combined;
      if 21 <= index <= 28 then TileCoord(combined, 0, index - 21)
      else if 31 <= index <= 38 then TileCoord(combined, 1, index - 31)
      else if 41 <= index <= 48 then TileCoord(combined, 2, index - 41)
      else if 51 <= index <= 58 then TileCoord(combined, 3, index - 51)
      else if 61 <= index <= 68 then TileCoord(combined, 4, index - 61)
      else if 71 <= index <= 78 then TileCoord(combined, 5, index - 71)
      else if 81 <= index <= 88 then TileCoord(combined, 6, index - 81)
      else if 91 <= index <= 98 then TileCoord(combined, 7, index - 91)
      else TileCoord(combined, RankOne, FileA)
  }

  /** FTileCoord(File, Rank): keeps both and stores 21 + 10*Rank + File as the enum. */
  function FromFileRank(file: Byte, rank: Byte): (t: TileCoord)
    ensures t.file == file && t.rank == rank
    ensures IsReal(file) && IsReal(rank) ==> t.ToInt() == SquareIndex(file, rank) && IsPlayable(t.ToInt())
  {
    TileCoord(ToByte(21 + rank * 10 + file), rank, file)
  }

  /** ToRank / ToFile: an int32 cast to the enum. */
  function ToRank(i: int): Byte { ToByte(i) }
  function ToFile(i: int): Byte { ToByte(i) }

  /** GetMinRankIndex .. GetMaxFileIndex: the real ranks and files run 0..7. */
  function GetMinRankIndex(): int { RankOne }
  function GetMaxRankIndex(): int { RankEight }
  function GetMinFileIndex(): int { FileA }
  function GetMaxFileIndex(): int { FileH }

  /** The canonical coordinate of a playable index: what every on-board tile stores. */
  function CoordAt(i: int): TileCoord
    requires IsPlayable(i)
  {
    FromCombined(i)
  }

  /** Playable indices are exactly 21 + 10*r + f for a real rank r and file f. */
  lemma PlayableIsSquare(i: int)
    ensures IsPlayable(i) <==> (IsReal((i - 21) / 10) && IsReal((i - 21) % 10) && i >= 21)
  {
  }

  lemma SquareIsPlayable(f: int, r: int)
    requires IsReal(f) && IsReal(r)
    ensures IsPlayable(SquareIndex(f, r))
    ensures (SquareIndex(f, r) - 21) / 10 == r && (SquareIndex(f, r) - 21) % 10 == f
  {
  }

  /** Decoding a playable index gives rank (i-21)/10 and file (i-21)%10, and a valid coordinate. */
  lemma DecodePlayable(i: int)
    requires IsPlayable(i)
    ensures FromCombined(i).rank == (i - 21) / 10
    ensures FromCombined(i).file == (i - 21) % 10
    ensures FromCombined(i).IsValid()
  {
  }

  /**
   * An index outside every window and not NoTile keeps the value-initialised
   * rank One and file A, so IsValid holds although the index is not a square.
   */
  lemma DecodeOutsideWindows(i: Byte)
    requires i != NoTile && !IsPlayable(i)
    ensures FromCombined(i).rank == RankOne && FromCombined(i).file == FileA
    ensures FromCombined(i).IsValid()
  {
  }

  /** Round trip: the combined value of FTileCoord(f, r) decodes back to f and r. */
  lemma EncodeDecode(f: Byte, r: Byte)
    requires IsReal(f) && IsReal(r)
    ensures FromCombined(FromFileRank(f, r).ToInt()) == FromFileRank(f, r)
  {
  }

  /** Round trip the other way: re-encoding the decoded file and rank of a playable index. */
  lemma DecodeEncode(i: int)
    requires IsPlayable(i)
    ensures FromFileRank(FromCombined(i).file, FromCombined(i).rank) == FromCombined(i)
  {
  }

  /** On the canonical coordinates, operator== is the same as full structural equality. */
  lemma EqualsCanonical(i: int, j: int)
    requires IsPlayable(i) && IsPlayable(j)
    ensures CoordAt(i).Equals(CoordAt(j)) <==> CoordAt(i) == CoordAt(j)
    ensures CoordAt(i).Equals(CoordAt(j)) <==> i == j
  {
  }
}
