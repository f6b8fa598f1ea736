/*
 * The 120-cell board as a value: what every well-formed board satisfies,
 * and the castle mask each cell carries from construction on.
 */
module Board {
  import opened TileCoordinate
  import opened ChessDefinitions
  import opened ChessBoardTile

  const BoardSize := 120

  /**
   * Every cell that is on the board is one of the 64 playable squares and
   * carries that square's canonical coordinate, and no cell's coordinate
   * reaches the 128 that a move's seven-bit index field can hold. Cells off
   * the board may hold a piece (a FEN row longer than eight squares puts one
   * there); every reader of the board skips them.
   */
  predicate SaneTiles(ts: seq<ChessBoardTile>) {
    && |ts| == BoardSize
    && (forall i :: 0 <= i < BoardSize && ts[i].IsOnBoard() ==> IsPlayable(i) && ts[i].coords == CoordAt(i))
    && (forall i :: 0 <= i < BoardSize ==> ts[i].coords.coordinate < 128)
  }

  /** The castle mask the constructor gives cell i: A1 13, E1 12, H1 14, A8 7, E8 3, H8 11, all others 15. */
  function CastleMask(i: int): (m: int)
    ensures IsCastleSet(m)
  {
    if i == A1 then 13
    else if i == E1 then 12
    else if i == H1 then 14
    else if i == A8 then 7
    else if i == E8 then 3
    else if i == H8 then 11
    else 15
  }

  /** The part of SaneTiles a walk over the board needs: on-board cells are playable and know their own index. */
  predicate CellsIndexed(ts: seq<ChessBoardTile>) {
    && |ts| == BoardSize
    && forall i :: 0 <= i < BoardSize && ts[i].IsOnBoard() ==> IsPlayable(i) && ts[i].coords.coordinate == i
  }

  /** A sane board is indexed. */
  lemma SaneIsIndexed(ts: seq<ChessBoardTile>)
    requires SaneTiles(ts)
    ensures CellsIndexed(ts)
  {
  }

  /** Every cell carries its constructor castle mask. */
  predicate MasksIntact(ts: seq<ChessBoardTile>) {
    |ts| == BoardSize && forall i :: 0 <= i < BoardSize ==> ts[i].castlePermission == CastleMask(i)
  }

  /** What the constructor leaves in cell i: a default tile, with the castle mask of the six castle squares. */
  function InitialTile(i: int): ChessBoardTile {
    if CastleMask(i) == FullCastleMask then DefaultTile() else TileWithMask(CastleMask(i))
  }

  /** The constructor's board, cell by cell. */
  function InitialBoard(): (ts: seq<ChessBoardTile>)
    ensures |ts| == BoardSize && forall i :: 0 <= i < BoardSize ==> ts[i] == InitialTile(i)
  {
    seq(BoardSize, InitialTile)
  }

  /** The constructor's board is empty, holds no on-board tile and carries the castle masks. */
  lemma InitialBoardShape()
    ensures SaneTiles(InitialBoard()) && MasksIntact(InitialBoard()) && AllEmpty(InitialBoard())
  {
    var ts := InitialBoard();
    forall i | 0 <= i < BoardSize
      ensures ts[i].IsEmpty() && !ts[i].IsOnBoard() && ts[i].castlePermission == CastleMask(i)
      ensures ts[i].coords.coordinate < 128
    {
      assert ts[i] == InitialTile(i);
    }
  }

  /** The piece on cell i. */
  function PieceAt(ts: seq<ChessBoardTile>, i: int): TileState
    requires 0 <= i < |ts|
  {
    ts[i].GetPiece()
  }

  /** The board as the thirteen-code array of pieces, cell by cell. */
  function Pieces(ts: seq<ChessBoardTile>): (ps: seq<TileState>)
    ensures |ps| == |ts|
    ensures forall i :: 0 <= i < |ts| ==> ps[i] == ts[i].GetPiece()
  {
    seq(|ts|, i requires 0 <= i < |ts| => ts[i].GetPiece())
  }

  /** A sane board whose cells are all empty (what ResetBoard leaves). */
  predicate AllEmpty(ts: seq<ChessBoardTile>) {
    forall i :: 0 <= i < |ts| ==> ts[i].IsEmpty() && !ts[i].IsOnBoard()
  }

  /**
   * Each castle mask clears exactly the rights its square guards: the king
   * squares both rights of their side, the corners the right of their rook.
   */
  lemma CastleMaskRights(i: int)
    ensures CastleMask(i) != 15 <==> i in {A1, E1, H1, A8, E8, H8}
    ensures !HasRight(CastleMask(E1), WhiteKingCastle) && !HasRight(CastleMask(E1), WhiteQueenCastle)
    ensures HasRight(CastleMask(E1), BlackKingCastle) && HasRight(CastleMask(E1), BlackQueenCastle)
    ensures !HasRight(CastleMask(E8), BlackKingCastle) && !HasRight(CastleMask(E8), BlackQueenCastle)
    ensures HasRight(CastleMask(E8), WhiteKingCastle) && HasRight(CastleMask(E8), WhiteQueenCastle)
    ensures CastleMask(A1) == 15 - WhiteQueenCastle && CastleMask(H1) == 15 - WhiteKingCastle
    ensures CastleMask(A8) == 15 - BlackQueenCastle && CastleMask(H8) == 15 - BlackKingCastle
  {
  }

  /** On a sane board an on-board cell is playable and its coordinate names the cell. */
  lemma SaneCellIndex(ts: seq<ChessBoardTile>, i: int)
    requires SaneTiles(ts) && 0 <= i < BoardSize && ts[i].IsOnBoard()
    ensures IsPlayable(i) && ts[i].GetPosition().ToInt() == i
  {
  }

  /** Every playable cell is on the board: what a FEN with eight complete rows leaves. */
  predicate FullBoard(ts: seq<ChessBoardTile>)
    requires |ts| == BoardSize
  {
    forall i :: 0 <= i < BoardSize && IsPlayable(i) ==> ts[i].IsOnBoard()
  }

  /** The 64-square index of a playable cell: rank * 8 + file. */
  function Sq64(i: int): (s: int)
    requires IsPlayable(i)
    ensures 0 <= s < 64
  {
    ((i - 21) / 10) * 8 + (i - 21) % 10
  }

  /** The 120-cell index of a 64-square index. */
  function Sq120(s: int): (i: int)
    requires 0 <= s < 64
    ensures IsPlayable(i)
  {
    SquareIndex(s % 8, s / 8)
  }

  /** Array120To64Converter's content: the 64-square index on playable cells, 65 elsewhere. */
  function Table120To64(i: int): int {
    if IsPlayable(i) then Sq64(i) else 65
  }

  /** BoardFiles / BoardRanks' content: the file and rank of playable cells, None elsewhere. */
  function TableFile(i: int): Byte {
    if IsPlayable(i) then (i - 21) % 10 else FileNone
  }

  function TableRank(i: int): Byte {
    if IsPlayable(i) then (i - 21) / 10 else RankNone
  }

  /** Array120To64Converter as a whole. */
  function Table120(): (t: seq<int>)
    ensures |t| == BoardSize && forall i :: 0 <= i < BoardSize ==> t[i] == Table120To64(i)
  {
    seq(BoardSize, Table120To64)
  }

  /** Array64To120Converter as a whole. */
  function Table64(): (t: seq<int>)
    ensures |t| == 64 && forall s :: 0 <= s < 64 ==> t[s] == Sq120(s)
  {
    seq(64, s requires 0 <= s < 64 => Sq120(s))
  }

  /** BoardFiles as a whole. */
  function FileTable(): (t: seq<Byte>)
    ensures |t| == BoardSize && forall i :: 0 <= i < BoardSize ==> t[i] == TableFile(i)
  {
    seq(BoardSize, i => TableFile(i))
  }

  /** BoardRanks as a whole. */
  function RankTable(): (t: seq<Byte>)
    ensures |t| == BoardSize && forall i :: 0 <= i < BoardSize ==> t[i] == TableRank(i)
  {
    seq(BoardSize, i => TableRank(i))
  }

  /** The two converters are inverse bijections between the 64 squares and the playable cells. */
  lemma ConvertersInverse(s: int, i: int)
    requires 0 <= s < 64 && IsPlayable(i)
    ensures Sq64(Sq120(s)) == s
    ensures Sq120(Sq64(i)) == i
    ensures Table120To64(Sq120(s)) == s
  {
    Sq64OfSq120(s);
    Sq120OfSq64(i);
  }

  lemma Sq64OfSq120(s: int)
    requires 0 <= s < 64
    ensures Sq64(Sq120(s)) == s
  {
    SplitSquare(s);
    var f := s % 8;
    var r := s / 8;
    SquareIsPlayable(f, r);
    assert Sq120(s) == SquareIndex(f, r);
    assert Sq64(Sq120(s)) == r * 8 + f;
  }

  lemma Sq120OfSq64(i: int)
    requires IsPlayable(i)
    ensures Sq120(Sq64(i)) == i
  {
    PlayableIsSquare(i);
    var r := (i - 21) / 10;
    var f := (i - 21) % 10;
    assert i == SquareIndex(f, r);
    JoinSquare(f, r);
    assert Sq64(i) == r * 8 + f;
  }

  /** GetTileIndexAt_64's Rank * 8 + File. */
  function SquareNumber(f: int, r: int): int { r * 8 + f }

  /** Each of the 64 squares is the number of its own file and rank. */
  lemma NumberOfSquare(s: int)
    requires 0 <= s < 64
    ensures IsReal(s % 8) && IsReal(s / 8) && s == SquareNumber(s % 8, s / 8)
  {
    SplitSquare(s);
  }

  /** A playable cell is the square on its own file and rank, numbered rank * 8 + file. */
  lemma CellOfPlayable(i: int)
    requires IsPlayable(i)
    ensures IsReal(TableFile(i)) && IsReal(TableRank(i))
    ensures i == SquareIndex(TableFile(i), TableRank(i))
    ensures Sq64(i) == TableRank(i) * 8 + TableFile(i)
  {
    PlayableIsSquare(i);
  }

  lemma SplitSquare(s: int)
    requires 0 <= s < 64
    ensures s == (s / 8) * 8 + s % 8 && IsReal(s / 8) && IsReal(s % 8)
  {
  }

  lemma JoinSquare(f: int, r: int)
    requires IsReal(f) && IsReal(r)
    ensures (r * 8 + f) / 8 == r && (r * 8 + f) % 8 == f
  {
  }

  /** Sq64 agrees with GetTileIndexAt_64's Rank * 8 + File. */
  lemma Sq64OfSquare(f: int, r: int)
    requires IsReal(f) && IsReal(r)
    ensures Sq64(SquareIndex(f, r)) == r * 8 + f
    ensures Sq120(r * 8 + f) == SquareIndex(f, r)
  {
    SquareIsPlayable(f, r);
    JoinSquare(f, r);
  }
}
