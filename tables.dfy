/** The lookup tables the game state's constructor fills, as predicates on their contents. */
module Tables {
  import opened TileCoordinate
  import opened ChessDefinitions
  import opened Board
  import opened Bits
  import opened Position

  /** The conversion, file / rank and mask tables hold what their builders put there. */
  predicate TablesHold(c120: seq<int>, c64: seq<int>, files: seq<Byte>, ranks: seq<Byte>, setm: seq<bv64>, clearm: seq<bv64>)
  {
    && |c120| == BoardSize && |c64| == 64
    && |files| == BoardSize && |ranks| == BoardSize
    && |setm| == 64 && |clearm| == 64
    && (forall i :: 0 <= i < BoardSize ==> c120[i] == Table120To64(i))
    && (forall s :: 0 <= s < 64 ==> c64[s] == Sq120(s))
    && (forall i :: 0 <= i < BoardSize ==> files[i] == TableFile(i) && ranks[i] == TableRank(i))
    && (forall s :: 0 <= s < 64 ==> setm[s] == Bit(s) && clearm[s] == BitNot(Bit(s)))
  }

  /** The piece-list array has 13 rows of Capacity slots, and the live slots of each row hold exactly that row's list. */
  predicate ListsInSlots(pieceList: array2<TileCoord>, pieceCount: seq<int>, lists: seq<seq<TileCoord>>)
    reads pieceList
  {
    && pieceList.Length0 == PieceCodes && pieceList.Length1 == Capacity
    && |pieceCount| == PieceCodes && |lists| == PieceCodes
    && (forall c :: 0 <= c < PieceCodes ==> |lists[c]| == pieceCount[c] <= Capacity)
    && (forall c, j :: 0 <= c < PieceCodes && 0 <= j < pieceCount[c] ==> pieceList[c, j] == lists[c][j])
  }

  /** ClearPiece's counter block: the piece's cost leaves its colour's material, a big piece its counts, a pawn its bitboards. */
  predicate CountsDropped(piece: TileState, cc: int, i: int, m0: seq<int>, b0: seq<int>, ma0: seq<int>, mi0: seq<int>, pw0: seq<bv64>,
                          m: seq<int>, b: seq<int>, ma: seq<int>, mi: seq<int>, pw: seq<bv64>)
  {
    && 0 <= cc < 2 && |m0| == 3 && |b0| == 3 && |ma0| == 3 && |mi0| == 3 && |pw0| == 3
    && m == m0[cc := m0[cc] - GetCost(piece)]
    && b == (if IsBigPiece(piece) then b0[cc := b0[cc] - 1] else b0)
    && ma == (if IsBigPiece(piece) && IsMajorPiece(piece) then ma0[cc := ma0[cc] - 1] else ma0)
    && mi == (if IsBigPiece(piece) && IsMinorPiece(piece) then mi0[cc := mi0[cc] - 1] else mi0)
    && (if IsBigPiece(piece) then pw == pw0 else IsPlayable(i) && pw == ClearBits(pw0, cc, Sq64(i)))
  }

  /** AddPiece's counter block: a pawn's bit is set on its bitboards, and the piece's code joins its colour's material. */
  predicate CountsAdded(piece: TileState, cc: int, i: int, m0: seq<int>, pw0: seq<bv64>, m: seq<int>, pw: seq<bv64>)
  {
    && 0 <= cc < 2 && |m0| == 3 && |pw0| == 3
    && m == m0[cc := m0[cc] + GetCode(piece)]
    && (if IsBigPiece(piece) then pw == pw0 else IsPlayable(i) && pw == SetBits(pw0, cc, Sq64(i)))
  }
}
