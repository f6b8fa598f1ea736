/*
 * Zobrist position keys: a 64-bit key per (piece code, cell), one for the
 * side to move and one per castling-permission value, XOR-ed together. The
 * keys themselves are random (MakeHashKeys), so the model takes them as given
 * and reasons only about the XOR algebra.
 */
module Hash {
  import opened Wrappers
  import opened TileCoordinate
  import opened ChessDefinitions
  import opened ChessBoardTile
  import opened Board

  /** PieceHashKeys (13 x 120), SideHashKey and CastleHashKeys (16). */
  datatype HashKeys = HashKeys(pieceKeys: seq<seq<bv64>>, sideKey: bv64, castleKeys: seq<bv64>)

  predicate KeysShape(k: HashKeys) {
    && |k.pieceKeys| == PieceCodes
    && (forall c :: 0 <= c < PieceCodes ==> |k.pieceKeys[c]| == BoardSize)
    && |k.castleKeys| == 16
  }

  /** The XOR that combines keys. */
  function Xor(a: bv64, b: bv64): bv64 { a ^ b }

  /** What cell i adds to the position key: its piece's key when the tile is on the board and holds a piece. */
  function Contrib(k: HashKeys, t: ChessBoardTile, i: int): bv64
    requires KeysShape(k) && 0 <= i < BoardSize
  {
    if t.IsOnBoard() && !t.IsEmpty() then k.pieceKeys[GetCode(t.GetPiece())][i] else 0
  }

  /** The XOR of the contributions of cells 0 .. n-1. */
  function TilesHash(k: HashKeys, ts: seq<ChessBoardTile>, n: nat): bv64
    requires KeysShape(k) && |ts| == BoardSize && n <= BoardSize
  {
    if n == 0 then 0 else Xor(TilesHash(k, ts, n - 1), Contrib(k, ts[n - 1], n - 1))
  }

  /** HashSide's share: the side key while White is to move. */
  function SideKey(k: HashKeys, side: PieceColor): bv64 {
    if side == White then k.sideKey else 0
  }

  /** HashEnPassant's share: the empty piece's key at the en-passant cell, when one is set. */
  function EpKey(k: HashKeys, ep: Option<int>): bv64
    requires KeysShape(k) && (ep.Some? ==> 0 <= ep.value < BoardSize)
  {
    if ep.Some? then k.pieceKeys[0][ep.value] else 0
  }

  /**
   * GeneratePositionHashKey with its tile test as its comment describes it
   * (the tile is on the board and holds a piece): the key every position
   * should carry.
   */
  function PositionHash(k: HashKeys, ts: seq<ChessBoardTile>, side: PieceColor, ep: Option<int>, cp: int): bv64
    requires KeysShape(k) && |ts| == BoardSize && (ep.Some? ==> 0 <= ep.value < BoardSize) && IsCastleSet(cp)
  {
    Xor(Xor(Xor(TilesHash(k, ts, BoardSize), SideKey(k, side)), EpKey(k, ep)), k.castleKeys[cp])
  }

  /** What cell i adds as written: the test is `!IsOnBoard() && !IsEmpty()`. */
  function ContribAsWritten(k: HashKeys, t: ChessBoardTile, i: int): bv64
    requires KeysShape(k) && 0 <= i < BoardSize
  {
    if !t.IsOnBoard() && !t.IsEmpty() then k.pieceKeys[GetCode(t.GetPiece())][i] else 0
  }

  function TilesHashAsWritten(k: HashKeys, ts: seq<ChessBoardTile>, n: nat): bv64
    requires KeysShape(k) && |ts| == BoardSize && n <= BoardSize
  {
    if n == 0 then 0 else Xor(TilesHashAsWritten(k, ts, n - 1), ContribAsWritten(k, ts[n - 1], n - 1))
  }

  /** GeneratePositionHashKey as written. */
  function PositionHashAsWritten(k: HashKeys, ts: seq<ChessBoardTile>, side: PieceColor, ep: Option<int>, cp: int): bv64
    requires KeysShape(k) && |ts| == BoardSize && (ep.Some? ==> 0 <= ep.value < BoardSize) && IsCastleSet(cp)
  {
    Xor(Xor(Xor(TilesHashAsWritten(k, ts, BoardSize), SideKey(k, side)), EpKey(k, ep)), k.castleKeys[cp])
  }

  /** Changing one cell changes the tile part of the key by exactly the old and the new contribution of that cell. */
  lemma {:induction false} TilesHashUpdate(k: HashKeys, ts: seq<ChessBoardTile>, n: nat, i: int, t: ChessBoardTile)
    requires KeysShape(k) && |ts| == BoardSize && n <= BoardSize && 0 <= i < BoardSize
    ensures i < n ==> TilesHash(k, ts[i := t], n) == Xor(Xor(TilesHash(k, ts, n), Contrib(k, ts[i], i)), Contrib(k, t, i))
    ensures n <= i ==> TilesHash(k, ts[i := t], n) == TilesHash(k, ts, n)
  {
    if n > 0 {
      TilesHashUpdate(k, ts, n - 1, i, t);
      if i == n - 1 {
        UpdateAtLast(k, ts, n, t);
      } else if i < n - 1 {
        UpdateBelowLast(k, ts, n, i, t);
      } else {
        UpdateAboveLast(k, ts, n, i, t);
      }
    }
  }

  lemma UpdateAtLast(k: HashKeys, ts: seq<ChessBoardTile>, n: nat, t: ChessBoardTile)
    requires KeysShape(k) && |ts| == BoardSize && 0 < n <= BoardSize
    requires TilesHash(k, ts[n - 1 := t], n - 1) == TilesHash(k, ts, n - 1)
    ensures TilesHash(k, ts[n - 1 := t], n) == Xor(Xor(TilesHash(k, ts, n), Contrib(k, ts[n - 1], n - 1)), Contrib(k, t, n - 1))
  {
    var u := ts[n - 1 := t];
    assert u[n - 1] == t;
    XorCancel(TilesHash(k, ts, n - 1), Contrib(k, ts[n - 1], n - 1), Contrib(k, t, n - 1));
  }

  lemma UpdateBelowLast(k: HashKeys, ts: seq<ChessBoardTile>, n: nat, i: int, t: ChessBoardTile)
    requires KeysShape(k) && |ts| == BoardSize && 0 < n <= BoardSize && 0 <= i < n - 1
    requires TilesHash(k, ts[i := t], n - 1) == Xor(Xor(TilesHash(k, ts, n - 1), Contrib(k, ts[i], i)), Contrib(k, t, i))
    ensures TilesHash(k, ts[i := t], n) == Xor(Xor(TilesHash(k, ts, n), Contrib(k, ts[i], i)), Contrib(k, t, i))
  {
    var u := ts[i := t];
    assert u[n - 1] == ts[n - 1];
    XorRegroup(TilesHash(k, ts, n - 1), Contrib(k, ts[n - 1], n - 1), Contrib(k, ts[i], i), Contrib(k, t, i));
  }

  lemma UpdateAboveLast(k: HashKeys, ts: seq<ChessBoardTile>, n: nat, i: int, t: ChessBoardTile)
    requires KeysShape(k) && |ts| == BoardSize && 0 < n <= BoardSize && n <= i < BoardSize
    requires TilesHash(k, ts[i := t], n - 1) == TilesHash(k, ts, n - 1)
    ensures TilesHash(k, ts[i := t], n) == TilesHash(k, ts, n)
  {
    var u := ts[i := t];
    assert u[n - 1] == ts[n - 1];
  }

  lemma XorAssoc(a: bv64, b: bv64, c: bv64)
    ensures Xor(Xor(a, b), c) == Xor(a, Xor(b, c))
  {
  }

  lemma XorComm(a: bv64, b: bv64)
    ensures Xor(a, b) == Xor(b, a)
  {
  }

  lemma XorSelf(a: bv64, b: bv64)
    ensures Xor(Xor(a, b), b) == a
  {
  }

  lemma XorRegroup(b: bv64, c: bv64, x: bv64, y: bv64)
    ensures Xor(Xor(Xor(b, x), y), c) == Xor(Xor(Xor(b, c), x), y)
  {
    calc {
      Xor(Xor(Xor(b, x), y), c);
      { XorAssoc(Xor(b, x), y, c); }
      Xor(Xor(b, x), Xor(y, c));
      { XorComm(y, c); }
      Xor(Xor(b, x), Xor(c, y));
      { XorAssoc(Xor(b, x), c, y); }
      Xor(Xor(Xor(b, x), c), y);
      { XorAssoc(b, x, c); XorComm(x, c); XorAssoc(b, c, x); }
      Xor(Xor(Xor(b, c), x), y);
    }
  }

  lemma XorCancel(b: bv64, x: bv64, y: bv64)
    ensures Xor(b, y) == Xor(Xor(Xor(b, x), x), y)
  {
    XorSelf(b, x);
  }

  /** Cells whose contribution is unchanged leave the tile part of the key unchanged. */
  lemma {:induction false} TilesHashSame(k: HashKeys, ts: seq<ChessBoardTile>, us: seq<ChessBoardTile>, n: nat)
    requires KeysShape(k) && |ts| == BoardSize && |us| == BoardSize && n <= BoardSize
    requires forall i :: 0 <= i < n ==> Contrib(k, ts[i], i) == Contrib(k, us[i], i)
    ensures TilesHash(k, ts, n) == TilesHash(k, us, n)
  {
    if n > 0 {
      TilesHashSame(k, ts, us, n - 1);
    }
  }

  /** A board none of whose off-board cells holds a piece contributes nothing to the key as written. */
  lemma {:induction false} AsWrittenSeesNoPiece(k: HashKeys, ts: seq<ChessBoardTile>, n: nat)
    requires KeysShape(k) && |ts| == BoardSize && n <= BoardSize
    requires forall i :: 0 <= i < BoardSize && !ts[i].IsOnBoard() ==> ts[i].IsEmpty()
    ensures TilesHashAsWritten(k, ts, n) == 0
  {
    if n > 0 {
      AsWrittenSeesNoPiece(k, ts, n - 1);
    }
  }

  /** An empty board of off-board cells, and the same board with a white pawn standing on e2. */
  function EmptyBoard(): (ts: seq<ChessBoardTile>)
    ensures |ts| == BoardSize && forall i :: 0 <= i < BoardSize ==> ts[i].IsEmpty() && !ts[i].IsOnBoard()
  {
    seq(BoardSize, i => DefaultTile())
  }

  function PawnOnE2(): (ts: seq<ChessBoardTile>)
    ensures |ts| == BoardSize
  {
    EmptyBoard()[35 := ChessBoardTile(ChessTileState(WhitePawn), CoordAt(35), FullCastleMask)]
  }

  /**
   * The input that shows the defect: as written, the empty board and the board
   * with a pawn on e2 get the same key for every choice of keys, while the
   * corrected key tells them apart by exactly the pawn's key at e2.
   */
  lemma AsWrittenIgnoresPieces(k: HashKeys, side: PieceColor, cp: int)
    requires KeysShape(k) && IsCastleSet(cp)
    ensures PositionHashAsWritten(k, EmptyBoard(), side, None, cp) == PositionHashAsWritten(k, PawnOnE2(), side, None, cp)
    ensures PositionHash(k, PawnOnE2(), side, None, cp) == Xor(PositionHash(k, EmptyBoard(), side, None, cp), k.pieceKeys[1][35])
  {
    var e := EmptyBoard();
    var p := PawnOnE2();
    DecodePlayable(35);
    assert p[35].IsOnBoard();
    AsWrittenSeesNoPiece(k, e, BoardSize);
    AsWrittenSeesNoPiece(k, p, BoardSize);
    PawnOnE2Hash(k);
    XorToFront(k.pieceKeys[1][35], SideKey(k, side), EpKey(k, None), k.castleKeys[cp]);
  }

  /** The tile part of the e2 board's key is the pawn's key at e2, and the empty board's is zero. */
  lemma PawnOnE2Hash(k: HashKeys)
    requires KeysShape(k)
    ensures TilesHash(k, PawnOnE2(), BoardSize) == k.pieceKeys[1][35]
    ensures TilesHash(k, EmptyBoard(), BoardSize) == 0
  {
    var e := EmptyBoard();
    var t := ChessBoardTile(ChessTileState(WhitePawn), CoordAt(35), FullCastleMask);
    DecodePlayable(35);
    assert Contrib(k, t, 35) == k.pieceKeys[1][35];
    assert Contrib(k, e[35], 35) == 0;
    TilesHashUpdate(k, e, BoardSize, 35, t);
    EmptyHashesToZero(k, e, BoardSize);
    XorZero(k.pieceKeys[1][35]);
  }

  /** With no en-passant tile the en-passant key leaves the position key alone. */
  lemma XorNone(k: HashKeys, h: bv64)
    requires KeysShape(k)
    ensures h == Xor(h, EpKey(k, None))
  {
  }

  lemma XorZero(a: bv64)
    ensures Xor(Xor(0, 0), a) == a
  {
  }

  lemma XorToFront(a: bv64, s: bv64, e: bv64, c: bv64)
    ensures Xor(Xor(Xor(a, s), e), c) == Xor(Xor(Xor(Xor(0, s), e), c), a)
  {
  }

  lemma {:induction false} EmptyHashesToZero(k: HashKeys, ts: seq<ChessBoardTile>, n: nat)
    requires KeysShape(k) && |ts| == BoardSize && n <= BoardSize
    requires forall i :: 0 <= i < BoardSize ==> ts[i].IsEmpty()
    ensures TilesHash(k, ts, n) == 0
  {
    if n > 0 {
      EmptyHashesToZero(k, ts, n - 1);
    }
  }
}
