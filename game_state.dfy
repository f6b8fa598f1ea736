/*
 * AChessGameState, the position engine object. The board is a 120-cell
 * array of tiles changed cell by cell, the piece lists a 13 x Capacity
 * array of slots with a live count per piece code, and the conversion and
 * mask tables arrays the constructor fills; the small per-colour counters
 * are tables the methods reassign whole. Each state-changing method is
 * proved to leave exactly the position that the value model (module
 * Position) computes from the position before it, and each query to
 * return what the matching function of the board says.
 */
module GameState {
  import opened Wrappers
  import opened TileCoordinate
  import opened ChessDefinitions
  import opened ChessMove
  import opened ChessGameStatics
  import opened ChessBoardTile
  import opened Board
  import opened Attack
  import opened Bits
  import opened Hash
  import opened Position
  import opened Tables
  import opened MoveEffects
  import opened MoveGeneration
  import opened PieceLists
  import opened Fen

  class ChessGameState {
    /** PieceHashKeys, SideHashKey and CastleHashKeys. MakeHashKeys draws them at random; here they are given. */
    const keys: HashKeys
    /** Tiles: the 10 x 12 board. */
    const tiles: array<ChessBoardTile>
    /** PieceList: slot j of row c is the j-th listed tile of piece code c; slots past PieceCount[c] are stale. */
    const pieceList: array2<TileCoord>
    /** Array120To64Converter and Array64To120Converter. */
    const conv120To64: seq<int>
    const conv64To120: seq<int>
    /** BoardFiles and BoardRanks. */
    const boardFiles: seq<Byte>
    const boardRanks: seq<Byte>
    /** SetMask and ClearMask: one single-bit mask and its complement per square. */
    const setMask: seq<bv64>
    const clearMask: seq<bv64>

    var pieceCount: seq<int>
    /** The live part of each row of PieceList, as the position records it. */
    ghost var lists: seq<seq<TileCoord>>
    var pawns: seq<bv64>
    var kings: seq<TileCoord>
    var material: seq<int>
    var bigPieces: seq<int>
    var majorPieces: seq<int>
    var minorPieces: seq<int>
    var side: PieceColor
    var ep: Option<int>
    var fifty: int
    var ply: int
    var hisPly: int
    var cp: int
    var hash: bv64
    /** Moves: the move list the generators fill. */
    var moves: seq<ChessMove>
    /** Bitboard: the word CountBits counts and PopBit pops. */
    var bitboard: bv64

    // ---------------------------------------------------------------- the abstraction

    /** The array sizes, and the live slots of each piece list holding exactly the list the position records. */
    ghost predicate Framed()
      reads this`pieceCount, this`lists, pieceList
    {
      tiles.Length == BoardSize && ListsInSlots(pieceList, pieceCount, lists)
    }

    /** The position the object holds. */
    ghost function Abs(): Position
      reads this, tiles
    {
      Position(tiles[..], lists, pawns, kings, material, bigPieces, majorPieces, minorPieces, side, ep, fifty, cp, hash)
    }

    /** What the constructor's table builders leave. */
    ghost predicate TablesReady()
    {
      TablesHold(conv120To64, conv64To120, boardFiles, boardRanks, setMask, clearMask)
    }

    /** The object invariant: sizes, ready tables, keys of the right shape and a well-formed position. */
    ghost predicate Valid()
      reads this, tiles, pieceList
    {
      Framed() && TablesReady() && KeysShape(keys) && Shaped(Abs())
    }

    // ---------------------------------------------------------------- construction

    /**
     * The constructor: every tile default-constructed (empty, off the board,
     * mask 15), then the six castle masks (A1 13, E1 12, H1 14, A8 7, E8 3,
     * H8 11), then the bit masks and the conversion and file / rank tables.
     * The fields it leaves alone hold the zero of the object's zero-filled
     * memory.
     */
    constructor(k: HashKeys)
      requires KeysShape(k)
      ensures Valid() && keys == k
      ensures tiles[..] == InitialBoard()
      ensures forall c :: 0 <= c < PieceCodes ==> pieceCount[c] == 0
      ensures side == White && ep.None? && cp == 0 && hash == 0 && fifty == 0 && moves == []
    {
      keys := k;
      var c120, c64, bf, br, sm, cm := NewTables();
      pieceList := new TileCoord[PieceCodes, Capacity];
      var ts := NewBoard();
      tiles := ts;
      conv120To64 := c120[..];
      conv64To120 := c64[..];
      boardFiles := bf[..];
      boardRanks := br[..];
      setMask := sm[..];
      clearMask := cm[..];
      pieceCount := ZeroCounts();
      lists := seq(PieceCodes, _ => []);
      pawns := [0, 0, 0];
      kings := [DefaultCoord(), DefaultCoord()];
      material := [0, 0, 0];
      bigPieces := [0, 0, 0];
      majorPieces := [0, 0, 0];
      minorPieces := [0, 0, 0];
      side := White;
      ep := None;
      fifty := 0;
      ply := 0;
      hisPly := 0;
      cp := 0;
      hash := 0;
      moves := [];
      bitboard := 0;
      new;
      InitialBoardShape();
    }

    /** The constructor's tile loop and six castle masks: default tiles, then A1 13, E1 12, H1 14, A8 7, E8 3, H8 11. */
    static method NewBoard() returns (ts: array<ChessBoardTile>)
      ensures fresh(ts) && ts[..] == InitialBoard()
    {
      ts := new ChessBoardTile[BoardSize](_ => DefaultTile());
      ts[A1] := TileWithMask(13);
      ts[E1] := TileWithMask(12);
      ts[H1] := TileWithMask(14);
      ts[A8] := TileWithMask(7);
      ts[E8] := TileWithMask(3);
      ts[H8] := TileWithMask(11);
      assert forall i :: 0 <= i < BoardSize ==> ts[i] == InitialTile(i);
    }

    /**
     * The conversion, file / rank and mask tables, allocated zero-filled as
     * member arrays are and filled by the three table builders.
     */
    static method NewTables() returns (conv120To64: array<int>, conv64To120: array<int>,
                                       boardFiles: array<Byte>, boardRanks: array<Byte>,
                                       setMask: array<bv64>, clearMask: array<bv64>)
      ensures fresh(conv120To64) && fresh(conv64To120) && fresh(boardFiles) && fresh(boardRanks)
      ensures fresh(setMask) && fresh(clearMask)
      ensures conv120To64[..] == Table120() && conv64To120[..] == Table64()
      ensures boardFiles[..] == FileTable() && boardRanks[..] == RankTable()
      ensures setMask[..] == SetMasks() && clearMask[..] == ClearMasks()
    {
      conv120To64 := new int[BoardSize];
      conv64To120 := new int[64];
      MakeConverterArray120To64(conv120To64, conv64To120);
      boardFiles := new Byte[BoardSize];
      boardRanks := new Byte[BoardSize];
      MakeFilesRanksArrays(boardFiles, boardRanks);
      setMask, clearMask := NewMasks();
    }

    /** SetMask and ClearMask, zero-filled and then filled by MakeBitMasks. */
    static method NewMasks() returns (setMask: array<bv64>, clearMask: array<bv64>)
      ensures fresh(setMask) && fresh(clearMask)
      ensures setMask[..] == SetMasks() && clearMask[..] == ClearMasks()
    {
      setMask := new bv64[64](_ => 0);
      clearMask := new bv64[64](_ => 0);
      MakeBitMasks(setMask, clearMask);
      MasksFromZero(setMask[..], clearMask[..]);
    }

    /** MakeBitMasks: SetMask[i] |= 1 << i and ClearMask[i] = ~SetMask[i], for each square i. */
    static method MakeBitMasks(setMask: array<bv64>, clearMask: array<bv64>)
      requires setMask.Length == 64 && clearMask.Length == 64 && setMask != clearMask
      modifies setMask, clearMask
      ensures forall s :: 0 <= s < 64 ==> setMask[s] == BitOr(old(setMask[s]), Bit(s))
      ensures forall s :: 0 <= s < 64 ==> clearMask[s] == BitNot(setMask[s])
    {
      for i := 0 to 64
        invariant forall s :: 0 <= s < 64 ==>
          setMask[s] == if s < i then BitOr(old(setMask[s]), Bit(s)) else old(setMask[s])
        invariant forall s :: 0 <= s < i ==> clearMask[s] == BitNot(setMask[s])
      {
        SingleBitIsBit(i);
        setMask[i] := BitOr(setMask[i], SingleBit(Index(i)));
        clearMask[i] := BitNot(setMask[i]);
      }
    }

    /**
     * MakeConverterArray_120To64: every 120-cell entry 65 and every 64-square
     * entry 120, then rank by rank and file by file the n-th playable cell
     * and square n are paired.
     */
    static method MakeConverterArray120To64(conv120To64: array<int>, conv64To120: array<int>)
      requires conv120To64.Length == BoardSize && conv64To120.Length == 64
      modifies conv120To64, conv64To120
      ensures conv120To64[..] == Table120() && conv64To120[..] == Table64()
    {
      for i := 0 to BoardSize
        invariant forall j :: 0 <= j < i ==> conv120To64[j] == 65
      {
        conv120To64[i] := 65;
      }
      for i := 0 to 64
        modifies conv64To120
        invariant forall j :: 0 <= j < i ==> conv64To120[j] == 120
      {
        conv64To120[i] := 120;
      }
      var n := 0;
      for r := GetMinRankIndex() to GetMaxRankIndex() + 1
        invariant n == r * 8
        invariant forall j :: 0 <= j < BoardSize && !IsPlayable(j) ==> conv120To64[j] == 65
        invariant forall r', f' :: 0 <= r' < r && 0 <= f' < 8 ==> conv120To64[SquareIndex(f', r')] == SquareNumber(f', r')
        invariant forall r', f' :: 0 <= r' < r && 0 <= f' < 8 ==> conv64To120[SquareNumber(f', r')] == SquareIndex(f', r')
      {
        for f := GetMinFileIndex() to GetMaxFileIndex() + 1
          invariant n == r * 8 + f
          invariant forall j :: 0 <= j < BoardSize && !IsPlayable(j) ==> conv120To64[j] == 65
          invariant forall r', f' :: 0 <= r' <= r && 0 <= f' < 8 && (r' < r || f' < f) ==>
            conv120To64[SquareIndex(f', r')] == SquareNumber(f', r')
          invariant forall r', f' :: 0 <= r' <= r && 0 <= f' < 8 && (r' < r || f' < f) ==>
            conv64To120[SquareNumber(f', r')] == SquareIndex(f', r')
        {
          assert ToFile(f) == f && ToRank(r) == r;
          var tile := GetTileIndexAt(ToFile(f), ToRank(r));
          SquareIsPlayable(f, r);
          conv64To120[n] := tile;
          conv120To64[tile] := n;
          n := n + 1;
        }
      }
      forall i | 0 <= i < BoardSize && IsPlayable(i)
        ensures conv120To64[i] == Table120To64(i)
      {
        CellOfPlayable(i);
      }
      forall s | 0 <= s < 64
        ensures conv64To120[s] == Sq120(s)
      {
        NumberOfSquare(s);
      }
      assert conv120To64[..] == Table120();
      assert conv64To120[..] == Table64();
    }

    /** MakeFilesRanksArrays: None everywhere, then each playable cell's file and rank. */
    static method MakeFilesRanksArrays(boardFiles: array<Byte>, boardRanks: array<Byte>)
      requires boardFiles.Length == BoardSize && boardRanks.Length == BoardSize && boardFiles != boardRanks
      modifies boardFiles, boardRanks
      ensures boardFiles[..] == FileTable() && boardRanks[..] == RankTable()
    {
      for i := 0 to BoardSize
        invariant forall j :: 0 <= j < i ==> boardFiles[j] == FileNone && boardRanks[j] == RankNone
      {
        boardFiles[i] := FileNone;
        boardRanks[i] := RankNone;
      }
      for r := GetMinRankIndex() to GetMaxRankIndex() + 1
        invariant forall j :: 0 <= j < BoardSize && !IsPlayable(j) ==> boardFiles[j] == FileNone && boardRanks[j] == RankNone
        invariant forall r', f' :: 0 <= r' < r && 0 <= f' < 8 ==>
          boardFiles[SquareIndex(f', r')] == f' && boardRanks[SquareIndex(f', r')] == r'
      {
        for f := GetMinFileIndex() to GetMaxFileIndex() + 1
          invariant forall j :: 0 <= j < BoardSize && !IsPlayable(j) ==> boardFiles[j] == FileNone && boardRanks[j] == RankNone
          invariant forall r', f' :: 0 <= r' <= r && 0 <= f' < 8 && (r' < r || f' < f) ==>
            boardFiles[SquareIndex(f', r')] == f' && boardRanks[SquareIndex(f', r')] == r'
        {
          assert ToFile(f) == f && ToRank(r) == r;
          var tile := GetTileIndexAt(ToFile(f), ToRank(r));
          SquareIsPlayable(f, r);
          boardFiles[tile] := ToFile(f);
          boardRanks[tile] := ToRank(r);
        }
      }
      forall i | 0 <= i < BoardSize && IsPlayable(i)
        ensures boardFiles[i] == TableFile(i) && boardRanks[i] == TableRank(i)
      {
        CellOfPlayable(i);
      }
      assert boardFiles[..] == FileTable();
      assert boardRanks[..] == RankTable();
    }

    // ---------------------------------------------------------------- table lookups and bit updates

    /** GetTileAs64: the square of a playable cell, 65 for any other cell. */
    function GetTileAs64(i: int): (s: int)
      requires TablesReady() && 0 <= i < BoardSize
      ensures IsPlayable(i) ==> 0 <= s < 64 && s == Sq64(i) && Sq120(s) == i
      ensures !IsPlayable(i) ==> s == 65
    {
      if IsPlayable(i) then Sq120OfSq64(i); conv120To64[i] else conv120To64[i]
    }

    /** GetTileAs120: the playable cell of a square. */
    function GetTileAs120(s: int): (i: int)
      requires TablesReady() && 0 <= s < 64
      ensures IsPlayable(i) && GetTileAs64(i) == s
    {
      ConvertersInverse(s, Sq120(s));
      conv64To120[s]
    }

    /** ClearBit: the bitboard AND-ed with ClearMask[Idx]; ClearBitOnly says which bits that keeps. */
    function ClearBit(b: bv64, idx: int): (r: bv64)
      requires TablesReady() && 0 <= idx < 64
      ensures r == WithoutBit(b, idx)
    {
      BitAnd(b, clearMask[idx])
    }

    /** SetBit: the bitboard OR-ed with SetMask[Idx]; SetBitOnly says which bits that sets. */
    function SetBit(b: bv64, idx: int): (r: bv64)
      requires TablesReady() && 0 <= idx < 64
      ensures r == WithBit(b, idx)
    {
      BitOr(b, setMask[idx])
    }

    /**
     * GetPieceAtTile: the piece on the tile GetTileIndexAt(File, Rank) names.
     * For a real square that is the tile the 64-square table gives for
     * Rank * 8 + File.
     */
    function GetPieceAtTile(file: Byte, rank: Byte): (p: TileState)
      reads tiles
      requires TablesReady() && tiles.Length == BoardSize && 0 <= GetTileIndexAt(file, rank) < BoardSize
      ensures IsReal(file) && IsReal(rank) ==> p == tiles[GetTileAs120(GetTileIndexAt64(file, rank))].GetPiece()
    {
      if IsReal(file) && IsReal(rank) then
        Sq64OfSquare(file, rank);
        tiles[GetTileIndexAt(file, rank)].GetState().GetChessPiece()
      else
        tiles[GetTileIndexAt(file, rank)].GetState().GetChessPiece()
    }

    /** CountBits: clears the lowest set bit until none is left, counting the steps: the number of set bits. */
    method CountBits() returns (count: int)
      ensures count == PopCount(bitboard)
    {
      var temp := bitboard;
      count := 0;
      while temp != 0
        invariant count + PopCount(temp) == PopCount(bitboard)
        decreases PopCount(temp)
      {
        temp := ClearLowest(temp);
        count := count + 1;
      }
    }

    /**
     * PopBit's update of the bitboard: the lowest set bit is cleared, so a
     * non-empty bitboard loses exactly one set bit and gains none.
     */
    method PopBit()
      modifies this`bitboard
      ensures bitboard == ClearLowest(old(bitboard))
    {
      bitboard := ClearLowest(bitboard);
    }

    // ---------------------------------------------------------------- hashing

    /** HashPiece: toggles the piece's key at the coordinate's cell. */
    method HashPiece(piece: TileState, coord: TileCoord)
      requires KeysShape(keys) && 0 <= coord.ToInt() < BoardSize
      modifies this`hash
      ensures hash == Xor(old(hash), keys.pieceKeys[GetCode(piece)][coord.ToInt()])
    {
      hash := Xor(hash, keys.pieceKeys[GetCode(piece)][coord.ToInt()]);
    }

    /** HashCastle: toggles the key of the current castling permission. */
    method HashCastle()
      requires KeysShape(keys) && IsCastleSet(cp)
      modifies this`hash
      ensures hash == Xor(old(hash), keys.castleKeys[cp])
    {
      hash := Xor(hash, keys.castleKeys[cp]);
    }

    /** HashSide: toggles the side key. */
    method HashSide()
      modifies this`hash
      ensures hash == Xor(old(hash), keys.sideKey)
    {
      hash := Xor(hash, keys.sideKey);
    }

    /** HashEnPassant: toggles the empty piece's key at the en-passant cell, or at cell 99 when none is set. */
    method HashEnPassant()
      requires KeysShape(keys) && (ep.Some? ==> 0 <= ep.value < BoardSize)
      modifies this`hash
      ensures hash == Xor(old(hash), keys.pieceKeys[0][ep.GetOr(NoTile)])
      ensures ep.Some? ==> hash == Xor(old(hash), EpKey(keys, ep))
    {
      hash := Xor(hash, keys.pieceKeys[0][ep.GetOr(NoTile)]);
    }

    // ---------------------------------------------------------------- the three piece operations

    /**
     * ClearPiece: the piece's key leaves the position key, the tile is
     * emptied, the piece leaves its colour's material and counters (a pawn
     * its bitboards), and the list entry found by the search loop is
     * overwritten by the last live entry (the fill the source means; see
     * PieceLists.ClearSlotAsWritten for the fill it writes). The search
     * finds the coordinate, as the source's check demands.
     */
    method ClearPiece(coord: TileCoord)
      requires Valid() && CanClear(Abs(), coord)
      modifies this`pieceCount, this`lists, this`pawns, this`material, this`bigPieces, this`majorPieces, this`minorPieces
      modifies this`hash, tiles, pieceList
      ensures Valid()
      ensures Abs() == AfterClear(keys, old(Abs()), coord)
    {
      var piece := tiles[coord.ToInt()].GetPiece();
      ClearPieceSteps(coord, piece);
      ClearedIs(old(Abs()), coord, piece);
    }

    /** ClearPiece's statements, each field's new value stated in the old values. */
    method ClearPieceSteps(coord: TileCoord, piece: TileState)
      requires Framed() && TablesReady() && KeysShape(keys)
      requires |pawns| == 3 && |material| == 3 && |bigPieces| == 3 && |majorPieces| == 3 && |minorPieces| == 3
      requires 0 <= coord.ToInt() < BoardSize && piece == tiles[coord.ToInt()].GetPiece() && piece != NoPiece
      requires IsBigPiece(piece) || IsPlayable(coord.ToInt())
      requires FindCoord(lists[GetCode(piece)], coord) != -1
      modifies this`pieceCount, this`lists, this`pawns, this`material, this`bigPieces, this`majorPieces, this`minorPieces
      modifies this`hash, tiles, pieceList
      ensures Framed()
      ensures tiles[..] == old(tiles[..])[coord.ToInt() := old(tiles[coord.ToInt()]).SetPiece(NoPiece)]
      ensures hash == Xor(old(hash), keys.pieceKeys[GetCode(piece)][coord.ToInt()])
      ensures CountsDropped(piece, GetColorCode(piece), coord.ToInt(), old(material), old(bigPieces), old(majorPieces), old(minorPieces), old(pawns),
                            material, bigPieces, majorPieces, minorPieces, pawns)
      ensures lists == old(lists)[GetCode(piece) := RemoveAt(old(lists)[GetCode(piece)], FindCoord(old(lists)[GetCode(piece)], coord))]
    {
      var idx := coord.ToInt();
      var cc := GetColorCode(piece);
      HashPiece(piece, coord);
      tiles[idx] := tiles[idx].SetPiece(NoPiece);
      ClearRest(piece, cc, coord);
    }

    /** ClearPiece's counter block, list search and fill. */
    method ClearRest(piece: TileState, cc: int, coord: TileCoord)
      requires Framed() && TablesReady()
      requires |pawns| == 3 && |material| == 3 && |bigPieces| == 3 && |majorPieces| == 3 && |minorPieces| == 3
      requires 0 <= cc < 2 && 0 <= coord.ToInt() < BoardSize && (IsBigPiece(piece) || IsPlayable(coord.ToInt()))
      requires 0 <= GetCode(piece) < PieceCodes && FindCoord(lists[GetCode(piece)], coord) != -1
      modifies this`pieceCount, this`lists, this`pawns, this`material, this`bigPieces, this`majorPieces, this`minorPieces, pieceList
      ensures Framed()
      ensures CountsDropped(piece, cc, coord.ToInt(), old(material), old(bigPieces), old(majorPieces), old(minorPieces), old(pawns),
                            material, bigPieces, majorPieces, minorPieces, pawns)
      ensures lists == old(lists)[GetCode(piece) := RemoveAt(old(lists)[GetCode(piece)], FindCoord(old(lists)[GetCode(piece)], coord))]
    {
      DropCounters(piece, cc, coord.ToInt());
      DropListed(GetCode(piece), coord);
    }

    /** ClearPiece's search loop and fill: the first live entry equal to coord leaves list c. */
    method DropListed(c: int, coord: TileCoord)
      requires Framed() && 0 <= c < PieceCodes && FindCoord(lists[c], coord) != -1
      modifies this`pieceCount, this`lists, pieceList
      ensures Framed()
      ensures lists == old(lists)[c := RemoveAt(old(lists)[c], FindCoord(old(lists)[c], coord))]
    {
      var t := FindListed(c, coord);
      DropSlot(c, t);
    }

    /** The search loop of ClearPiece: the first live slot of list c equal to coord, or -1. */
    method FindListed(c: int, coord: TileCoord) returns (t: int)
      requires Framed() && 0 <= c < PieceCodes
      ensures t == FindCoord(lists[c], coord)
    {
      t := -1;
      var i := 0;
      while i < pieceCount[c]
        invariant 0 <= i <= pieceCount[c]
        invariant forall j :: 0 <= j < i ==> !lists[c][j].Equals(coord)
      {
        if pieceList[c, i].Equals(coord) {
          t := i;
          break;
        }
        i := i + 1;
      }
    }

    /**
     * AddPiece: the piece's key joins the position key, the tile takes the
     * piece, a pawn's bit is set on its colour's and the combined bitboard,
     * the piece's code is added to its colour's material, and the
     * coordinate fills the next free slot of the piece's list.
     */
    method AddPiece(coord: TileCoord, piece: TileState)
      requires Valid() && CanAdd(Abs(), coord, piece)
      modifies this`pieceCount, this`lists, this`pawns, this`material, this`hash, tiles, pieceList
      ensures Valid()
      ensures Abs() == AfterAdd(keys, old(Abs()), coord, piece)
    {
      AddPieceSteps(coord, piece);
      AddedIs(old(Abs()), coord, piece);
    }

    /** AddPiece's statements, each field's new value stated in the old values. */
    method AddPieceSteps(coord: TileCoord, piece: TileState)
      requires Framed() && TablesReady() && KeysShape(keys) && |pawns| == 3 && |material| == 3
      requires 0 <= coord.ToInt() < BoardSize && piece != NoPiece && (IsBigPiece(piece) || IsPlayable(coord.ToInt()))
      requires pieceCount[GetCode(piece)] < Capacity
      modifies this`pieceCount, this`lists, this`pawns, this`material, this`hash, tiles, pieceList
      ensures Framed()
      ensures tiles[..] == old(tiles[..])[coord.ToInt() := old(tiles[coord.ToInt()]).SetPiece(piece)]
      ensures hash == Xor(old(hash), keys.pieceKeys[GetCode(piece)][coord.ToInt()])
      ensures CountsAdded(piece, GetColorCode(piece), coord.ToInt(), old(material), old(pawns), material, pawns)
      ensures lists == old(lists)[GetCode(piece) := old(lists)[GetCode(piece)] + [coord]]
    {
      var idx := coord.ToInt();
      HashPiece(piece, coord);
      tiles[idx] := tiles[idx].SetPiece(piece);
      AddRest(piece, GetColorCode(piece), coord);
    }

    /** AddPiece's bitboard block, material update and list append. */
    method AddRest(piece: TileState, cc: int, coord: TileCoord)
      requires Framed() && TablesReady() && |pawns| == 3 && |material| == 3
      requires 0 <= cc < 2 && 0 <= coord.ToInt() < BoardSize && piece != NoPiece && (IsBigPiece(piece) || IsPlayable(coord.ToInt()))
      requires 0 <= GetCode(piece) < PieceCodes && pieceCount[GetCode(piece)] < Capacity
      modifies this`pieceCount, this`lists, this`pawns, this`material, pieceList
      ensures Framed()
      ensures CountsAdded(piece, cc, coord.ToInt(), old(material), old(pawns), material, pawns)
      ensures lists == old(lists)[GetCode(piece) := old(lists)[GetCode(piece)] + [coord]]
    {
      AddPawnBit(piece, cc, coord.ToInt());
      material := material[cc := material[cc] + GetCode(piece)];
      AppendSlot(GetCode(piece), coord);
    }

    /** The fields AddPiece's statements leave are those of AfterAdd, and they form a valid state. */
    lemma AddedIs(p: Position, coord: TileCoord, piece: TileState)
      requires Framed() && TablesReady() && KeysShape(keys)
      requires Shaped(p) && CanAdd(p, coord, piece)
      requires tiles[..] == p.tiles[coord.ToInt() := p.tiles[coord.ToInt()].SetPiece(piece)]
      requires hash == Xor(p.hash, keys.pieceKeys[GetCode(piece)][coord.ToInt()])
      requires CountsAdded(piece, GetColorCode(piece), coord.ToInt(), p.material, p.pawns, material, pawns)
      requires lists == p.lists[GetCode(piece) := p.lists[GetCode(piece)] + [coord]]
      requires bigPieces == p.bigPieces && majorPieces == p.majorPieces && minorPieces == p.minorPieces
      requires side == p.side && ep == p.ep && cp == p.cp && fifty == p.fifty && kings == p.kings
      ensures Abs() == AfterAdd(keys, p, coord, piece) && Valid()
    {
    }

    /** The fields AfterClear sets, one by one. */
    lemma ClearedIs(p: Position, coord: TileCoord, piece: TileState)
      requires Framed() && TablesReady() && KeysShape(keys)
      requires Shaped(p) && CanClear(p, coord) && piece == p.tiles[coord.ToInt()].GetPiece()
      requires tiles[..] == p.tiles[coord.ToInt() := p.tiles[coord.ToInt()].SetPiece(NoPiece)]
      requires hash == Xor(p.hash, keys.pieceKeys[GetCode(piece)][coord.ToInt()])
      requires CountsDropped(piece, GetColorCode(piece), coord.ToInt(), p.material, p.bigPieces, p.majorPieces, p.minorPieces, p.pawns,
                             material, bigPieces, majorPieces, minorPieces, pawns)
      requires lists == p.lists[GetCode(piece) := RemoveAt(p.lists[GetCode(piece)], FindCoord(p.lists[GetCode(piece)], coord))]
      requires side == p.side && ep == p.ep && cp == p.cp && fifty == p.fifty && kings == p.kings
      ensures Abs() == AfterClear(keys, p, coord) && Valid()
    {
      ClearedAbs(p, coord, piece);
      assert Shaped(AfterClear(keys, p, coord));
    }

    /** The fields ClearPiece's statements leave are those of AfterClear. */
    lemma ClearedAbs(p: Position, coord: TileCoord, piece: TileState)
      requires KeysShape(keys)
      requires Shaped(p) && CanClear(p, coord) && piece == p.tiles[coord.ToInt()].GetPiece()
      requires tiles[..] == p.tiles[coord.ToInt() := p.tiles[coord.ToInt()].SetPiece(NoPiece)]
      requires hash == Xor(p.hash, keys.pieceKeys[GetCode(piece)][coord.ToInt()])
      requires CountsDropped(piece, GetColorCode(piece), coord.ToInt(), p.material, p.bigPieces, p.majorPieces, p.minorPieces, p.pawns,
                             material, bigPieces, majorPieces, minorPieces, pawns)
      requires lists == p.lists[GetCode(piece) := RemoveAt(p.lists[GetCode(piece)], FindCoord(p.lists[GetCode(piece)], coord))]
      requires side == p.side && ep == p.ep && cp == p.cp && fifty == p.fifty && kings == p.kings
      ensures Abs() == AfterClear(keys, p, coord)
    {
      var r := AfterClear(keys, p, coord);
      assert r == p.(tiles := tiles[..], hash := hash, material := material, bigPieces := bigPieces,
                     majorPieces := majorPieces, minorPieces := minorPieces, pawns := pawns, lists := lists);
    }

    /**
     * MovePiece: the piece's key is toggled at From and at To, From is
     * emptied and To takes the piece, a pawn's bit moves on both bitboards,
     * and the first live list entry equal to From becomes To.
     */
    method MovePiece(from: TileCoord, to: TileCoord)
      requires Valid() && CanMove(Abs(), from, to)
      modifies this`lists, this`pawns, this`hash, tiles, pieceList
      ensures Valid()
      ensures Abs() == AfterMove(keys, old(Abs()), from, to)
    {
      var piece := tiles[from.ToInt()].GetPiece();
      MovePieceSteps(from, to, piece);
      MovedIs(old(Abs()), from, to, piece);
    }

    /** MovePiece's statements, each field's new value stated in the old values. */
    method MovePieceSteps(from: TileCoord, to: TileCoord, piece: TileState)
      requires Framed() && TablesReady() && KeysShape(keys) && |pawns| == 3
      requires 0 <= from.ToInt() < BoardSize && 0 <= to.ToInt() < BoardSize
      requires piece == tiles[from.ToInt()].GetPiece() && piece != NoPiece
      requires IsBigPiece(piece) || (IsPlayable(from.ToInt()) && IsPlayable(to.ToInt()))
      requires FindCoord(lists[GetCode(piece)], from) != -1
      modifies this`lists, this`pawns, this`hash, tiles, pieceList
      ensures Framed()
      ensures tiles[..] == MovedTiles(old(tiles[..]), from.ToInt(), to.ToInt())
      ensures hash == Xor(Xor(old(hash), keys.pieceKeys[GetCode(piece)][from.ToInt()]), keys.pieceKeys[GetCode(piece)][to.ToInt()])
      ensures pawns == if IsBigPiece(piece) then old(pawns)
                       else SetBits(ClearBits(old(pawns), GetColorCode(piece), Sq64(from.ToInt())), GetColorCode(piece), Sq64(to.ToInt()))
      ensures lists == old(lists)[GetCode(piece) := old(lists)[GetCode(piece)][FindCoord(old(lists)[GetCode(piece)], from) := to]]
    {
      var fi := from.ToInt();
      var ti := to.ToInt();
      HashPiece(piece, from);
      tiles[fi] := tiles[fi].SetPiece(NoPiece);
      HashPiece(piece, to);
      tiles[ti] := tiles[ti].SetPiece(piece);
      MoveRest(piece, from, to);
    }

    /** MovePiece's bitboard block, list search and list write. */
    method MoveRest(piece: TileState, from: TileCoord, to: TileCoord)
      requires Framed() && TablesReady() && |pawns| == 3 && 0 <= GetCode(piece) < PieceCodes
      requires 0 <= from.ToInt() < BoardSize && 0 <= to.ToInt() < BoardSize && piece != NoPiece
      requires IsBigPiece(piece) || (IsPlayable(from.ToInt()) && IsPlayable(to.ToInt()))
      requires FindCoord(lists[GetCode(piece)], from) != -1
      modifies this`lists, this`pawns, pieceList
      ensures Framed()
      ensures pawns == if IsBigPiece(piece) then old(pawns)
                       else SetBits(ClearBits(old(pawns), GetColorCode(piece), Sq64(from.ToInt())), GetColorCode(piece), Sq64(to.ToInt()))
      ensures lists == old(lists)[GetCode(piece) := old(lists)[GetCode(piece)][FindCoord(old(lists)[GetCode(piece)], from) := to]]
    {
      MovePawnBit(piece, GetColorCode(piece), from.ToInt(), to.ToInt());
      var code := GetCode(piece);
      var t := FindListed(code, from);
      SetSlot(code, t, to);
    }

    /** The fields MovePiece's statements leave are those of AfterMove, and they form a valid state. */
    lemma MovedIs(p: Position, from: TileCoord, to: TileCoord, piece: TileState)
      requires Framed() && TablesReady() && KeysShape(keys)
      requires Shaped(p) && CanMove(p, from, to) && piece == p.tiles[from.ToInt()].GetPiece()
      requires tiles[..] == MovedTiles(p.tiles, from.ToInt(), to.ToInt())
      requires hash == Xor(Xor(p.hash, keys.pieceKeys[GetCode(piece)][from.ToInt()]), keys.pieceKeys[GetCode(piece)][to.ToInt()])
      requires pawns == if IsBigPiece(piece) then p.pawns
                        else SetBits(ClearBits(p.pawns, GetColorCode(piece), Sq64(from.ToInt())), GetColorCode(piece), Sq64(to.ToInt()))
      requires lists == p.lists[GetCode(piece) := p.lists[GetCode(piece)][FindCoord(p.lists[GetCode(piece)], from) := to]]
      requires material == p.material && bigPieces == p.bigPieces && majorPieces == p.majorPieces && minorPieces == p.minorPieces
      requires side == p.side && ep == p.ep && cp == p.cp && fifty == p.fifty && kings == p.kings
      ensures Abs() == AfterMove(keys, p, from, to) && Valid()
    {
    }

    // ---------------------------------------------------------------- MakeMove

    /**
     * MakeMove: the From and To tiles are copied, the special step runs (an
     * en-passant victim cleared, a castling rook moved), then the castling
     * and en-passant bookkeeping, and CompleteMove the rest. The result is
     * true when the mover's king stands attacked afterwards, as written. The
     * move must be one the engine makes without a failed check or a read
     * outside its arrays.
     */
    method MakeMove(m: ChessMove) returns (kingAttacked: bool)
      requires Valid() && MakeMoveS(keys, Abs(), m).Moved?
      modifies this`pieceCount, this`lists, this`pawns, this`kings, this`material, this`bigPieces, this`majorPieces
      modifies this`minorPieces, this`side, this`ep, this`fifty, this`cp, this`hash, tiles, pieceList
      ensures Valid()
      ensures Abs() == MakeMoveS(keys, old(Abs()), m).pos
      ensures kingAttacked == MakeMoveS(keys, old(Abs()), m).kingAttacked
    {
      MakeMoveSteps(keys, Abs(), m);
      var fromIdx := m.GetFromTileIndex();
      var toIdx := m.GetToTileIndex();
      var from := tiles[fromIdx];
      var to := tiles[toIdx];
      assert IsCastleSet(from.GetCastlePermission()) && IsCastleSet(to.GetCastlePermission());
      SpecialMove(m, fromIdx, to.GetPosition().coordinate);
      UpdateRights(from.GetCastlePermission(), to.GetCastlePermission());
      kingAttacked := CompleteMoveM(m, from, to);
    }

    /** MakeMove's first block: the en-passant victim is cleared, or the rook the castling target selects is moved. */
    method SpecialMove(m: ChessMove, fromIdx: int, target: int)
      requires Valid() && 0 <= fromIdx < BoardSize && SpecialStep(keys, Abs(), m, fromIdx, target).Some?
      modifies this`pieceCount, this`lists, this`pawns, this`material, this`bigPieces, this`majorPieces, this`minorPieces
      modifies this`hash, tiles, pieceList
      ensures Valid()
      ensures Abs() == SpecialStep(keys, old(Abs()), m, fromIdx, target).value
    {
      if m.IsEnPassantMove() {
        if side == White {
          ClearPiece(tiles[fromIdx - 10].GetPosition());
        } else {
          ClearPiece(tiles[fromIdx + 10].GetPosition());
        }
      } else if m.IsCastlingMove() {
        if target == C1 {
          MovePiece(FromCombined(A1), FromCombined(B1));
        } else if target == C8 {
          MovePiece(FromCombined(A8), FromCombined(D8));
        } else if target == G1 {
          MovePiece(FromCombined(H1), FromCombined(F1));
        } else {
          MovePiece(FromCombined(H8), FromCombined(H8));
        }
      }
    }

    /**
     * The old en-passant key (when a tile is set) and the old castle key
     * leave the position key, the permission is masked by the From and To
     * tiles' masks, the en-passant tile is reset, and the new castle key
     * joins the position key.
     */
    method UpdateRights(fromMask: int, toMask: int)
      requires Valid() && IsCastleSet(fromMask) && IsCastleSet(toMask)
      modifies this`ep, this`cp, this`hash
      ensures Valid()
      ensures Abs() == RightsStep(keys, old(Abs()), fromMask, toMask)
    {
      ghost var p := Abs();
      if ep.Some? {
        HashEnPassant();
      } else {
        XorNone(keys, hash);
      }
      ghost var h1 := hash;
      HashCastle();
      ghost var h2 := hash;
      cp := CastleAnd(cp, fromMask);
      cp := CastleAnd(cp, toMask);
      ep := None;
      HashCastle();
      RightsIs(p, fromMask, toMask, h1, h2);
    }

    /** After UpdateRights' statements the object holds RightsStep's position, and is valid. */
    lemma RightsIs(p: Position, fromMask: int, toMask: int, h1: bv64, h2: bv64)
      requires Framed() && TablesReady() && KeysShape(keys) && Shaped(p) && IsCastleSet(fromMask) && IsCastleSet(toMask)
      requires tiles[..] == p.tiles && lists == p.lists && pawns == p.pawns && kings == p.kings && material == p.material
      requires bigPieces == p.bigPieces && majorPieces == p.majorPieces && minorPieces == p.minorPieces
      requires side == p.side && fifty == p.fifty && ep == None && cp == CastleAnd(CastleAnd(p.cp, fromMask), toMask)
      requires h1 == Xor(p.hash, EpKey(keys, p.ep)) && h2 == Xor(h1, keys.castleKeys[p.cp]) && hash == Xor(h2, keys.castleKeys[cp])
      ensures Valid() && Abs() == RightsStep(keys, p, fromMask, toMask)
    {
    }

    /** The capture step, the pawn step and the piece's own move, then FinishMoveM. */
    method CompleteMoveM(m: ChessMove, from: ChessBoardTile, to: ChessBoardTile) returns (kingAttacked: bool)
      requires Valid() && (side == White || side == Black) && CompleteMove(keys, Abs(), m, from, to).Moved?
      modifies this`pieceCount, this`lists, this`pawns, this`kings, this`material, this`bigPieces, this`majorPieces
      modifies this`minorPieces, this`side, this`ep, this`fifty, this`hash, tiles, pieceList
      ensures Valid()
      ensures Abs() == CompleteMove(keys, old(Abs()), m, from, to).pos
      ensures kingAttacked == CompleteMove(keys, old(Abs()), m, from, to).kingAttacked
    {
      CompleteMoveSteps(keys, Abs(), m, from, to);
      CaptureMove(m, to.GetPosition());
      PawnMove(m, from.GetPiece(), from.GetPosition());
      MovePiece(from.GetPosition(), to.GetPosition());
      kingAttacked := FinishMoveM(m, from.GetPiece(), to.GetPosition());
    }

    /** The fifty-move counter steps; a packed captured piece is cleared from To and resets the counter. */
    method CaptureMove(m: ChessMove, to: TileCoord)
      requires Valid() && CaptureStep(keys, Abs(), m, to).Some?
      modifies this`pieceCount, this`lists, this`pawns, this`material, this`bigPieces, this`majorPieces, this`minorPieces
      modifies this`fifty, this`hash, tiles, pieceList
      ensures Valid()
      ensures Abs() == CaptureStep(keys, old(Abs()), m, to).value
    {
      ghost var p := Abs();
      var captured := GetPieceFromCode(m.GetCapturedPiece());
      SetFifty(fifty + 1);
      if captured != NoPiece {
        CaptureClears(keys, p, m, to);
        ClearPiece(to);
        SetFifty(0);
      }
    }

    /** A write to FiftyMoveCounter: nothing else of the position changes. */
    method SetFifty(n: int)
      requires Valid()
      modifies this`fifty
      ensures Valid() && Abs() == old(Abs()).(fifty := n)
    {
      fifty := n;
    }

    /** A pawn move resets the counter; a pawn-start move sets the passed-over cell as en-passant tile and hashes it. */
    method PawnMove(m: ChessMove, piece: TileState, from: TileCoord)
      requires Valid() && PawnStep(keys, Abs(), m, piece, from).Some?
      modifies this`fifty, this`ep, this`hash
      ensures Valid()
      ensures Abs() == PawnStep(keys, old(Abs()), m, piece, from).value
    {
      if IsA(piece, Pawn) {
        fifty := 0;
        if m.IsPawnStartMove() {
          if side == White {
            ep := Some(from.ToInt() + 10);
          } else {
            ep := Some(from.ToInt() - 10);
          }
          HashEnPassant();
        }
      }
    }

    /**
     * The promotion (the To piece cleared and the promoted piece added), the
     * king cache, the side flip and its key, and the attack test on the
     * mover's king by the new side to move.
     */
    method FinishMoveM(m: ChessMove, piece: TileState, to: TileCoord) returns (kingAttacked: bool)
      requires Valid() && (side == White || side == Black) && FinishMove(keys, Abs(), m, piece, to).Moved?
      modifies this`pieceCount, this`lists, this`pawns, this`kings, this`material, this`bigPieces, this`majorPieces
      modifies this`minorPieces, this`side, this`hash, tiles, pieceList
      ensures Valid()
      ensures Abs() == FinishMove(keys, old(Abs()), m, piece, to).pos
      ensures kingAttacked == FinishMove(keys, old(Abs()), m, piece, to).kingAttacked
    {
      PromoteMove(m, to);
      var sideCode := ColorCode(side);
      HandOverM(piece, to);
      kingAttacked := IsTileAttacked(kings[sideCode].file, kings[sideCode].rank, side);
    }

    /** The king cache, and the side flip and its key. */
    method HandOverM(piece: TileState, to: TileCoord)
      requires Valid() && (side == White || side == Black) && HandOver(keys, Abs(), piece, to).Some?
      modifies this`kings, this`side, this`hash
      ensures Valid()
      ensures Abs() == HandOver(keys, old(Abs()), piece, to).value
    {
      ghost var p := Abs();
      var sideCode := ColorCode(side);
      if IsA(piece, King) {
        kings := kings[sideCode := to];
      }
      side := ColorFromCode(FlipCode(sideCode));
      HashSide();
      HandedOverIs(p, piece, to);
    }

    /** The fields HandOverM's statements leave are those of HandOver. */
    lemma HandedOverIs(p: Position, piece: TileState, to: TileCoord)
      requires KeysShape(keys) && Shaped(p) && (p.side == White || p.side == Black)
      requires HandOver(keys, p, piece, to).Some?
      requires tiles[..] == p.tiles && lists == p.lists && pawns == p.pawns && material == p.material
      requires bigPieces == p.bigPieces && majorPieces == p.majorPieces && minorPieces == p.minorPieces
      requires ep == p.ep && fifty == p.fifty && cp == p.cp
      requires kings == if IsA(piece, King) then p.kings[ColorCode(p.side) := to] else p.kings
      requires side == ColorFromCode(FlipCode(ColorCode(p.side))) && hash == Xor(p.hash, keys.sideKey)
      ensures Abs() == HandOver(keys, p, piece, to).value
    {
      var r := HandOver(keys, p, piece, to).value;
      assert r == p.(kings := kings, side := side, hash := hash);
    }

    /** A packed promoted piece: the To tile is cleared and the promoted piece added there. */
    method PromoteMove(m: ChessMove, to: TileCoord)
      requires Valid() && PromoteStep(keys, Abs(), m, to).Some?
      modifies this`pieceCount, this`lists, this`pawns, this`material, this`bigPieces, this`majorPieces, this`minorPieces
      modifies this`hash, tiles, pieceList
      ensures Valid()
      ensures Abs() == PromoteStep(keys, old(Abs()), m, to).value
    {
      var promoted := GetPieceFromCode(m.GetPromotedPiece());
      if promoted != NoPiece {
        ClearPiece(to);
        AddPiece(to, promoted);
      }
    }

    // ---------------------------------------------------------------- ResetBoard

    /**
     * ResetBoard: every tile reset, the 64 playable tiles given the empty
     * piece, the counters, material, pawn bitboards and piece counts zeroed,
     * both kings at the default coordinate, nobody to move, no en-passant
     * tile, the fifty-move counter, ply counters, castling permission and
     * position key zero.
     */
    method ResetBoard()
      requires Valid()
      modifies tiles, this`pieceCount, this`lists, this`pawns, this`kings, this`material, this`bigPieces, this`majorPieces
      modifies this`minorPieces, this`side, this`ep, this`fifty, this`ply, this`hisPly, this`cp, this`hash
      ensures Valid() && Abs() == ResetPosition(old(Abs()))
      ensures ply == 0 && hisPly == 0 && forall c :: 0 <= c < PieceCodes ==> pieceCount[c] == 0
    {
      ghost var p := Abs();
      ResetTilesM();
      ResetFields();
      ResetIs(p);
    }

    /** ResetBoard's counter, list and state assignments. */
    method ResetFields()
      modifies this`pieceCount, this`lists, this`pawns, this`kings, this`material, this`bigPieces, this`majorPieces
      modifies this`minorPieces, this`side, this`ep, this`fifty, this`ply, this`hisPly, this`cp, this`hash
      ensures pieceCount == ZeroCounts() && lists == seq(PieceCodes, _ => [])
      ensures bigPieces == [0, 0, 0] && majorPieces == [0, 0, 0] && minorPieces == [0, 0, 0] && material == [0, 0, 0]
      ensures pawns == [0, 0, 0] && kings == [DefaultCoord(), DefaultCoord()]
      ensures side == Both && ep == None && fifty == 0 && ply == 0 && hisPly == 0 && cp == 0 && hash == 0
    {
      pieceCount := ZeroCounts();
      lists := seq(PieceCodes, _ => []);
      bigPieces := [0, 0, 0];
      majorPieces := [0, 0, 0];
      minorPieces := [0, 0, 0];
      material := [0, 0, 0];
      pawns := [0, 0, 0];
      kings := [DefaultCoord(), DefaultCoord()];
      side := Both;
      ep := None;
      fifty := 0;
      ply := 0;
      hisPly := 0;
      cp := 0;
      hash := 0;
    }

    /** The fields ResetBoard leaves are those of ResetPosition, and they form a valid state. */
    lemma ResetIs(p: Position)
      requires TablesReady() && KeysShape(keys) && Shaped(p) && tiles.Length == BoardSize
      requires pieceList.Length0 == PieceCodes && pieceList.Length1 == Capacity
      requires tiles[..] == ResetTiles(p.tiles)
      requires pieceCount == ZeroCounts() && lists == seq(PieceCodes, _ => [])
      requires bigPieces == [0, 0, 0] && majorPieces == [0, 0, 0] && minorPieces == [0, 0, 0] && material == [0, 0, 0]
      requires pawns == [0, 0, 0] && kings == [DefaultCoord(), DefaultCoord()]
      requires side == Both && ep == None && fifty == 0 && cp == 0 && hash == 0
      ensures Abs() == ResetPosition(p) && Valid()
    {
      ResetShaped(p);
    }

    /** ResetBoard's two tile loops: every tile reset, then every playable tile given the empty piece, which it already holds. */
    method ResetTilesM()
      requires TablesReady() && tiles.Length == BoardSize
      modifies tiles
      ensures tiles[..] == ResetTiles(old(tiles[..]))
    {
      for i := 0 to tiles.Length
        invariant forall j :: 0 <= j < i ==> tiles[j] == old(tiles[j]).Reset()
        invariant forall j :: i <= j < tiles.Length ==> tiles[j] == old(tiles[j])
      {
        tiles[i] := tiles[i].Reset();
      }
      assert tiles[..] == ResetTiles(old(tiles[..]));
      for s := 0 to 64
        invariant tiles[..] == ResetTiles(old(tiles[..]))
      {
        var cell := GetTileAs120(s);
        tiles[cell] := tiles[cell].SetPiece(NoPiece);
      }
    }

    // ---------------------------------------------------------------- InitBoard

    /**
     * InitBoard: nothing for an empty string; otherwise ResetBoard, then,
     * when the trimmed string splits at a space, the placement rows from
     * rank Eight down and (when there is a placement) the state fields,
     * UpdateListsMaterial and GenerateAllMoves. `loaded` is false where the
     * engine would index an array out of range (a ninth row, a missing state
     * token, a short or far en-passant token, an eleventh piece of a kind)
     * or where a row covers more than eight squares; the state is then left
     * unspecified.
     */
    method InitBoard(fen: string) returns (loaded: bool)
      requires Valid()
      modifies tiles, pieceList, this`pieceCount, this`lists, this`pawns, this`kings, this`material, this`bigPieces
      modifies this`majorPieces, this`minorPieces, this`side, this`ep, this`fifty, this`ply, this`hisPly, this`cp, this`hash, this`moves
      ensures loaded <==> LoadFen(keys, old(Abs()), fen).Some?
      ensures loaded ==> Valid() && Abs() == LoadFen(keys, old(Abs()), fen).value
      ensures loaded && Generates(fen) ==> ListsShape(lists) && moves == AllMoves(tiles[..], lists, side, ep, cp)
      ensures loaded && !Generates(fen) ==> moves == old(moves)
    {
      if |fen| == 0 {
        return true;
      }
      ghost var p := Abs();
      ResetBoard();
      ResetShaped(p);
      var parts := Parts(fen);
      if parts.None? {
        return true;
      }
      var rows, toks := parts.value.0, parts.value.1;
      if |rows| > 0 {
        loaded := LoadRowsM(rows, toks);
        if !loaded {
          return;
        }
      }
      loaded := TallyM();
      if !loaded {
        return;
      }
      GenerateAllMoves();
    }

    /** The placement put down and, when there are state tokens, the state fields read. */
    method LoadRowsM(rows: seq<string>, toks: seq<string>) returns (ok: bool)
      requires Valid()
      modifies tiles, this`side, this`cp, this`ep, this`hash
      ensures ok <==> LoadRows(keys, old(Abs()), rows, toks).Some?
      ensures ok ==> Valid() && Abs() == LoadRows(keys, old(Abs()), rows, toks).value
    {
      ghost var p := Abs();
      if !FitsBoard(rows) {
        return false;
      }
      PlaceRowsM(rows);
      PlacedIs(p, rows);
      if |toks| > 0 {
        ok := ReadStateM(toks);
      } else {
        ok := true;
      }
    }

    /**
     * UpdateListsMaterial on a board whose lists are empty, refused (`ok`
     * false) where a code has more tiles than its list has slots. On
     * success the lists are the cells of each code in cell order.
     */
    method TallyM() returns (ok: bool)
      requires Valid() && NoneListed(Abs())
      modifies this`pieceCount, this`lists, this`kings, this`material, this`bigPieces, this`majorPieces, this`minorPieces, pieceList
      ensures ok <==> TallyTiles(old(Abs()), old(tiles[..]), BoardSize).Some?
      ensures ok ==> Valid() && Abs() == TallyTiles(old(Abs()), old(tiles[..]), BoardSize).value
      ensures ok ==> lists == BoardLists(tiles[..]) && ListsShape(lists)
    {
      ghost var q := Abs();
      ok := TallyFits();
      TallyLists(q, q.tiles, BoardSize);
      if !ok {
        return;
      }
      UpdateListsMaterial();
      UpdateListsMatch(q, q.tiles);
      BoardListsShape(tiles[..]);
    }

    /** The placement loop over the rows, rank Eight first. */
    method PlaceRowsM(rows: seq<string>)
      requires TablesReady() && tiles.Length == BoardSize && FitsBoard(rows)
      modifies tiles
      ensures tiles[..] == PlaceRows(old(tiles[..]), rows)
    {
      ghost var t0 := tiles[..];
      var rank: int := RankEight;
      for k := 0 to |rows|
        invariant FitsBoard(rows[..k]) && rank == RankEight - k
        invariant tiles[..] == PlaceRows(t0, rows[..k])
      {
        PlaceRowStep(t0, rows, k, rank);
        rank := rank - 1;
      }
      assert rows[..|rows|] == rows;
    }

    /** One pass of the placement loop: row k goes down on rank Eight - k. */
    method PlaceRowStep(ghost t0: seq<ChessBoardTile>, rows: seq<string>, k: int, rank: int)
      requires TablesReady() && tiles.Length == BoardSize && |t0| == BoardSize && FitsBoard(rows)
      requires 0 <= k < |rows| && rank == RankEight - k && FitsBoard(rows[..k]) && tiles[..] == PlaceRows(t0, rows[..k])
      modifies tiles
      ensures FitsBoard(rows[..k + 1]) && tiles[..] == PlaceRows(t0, rows[..k + 1])
    {
      PlaceRowsNext(t0, rows, k);
      ghost var prev := tiles[..];
      PlaceRowM(rows[k], rank);
      assert tiles[..] == PlaceSquares(prev, rank, RowSquares(rows[k]));
    }

    /** One row: each character puts down its run of squares from file A on. */
    method PlaceRowM(row: string, rank: int)
      requires TablesReady() && tiles.Length == BoardSize && IsReal(rank) && |RowSquares(row)| <= 8
      modifies tiles
      ensures tiles[..] == PlaceSquares(old(tiles[..]), rank, RowSquares(row))
    {
      ghost var t0 := tiles[..];
      var file := 0;
      for j := 0 to |row|
        invariant |RowSquares(row[..j])| <= 8 && file == |RowSquares(row[..j])|
        invariant tiles[..] == PlaceSquares(t0, rank, RowSquares(row[..j]))
      {
        var c := row[j];
        var count := 1;
        var piece := GetPieceFromChar(c);
        if '1' <= c <= '8' {
          count := c as int - '0' as int;
        }
        RowSquaresNext(row, j);
        RowGrows(row, j + 1);
        assert Expand(c) == seq(count, _ => piece);
        PutRunM(t0, RowSquares(row[..j]), piece, count, rank, file);
        file := file + count;
      }
      assert row[..|row|] == row;
    }

    /** The count loop: `count` squares of `piece` from file `file` on. */
    method PutRunM(ghost t0: seq<ChessBoardTile>, ghost sq: seq<TileState>, piece: TileState, count: int, rank: int, file: int)
      requires TablesReady() && tiles.Length == BoardSize && |t0| == BoardSize && IsReal(rank)
      requires file == |sq| && 0 <= count && |sq| + count <= 8
      requires tiles[..] == PlaceSquares(t0, rank, sq)
      modifies tiles
      ensures tiles[..] == PlaceSquares(t0, rank, sq + seq(count, _ => piece))
    {
      var f := file;
      assert sq + seq(0, _ => piece) == sq;
      for i := 0 to count
        invariant f == file + i
        invariant tiles[..] == PlaceSquares(t0, rank, sq + seq(i, _ => piece))
      {
        assert sq + seq(i + 1, _ => piece) == sq + seq(i, _ => piece) + [piece];
        PutSquareM(t0, sq + seq(i, _ => piece), piece, rank, f);
        f := f + 1;
      }
    }

    /** One pass of the count loop: the tile of Rank * 8 + File takes the piece and the coordinate (File, Rank). */
    method PutSquareM(ghost t0: seq<ChessBoardTile>, ghost run: seq<TileState>, piece: TileState, rank: int, file: int)
      requires TablesReady() && tiles.Length == BoardSize && |t0| == BoardSize && IsReal(rank)
      requires file == |run| < 8 && tiles[..] == PlaceSquares(t0, rank, run)
      modifies tiles
      ensures tiles[..] == PlaceSquares(t0, rank, run + [piece])
    {
      PlaceSquaresNext(t0, rank, run, piece);
      var cell := GetTileAs120(GetTileIndexAt64(file, rank));
      assert cell == SquareIndex(file, rank) by {
        Sq64OfSquare(file, rank);
      }
      tiles[cell] := tiles[cell].SetPiece(piece).SetPositionFileRank(file, rank);
    }

    /** After the placement loop the object holds the reset position with the placement put down, and is valid. */
    lemma PlacedIs(p0: Position, rows: seq<string>)
      requires Framed() && TablesReady() && KeysShape(keys) && Shaped(p0) && FitsBoard(rows)
      requires tiles[..] == PlaceRows(p0.tiles, rows)
      requires lists == p0.lists && pawns == p0.pawns && kings == p0.kings && material == p0.material
      requires bigPieces == p0.bigPieces && majorPieces == p0.majorPieces && minorPieces == p0.minorPieces
      requires side == p0.side && ep == p0.ep && fifty == p0.fifty && cp == p0.cp && hash == p0.hash
      ensures Valid() && Abs() == p0.(tiles := PlaceRows(p0.tiles, rows))
    {
      PlaceRowsSane(p0.tiles, rows);
    }

    /**
     * The state fields: the side, the castling characters OR-ed in unless
     * the token is "-", the en-passant cell unless that token is "-", and
     * the position key recomputed.
     */
    method ReadStateM(toks: seq<string>) returns (ok: bool)
      requires Valid() && toks != []
      modifies this`side, this`cp, this`ep, this`hash
      ensures ok <==> ReadState(keys, old(Abs()), toks).Some?
      ensures ok ==> Valid() && Abs() == ReadState(keys, old(Abs()), toks).value
    {
      ghost var p := Abs();
      var e: Option<int>;
      ok, e := ReadEp(toks);
      if !ok {
        return;
      }
      if toks[1] != "-" {
        ReadCastling(toks[1]);
      }
      CommitState(p, toks, e);
    }

    /** The side, the en-passant cell and the recomputed position key, once the castling characters are in. */
    method CommitState(ghost p: Position, toks: seq<string>, e: Option<int>)
      requires Framed() && TablesReady() && KeysShape(keys) && Shaped(p) && |toks| >= 3
      requires toks[2] != "-" ==> |toks[2]| >= 2 && 0 <= EpCell(toks[2]) < BoardSize
      requires e == (if toks[2] == "-" then p.ep else Some(EpCell(toks[2])))
      requires tiles[..] == p.tiles && lists == p.lists && pawns == p.pawns && kings == p.kings && material == p.material
      requires bigPieces == p.bigPieces && majorPieces == p.majorPieces && minorPieces == p.minorPieces && fifty == p.fifty
      requires cp == (if toks[1] == "-" then p.cp else CastlingFrom(p.cp, toks[1]))
      modifies this`side, this`ep, this`hash
      ensures ReadState(keys, p, toks).Some? && Valid() && Abs() == ReadState(keys, p, toks).value
    {
      side := SideOf(toks[0]);
      ep := e;
      hash := GeneratePositionHashKey();
      StateIs(p, toks);
    }

    /**
     * The en-passant field: the square the token names unless it is "-".
     * `ok` is false where the engine would read past the token list, read
     * a character past a short token, or index a table with the cell.
     */
    method ReadEp(toks: seq<string>) returns (ok: bool, e: Option<int>)
      ensures ok <==> |toks| >= 3 && (toks[2] != "-" ==> |toks[2]| >= 2 && 0 <= EpCell(toks[2]) < BoardSize)
      ensures ok ==> e == (if toks[2] == "-" then ep else Some(EpCell(toks[2])))
    {
      e := ep;
      if |toks| < 3 {
        return false, e;
      }
      if toks[2] != "-" {
        if |toks[2]| < 2 {
          return false, e;
        }
        var cell := EpCell(toks[2]);
        if !(0 <= cell < BoardSize) {
          return false, e;
        }
        e := Some(cell);
      }
      ok := true;
    }

    /** After ReadStateM's assignments the object holds ReadState's position, and is valid. */
    lemma StateIs(p: Position, toks: seq<string>)
      requires Framed() && TablesReady() && KeysShape(keys) && Shaped(p) && |toks| >= 3
      requires toks[2] != "-" ==> |toks[2]| >= 2 && 0 <= EpCell(toks[2]) < BoardSize
      requires tiles[..] == p.tiles && lists == p.lists && pawns == p.pawns && kings == p.kings && material == p.material
      requires bigPieces == p.bigPieces && majorPieces == p.majorPieces && minorPieces == p.minorPieces && fifty == p.fifty
      requires side == SideOf(toks[0])
      requires cp == (if toks[1] == "-" then p.cp else CastlingFrom(p.cp, toks[1]))
      requires ep == (if toks[2] == "-" then p.ep else Some(EpCell(toks[2])))
      requires hash == PositionHash(keys, p.tiles, side, ep, cp)
      ensures ReadState(keys, p, toks).Some? && Valid() && Abs() == ReadState(keys, p, toks).value
    {
    }

    /** The castling loop: each K, Q, k, q OR-s its right into the permission; other characters are skipped. */
    method ReadCastling(s: string)
      requires IsCastleSet(cp)
      modifies this`cp
      ensures cp == CastlingFrom(old(cp), s)
    {
      for j := 0 to |s|
        invariant IsCastleSet(cp) && cp == CastlingFrom(old(cp), s[..j])
      {
        assert s[..j + 1][..j] == s[..j];
        cp := CastleOr(cp, CastleLetter(s[j]));
      }
      assert s[..|s|] == s;
    }

    /**
     * GeneratePositionHashKey, with its tile test as its comment intends (a
     * tile on the board holding a piece): the keys of the pieces, the side
     * key for White, the en-passant key and the castling key.
     */
    method GeneratePositionHashKey() returns (key: bv64)
      requires KeysShape(keys) && tiles.Length == BoardSize && (ep.Some? ==> 0 <= ep.value < BoardSize) && IsCastleSet(cp)
      ensures key == PositionHash(keys, tiles[..], side, ep, cp)
    {
      key := 0;
      for i := 0 to tiles.Length
        invariant key == TilesHash(keys, tiles[..], i)
      {
        if tiles[i].IsOnBoard() && !tiles[i].IsEmpty() {
          key := Xor(key, keys.pieceKeys[tiles[i].GetPieceAsInt()][i]);
        }
      }
      ghost var tilesKey := key;
      if side == White {
        key := Xor(key, keys.sideKey);
      }
      assert key == Xor(tilesKey, SideKey(keys, side));
      ghost var sideKey := key;
      if ep.Some? {
        key := Xor(key, keys.pieceKeys[0][ep.value]);
      }
      assert key == Xor(sideKey, EpKey(keys, ep));
      key := Xor(key, keys.castleKeys[cp]);
    }

    /** Whether UpdateListsMaterial finds room for every piece. */
    method TallyFits() returns (fits: bool)
      requires tiles.Length == BoardSize
      ensures fits <==> RoomFor(tiles[..])
    {
      fits := RoomFor(tiles[..]);
    }

    /**
     * GenerateAllMoves: the move list is emptied; for White or Black the
     * pawn moves are appended pawn by pawn, then the castling, sliding and
     * non-sliding moves, computed over the live slots of the piece lists.
     */
    method GenerateAllMoves()
      requires Valid() && ListsShape(lists)
      modifies this`moves
      ensures moves == AllMoves(tiles[..], lists, side, ep, cp)
    {
      moves := [];
      if side == White || side == Black {
        SideMoves();
        assert [] + AllMoves(tiles[..], lists, side, ep, cp) == AllMoves(tiles[..], lists, side, ep, cp);
      } else {
        AllMovesParts(tiles[..], lists, side, ep, cp);
      }
    }

    /** GenerateAllMoves for White or Black: the pawn moves pawn by pawn, then the castling, sliding and non-sliding moves. */
    method SideMoves()
      requires Framed() && SaneTiles(tiles[..]) && ListsShape(lists) && IsCastleSet(cp) && (side == White || side == Black)
      modifies this`moves
      ensures moves == old(moves) + AllMoves(tiles[..], lists, side, ep, cp)
    {
      ghost var ts := tiles[..];
      ghost var m0 := moves;
      GeneratePawnMoves(side == White);
      ghost var m1 := moves;
      PieceMoves();
      assert tiles[..] == ts;
      AllMovesAppended(ts, lists, side, ep, cp, m0, m1, moves);
    }

    /** GenerateAllMoves after the pawns: the castling moves of the side, then GenerateSlideMoves and GenerateNonSlideMoves. */
    method PieceMoves()
      requires Framed() && SaneTiles(tiles[..]) && ListsShape(lists) && IsCastleSet(cp) && (side == White || side == Black)
      modifies this`moves
      ensures (SlidingDirectionsOk(side);
        moves == old(moves) + (if side == White then WhiteCastling(tiles[..], cp) else BlackCastling(tiles[..], cp))
          + SlideMoves(tiles[..], lists, side, GetSlidingPiecesByColor(side))
          + NonSlideMoves(tiles[..], lists, side, GetNonSlidingPiecesByColor(side)))
    {
      var ls := LiveLists();
      if side == White {
        moves := moves + WhiteCastling(tiles[..], cp);
      } else {
        moves := moves + BlackCastling(tiles[..], cp);
      }
      SlidingDirectionsOk(side);
      moves := moves + SlideMoves(tiles[..], ls, side, GetSlidingPiecesByColor(side));
      moves := moves + NonSlideMoves(tiles[..], ls, side, GetNonSlidingPiecesByColor(side));
    }

    /** GenerateWhitePawnMoves / GenerateBlackPawnMoves: the loop over the live slots of the pawn row. */
    method GeneratePawnMoves(white: bool)
      requires Framed() && ListsShape(lists)
      modifies this`moves
      ensures moves == old(moves) + AllPawnMoves(tiles[..], ep, lists[GetCode(if white then WhitePawn else BlackPawn)], white)
    {
      var code := GetCode(if white then WhitePawn else BlackPawn);
      var count := pieceCount[code];
      ghost var ts := tiles[..];
      ghost var froms := lists[code];
      assert AllListed(froms) && |froms| == count;
      for i := 0 to count
        invariant moves == old(moves) + AllPawnMoves(ts, ep, froms[..i], white)
      {
        var from := pieceList[code, i];
        assert from == froms[i];
        ghost var mid := moves;
        PawnMovesFromM(from, white);
        AllPawnMovesStep(ts, ep, froms, i, white);
        AppendTwo(old(moves), AllPawnMoves(ts, ep, froms[..i], white), PawnMovesFrom(ts, ep, from, white), mid, moves);
      }
      assert froms[..count] == froms;
    }

    /** One pawn: nothing while the square ahead is occupied, otherwise the moves PawnAheadM appends. */
    method PawnMovesFromM(from: TileCoord, white: bool)
      requires tiles.Length == BoardSize && IsListedCoord(from)
      modifies this`moves
      ensures moves == old(moves) + PawnMovesFrom(tiles[..], ep, from, white)
    {
      PawnMovesFromAhead(tiles[..], ep, from, white);
      if tiles[from.ToInt() + Forward(white)].IsEmpty() {
        PawnAheadM(from, white);
      }
    }

    /** The square ahead is empty: the pushes, then the captures. */
    method PawnAheadM(from: TileCoord, white: bool)
      requires tiles.Length == BoardSize && IsListedCoord(from) && tiles[from.ToInt() + Forward(white)].IsEmpty()
      modifies this`moves
      ensures moves == old(moves) + PawnMovesFrom(tiles[..], ep, from, white)
    {
      ghost var ts := tiles[..];
      PawnMovesFromAhead(ts, ep, from, white);
      ghost var m0 := moves;
      PawnPushesM(from, white);
      ghost var m1 := moves;
      PawnCapturesM(from, white);
      assert tiles[..] == ts;
      AppendPushesCaptures(ts, ep, from, white, m0, m1, moves);
    }

    /** The push (a promotion fan-out from the promotion rank), then the double push from the start rank. */
    method PawnPushesM(from: TileCoord, white: bool)
      requires tiles.Length == BoardSize && IsListedCoord(from)
      modifies this`moves
      ensures moves == old(moves) + PawnMoves(from, tiles[from.ToInt() + Forward(white)].GetPosition(), None, white)
        + DoublePush(tiles[..], from, white)
    {
      AddPawnMove(from, tiles[from.ToInt() + Forward(white)].GetPosition(), None, white);
      DoublePushM(from, white);
    }

    /** The two diagonal captures, the 9-offset first, then the en-passant captures. */
    method PawnCapturesM(from: TileCoord, white: bool)
      requires tiles.Length == BoardSize && IsListedCoord(from)
      modifies this`moves
      ensures moves == old(moves) + PawnCapture(tiles[..], from, from.ToInt() + Diagonal(white, 9), white)
        + PawnCapture(tiles[..], from, from.ToInt() + Diagonal(white, 11), white)
        + EnPassantCaptures(tiles[..], ep, from, white)
    {
      PawnCaptureM(from, from.ToInt() + Diagonal(white, 9), white);
      PawnCaptureM(from, from.ToInt() + Diagonal(white, 11), white);
      EnPassantCapturesM(from, white);
    }

    /** The live slots of the thirteen rows of PieceList. */
    method LiveLists() returns (ls: seq<seq<TileCoord>>)
      requires Framed()
      ensures ls == lists
    {
      ls := [];
      for c := 0 to PieceCodes
        invariant ls == lists[..c]
      {
        var row := LiveRow(c);
        assert lists[..c + 1] == lists[..c] + [row];
        ls := ls + [row];
      }
    }

    /** Slots 0 .. PieceCount[c]-1 of row c. */
    method LiveRow(c: int) returns (row: seq<TileCoord>)
      requires Framed() && 0 <= c < PieceCodes
      ensures row == lists[c]
    {
      row := [];
      for j := 0 to pieceCount[c]
        invariant row == lists[c][..j]
      {
        assert lists[c][..j + 1] == lists[c][..j] + [lists[c][j]];
        row := row + [pieceList[c, j]];
      }
    }

    // ---------------------------------------------------------------- UpdateListsMaterial

    /**
     * UpdateListsMaterial: every on-board tile holding a piece, in cell
     * order, bumps its colour's counters and material, joins its piece's
     * list and, for a king, the king cache. Every list must keep room for
     * the next piece (the source writes past a full row of PieceList).
     */
    method UpdateListsMaterial()
      requires Valid() && TallyTiles(Abs(), tiles[..], BoardSize).Some?
      modifies this`pieceCount, this`lists, this`kings, this`material, this`bigPieces, this`majorPieces, this`minorPieces, pieceList
      ensures Valid()
      ensures Abs() == TallyTiles(old(Abs()), tiles[..], BoardSize).value
    {
      for i := 0 to BoardSize
        invariant Valid()
        invariant TallyTiles(old(Abs()), tiles[..], i) == Some(Abs())
      {
        TallyPrefix(old(Abs()), tiles[..], i, BoardSize);
        TallyTileM(i);
      }
    }

    /** UpdateListsMaterial's loop body on cell i. */
    method TallyTileM(i: int)
      requires Valid() && 0 <= i < BoardSize && TallyTile(Abs(), tiles[..], i).Some?
      modifies this`pieceCount, this`lists, this`kings, this`material, this`bigPieces, this`majorPieces, this`minorPieces, pieceList
      ensures Valid()
      ensures Abs() == TallyTile(old(Abs()), tiles[..], i).value
    {
      ghost var p := Abs();
      var t := tiles[i];
      if t.IsOnBoard() && !t.IsEmpty() {
        TallyOccupied(i, t);
        TalliedIs(p, i);
      } else {
        EmptyTallied(p, i);
      }
    }

    /** The statements of UpdateListsMaterial's loop body on an occupied on-board cell, each field stated in the old values. */
    method TallyOccupied(i: int, t: ChessBoardTile)
      requires Framed() && |kings| == 2 && |material| == 3 && |bigPieces| == 3 && |majorPieces| == 3 && |minorPieces| == 3
      requires 0 <= i < BoardSize && t == tiles[i] && t.GetPosition().ToInt() == i && t.GetPiece() != NoPiece
      requires pieceCount[GetCode(t.GetPiece())] < Capacity
      modifies this`pieceCount, this`lists, this`kings, this`material, this`bigPieces, this`majorPieces, this`minorPieces, pieceList
      ensures Framed()
      ensures var piece := t.GetPiece(); var cc := GetColorCode(piece);
        && bigPieces == (if IsBigPiece(piece) then old(bigPieces)[cc := old(bigPieces)[cc] + 1] else old(bigPieces))
        && majorPieces == (if IsMajorPiece(piece) then old(majorPieces)[cc := old(majorPieces)[cc] + 1] else old(majorPieces))
        && minorPieces == (if IsMinorPiece(piece) then old(minorPieces)[cc := old(minorPieces)[cc] + 1] else old(minorPieces))
        && material == old(material)[cc := old(material)[cc] + GetCost(piece)]
        && lists == old(lists)[GetCode(piece) := old(lists)[GetCode(piece)] + [t.GetPosition()]]
        && kings == (if piece == WhiteKing || piece == BlackKing then old(kings)[cc := t.GetPosition()] else old(kings))
    {
      var piece := t.GetPiece();
      var cc := GetColorCode(piece);
      TallyCounters(piece, cc);
      var code := GetCode(piece);
      var idx := t.GetPosition().ToInt();
      AppendSlot(code, t.GetPosition());
      if piece == WhiteKing || piece == BlackKing {
        kings := kings[cc := tiles[idx].GetPosition()];
      }
    }

    /** UpdateListsMaterial's counter block: big, major and minor counts by the piece's flags, and its cost added to material. */
    method TallyCounters(piece: TileState, cc: int)
      requires |material| == 3 && |bigPieces| == 3 && |majorPieces| == 3 && |minorPieces| == 3 && 0 <= cc < 2
      modifies this`material, this`bigPieces, this`majorPieces, this`minorPieces
      ensures bigPieces == if IsBigPiece(piece) then old(bigPieces)[cc := old(bigPieces)[cc] + 1] else old(bigPieces)
      ensures majorPieces == if IsMajorPiece(piece) then old(majorPieces)[cc := old(majorPieces)[cc] + 1] else old(majorPieces)
      ensures minorPieces == if IsMinorPiece(piece) then old(minorPieces)[cc := old(minorPieces)[cc] + 1] else old(minorPieces)
      ensures material == old(material)[cc := old(material)[cc] + GetCost(piece)]
    {
      if IsBigPiece(piece) {
        bigPieces := bigPieces[cc := bigPieces[cc] + 1];
      }
      if IsMajorPiece(piece) {
        majorPieces := majorPieces[cc := majorPieces[cc] + 1];
      }
      if IsMinorPiece(piece) {
        minorPieces := minorPieces[cc := minorPieces[cc] + 1];
      }
      material := material[cc := material[cc] + GetCost(piece)];
    }

    /** An empty or off-board cell leaves the tally where it is. */
    lemma EmptyTallied(p: Position, i: int)
      requires Shaped(p) && 0 <= i < BoardSize && !(p.tiles[i].IsOnBoard() && !p.tiles[i].IsEmpty())
      ensures TallyTile(p, p.tiles, i) == Some(p)
    {
    }

    /** The fields TallyTileM's statements leave on an occupied on-board cell are those of TallyTile. */
    lemma TalliedIs(p: Position, i: int)
      requires Framed() && TablesReady() && KeysShape(keys) && Shaped(p) && 0 <= i < BoardSize
      requires TallyTile(p, p.tiles, i).Some? && p.tiles[i].IsOnBoard() && !p.tiles[i].IsEmpty()
      requires tiles[..] == p.tiles && pawns == p.pawns && side == p.side && ep == p.ep
      requires fifty == p.fifty && cp == p.cp && hash == p.hash
      requires var piece := p.tiles[i].GetPiece(); var cc := GetColorCode(piece);
        && bigPieces == (if IsBigPiece(piece) then p.bigPieces[cc := p.bigPieces[cc] + 1] else p.bigPieces)
        && majorPieces == (if IsMajorPiece(piece) then p.majorPieces[cc := p.majorPieces[cc] + 1] else p.majorPieces)
        && minorPieces == (if IsMinorPiece(piece) then p.minorPieces[cc := p.minorPieces[cc] + 1] else p.minorPieces)
        && material == p.material[cc := p.material[cc] + GetCost(piece)]
        && lists == p.lists[GetCode(piece) := p.lists[GetCode(piece)] + [p.tiles[i].GetPosition()]]
        && kings == (if piece == WhiteKing || piece == BlackKing then p.kings[cc := p.tiles[i].GetPosition()] else p.kings)
      ensures Abs() == TallyTile(p, p.tiles, i).value && Valid()
    {
      TalliedAbs(p, i);
      assert Shaped(TallyTile(p, p.tiles, i).value);
    }

    /** The fields UpdateListsMaterial's statements leave for cell i are those of TallyTile. */
    lemma TalliedAbs(p: Position, i: int)
      requires Shaped(p) && 0 <= i < BoardSize
      requires TallyTile(p, p.tiles, i).Some? && p.tiles[i].IsOnBoard() && !p.tiles[i].IsEmpty()
      requires tiles[..] == p.tiles && pawns == p.pawns && side == p.side && ep == p.ep
      requires fifty == p.fifty && cp == p.cp && hash == p.hash
      requires var piece := p.tiles[i].GetPiece(); var cc := GetColorCode(piece);
        && bigPieces == (if IsBigPiece(piece) then p.bigPieces[cc := p.bigPieces[cc] + 1] else p.bigPieces)
        && majorPieces == (if IsMajorPiece(piece) then p.majorPieces[cc := p.majorPieces[cc] + 1] else p.majorPieces)
        && minorPieces == (if IsMinorPiece(piece) then p.minorPieces[cc := p.minorPieces[cc] + 1] else p.minorPieces)
        && material == p.material[cc := p.material[cc] + GetCost(piece)]
        && lists == p.lists[GetCode(piece) := p.lists[GetCode(piece)] + [p.tiles[i].GetPosition()]]
        && kings == (if piece == WhiteKing || piece == BlackKing then p.kings[cc := p.tiles[i].GetPosition()] else p.kings)
      ensures Abs() == TallyTile(p, p.tiles, i).value
    {
      var r := TallyTile(p, p.tiles, i).value;
      assert r == p.(bigPieces := bigPieces, majorPieces := majorPieces, minorPieces := minorPieces,
                     material := material, lists := lists, kings := kings);
    }

    // ---------------------------------------------------------------- IsTileAttacked

    /**
     * IsTileAttacked: a pawn of the moving side diagonally behind the square,
     * then a knight, a rook or queen first met along a file or rank, a bishop
     * or queen first met along a diagonal, and a king, each of the moving side.
     */
    method IsTileAttacked(file: Byte, rank: Byte, movingSide: PieceColor) returns (attacked: bool)
      requires Valid() && IsReal(file) && IsReal(rank)
      ensures attacked == Attacked(tiles[..], GetTileIndexAt(file, rank), movingSide)
    {
      var idx := GetTileIndexAt(file, rank);
      SaneIsIndexed(tiles[..]);
      if movingSide == White {
        if tiles[idx - 11].GetPiece() == WhitePawn || tiles[idx - 9].GetPiece() == WhitePawn {
          return true;
        }
      } else {
        if tiles[idx + 11].GetPiece() == BlackPawn || tiles[idx + 9].GetPiece() == BlackPawn {
          return true;
        }
      }
      attacked := StepScan(idx, movingSide, KnightDirections, {Knight});
      if attacked {
        return;
      }
      attacked := RayScan(idx, movingSide, RookDirections, {Rook, Queen});
      if attacked {
        return;
      }
      attacked := RayScan(idx, movingSide, BishopDirections, {Bishop, Queen});
      if attacked {
        return;
      }
      attacked := StepScan(idx, movingSide, KingDirections, {King});
    }

    /** A knight or king loop: some offset of dirs lands on a piece of the roles and the side. */
    method StepScan(idx: int, side: PieceColor, dirs: seq<int>, roles: set<PieceRole>) returns (hit: bool)
      requires tiles.Length == BoardSize && IsPlayable(idx)
      requires forall k :: 0 <= k < |dirs| ==> -21 <= dirs[k] <= 21
      ensures hit == StepAttacks(tiles[..], idx, side, dirs, roles)
    {
      for k := 0 to |dirs|
        invariant forall j :: 0 <= j < k ==> !IsAttacker(PieceAt(tiles[..], idx + dirs[j]), roles, side)
      {
        var piece := tiles[idx + dirs[k]].GetPiece();
        if IsAttacker(piece, roles, side) {
          return true;
        }
      }
      return false;
    }

    /** A rook or bishop loop: along some ray of dirs the first piece met is one of the roles and the side. */
    method RayScan(idx: int, side: PieceColor, dirs: seq<int>, roles: set<PieceRole>) returns (hit: bool)
      requires tiles.Length == BoardSize && SaneTiles(tiles[..]) && IsPlayable(idx)
      requires forall d :: d in dirs ==> d in KingDirections
      ensures hit == RayAttacks(tiles[..], idx, side, dirs, roles)
    {
      SaneIsIndexed(tiles[..]);
      for k := 0 to |dirs|
        invariant forall j :: 0 <= j < k ==> !RayHits(tiles[..], idx, dirs[j], roles, side)
      {
        assert dirs[k] in dirs;
        var first := WalkRay(idx + dirs[k], dirs[k]);
        if first.Some? && IsAttacker(first.value, roles, side) {
          return true;
        }
      }
      return false;
    }

    /** The inner while loop: walk from start in steps of d while the tile is on the board, stopping at the first piece. */
    method WalkRay(start: int, d: int) returns (r: Option<TileState>)
      requires tiles.Length == BoardSize && CellsIndexed(tiles[..]) && 0 <= start < BoardSize && d in KingDirections
      ensures r == RayFirst(tiles[..], start, d)
    {
      var pos := start;
      while tiles[pos].IsOnBoard()
        invariant 0 <= pos < BoardSize && RayFirst(tiles[..], pos, d) == RayFirst(tiles[..], start, d)
        decreases if d > 0 then BoardSize - pos else pos
      {
        if !tiles[pos].IsEmpty() {
          return Some(tiles[pos].GetPiece());
        }
        pos := pos + d;
      }
      return None;
    }

    // ---------------------------------------------------------------- move generation

    /** AddQuietMove, AddCaptureMove and AddEnPassantMove, which do the same: the move joins the end of the move list. */
    method AddMove(m: ChessMove)
      modifies this`moves
      ensures moves == old(moves) + [m]
    {
      moves := moves + [m];
    }

    /**
     * Add{White,Black}PawnMove and Add{White,Black}PawnCaptureMove: from the
     * promotion rank the move fans out into four, promoting to queen, rook,
     * bishop and knight in that order; from any other rank it is one move.
     */
    method AddPawnMove(from: TileCoord, to: TileCoord, captured: Option<TileState>, white: bool)
      modifies this`moves
      ensures moves == old(moves) + PawnMoves(from, to, captured, white)
    {
      if from.rank == PromotionRank(white) {
        var ps := PromotionPieces(white);
        AddMove(NewMove(from, to, captured, Some(ps[0]), 0));
        AddMove(NewMove(from, to, captured, Some(ps[1]), 0));
        AddMove(NewMove(from, to, captured, Some(ps[2]), 0));
        AddMove(NewMove(from, to, captured, Some(ps[3]), 0));
      } else {
        AddMove(NewMove(from, to, captured, None, 0));
      }
    }

    /** The two en-passant captures, the 9-offset first, when an en-passant tile is set. */
    method EnPassantCapturesM(from: TileCoord, white: bool)
      requires tiles.Length == BoardSize && IsListedCoord(from)
      modifies this`moves
      ensures moves == old(moves) + EnPassantCaptures(tiles[..], ep, from, white)
    {
      var fi := from.ToInt();
      ghost var m0 := moves;
      ghost var a := EnPassantCapture(tiles[..], ep, from, fi + Diagonal(white, 9));
      ghost var b := EnPassantCapture(tiles[..], ep, from, fi + Diagonal(white, 11));
      if ep.Some? {
        EnPassantM(from, fi + Diagonal(white, 9));
        EnPassantM(from, fi + Diagonal(white, 11));
        assert moves == m0 + a + b;
      } else {
        assert a == [] && b == [];
      }
      assert m0 + a + b == m0 + (a + b);
    }

    /** The double push: from the start rank, over two empty squares, flagged as a pawn start. */
    method DoublePushM(from: TileCoord, white: bool)
      requires tiles.Length == BoardSize && IsListedCoord(from)
      modifies this`moves
      ensures moves == old(moves) + DoublePush(tiles[..], from, white)
    {
      var fi := from.ToInt();
      var f := Forward(white);
      if from.rank == StartRank(white) && tiles[fi + 2 * f].IsEmpty() {
        AddMove(NewMove(from, tiles[fi + 2 * f].GetPosition(), None, None, FlagPawnStart));
      }
    }

    /** A diagonal capture onto cell i: a piece of the other colour there is captured. */
    method PawnCaptureM(from: TileCoord, i: int, white: bool)
      requires tiles.Length == BoardSize && 0 <= i < BoardSize
      modifies this`moves
      ensures moves == old(moves) + PawnCapture(tiles[..], from, i, white)
    {
      var tile := tiles[i];
      if !tile.IsEmpty() && GetColor(tile.GetPiece()) == Enemy(white) {
        AddPawnMove(from, tile.GetPosition(), Some(tile.GetPiece()), white);
      }
    }

    /** An en-passant capture onto cell i, when i is the en-passant tile. */
    method EnPassantM(from: TileCoord, i: int)
      requires tiles.Length == BoardSize && 0 <= i < BoardSize && ep.Some?
      modifies this`moves
      ensures moves == old(moves) + EnPassantCapture(tiles[..], ep, from, i)
    {
      if i == ep.value {
        AddMove(NewMove(from, tiles[i].GetPosition(), None, None, FlagEnPassant));
      }
    }

    // ---------------------------------------------------------------- list slot updates

    /** ClearPiece's last two lines, with the hole filled from the last live slot: the count drops and the list loses slot t. */
    method DropSlot(c: int, t: int)
      requires Framed() && 0 <= c < PieceCodes && 0 <= t < pieceCount[c]
      modifies this`pieceCount, this`lists, pieceList
      ensures Framed()
      ensures lists == old(lists)[c := RemoveAt(old(lists[c]), t)]
    {
      var count := pieceCount[c];
      pieceCount := pieceCount[c := count - 1];
      pieceList[c, t] := pieceList[c, count - 1];
      lists := lists[c := RemoveAt(lists[c], t)];
    }

    /** AddPiece's last two lines: the coordinate fills slot PieceCount[c], which must exist, and the count grows. */
    method AppendSlot(c: int, x: TileCoord)
      requires Framed() && 0 <= c < PieceCodes && pieceCount[c] < Capacity
      modifies this`pieceCount, this`lists, pieceList
      ensures Framed()
      ensures lists == old(lists)[c := old(lists[c]) + [x]]
    {
      var count := pieceCount[c];
      pieceList[c, count] := x;
      pieceCount := pieceCount[c := count + 1];
      lists := lists[c := lists[c] + [x]];
    }

    /** MovePiece's list write: live slot t of list c becomes x. */
    method SetSlot(c: int, t: int, x: TileCoord)
      requires Framed() && 0 <= c < PieceCodes && 0 <= t < pieceCount[c]
      modifies pieceList, this`lists
      ensures Framed()
      ensures lists == old(lists)[c := old(lists[c])[t := x]]
    {
      pieceList[c, t] := x;
      lists := lists[c := lists[c][t := x]];
    }

    // ---------------------------------------------------------------- counter and bitboard updates

    /**
     * ClearPiece's counter block: the piece's cost leaves its colour's
     * material; a big piece lowers its colour's big count and, as its flags
     * say, the major and minor counts; a pawn's bit is cleared on its
     * colour's bitboard and then on the combined one.
     */
    method DropCounters(piece: TileState, cc: int, i: int)
      requires TablesReady() && |pawns| == 3 && |material| == 3 && |bigPieces| == 3 && |majorPieces| == 3 && |minorPieces| == 3
      requires 0 <= cc < 2 && 0 <= i < BoardSize && (IsBigPiece(piece) || IsPlayable(i))
      modifies this`pawns, this`material, this`bigPieces, this`majorPieces, this`minorPieces
      ensures CountsDropped(piece, cc, i, old(material), old(bigPieces), old(majorPieces), old(minorPieces), old(pawns),
                            material, bigPieces, majorPieces, minorPieces, pawns)
    {
      material := material[cc := material[cc] - GetCost(piece)];
      if IsBigPiece(piece) {
        bigPieces := bigPieces[cc := bigPieces[cc] - 1];
        if IsMajorPiece(piece) {
          majorPieces := majorPieces[cc := majorPieces[cc] - 1];
        }
        if IsMinorPiece(piece) {
          minorPieces := minorPieces[cc := minorPieces[cc] - 1];
        }
      } else {
        DropPawnBit(cc, i);
      }
    }

    /** ClearPiece's bitboard block: a pawn's bit is cleared on its colour's bitboard and then on the combined one. */
    method DropPawnBit(cc: int, i: int)
      requires TablesReady() && |pawns| == 3 && 0 <= cc < 2 && 0 <= i < BoardSize && IsPlayable(i)
      modifies this`pawns
      ensures pawns == ClearBits(old(pawns), cc, Sq64(i))
    {
      var sq := GetTileAs64(i);
      pawns := pawns[cc := ClearBit(pawns[cc], sq)];
      pawns := pawns[2 := ClearBit(pawns[2], sq)];
    }

    /** AddPiece's bitboard block: a pawn's bit is set on its colour's bitboard and then on the combined one. */
    method AddPawnBit(piece: TileState, cc: int, i: int)
      requires TablesReady() && |pawns| == 3 && 0 <= cc < 2 && 0 <= i < BoardSize && (IsBigPiece(piece) || IsPlayable(i))
      modifies this`pawns
      ensures pawns == if IsBigPiece(piece) then old(pawns) else SetBits(old(pawns), cc, Sq64(i))
    {
      if !IsBigPiece(piece) {
        var sq := GetTileAs64(i);
        pawns := pawns[cc := SetBit(pawns[cc], sq)];
        pawns := pawns[2 := SetBit(pawns[2], sq)];
      }
    }

    /** MovePiece's bitboard block: a pawn's bit is cleared at From and set at To, each on its colour's and the combined bitboard. */
    method MovePawnBit(piece: TileState, cc: int, fi: int, ti: int)
      requires TablesReady() && |pawns| == 3 && 0 <= cc < 2 && 0 <= fi < BoardSize && 0 <= ti < BoardSize
      requires IsBigPiece(piece) || (IsPlayable(fi) && IsPlayable(ti))
      modifies this`pawns
      ensures pawns == if IsBigPiece(piece) then old(pawns) else SetBits(ClearBits(old(pawns), cc, Sq64(fi)), cc, Sq64(ti))
    {
      if !IsBigPiece(piece) {
        var from := GetTileAs64(fi);
        var to := GetTileAs64(ti);
        pawns := pawns[cc := ClearBit(pawns[cc], from)];
        pawns := pawns[2 := ClearBit(pawns[2], from)];
        pawns := pawns[cc := SetBit(pawns[cc], to)];
        pawns := pawns[2 := SetBit(pawns[2], to)];
      }
    }
  }
}