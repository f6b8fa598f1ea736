/*
 * FChessMove: a move packed into one int32.
 *
 *   bits  0..6   from tile index (10x12 board)
 *   bits  7..13  to tile index
 *   bits 14..17  captured piece code
 *   bit  18      en-passant flag      (0x40000)
 *   bit  19      pawn-start flag      (0x80000)
 *   bits 20..23  promoted piece code
 *   bit  24      castling flag        (0x1000000)
 *
 * Every field the constructor writes lies below bit 31, so the int32 is
 * never negative and is modelled as a bv32.
 */
module ChessMove {
  import opened Wrappers
  import opened TileCoordinate
  import opened ChessDefinitions
  import opened Bits

  const FlagCastling: bv32 := 0x100_0000
  const FlagEnPassant: bv32 := 0x4_0000
  const FlagPawnStart: bv32 := 0x8_0000

  /** Flags is a combination of the three move flags and nothing else. */
  predicate IsFlagSet(flags: bv32) {
    flags & !(FlagCastling | FlagEnPassant | FlagPawnStart) == 0
  }

  datatype ChessMove = ChessMove(move: bv32) {

    /** GetFromTileIndex: Move & 0x7F. */
    function GetFromTileIndex(): (i: int)
      ensures 0 <= i < 128
    {
      ((move & 0x7F) as bv8) as int
    }

    /** GetFrom: the coordinate decoded from the from index. */
    function GetFrom(): (t: TileCoord)
      ensures t.coordinate == GetFromTileIndex()
    {
      FromCombined(GetFromTileIndex())
    }

    /** GetToTileIndex: (Move >> 7) & 0x7F. */
    function GetToTileIndex(): (i: int)
      ensures 0 <= i < 128
    {
      (((move >> 7) & 0x7F) as bv8) as int
    }

    /** GetTo: the coordinate decoded from the to index. */
    function GetTo(): (t: TileCoord)
      ensures t.coordinate == GetToTileIndex()
    {
      FromCombined(GetToTileIndex())
    }

    /** GetCapturedPiece: (Move >> 14) & 0xF. */
    function GetCapturedPiece(): (c: int)
      ensures 0 <= c < 16
    {
      (((move >> 14) & 0xF) as bv8) as int
    }

    /** GetPromotedPiece: (Move >> 20) & 0xF. */
    function GetPromotedPiece(): (c: int)
      ensures 0 <= c < 16
    {
      (((move >> 20) & 0xF) as bv8) as int
    }

    predicate IsEnPassantMove() { move & FlagEnPassant != 0 }
    predicate IsPawnStartMove() { move & FlagPawnStart != 0 }
    predicate IsCastlingMove() { move & FlagCastling != 0 }

    /** Raw: the packed int32. */
    function Raw(): int { move as int }
  }

  /** The defaulted constructor: Move = 0. */
  function DefaultMove(): (m: ChessMove)
    ensures m.GetFromTileIndex() == 0 && m.GetToTileIndex() == 0
    ensures m.GetCapturedPiece() == 0 && m.GetPromotedPiece() == 0
    ensures !m.IsEnPassantMove() && !m.IsPawnStartMove() && !m.IsCastlingMove()
  {
    ChessMove(0)
  }

  /** The code of an optional piece pointer: a null pointer encodes as 0. */
  function CodeOf(p: Option<TileState>): (c: int)
    ensures 0 <= c < PieceCodes
    ensures p.None? ==> c == 0
    ensures p.Some? ==> c == GetCode(p.value)
  {
    match p
    case None => 0
    case Some(q) => GetCode(q)
  }

  /** The piece pointer a decoded code stands for: 0 is a null pointer. */
  function PieceOfCode(c: int): Option<TileState> {
    if c == 0 then None else Some(GetPieceFromCode(c))
  }

  /** FChessMove(From, To, Captured, Promoted, Flags): the five parts OR-ed together. */
  function NewMove(from: TileCoord, to: TileCoord, captured: Option<TileState>, promoted: Option<TileState>, flags: bv32): ChessMove {
    Pack(AsField(from.ToInt()), AsField(to.ToInt()), AsField(CodeOf(captured)), AsField(CodeOf(promoted)), flags)
  }

  /**
   * The round trip of the packing constructor: when both indices fit in
   * seven bits and Flags holds only move flags, every accessor returns
   * exactly what was packed.
   */
  lemma NewMoveRoundTrip(from: TileCoord, to: TileCoord, captured: Option<TileState>, promoted: Option<TileState>, flags: bv32)
    requires from.ToInt() < 128 && to.ToInt() < 128 && IsFlagSet(flags)
    ensures var m := NewMove(from, to, captured, promoted, flags);
      && m.GetFromTileIndex() == from.ToInt()
      && m.GetToTileIndex() == to.ToInt()
      && m.GetCapturedPiece() == CodeOf(captured)
      && m.GetPromotedPiece() == CodeOf(promoted)
      && (m.IsEnPassantMove() <==> flags & FlagEnPassant != 0)
      && (m.IsPawnStartMove() <==> flags & FlagPawnStart != 0)
      && (m.IsCastlingMove() <==> flags & FlagCastling != 0)
  {
    ByteBits(from.ToInt());
    ByteBits(to.ToInt());
    ByteBits(CodeOf(captured));
    ByteBits(CodeOf(promoted));
    PackRoundTrip(AsField(from.ToInt()), AsField(to.ToInt()), AsField(CodeOf(captured)), AsField(CodeOf(promoted)), flags);
  }

  /** An int32 holding a byte value, as a bit-vector: the byte's word, widened. */
  function AsField(x: int): bv32
    requires 0 <= x < 256
  {
    ByteWord(x) as bv32
  }

  /** The eight-bit word of a byte value: x's binary digits, the lowest last. */
  function ByteWord(x: int): bv8
    requires 0 <= x < 256
    decreases x
  {
    if x == 0 then 0 else (ByteWord(x / 2) << 1) | (if x % 2 == 1 then 1 else 0)
  }

  /** AsField is the word whose value is x. */
  lemma ByteBits(x: int)
    requires 0 <= x < 256
    ensures AsField(x) as int == x
    ensures AsField(x) < 128 <==> x < 128
    ensures AsField(x) < 16 <==> x < 16
  {
    WordValue(x);
    WidenValue(ByteWord(x));
    CompareAsInt(AsField(x));
  }

  lemma {:induction false} WordValue(x: int)
    requires 0 <= x < 256
    ensures ByteWord(x) as int == x
    decreases x
  {
    if x > 0 {
      WordValue(x / 2);
      DoubleAsInt(ByteWord(x / 2), x / 2, if x % 2 == 1 then 1 else 0);
    }
  }

  lemma BitsOfField(b: bv32)
    requires b < 256
    ensures AsField(b as int) == b
  {
    FieldAsInt(b);
    var x: nat := b as int;
    ByteBits(x);
    Bv32Injective(AsField(x), b);
  }

  /** The packing expression on bit-vectors. */
  function Pack(f: bv32, t: bv32, c: bv32, p: bv32, flags: bv32): ChessMove {
    ChessMove(f | (t << 7) | (c << 14) | (p << 20) | flags)
  }

  /** Unpacking a packed move gives back each part. */
  lemma PackRoundTrip(f: bv32, t: bv32, c: bv32, p: bv32, flags: bv32)
    requires f < 128 && t < 128 && c < 16 && p < 16 && IsFlagSet(flags)
    ensures var m := Pack(f, t, c, p, flags);
      && m.GetFromTileIndex() == f as int
      && m.GetToTileIndex() == t as int
      && m.GetCapturedPiece() == c as int
      && m.GetPromotedPiece() == p as int
      && (m.IsEnPassantMove() <==> flags & FlagEnPassant != 0)
      && (m.IsPawnStartMove() <==> flags & FlagPawnStart != 0)
      && (m.IsCastlingMove() <==> flags & FlagCastling != 0)
  {
    FieldsRoundTrip(f, t, c, p, flags);
  }

  /** The bit-level round trip behind PackRoundTrip. */
  lemma FieldsRoundTrip(f: bv32, t: bv32, c: bv32, p: bv32, flags: bv32)
    requires f < 128 && t < 128 && c < 16 && p < 16 && IsFlagSet(flags)
    ensures var m := f | (t << 7) | (c << 14) | (p << 20) | flags;
      && m & 0x7F == f
      && (m >> 7) & 0x7F == t
      && (m >> 14) & 0xF == c
      && (m >> 20) & 0xF == p
      && m & FlagEnPassant == flags & FlagEnPassant
      && m & FlagPawnStart == flags & FlagPawnStart
      && m & FlagCastling == flags & FlagCastling
  {
  }

  /** The move's flag bits. */
  function FlagsOf(m: ChessMove): (flags: bv32)
    ensures IsFlagSet(flags)
  {
    m.move & (FlagCastling | FlagEnPassant | FlagPawnStart)
  }

  /** A packed move with no stray bits and real piece codes in both piece fields. */
  predicate IsWellFormed(m: ChessMove) {
    && m.move & !(0x7F | (0x7F << 7) | (0xF << 14) | (0xF << 20) | FlagCastling | FlagEnPassant | FlagPawnStart) == 0
    && m.GetCapturedPiece() < PieceCodes
    && m.GetPromotedPiece() < PieceCodes
  }

  /** The other direction of the round trip: re-packing a well-formed move's decoded parts gives the move back. */
  lemma DecodeEncode(m: ChessMove)
    requires IsWellFormed(m)
    ensures NewMove(m.GetFrom(), m.GetTo(), PieceOfCode(m.GetCapturedPiece()), PieceOfCode(m.GetPromotedPiece()), FlagsOf(m)) == m
  {
    var c := m.GetCapturedPiece();
    var p := m.GetPromotedPiece();
    assert CodeOf(PieceOfCode(c)) == c;
    assert CodeOf(PieceOfCode(p)) == p;
    BitsOfField(m.move & 0x7F);
    BitsOfField((m.move >> 7) & 0x7F);
    BitsOfField((m.move >> 14) & 0xF);
    BitsOfField((m.move >> 20) & 0xF);
    Reassemble(m.move);
  }

  /** A word with bits only in the fields and flags is the OR of its fields and flags. */
  lemma Reassemble(w: bv32)
    requires w & !(0x7F | (0x7F << 7) | (0xF << 14) | (0xF << 20) | FlagCastling | FlagEnPassant | FlagPawnStart) == 0
    ensures w == (w & 0x7F) | (((w >> 7) & 0x7F) << 7) | (((w >> 14) & 0xF) << 14) | (((w >> 20) & 0xF) << 20) | (w & (FlagCastling | FlagEnPassant | FlagPawnStart))
  {
  }

  /** A move packed from a playable coordinate decodes back to that same canonical coordinate. */
  lemma GetFromOfPlayable(i: int, j: int, captured: Option<TileState>, promoted: Option<TileState>, flags: bv32)
    requires IsPlayable(i) && IsPlayable(j) && IsFlagSet(flags)
    ensures NewMove(CoordAt(i), CoordAt(j), captured, promoted, flags).GetFrom() == CoordAt(i)
    ensures NewMove(CoordAt(i), CoordAt(j), captured, promoted, flags).GetTo() == CoordAt(j)
  {
    NewMoveRoundTrip(CoordAt(i), CoordAt(j), captured, promoted, flags);
  }

  /** The three flags are distinct single bits outside the four fields. */
  lemma FlagsAreDisjoint()
    ensures FlagEnPassant == 1 << 18 && FlagPawnStart == 1 << 19 && FlagCastling == 1 << 24
    ensures (0x7F | (0x7F << 7) | (0xF << 14) | (0xF << 20)) & (FlagCastling | FlagEnPassant | FlagPawnStart) == 0
  {
  }
}
