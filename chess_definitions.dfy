/*
 * Pieces: the thirteen ETileState codes, the colour and role enums, the
 * constant per-piece table (colour, big/major/minor flags, cost, move
 * directions), the character and code lookups, and the castling bits.
 */
module ChessDefinitions {

  /** ETileState in declaration order: NoPiece = 0, white pawn..king = 1..6, black pawn..king = 7..12. */
  datatype TileState =
    | NoPiece
    | WhitePawn | WhiteKnight | WhiteBishop | WhiteRook | WhiteQueen | WhiteKing
    | BlackPawn | BlackKnight | BlackBishop | BlackRook | BlackQueen | BlackKing

  /** EChessPieceRole. */
  datatype PieceRole = Pawn | Bishop | Knight | Rook | Queen | King

  /** EPieceColor: White = 0, Black = 1, Both = 2, NoColor = 3. */
  datatype PieceColor = White | Black | Both | NoColor

  /** Number of piece codes (the size of every code-indexed table). */
  const PieceCodes := 13

  /** GetCode: the ETileState ordinal. */
  function GetCode(p: TileState): (c: int)
    ensures 0 <= c < PieceCodes
    ensures c == 0 <==> p == NoPiece
    ensures 1 <= c <= 6 <==> GetColor(p) == White
    ensures 7 <= c <= 12 <==> GetColor(p) == Black
  {
    match p
    case NoPiece => 0
    case WhitePawn => 1
    case WhiteKnight => 2
    case WhiteBishop => 3
    case WhiteRook => 4
    case WhiteQueen => 5
    case WhiteKing => 6
    case BlackPawn => 7
    case BlackKnight => 8
    case BlackBishop => 9
    case BlackRook => 10
    case BlackQueen => 11
    case BlackKing => 12
  }

  /**
   * GetPieceFromCode (declared, its definition is not part of this model):
   * assumed to return the piece whose code is the argument, and the empty
   * piece for any other value.
   */
  function GetPieceFromCode(code: int): (p: TileState)
    ensures 0 <= code < PieceCodes ==> GetCode(p) == code
    ensures !(0 <= code < PieceCodes) ==> p == NoPiece
  {
    if code == 1 then WhitePawn
    else if code == 2 then WhiteKnight
    else if code == 3 then WhiteBishop
    else if code == 4 then WhiteRook
    else if code == 5 then WhiteQueen
    else if code == 6 then WhiteKing
    else if code == 7 then BlackPawn
    else if code == 8 then BlackKnight
    else if code == 9 then BlackBishop
    else if code == 10 then BlackRook
    else if code == 11 then BlackQueen
    else if code == 12 then BlackKing
    else NoPiece
  }

  /** GetColor: the colour stored in the constant piece table; the empty piece has none. */
  function GetColor(p: TileState): PieceColor {
    match p
    case NoPiece => NoColor
    case WhitePawn | WhiteKnight | WhiteBishop | WhiteRook | WhiteQueen | WhiteKing => White
    case _ => Black
  }

  /** EPieceColor as an int32. */
  function ColorCode(c: PieceColor): (k: int)
    ensures 0 <= k < 4
    ensures k == 0 <==> c == White
    ensures k == 1 <==> c == Black
  {
    match c
    case White => 0
    case Black => 1
    case Both => 2
    case NoColor => 3
  }

  /** static_cast<EPieceColor> of a colour code. */
  function ColorFromCode(k: int): PieceColor
    requires 0 <= k < 4
  {
    if k == 0 then White else if k == 1 then Black else if k == 2 then Both else NoColor
  }

  /** GetColorCode: 0 for a white piece, 1 for a black one, 3 for the empty piece. */
  function GetColorCode(p: TileState): (k: int)
    ensures p != NoPiece ==> (k == 0 <==> GetColor(p) == White) && (k == 1 <==> GetColor(p) == Black) && (k == 0 || k == 1)
    ensures p == NoPiece ==> k == 3
  {
    ColorCode(GetColor(p))
  }

  /** `code ^ 1` on an int32 colour code: the lowest bit flipped (FlipCodeIsXor). */
  function FlipCode(k: int): (r: int)
    requires 0 <= k < 4
    ensures 0 <= r < 4
  {
    if k % 2 == 0 then k + 1 else k - 1
  }

  /** FlipCode is the exclusive or with 1 of the code's bits. */
  lemma FlipCodeIsXor(k: int)
    requires 0 <= k < 4
    ensures FlipCode(k) == ((k as bv8) ^ 1) as int
  {
    if k == 0 {
    } else if k == 1 {
    } else if k == 2 {
    } else {
    }
  }

  /** The side-to-move flip `Side = (EPieceColor)(Side ^ 1)`. */
  function Opponent(c: PieceColor): (o: PieceColor)
    ensures (c == White <==> o == Black) && (c == Black <==> o == White)
  {
    ColorFromCode(FlipCode(ColorCode(c)))
  }

  /** IsA: the white and the black state of the role, nothing else. */
  predicate IsA(p: TileState, role: PieceRole) {
    match role
    case Pawn => p == BlackPawn || p == WhitePawn
    case Knight => p == BlackKnight || p == WhiteKnight
    case Bishop => p == BlackBishop || p == WhiteBishop
    case Rook => p == BlackRook || p == WhiteRook
    case Queen => p == BlackQueen || p == WhiteQueen
    case King => p == BlackKing || p == WhiteKing
  }

  /** The role of a real piece. */
  function RoleOf(p: TileState): PieceRole
    requires p != NoPiece
  {
    match p
    case WhitePawn | BlackPawn => Pawn
    case WhiteKnight | BlackKnight => Knight
    case WhiteBishop | BlackBishop => Bishop
    case WhiteRook | BlackRook => Rook
    case WhiteQueen | BlackQueen => Queen
    case WhiteKing | BlackKing => King
  }

  /** The piece of a role and a playing colour. */
  function PieceOf(role: PieceRole, c: PieceColor): (p: TileState)
    requires c == White || c == Black
    ensures p != NoPiece && RoleOf(p) == role && GetColor(p) == c
  {
    match role
    case Pawn => if c == White then WhitePawn else BlackPawn
    case Knight => if c == White then WhiteKnight else BlackKnight
    case Bishop => if c == White then WhiteBishop else BlackBishop
    case Rook => if c == White then WhiteRook else BlackRook
    case Queen => if c == White then WhiteQueen else BlackQueen
    case King => if c == White then WhiteKing else BlackKing
  }

  /** GetCost: pawn 100, knight 350, bishop 350, rook 550, queen 1000, king 50000; the empty piece 0. */
  function GetCost(p: TileState): int {
    match p
    case NoPiece => 0
    case WhitePawn | BlackPawn => 100
    case WhiteKnight | BlackKnight => 350
    case WhiteBishop | BlackBishop => 350
    case WhiteRook | BlackRook => 550
    case WhiteQueen | BlackQueen => 1000
    case WhiteKing | BlackKing => 50000
  }

  /** IsBigPiece: a non-pawn piece (as the header comment defines it). */
  predicate IsBigPiece(p: TileState) { p != NoPiece && !IsA(p, Pawn) }

  /** IsMajorPiece: a rook or a queen. */
  predicate IsMajorPiece(p: TileState) { IsA(p, Rook) || IsA(p, Queen) }

  /** IsMinorPiece: a knight or a bishop. */
  predicate IsMinorPiece(p: TileState) { IsA(p, Knight) || IsA(p, Bishop) }

  // Move-direction tables on the 10x12 board (declared in the header, values assumed standard).
  const KnightDirections: seq<int> := [-8, -19, -21, -12, 8, 19, 21, 12]
  const RookDirections: seq<int> := [-1, -10, 1, 10]
  const BishopDirections: seq<int> := [-9, -11, 11, 9]
  const KingDirections: seq<int> := [-1, -10, 1, 10, -9, -11, 11, 9]

  /** GetMoveDirections: the offset table of the piece's role; pawns and the empty piece have none. */
  function GetMoveDirections(p: TileState): (dirs: seq<int>)
    ensures forall d :: d in dirs ==> -21 <= d <= 21 && d != 0
  {
    match p
    case NoPiece => []
    case WhitePawn | BlackPawn => []
    case WhiteKnight | BlackKnight => KnightDirections
    case WhiteBishop | BlackBishop => BishopDirections
    case WhiteRook | BlackRook => RookDirections
    case WhiteQueen | BlackQueen => KingDirections
    case WhiteKing | BlackKing => KingDirections
  }

  /** Sliding directions stay within one step of a neighbouring square. */
  predicate IsSlidingDirection(d: int) { d in KingDirections }

  /** GetSlidingPiecesByColor (assumed, as its comment says): rook, queen, bishop of the colour. */
  function GetSlidingPiecesByColor(c: PieceColor): (ps: seq<TileState>)
    ensures forall p :: p in ps ==> p != NoPiece && GetColor(p) == c
    ensures forall p :: p in ps ==> forall d :: d in GetMoveDirections(p) ==> IsSlidingDirection(d)
  {
    if c == White then [WhiteRook, WhiteQueen, WhiteBishop]
    else if c == Black then [BlackRook, BlackQueen, BlackBishop]
    else []
  }

  /** GetNonSlidingPiecesByColor (assumed, as its comment says): knight, king of the colour. */
  function GetNonSlidingPiecesByColor(c: PieceColor): (ps: seq<TileState>)
    ensures forall p :: p in ps ==> p != NoPiece && GetColor(p) == c
  {
    if c == White then [WhiteKnight, WhiteKing]
    else if c == Black then [BlackKnight, BlackKing]
    else []
  }

  /** GetPieceFromChar: the FEN letters; every other character is the empty piece. */
  function GetPieceFromChar(ch: char): TileState {
    match ch
    case 'P' => WhitePawn
    case 'N' => WhiteKnight
    case 'B' => WhiteBishop
    case 'R' => WhiteRook
    case 'Q' => WhiteQueen
    case 'K' => WhiteKing
    case 'p' => BlackPawn
    case 'n' => BlackKnight
    case 'b' => BlackBishop
    case 'r' => BlackRook
    case 'q' => BlackQueen
    case 'k' => BlackKing
    case _ => NoPiece
  }

  /** The twelve FEN piece letters. */
  predicate IsPieceLetter(ch: char) {
    ch in "PNBRQKpnbrqk"
  }

  /** The FEN letter of a real piece (the inverse of GetPieceFromChar). */
  function PieceLetter(p: TileState): char
    requires p != NoPiece
  {
    match p
    case WhitePawn => 'P'
    case WhiteKnight => 'N'
    case WhiteBishop => 'B'
    case WhiteRook => 'R'
    case WhiteQueen => 'Q'
    case WhiteKing => 'K'
    case BlackPawn => 'p'
    case BlackKnight => 'n'
    case BlackBishop => 'b'
    case BlackRook => 'r'
    case BlackQueen => 'q'
    case BlackKing => 'k'
  }

  // ECastlingType bits.
  const WhiteKingCastle := 1
  const WhiteQueenCastle := 2
  const BlackKingCastle := 4
  const BlackQueenCastle := 8

  /** A castling-permission set: any combination of the four bits. */
  predicate IsCastleSet(x: int) { 0 <= x < 16 }

  /** Bitwise AND of two castling sets (int32 `&`). */
  function CastleAnd(a: int, b: int): (r: int)
    requires IsCastleSet(a) && IsCastleSet(b)
    ensures IsCastleSet(r)
  {
    ((a as bv4) & (b as bv4)) as int
  }

  /** Bitwise OR of two castling sets (int32 `|`). */
  function CastleOr(a: int, b: int): (r: int)
    requires IsCastleSet(a) && IsCastleSet(b)
    ensures IsCastleSet(r)
  {
    ((a as bv4) | (b as bv4)) as int
  }

  /** Right `bit` is held in the set x. */
  predicate HasRight(x: int, bit: int)
    requires IsCastleSet(x) && IsCastleSet(bit)
  {
    CastleAnd(x, bit) != 0
  }

  /** Every right held in a is held in b. */
  predicate CastleSubset(a: int, b: int)
    requires IsCastleSet(a) && IsCastleSet(b)
  {
    CastleAnd(a, b) == a
  }

  // ---------------------------------------------------------------- lemmas

  /** GetPieceFromCode inverts GetCode, so the thirteen codes name thirteen distinct pieces. */
  lemma CodeRoundTrip(p: TileState)
    ensures GetPieceFromCode(GetCode(p)) == p
  {
  }

  /** Piece equality (operator== on State) is equality of codes; operator!= is its negation. */
  lemma EqualityIsCodeEquality(p: TileState, q: TileState)
    ensures p == q <==> GetCode(p) == GetCode(q)
    ensures p != q <==> !(GetCode(p) == GetCode(q))
  {
    CodeRoundTrip(p);
    CodeRoundTrip(q);
  }

  /** The white and the black piece of every role cost the same. */
  lemma CostIsColourBlind(role: PieceRole)
    ensures GetCost(PieceOf(role, White)) == GetCost(PieceOf(role, Black))
    ensures GetCost(PieceOf(role, White)) > 0
  {
  }

  /** IsA(role) holds exactly for the two pieces of that role. */
  lemma IsAExactly(p: TileState, role: PieceRole)
    ensures IsA(p, role) <==> p == PieceOf(role, White) || p == PieceOf(role, Black)
    ensures !IsA(NoPiece, role)
  {
  }

  /** Every real piece has exactly one role, and it is the role IsA recognises. */
  lemma RoleIsUnique(p: TileState, role: PieceRole)
    requires p != NoPiece
    ensures IsA(p, role) <==> RoleOf(p) == role
  {
  }

  /** Big means non-pawn; every big piece is major, minor or a king, and never both major and minor. */
  lemma BigMajorMinor(p: TileState)
    requires p != NoPiece
    ensures IsBigPiece(p) <==> !IsA(p, Pawn)
    ensures IsBigPiece(p) <==> IsMajorPiece(p) || IsMinorPiece(p) || IsA(p, King)
    ensures !(IsMajorPiece(p) && IsMinorPiece(p))
  {
  }

  /** GetPieceFromChar maps the twelve letters to the twelve pieces and every other character to NoPiece. */
  lemma FromCharTable(ch: char)
    ensures GetPieceFromChar(ch) != NoPiece <==> IsPieceLetter(ch)
    ensures IsPieceLetter(ch) ==> PieceLetter(GetPieceFromChar(ch)) == ch
    ensures 'A' <= ch <= 'Z' && IsPieceLetter(ch) ==> GetColor(GetPieceFromChar(ch)) == White
    ensures 'a' <= ch <= 'z' && IsPieceLetter(ch) ==> GetColor(GetPieceFromChar(ch)) == Black
  {
  }

  /** Letters round-trip: the letter of each piece reads back as that piece. */
  lemma LetterRoundTrip(p: TileState)
    requires p != NoPiece
    ensures GetPieceFromChar(PieceLetter(p)) == p
    ensures IsPieceLetter(PieceLetter(p))
  {
  }

  /** Digits are not piece letters: GetPieceFromChar gives the empty piece for them. */
  lemma DigitsAreEmpty(ch: char)
    requires '0' <= ch <= '9'
    ensures GetPieceFromChar(ch) == NoPiece
  {
  }

  /** `code ^ 1` swaps the two playing colours and is its own inverse on all four codes. */
  lemma FlipSwapsSides(c: PieceColor)
    ensures Opponent(White) == Black && Opponent(Black) == White
    ensures Opponent(Opponent(c)) == c
  {
  }

  /** One of the four ECastlingType values. */
  predicate IsCastleRight(b: int) {
    b == WhiteKingCastle || b == WhiteQueenCastle || b == BlackKingCastle || b == BlackQueenCastle
  }

  /** The castling bits are four distinct single bits: any two of them share no bit, together they
      make 15, and OR-ing one into a set grants exactly that right and keeps the others. */
  lemma CastlingBits(x: int)
    requires IsCastleSet(x)
    ensures forall a, b :: IsCastleRight(a) && IsCastleRight(b) && a != b ==> CastleAnd(a, b) == 0
    ensures forall b :: IsCastleRight(b) ==> CastleAnd(b, b) == b
    ensures forall b, c :: IsCastleRight(b) && IsCastleRight(c) ==>
      (HasRight(CastleOr(x, b), c) <==> c == b || HasRight(x, c))
    ensures CastleOr(CastleOr(CastleOr(WhiteKingCastle, WhiteQueenCastle), BlackKingCastle), BlackQueenCastle) == 15
  {
    forall b, c | IsCastleRight(b) && IsCastleRight(c)
      ensures HasRight(CastleOr(x, b), c) <==> c == b || HasRight(x, c)
    {
      OrGrants(x, b, c);
    }
  }

  /** One instance of the OR-grant: bit c is in x | b exactly when it is b or already in x. */
  lemma OrGrants(x: int, b: int, c: int)
    requires IsCastleSet(x) && IsCastleRight(b) && IsCastleRight(c)
    ensures HasRight(CastleOr(x, b), c) <==> c == b || HasRight(x, c)
  {
    var xv, bv, cv := x as bv4, b as bv4, c as bv4;
    assert ((xv | bv) & cv != 0) <==> cv == bv || xv & cv != 0;
  }

  /** AND with any mask keeps only rights already held. */
  lemma AndIsSubset(a: int, m: int)
    requires IsCastleSet(a) && IsCastleSet(m)
    ensures CastleSubset(CastleAnd(a, m), a)
    ensures forall bit :: bit in {1, 2, 4, 8} ==> (HasRight(CastleAnd(a, m), bit) <==> HasRight(a, bit) && HasRight(m, bit))
  {
  }
}
