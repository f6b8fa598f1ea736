/*
 * Pseudo-legal move generation as functions of the position: pawn pushes,
 * double pushes, captures, en passant and promotion fan-out; sliding rays;
 * knight and king steps; castling. Each function lists the moves in the
 * order the engine appends them to its move list.
 */
module MoveGeneration {
  import opened Wrappers
  import opened TileCoordinate
  import opened ChessDefinitions
  import opened ChessMove
  import opened ChessBoardTile
  import opened Board
  import opened Attack

  /** A piece-list entry the generators can start from: a canonical playable coordinate. */
  predicate IsListedCoord(c: TileCoord) {
    IsPlayable(c.coordinate) && c == CoordAt(c.coordinate)
  }

  predicate AllListed(froms: seq<TileCoord>) {
    forall k :: 0 <= k < |froms| ==> IsListedCoord(froms[k])
  }

  /** A move without a captured or promoted piece. */
  function Quiet(from: TileCoord, to: TileCoord, flags: bv32): ChessMove {
    NewMove(from, to, None, None, flags)
  }

  /** The four promotions in the engine's order: queen, rook, bishop, knight. */
  function PromotionPieces(white: bool): (ps: seq<TileState>)
    ensures |ps| == 4
    ensures forall k :: 0 <= k < 4 ==> ps[k] != NoPiece && (GetColor(ps[k]) == White <==> white) && IsBigPiece(ps[k]) && !IsA(ps[k], King)
  {
    if white then [WhiteQueen, WhiteRook, WhiteBishop, WhiteKnight]
    else [BlackQueen, BlackRook, BlackBishop, BlackKnight]
  }

  /** The rank a pawn promotes from: Seven for white, Two for black. */
  function PromotionRank(white: bool): Byte { if white then RankSeven else RankTwo }

  /** The rank a pawn starts on: Two for white, Seven for black. */
  function StartRank(white: bool): Byte { if white then RankTwo else RankSeven }

  /** The forward step: +10 for white, -10 for black. */
  function Forward(white: bool): int { if white then 10 else -10 }

  /** The diagonal offsets a pawn tries, in the engine's order: +9 then +11 for white, -9 then -11 for black. */
  function Diagonal(white: bool, d: int): int { if white then d else -d }

  /** The colour a pawn captures. */
  function Enemy(white: bool): PieceColor { if white then Black else White }

  /** Add{White,Black}PawnMove / Add{White,Black}PawnCaptureMove: from the promotion rank, one move per promotion piece; otherwise a single move. */
  function PawnMoves(from: TileCoord, to: TileCoord, captured: Option<TileState>, white: bool): (ms: seq<ChessMove>)
    ensures from.rank == PromotionRank(white) ==> |ms| == 4
    ensures from.rank != PromotionRank(white) ==> ms == [NewMove(from, to, captured, None, 0)]
  {
    if from.rank == PromotionRank(white) then
      var ps := PromotionPieces(white);
      [NewMove(from, to, captured, Some(ps[0]), 0), NewMove(from, to, captured, Some(ps[1]), 0),
       NewMove(from, to, captured, Some(ps[2]), 0), NewMove(from, to, captured, Some(ps[3]), 0)]
    else
      [NewMove(from, to, captured, None, 0)]
  }

  /** The diagonal capture onto cell i, if it holds an enemy piece. */
  function PawnCapture(ts: seq<ChessBoardTile>, from: TileCoord, i: int, white: bool): seq<ChessMove>
    requires |ts| == BoardSize && 0 <= i < BoardSize
  {
    if !ts[i].IsEmpty() && GetColor(ts[i].GetPiece()) == Enemy(white) then
      PawnMoves(from, ts[i].GetPosition(), Some(ts[i].GetPiece()), white)
    else []
  }

  /** The en-passant capture onto cell i, if i is the en-passant tile. */
  function EnPassantCapture(ts: seq<ChessBoardTile>, ep: Option<int>, from: TileCoord, i: int): seq<ChessMove>
    requires |ts| == BoardSize && 0 <= i < BoardSize
  {
    if ep.Some? && i == ep.value then [Quiet(from, ts[i].GetPosition(), FlagEnPassant)] else []
  }

  /**
   * The moves of one pawn (GeneratePawnMoves' loop body): nothing unless the
   * square ahead is empty; then the push, the double push from the start rank
   * over two empty squares, the two diagonal captures (the 9-offset before
   * the 11-offset) and the two en-passant captures. Captures sit inside the push test, as in the engine.
   */
  function PawnMovesFrom(ts: seq<ChessBoardTile>, ep: Option<int>, from: TileCoord, white: bool): seq<ChessMove>
    requires |ts| == BoardSize && IsListedCoord(from)
  {
    var fi := from.ToInt();
    var f := Forward(white);
    if ts[fi + f].IsEmpty() then
      PawnMoves(from, ts[fi + f].GetPosition(), None, white)
      + DoublePush(ts, from, white) + PawnCaptures(ts, from, white) + EnPassantCaptures(ts, ep, from, white)
    else []
  }

  /** A pawn has no move while the square ahead is occupied; when it is empty, its moves are the push, the double push, the two captures and the en-passant captures, in that order. */
  lemma PawnMovesFromAhead(ts: seq<ChessBoardTile>, ep: Option<int>, from: TileCoord, white: bool)
    requires |ts| == BoardSize && IsListedCoord(from)
    ensures !ts[from.ToInt() + Forward(white)].IsEmpty() ==> PawnMovesFrom(ts, ep, from, white) == []
    ensures ts[from.ToInt() + Forward(white)].IsEmpty() ==>
      (PawnMovesFrom(ts, ep, from, white) ==
        PawnMoves(from, ts[from.ToInt() + Forward(white)].GetPosition(), None, white) + DoublePush(ts, from, white)
        + (PawnCapture(ts, from, from.ToInt() + Diagonal(white, 9), white) + PawnCapture(ts, from, from.ToInt() + Diagonal(white, 11), white))
        + EnPassantCaptures(ts, ep, from, white))
  {
  }

  /** The pushes appended, then the captures: together they are the pawn's moves when the square ahead is empty. */
  lemma AppendPushesCaptures(ts: seq<ChessBoardTile>, ep: Option<int>, from: TileCoord, white: bool,
                             m0: seq<ChessMove>, m1: seq<ChessMove>, m2: seq<ChessMove>)
    requires |ts| == BoardSize && IsListedCoord(from) && ts[from.ToInt() + Forward(white)].IsEmpty()
    requires m1 == m0 + PawnMoves(from, ts[from.ToInt() + Forward(white)].GetPosition(), None, white) + DoublePush(ts, from, white)
    requires m2 == m1 + PawnCapture(ts, from, from.ToInt() + Diagonal(white, 9), white)
      + PawnCapture(ts, from, from.ToInt() + Diagonal(white, 11), white) + EnPassantCaptures(ts, ep, from, white)
    ensures m2 == m0 + PawnMovesFrom(ts, ep, from, white)
  {
    PawnMovesFromAhead(ts, ep, from, white);
    AppendFive(m0, PawnMoves(from, ts[from.ToInt() + Forward(white)].GetPosition(), None, white), DoublePush(ts, from, white),
      PawnCapture(ts, from, from.ToInt() + Diagonal(white, 9), white), PawnCapture(ts, from, from.ToInt() + Diagonal(white, 11), white),
      EnPassantCaptures(ts, ep, from, white), m2);
  }

  /** The double push: from the start rank, when the square two ahead is empty too. */
  function DoublePush(ts: seq<ChessBoardTile>, from: TileCoord, white: bool): seq<ChessMove>
    requires |ts| == BoardSize && IsListedCoord(from)
  {
    var fi := from.ToInt();
    var f := Forward(white);
    if from.rank == StartRank(white) && ts[fi + 2 * f].IsEmpty()
    then [Quiet(from, ts[fi + 2 * f].GetPosition(), FlagPawnStart)] else []
  }

  /** The two diagonal captures, the 9-offset first. */
  function PawnCaptures(ts: seq<ChessBoardTile>, from: TileCoord, white: bool): seq<ChessMove>
    requires |ts| == BoardSize && IsListedCoord(from)
  {
    PawnCapture(ts, from, from.ToInt() + Diagonal(white, 9), white) + PawnCapture(ts, from, from.ToInt() + Diagonal(white, 11), white)
  }

  /** The two en-passant captures, the 9-offset first. */
  function EnPassantCaptures(ts: seq<ChessBoardTile>, ep: Option<int>, from: TileCoord, white: bool): seq<ChessMove>
    requires |ts| == BoardSize && IsListedCoord(from)
  {
    EnPassantCapture(ts, ep, from, from.ToInt() + Diagonal(white, 9)) + EnPassantCapture(ts, ep, from, from.ToInt() + Diagonal(white, 11))
  }

  /** GenerateWhitePawnMoves / GenerateBlackPawnMoves over the listed pawns, in list order. */
  function AllPawnMoves(ts: seq<ChessBoardTile>, ep: Option<int>, froms: seq<TileCoord>, white: bool): seq<ChessMove>
    requires |ts| == BoardSize && AllListed(froms)
  {
    if froms == [] then []
    else AllPawnMoves(ts, ep, froms[..|froms| - 1], white) + PawnMovesFrom(ts, ep, froms[|froms| - 1], white)
  }

  /** The generator's loop step: the first i+1 pawns give the moves of the first i, then those of pawn i. */
  lemma AllPawnMovesStep(ts: seq<ChessBoardTile>, ep: Option<int>, froms: seq<TileCoord>, i: int, white: bool)
    requires |ts| == BoardSize && AllListed(froms) && 0 <= i < |froms|
    ensures AllPawnMoves(ts, ep, froms[..i + 1], white) == AllPawnMoves(ts, ep, froms[..i], white) + PawnMovesFrom(ts, ep, froms[i], white)
  {
    assert froms[..i + 1][..i] == froms[..i];
  }

  /** Side ^ 1 compared with a piece's colour code: the piece belongs to the other side. */
  predicate IsOpponentOf(p: TileState, side: PieceColor) {
    GetColorCode(p) == FlipCode(ColorCode(side))
  }

  /** The move a sliding or stepping piece makes onto on-board cell i: quiet when it is empty, otherwise a capture of what stands there. */
  function RayMove(ts: seq<ChessBoardTile>, from: TileCoord, i: int): ChessMove
    requires |ts| == BoardSize && 0 <= i < BoardSize
  {
    if ts[i].IsEmpty() then Quiet(from, ts[i].GetPosition(), 0)
    else NewMove(from, ts[i].GetPosition(), Some(ts[i].GetPiece()), None, 0)
  }

  /**
   * One ray of GenerateSlideMoves: a quiet move per empty on-board cell up to
   * the first occupied one, which gives a capture when it holds an opponent.
   */
  function SlideRay(ts: seq<ChessBoardTile>, from: TileCoord, pos: int, d: int, side: PieceColor): seq<ChessMove>
    requires CellsIndexed(ts) && 0 <= pos < BoardSize && d in KingDirections
    decreases if d > 0 then BoardSize - pos else pos
  {
    if !ts[pos].IsOnBoard() then []
    else if !ts[pos].IsEmpty() then
      if IsOpponentOf(ts[pos].GetPiece(), side) then [RayMove(ts, from, pos)] else []
    else
      [RayMove(ts, from, pos)] + SlideRay(ts, from, ts[pos].GetPosition().ToInt() + d, d, side)
  }

  /** All rays of dirs[..n] from one piece, in direction order. */
  function SlideRays(ts: seq<ChessBoardTile>, from: TileCoord, dirs: seq<int>, side: PieceColor): seq<ChessMove>
    requires SaneTiles(ts) && IsListedCoord(from)
    requires forall k :: 0 <= k < |dirs| ==> dirs[k] in KingDirections
  {
    if dirs == [] then []
    else SlideRays(ts, from, dirs[..|dirs| - 1], side) + SlideRay(ts, from, from.ToInt() + dirs[|dirs| - 1], dirs[|dirs| - 1], side)
  }

  /** One offset of GenerateNonSlideMoves: nothing off the board, a capture of an opponent, a quiet move to an empty cell. */
  function StepMove(ts: seq<ChessBoardTile>, from: TileCoord, i: int, side: PieceColor): (ms: seq<ChessMove>)
    requires |ts| == BoardSize && 0 <= i < BoardSize
    ensures |ms| <= 1
  {
    if !ts[i].IsOnBoard() then []
    else if !ts[i].IsEmpty() then
      if IsOpponentOf(ts[i].GetPiece(), side) then [RayMove(ts, from, i)] else []
    else [RayMove(ts, from, i)]
  }

  /** The moves of each offset of dirs in turn, in direction order. */
  function EachDir(dirs: seq<int>, f: int --> seq<ChessMove>): seq<ChessMove>
    requires forall k :: 0 <= k < |dirs| ==> f.requires(dirs[k])
  {
    if dirs == [] then []
    else EachDir(dirs[..|dirs| - 1], f) + f(dirs[|dirs| - 1])
  }

  /** The step move of one offset from `from`. */
  function StepFrom(ts: seq<ChessBoardTile>, from: TileCoord, side: PieceColor): int --> seq<ChessMove>
    requires |ts| == BoardSize && IsListedCoord(from)
  {
    d requires -21 <= d <= 21 => StepMove(ts, from, from.ToInt() + d, side)
  }

  /** GenerateNonSlideMoves for one piece: every offset of dirs in turn. */
  function StepMoves(ts: seq<ChessBoardTile>, from: TileCoord, dirs: seq<int>, side: PieceColor): seq<ChessMove>
    requires |ts| == BoardSize && IsListedCoord(from)
    requires forall k :: 0 <= k < |dirs| ==> -21 <= dirs[k] <= 21
  {
    EachDir(dirs, StepFrom(ts, from, side))
  }

  /** Sliding moves of every listed piece of one kind. */
  function SlideMovesOf(ts: seq<ChessBoardTile>, p: TileState, froms: seq<TileCoord>, side: PieceColor): seq<ChessMove>
    requires SaneTiles(ts) && AllListed(froms)
    requires forall k :: 0 <= k < |GetMoveDirections(p)| ==> GetMoveDirections(p)[k] in KingDirections
  {
    if froms == [] then []
    else SlideMovesOf(ts, p, froms[..|froms| - 1], side) + SlideRays(ts, froms[|froms| - 1], GetMoveDirections(p), side)
  }

  function StepMovesOf(ts: seq<ChessBoardTile>, p: TileState, froms: seq<TileCoord>, side: PieceColor): seq<ChessMove>
    requires |ts| == BoardSize && AllListed(froms)
  {
    if froms == [] then []
    else StepMovesOf(ts, p, froms[..|froms| - 1], side) + StepMoves(ts, froms[|froms| - 1], GetMoveDirections(p), side)
  }

  /** Piece lists as seen by the generators: thirteen lists of canonical coordinates. */
  predicate ListsShape(lists: seq<seq<TileCoord>>) {
    |lists| == PieceCodes && forall c :: 0 <= c < PieceCodes ==> AllListed(lists[c])
  }

  /** GenerateSlideMoves: the pieces of GetSlidingPiecesByColor(side) in order. */
  function SlideMoves(ts: seq<ChessBoardTile>, lists: seq<seq<TileCoord>>, side: PieceColor, pieces: seq<TileState>): seq<ChessMove>
    requires SaneTiles(ts) && ListsShape(lists)
    requires forall k :: 0 <= k < |pieces| ==> forall j :: 0 <= j < |GetMoveDirections(pieces[k])| ==> GetMoveDirections(pieces[k])[j] in KingDirections
  {
    if pieces == [] then []
    else SlideMoves(ts, lists, side, pieces[..|pieces| - 1]) + SlideMovesOf(ts, pieces[|pieces| - 1], lists[GetCode(pieces[|pieces| - 1])], side)
  }

  /** GenerateNonSlideMoves: the pieces of GetNonSlidingPiecesByColor(side) in order. */
  function NonSlideMoves(ts: seq<ChessBoardTile>, lists: seq<seq<TileCoord>>, side: PieceColor, pieces: seq<TileState>): seq<ChessMove>
    requires |ts| == BoardSize && ListsShape(lists)
  {
    if pieces == [] then []
    else NonSlideMoves(ts, lists, side, pieces[..|pieces| - 1]) + StepMovesOf(ts, pieces[|pieces| - 1], lists[GetCode(pieces[|pieces| - 1])], side)
  }

  /** The castling move from king square e to target t. */
  function CastleMove(e: int, t: int): ChessMove
    requires IsPlayable(e) && IsPlayable(t)
  {
    Quiet(CoordAt(e), CoordAt(t), FlagCastling)
  }

  /** GenerateWhiteCastling: king side needs F1, G1 empty and E1, F1 unattacked; queen side D1, C1, B1 empty and E1, D1 unattacked. */
  function WhiteCastling(ts: seq<ChessBoardTile>, cp: int): seq<ChessMove>
    requires SaneTiles(ts) && IsCastleSet(cp)
  {
    (if HasRight(cp, WhiteKingCastle) && ts[F1].IsEmpty() && ts[G1].IsEmpty()
        && !Attacked(ts, E1, Black) && !Attacked(ts, F1, Black)
     then [CastleMove(E1, G1)] else [])
    + (if HasRight(cp, WhiteQueenCastle) && ts[D1].IsEmpty() && ts[C1].IsEmpty() && ts[B1].IsEmpty()
          && !Attacked(ts, E1, Black) && !Attacked(ts, D1, Black)
       then [CastleMove(E1, C1)] else [])
  }

  /** GenerateBlackCastling: the mirror image on rank Eight, against white attacks. */
  function BlackCastling(ts: seq<ChessBoardTile>, cp: int): seq<ChessMove>
    requires SaneTiles(ts) && IsCastleSet(cp)
  {
    (if HasRight(cp, BlackKingCastle) && ts[F8].IsEmpty() && ts[G8].IsEmpty()
        && !Attacked(ts, E8, White) && !Attacked(ts, F8, White)
     then [CastleMove(E8, G8)] else [])
    + (if HasRight(cp, BlackQueenCastle) && ts[D8].IsEmpty() && ts[C8].IsEmpty() && ts[B8].IsEmpty()
          && !Attacked(ts, E8, White) && !Attacked(ts, D8, White)
       then [CastleMove(E8, C8)] else [])
  }

  /**
   * GenerateAllMoves: nothing for Both / NoColor; otherwise the side's pawn
   * moves and castling, then sliding and non-sliding pieces.
   */
  function AllMoves(ts: seq<ChessBoardTile>, lists: seq<seq<TileCoord>>, side: PieceColor, ep: Option<int>, cp: int): seq<ChessMove>
    requires SaneTiles(ts) && ListsShape(lists) && IsCastleSet(cp)
  {
    if side != White && side != Black then []
    else
      SlidingDirectionsOk(side);
      (if side == White then AllPawnMoves(ts, ep, lists[GetCode(WhitePawn)], true) + WhiteCastling(ts, cp)
       else AllPawnMoves(ts, ep, lists[GetCode(BlackPawn)], false) + BlackCastling(ts, cp))
      + SlideMoves(ts, lists, side, GetSlidingPiecesByColor(side))
      + NonSlideMoves(ts, lists, side, GetNonSlidingPiecesByColor(side))
  }

  /** GenerateAllMoves' order: the side's pawns, its castling, then its sliding and non-sliding pieces; nothing for NoColor or Both. */
  lemma AllMovesParts(ts: seq<ChessBoardTile>, lists: seq<seq<TileCoord>>, side: PieceColor, ep: Option<int>, cp: int)
    requires SaneTiles(ts) && ListsShape(lists) && IsCastleSet(cp)
    ensures side != White && side != Black ==> AllMoves(ts, lists, side, ep, cp) == []
    ensures side == White || side == Black ==>
      (SlidingDirectionsOk(side);
       AllMoves(ts, lists, side, ep, cp)
         == AllPawnMoves(ts, ep, lists[GetCode(if side == White then WhitePawn else BlackPawn)], side == White)
           + (if side == White then WhiteCastling(ts, cp) else BlackCastling(ts, cp))
           + SlideMoves(ts, lists, side, GetSlidingPiecesByColor(side))
           + NonSlideMoves(ts, lists, side, GetNonSlidingPiecesByColor(side)))
  {
    if side == White || side == Black {
      SlidingDirectionsOk(side);
    }
  }

  /** The pawn moves appended, then the castling, sliding and non-sliding moves: together they are AllMoves. */
  lemma AllMovesAppended(ts: seq<ChessBoardTile>, lists: seq<seq<TileCoord>>, side: PieceColor, ep: Option<int>, cp: int,
                         m0: seq<ChessMove>, m1: seq<ChessMove>, m2: seq<ChessMove>)
    requires SaneTiles(ts) && ListsShape(lists) && IsCastleSet(cp) && (side == White || side == Black)
    requires m1 == m0 + AllPawnMoves(ts, ep, lists[GetCode(if side == White then WhitePawn else BlackPawn)], side == White)
    requires (SlidingDirectionsOk(side);
      m2 == m1 + (if side == White then WhiteCastling(ts, cp) else BlackCastling(ts, cp))
        + SlideMoves(ts, lists, side, GetSlidingPiecesByColor(side))
        + NonSlideMoves(ts, lists, side, GetNonSlidingPiecesByColor(side)))
    ensures m2 == m0 + AllMoves(ts, lists, side, ep, cp)
  {
    AllMovesParts(ts, lists, side, ep, cp);
    SlidingDirectionsOk(side);
    AppendFour(m0, AllPawnMoves(ts, ep, lists[GetCode(if side == White then WhitePawn else BlackPawn)], side == White),
      if side == White then WhiteCastling(ts, cp) else BlackCastling(ts, cp),
      SlideMoves(ts, lists, side, GetSlidingPiecesByColor(side)),
      NonSlideMoves(ts, lists, side, GetNonSlidingPiecesByColor(side)), m2);
  }

  lemma SlidingDirectionsOk(side: PieceColor)
    ensures forall k :: 0 <= k < |GetSlidingPiecesByColor(side)| ==>
      forall j :: 0 <= j < |GetMoveDirections(GetSlidingPiecesByColor(side)[k])| ==>
        GetMoveDirections(GetSlidingPiecesByColor(side)[k])[j] in KingDirections
  {
  }

  // ---------------------------------------------------------------- appending in steps

  /** Appending four parts one after another appends their concatenation. */
  lemma AppendFour<T>(m0: seq<T>, a: seq<T>, b: seq<T>, c: seq<T>, d: seq<T>, m4: seq<T>)
    requires m4 == m0 + a + b + c + d
    ensures m4 == m0 + (a + b + c + d)
  {
    assert m0 + a + b + c + d == m0 + (a + b + c + d);
  }

  /** Appending two parts one after another appends their concatenation. */
  lemma AppendTwo<T>(m0: seq<T>, a: seq<T>, b: seq<T>, m1: seq<T>, m2: seq<T>)
    requires m1 == m0 + a && m2 == m1 + b
    ensures m2 == m0 + (a + b)
  {
    assert m0 + a + b == m0 + (a + b);
  }

  /** Appending five parts one after another appends their concatenation. */
  lemma AppendFive<T>(m0: seq<T>, a: seq<T>, b: seq<T>, c: seq<T>, d: seq<T>, e: seq<T>, m5: seq<T>)
    requires m5 == m0 + a + b + c + d + e
    ensures m5 == m0 + (a + b + (c + d) + e)
  {
    assert m0 + a + b + c + d + e == m0 + (a + b + (c + d) + e);
  }
}
