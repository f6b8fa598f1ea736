/*
 * The state of the position engine as a value, and the state changes
 * ClearPiece, AddPiece, MovePiece and MakeMove make to it, as functions. The
 * engine object (module GameState) updates its arrays and fields in place and
 * proves that it ends in exactly the value these functions compute; the
 * properties of the changes are proved here, on values.
 *
 * A failed `check(...)` or an out-of-range array access in the engine is
 * modelled as the absence of a result (None / Aborted): the engine has no
 * defined state afterwards.
 */
module Position {
  import opened Wrappers
  import opened TileCoordinate
  import opened ChessDefinitions
  import opened ChessMove
  import opened ChessBoardTile
  import opened Board
  import opened Attack
  import opened Bits
  import opened Hash
  import opened ChessGameStatics

  /** Slots per piece code in PieceList. The declaration is not part of this model; ten is assumed. */
  const Capacity := 10

  /**
   * Everything MakeMove reads or writes: the 120 tiles, the live part of the
   * thirteen piece lists (PieceList[c][0 .. PieceCount[c]-1]), the pawn
   * bitboards, the king cache, the per-colour counters, the side to move, the
   * en-passant tile, the fifty-move counter, the castling permission and the
   * position key.
   */
  datatype Position = Position(
    tiles: seq<ChessBoardTile>,
    lists: seq<seq<TileCoord>>,
    pawns: seq<bv64>,
    kings: seq<TileCoord>,
    material: seq<int>,
    bigPieces: seq<int>,
    majorPieces: seq<int>,
    minorPieces: seq<int>,
    side: PieceColor,
    ep: Option<int>,
    fifty: int,
    cp: int,
    hash: bv64)

  /** Thirteen zero counts: PieceCount before any piece is listed. */
  function ZeroCounts(): (r: seq<int>)
    ensures |r| == PieceCodes && forall c :: 0 <= c < PieceCodes ==> r[c] == 0
  {
    seq(PieceCodes, _ => 0)
  }

  /** The sizes of every table, a sane board with its castle masks, and the ranges the hash tables need. */
  predicate Shaped(p: Position) {
    && SaneTiles(p.tiles) && MasksIntact(p.tiles)
    && |p.lists| == PieceCodes && (forall c :: 0 <= c < PieceCodes ==> |p.lists[c]| <= Capacity)
    && |p.pawns| == 3 && |p.kings| == 2
    && |p.material| == 3 && |p.bigPieces| == 3 && |p.majorPieces| == 3 && |p.minorPieces| == 3
    && IsCastleSet(p.cp)
    && (p.ep.Some? ==> 0 <= p.ep.value < BoardSize)
  }

  // ---------------------------------------------------------------- piece lists

  /** The first slot of l whose coordinate equals x (operator== compares the combined index), or -1. */
  function FindCoord(l: seq<TileCoord>, x: TileCoord): (r: int)
    ensures -1 <= r < |l|
    ensures r >= 0 ==> l[r].Equals(x) && forall j :: 0 <= j < r ==> !l[j].Equals(x)
    ensures r == -1 ==> forall j :: 0 <= j < |l| ==> !l[j].Equals(x)
  {
    FindFrom(l, x, 0)
  }

  function FindFrom(l: seq<TileCoord>, x: TileCoord, start: nat): (r: int)
    requires start <= |l|
    requires forall j :: 0 <= j < start ==> !l[j].Equals(x)
    ensures -1 <= r < |l|
    ensures r >= 0 ==> start <= r && l[r].Equals(x) && forall j :: 0 <= j < r ==> !l[j].Equals(x)
    ensures r == -1 ==> forall j :: 0 <= j < |l| ==> !l[j].Equals(x)
    decreases |l| - start
  {
    if start == |l| then -1
    else if l[start].Equals(x) then start
    else FindFrom(l, x, start + 1)
  }

  /** ClearPiece's list update, with the hole filled from the last live slot. */
  function RemoveAt(l: seq<TileCoord>, t: int): (r: seq<TileCoord>)
    requires 0 <= t < |l|
    ensures |r| == |l| - 1
    ensures multiset(r) == multiset(l) - multiset{l[t]}
    ensures forall j :: 0 <= j < |r| ==> r[j] == (if j == t then l[|l| - 1] else l[j])
  {
    var last := |l| - 1;
    var r := l[t := l[last]][..last];
    assert l == l[..last] + [l[last]];
    if t == last then
      r
    else
      assert l[..last] == l[..t] + [l[t]] + l[t + 1..last];
      assert r == l[..t] + [l[last]] + l[t + 1..last];
      r
  }

  /** Slot x of a list holds a canonical playable coordinate whose on-board tile holds piece code c. */
  predicate EntryOk(ts: seq<ChessBoardTile>, c: int, x: TileCoord)
    requires |ts| == BoardSize
  {
    IsPlayable(x.coordinate) && x == CoordAt(x.coordinate)
    && ts[x.coordinate].IsOnBoard() && GetCode(ts[x.coordinate].GetPiece()) == c
  }

  /** No coordinate is listed twice. */
  predicate Distinct(l: seq<TileCoord>) {
    forall j, k :: 0 <= j < k < |l| ==> l[j].coordinate != l[k].coordinate
  }

  /**
   * The piece lists agree with the board: every entry names an on-board cell
   * holding its code, no entry repeats, the empty piece has no list, and every
   * on-board piece is listed under its code.
   */
  predicate ListsMatch(ts: seq<ChessBoardTile>, lists: seq<seq<TileCoord>>)
    requires |ts| == BoardSize && |lists| == PieceCodes
  {
    && lists[0] == []
    && (forall c, j :: 0 <= c < PieceCodes && 0 <= j < |lists[c]| ==> EntryOk(ts, c, lists[c][j]))
    && (forall c :: 0 <= c < PieceCodes ==> Distinct(lists[c]))
    && (forall i :: 0 <= i < BoardSize && IsPlayable(i) && ts[i].IsOnBoard() && !ts[i].IsEmpty() ==>
          CoordAt(i) in lists[GetCode(ts[i].GetPiece())])
  }

  // ---------------------------------------------------------------- pawn bitboards

  /** ClearBit on the colour's board and then on the combined board. */
  function ClearBits(ps: seq<bv64>, cc: int, s: int): (r: seq<bv64>)
    requires |ps| == 3 && 0 <= cc < 2 && 0 <= s < 64
    ensures |r| == 3
  {
    var ps1 := ps[cc := WithoutBit(ps[cc], s)];
    ps1[2 := WithoutBit(ps1[2], s)]
  }

  /** SetBit on the colour's board and then on the combined board. */
  function SetBits(ps: seq<bv64>, cc: int, s: int): (r: seq<bv64>)
    requires |ps| == 3 && 0 <= cc < 2 && 0 <= s < 64
    ensures |r| == 3
  {
    var ps1 := ps[cc := WithBit(ps[cc], s)];
    ps1[2 := WithBit(ps1[2], s)]
  }

  // ---------------------------------------------------------------- the three piece operations

  /**
   * ClearPiece(Coord): the coordinate must be valid and its tile hold a piece,
   * and the coordinate must be in that piece's list; a pawn's cell must have
   * a 64-square index. The piece's key leaves the position key, the tile is
   * emptied, the piece's cost leaves its colour's material, the big / major /
   * minor counters drop (pawns: the bitboards lose the bit instead) and the
   * list entry is replaced by the last live one.
   */
  function ClearPieceS(k: HashKeys, p: Position, coord: TileCoord): (r: Option<Position>)
    requires Shaped(p) && KeysShape(k)
    ensures r.Some? <==> CanClear(p, coord)
    ensures r.Some? ==> Shaped(r.value)
    ensures r.Some? ==> (r.value.side == p.side && r.value.ep == p.ep && r.value.cp == p.cp
                         && r.value.fifty == p.fifty && r.value.kings == p.kings)
    ensures r.Some? ==> (0 <= coord.ToInt() < BoardSize && coord.IsValid() && !p.tiles[coord.ToInt()].IsEmpty()
                         && r.value.tiles == p.tiles[coord.ToInt() := p.tiles[coord.ToInt()].SetPiece(NoPiece)])
  {
    if CanClear(p, coord) then Some(AfterClear(k, p, coord)) else None
  }

  /** ClearPiece's checks: a valid coordinate on the board, a piece on it, a 64-square index for a pawn, and the coordinate listed. */
  predicate CanClear(p: Position, coord: TileCoord)
    requires Shaped(p)
  {
    var idx := coord.ToInt();
    && coord.IsValid() && idx < BoardSize
    && var piece := p.tiles[idx].GetPiece();
       && piece != NoPiece
       && (IsBigPiece(piece) || IsPlayable(idx))
       && FindCoord(p.lists[GetCode(piece)], coord) != -1
  }

  /** The position ClearPiece leaves once its checks pass. */
  function AfterClear(k: HashKeys, p: Position, coord: TileCoord): (r: Position)
    requires Shaped(p) && KeysShape(k) && CanClear(p, coord)
    ensures Shaped(r)
    ensures r.side == p.side && r.ep == p.ep && r.cp == p.cp && r.fifty == p.fifty && r.kings == p.kings
    ensures r.tiles == p.tiles[coord.ToInt() := p.tiles[coord.ToInt()].SetPiece(NoPiece)]
  {
    var idx := coord.ToInt();
    var piece := p.tiles[idx].GetPiece();
    var cc := GetColorCode(piece);
    var code := GetCode(piece);
    var t := FindCoord(p.lists[code], coord);
    p.(
      tiles := p.tiles[idx := p.tiles[idx].SetPiece(NoPiece)],
      hash := Xor(p.hash, k.pieceKeys[code][idx]),
      material := p.material[cc := p.material[cc] - GetCost(piece)],
      bigPieces := if IsBigPiece(piece) then p.bigPieces[cc := p.bigPieces[cc] - 1] else p.bigPieces,
      majorPieces := if IsBigPiece(piece) && IsMajorPiece(piece) then p.majorPieces[cc := p.majorPieces[cc] - 1] else p.majorPieces,
      minorPieces := if IsBigPiece(piece) && IsMinorPiece(piece) then p.minorPieces[cc := p.minorPieces[cc] - 1] else p.minorPieces,
      pawns := if IsBigPiece(piece) then p.pawns else ClearBits(p.pawns, cc, Sq64(idx)),
      lists := p.lists[code := RemoveAt(p.lists[code], t)])
  }

  /**
   * AddPiece(Coord, Piece): the coordinate must be valid and the piece real;
   * the piece's key joins the position key, the tile takes the piece, a
   * pawn's bit is set, the piece's code (as written, not its cost) is added
   * to its colour's material, and the coordinate is appended to the piece's
   * list, which must have a free slot.
   */
  function AddPieceS(k: HashKeys, p: Position, coord: TileCoord, piece: TileState): (r: Option<Position>)
    requires Shaped(p) && KeysShape(k)
    ensures r.Some? <==> CanAdd(p, coord, piece)
    ensures r.Some? ==> Shaped(r.value)
    ensures r.Some? ==> (r.value.side == p.side && r.value.ep == p.ep && r.value.cp == p.cp
                         && r.value.fifty == p.fifty && r.value.kings == p.kings)
    ensures r.Some? ==> (0 <= coord.ToInt() < BoardSize && coord.IsValid() && piece != NoPiece
                         && r.value.tiles == p.tiles[coord.ToInt() := p.tiles[coord.ToInt()].SetPiece(piece)])
  {
    if CanAdd(p, coord, piece) then Some(AfterAdd(k, p, coord, piece)) else None
  }

  /** AddPiece's checks: a valid coordinate on the board, a real piece, a 64-square index for a pawn, and a free list slot. */
  predicate CanAdd(p: Position, coord: TileCoord, piece: TileState)
    requires Shaped(p)
  {
    var idx := coord.ToInt();
    && coord.IsValid() && piece != NoPiece && idx < BoardSize
    && (IsBigPiece(piece) || IsPlayable(idx))
    && |p.lists[GetCode(piece)]| < Capacity
  }

  /** The position AddPiece leaves once its checks pass. */
  function AfterAdd(k: HashKeys, p: Position, coord: TileCoord, piece: TileState): (r: Position)
    requires Shaped(p) && KeysShape(k) && CanAdd(p, coord, piece)
    ensures Shaped(r)
    ensures r.side == p.side && r.ep == p.ep && r.cp == p.cp && r.fifty == p.fifty && r.kings == p.kings
    ensures r.tiles == p.tiles[coord.ToInt() := p.tiles[coord.ToInt()].SetPiece(piece)]
  {
    var idx := coord.ToInt();
    var cc := GetColorCode(piece);
    var code := GetCode(piece);
    p.(
      tiles := p.tiles[idx := p.tiles[idx].SetPiece(piece)],
      hash := Xor(p.hash, k.pieceKeys[code][idx]),
      pawns := if IsBigPiece(piece) then p.pawns else SetBits(p.pawns, cc, Sq64(idx)),
      material := p.material[cc := p.material[cc] + code],
      lists := p.lists[code := p.lists[code] + [coord]])
  }

  /**
   * MovePiece(From, To): both coordinates valid, a piece on From, From in its
   * list. The piece's key is toggled at From and at To, From is emptied and
   * To takes the piece (whatever stood there), a pawn's bit moves, and the
   * first list entry equal to From becomes To.
   */
  function MovePieceS(k: HashKeys, p: Position, from: TileCoord, to: TileCoord): (r: Option<Position>)
    requires Shaped(p) && KeysShape(k)
    ensures r.Some? <==> CanMove(p, from, to)
    ensures r.Some? ==> Shaped(r.value)
    ensures r.Some? ==> (r.value.side == p.side && r.value.ep == p.ep && r.value.cp == p.cp
                         && r.value.fifty == p.fifty && r.value.kings == p.kings)
    ensures r.Some? ==> (0 <= from.ToInt() < BoardSize && 0 <= to.ToInt() < BoardSize
                         && from.IsValid() && to.IsValid() && !p.tiles[from.ToInt()].IsEmpty()
                         && r.value.tiles == MovedTiles(p.tiles, from.ToInt(), to.ToInt()))
  {
    if CanMove(p, from, to) then Some(AfterMove(k, p, from, to)) else None
  }

  /** MovePiece's checks: both coordinates valid and on the board, a piece on From, 64-square indices for a pawn, and From listed. */
  predicate CanMove(p: Position, from: TileCoord, to: TileCoord)
    requires Shaped(p)
  {
    var fi := from.ToInt();
    var ti := to.ToInt();
    && from.IsValid() && to.IsValid() && fi < BoardSize && ti < BoardSize
    && var piece := p.tiles[fi].GetPiece();
       && piece != NoPiece
       && (IsBigPiece(piece) || (IsPlayable(fi) && IsPlayable(ti)))
       && FindCoord(p.lists[GetCode(piece)], from) != -1
  }

  /** The position MovePiece leaves once its checks pass. */
  function AfterMove(k: HashKeys, p: Position, from: TileCoord, to: TileCoord): (r: Position)
    requires Shaped(p) && KeysShape(k) && CanMove(p, from, to)
    ensures Shaped(r)
    ensures r.side == p.side && r.ep == p.ep && r.cp == p.cp && r.fifty == p.fifty && r.kings == p.kings
    ensures r.tiles == MovedTiles(p.tiles, from.ToInt(), to.ToInt())
  {
    var fi := from.ToInt();
    var ti := to.ToInt();
    var piece := p.tiles[fi].GetPiece();
    var cc := GetColorCode(piece);
    var code := GetCode(piece);
    var t := FindCoord(p.lists[code], from);
    p.(
      tiles := MovedTiles(p.tiles, fi, ti),
      hash := Xor(Xor(p.hash, k.pieceKeys[code][fi]), k.pieceKeys[code][ti]),
      pawns := if IsBigPiece(piece) then p.pawns else SetBits(ClearBits(p.pawns, cc, Sq64(fi)), cc, Sq64(ti)),
      lists := p.lists[code := p.lists[code][t := to]])
  }

  /** The board after MovePiece: From emptied, then To given From's piece. */
  function MovedTiles(ts: seq<ChessBoardTile>, fi: int, ti: int): (r: seq<ChessBoardTile>)
    requires 0 <= fi < |ts| && 0 <= ti < |ts|
    ensures |r| == |ts|
    ensures r[ti].GetPiece() == ts[fi].GetPiece()
    ensures fi != ti ==> r[fi].IsEmpty()
    ensures forall i :: 0 <= i < |ts| && i != fi && i != ti ==> r[i] == ts[i]
    ensures forall i :: 0 <= i < |ts| ==> r[i].coords == ts[i].coords && r[i].castlePermission == ts[i].castlePermission
  {
    var ts1 := ts[fi := ts[fi].SetPiece(NoPiece)];
    ts1[ti := ts1[ti].SetPiece(ts[fi].GetPiece())]
  }

  // ---------------------------------------------------------------- MakeMove

  /** What MakeMove leaves: the new position and whether the mover's king now stands attacked, or no defined state. */
  datatype MoveOutcome = Moved(pos: Position, kingAttacked: bool) | Aborted

  /** The rook relocation MakeMove makes for a castling king's target cell, as written. */
  function RookMove(target: int): (r: Option<(Byte, Byte)>)
    ensures r.Some? ==> IsPlayable(r.value.0) && IsPlayable(r.value.1)
  {
    if target == C1 then Some((A1, B1))
    else if target == C8 then Some((A8, D8))
    else if target == G1 then Some((H1, F1))
    else if target == G8 then Some((H8, H8))
    else None
  }

  /**
   * MakeMove's first step: an en-passant move clears the tile ten cells
   * from the mover's From cell (behind it for White, ahead for Black, as
   * written); a castling move moves the rook its target cell selects.
   */
  function SpecialStep(k: HashKeys, p: Position, m: ChessMove, fi: int, target: int): (r: Option<Position>)
    requires Shaped(p) && KeysShape(k) && 0 <= fi < BoardSize
    ensures r.Some? ==> Shaped(r.value)
    ensures r.Some? ==> (r.value.side == p.side && r.value.ep == p.ep && r.value.cp == p.cp
                         && r.value.fifty == p.fifty && r.value.kings == p.kings)
  {
    if m.IsEnPassantMove() then
      var v := EnPassantVictim(p.side, fi);
      if 0 <= v < BoardSize then ClearPieceS(k, p, p.tiles[v].GetPosition()) else None
    else if m.IsCastlingMove() then
      match RookMove(target)
      case None => None
      case Some(rm) => MovePieceS(k, p, FromCombined(rm.0), FromCombined(rm.1))
    else Some(p)
  }

  /** The cell MakeMove clears for an en-passant move: From - 10 for White, From + 10 otherwise. */
  function EnPassantVictim(side: PieceColor, fi: int): int {
    if side == White then fi - 10 else fi + 10
  }

  /**
   * The castling and en-passant bookkeeping: the old en-passant key and the
   * old castle key leave the position key, the castling permission is masked
   * by the From and To tiles' masks, the en-passant tile is reset and the new
   * castle key joins the position key.
   */
  function RightsStep(k: HashKeys, p: Position, fromMask: int, toMask: int): (r: Position)
    requires Shaped(p) && KeysShape(k) && IsCastleSet(fromMask) && IsCastleSet(toMask)
    ensures Shaped(r)
  {
    var cp := CastleAnd(CastleAnd(p.cp, fromMask), toMask);
    p.(cp := cp, ep := None,
       hash := Xor(Xor(Xor(p.hash, EpKey(k, p.ep)), k.castleKeys[p.cp]), k.castleKeys[cp]))
  }

  /** A capture step that takes a piece is ClearPiece on the stepped counter, then the counter reset. */
  lemma CaptureClears(k: HashKeys, p: Position, m: ChessMove, to: TileCoord)
    requires Shaped(p) && KeysShape(k) && CaptureStep(k, p, m, to).Some?
    requires GetPieceFromCode(m.GetCapturedPiece()) != NoPiece
    ensures CanClear(p.(fifty := p.fifty + 1), to)
    ensures CaptureStep(k, p, m, to).value == AfterClear(k, p.(fifty := p.fifty + 1), to).(fifty := 0)
  {
  }

  /** The fifty-move counter steps; a packed captured piece is cleared from the To tile and resets it. */
  function CaptureStep(k: HashKeys, p: Position, m: ChessMove, to: TileCoord): (r: Option<Position>)
    requires Shaped(p) && KeysShape(k)
    ensures r.Some? ==> Shaped(r.value)
    ensures r.Some? ==> (r.value.side == p.side && r.value.ep == p.ep && r.value.cp == p.cp && r.value.kings == p.kings)
    ensures r.Some? && GetPieceFromCode(m.GetCapturedPiece()) != NoPiece ==> r.value.fifty == 0
    ensures r.Some? && GetPieceFromCode(m.GetCapturedPiece()) == NoPiece ==> r.value.fifty == p.fifty + 1
  {
    var p1 := p.(fifty := p.fifty + 1);
    if GetPieceFromCode(m.GetCapturedPiece()) == NoPiece then Some(p1)
    else
      match ClearPieceS(k, p1, to)
      case None => None
      case Some(p2) => Some(p2.(fifty := 0))
  }

  /**
   * A pawn move resets the fifty-move counter; a pawn-start move also sets
   * the en-passant tile to the cell the pawn passes over (From + 10 for
   * White, From - 10 otherwise) and adds its key.
   */
  function PawnStep(k: HashKeys, p: Position, m: ChessMove, piece: TileState, from: TileCoord): (r: Option<Position>)
    requires Shaped(p) && KeysShape(k)
    ensures r.Some? ==> Shaped(r.value)
    ensures r.Some? ==> (r.value.side == p.side && r.value.cp == p.cp && r.value.kings == p.kings && r.value.tiles == p.tiles
                         && r.value.lists == p.lists)
    ensures r.Some? && IsA(piece, Pawn) ==> r.value.fifty == 0
    ensures r.Some? && !IsA(piece, Pawn) ==> r.value.fifty == p.fifty
    ensures r.Some? && IsA(piece, Pawn) && m.IsPawnStartMove() ==> r.value.ep == Some(PassedCell(p.side, from.ToInt()))
    ensures r.Some? && !(IsA(piece, Pawn) && m.IsPawnStartMove()) ==> r.value.ep == p.ep
  {
    if !IsA(piece, Pawn) then Some(p)
    else if !m.IsPawnStartMove() then Some(p.(fifty := 0))
    else
      var e := PassedCell(p.side, from.ToInt());
      if 0 <= e < BoardSize then Some(p.(fifty := 0, ep := Some(e), hash := Xor(p.hash, k.pieceKeys[0][e])))
      else None
  }

  /** The cell a pawn-start move passes over: From + 10 for White, From - 10 otherwise. */
  function PassedCell(side: PieceColor, fi: int): int {
    if side == White then fi + 10 else fi - 10
  }

  /** A packed promoted piece replaces what stands on the To tile. */
  function PromoteStep(k: HashKeys, p: Position, m: ChessMove, to: TileCoord): (r: Option<Position>)
    requires Shaped(p) && KeysShape(k)
    ensures r.Some? ==> Shaped(r.value)
    ensures r.Some? ==> (r.value.side == p.side && r.value.ep == p.ep && r.value.cp == p.cp
                         && r.value.fifty == p.fifty && r.value.kings == p.kings)
  {
    var promoted := GetPieceFromCode(m.GetPromotedPiece());
    if promoted == NoPiece then Some(p)
    else
      match ClearPieceS(k, p, to)
      case None => None
      case Some(p1) => AddPieceS(k, p1, to, promoted)
  }

  /**
   * MakeMove. The From and To tiles are read (the move's indices must name
   * cells of the board and From must hold a piece), the special step and the
   * rights step run, and CompleteMove does the rest. The result is whether
   * the mover's king stands attacked by the new side to move.
   */
  function MakeMoveS(k: HashKeys, p: Position, m: ChessMove): (r: MoveOutcome)
    requires Shaped(p) && KeysShape(k)
    ensures r.Moved? ==> Shaped(r.pos)
  {
    var fi := m.GetFromTileIndex();
    var ti := m.GetToTileIndex();
    if fi >= BoardSize || ti >= BoardSize then Aborted
    else
      var from := p.tiles[fi];
      var to := p.tiles[ti];
      if from.GetPiece() == NoPiece || (p.side != White && p.side != Black) then Aborted
      else
        match SpecialStep(k, p, m, fi, to.GetPosition().coordinate)
        case None => Aborted
        case Some(p1) => CompleteMove(k, RightsStep(k, p1, from.castlePermission, to.castlePermission), m, from, to)
  }

  /** The capture step, the pawn step and the piece's own move, then FinishMove. */
  function CompleteMove(k: HashKeys, p: Position, m: ChessMove, from: ChessBoardTile, to: ChessBoardTile): (r: MoveOutcome)
    requires Shaped(p) && KeysShape(k) && (p.side == White || p.side == Black)
    ensures r.Moved? ==> Shaped(r.pos)
  {
    match CaptureStep(k, p, m, to.GetPosition())
    case None => Aborted
    case Some(p3) =>
      match PawnStep(k, p3, m, from.GetPiece(), from.GetPosition())
      case None => Aborted
      case Some(p4) =>
        match MovePieceS(k, p4, from.GetPosition(), to.GetPosition())
        case None => Aborted
        case Some(p5) => FinishMove(k, p5, m, from.GetPiece(), to.GetPosition())
  }

  /**
   * The promotion step; a king move records the king's new cell; the side
   * flips and the side key is toggled; the mover's king (which must have a
   * real file and rank) is tested for attack by the new side to move.
   */
  function FinishMove(k: HashKeys, p: Position, m: ChessMove, piece: TileState, to: TileCoord): (r: MoveOutcome)
    requires Shaped(p) && KeysShape(k) && (p.side == White || p.side == Black)
    ensures r.Moved? ==> Shaped(r.pos)
  {
    match PromoteStep(k, p, m, to)
    case None => Aborted
    case Some(p6) =>
      match HandOver(k, p6, piece, to)
      case None => Aborted
      case Some(p8) =>
        var king := p8.kings[ColorCode(p.side)];
        Moved(p8, Attacked(p8.tiles, GetTileIndexAt(king.file, king.rank), p8.side))
  }

  /**
   * The end of MakeMove: a king move records the king's new cell, and the
   * side flips and the side key is toggled. The mover's king must have a
   * real file and rank, for the attack test that follows.
   */
  function HandOver(k: HashKeys, p: Position, piece: TileState, to: TileCoord): (r: Option<Position>)
    requires Shaped(p) && KeysShape(k) && (p.side == White || p.side == Black)
    ensures r.Some? ==> Shaped(r.value) && r.value.side == Opponent(p.side) && r.value.tiles == p.tiles
    ensures r.Some? ==> IsReal(r.value.kings[ColorCode(p.side)].file) && IsReal(r.value.kings[ColorCode(p.side)].rank)
  {
    var sc := ColorCode(p.side);
    var p7 := if IsA(piece, King) then p.(kings := p.kings[sc := to]) else p;
    var p8 := p7.(side := Opponent(p.side), hash := Xor(p7.hash, k.sideKey));
    var king := p8.kings[sc];
    if !IsReal(king.file) || !IsReal(king.rank) then None else Some(p8)
  }

  // ---------------------------------------------------------------- UpdateListsMaterial

  /**
   * UpdateListsMaterial's work on cell i: an on-board tile holding a piece
   * bumps its colour's big / major / minor counters and adds the piece's
   * cost to the colour's material, appends the tile's coordinate to the
   * piece's list (which must have a free slot) and, for a king, records the
   * king's coordinate.
   */
  function TallyTile(p: Position, ts: seq<ChessBoardTile>, i: int): (r: Option<Position>)
    requires Shaped(p) && SaneTiles(ts) && 0 <= i < BoardSize
    ensures r.Some? ==> Shaped(r.value) && r.value.tiles == p.tiles
  {
    var t := ts[i];
    if !(t.IsOnBoard() && !t.IsEmpty()) then Some(p)
    else
      var piece := t.GetPiece();
      var cc := GetColorCode(piece);
      var code := GetCode(piece);
      var idx := t.GetPosition().ToInt();
      assert idx == i;
      if |p.lists[code]| == Capacity then None
      else
        Some(p.(
          bigPieces := if IsBigPiece(piece) then p.bigPieces[cc := p.bigPieces[cc] + 1] else p.bigPieces,
          majorPieces := if IsMajorPiece(piece) then p.majorPieces[cc := p.majorPieces[cc] + 1] else p.majorPieces,
          minorPieces := if IsMinorPiece(piece) then p.minorPieces[cc := p.minorPieces[cc] + 1] else p.minorPieces,
          material := p.material[cc := p.material[cc] + GetCost(piece)],
          lists := p.lists[code := p.lists[code] + [t.GetPosition()]],
          kings := if piece == WhiteKing || piece == BlackKing then p.kings[cc := ts[idx].GetPosition()] else p.kings))
  }

  /** UpdateListsMaterial over cells 0 .. n-1 of ts. */
  function TallyTiles(p: Position, ts: seq<ChessBoardTile>, n: nat): (r: Option<Position>)
    requires Shaped(p) && SaneTiles(ts) && n <= BoardSize
    ensures r.Some? ==> Shaped(r.value) && r.value.tiles == p.tiles
  {
    if n == 0 then Some(p)
    else
      match TallyTiles(p, ts, n - 1)
      case None => None
      case Some(q) => TallyTile(q, ts, n - 1)
  }

  /** A tally that runs to cell n has run through every earlier cell, and the next cell's step has room. */
  lemma {:induction false} TallyPrefix(p: Position, ts: seq<ChessBoardTile>, m: nat, n: nat)
    requires Shaped(p) && SaneTiles(ts) && m < n <= BoardSize && TallyTiles(p, ts, n).Some?
    ensures TallyTiles(p, ts, m).Some? && TallyTile(TallyTiles(p, ts, m).value, ts, m).Some?
    decreases n
  {
    TallyShrinks(p, ts, n - 1);
    if m + 1 < n {
      TallyPrefix(p, ts, m, n - 1);
    }
  }

  /** A tally that runs through cell n has run to it, and had room at it. */
  lemma TallyShrinks(p: Position, ts: seq<ChessBoardTile>, n: nat)
    requires Shaped(p) && SaneTiles(ts) && n < BoardSize && TallyTiles(p, ts, n + 1).Some?
    ensures TallyTiles(p, ts, n).Some? && TallyTile(TallyTiles(p, ts, n).value, ts, n).Some?
  {
  }

  // ---------------------------------------------------------------- ResetBoard

  /** ResetBoard's tile loops: every cell reset (empty, coordinate cleared), keeping its castle mask. */
  function ResetTiles(ts: seq<ChessBoardTile>): (r: seq<ChessBoardTile>)
    ensures |r| == |ts| && AllEmpty(r)
    ensures forall i :: 0 <= i < |ts| ==> r[i].castlePermission == ts[i].castlePermission && r[i].coords == DefaultCoord()
  {
    seq(|ts|, i requires 0 <= i < |ts| => ts[i].Reset())
  }

  /**
   * ResetBoard: the tiles reset, the thirteen piece lists emptied, the pawn
   * bitboards, counters and material zeroed, both kings at the default
   * coordinate, no side to move (Both), no en-passant tile, the fifty-move
   * counter, the castling permission and the position key zero.
   */
  function ResetPosition(p: Position): (r: Position)
  {
    Position(ResetTiles(p.tiles), seq(PieceCodes, _ => []), [0, 0, 0], [DefaultCoord(), DefaultCoord()],
      [0, 0, 0], [0, 0, 0], [0, 0, 0], [0, 0, 0], Both, None, 0, 0, 0)
  }

  /** A reset position is well formed, empty, lists nothing, and has nobody to move. */
  lemma ResetShaped(p: Position)
    requires Shaped(p)
    ensures Shaped(ResetPosition(p)) && AllEmpty(ResetPosition(p).tiles)
    ensures forall c :: 0 <= c < PieceCodes ==> ResetPosition(p).lists[c] == []
    ensures ResetPosition(p).side == Both && ResetPosition(p).ep.None? && ResetPosition(p).cp == 0
  {
    var r := ResetPosition(p);
    forall i | 0 <= i < BoardSize
      ensures r.tiles[i].castlePermission == CastleMask(i) && !r.tiles[i].IsOnBoard() && r.tiles[i].coords.coordinate < 128
    {
    }
  }

  /** The reset tiles of any board carrying the constructor's castle masks are the constructor's board. */
  lemma ResetIsInitialBoard(ts: seq<ChessBoardTile>)
    requires MasksIntact(ts)
    ensures ResetTiles(ts) == InitialBoard()
  {
    forall i | 0 <= i < BoardSize
      ensures ResetTiles(ts)[i] == InitialBoard()[i]
    {
      assert InitialBoard()[i] == InitialTile(i);
    }
  }

  /**
   * ResetBoard forgets the position: two well-formed positions reset to the
   * same one, so resetting twice is resetting once.
   */
  lemma ResetForgets(p: Position, q: Position)
    requires Shaped(p) && Shaped(q)
    ensures ResetPosition(p) == ResetPosition(q)
    ensures ResetPosition(ResetPosition(p)) == ResetPosition(p)
  {
    ResetIsInitialBoard(p.tiles);
    ResetIsInitialBoard(q.tiles);
    ResetShaped(p);
    ResetIsInitialBoard(ResetPosition(p).tiles);
  }
}
