/*
 * The attack query of the position engine as a function of the board: is a
 * square attacked by a pawn, knight, rook or queen along a file or rank,
 * bishop or queen along a diagonal, or king of the given side?
 */
module Attack {
  import opened Wrappers
  import opened TileCoordinate
  import opened ChessDefinitions
  import opened ChessBoardTile
  import opened Board

  /** The first piece met walking from cell pos in steps of d, or None when an off-board cell comes first. */
  function RayFirst(ts: seq<ChessBoardTile>, pos: int, d: int): (r: Option<TileState>)
    requires CellsIndexed(ts) && 0 <= pos < BoardSize && d in KingDirections
    ensures r.Some? ==> r.value != NoPiece
    decreases if d > 0 then BoardSize - pos else pos
  {
    if !ts[pos].IsOnBoard() then None
    else if !ts[pos].IsEmpty() then Some(ts[pos].GetPiece())
    else RayFirst(ts, pos + d, d)
  }

  /** A piece of the given role family and colour. */
  predicate IsAttacker(p: TileState, roles: set<PieceRole>, side: PieceColor) {
    (exists role :: role in roles && IsA(p, role)) && GetColor(p) == side
  }

  /** A pawn of the moving side stands diagonally behind the square (from that side's view). */
  predicate PawnAttacks(ts: seq<ChessBoardTile>, idx: int, side: PieceColor)
    requires |ts| == BoardSize && IsPlayable(idx)
  {
    if side == White then PieceAt(ts, idx - 11) == WhitePawn || PieceAt(ts, idx - 9) == WhitePawn
    else PieceAt(ts, idx + 11) == BlackPawn || PieceAt(ts, idx + 9) == BlackPawn
  }

  /** Some offset of dirs lands on an attacker of the given roles. */
  predicate StepAttacks(ts: seq<ChessBoardTile>, idx: int, side: PieceColor, dirs: seq<int>, roles: set<PieceRole>)
    requires |ts| == BoardSize && IsPlayable(idx)
    requires forall k :: 0 <= k < |dirs| ==> -21 <= dirs[k] <= 21
  {
    exists k :: 0 <= k < |dirs| && IsAttacker(PieceAt(ts, idx + dirs[k]), roles, side)
  }

  /** Along some ray of dirs the first piece met is an attacker of the given roles. */
  predicate RayAttacks(ts: seq<ChessBoardTile>, idx: int, side: PieceColor, dirs: seq<int>, roles: set<PieceRole>)
    requires SaneTiles(ts) && IsPlayable(idx)
    requires forall d :: d in dirs ==> d in KingDirections
  {
    exists k :: 0 <= k < |dirs| && RayHits(ts, idx, dirs[k], roles, side)
  }

  predicate RayHits(ts: seq<ChessBoardTile>, idx: int, d: int, roles: set<PieceRole>, side: PieceColor)
    requires SaneTiles(ts) && IsPlayable(idx) && d in KingDirections
  {
    var r := RayFirst(ts, idx + d, d);
    r.Some? && IsAttacker(r.value, roles, side)
  }

  /** IsTileAttacked as a function of the board: the five tests in the order the engine makes them. */
  predicate Attacked(ts: seq<ChessBoardTile>, idx: int, side: PieceColor)
    requires SaneTiles(ts) && IsPlayable(idx)
  {
    || PawnAttacks(ts, idx, side)
    || StepAttacks(ts, idx, side, KnightDirections, {Knight})
    || RayAttacks(ts, idx, side, RookDirections, {Rook, Queen})
    || RayAttacks(ts, idx, side, BishopDirections, {Bishop, Queen})
    || StepAttacks(ts, idx, side, KingDirections, {King})
  }

  /** Cell pos + j*d for j = 0, 1, 2, ..., reached one step of d at a time. */
  function Step(pos: int, d: int, j: nat): int
    decreases j
  {
    if j == 0 then pos else Step(pos + d, d, j - 1)
  }

  /** The k cells pos, pos+d, ..., pos+(k-1)*d are all inside the array, on the board and empty. */
  predicate ClearRun(ts: seq<ChessBoardTile>, pos: int, d: int, k: nat)
    requires |ts| == BoardSize
    decreases k
  {
    k == 0 || (0 <= pos < BoardSize && ts[pos].IsOnBoard() && ts[pos].IsEmpty() && ClearRun(ts, pos + d, d, k - 1))
  }

  /** Cell Step(pos, d, k) holds the on-board piece q. */
  predicate HoldsAt(ts: seq<ChessBoardTile>, pos: int, d: int, k: nat, q: TileState)
    requires |ts| == BoardSize
  {
    0 <= Step(pos, d, k) < BoardSize && ts[Step(pos, d, k)].IsOnBoard() && ts[Step(pos, d, k)].GetPiece() == q
  }

  lemma StepShift(pos: int, d: int, k: nat)
    ensures Step(pos, d, k + 1) == Step(pos + d, d, k)
    ensures Step(pos, d, 0) == pos
  {
  }

  /** When the ray walk finds q, q stands k cells along the ray and every cell before it is on the board and empty. */
  lemma {:induction false} RayFirstSound(ts: seq<ChessBoardTile>, pos: int, d: int, q: TileState) returns (k: nat)
    requires SaneTiles(ts) && 0 <= pos < BoardSize && d in KingDirections
    requires RayFirst(ts, pos, d) == Some(q)
    ensures ClearRun(ts, pos, d, k) && HoldsAt(ts, pos, d, k, q)
    decreases if d > 0 then BoardSize - pos else pos
  {
    StepShift(pos, d, 0);
    if ts[pos].IsEmpty() {
      var k' := RayFirstSound(ts, pos + d, d, q);
      StepShift(pos, d, k');
      k := k' + 1;
    } else {
      k := 0;
    }
  }

  /** Conversely, a clear run of k cells followed by q makes the ray walk find q. */
  lemma {:induction false} RayFirstComplete(ts: seq<ChessBoardTile>, pos: int, d: int, q: TileState, k: nat)
    requires SaneTiles(ts) && 0 <= pos < BoardSize && d in KingDirections && q != NoPiece
    requires ClearRun(ts, pos, d, k) && HoldsAt(ts, pos, d, k, q)
    ensures RayFirst(ts, pos, d) == Some(q)
    decreases k
  {
    StepShift(pos, d, 0);
    if k > 0 {
      StepShift(pos, d, k - 1);
      RayFirstComplete(ts, pos + d, d, q, k - 1);
    }
  }

  /** Every cell a ray walk from a playable square reads lies inside the 120-cell array. */
  lemma {:induction false} RayStaysInBounds(ts: seq<ChessBoardTile>, pos: int, d: int, k: nat)
    requires SaneTiles(ts) && 0 <= pos < BoardSize && d in KingDirections
    requires ClearRun(ts, pos, d, k)
    ensures 0 <= Step(pos, d, k) < BoardSize
    decreases k
  {
    StepShift(pos, d, 0);
    if k > 0 {
      StepShift(pos, d, k - 1);
      RayStaysInBounds(ts, pos + d, d, k - 1);
    }
  }

  /** An empty board attacks nothing. */
  lemma EmptyBoardIsQuiet(ts: seq<ChessBoardTile>, idx: int, side: PieceColor)
    requires SaneTiles(ts) && IsPlayable(idx)
    requires forall i :: 0 <= i < BoardSize ==> ts[i].IsEmpty()
    ensures !Attacked(ts, idx, side)
  {
    assert !PawnAttacks(ts, idx, side);
    assert !StepAttacks(ts, idx, side, KnightDirections, {Knight});
    assert !StepAttacks(ts, idx, side, KingDirections, {King});
    EmptyBoardNoRay(ts, idx, side, RookDirections, {Rook, Queen});
    EmptyBoardNoRay(ts, idx, side, BishopDirections, {Bishop, Queen});
  }

  /** On an empty board no ray of dirs meets any piece. */
  lemma EmptyBoardNoRay(ts: seq<ChessBoardTile>, idx: int, side: PieceColor, dirs: seq<int>, roles: set<PieceRole>)
    requires SaneTiles(ts) && IsPlayable(idx)
    requires forall d :: d in dirs ==> d in KingDirections
    requires forall i :: 0 <= i < BoardSize ==> ts[i].IsEmpty()
    ensures !RayAttacks(ts, idx, side, dirs, roles)
  {
    forall k | 0 <= k < |dirs|
      ensures !RayHits(ts, idx, dirs[k], roles, side)
    {
      assert dirs[k] in dirs;
      RayEmpty(ts, idx + dirs[k], dirs[k]);
    }
  }

  lemma {:induction false} RayEmpty(ts: seq<ChessBoardTile>, pos: int, d: int)
    requires SaneTiles(ts) && 0 <= pos < BoardSize && d in KingDirections
    requires forall i :: 0 <= i < BoardSize ==> ts[i].IsEmpty()
    ensures RayFirst(ts, pos, d) == None
    decreases if d > 0 then BoardSize - pos else pos
  {
    if ts[pos].IsOnBoard() {
      RayEmpty(ts, pos + d, d);
    }
  }
}
