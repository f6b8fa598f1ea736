/*
 * The engine's redundant state agrees with its board: the piece lists list
 * exactly the on-board pieces, and the position key is the XOR of the keys
 * of what stands on the board, the side, the en-passant tile and the
 * castling permission. ClearPiece, AddPiece, MovePiece and MakeMove keep
 * this agreement whenever the board they start from is complete and the
 * move lands on an empty cell unless it captures.
 */
module Consistency {
  import opened Wrappers
  import opened TileCoordinate
  import opened ChessDefinitions
  import opened ChessMove
  import opened ChessBoardTile
  import opened Board
  import opened Hash
  import opened Position

  // ---------------------------------------------------------------- the piece lists

  /** ClearPiece's board and list update keeps the lists matching the board. */
  lemma ClearKeepsLists(ts: seq<ChessBoardTile>, lists: seq<seq<TileCoord>>, idx: int, t: int)
    requires SaneTiles(ts) && |lists| == PieceCodes && ListsMatch(ts, lists)
    requires 0 <= idx < BoardSize && !ts[idx].IsEmpty()
    requires 0 <= t < |lists[GetCode(ts[idx].GetPiece())]| && lists[GetCode(ts[idx].GetPiece())][t].coordinate == idx
    ensures ListsMatch(ts[idx := ts[idx].SetPiece(NoPiece)],
                       lists[GetCode(ts[idx].GetPiece()) := RemoveAt(lists[GetCode(ts[idx].GetPiece())], t)])
  {
    var code := GetCode(ts[idx].GetPiece());
    var us := ts[idx := ts[idx].SetPiece(NoPiece)];
    var l := lists[code];
    var ms := lists[code := RemoveAt(l, t)];
    var last := |l| - 1;
    forall c, j | 0 <= c < PieceCodes && 0 <= j < |ms[c]|
      ensures EntryOk(us, c, ms[c][j])
    {
      if c == code {
        var j0 := if j == t then last else j;
        assert ms[c][j] == l[j0];
        assert l[j0].coordinate != idx by {
          assert j0 != t;
          assert Distinct(l);
          if j0 < t {
            assert l[j0].coordinate != l[t].coordinate;
          } else {
            assert l[t].coordinate != l[j0].coordinate;
          }
        }
        assert EntryOk(ts, c, l[j0]);
      } else {
        assert ms[c][j] == lists[c][j];
        assert EntryOk(ts, c, lists[c][j]);
      }
    }
    forall c | 0 <= c < PieceCodes
      ensures Distinct(ms[c])
    {
      if c == code {
        DistinctAfterRemove(l, t);
      }
    }
    forall i | 0 <= i < BoardSize && IsPlayable(i) && us[i].IsOnBoard() && !us[i].IsEmpty()
      ensures CoordAt(i) in ms[GetCode(us[i].GetPiece())]
    {
      assert i != idx && us[i] == ts[i];
      var c := GetCode(ts[i].GetPiece());
      assert CoordAt(i) in lists[c];
      if c == code {
        var j :| 0 <= j < |l| && l[j] == CoordAt(i);
        assert j != t;
        if j == last {
          assert ms[c][t] == CoordAt(i);
        } else {
          assert ms[c][j] == CoordAt(i);
        }
      }
    }
  }

  /** Filling a hole from the last slot keeps a list free of repeats. */
  lemma DistinctAfterRemove(l: seq<TileCoord>, t: int)
    requires 0 <= t < |l| && Distinct(l)
    ensures Distinct(RemoveAt(l, t))
  {
    var r := RemoveAt(l, t);
    var last := |l| - 1;
    forall j, k | 0 <= j < k < |r|
      ensures r[j].coordinate != r[k].coordinate
    {
      var j0 := if j == t then last else j;
      var k0 := if k == t then last else k;
      assert r[j] == l[j0] && r[k] == l[k0];
      assert j0 != k0;
      if j0 < k0 {
        assert l[j0].coordinate != l[k0].coordinate;
      } else {
        assert l[k0].coordinate != l[j0].coordinate;
      }
    }
  }

  /** AddPiece's board and list update on an empty on-board cell keeps the lists matching the board. */
  lemma AddKeepsLists(ts: seq<ChessBoardTile>, lists: seq<seq<TileCoord>>, idx: int, piece: TileState)
    requires SaneTiles(ts) && |lists| == PieceCodes && ListsMatch(ts, lists)
    requires 0 <= idx < BoardSize && ts[idx].IsOnBoard() && ts[idx].IsEmpty() && piece != NoPiece
    ensures IsPlayable(idx)
    ensures ListsMatch(ts[idx := ts[idx].SetPiece(piece)], lists[GetCode(piece) := lists[GetCode(piece)] + [CoordAt(idx)]])
  {
    var code := GetCode(piece);
    var us := ts[idx := ts[idx].SetPiece(piece)];
    var l := lists[code];
    var ms := lists[code := l + [CoordAt(idx)]];
    forall c, j | 0 <= c < PieceCodes && 0 <= j < |ms[c]|
      ensures EntryOk(us, c, ms[c][j])
    {
      if c != code || j < |l| {
        assert ms[c][j] == lists[c][j];
        assert EntryOk(ts, c, lists[c][j]);
        assert c != 0;
        assert lists[c][j].coordinate != idx;
      }
    }
    forall c | 0 <= c < PieceCodes
      ensures Distinct(ms[c])
    {
      if c == code {
        forall j, k | 0 <= j < k < |ms[c]|
          ensures ms[c][j].coordinate != ms[c][k].coordinate
        {
          if k == |l| {
            assert EntryOk(ts, c, l[j]);
          } else {
            assert Distinct(l);
          }
        }
      }
    }
    forall i | 0 <= i < BoardSize && IsPlayable(i) && us[i].IsOnBoard() && !us[i].IsEmpty()
      ensures CoordAt(i) in ms[GetCode(us[i].GetPiece())]
    {
      if i == idx {
        assert ms[code][|l|] == CoordAt(idx);
      } else {
        assert us[i] == ts[i];
        var c := GetCode(ts[i].GetPiece());
        assert CoordAt(i) in lists[c];
        if c == code {
          var j :| 0 <= j < |l| && l[j] == CoordAt(i);
          assert ms[c][j] == CoordAt(i);
        }
      }
    }
  }

  /**
   * MovePiece's board and list update, from a listed cell to an empty
   * on-board cell (or to itself), keeps the lists matching the board.
   */
  lemma MoveKeepsLists(ts: seq<ChessBoardTile>, lists: seq<seq<TileCoord>>, fi: int, ti: int, t: int)
    requires SaneTiles(ts) && |lists| == PieceCodes && ListsMatch(ts, lists)
    requires 0 <= fi < BoardSize && 0 <= ti < BoardSize && !ts[fi].IsEmpty()
    requires ts[ti].IsOnBoard() && (ti == fi || ts[ti].IsEmpty())
    requires 0 <= t < |lists[GetCode(ts[fi].GetPiece())]| && lists[GetCode(ts[fi].GetPiece())][t].coordinate == fi
    ensures IsPlayable(ti)
    ensures ListsMatch(MovedTiles(ts, fi, ti),
                       lists[GetCode(ts[fi].GetPiece()) := lists[GetCode(ts[fi].GetPiece())][t := CoordAt(ti)]])
  {
    MovedEntries(ts, lists, fi, ti, t);
    MovedDistinct(ts, lists, fi, ti, t);
    MovedComplete(ts, lists, fi, ti, t);
  }

  /** After a move every list entry still names a cell holding its code. */
  lemma MovedEntries(ts: seq<ChessBoardTile>, lists: seq<seq<TileCoord>>, fi: int, ti: int, t: int)
    requires SaneTiles(ts) && |lists| == PieceCodes && ListsMatch(ts, lists)
    requires 0 <= fi < BoardSize && 0 <= ti < BoardSize && !ts[fi].IsEmpty()
    requires ts[ti].IsOnBoard() && (ti == fi || ts[ti].IsEmpty())
    requires 0 <= t < |lists[GetCode(ts[fi].GetPiece())]| && lists[GetCode(ts[fi].GetPiece())][t].coordinate == fi
    ensures IsPlayable(ti)
    ensures var ms := lists[GetCode(ts[fi].GetPiece()) := lists[GetCode(ts[fi].GetPiece())][t := CoordAt(ti)]];
      forall c, j :: 0 <= c < PieceCodes && 0 <= j < |ms[c]| ==> EntryOk(MovedTiles(ts, fi, ti), c, ms[c][j])
  {
    var code := GetCode(ts[fi].GetPiece());
    var us := MovedTiles(ts, fi, ti);
    var l := lists[code];
    var ms := lists[code := l[t := CoordAt(ti)]];
    assert EntryOk(ts, code, l[t]);
    forall c, j | 0 <= c < PieceCodes && 0 <= j < |ms[c]|
      ensures EntryOk(us, c, ms[c][j])
    {
      if c == code && j == t {
        assert ms[c][j] == CoordAt(ti);
      } else {
        assert ms[c][j] == lists[c][j];
        assert EntryOk(ts, c, lists[c][j]);
        assert c != 0;
        var x := lists[c][j].coordinate;
        assert x != ti || ti == fi;
        assert x != fi by {
          if c == code {
            assert Distinct(l);
            if j < t {
              assert l[j].coordinate != l[t].coordinate;
            } else {
              assert l[t].coordinate != l[j].coordinate;
            }
          }
        }
      }
    }
  }

  /** After a move no list repeats a coordinate. */
  lemma MovedDistinct(ts: seq<ChessBoardTile>, lists: seq<seq<TileCoord>>, fi: int, ti: int, t: int)
    requires SaneTiles(ts) && |lists| == PieceCodes && ListsMatch(ts, lists)
    requires 0 <= fi < BoardSize && 0 <= ti < BoardSize && !ts[fi].IsEmpty()
    requires ts[ti].IsOnBoard() && (ti == fi || ts[ti].IsEmpty())
    requires 0 <= t < |lists[GetCode(ts[fi].GetPiece())]| && lists[GetCode(ts[fi].GetPiece())][t].coordinate == fi
    ensures var ms := lists[GetCode(ts[fi].GetPiece()) := lists[GetCode(ts[fi].GetPiece())][t := CoordAt(ti)]];
      forall c :: 0 <= c < PieceCodes ==> Distinct(ms[c])
  {
    var code := GetCode(ts[fi].GetPiece());
    var l := lists[code];
    var ms := lists[code := l[t := CoordAt(ti)]];
    forall c | 0 <= c < PieceCodes
      ensures Distinct(ms[c])
    {
      if c == code {
        forall j, k | 0 <= j < k < |ms[c]|
          ensures ms[c][j].coordinate != ms[c][k].coordinate
        {
          assert Distinct(l);
          if j == t {
            assert EntryOk(ts, c, l[k]);
            assert l[t].coordinate != l[k].coordinate;
          } else if k == t {
            assert EntryOk(ts, c, l[j]);
            assert l[j].coordinate != l[t].coordinate;
          }
        }
      }
    }
  }

  /** After a move every on-board piece is still listed under its code. */
  lemma MovedComplete(ts: seq<ChessBoardTile>, lists: seq<seq<TileCoord>>, fi: int, ti: int, t: int)
    requires SaneTiles(ts) && |lists| == PieceCodes && ListsMatch(ts, lists)
    requires 0 <= fi < BoardSize && 0 <= ti < BoardSize && !ts[fi].IsEmpty()
    requires ts[ti].IsOnBoard() && (ti == fi || ts[ti].IsEmpty())
    requires 0 <= t < |lists[GetCode(ts[fi].GetPiece())]| && lists[GetCode(ts[fi].GetPiece())][t].coordinate == fi
    ensures var us := MovedTiles(ts, fi, ti); var ms := lists[GetCode(ts[fi].GetPiece()) := lists[GetCode(ts[fi].GetPiece())][t := CoordAt(ti)]];
      forall i :: 0 <= i < BoardSize && IsPlayable(i) && us[i].IsOnBoard() && !us[i].IsEmpty() ==>
        CoordAt(i) in ms[GetCode(us[i].GetPiece())]
  {
    var code := GetCode(ts[fi].GetPiece());
    var us := MovedTiles(ts, fi, ti);
    var l := lists[code];
    var ms := lists[code := l[t := CoordAt(ti)]];
    assert EntryOk(ts, code, l[t]);
    forall i | 0 <= i < BoardSize && IsPlayable(i) && us[i].IsOnBoard() && !us[i].IsEmpty()
      ensures CoordAt(i) in ms[GetCode(us[i].GetPiece())]
    {
      if i == ti {
        assert ms[code][t] == CoordAt(ti);
      } else {
        assert i != fi && us[i] == ts[i];
        var c := GetCode(ts[i].GetPiece());
        assert CoordAt(i) in lists[c];
        if c == code {
          var j :| 0 <= j < |l| && l[j] == CoordAt(i);
          assert j != t;
          assert ms[c][j] == CoordAt(i);
        }
      }
    }
  }

  // ---------------------------------------------------------------- board, lists and key together

  /** The position key is the tile part of the key XOR-ed with rest. */
  predicate HashSplit(k: HashKeys, p: Position, rest: bv64)
    requires KeysShape(k) && |p.tiles| == BoardSize
  {
    p.hash == Xor(TilesHash(k, p.tiles, BoardSize), rest)
  }

  /** A complete board, lists that match it, and a key whose non-tile part is rest. */
  predicate Consistent(k: HashKeys, p: Position, rest: bv64)
    requires KeysShape(k) && Shaped(p)
  {
    FullBoard(p.tiles) && ListsMatch(p.tiles, p.lists) && HashSplit(k, p, rest)
  }

  lemma XorNone(a: bv64)
    ensures Xor(a, 0) == a
  {
  }

  /** Toggling a cell's old and new contributions keeps the key split over a one-cell update. */
  lemma HashAfterSet(k: HashKeys, ts: seq<ChessBoardTile>, i: int, t: ChessBoardTile, rest: bv64)
    requires KeysShape(k) && |ts| == BoardSize && 0 <= i < BoardSize
    ensures Xor(Xor(Xor(TilesHash(k, ts, BoardSize), rest), Contrib(k, ts[i], i)), Contrib(k, t, i))
            == Xor(TilesHash(k, ts[i := t], BoardSize), rest)
  {
    TilesHashUpdate(k, ts, BoardSize, i, t);
    XorRegroup(TilesHash(k, ts, BoardSize), rest, Contrib(k, ts[i], i), Contrib(k, t, i));
  }

  /** ClearPiece keeps a consistent position consistent. */
  lemma ClearKeeps(k: HashKeys, p: Position, coord: TileCoord, rest: bv64)
    requires KeysShape(k) && Shaped(p) && Consistent(k, p, rest)
    requires ClearPieceS(k, p, coord).Some?
    ensures Consistent(k, ClearPieceS(k, p, coord).value, rest)
  {
    var r := ClearPieceS(k, p, coord).value;
    var idx := coord.ToInt();
    var code := GetCode(p.tiles[idx].GetPiece());
    var t := FindCoord(p.lists[code], coord);
    assert p.lists[code][t].coordinate == idx;
    ClearKeepsLists(p.tiles, p.lists, idx, t);
    assert EntryOk(p.tiles, code, p.lists[code][t]);
    var nt := p.tiles[idx].SetPiece(NoPiece);
    assert Contrib(k, p.tiles[idx], idx) == k.pieceKeys[code][idx];
    assert Contrib(k, nt, idx) == 0;
    HashAfterSet(k, p.tiles, idx, nt, rest);
    XorNone(Xor(p.hash, k.pieceKeys[code][idx]));
  }

  /** AddPiece on an empty on-board cell, named by that cell's own coordinate, keeps a consistent position consistent. */
  lemma AddKeeps(k: HashKeys, p: Position, coord: TileCoord, piece: TileState, rest: bv64)
    requires KeysShape(k) && Shaped(p) && Consistent(k, p, rest)
    requires 0 <= coord.ToInt() < BoardSize && p.tiles[coord.ToInt()].coords == coord && p.tiles[coord.ToInt()].IsEmpty()
    requires AddPieceS(k, p, coord, piece).Some?
    ensures Consistent(k, AddPieceS(k, p, coord, piece).value, rest)
  {
    var idx := coord.ToInt();
    var code := GetCode(piece);
    AddKeepsLists(p.tiles, p.lists, idx, piece);
    var nt := p.tiles[idx].SetPiece(piece);
    assert Contrib(k, p.tiles[idx], idx) == 0;
    assert Contrib(k, nt, idx) == k.pieceKeys[code][idx];
    HashAfterSet(k, p.tiles, idx, nt, rest);
    XorNone(p.hash);
  }

  /**
   * MovePiece to an empty on-board cell (or onto its own cell), named by
   * that cell's own coordinate, keeps a consistent position consistent.
   */
  lemma MoveKeeps(k: HashKeys, p: Position, from: TileCoord, to: TileCoord, rest: bv64)
    requires KeysShape(k) && Shaped(p) && Consistent(k, p, rest)
    requires 0 <= to.ToInt() < BoardSize && p.tiles[to.ToInt()].coords == to
    requires to.ToInt() == from.ToInt() || p.tiles[to.ToInt()].IsEmpty()
    requires MovePieceS(k, p, from, to).Some?
    ensures Consistent(k, MovePieceS(k, p, from, to).value, rest)
  {
    var fi := from.ToInt();
    var ti := to.ToInt();
    var piece := p.tiles[fi].GetPiece();
    var code := GetCode(piece);
    var t := FindCoord(p.lists[code], from);
    assert p.lists[code][t].coordinate == fi;
    MoveKeepsLists(p.tiles, p.lists, fi, ti, t);
    assert EntryOk(p.tiles, code, p.lists[code][t]);
    var ts1 := p.tiles[fi := p.tiles[fi].SetPiece(NoPiece)];
    var ts2 := ts1[ti := ts1[ti].SetPiece(piece)];
    assert ts2 == MovedTiles(p.tiles, fi, ti);
    var h1 := Xor(p.hash, k.pieceKeys[code][fi]);
    assert Contrib(k, p.tiles[fi], fi) == k.pieceKeys[code][fi];
    assert Contrib(k, ts1[fi], fi) == 0;
    HashAfterSet(k, p.tiles, fi, ts1[fi], rest);
    XorNone(h1);
    assert h1 == Xor(TilesHash(k, ts1, BoardSize), rest);
    assert Contrib(k, ts1[ti], ti) == 0;
    assert Contrib(k, ts2[ti], ti) == k.pieceKeys[code][ti];
    HashAfterSet(k, ts1, ti, ts2[ti], rest);
    XorNone(h1);
  }

  // ---------------------------------------------------------------- MakeMove

  /** The part of the position key that does not come from the tiles: side, en-passant tile and castling permission. */
  function Rest(k: HashKeys, side: PieceColor, ep: Option<int>, cp: int): bv64
    requires KeysShape(k) && (ep.Some? ==> 0 <= ep.value < BoardSize) && IsCastleSet(cp)
  {
    Xor(Xor(SideKey(k, side), EpKey(k, ep)), k.castleKeys[cp])
  }

  /** The invariant the engine keeps: a complete board, matching lists, and the key of the whole position. */
  predicate Coherent(k: HashKeys, p: Position)
    requires KeysShape(k) && Shaped(p)
  {
    Consistent(k, p, Rest(k, p.side, p.ep, p.cp))
  }

  /** A coherent position's key is the one GeneratePositionHashKey (as its comment describes it) computes. */
  lemma CoherentKeyIsPositionHash(k: HashKeys, p: Position)
    requires KeysShape(k) && Shaped(p) && FullBoard(p.tiles) && ListsMatch(p.tiles, p.lists)
    ensures Coherent(k, p) <==> p.hash == PositionHash(k, p.tiles, p.side, p.ep, p.cp)
  {
    XorSplit(TilesHash(k, p.tiles, BoardSize), SideKey(k, p.side), EpKey(k, p.ep), k.castleKeys[p.cp]);
  }

  lemma XorSplit(t: bv64, s: bv64, e: bv64, c: bv64)
    ensures Xor(t, Xor(Xor(s, e), c)) == Xor(Xor(Xor(t, s), e), c)
  {
    XorAssoc(t, Xor(s, e), c);
    XorAssoc(t, s, e);
  }

  /** Cells keep their coordinates and castle masks. */
  predicate SameCells(ts: seq<ChessBoardTile>, us: seq<ChessBoardTile>) {
    |ts| == |us| && forall i :: 0 <= i < |ts| ==> us[i].coords == ts[i].coords && us[i].castlePermission == ts[i].castlePermission
  }

  lemma XorSwap(a: bv64, b: bv64, c: bv64)
    ensures Xor(Xor(a, b), c) == Xor(Xor(a, c), b)
  {
    XorAssoc(a, b, c);
    XorComm(b, c);
    XorAssoc(a, c, b);
  }

  lemma XorRights(t: bv64, s: bv64, e: bv64, c: bv64, c2: bv64)
    ensures Xor(Xor(Xor(Xor(t, Xor(Xor(s, e), c)), e), c), c2) == Xor(t, Xor(Xor(s, 0), c2))
  {
    var r0 := Xor(Xor(s, e), c);
    XorAssoc(t, r0, e);
    XorSwap(Xor(s, e), c, e);
    XorSelf(s, e);
    XorAssoc(t, Xor(s, c), c);
    XorSelf(s, c);
    XorAssoc(t, s, c2);
    XorNone(s);
  }

  lemma XorEp(t: bv64, s: bv64, e: bv64, c: bv64)
    ensures Xor(Xor(t, Xor(Xor(s, 0), c)), e) == Xor(t, Xor(Xor(s, e), c))
  {
    XorNone(s);
    XorAssoc(t, Xor(s, c), e);
    XorSwap(s, c, e);
  }

  lemma XorSide(t: bv64, s: bv64, e: bv64, c: bv64, key: bv64)
    ensures Xor(Xor(t, Xor(Xor(s, e), c)), key) == Xor(t, Xor(Xor(Xor(s, key), e), c))
  {
    XorAssoc(t, Xor(Xor(s, e), c), key);
    XorSwap(Xor(s, e), c, key);
    XorSwap(s, e, key);
  }

  /** MakeMove's special step keeps coherence, keeps every cell's coordinate, and leaves an empty castling target empty. */
  lemma SpecialKeeps(k: HashKeys, p: Position, m: ChessMove, fi: int, ti: int)
    requires KeysShape(k) && Shaped(p) && Coherent(k, p) && 0 <= fi < BoardSize && 0 <= ti < BoardSize
    requires p.tiles[ti].IsOnBoard()
    requires !m.IsEnPassantMove() && m.IsCastlingMove() && RookMove(ti).Some? ==>
               RookMove(ti).value.0 == RookMove(ti).value.1 || p.tiles[RookMove(ti).value.1].IsEmpty()
    requires SpecialStep(k, p, m, fi, ti).Some?
    ensures var r := SpecialStep(k, p, m, fi, ti).value;
      Coherent(k, r) && SameCells(p.tiles, r.tiles) && (p.tiles[ti].IsEmpty() ==> r.tiles[ti].IsEmpty())
  {
    if m.IsEnPassantMove() {
      EnPassantKeeps(k, p, EnPassantVictim(p.side, fi));
    } else if m.IsCastlingMove() {
      CastlingKeeps(k, p, ti);
    }
  }

  /** Clearing the en-passant victim's cell keeps coherence and coordinates, and empties only that cell. */
  lemma EnPassantKeeps(k: HashKeys, p: Position, v: int)
    requires KeysShape(k) && Shaped(p) && Coherent(k, p) && 0 <= v < BoardSize
    requires ClearPieceS(k, p, p.tiles[v].GetPosition()).Some?
    ensures var r := ClearPieceS(k, p, p.tiles[v].GetPosition()).value;
      && Coherent(k, r) && SameCells(p.tiles, r.tiles)
      && forall i :: 0 <= i < BoardSize && p.tiles[i].IsEmpty() ==> r.tiles[i].IsEmpty()
  {
    ClearKeeps(k, p, p.tiles[v].GetPosition(), Rest(k, p.side, p.ep, p.cp));
  }

  /** Moving the castling rook keeps coherence and coordinates, and leaves the king's target cell as it was. */
  lemma CastlingKeeps(k: HashKeys, p: Position, ti: int)
    requires KeysShape(k) && Shaped(p) && Coherent(k, p) && 0 <= ti < BoardSize
    requires RookMove(ti).Some?
    requires RookMove(ti).value.0 == RookMove(ti).value.1 || p.tiles[RookMove(ti).value.1].IsEmpty()
    requires MovePieceS(k, p, FromCombined(RookMove(ti).value.0), FromCombined(RookMove(ti).value.1)).Some?
    ensures var r := MovePieceS(k, p, FromCombined(RookMove(ti).value.0), FromCombined(RookMove(ti).value.1)).value;
      Coherent(k, r) && SameCells(p.tiles, r.tiles) && r.tiles[ti] == p.tiles[ti]
  {
    var rm := RookMove(ti).value;
    var a := FromCombined(rm.0);
    var b := FromCombined(rm.1);
    assert p.tiles[rm.1].IsOnBoard();
    assert p.tiles[rm.1].coords == b;
    MoveKeeps(k, p, a, b, Rest(k, p.side, p.ep, p.cp));
    assert ti != rm.0 && ti != rm.1;
  }

  /** The rights step keeps coherence. */
  lemma RightsKeeps(k: HashKeys, p: Position, fromMask: int, toMask: int)
    requires KeysShape(k) && Shaped(p) && Coherent(k, p) && IsCastleSet(fromMask) && IsCastleSet(toMask)
    ensures Coherent(k, RightsStep(k, p, fromMask, toMask))
  {
    var r := RightsStep(k, p, fromMask, toMask);
    XorRights(TilesHash(k, p.tiles, BoardSize), SideKey(k, p.side), EpKey(k, p.ep), k.castleKeys[p.cp], k.castleKeys[r.cp]);
  }

  /** The capture step keeps coherence and coordinates, and a capture leaves the To cell empty. */
  lemma CaptureKeeps(k: HashKeys, p: Position, m: ChessMove, ti: int)
    requires KeysShape(k) && Shaped(p) && Coherent(k, p) && 0 <= ti < BoardSize && p.tiles[ti].IsOnBoard()
    requires CaptureStep(k, p, m, p.tiles[ti].coords).Some?
    ensures var r := CaptureStep(k, p, m, p.tiles[ti].coords).value;
      && Coherent(k, r) && SameCells(p.tiles, r.tiles)
      && (GetPieceFromCode(m.GetCapturedPiece()) != NoPiece ==> r.tiles[ti].IsEmpty())
      && (GetPieceFromCode(m.GetCapturedPiece()) == NoPiece ==> r.tiles == p.tiles)
  {
    var p1 := p.(fifty := p.fifty + 1);
    if GetPieceFromCode(m.GetCapturedPiece()) != NoPiece {
      ClearKeeps(k, p1, p.tiles[ti].coords, Rest(k, p.side, p.ep, p.cp));
    }
  }

  /** The pawn step keeps coherence. */
  lemma PawnKeeps(k: HashKeys, p: Position, m: ChessMove, piece: TileState, from: TileCoord)
    requires KeysShape(k) && Shaped(p) && Coherent(k, p) && p.ep.None?
    requires PawnStep(k, p, m, piece, from).Some?
    ensures Coherent(k, PawnStep(k, p, m, piece, from).value)
  {
    var r := PawnStep(k, p, m, piece, from).value;
    if r.ep.Some? {
      XorEp(TilesHash(k, p.tiles, BoardSize), SideKey(k, p.side), EpKey(k, r.ep), k.castleKeys[p.cp]);
    }
  }

  /** The promotion step keeps coherence when the To cell holds the moved piece. */
  lemma PromoteKeeps(k: HashKeys, p: Position, m: ChessMove, ti: int)
    requires KeysShape(k) && Shaped(p) && Coherent(k, p) && 0 <= ti < BoardSize && p.tiles[ti].IsOnBoard()
    requires PromoteStep(k, p, m, p.tiles[ti].coords).Some?
    ensures Coherent(k, PromoteStep(k, p, m, p.tiles[ti].coords).value)
  {
    var to := p.tiles[ti].coords;
    if GetPieceFromCode(m.GetPromotedPiece()) != NoPiece {
      var rest := Rest(k, p.side, p.ep, p.cp);
      ClearKeeps(k, p, to, rest);
      var p1 := ClearPieceS(k, p, to).value;
      AddKeeps(k, p1, to, GetPieceFromCode(m.GetPromotedPiece()), rest);
    }
  }

  /** The side flip with its key toggle keeps coherence. */
  lemma SideKeeps(k: HashKeys, p: Position)
    requires KeysShape(k) && Shaped(p) && Coherent(k, p) && (p.side == White || p.side == Black)
    ensures Coherent(k, p.(side := Opponent(p.side), hash := Xor(p.hash, k.sideKey)))
  {
    XorSide(TilesHash(k, p.tiles, BoardSize), SideKey(k, p.side), EpKey(k, p.ep), k.castleKeys[p.cp], k.sideKey);
    if p.side == Black {
      XorNone(k.sideKey);
      assert Xor(0, k.sideKey) == k.sideKey;
    } else {
      assert Xor(k.sideKey, k.sideKey) == 0;
    }
  }

  /**
   * What the move generator guarantees of a move: its To cell is empty unless
   * it carries a captured piece (or is its From cell), and a castling rook
   * lands on an empty cell (or stays put).
   */
  predicate MoveFits(p: Position, m: ChessMove)
    requires Shaped(p)
  {
    var fi := m.GetFromTileIndex();
    var ti := m.GetToTileIndex();
    fi < BoardSize && ti < BoardSize ==>
      && (ti != fi && GetPieceFromCode(m.GetCapturedPiece()) == NoPiece ==> p.tiles[ti].IsEmpty())
      && (!m.IsEnPassantMove() && m.IsCastlingMove() && RookMove(ti).Some? ==>
            RookMove(ti).value.0 == RookMove(ti).value.1 || p.tiles[RookMove(ti).value.1].IsEmpty())
  }

  /**
   * MakeMove keeps the engine coherent: from a complete board whose lists and
   * key agree with it, a fitting move that completes leaves lists that list
   * exactly the on-board pieces and the key of the new position.
   */
  lemma MakeMoveKeepsCoherence(k: HashKeys, p: Position, m: ChessMove)
    requires KeysShape(k) && Shaped(p) && Coherent(k, p) && MoveFits(p, m)
    requires MakeMoveS(k, p, m).Moved?
    ensures Coherent(k, MakeMoveS(k, p, m).pos)
  {
    var fi := m.GetFromTileIndex();
    var ti := m.GetToTileIndex();
    var from := p.tiles[fi];
    var to := p.tiles[ti];
    var p1 := SpecialStep(k, p, m, fi, to.GetPosition().coordinate).value;
    var p2 := RightsStep(k, p1, from.castlePermission, to.castlePermission);
    assert MakeMoveS(k, p, m) == CompleteMove(k, p2, m, from, to);
    CompleteMovedFromTo(k, p2, m, from, to);
    assert to.IsOnBoard() && to.GetPosition().coordinate == ti;
    SpecialKeeps(k, p, m, fi, ti);
    RightsKeeps(k, p1, from.castlePermission, to.castlePermission);
    assert ti != fi ==> (GetPieceFromCode(m.GetCapturedPiece()) == NoPiece ==> p2.tiles[ti].IsEmpty());
    CompleteKeeps(k, p2, m, from, to, fi, ti);
  }

  /** A completed move had a valid From and To coordinate. */
  lemma CompleteMovedFromTo(k: HashKeys, p: Position, m: ChessMove, from: ChessBoardTile, to: ChessBoardTile)
    requires KeysShape(k) && Shaped(p) && (p.side == White || p.side == Black)
    requires CompleteMove(k, p, m, from, to).Moved?
    ensures from.IsOnBoard() && to.IsOnBoard()
  {
  }

  /** CompleteMove keeps coherence when its To cell is on the board and empty unless the move captures. */
  lemma CompleteKeeps(k: HashKeys, p: Position, m: ChessMove, from: ChessBoardTile, to: ChessBoardTile, fi: int, ti: int)
    requires KeysShape(k) && Shaped(p) && Coherent(k, p) && (p.side == White || p.side == Black) && p.ep.None?
    requires 0 <= fi < BoardSize && 0 <= ti < BoardSize
    requires from.coords == p.tiles[fi].coords
    requires p.tiles[ti].coords == to.coords && to.IsOnBoard()
    requires ti != fi && GetPieceFromCode(m.GetCapturedPiece()) == NoPiece ==> p.tiles[ti].IsEmpty()
    requires CompleteMove(k, p, m, from, to).Moved?
    ensures Coherent(k, CompleteMove(k, p, m, from, to).pos)
  {
    var p3 := CaptureStep(k, p, m, to.GetPosition()).value;
    CaptureKeeps(k, p, m, ti);
    var p4 := PawnStep(k, p3, m, from.GetPiece(), from.GetPosition()).value;
    PawnKeeps(k, p3, m, from.GetPiece(), from.GetPosition());
    var p5 := MovePieceS(k, p4, from.GetPosition(), to.GetPosition()).value;
    assert from.coords == CoordAt(fi) && to.coords == CoordAt(ti);
    assert ti == fi || p4.tiles[ti].IsEmpty();
    MoveKeeps(k, p4, from.GetPosition(), to.GetPosition(), Rest(k, p4.side, p4.ep, p4.cp));
    FinishKeeps(k, p5, m, from.GetPiece(), ti);
  }

  /** FinishMove keeps coherence when its To cell is on the board. */
  lemma FinishKeeps(k: HashKeys, p: Position, m: ChessMove, piece: TileState, ti: int)
    requires KeysShape(k) && Shaped(p) && Coherent(k, p) && (p.side == White || p.side == Black)
    requires 0 <= ti < BoardSize && p.tiles[ti].IsOnBoard()
    requires FinishMove(k, p, m, piece, p.tiles[ti].coords).Moved?
    ensures Coherent(k, FinishMove(k, p, m, piece, p.tiles[ti].coords).pos)
  {
    var to := p.tiles[ti].coords;
    var p6 := PromoteStep(k, p, m, to).value;
    PromoteKeeps(k, p, m, ti);
    var sc := ColorCode(p.side);
    var p7 := if IsA(piece, King) then p6.(kings := p6.kings[sc := to]) else p6;
    assert Coherent(k, p7);
    SideKeeps(k, p7);
  }
}
