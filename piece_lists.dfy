/*
 * The piece lists against the board: what UpdateListsMaterial builds from a
 * reset position, that every list consistent with the board has as many
 * entries as the board has pieces of its code, and the slot ClearPiece
 * fills its hole from.
 */
module PieceLists {
  import opened Wrappers
  import opened TileCoordinate
  import opened ChessDefinitions
  import opened ChessBoardTile
  import opened Board
  import opened Position

  /** Cell i is on the board and holds a piece of code c. */
  predicate Holds(ts: seq<ChessBoardTile>, i: int, c: int)
    requires 0 <= i < |ts|
  {
    ts[i].IsOnBoard() && !ts[i].IsEmpty() && GetCode(ts[i].GetPiece()) == c
  }

  /** The coordinates of the cells below n holding code c, in cell order: the reference list. */
  function ListOf(ts: seq<ChessBoardTile>, c: int, n: nat): seq<TileCoord>
    requires n <= |ts|
  {
    if n == 0 then []
    else ListOf(ts, c, n - 1) + (if Holds(ts, n - 1, c) then [ts[n - 1].GetPosition()] else [])
  }

  /** The thirteen reference lists of a whole board. */
  function BoardLists(ts: seq<ChessBoardTile>): (ls: seq<seq<TileCoord>>)
    requires |ts| == BoardSize
    ensures |ls| == PieceCodes
  {
    seq(PieceCodes, c => ListOf(ts, c, BoardSize))
  }

  /** The cells of the board holding code c. */
  function Occupied(ts: seq<ChessBoardTile>, c: int): set<int>
    requires |ts| == BoardSize
  {
    set i | 0 <= i < BoardSize && Holds(ts, i, c)
  }

  /** The lists of a position ResetBoard has left: all empty. */
  predicate NoneListed(p: Position)
    requires Shaped(p)
  {
    forall c :: 0 <= c < PieceCodes ==> p.lists[c] == []
  }

  // ---------------------------------------------------------------- UpdateListsMaterial

  /**
   * The reference list of code c up to cell n: every entry is the canonical
   * coordinate of a cell below n holding c, no entry repeats, and every such
   * cell is listed.
   */
  lemma ListOfEntries(ts: seq<ChessBoardTile>, c: int, n: nat)
    requires SaneTiles(ts) && n <= BoardSize
    ensures forall j :: 0 <= j < |ListOf(ts, c, n)| ==>
      var x := ListOf(ts, c, n)[j];
      && 0 <= x.coordinate < n && IsPlayable(x.coordinate) && x == CoordAt(x.coordinate)
      && Holds(ts, x.coordinate, c)
    ensures Distinct(ListOf(ts, c, n))
    ensures forall i :: 0 <= i < n && Holds(ts, i, c) ==> CoordAt(i) in ListOf(ts, c, n)
  {
    ListOfSound(ts, c, n);
    ListOfDistinct(ts, c, n);
    ListOfComplete(ts, c, n);
  }

  /** Every entry of a reference list is a canonical coordinate below n of a cell holding c. */
  lemma {:induction false} ListOfSound(ts: seq<ChessBoardTile>, c: int, n: nat)
    requires SaneTiles(ts) && n <= BoardSize
    ensures forall j :: 0 <= j < |ListOf(ts, c, n)| ==>
      var x := ListOf(ts, c, n)[j];
      && 0 <= x.coordinate < n && IsPlayable(x.coordinate) && x == CoordAt(x.coordinate)
      && Holds(ts, x.coordinate, c)
  {
    if n > 0 {
      ListOfSound(ts, c, n - 1);
      if Holds(ts, n - 1, c) {
        SaneCellIndex(ts, n - 1);
        assert ListOf(ts, c, n) == ListOf(ts, c, n - 1) + [ts[n - 1].GetPosition()];
      } else {
        assert ListOf(ts, c, n) == ListOf(ts, c, n - 1);
      }
    }
  }

  /** No coordinate appears twice in a reference list. */
  lemma {:induction false} ListOfDistinct(ts: seq<ChessBoardTile>, c: int, n: nat)
    requires SaneTiles(ts) && n <= BoardSize
    ensures Distinct(ListOf(ts, c, n))
  {
    if n > 0 {
      ListOfDistinct(ts, c, n - 1);
      var l := ListOf(ts, c, n - 1);
      if Holds(ts, n - 1, c) {
        ListOfSound(ts, c, n - 1);
        SaneCellIndex(ts, n - 1);
        assert ListOf(ts, c, n) == l + [ts[n - 1].GetPosition()];
      } else {
        assert ListOf(ts, c, n) == l;
      }
    }
  }

  /** Every cell below n holding c is listed. */
  lemma {:induction false} ListOfComplete(ts: seq<ChessBoardTile>, c: int, n: nat)
    requires SaneTiles(ts) && n <= BoardSize
    ensures forall i :: 0 <= i < n && Holds(ts, i, c) ==> CoordAt(i) in ListOf(ts, c, n)
  {
    if n > 0 {
      ListOfComplete(ts, c, n - 1);
      var l := ListOf(ts, c, n - 1);
      if Holds(ts, n - 1, c) {
        SaneCellIndex(ts, n - 1);
        assert ListOf(ts, c, n) == l + [ts[n - 1].GetPosition()];
        forall i | 0 <= i < n && Holds(ts, i, c)
          ensures CoordAt(i) in ListOf(ts, c, n)
        {
          if i < n - 1 {
            var j :| 0 <= j < |l| && l[j] == CoordAt(i);
            assert ListOf(ts, c, n)[j] == CoordAt(i);
          } else {
            assert ListOf(ts, c, n)[|l|] == CoordAt(i);
          }
        }
      } else {
        assert ListOf(ts, c, n) == l;
      }
    }
  }

  /** No cell holds the empty piece's code, so its reference list is empty. */
  lemma {:induction false} NothingOfCodeZero(ts: seq<ChessBoardTile>, n: nat)
    requires n <= |ts|
    ensures ListOf(ts, 0, n) == []
  {
    if n > 0 {
      NothingOfCodeZero(ts, n - 1);
    }
  }

  /** The reference lists agree with the board in every respect ListsMatch asks for. */
  lemma BoardListsMatch(ts: seq<ChessBoardTile>)
    requires SaneTiles(ts)
    ensures ListsMatch(ts, BoardLists(ts))
  {
    var ls := BoardLists(ts);
    forall c | 0 <= c < PieceCodes
      ensures (forall j :: 0 <= j < |ls[c]| ==> EntryOk(ts, c, ls[c][j])) && Distinct(ls[c])
      ensures forall i :: 0 <= i < BoardSize && Holds(ts, i, c) ==> CoordAt(i) in ls[c]
    {
      ListOfEntries(ts, c, BoardSize);
    }
    NothingOfCodeZero(ts, BoardSize);
    forall i | 0 <= i < BoardSize && IsPlayable(i) && ts[i].IsOnBoard() && !ts[i].IsEmpty()
      ensures CoordAt(i) in ls[GetCode(ts[i].GetPiece())]
    {
      assert Holds(ts, i, GetCode(ts[i].GetPiece()));
    }
  }

  /** A reference list only grows as more cells are scanned. */
  lemma {:induction false} ListOfGrows(ts: seq<ChessBoardTile>, c: int, m: nat, n: nat)
    requires m <= n <= |ts|
    ensures |ListOf(ts, c, m)| <= |ListOf(ts, c, n)|
    decreases n - m
  {
    if m < n {
      ListOfGrows(ts, c, m, n - 1);
    }
  }

  /**
   * UpdateListsMaterial run from empty lists over cells 0 .. n-1 stops on a
   * full list exactly when some code has more than Capacity pieces there;
   * otherwise each list holds the cells of its code in cell order.
   */
  lemma {:induction false} TallyLists(p: Position, ts: seq<ChessBoardTile>, n: nat)
    requires Shaped(p) && SaneTiles(ts) && n <= BoardSize && NoneListed(p)
    ensures TallyTiles(p, ts, n).Some? <==> forall c :: 0 <= c < PieceCodes ==> |ListOf(ts, c, n)| <= Capacity
    ensures TallyTiles(p, ts, n).Some? ==> forall c :: 0 <= c < PieceCodes ==> TallyTiles(p, ts, n).value.lists[c] == ListOf(ts, c, n)
  {
    if n > 0 {
      TallyLists(p, ts, n - 1);
      var prev := TallyTiles(p, ts, n - 1);
      if prev.None? {
        var c :| 0 <= c < PieceCodes && |ListOf(ts, c, n - 1)| > Capacity;
        ListOfGrows(ts, c, n - 1, n);
      } else {
        TallyStep(prev.value, ts, n);
      }
    }
  }

  /** One cell of UpdateListsMaterial extends the reference lists by that cell. */
  lemma TallyStep(q: Position, ts: seq<ChessBoardTile>, n: nat)
    requires Shaped(q) && SaneTiles(ts) && 0 < n <= BoardSize
    requires forall c :: 0 <= c < PieceCodes ==> q.lists[c] == ListOf(ts, c, n - 1)
    ensures TallyTile(q, ts, n - 1).Some? <==> forall c :: 0 <= c < PieceCodes ==> |ListOf(ts, c, n)| <= Capacity
    ensures TallyTile(q, ts, n - 1).Some? ==> forall c :: 0 <= c < PieceCodes ==> TallyTile(q, ts, n - 1).value.lists[c] == ListOf(ts, c, n)
  {
    var t := ts[n - 1];
    if t.IsOnBoard() && !t.IsEmpty() {
      var code := GetCode(t.GetPiece());
      assert Holds(ts, n - 1, code);
      assert ListOf(ts, code, n) == q.lists[code] + [t.GetPosition()];
      assert forall c :: 0 <= c < PieceCodes && c != code ==> ListOf(ts, c, n) == q.lists[c];
      if |q.lists[code]| == Capacity {
        assert |ListOf(ts, code, n)| > Capacity;
      }
    } else {
      assert forall c :: 0 <= c < PieceCodes ==> ListOf(ts, c, n) == q.lists[c];
    }
  }

  /**
   * From a reset position, UpdateListsMaterial over the whole board either
   * stops on a full list (some code has more than Capacity pieces) or leaves
   * lists that agree with the board.
   */
  lemma UpdateListsMatch(p: Position, ts: seq<ChessBoardTile>)
    requires Shaped(p) && SaneTiles(ts) && NoneListed(p)
    ensures TallyTiles(p, ts, BoardSize).Some? <==> forall c :: 0 <= c < PieceCodes ==> |Occupied(ts, c)| <= Capacity
    ensures TallyTiles(p, ts, BoardSize).Some? ==>
      && TallyTiles(p, ts, BoardSize).value.lists == BoardLists(ts)
      && ListsMatch(ts, TallyTiles(p, ts, BoardSize).value.lists)
  {
    TallyLists(p, ts, BoardSize);
    forall c | 0 <= c < PieceCodes
      ensures |ListOf(ts, c, BoardSize)| == |Occupied(ts, c)|
    {
      if c == 0 {
        NothingOfCodeZero(ts, BoardSize);
        assert Occupied(ts, 0) == {};
      } else {
        ListOfEntries(ts, c, BoardSize);
        ListCountsCells(ts, BoardLists(ts), c);
      }
    }
    BoardListsMatch(ts);
  }

  // ---------------------------------------------------------------- counts

  /** The cells a list names. */
  function Named(l: seq<TileCoord>): set<int> {
    set j | 0 <= j < |l| :: l[j].coordinate
  }

  /** A list without repeated coordinates names as many cells as it has entries. */
  lemma {:induction false} DistinctNamesAll(l: seq<TileCoord>)
    requires Distinct(l)
    ensures |Named(l)| == |l|
  {
    if |l| > 0 {
      var init := l[..|l| - 1];
      DistinctNamesAll(init);
      assert Named(l) == Named(init) + {l[|l| - 1].coordinate};
      assert l[|l| - 1].coordinate !in Named(init);
    }
  }

  /**
   * A list consistent with the board has exactly as many entries as the
   * board has on-board cells holding its code: PieceCount[c] counts the
   * pieces of code c.
   */
  lemma ListCountsCells(ts: seq<ChessBoardTile>, lists: seq<seq<TileCoord>>, c: int)
    requires SaneTiles(ts) && |lists| == PieceCodes && 1 <= c < PieceCodes
    requires (forall j :: 0 <= j < |lists[c]| ==> EntryOk(ts, c, lists[c][j])) && Distinct(lists[c])
    requires forall i :: 0 <= i < BoardSize && Holds(ts, i, c) ==> CoordAt(i) in lists[c]
    ensures |lists[c]| == |Occupied(ts, c)|
  {
    var l := lists[c];
    DistinctNamesAll(l);
    forall i | i in Occupied(ts, c)
      ensures i in Named(l)
    {
      SaneCellIndex(ts, i);
      var j :| 0 <= j < |l| && l[j] == CoordAt(i);
      DecodePlayable(i);
    }
    forall i | i in Named(l)
      ensures i in Occupied(ts, c)
    {
      var j :| 0 <= j < |l| && l[j].coordinate == i;
      assert EntryOk(ts, c, l[j]);
    }
    assert Named(l) == Occupied(ts, c);
  }

  /** With lists that match the board, every list's length is the number of pieces of its code on the board. */
  lemma MatchedCounts(ts: seq<ChessBoardTile>, lists: seq<seq<TileCoord>>)
    requires SaneTiles(ts) && |lists| == PieceCodes && ListsMatch(ts, lists)
    ensures forall c :: 1 <= c < PieceCodes ==> |lists[c]| == |Occupied(ts, c)|
  {
    forall c | 1 <= c < PieceCodes
      ensures |lists[c]| == |Occupied(ts, c)|
    {
      forall i | 0 <= i < BoardSize && Holds(ts, i, c)
        ensures CoordAt(i) in lists[c]
      {
        SaneCellIndex(ts, i);
      }
      ListCountsCells(ts, lists, c);
    }
  }

  // ---------------------------------------------------------------- ClearPiece's fill slot

  /**
   * ClearPiece's list update on the fixed-size row as written: the live
   * part is row[..count], the entry at slot t is overwritten with row[count]
   * (the first slot past the live part) and the count drops by one. A full
   * row has no slot `count`: the access is out of range.
   */
  function ClearSlotAsWritten(row: seq<TileCoord>, count: int, t: int): (r: Option<seq<TileCoord>>)
    requires 0 <= t < count <= |row|
    ensures r.Some? <==> count < |row|
    ensures r.Some? ==> |r.value| == count - 1
  {
    if count == |row| then None
    else Some(row[t := row[count]][..count - 1])
  }

  /** The same update filling the hole from the last live slot, row[count - 1]: RemoveAt on the live part. */
  function ClearSlot(row: seq<TileCoord>, count: int, t: int): (r: seq<TileCoord>)
    requires 0 <= t < count <= |row|
    ensures r == RemoveAt(row[..count], t)
  {
    row[..count][t := row[count - 1]][..count - 1]
  }

  /**
   * Clearing the first of two listed pawns (A2 then B2, a stale A1 in the
   * next slot) as written leaves the stale A1 listed and B2 unlisted; the
   * intended fill keeps exactly B2.
   */
  lemma ClearSlotCounterexample()
    ensures var a2 := CoordAt(31); var b2 := CoordAt(32); var a1 := CoordAt(21);
      && ClearSlotAsWritten([a2, b2, a1], 2, 0) == Some([a1])
      && ClearSlot([a2, b2, a1], 2, 0) == [b2]
  {
    var a2 := CoordAt(31);
    var b2 := CoordAt(32);
    var a1 := CoordAt(21);
    assert [a2, b2, a1][0 := a1][..1] == [a1];
    assert [a2, b2, a1][..2][0 := b2][..1] == [b2];
  }

  /**
   * The intended fill keeps every other live entry and drops exactly the
   * cleared one, so a distinct list stays distinct and loses only that
   * coordinate.
   */
  lemma ClearSlotKeepsOthers(row: seq<TileCoord>, count: int, t: int)
    requires 0 <= t < count <= |row| && Distinct(row[..count])
    ensures Distinct(ClearSlot(row, count, t))
    ensures Named(ClearSlot(row, count, t)) == Named(row[..count]) - {row[t].coordinate}
  {
    var l := row[..count];
    var r := ClearSlot(row, count, t);
    assert forall j :: 0 <= j < |r| ==> r[j] == (if j == t then l[count - 1] else l[j]);
    forall x | x in Named(l) - {row[t].coordinate}
      ensures x in Named(r)
    {
      var j :| 0 <= j < count && l[j].coordinate == x;
      if j == count - 1 {
        if t < count - 1 {
          assert r[t].coordinate == x;
        }
      } else {
        assert r[j].coordinate == x;
      }
    }
  }
}
