/*
 * InitBoard's reading of a FEN string (Forsyth-Edwards Notation, section
 * 16.1 of the PGN standard) as values: the string operations it relies on
 * (TrimStartAndEnd, Split at the first space, ParseIntoArray with empty
 * fields culled), the placement field rank Eight down to One, the side,
 * castling and en-passant fields, and the whole load as a function of the
 * position before it. The engine object (module GameState) runs the same
 * steps with its loops and is proved to end in this value.
 *
 * As for MakeMove, an out-of-range array access the engine would make is the
 * absence of a result (None).
 */
module Fen {
  import opened Wrappers
  import opened TileCoordinate
  import opened ChessDefinitions
  import opened ChessBoardTile
  import opened ChessGameStatics
  import opened Board
  import opened Hash
  import opened Position
  import opened PieceLists
  import opened MoveGeneration

  // ---------------------------------------------------------------- string helpers

  /** The white-space characters of this model (space, tab, line feed, carriage return). */
  predicate IsSpace(c: char) {
    c == ' ' || c == '\t' || c == '\n' || c == '\r'
  }

  /** The delimiters of ParseIntoArrayWS. */
  const Spaces: set<char> := {' ', '\t', '\n', '\r'}

  /** TrimStartAndEnd's first half: leading white space dropped. */
  function TrimStart(s: string): (r: string)
    ensures |r| <= |s| && r == s[|s| - |r|..]
    ensures r == [] || !IsSpace(r[0])
    ensures forall i :: 0 <= i < |s| - |r| ==> IsSpace(s[i])
  {
    if s != [] && IsSpace(s[0]) then TrimStart(s[1..]) else s
  }

  /** TrimStartAndEnd's second half: trailing white space dropped. */
  function TrimEnd(s: string): (r: string)
    ensures |r| <= |s| && r == s[..|r|]
    ensures r == [] || !IsSpace(r[|r| - 1])
    ensures forall i :: |r| <= i < |s| ==> IsSpace(s[i])
  {
    if s != [] && IsSpace(s[|s| - 1]) then TrimEnd(s[..|s| - 1]) else s
  }

  /** TrimStartAndEnd. */
  function Trim(s: string): string {
    TrimEnd(TrimStart(s))
  }

  /** Split(d): the parts before and after the first d, or nothing when s has no d. */
  function SplitFirst(s: string, d: char): (r: Option<(string, string)>)
    ensures r.None? <==> d !in s
    ensures r.Some? ==> s == r.value.0 + [d] + r.value.1 && d !in r.value.0
  {
    if s == [] then None
    else if s[0] == d then Some(([], s[1..]))
    else
      match SplitFirst(s[1..], d)
      case None => None
      case Some(parts) =>
        assert s == [s[0]] + s[1..];
        Some(([s[0]] + parts.0, parts.1))
  }

  /** The longest prefix of s without a delimiter. */
  function Word(s: string, ds: set<char>): (w: string)
    ensures |w| <= |s| && w == s[..|w|]
    ensures forall i :: 0 <= i < |w| ==> w[i] !in ds
    ensures |w| == |s| || s[|w|] in ds
  {
    if s == [] || s[0] in ds then [] else [s[0]] + Word(s[1..], ds)
  }

  /** ParseIntoArray with culling: the maximal runs of characters outside ds, in order, empty runs dropped. */
  function Fields(s: string, ds: set<char>): (r: seq<string>)
    ensures forall k :: 0 <= k < |r| ==> r[k] != [] && forall i :: 0 <= i < |r[k]| ==> r[k][i] !in ds
    decreases |s|
  {
    if s == [] then []
    else if s[0] in ds then Fields(s[1..], ds)
    else
      var w := Word(s, ds);
      [w] + Fields(s[|w|..], ds)
  }

  /** A string without delimiters is a single field, or none when it is empty. */
  lemma {:induction false} FieldsOfWord(s: string, ds: set<char>)
    requires forall i :: 0 <= i < |s| ==> s[i] !in ds
    ensures Fields(s, ds) == (if s == [] then [] else [s])
  {
    if s != [] {
      WordOfWord(s, ds);
      assert s[|s|..] == [];
    }
  }

  /** The longest delimiter-free prefix of a delimiter-free string is the string. */
  lemma {:induction false} WordOfWord(s: string, ds: set<char>)
    requires forall i :: 0 <= i < |s| ==> s[i] !in ds
    ensures Word(s, ds) == s
  {
    if s != [] {
      WordOfWord(s[1..], ds);
    }
  }

  /** Delimiters only separate: a field list of a + [d] + b is that of a followed by that of b. */
  lemma {:induction false} FieldsJoin(a: string, d: char, b: string, ds: set<char>)
    requires d in ds
    ensures Fields(a + [d] + b, ds) == Fields(a, ds) + Fields(b, ds)
    decreases |a|
  {
    var s := a + [d] + b;
    if a == [] {
      assert s[0] == d && s[1..] == b;
    } else if a[0] in ds {
      assert s[0] == a[0] && s[1..] == a[1..] + [d] + b;
      FieldsJoin(a[1..], d, b, ds);
    } else {
      var w := Word(a, ds);
      FieldsJoin(a[|w|..], d, b, ds);
      FieldsJoinWord(a, d, b, ds);
    }
  }

  /** FieldsJoin's step over a first word: a + [d] + b and a both start with the same word. */
  lemma FieldsJoinWord(a: string, d: char, b: string, ds: set<char>)
    requires d in ds && a != [] && a[0] !in ds
    ensures var w := Word(a, ds);
      && Fields(a + [d] + b, ds) == [w] + Fields(a[|w|..] + [d] + b, ds)
      && Fields(a, ds) == [w] + Fields(a[|w|..], ds)
  {
    var s := a + [d] + b;
    var w := Word(a, ds);
    WordJoin(a, d, b, ds);
    assert s[0] == a[0];
    assert s[|w|..] == a[|w|..] + [d] + b;
  }

  /** The first word of a + [d] + b, with d a delimiter, lies inside a. */
  lemma {:induction false} WordJoin(a: string, d: char, b: string, ds: set<char>)
    requires d in ds
    ensures Word(a + [d] + b, ds) == Word(a, ds)
    decreases |a|
  {
    var s := a + [d] + b;
    if a != [] && a[0] !in ds {
      assert s[1..] == a[1..] + [d] + b;
      WordJoin(a[1..], d, b, ds);
    }
  }

  // ---------------------------------------------------------------- the placement field

  /** The squares one placement character covers: a digit 1..8 its value, any other character one. */
  function SquareCount(c: char): (n: int)
    ensures 1 <= n <= 8
    ensures '1' <= c <= '8' ==> n == c as int - '0' as int
  {
    if '1' <= c <= '8' then c as int - '0' as int else 1
  }

  /** The pieces one character puts down: SquareCount(c) copies of GetPieceFromChar(c), the empty piece for a digit. */
  function Expand(c: char): (sq: seq<TileState>)
    ensures |sq| == SquareCount(c)
  {
    seq(SquareCount(c), _ => GetPieceFromChar(c))
  }

  /** The pieces a row puts down from file A on, character by character. */
  function RowSquares(row: string): seq<TileState>
    decreases |row|
  {
    if row == [] then [] else RowSquares(row[..|row| - 1]) + Expand(row[|row| - 1])
  }

  /**
   * At most eight rows, each covering at most eight squares. A ninth row
   * reaches rank -1, whose 64-square index lies past the converter table; a
   * longer row writes its extra squares into the rank above under
   * coordinates that do not name their cell, which this model does not
   * follow.
   */
  predicate FitsBoard(rows: seq<string>) {
    |rows| <= 8 && forall k :: 0 <= k < |rows| ==> |RowSquares(rows[k])| <= 8
  }

  /**
   * One pass of the square loop: the tile of Rank * 8 + File (the cell
   * SquareIndex(File, Rank)) takes the piece and the coordinate (File, Rank).
   */
  function Put(ts: seq<ChessBoardTile>, rank: int, file: int, piece: TileState): (r: seq<ChessBoardTile>)
    requires |ts| == BoardSize && IsReal(rank) && IsReal(file)
    ensures |r| == BoardSize && forall i :: 0 <= i < BoardSize ==> r[i].castlePermission == ts[i].castlePermission
  {
    var i := SquareIndex(file, rank);
    ts[i := ts[i].SetPiece(piece).SetPositionFileRank(file, rank)]
  }

  /** A row's pieces put down on rank `rank` from file A on. */
  function PlaceSquares(ts: seq<ChessBoardTile>, rank: int, sq: seq<TileState>): (r: seq<ChessBoardTile>)
    requires |ts| == BoardSize && IsReal(rank) && |sq| <= 8
    ensures |r| == BoardSize && forall i :: 0 <= i < BoardSize ==> r[i].castlePermission == ts[i].castlePermission
    decreases |sq|
  {
    if sq == [] then ts
    else Put(PlaceSquares(ts, rank, sq[..|sq| - 1]), rank, |sq| - 1, sq[|sq| - 1])
  }

  /** The rows put down from rank Eight downwards. */
  function PlaceRows(ts: seq<ChessBoardTile>, rows: seq<string>): (r: seq<ChessBoardTile>)
    requires |ts| == BoardSize && FitsBoard(rows)
    ensures |r| == BoardSize && forall i :: 0 <= i < BoardSize ==> r[i].castlePermission == ts[i].castlePermission
    decreases |rows|
  {
    if rows == [] then ts
    else
      var n := |rows| - 1;
      assert FitsBoard(rows[..n]) by {
        assert forall k :: 0 <= k < n ==> rows[..n][k] == rows[k];
      }
      PlaceSquares(PlaceRows(ts, rows[..n]), RankEight - n, RowSquares(rows[n]))
  }

  /** The piece the FEN names for the square on file f and rank r, if its row reaches that far. */
  function Named(rows: seq<string>, f: int, r: int): Option<TileState>
    requires IsReal(f) && IsReal(r)
  {
    var k := RankEight - r;
    if k < |rows| && f < |RowSquares(rows[k])| then Some(RowSquares(rows[k])[f]) else None
  }

  /** What a square's tile holds after the placement: the named piece and the square's coordinate, or the tile unchanged. */
  function Placed(t: ChessBoardTile, named: Option<TileState>, f: int, r: int): ChessBoardTile
    requires IsReal(f) && IsReal(r)
  {
    match named
    case None => t
    case Some(piece) => t.SetPiece(piece).SetPositionFileRank(f, r)
  }

  /** A row's placement on rank `rank` changes exactly the squares of that rank below file |sq|. */
  lemma {:induction false} PlaceSquaresAt(ts: seq<ChessBoardTile>, rank: int, sq: seq<TileState>, f: int, r: int)
    requires |ts| == BoardSize && IsReal(rank) && |sq| <= 8 && IsReal(f) && IsReal(r)
    ensures PlaceSquares(ts, rank, sq)[SquareIndex(f, r)] ==
      Placed(ts[SquareIndex(f, r)], if r == rank && f < |sq| then Some(sq[f]) else None, f, r)
    decreases |sq|
  {
    if sq != [] {
      var n := |sq| - 1;
      PlaceSquaresAt(ts, rank, sq[..n], f, r);
      if f < n {
        assert sq[..n][f] == sq[f];
      }
    }
  }

  /** A row's placement leaves every cell that is not a square alone. */
  lemma {:induction false} PlaceSquaresOff(ts: seq<ChessBoardTile>, rank: int, sq: seq<TileState>, i: int)
    requires |ts| == BoardSize && IsReal(rank) && |sq| <= 8 && 0 <= i < BoardSize && !IsPlayable(i)
    ensures PlaceSquares(ts, rank, sq)[i] == ts[i]
    decreases |sq|
  {
    if sq != [] {
      PlaceSquaresOff(ts, rank, sq[..|sq| - 1], i);
      SquareIsPlayable(|sq| - 1, rank);
    }
  }

  /**
   * The placement as a whole: the square on file f and rank r holds the
   * piece the FEN names for it (row 8 - r, its f-th square, digits counting
   * empty squares) under its own coordinate, or is left alone when the row
   * stops short of it.
   */
  lemma {:induction false} PlaceRowsAt(ts: seq<ChessBoardTile>, rows: seq<string>, f: int, r: int)
    requires |ts| == BoardSize && FitsBoard(rows) && IsReal(f) && IsReal(r)
    ensures PlaceRows(ts, rows)[SquareIndex(f, r)] == Placed(ts[SquareIndex(f, r)], Named(rows, f, r), f, r)
    decreases |rows|
  {
    if rows != [] {
      var n := |rows| - 1;
      FitsPrefix(rows, n);
      var sq := RowSquares(rows[n]);
      var prev := PlaceRows(ts, rows[..n]);
      assert PlaceRows(ts, rows) == PlaceSquares(prev, RankEight - n, sq);
      PlaceRowsAt(ts, rows[..n], f, r);
      PlaceSquaresAt(prev, RankEight - n, sq, f, r);
      NamedPrefix(rows, f, r);
    }
  }

  /** Every prefix of rows that fit the board fits it. */
  lemma FitsPrefix(rows: seq<string>, n: nat)
    requires FitsBoard(rows) && n <= |rows|
    ensures FitsBoard(rows[..n])
  {
    assert forall k :: 0 <= k < n ==> rows[..n][k] == rows[k];
  }

  /** What the last row adds to Named: the squares of its own rank it reaches, and nothing else. */
  lemma NamedPrefix(rows: seq<string>, f: int, r: int)
    requires rows != [] && IsReal(f) && IsReal(r)
    ensures var n := |rows| - 1;
      Named(rows, f, r) ==
        if r == RankEight - n && f < |RowSquares(rows[n])| then Some(RowSquares(rows[n])[f])
        else Named(rows[..n], f, r)
    ensures r == RankEight - (|rows| - 1) ==> Named(rows[..|rows| - 1], f, r).None?
  {
    var n := |rows| - 1;
    if RankEight - r < n {
      assert rows[..n][RankEight - r] == rows[RankEight - r];
    }
  }

  /** The placement leaves every cell that is not a square alone. */
  lemma {:induction false} PlaceRowsOff(ts: seq<ChessBoardTile>, rows: seq<string>, i: int)
    requires |ts| == BoardSize && FitsBoard(rows) && 0 <= i < BoardSize && !IsPlayable(i)
    ensures PlaceRows(ts, rows)[i] == ts[i]
    decreases |rows|
  {
    if rows != [] {
      var n := |rows| - 1;
      FitsPrefix(rows, n);
      PlaceRowsOff(ts, rows[..n], i);
      PlaceSquaresOff(PlaceRows(ts, rows[..n]), RankEight - n, RowSquares(rows[n]), i);
    }
  }

  /** The placement keeps a board sane: a square it reaches is on the board under its own coordinate. */
  lemma PlaceRowsSane(ts: seq<ChessBoardTile>, rows: seq<string>)
    requires SaneTiles(ts) && MasksIntact(ts) && FitsBoard(rows)
    ensures SaneTiles(PlaceRows(ts, rows)) && MasksIntact(PlaceRows(ts, rows))
  {
    var r := PlaceRows(ts, rows);
    forall i | 0 <= i < BoardSize
      ensures r[i].IsOnBoard() ==> IsPlayable(i) && r[i].coords == CoordAt(i)
      ensures r[i].coords.coordinate < 128
    {
      if IsPlayable(i) {
        PlayableIsSquare(i);
        var f, rk := (i - 21) % 10, (i - 21) / 10;
        assert i == SquareIndex(f, rk);
        PlaceRowsAt(ts, rows, f, rk);
        EncodeDecode(f, rk);
      } else {
        PlaceRowsOff(ts, rows, i);
      }
    }
  }

  // ---------------------------------------------------------------- the state fields

  /** The right a castling-field character grants: K 1, Q 2, k 4, q 8; any other character none. */
  function CastleLetter(c: char): (bit: int)
    ensures IsCastleSet(bit)
  {
    if c == 'K' then WhiteKingCastle
    else if c == 'Q' then WhiteQueenCastle
    else if c == 'k' then BlackKingCastle
    else if c == 'q' then BlackQueenCastle
    else 0
  }

  /** The castling loop: each character's right OR-ed into the permission, in order. */
  function CastlingFrom(cp: int, s: string): (r: int)
    requires IsCastleSet(cp)
    ensures IsCastleSet(r)
    decreases |s|
  {
    if s == [] then cp else CastleOr(CastlingFrom(cp, s[..|s| - 1]), CastleLetter(s[|s| - 1]))
  }

  /** OR-ing in a letter's right adds exactly that right. */
  lemma OrLetter(cp: int, c: char, bit: int)
    requires IsCastleSet(cp) && bit in {WhiteKingCastle, WhiteQueenCastle, BlackKingCastle, BlackQueenCastle}
    ensures HasRight(CastleOr(cp, CastleLetter(c)), bit) <==> HasRight(cp, bit) || CastleLetter(c) == bit
  {
  }

  /** The letter granting each right. */
  function LetterOf(bit: int): char {
    if bit == WhiteKingCastle then 'K'
    else if bit == WhiteQueenCastle then 'Q'
    else if bit == BlackKingCastle then 'k'
    else 'q'
  }

  /**
   * The castling field grants a right exactly when its letter (K, Q, k or q)
   * occurs in it: starting from no rights, CastlePermission is the OR of
   * the letters' bits, whatever else the field holds and in any order.
   */
  lemma {:induction false} CastlingRights(s: string, bit: int)
    requires bit in {WhiteKingCastle, WhiteQueenCastle, BlackKingCastle, BlackQueenCastle}
    ensures HasRight(CastlingFrom(0, s), bit) <==> LetterOf(bit) in s
    decreases |s|
  {
    if s != [] {
      var n := |s| - 1;
      CastlingRights(s[..n], bit);
      OrLetter(CastlingFrom(0, s[..n]), s[n], bit);
      assert s == s[..n] + [s[n]];
    }
  }

  /** ParsePositionFromString followed by GetTileIndexAt: the cell the en-passant field names. */
  function EpCell(tok: string): (i: int)
    requires |tok| >= 2
    ensures 'a' <= tok[0] <= 'h' && '1' <= tok[1] <= '8' ==>
      IsPlayable(i) && i == SquareIndex(tok[0] as int - 'a' as int, tok[1] as int - '1' as int)
  {
    var fr := ParsePositionFromString(tok);
    GetTileIndexAt(fr.0, fr.1)
  }

  /** The side the first state token names: White for "w", Black for anything else. */
  function SideOf(tok: string): (side: PieceColor)
    ensures side == White <==> tok == "w"
    ensures side == White || side == Black
  {
    if tok == "w" then White else Black
  }

  /**
   * The state fields: the side, the castling letters OR-ed into the
   * permission unless the field is "-", the en-passant cell unless the
   * field is "-", and the position key computed afresh. None when the
   * second or third token is missing, or the en-passant token is shorter
   * than two characters or names a cell past the 120-cell tables.
   */
  function ReadState(k: HashKeys, p: Position, toks: seq<string>): (r: Option<Position>)
    requires KeysShape(k) && Shaped(p) && toks != []
    ensures r.Some? ==> Shaped(r.value) && r.value.tiles == p.tiles && r.value.lists == p.lists
  {
    var side := SideOf(toks[0]);
    if |toks| < 3 then None
    else
      var cp := if toks[1] == "-" then p.cp else CastlingFrom(p.cp, toks[1]);
      if toks[2] != "-" && (|toks[2]| < 2 || !(0 <= EpCell(toks[2]) < BoardSize)) then None
      else
        var ep := if toks[2] == "-" then p.ep else Some(EpCell(toks[2]));
        Some(p.(side := side, cp := cp, ep := ep, hash := PositionHash(k, p.tiles, side, ep, cp)))
  }

  /** The placement put down on the reset board, then the state fields when there are any. */
  function LoadRows(k: HashKeys, p: Position, rows: seq<string>, toks: seq<string>): (r: Option<Position>)
    requires KeysShape(k) && Shaped(p)
    ensures r.Some? ==> Shaped(r.value) && r.value.lists == p.lists
  {
    if !FitsBoard(rows) then None
    else
      PlaceRowsSane(p.tiles, rows);
      var p1 := p.(tiles := PlaceRows(p.tiles, rows));
      if toks == [] then Some(p1) else ReadState(k, p1, toks)
  }

  /** The placement rows and the state tokens of a FEN that holds a space once trimmed. */
  function Parts(fen: string): Option<(seq<string>, seq<string>)> {
    match SplitFirst(Trim(fen), ' ')
    case None => None
    case Some(halves) => Some((Fields(halves.0, {'/'}), Fields(halves.1, Spaces)))
  }

  /**
   * InitBoard: nothing for an empty string; otherwise ResetBoard, and when
   * the trimmed string splits at a space, the placement and state fields
   * (the state only when there is a placement), then UpdateListsMaterial.
   */
  function LoadFen(k: HashKeys, p: Position, fen: string): (r: Option<Position>)
    requires KeysShape(k) && Shaped(p)
    ensures r.Some? ==> Shaped(r.value)
  {
    if fen == [] then Some(p)
    else
      ResetShaped(p);
      var p0 := ResetPosition(p);
      match Parts(fen)
      case None => Some(p0)
      case Some(parts) =>
        var p2 := if parts.0 == [] then Some(p0) else LoadRows(k, p0, parts.0, parts.1);
        match p2
        case None => None
        case Some(q) => TallyTiles(q, q.tiles, BoardSize)
  }

  /** The load generates the moves afterwards exactly when the string is not empty and splits at a space. */
  predicate Generates(fen: string) {
    fen != [] && Parts(fen).Some?
  }

  // ---------------------------------------------------------------- what a load leaves

  /** UpdateListsMaterial changes only the lists, the counters, the material and the king cache. */
  lemma {:induction false} TallyKeepsState(p: Position, ts: seq<ChessBoardTile>, n: nat)
    requires Shaped(p) && SaneTiles(ts) && n <= BoardSize && TallyTiles(p, ts, n).Some?
    ensures var r := TallyTiles(p, ts, n).value;
      r.tiles == p.tiles && r.side == p.side && r.ep == p.ep && r.cp == p.cp && r.hash == p.hash && r.fifty == p.fifty
  {
    if n > 0 {
      TallyKeepsState(p, ts, n - 1);
    }
  }

  /** Loading any FEN string but the empty one starts from ResetBoard: it forgets the position it starts from. */
  lemma LoadForgets(k: HashKeys, p: Position, q: Position, fen: string)
    requires KeysShape(k) && Shaped(p) && Shaped(q) && fen != []
    ensures LoadFen(k, p, fen) == LoadFen(k, q, fen)
  {
    ResetForgets(p, q);
  }

  /** A string that does not split at a space only resets the board. */
  lemma LoadUnsplit(k: HashKeys, p: Position, fen: string)
    requires KeysShape(k) && Shaped(p) && fen != [] && Parts(fen).None?
    ensures LoadFen(k, p, fen) == Some(ResetPosition(p))
  {
  }

  /**
   * A loaded FEN with a placement: the reset board with the placement put
   * down, the side White exactly for "w", the castling letters OR-ed into
   * an empty permission unless the field is "-", the en-passant cell
   * unless that field is "-" (no state tokens at all leave the reset
   * values), and piece lists that agree with the board, each at most
   * Capacity long.
   */
  lemma LoadedPosition(k: HashKeys, p: Position, fen: string)
    requires KeysShape(k) && Shaped(p) && fen != [] && Parts(fen).Some? && Parts(fen).value.0 != []
    requires LoadFen(k, p, fen).Some?
    ensures var r := LoadFen(k, p, fen).value;
      var rows := Parts(fen).value.0;
      var toks := Parts(fen).value.1;
      && FitsBoard(rows) && r.tiles == PlaceRows(ResetTiles(p.tiles), rows)
      && (toks != [] ==> |toks| >= 3)
      && r.side == (if toks == [] then Both else SideOf(toks[0]))
      && r.cp == (if toks == [] || toks[1] == "-" then 0 else CastlingFrom(0, toks[1]))
      && r.ep == (if toks == [] || toks[2] == "-" then None else Some(EpCell(toks[2])))
      && r.hash == (if toks == [] then 0 else PositionHash(k, r.tiles, r.side, r.ep, r.cp))
      && r.lists == BoardLists(r.tiles) && ListsMatch(r.tiles, r.lists)
  {
    ResetShaped(p);
    var p0 := ResetPosition(p);
    var rows := Parts(fen).value.0;
    var toks := Parts(fen).value.1;
    var q := LoadRows(k, p0, rows, toks).value;
    TallyKeepsState(q, q.tiles, BoardSize);
    UpdateListsMatch(q, q.tiles);
  }

  /**
   * The castling field of a loaded FEN: with "-" no right is held;
   * otherwise a right is held exactly when its letter (K, Q, k, q) occurs.
   * With "-" in the en-passant field no en-passant tile is set.
   */
  lemma LoadedRights(k: HashKeys, p: Position, fen: string, bit: int)
    requires KeysShape(k) && Shaped(p) && fen != [] && Parts(fen).Some? && Parts(fen).value.0 != []
    requires LoadFen(k, p, fen).Some? && Parts(fen).value.1 != []
    requires bit in {WhiteKingCastle, WhiteQueenCastle, BlackKingCastle, BlackQueenCastle}
    ensures var r := LoadFen(k, p, fen).value;
      var toks := Parts(fen).value.1;
      && (toks[1] == "-" ==> r.cp == 0)
      && (toks[1] != "-" ==> (HasRight(r.cp, bit) <==> LetterOf(bit) in toks[1]))
      && (toks[2] == "-" ==> r.ep.None?)
      && (r.side == White <==> toks[0] == "w")
  {
    LoadedPosition(k, p, fen);
    CastlingRights(Parts(fen).value.1[1], bit);
  }

  /** A loaded FEN without more than Capacity pieces of any code: the load fails on a full list exactly when some code has more. */
  lemma LoadOverflow(k: HashKeys, p: Position, fen: string)
    requires KeysShape(k) && Shaped(p) && fen != [] && Parts(fen).Some? && Parts(fen).value.0 != []
    requires LoadRows(k, ResetPosition(p), Parts(fen).value.0, Parts(fen).value.1).Some?
    ensures var ts := LoadRows(k, ResetPosition(p), Parts(fen).value.0, Parts(fen).value.1).value.tiles;
      LoadFen(k, p, fen).Some? <==> forall c :: 0 <= c < PieceCodes ==> |Occupied(ts, c)| <= Capacity
  {
    ResetShaped(p);
    var q := LoadRows(k, ResetPosition(p), Parts(fen).value.0, Parts(fen).value.1).value;
    UpdateListsMatch(q, q.tiles);
  }

  /** A row's squares only grow as more of it is read. */
  lemma {:induction false} RowGrows(row: string, j: nat)
    requires j <= |row|
    ensures |RowSquares(row[..j])| <= |RowSquares(row)|
    decreases |row| - j
  {
    if j < |row| {
      RowGrows(row, j + 1);
      assert row[..j + 1][..j] == row[..j];
    } else {
      assert row[..j] == row;
    }
  }

  /** The reference lists of a sane board name only canonical coordinates of squares. */
  lemma BoardListsShape(ts: seq<ChessBoardTile>)
    requires SaneTiles(ts)
    ensures ListsShape(BoardLists(ts))
  {
    forall c | 0 <= c < PieceCodes
      ensures AllListed(BoardLists(ts)[c])
    {
      ListOfEntries(ts, c, BoardSize);
    }
  }

  /** The placement loop's step: one more row goes down on the next rank. */
  lemma PlaceRowsNext(ts: seq<ChessBoardTile>, rows: seq<string>, k: nat)
    requires |ts| == BoardSize && FitsBoard(rows) && k < |rows|
    ensures FitsBoard(rows[..k]) && FitsBoard(rows[..k + 1]) && |RowSquares(rows[k])| <= 8
    ensures PlaceRows(ts, rows[..k + 1]) == PlaceSquares(PlaceRows(ts, rows[..k]), RankEight - k, RowSquares(rows[k]))
  {
    FitsPrefix(rows, k);
    FitsPrefix(rows, k + 1);
    assert rows[..k + 1][..k] == rows[..k];
  }

  /** The character loop's step: one more character adds its run of squares. */
  lemma RowSquaresNext(row: string, j: nat)
    requires j < |row|
    ensures RowSquares(row[..j + 1]) == RowSquares(row[..j]) + Expand(row[j])
  {
    assert row[..j + 1][..j] == row[..j];
  }

  /** The count loop's step: one more square of the row is put down. */
  lemma PlaceSquaresNext(ts: seq<ChessBoardTile>, rank: int, sq: seq<TileState>, piece: TileState)
    requires |ts| == BoardSize && IsReal(rank) && |sq| < 8
    ensures PlaceSquares(ts, rank, sq + [piece]) == Put(PlaceSquares(ts, rank, sq), rank, |sq|, piece)
  {
    assert (sq + [piece])[..|sq|] == sq;
  }

  /** Room for every piece: no code is on more than Capacity tiles. */
  predicate RoomFor(ts: seq<ChessBoardTile>)
    requires |ts| == BoardSize
  {
    forall c :: 0 <= c < PieceCodes ==> |ListOf(ts, c, BoardSize)| <= Capacity
  }
}
