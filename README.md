# UnrealChess position engine, modelled in Dafny

This project models the chess position engine of UnrealChess: the game state that holds the
board, the piece lists, the counters and the position hash, and that loads a position from a FEN
string, generates moves and plays them.

- `UChessGameState` is the imperative class `GameState.ChessGameState`.
  - The 120-cell mailbox board is an `array<ChessBoardTile>` that the methods update in place.
  - The piece lists are a 13 × `Capacity` `array2`.
  - The counters (piece counts, material, big/major/minor counts, pawn bitboards, king squares)
    are fields that the methods reassign.
- Every state-changing method is proved against a value-level specification in `Position`:
  - `Abs()` reads the object into a `Position` value;
  - each method's postcondition says `Abs()` equals a function of the old one;
  - those functions carry their own proved properties.
- The value types of the engine are datatypes:
  - `FTileCoord` is `TileCoordinate.TileCoord`;
  - `FChessPiece` / `ETileState` is `ChessDefinitions.TileState`;
  - `FChessMove` is `ChessMove.ChessMove`, a packed `bv32`;
  - `FChessTileState` / `FChessBoardTile` is `ChessBoardTile.ChessBoardTile`.
- Module by module:
  - `UChessGameStatics` is in `ChessGameStatics`.
  - The board tables (120↔64 conversion, file and rank tables, castle masks) are in `Board` and
    `Tables`.
  - Bit operations are in `Bits`; the Zobrist hash is in `Hash`.
  - The piece-list tally is in `PieceLists`; FEN loading is in `Fen`.
  - Move generation is in `MoveGeneration`, `Attack` and `MoveGenProperties`.
  - The effect of `MakeMove` is in `Position` and `MoveEffects`.
  - The invariant that ties the piece lists, counters and hash to the board is in `Consistency`.

Integer widths are explicit where they matter:
- a packed move is a `bv32`;
- the hash and the pawn bitboards are `bv64`;
- the file and rank enums are `uint8` values reduced modulo 256.

The hash keys, which the source draws from `FMath::Rand`, are a parameter of the model.

Where the code departs from the rules of chess, the model follows the code as written:
- an en-passant capture clears the cell ten behind the mover's From cell (`ChessGameState.cpp:513`
  and `:517`), not the captured pawn's cell;
- castling to C1 moves the rook from A1 to B1 (`:525`), and castling to G8 "moves" the rook from H8
  to H8 (`:537`);
- `AddPiece` adds the piece's code, not its cost, to the material (`:437`);
- `MakeMove` returns `true` when the mover's king is left attacked (`:612-618`);
- the pawn generators make captures and en-passant moves only when the square ahead is empty
  (`:645-703` and `:721-779`).
The three defects listed under "## Findings" are modelled both ways. Two of them are the exceptions to
the rule above: the engine class runs the corrected variant of the `ClearPiece` list fill (Findings row 1)
and of the `GeneratePositionHashKey` piece test (Findings row 2), so every member built on them (`ClearPiece`,
`MakeMove`, `InitBoard`, `Fen.LoadFen`) describes the intended program. "## Left out" names each of them.

## Model

| member | source | states |
|---|---|---|
| TileCoordinate.DefaultCoord | Source/UnrealChess/TileCoordinate.h:35-36 | the default coordinate is NoTile with file and rank None, and is not valid |
| TileCoordinate.FromCombined | Source/UnrealChess/TileCoordinate.cpp:4-64 | keeps the combined value; rank and file are real (below 8) exactly when the value is not NoTile |
| TileCoordinate.FromFileRank | Source/UnrealChess/TileCoordinate.cpp:66-70 | keeps file and rank; for a real file and rank the combined value is 21 + 10·rank + file, a playable cell |
| TileCoordinate.PlayableIsSquare | Source/UnrealChess/TileCoordinate.h:12-19 | a cell is playable (one of A1..H8 in ETileCoord) exactly when (i-21)/10 and (i-21)%10 are both a real rank and file |
| TileCoordinate.SquareIsPlayable | Source/UnrealChess/TileCoordinate.h:12-19 | 21 + 10·r + f is playable and decodes back to r and f |
| TileCoordinate.DecodePlayable | Source/UnrealChess/TileCoordinate.cpp:16-62 | the eight window tests decode a playable cell to rank (i-21)/10 and file (i-21)%10, a valid coordinate |
| TileCoordinate.DecodeOutsideWindows | Source/UnrealChess/TileCoordinate.cpp:4-14 | a value that is neither NoTile nor inside a window keeps the value-initialised rank One and file A, so IsValid holds for an off-board cell |
| TileCoordinate.EncodeDecode | Source/UnrealChess/TileCoordinate.cpp:16-70 | decoding the combined value of FTileCoord(File, Rank) gives the same coordinate back |
| TileCoordinate.DecodeEncode | Source/UnrealChess/TileCoordinate.cpp:16-70 | re-encoding the file and rank decoded from a playable cell gives the same coordinate back |
| TileCoordinate.EqualsCanonical | Source/UnrealChess/TileCoordinate.h:83-89 | on playable cells operator== (equality of the combined value) is equality of the whole coordinate and of the cell |
| ChessDefinitions.GetCode | Source/UnrealChess/ChessDefinitions.cpp:40-43 | the code lies in 0..12, is 0 only for the empty piece, 1..6 exactly for white pieces and 7..12 exactly for black ones |
| ChessDefinitions.GetPieceFromCode | Source/UnrealChess/ChessDefinitions.h:148 | returns the piece of a code in 0..12 and the empty piece for any other value |
| ChessDefinitions.CodeRoundTrip | Source/UnrealChess/ChessDefinitions.h:118-121 | GetPieceFromCode inverts GetCode, so the thirteen codes name thirteen distinct pieces |
| ChessDefinitions.EqualityIsCodeEquality | Source/UnrealChess/ChessDefinitions.cpp:27-38 | operator== on pieces holds exactly when their codes are equal; operator!= is its negation |
| ChessDefinitions.ColorCode | Source/UnrealChess/ChessDefinitions.h:65-71 | EPieceColor as int32: White 0, Black 1, the others 2 or 3 |
| ChessDefinitions.GetColorCode | Source/UnrealChess/ChessDefinitions.cpp:60-63 | 0 for a white piece, 1 for a black one, and 3 (NoColor) for the empty piece, as the header's "[2-3] if invalid" says |
| ChessDefinitions.Opponent | Source/UnrealChess/ChessGameState.cpp:607-609 | `Side ^ 1` maps White to Black and Black to White |
| ChessDefinitions.FlipCodeIsXor | Source/UnrealChess/ChessGameState.cpp:607-609 | the arithmetic flip of a colour code equals the exclusive or of its bits with 1 |
| ChessDefinitions.FlipSwapsSides | Source/UnrealChess/ChessGameState.cpp:607-609 | flipping the side twice gives it back, and the flip swaps the two playing colours |
| ChessDefinitions.PieceOf | Source/UnrealChess/ChessDefinitions.h:11-39 | the piece of a role and a playing colour is real, has that role and that colour |
| ChessDefinitions.CostIsColourBlind | Source/UnrealChess/ChessDefinitions.cpp:7-23 | the white and the black piece of every role have the same positive cost |
| ChessDefinitions.IsAExactly | Source/UnrealChess/ChessDefinitions.cpp:80-104 | IsA(role) holds exactly for the white and the black piece of that role, never for the empty piece |
| ChessDefinitions.RoleIsUnique | Source/UnrealChess/ChessDefinitions.cpp:80-104 | every real piece satisfies IsA for exactly one role |
| ChessDefinitions.BigMajorMinor | Source/UnrealChess/ChessDefinitions.h:78-85 | big means non-pawn; a big piece is major, minor or a king; no piece is both major and minor |
| ChessDefinitions.GetMoveDirections | Source/UnrealChess/ChessDefinitions.h:90-91 | every offset in a piece's direction table is nonzero and at most 21 cells |
| ChessDefinitions.GetSlidingPiecesByColor | Source/UnrealChess/ChessDefinitions.h:96-100 | lists only real pieces of the given colour, all of whose directions are single steps to a neighbour |
| ChessDefinitions.GetNonSlidingPiecesByColor | Source/UnrealChess/ChessDefinitions.h:102-106 | lists only real pieces of the given colour |
| ChessDefinitions.FromCharTable | Source/UnrealChess/ChessDefinitions.cpp:106-139 | a character gives a real piece exactly when it is one of the twelve FEN letters; upper case is white and lower case black; the letter reads back |
| ChessDefinitions.LetterRoundTrip | Source/UnrealChess/ChessDefinitions.cpp:106-139 | the FEN letter of every real piece reads back as that piece |
| ChessDefinitions.DigitsAreEmpty | Source/UnrealChess/ChessDefinitions.cpp:136-137 | every digit falls to the default case and gives the empty piece |
| ChessDefinitions.CastleAnd | Source/UnrealChess/ChessDefinitions.h:176-191 | the AND of two castling sets is a castling set |
| ChessDefinitions.CastleOr | Source/UnrealChess/ChessDefinitions.h:176-191 | the OR of two castling sets is a castling set |
| ChessDefinitions.CastlingBits | Source/UnrealChess/ChessDefinitions.h:176-191 | any two of the four castling values share no bit, each is its own mask, their OR is 15, and OR-ing any one of them into a castling set grants exactly that right and keeps every other right as it was |
| ChessDefinitions.OrGrants | Source/UnrealChess/ChessDefinitions.h:176-191 | for one set and two castling values b and c: c is held after OR-ing b exactly when c is b or was already held |
| ChessDefinitions.AndIsSubset | Source/UnrealChess/ChessGameState.cpp:13-19 | AND with a mask keeps exactly the rights held in both, so it never grants a right |
| ChessMove.ChessMove.GetFromTileIndex | Source/UnrealChess/ChessMove.h:37 | the from index is a seven-bit value |
| ChessMove.ChessMove.GetFrom | Source/UnrealChess/ChessMove.h:38 | the decoded coordinate holds the from index |
| ChessMove.ChessMove.GetToTileIndex | Source/UnrealChess/ChessMove.h:40 | the to index is a seven-bit value |
| ChessMove.ChessMove.GetTo | Source/UnrealChess/ChessMove.h:41 | the decoded coordinate holds the to index |
| ChessMove.ChessMove.GetCapturedPiece | Source/UnrealChess/ChessMove.h:43 | the captured field is a four-bit value |
| ChessMove.ChessMove.GetPromotedPiece | Source/UnrealChess/ChessMove.h:44 | the promoted field is a four-bit value |
| ChessMove.DefaultMove | Source/UnrealChess/ChessMove.h:17-27 | the defaulted move decodes to from 0, to 0, no capture, no promotion and no flag |
| ChessMove.CodeOf | Source/UnrealChess/ChessMove.cpp:8-9 | a null piece pointer packs as 0, any other as its piece code |
| ChessMove.NewMoveRoundTrip | Source/UnrealChess/ChessMove.cpp:5-18 | when both indices fit in seven bits and Flags holds only move flags, each accessor returns exactly the part the constructor packed |
| ChessMove.PackRoundTrip | Source/UnrealChess/ChessMove.cpp:11-17 | the packing expression is undone field by field by the accessors |
| ChessMove.DecodeEncode | Source/UnrealChess/ChessMove.h:37-48 | re-packing the decoded parts and flags of a move with no stray bits gives the same move |
| ChessMove.GetFromOfPlayable | Source/UnrealChess/ChessMove.cpp:25-38 | a move packed from two playable coordinates decodes back to those same coordinates |
| ChessMove.FlagsAreDisjoint | Source/UnrealChess/ChessMove.h:23-25 | the three flags are single bits 18, 19 and 24, outside the four fields |
| ChessMove.FlagsOf | Source/UnrealChess/ChessMove.h:46-48 | the flag part of a move holds only move flags |
| ChessGameStatics.GetTileIndexAt | Source/UnrealChess/ChessGameStatics.cpp:33-36 | for a real file and rank the index is the playable cell 21 + 10·rank + file |
| ChessGameStatics.TileIndexIsCoordinate | Source/UnrealChess/ChessGameStatics.cpp:33-36 | GetTileIndexAt agrees with the value FTileCoord(File, Rank) stores and decodes back to that coordinate |
| ChessGameStatics.TileIndexOfCell | Source/UnrealChess/ChessGameStatics.cpp:33-36 | the file and rank of a playable cell are real, and GetTileIndexAt gives the cell back |
| ChessGameStatics.GetTileIndexAt64 | Source/UnrealChess/ChessGameStatics.cpp:38-41 | for a real file and rank the index lies in 0..63 with rank index/8 and file index%8 |
| ChessGameStatics.Index64Injective | Source/UnrealChess/ChessGameStatics.cpp:33-41 | both tile indices are injective on real file/rank pairs |
| ChessGameStatics.ParsePositionFromString | Source/UnrealChess/ChessGameStatics.cpp:68-71 | the file is s[0]-'a' and the rank s[1]-'1'; for 8-bit characters the file or rank is real exactly when the character is in a..h or 1..8 |
| ChessGameStatics.SquareName | Source/UnrealChess/ChessGameStatics.cpp:68-71 | the algebraic name of a real square is two characters in a..h and 1..8 |
| ChessGameStatics.ParseSquareName | Source/UnrealChess/ChessGameStatics.cpp:68-71 | parsing the algebraic name of a square gives back its file and rank |
| ChessGameStatics.ParseE3 | Source/UnrealChess/ChessGameStatics.cpp:33-36 | "e3" is file E, rank Three, tile 45 |
| ChessGameStatics.CaptureAndPromotionFlags | Source/UnrealChess/ChessGameStatics.cpp:8-31 | IsCaptureMove and IsPromotionMove hold exactly when a real captured or promoted piece was packed; the flag predicates hold exactly when the flag was packed |
| ChessBoardTile.ChessTileState.SetPiece | Source/UnrealChess/ChessBoardTile.h:20-23 | the state holds the given piece and is empty exactly when that piece is the empty one |
| ChessBoardTile.ChessTileState.ClearTile | Source/UnrealChess/ChessBoardTile.h:25-28 | the state is empty afterwards |
| ChessBoardTile.ChessBoardTile.Reset | Source/UnrealChess/ChessBoardTile.h:54-58 | the tile is empty and off the board with the default coordinate; the castle mask is kept |
| ChessBoardTile.ChessBoardTile.SetPiece | Source/UnrealChess/ChessBoardTile.h:65-68 | only the piece changes |
| ChessBoardTile.ChessBoardTile.SetPosition | Source/UnrealChess/ChessBoardTile.h:76-79 | only the coordinate changes; the tile is on the board exactly when the coordinate is valid |
| ChessBoardTile.ChessBoardTile.SetPositionFileRank | Source/UnrealChess/ChessBoardTile.h:81-84 | only the coordinate changes, to the given file and rank; for a real square it is the canonical coordinate of its cell |
| ChessBoardTile.ChessBoardTile.GetPieceAsInt | Source/UnrealChess/ChessBoardTile.h:98 | the code lies in 0..12 and is 0 exactly on an empty tile |
| ChessBoardTile.DefaultTile | Source/UnrealChess/ChessBoardTile.h:45-49 | the default tile is empty, off the board, with castle mask 15 |
| ChessBoardTile.TileWithMask | Source/UnrealChess/ChessBoardTile.h:50-52 | FChessBoardTile(Value) is empty, off the board, keeps Value as its mask, and is unchanged by Reset |
| ChessBoardTile.HasPieceAsWrittenIsDead | Source/UnrealChess/ChessBoardTile.h:104-107 | as written, HasPiece is false on every on-board tile |
| ChessBoardTile.HasPieceCounterexample | Source/UnrealChess/ChessBoardTile.h:104-107 | an on-board e2 tile holding a white pawn has the pawn, but HasPiece as written says it does not |
| ChessBoardTile.HasPieceIntended | Source/UnrealChess/ChessBoardTile.h:103-107 | the intended HasPiece holds exactly for the real piece on the tile, and the as-written one implies it |
| ChessBoardTile.ResetThenPlace | Source/UnrealChess/ChessBoardTile.h:54-84 | Reset, SetPiece, SetPosition(File, Rank) rebuild an on-board tile holding the piece at that square with the same mask |
| Board.CastleMask | Source/UnrealChess/ChessGameState.cpp:13-19 | every cell's mask is a castling set: A1 13, E1 12, H1 14, A8 7, E8 3, H8 11, every other cell 15 |
| Board.CastleMaskRights | Source/UnrealChess/ChessGameState.cpp:13-19 | the masks differ from 15 exactly on the six castle squares; a king square clears both rights of its side and keeps the other side's; a corner clears exactly its rook's right |
| Board.InitialBoard | Source/UnrealChess/ChessGameState.cpp:10-19 | the constructor's board holds, cell by cell, a default tile or a tile carrying its castle mask |
| Board.InitialBoardShape | Source/UnrealChess/ChessGameState.cpp:10-19 | the constructor's board is empty, has no on-board tile and carries every castle mask |
| Board.SaneIsIndexed | Source/UnrealChess/ChessBoardTile.h:114-118 | on a well-formed board every on-board cell is playable and knows its own index |
| Board.SaneCellIndex | Source/UnrealChess/ChessBoardTile.h:70-74 | on a well-formed board an on-board cell's coordinate names that cell |
| Board.Pieces | Source/UnrealChess/ChessBoardTile.h:109-112 | the board's pieces, cell by cell, with the same length |
| Board.Sq64 | Source/UnrealChess/ChessGameState.cpp:1050-1062 | the 64-square index of a playable cell lies in 0..63 |
| Board.Sq120 | Source/UnrealChess/ChessGameState.cpp:1050-1062 | the cell of a 64-square index is playable |
| Board.Table120 | Source/UnrealChess/ChessGameState.cpp:1030-1065 | Array120To64Converter holds the 64-square index on each playable cell and 65 on every other cell |
| Board.Table64 | Source/UnrealChess/ChessGameState.cpp:1030-1065 | Array64To120Converter holds the playable cell of each square |
| Board.FileTable | Source/UnrealChess/ChessGameState.cpp:1077-1103 | BoardFiles holds each playable cell's file and None elsewhere |
| Board.RankTable | Source/UnrealChess/ChessGameState.cpp:1077-1103 | BoardRanks holds each playable cell's rank and None elsewhere |
| Board.ConvertersInverse | Source/UnrealChess/ChessGameState.cpp:1030-1075 | the two converters are inverse bijections between the 64 squares and the 64 playable cells |
| Board.Sq64OfSq120 | Source/UnrealChess/ChessGameState.cpp:1067-1075 | GetTileAs64 undoes GetTileAs120 |
| Board.Sq120OfSq64 | Source/UnrealChess/ChessGameState.cpp:1067-1075 | GetTileAs120 undoes GetTileAs64 on playable cells |
| Board.NumberOfSquare | Source/UnrealChess/ChessGameStatics.cpp:38-41 | each of the 64 squares is Rank * 8 + File of a real file and rank |
| Board.CellOfPlayable | Source/UnrealChess/ChessGameState.cpp:1091-1101 | a playable cell is the square of its table file and rank, numbered rank * 8 + file |
| Board.Sq64OfSquare | Source/UnrealChess/ChessGameStatics.cpp:33-41 | the 64-square index of GetTileIndexAt(File, Rank) is GetTileIndexAt_64(File, Rank), and back |
| GameState.ChessGameState.constructor | Source/UnrealChess/ChessGameState.cpp:10-26 | the object is valid with the constructor's board (default tiles and the six castle masks), empty lists, no en-passant tile, no castling right and key 0 |
| GameState.ChessGameState.NewBoard | Source/UnrealChess/ChessGameState.cpp:10-19 | a fresh board equal to the constructor's board |
| GameState.ChessGameState.NewTables | Source/UnrealChess/ChessGameState.cpp:21-25 | fresh conversion, file, rank and mask tables equal to their specifications |
| GameState.ChessGameState.NewMasks | Source/UnrealChess/ChessGameState.cpp:1105-1112 | fresh SetMask and ClearMask arrays filled by MakeBitMasks from zero |
| GameState.ChessGameState.MakeBitMasks | Source/UnrealChess/ChessGameState.cpp:1105-1112 | SetMask[i] gains bit i and ClearMask[i] is its complement, for each square |
| GameState.ChessGameState.MakeConverterArray120To64 | Source/UnrealChess/ChessGameState.cpp:1030-1065 | the two loops fill both converters with their specifications |
| GameState.ChessGameState.MakeFilesRanksArrays | Source/UnrealChess/ChessGameState.cpp:1077-1103 | the two loops fill BoardFiles and BoardRanks with their specifications |
| GameState.ChessGameState.GetTileAs64 | Source/UnrealChess/ChessGameState.cpp:1067-1070 | the square of a playable cell, which GetTileAs120 maps back; 65 for any other cell |
| GameState.ChessGameState.GetTileAs120 | Source/UnrealChess/ChessGameState.cpp:1072-1075 | a playable cell that GetTileAs64 maps back to the square |
| GameState.ChessGameState.ClearBit | Source/UnrealChess/ChessGameState.cpp:1152-1155 | the bitboard with bit Idx cleared |
| GameState.ChessGameState.SetBit | Source/UnrealChess/ChessGameState.cpp:1157-1160 | the bitboard with bit Idx set |
| GameState.ChessGameState.GetPieceAtTile | Source/UnrealChess/ChessGameState.cpp:134-137 | for a real square, the piece on the tile the 64-square table gives for Rank * 8 + File |
| GameState.ChessGameState.CountBits | Source/UnrealChess/ChessGameState.cpp:1143-1150 | the loop that clears the lowest set bit returns the number of set bits |
| GameState.ChessGameState.PopBit | Source/UnrealChess/ChessGameState.cpp:1134-1141 | the bitboard loses its lowest set bit |
| GameState.ChessGameState.HashPiece | Source/UnrealChess/ChessGameState.cpp:948-951 | the key is toggled by the piece's key at the coordinate's cell |
| GameState.ChessGameState.HashCastle | Source/UnrealChess/ChessGameState.cpp:953-956 | the key is toggled by the key of the current castling permission |
| GameState.ChessGameState.HashSide | Source/UnrealChess/ChessGameState.cpp:958-961 | the key is toggled by the side key |
| GameState.ChessGameState.HashEnPassant | Source/UnrealChess/ChessGameState.cpp:963-966 | the key is toggled by the empty piece's key at the en-passant cell, or at cell 99 when none is set |
| Bits.SingleBitIsBit | Source/UnrealChess/ChessGameState.cpp:1109 | `uint64(1) << i` is the word with bit i alone set |
| Bits.SingleBitIsSingle | Source/UnrealChess/ChessGameState.cpp:1109 | SetMask[i] has bit i set and no other bit |
| Bits.SetMasks | Source/UnrealChess/ChessGameState.cpp:1105-1112 | SetMask has 64 entries |
| Bits.ClearMasks | Source/UnrealChess/ChessGameState.cpp:1105-1112 | ClearMask has 64 entries |
| Bits.MaskAt | Source/UnrealChess/ChessGameState.cpp:1105-1112 | SetMask[s] is bit s alone and ClearMask[s] every bit but s |
| Bits.MasksFromZero | Source/UnrealChess/ChessGameState.cpp:1105-1112 | OR-ing bit s into a zero entry and complementing it gives exactly the two mask tables |
| Bits.SetBitOnly | Source/UnrealChess/ChessGameState.cpp:1157-1160 | OR with SetMask[i] sets bit i and keeps every other bit |
| Bits.ClearBitOnly | Source/UnrealChess/ChessGameState.cpp:1152-1155 | AND with ClearMask[i] clears bit i and keeps every other bit |
| Bits.PopCountStep | Source/UnrealChess/ChessGameState.cpp:1148 | `b & (b - 1)` of a nonzero word has exactly one set bit fewer |
| Bits.ClearLowest | Source/UnrealChess/ChessGameState.cpp:1138 | a nonzero bitboard loses exactly one set bit and gains none; zero stays zero |
| Bits.PopCountZero | Source/UnrealChess/ChessGameState.cpp:1148 | only the empty bitboard has no set bit, so CountBits' loop stops exactly there |
| Hash.TilesHashUpdate | Source/UnrealChess/ChessGameState.cpp:1162-1173 | changing one cell changes the tile part of the key by exactly that cell's old and new contributions |
| Hash.TilesHashSame | Source/UnrealChess/ChessGameState.cpp:1162-1173 | cells whose contribution is unchanged leave the tile part of the key unchanged |
| Hash.XorSelf | Source/UnrealChess/ChessGameState.cpp:948-966 | toggling a key twice restores the position key |
| Hash.XorNone | Source/UnrealChess/ChessGameState.cpp:545-548 | with no en-passant tile the en-passant share leaves the key alone |
| Hash.AsWrittenSeesNoPiece | Source/UnrealChess/ChessGameState.cpp:1166-1173 | as written, a board with no piece on an off-board cell adds nothing to the key |
| Hash.EmptyBoard | Source/UnrealChess/ChessGameState.cpp:1190-1203 | a board of empty off-board cells |
| Hash.AsWrittenIgnoresPieces | Source/UnrealChess/ChessGameState.cpp:1169 | as written, the empty board and the board with a white pawn on e2 get the same key for every choice of keys; the intended key differs by exactly the pawn's key at e2 |
| Hash.PawnOnE2Hash | Source/UnrealChess/ChessGameState.cpp:1162-1173 | the intended tile part of the key is the pawn's key at e2 on the e2 board and zero on the empty board |
| Hash.EmptyHashesToZero | Source/UnrealChess/ChessGameState.cpp:1162-1173 | a board of empty cells has tile part zero |
| Position.ZeroCounts | Source/UnrealChess/ChessGameState.cpp:1205-1236 | the per-piece counters start at zero for every piece code |
| Position.FindCoord | Source/UnrealChess/ChessGameState.cpp:398-405 | the index of the first list entry equal to the coordinate, or -1 when no entry equals it |
| Position.FindFrom | Source/UnrealChess/ChessGameState.cpp:398-405 | the same search resumed at a start index past which nothing matched |
| Position.RemoveAt | Source/UnrealChess/ChessGameState.cpp:407-410 | removing entry t by moving the last entry into its slot: one entry fewer, the multiset loses exactly that entry, every other slot kept |
| Position.ClearPieceS | Source/UnrealChess/ChessGameState.cpp:355-411 | ClearPiece succeeds exactly when its checks pass; it then empties that one tile and keeps side, en passant, castling, counter and king cache |
| Position.AfterClear | Source/UnrealChess/ChessGameState.cpp:355-411 | the position after a successful ClearPiece: only the cleared tile changes on the board |
| Position.AddPieceS | Source/UnrealChess/ChessGameState.cpp:413-444 | AddPiece succeeds exactly when its checks pass; it then puts the piece on that one tile and keeps the scalar state |
| Position.AfterAdd | Source/UnrealChess/ChessGameState.cpp:413-444 | the position after a successful AddPiece: only the target tile changes |
| Position.MovePieceS | Source/UnrealChess/ChessGameState.cpp:446-489 | MovePiece succeeds exactly when its checks pass; it then moves the piece between the two tiles and keeps the scalar state |
| Position.AfterMove | Source/UnrealChess/ChessGameState.cpp:446-489 | the position after a successful MovePiece has the board MovedTiles describes |
| Position.MovedTiles | Source/UnrealChess/ChessGameState.cpp:460-464 | To gets From's piece, From is emptied when distinct, every other tile is untouched, coordinates and castle masks kept |
| Position.RookMove | Source/UnrealChess/ChessGameState.cpp:520-543 | the rook relocation for each castling target, as written; every named cell is a playable cell |
| Position.SpecialStep | Source/UnrealChess/ChessGameState.cpp:509-543 | the en-passant clear or castling rook move keeps side, en passant, castling, counter and king cache |
| Position.RightsStep | Source/UnrealChess/ChessGameState.cpp:545-562 | masking the castling permission by the From and To masks and resetting en passant keeps the position well shaped |
| Position.CaptureClears | Source/UnrealChess/ChessGameState.cpp:564-571 | a capture step that takes a piece is ClearPiece on the To cell followed by resetting the counter |
| Position.CaptureStep | Source/UnrealChess/ChessGameState.cpp:564-571 | the fifty-move counter is 0 after a capture and one more otherwise; side, en passant, castling and kings kept |
| Position.PawnStep | Source/UnrealChess/ChessGameState.cpp:575-591 | a pawn move zeroes the counter; a pawn start sets en passant to the passed cell; otherwise en passant and the board are unchanged |
| Position.PromoteStep | Source/UnrealChess/ChessGameState.cpp:595-600 | replacing the moved piece with the promoted one keeps the scalar state |
| Position.MakeMoveS | Source/UnrealChess/ChessGameState.cpp:496-619 | MakeMove on values: a move that completes leaves a well-shaped position (its effects are stated by the MoveEffects lemmas) |
| Position.CompleteMove | Source/UnrealChess/ChessGameState.cpp:564-618 | the capture, pawn and move steps followed by FinishMove keep the position well shaped |
| Position.FinishMove | Source/UnrealChess/ChessGameState.cpp:595-618 | promotion, the king cache, the side flip and the attack test keep the position well shaped |
| Position.HandOver | Source/UnrealChess/ChessGameState.cpp:602-610 | the side to move becomes the opponent, the board is unchanged and the mover's king has a real file and rank |
| Position.TallyTile | Source/UnrealChess/ChessGameState.cpp:973-1020 | counting one tile keeps the board and the position's shape |
| Position.TallyTiles | Source/UnrealChess/ChessGameState.cpp:968-1028 | counting the first n tiles keeps the board and the position's shape |
| Position.TallyPrefix | Source/UnrealChess/ChessGameState.cpp:968-1028 | if counting n tiles succeeds then counting any shorter prefix and its next tile succeeds |
| Position.TallyShrinks | Source/UnrealChess/ChessGameState.cpp:968-1028 | if counting n+1 tiles succeeds then counting n tiles and the n-th tile succeeds |
| Position.ResetTiles | Source/UnrealChess/ChessGameState.cpp:1192-1203 | every tile is empty and reset to the default coordinate, castle masks kept |
| Position.ResetShaped | Source/UnrealChess/ChessGameState.cpp:1190-1239 | the reset position is well shaped: empty board and lists, side Both, no en passant, no castling, off-board tiles with their masks |
| Position.ResetIsInitialBoard | Source/UnrealChess/ChessGameState.cpp:1192-1203 | resetting a board whose masks are intact gives the constructor's initial board |
| Position.ResetForgets | Source/UnrealChess/ChessGameState.cpp:1190-1239 | the reset position does not depend on the position before, and resetting twice is resetting once |
| MoveEffects.MasksShrinkRights | Source/UnrealChess/ChessGameState.cpp:558-560 | masking twice keeps a right exactly when the old permission and both masks hold it |
| MoveEffects.CompleteMoveEffects | Source/UnrealChess/ChessGameState.cpp:564-618 | CompleteMove flips the side, keeps castling, sets the counter, en passant and king cache, and its verdict is the attack test on the mover's king |
| MoveEffects.FinishMoveEffects | Source/UnrealChess/ChessGameState.cpp:595-618 | FinishMove keeps castling, counter and en passant, flips the side and updates the king cache on a king move only |
| MoveEffects.MakeMoveState | Source/UnrealChess/ChessGameState.cpp:496-619 | MakeMove flips the side, only removes castling rights, resets the counter on a capture or pawn move and steps it otherwise, and sets en passant exactly on a pawn start |
| MoveEffects.MakeMoveParts | Source/UnrealChess/ChessGameState.cpp:509-562 | a completed MakeMove is CompleteMove on the position left by the special and rights steps |
| MoveEffects.MakeMoveKingCache | Source/UnrealChess/ChessGameState.cpp:602-605 | the king cache changes only for the mover and only on a king move |
| MoveEffects.MakeMoveVerdict | Source/UnrealChess/ChessGameState.cpp:612-618 | MakeMove's result is whether the mover's king is attacked by the opponent |
| MoveEffects.SpecialPieces | Source/UnrealChess/ChessGameState.cpp:509-543 | the special step on the piece map keeps the board size |
| MoveEffects.PiecesAfterMove | Source/UnrealChess/ChessGameState.cpp:496-619 | the whole move on the piece map keeps the board size |
| MoveEffects.PiecesSet | Source/UnrealChess/ChessBoardTile.h:65-68 | setting one tile's piece updates one entry of the piece map |
| MoveEffects.PiecesMoved | Source/UnrealChess/ChessGameState.cpp:460-464 | moving a piece empties From and puts From's piece on To in the piece map |
| MoveEffects.SpecialStepPieces | Source/UnrealChess/ChessGameState.cpp:509-543 | the special step changes the pieces as SpecialPieces says |
| MoveEffects.CaptureStepPieces | Source/UnrealChess/ChessGameState.cpp:564-571 | the capture step empties To exactly when a captured piece is packed |
| MoveEffects.PromoteStepPieces | Source/UnrealChess/ChessGameState.cpp:595-600 | the promotion step puts the packed promoted piece on To |
| MoveEffects.FinishMoveTiles | Source/UnrealChess/ChessGameState.cpp:595-618 | FinishMove leaves the board the promotion step leaves |
| MoveEffects.CompleteMoveSteps | Source/UnrealChess/ChessGameState.cpp:564-593 | a completed CompleteMove has its capture, pawn and move steps succeed |
| MoveEffects.MoveThenPlace | Source/UnrealChess/ChessGameState.cpp:593-600 | writing To twice keeps only the last write |
| MoveEffects.CompleteMoveMoved | Source/UnrealChess/ChessGameState.cpp:564-593 | after the capture, pawn and move steps the piece on From stands on To and From is empty |
| MoveEffects.CompleteMoveTiles | Source/UnrealChess/ChessGameState.cpp:564-593 | the board after those steps is the captured board with From moved onto To |
| MoveEffects.CapturedThenMoved | Source/UnrealChess/ChessGameState.cpp:564-593 | emptying To and then moving From onto To leaves From's piece on To |
| MoveEffects.CompleteMovePieces | Source/UnrealChess/ChessGameState.cpp:564-600 | CompleteMove moves the piece from From to To, replaced by a packed promoted piece |
| MoveEffects.MakeMoveSteps | Source/UnrealChess/ChessGameState.cpp:509-562 | a completed MakeMove has its special step succeed |
| MoveEffects.MakeMoveBoard | Source/UnrealChess/ChessGameState.cpp:496-619 | the board after MakeMove is PiecesAfterMove of the board before |
| MoveEffects.SpecialStepCells | Source/UnrealChess/ChessGameState.cpp:509-543 | the special step keeps every cell's coordinate and castle mask |
| Attack.RayFirst | Source/UnrealChess/ChessGameState.cpp:184-204 | the ray walk of the attack query reports only a piece, never an empty cell; that it reports exactly the first piece on a clear run is stated by Attack.RayFirstSound and Attack.RayFirstComplete |
| Attack.StepShift | Source/UnrealChess/ChessGameState.cpp:184-204 | k+1 steps from pos are k steps from the next cell; zero steps stay put |
| Attack.RayFirstSound | Source/UnrealChess/ChessGameState.cpp:179-234 | when the walk finds a piece, it stands k cells along the ray and every cell before it is on the board and empty |
| Attack.RayFirstComplete | Source/UnrealChess/ChessGameState.cpp:179-234 | a clear run of k cells followed by a piece makes the walk find that piece |
| Attack.RayStaysInBounds | Source/UnrealChess/ChessGameState.cpp:179-234 | every cell a walk from a playable square reads lies inside the 120-cell array |
| Attack.EmptyBoardIsQuiet | Source/UnrealChess/ChessGameState.cpp:139-248 | on an empty board no square is attacked |
| Attack.EmptyBoardNoRay | Source/UnrealChess/ChessGameState.cpp:179-234 | on an empty board no ray meets a piece |
| Attack.RayEmpty | Source/UnrealChess/ChessGameState.cpp:184-204 | on an empty board the walk finds nothing |
| MoveGeneration.PromotionPieces | Source/UnrealChess/ChessGameState.cpp:281-294 | four promotion pieces, each a big non-king piece of the pawn's colour |
| MoveGeneration.PawnMoves | Source/UnrealChess/ChessGameState.cpp:265-325 | a pawn on its promotion rank fans out into four moves; otherwise a single plain move |
| MoveGeneration.StepMove | Source/UnrealChess/ChessGameState.cpp:838-855 | one knight or king offset gives at most one move |
| MoveGeneration.SlidingDirectionsOk | Source/UnrealChess/ChessDefinitions.h:90-100 | every direction of every sliding piece is one of the eight king offsets |
| MoveGenProperties.PawnMovesFields | Source/UnrealChess/ChessGameState.cpp:265-325 | every pawn move goes From to To with the given capture and no flag, promoting exactly on the promotion rank to queen, rook, bishop, knight in that order |
| MoveGenProperties.PlainMoveFields | Source/UnrealChess/ChessMove.cpp:5-18 | a move packed without flags decodes to its From, To and captured piece |
| MoveGenProperties.PawnCaptureFields | Source/UnrealChess/ChessGameState.cpp:661-672 | a pawn capture takes the enemy piece standing on the diagonal cell |
| MoveGenProperties.EnPassantFields | Source/UnrealChess/ChessGameState.cpp:674-702 | an en-passant capture is a flagged move onto the en-passant tile capturing no recorded piece |
| MoveGenProperties.PawnStartFields | Source/UnrealChess/ChessGameState.cpp:648-659 | the double push carries the pawn-start flag alone |
| MoveGenProperties.PawnPushRules | Source/UnrealChess/ChessGameState.cpp:644-659 | no move at all while the square ahead is occupied; a pawn start exactly from the start rank with both squares ahead empty |
| MoveGenProperties.PawnCapturesFields | Source/UnrealChess/ChessGameState.cpp:661-672 | both diagonal captures take enemy pieces on the two diagonal cells |
| MoveGenProperties.PawnEnPassantFields | Source/UnrealChess/ChessGameState.cpp:674-702 | both en-passant captures land on the en-passant tile, one of the two diagonal cells |
| MoveGenProperties.PawnCaptureRules | Source/UnrealChess/ChessGameState.cpp:661-702 | every capture takes an enemy on a diagonal cell; every en-passant move lands on the en-passant tile |
| MoveGenProperties.PawnMoveRules | Source/UnrealChess/ChessGameState.cpp:631-781 | one generated pawn move starts at the pawn and is a push, a double push, a capture or an en-passant move of the stated shape |
| MoveGenProperties.PawnMovesFromParts | Source/UnrealChess/ChessGameState.cpp:644-703 | a generated pawn move comes from one of its four parts, all made only when the square ahead is empty |
| MoveGenProperties.CaptureMoveFields | Source/UnrealChess/ChessGameState.cpp:800-806 | a ray or step onto an occupied cell makes a capture of the piece there |
| MoveGenProperties.QuietMoveFields | Source/UnrealChess/ChessGameState.cpp:810 | a ray or step onto an empty cell makes a quiet move |
| MoveGenProperties.SlideRayMove | Source/UnrealChess/ChessGameState.cpp:798-812 | the j-th move of one ray lands on the on-board cell pos + j*d |
| MoveGenProperties.RayRun | Source/UnrealChess/ChessGameState.cpp:798-812 | the cells before a ray's last move form a clear run and the last move lands on the board |
| MoveGenProperties.SlideRayCount | Source/UnrealChess/ChessGameState.cpp:798-812 | one ray makes one move per empty cell and one more for an opponent |
| MoveGenProperties.RayCaptureEnd | Source/UnrealChess/ChessGameState.cpp:800-806 | a ray whose last move lands on an occupied cell ends on the first piece met, an opponent |
| MoveGenProperties.RayQuietEnd | Source/UnrealChess/ChessGameState.cpp:798-812 | a ray that ends on an empty cell or makes no move is a clear run, and the next piece is no opponent |
| MoveGenProperties.RayMoveFields | Source/UnrealChess/ChessGameState.cpp:800-810 | the ray move onto a cell captures exactly when the cell is occupied, taking what stands there |
| MoveGenProperties.SlideRayIsRayWalk | Source/UnrealChess/ChessGameState.cpp:783-820 | a ray of the slide generator is the attack query's walk: quiet moves over a clear run, ending in a capture exactly when the first piece met is an opponent |
| MoveGenProperties.SlideRayMoveAt | Source/UnrealChess/ChessGameState.cpp:798-812 | the j-th move goes from the slider onto pos + j*d and captures only when it is the last |
| MoveGenProperties.SlideRayEnd | Source/UnrealChess/ChessGameState.cpp:800-806 | the last move captures exactly when the first piece met is an opponent, and takes that piece |
| MoveGenProperties.ClearRunCells | Source/UnrealChess/ChessGameState.cpp:798-812 | every cell of a clear run is inside the array, on the board and empty |
| MoveGenProperties.StepMoveRules | Source/UnrealChess/ChessGameState.cpp:838-855 | one offset gives at most one move onto an on-board cell: quiet when empty, a capture of an opponent, nothing on an own piece |
| MoveGenProperties.StepMovesRules | Source/UnrealChess/ChessGameState.cpp:822-858 | all offsets of a knight or king give at most one move each, every one onto a playable cell one offset away |
| MoveGenProperties.EachDirCount | Source/UnrealChess/ChessGameState.cpp:836-856 | offsets giving at most one move each give at most one move per offset |
| MoveGenProperties.EachDirMember | Source/UnrealChess/ChessGameState.cpp:836-856 | a move of the offset loop is a move of one of the offsets |
| MoveGenProperties.CastleMoveFields | Source/UnrealChess/ChessGameState.cpp:860-946 | a castling move carries the castling flag alone, from the king's cell to the target |
| MoveGenProperties.WhiteCastlingRules | Source/UnrealChess/ChessGameState.cpp:860-902 | white castles king side exactly with the right, F1 and G1 empty and E1, F1 not attacked; queen side exactly with the right, D1, C1, B1 empty and E1, D1 not attacked |
| MoveGenProperties.BlackCastlingRules | Source/UnrealChess/ChessGameState.cpp:904-946 | the same for black on rank eight against white attacks |
| PieceLists.BoardLists | Source/UnrealChess/ChessGameState.cpp:968-1028 | the reference lists of a board: one list per piece code |
| PieceLists.ListOfEntries | Source/UnrealChess/ChessGameState.cpp:973-1020 | a reference list names exactly the cells holding its code, each once, as canonical coordinates |
| PieceLists.ListOfSound | Source/UnrealChess/ChessGameState.cpp:973-1020 | every entry is the coordinate of a cell below n holding the code |
| PieceLists.ListOfDistinct | Source/UnrealChess/ChessGameState.cpp:973-1020 | no coordinate appears twice |
| PieceLists.ListOfComplete | Source/UnrealChess/ChessGameState.cpp:973-1020 | every cell below n holding the code is listed |
| PieceLists.NothingOfCodeZero | Source/UnrealChess/ChessGameState.cpp:973-1020 | the empty piece's list stays empty |
| PieceLists.BoardListsMatch | Source/UnrealChess/ChessGameState.cpp:968-1028 | the reference lists agree with the board entry by entry and cell by cell |
| PieceLists.ListOfGrows | Source/UnrealChess/ChessGameState.cpp:973-1020 | a reference list only grows as more cells are scanned |
| PieceLists.TallyLists | Source/UnrealChess/ChessGameState.cpp:968-1028 | counting cells 0 to n-1 fails exactly when some code has more than Capacity pieces there; otherwise each list is the reference list |
| PieceLists.TallyStep | Source/UnrealChess/ChessGameState.cpp:973-1020 | one more cell extends the lists by that cell, failing exactly on a full list |
| PieceLists.UpdateListsMatch | Source/UnrealChess/ChessGameState.cpp:968-1028 | from a reset position UpdateListsMaterial fails exactly when some code has more than Capacity pieces, and otherwise leaves lists that agree with the board |
| PieceLists.DistinctNamesAll | Source/UnrealChess/ChessGameState.cpp:398-405 | a list without repeats names as many cells as it has entries |
| PieceLists.ListCountsCells | Source/UnrealChess/ChessGameState.cpp:968-1028 | a list consistent with the board has as many entries as the board has pieces of its code |
| PieceLists.MatchedCounts | Source/UnrealChess/ChessGameState.cpp:968-1028 | with matching lists every piece count is the number of pieces of that code on the board |
| PieceLists.ClearSlotAsWritten | Source/UnrealChess/ChessGameState.cpp:407-410 | the list update as written: defined exactly when the row is not full, leaving one entry fewer |
| PieceLists.ClearSlot | Source/UnrealChess/ChessGameState.cpp:407-410 | the intended update is removal of slot t from the live part with the last live entry moved into its place |
| PieceLists.ClearSlotCounterexample | Source/UnrealChess/ChessGameState.cpp:407-410 | clearing A2 from the list A2, B2 with a stale A1 in the next slot leaves A1 as written and B2 as intended |
| PieceLists.ClearSlotKeepsOthers | Source/UnrealChess/ChessGameState.cpp:407-410 | the intended update keeps a distinct list distinct and drops exactly the cleared coordinate |
| Consistency.ClearKeepsLists | Source/UnrealChess/ChessGameState.cpp:355-411 | emptying a listed cell and removing its entry (last entry into the hole) keeps the lists matching the board |
| Consistency.DistinctAfterRemove | Source/UnrealChess/ChessGameState.cpp:407-410 | filling a hole from the last slot keeps a list free of repeats |
| Consistency.AddKeepsLists | Source/UnrealChess/ChessGameState.cpp:413-444 | placing a piece on an empty on-board cell and appending its coordinate keeps the lists matching the board |
| Consistency.MoveKeepsLists | Source/UnrealChess/ChessGameState.cpp:446-489 | moving a listed piece to an empty on-board cell and rewriting its entry keeps the lists matching the board |
| Consistency.MovedEntries | Source/UnrealChess/ChessGameState.cpp:477-485 | after a move every list entry names a cell holding its code |
| Consistency.MovedDistinct | Source/UnrealChess/ChessGameState.cpp:477-485 | after a move no list repeats a coordinate |
| Consistency.MovedComplete | Source/UnrealChess/ChessGameState.cpp:477-485 | after a move every on-board piece is listed under its code |
| Consistency.HashAfterSet | Source/UnrealChess/ChessGameState.cpp:948-951 | toggling a cell's old and new piece keys gives the key of the updated board |
| Consistency.ClearKeeps | Source/UnrealChess/ChessGameState.cpp:355-411 | ClearPiece keeps board, lists and key consistent |
| Consistency.AddKeeps | Source/UnrealChess/ChessGameState.cpp:413-444 | AddPiece on an empty on-board cell keeps board, lists and key consistent |
| Consistency.MoveKeeps | Source/UnrealChess/ChessGameState.cpp:446-489 | MovePiece to an empty on-board cell keeps board, lists and key consistent |
| Consistency.CoherentKeyIsPositionHash | Source/UnrealChess/ChessGameState.cpp:1162-1188 | with a complete board and matching lists, coherence holds exactly when the stored key is the position key computed from scratch |
| Consistency.SpecialKeeps | Source/UnrealChess/ChessGameState.cpp:509-543 | the special step keeps coherence and cell coordinates, and keeps an empty target empty |
| Consistency.EnPassantKeeps | Source/UnrealChess/ChessGameState.cpp:509-519 | clearing the en-passant victim keeps coherence and empties only that cell |
| Consistency.CastlingKeeps | Source/UnrealChess/ChessGameState.cpp:520-543 | moving the castling rook keeps coherence and leaves the king's target cell as it was |
| Consistency.RightsKeeps | Source/UnrealChess/ChessGameState.cpp:545-562 | the rights step keeps coherence |
| Consistency.CaptureKeeps | Source/UnrealChess/ChessGameState.cpp:564-571 | the capture step keeps coherence, empties To on a capture and leaves the board alone otherwise |
| Consistency.PawnKeeps | Source/UnrealChess/ChessGameState.cpp:575-591 | the pawn step keeps coherence |
| Consistency.PromoteKeeps | Source/UnrealChess/ChessGameState.cpp:595-600 | the promotion step keeps coherence |
| Consistency.SideKeeps | Source/UnrealChess/ChessGameState.cpp:607-610 | flipping the side and toggling the side key keeps coherence |
| Consistency.MakeMoveKeepsCoherence | Source/UnrealChess/ChessGameState.cpp:496-619 | a move that fits the board and completes leaves lists listing exactly the pieces and the key of the new position |
| Consistency.CompleteMovedFromTo | Source/UnrealChess/ChessGameState.cpp:564-593 | a completed move had on-board From and To tiles |
| Consistency.CompleteKeeps | Source/UnrealChess/ChessGameState.cpp:564-618 | CompleteMove keeps coherence when To is on the board and empty unless the move captures |
| Consistency.FinishKeeps | Source/UnrealChess/ChessGameState.cpp:595-618 | FinishMove keeps coherence when To is on the board |
| Fen.TrimStart | Source/UnrealChess/ChessGameState.cpp:35 | the suffix of s left after dropping all leading white space, which starts with a non-space |
| Fen.TrimEnd | Source/UnrealChess/ChessGameState.cpp:35 | the prefix of s left after dropping all trailing white space, which ends with a non-space |
| Fen.SplitFirst | Source/UnrealChess/ChessGameState.cpp:37 | no split exactly when the delimiter is absent; otherwise s is the part before the first delimiter, the delimiter and the rest |
| Fen.Word | Source/UnrealChess/ChessGameState.cpp:44 | the longest delimiter-free prefix of s |
| Fen.Fields | Source/UnrealChess/ChessGameState.cpp:44 | the fields of s are non-empty and free of delimiters |
| Fen.FieldsOfWord | Source/UnrealChess/ChessGameState.cpp:44 | a string without delimiters is one field, or none when empty |
| Fen.WordOfWord | Source/UnrealChess/ChessGameState.cpp:44 | the longest delimiter-free prefix of a delimiter-free string is the string |
| Fen.FieldsJoin | Source/UnrealChess/ChessGameState.cpp:44 | the fields of a, a delimiter, b are the fields of a followed by the fields of b |
| Fen.FieldsJoinWord | Source/UnrealChess/ChessGameState.cpp:44 | a joined string and its first part start with the same field |
| Fen.WordJoin | Source/UnrealChess/ChessGameState.cpp:44 | the first field of a joined string lies inside its first part |
| Fen.SquareCount | Source/UnrealChess/ChessGameState.cpp:54-68 | a digit 1 to 8 covers its value in squares, any other character one |
| Fen.Expand | Source/UnrealChess/ChessGameState.cpp:54-79 | a character puts down as many pieces as it covers squares |
| Fen.Put | Source/UnrealChess/ChessGameState.cpp:72-76 | one square put down keeps every castle mask |
| Fen.PlaceSquares | Source/UnrealChess/ChessGameState.cpp:70-79 | a row put down keeps every castle mask |
| Fen.PlaceRows | Source/UnrealChess/ChessGameState.cpp:46-83 | the rows put down keep every castle mask |
| Fen.PlaceSquaresAt | Source/UnrealChess/ChessGameState.cpp:70-79 | a row changes exactly the squares of its rank it reaches, each to its piece under its own coordinate |
| Fen.PlaceSquaresOff | Source/UnrealChess/ChessGameState.cpp:70-79 | a row leaves every cell that is not a square alone |
| Fen.PlaceRowsAt | Source/UnrealChess/ChessGameState.cpp:46-83 | each square holds the piece the FEN names for it, rank eight first and digits counting empty squares, or is left alone when its row stops short |
| Fen.FitsPrefix | Source/UnrealChess/ChessGameState.cpp:46-83 | a prefix of rows that fit the board fits it |
| Fen.NamedPrefix | Source/UnrealChess/ChessGameState.cpp:46-83 | the last row names only squares of its own rank |
| Fen.PlaceRowsOff | Source/UnrealChess/ChessGameState.cpp:46-83 | the placement leaves every non-square cell alone |
| Fen.PlaceRowsSane | Source/UnrealChess/ChessGameState.cpp:46-83 | after the placement every on-board tile is a playable cell under its own coordinate and masks are intact |
| Fen.CastleLetter | Source/UnrealChess/ChessGameState.cpp:95-104 | each castling character grants a set of rights (K, Q, k, q one each, others none) |
| Fen.CastlingFrom | Source/UnrealChess/ChessGameState.cpp:91-106 | the castling loop yields a set of rights |
| Fen.OrLetter | Source/UnrealChess/ChessGameState.cpp:95-104 | OR-ing in a letter's right adds exactly that right |
| Fen.CastlingRights | Source/UnrealChess/ChessGameState.cpp:91-106 | starting from no rights, a right is held exactly when its letter occurs in the field |
| Fen.EpCell | Source/UnrealChess/ChessGameState.cpp:108-112 | a well-formed square name gives the playable cell of that file and rank |
| Fen.SideOf | Source/UnrealChess/ChessGameState.cpp:89 | White exactly for "w", Black for anything else |
| Fen.ReadState | Source/UnrealChess/ChessGameState.cpp:86-116 | reading the state keeps the board and lists and a well-shaped position |
| Fen.LoadRows | Source/UnrealChess/ChessGameState.cpp:44-116 | placement and state keep the lists and a well-shaped position |
| Fen.LoadFen | Source/UnrealChess/ChessGameState.cpp:28-127 | a successful load gives a well-shaped position |
| Fen.TallyKeepsState | Source/UnrealChess/ChessGameState.cpp:968-1028 | UpdateListsMaterial changes only lists, counters, material and the king cache |
| Fen.LoadForgets | Source/UnrealChess/ChessGameState.cpp:30-32 | loading a non-empty FEN does not depend on the position before |
| Fen.LoadUnsplit | Source/UnrealChess/ChessGameState.cpp:32-37 | a string that does not split at a space only resets the board |
| Fen.LoadedPosition | Source/UnrealChess/ChessGameState.cpp:28-127 | a loaded FEN is the reset board with the placement put down, the named side, castling, en passant and the fresh key, and lists that agree with the board |
| Fen.LoadedRights | Source/UnrealChess/ChessGameState.cpp:89-112 | with "-" no castling right and no en-passant tile; otherwise a right exactly when its letter occurs; side White exactly for "w" |
| Fen.LoadOverflow | Source/UnrealChess/ChessGameState.cpp:123 | the load fails exactly when some code has more than Capacity pieces on the placed board |
| Fen.RowGrows | Source/UnrealChess/ChessGameState.cpp:52-80 | a row's squares only grow as more of it is read |
| Fen.BoardListsShape | Source/UnrealChess/ChessGameState.cpp:968-1028 | the reference lists of a sane board name only canonical coordinates of squares |
| Fen.PlaceRowsNext | Source/UnrealChess/ChessGameState.cpp:48-83 | one more row goes down on the next rank |
| Fen.RowSquaresNext | Source/UnrealChess/ChessGameState.cpp:52-80 | one more character adds its run of squares |
| Fen.PlaceSquaresNext | Source/UnrealChess/ChessGameState.cpp:70-79 | one more square of the row is put down |
| GameState.ChessGameState.ClearPiece | Source/UnrealChess/ChessGameState.cpp:355-411 | ClearPiece leaves the object valid and holding AfterClear of the old position, whose list fill is the corrected one of Findings row 1 |
| GameState.ChessGameState.ClearPieceSteps | Source/UnrealChess/ChessGameState.cpp:355-411 | the tile emptied, its piece key toggled, the counters dropped and the list entry removed, each stated in the old values |
| GameState.ChessGameState.ClearRest | Source/UnrealChess/ChessGameState.cpp:369-410 | the counter block, the list search and the fill |
| GameState.ChessGameState.DropListed | Source/UnrealChess/ChessGameState.cpp:396-410 | the first live entry equal to the coordinate leaves the list |
| GameState.ChessGameState.FindListed | Source/UnrealChess/ChessGameState.cpp:396-405 | the search loop returns the first live slot equal to the coordinate, or -1 |
| GameState.ChessGameState.DropSlot | Source/UnrealChess/ChessGameState.cpp:409-410 | the count drops and the list loses slot t, filled from the last live slot (the corrected fill of Findings row 1) |
| GameState.ChessGameState.DropCounters | Source/UnrealChess/ChessGameState.cpp:369-392 | a big piece drops its colour's big, major or minor counters; a pawn loses its bitboard bit; the cost leaves the material |
| GameState.ChessGameState.DropPawnBit | Source/UnrealChess/ChessGameState.cpp:387-391 | the pawn's bit is cleared on its colour's and the combined bitboard |
| GameState.ChessGameState.AddPiece | Source/UnrealChess/ChessGameState.cpp:413-444 | AddPiece leaves the object valid and holding AfterAdd of the old position |
| GameState.ChessGameState.AddPieceSteps | Source/UnrealChess/ChessGameState.cpp:413-444 | the tile set, its key toggled, the counters raised and the coordinate appended, each stated in the old values |
| GameState.ChessGameState.AddRest | Source/UnrealChess/ChessGameState.cpp:428-443 | the bitboard block, the material update and the list append |
| GameState.ChessGameState.AppendSlot | Source/UnrealChess/ChessGameState.cpp:442-443 | the coordinate fills the slot past the live part and the count grows |
| GameState.ChessGameState.AddPawnBit | Source/UnrealChess/ChessGameState.cpp:428-435 | a pawn's bit is set on its colour's and the combined bitboard; a big piece leaves the bitboards alone |
| GameState.ChessGameState.MovePiece | Source/UnrealChess/ChessGameState.cpp:446-489 | MovePiece leaves the object valid and holding AfterMove of the old position |
| GameState.ChessGameState.MovePieceSteps | Source/UnrealChess/ChessGameState.cpp:446-489 | the piece moves between the tiles, both keys toggle, pawn bits move and the list entry is rewritten |
| GameState.ChessGameState.MoveRest | Source/UnrealChess/ChessGameState.cpp:466-485 | the bitboard block, the list search and the list write |
| GameState.ChessGameState.SetSlot | Source/UnrealChess/ChessGameState.cpp:477-485 | live slot t of the list becomes the To coordinate |
| GameState.ChessGameState.MovePawnBit | Source/UnrealChess/ChessGameState.cpp:466-473 | a pawn's bit is cleared at From and set at To on its colour's and the combined bitboard |
| GameState.ChessGameState.MakeMove | Source/UnrealChess/ChessGameState.cpp:496-619 | MakeMove leaves the object valid holding MakeMoveS's position, and returns whether the mover's king is attacked; its captures clear with the corrected fill of Findings row 1 |
| GameState.ChessGameState.SpecialMove | Source/UnrealChess/ChessGameState.cpp:509-543 | the en-passant victim cleared or the castling rook moved, as SpecialStep says |
| GameState.ChessGameState.UpdateRights | Source/UnrealChess/ChessGameState.cpp:545-562 | the keys toggled and the rights masked, as RightsStep says |
| GameState.ChessGameState.CompleteMoveM | Source/UnrealChess/ChessGameState.cpp:564-618 | the capture, pawn and move steps and the finish, as CompleteMove says |
| GameState.ChessGameState.CaptureMove | Source/UnrealChess/ChessGameState.cpp:564-571 | the counter step and capture, as CaptureStep says |
| GameState.ChessGameState.SetFifty | Source/UnrealChess/ChessGameState.cpp:565 | a write to the fifty-move counter changes nothing else |
| GameState.ChessGameState.PawnMove | Source/UnrealChess/ChessGameState.cpp:575-591 | the pawn's counter reset and en-passant tile, as PawnStep says |
| GameState.ChessGameState.FinishMoveM | Source/UnrealChess/ChessGameState.cpp:595-618 | promotion, king cache, side flip and attack test, as FinishMove says |
| GameState.ChessGameState.HandOverM | Source/UnrealChess/ChessGameState.cpp:602-610 | the king cache and side flip, as HandOver says |
| GameState.ChessGameState.PromoteMove | Source/UnrealChess/ChessGameState.cpp:595-600 | the To tile cleared and the promoted piece added, as PromoteStep says |
| GameState.ChessGameState.ResetBoard | Source/UnrealChess/ChessGameState.cpp:1190-1239 | ResetBoard leaves the object valid holding ResetPosition, with zero counts and ply |
| GameState.ChessGameState.ResetFields | Source/UnrealChess/ChessGameState.cpp:1205-1236 | every counter, list, bitboard and state field back to its start value |
| GameState.ChessGameState.ResetTilesM | Source/UnrealChess/ChessGameState.cpp:1192-1203 | every tile reset as ResetTiles says |
| GameState.ChessGameState.InitBoard | Source/UnrealChess/ChessGameState.cpp:28-127 | the load succeeds exactly when LoadFen does, leaving its position (with the corrected key of Findings row 2); moves are regenerated exactly when the FEN splits at a space |
| GameState.ChessGameState.LoadRowsM | Source/UnrealChess/ChessGameState.cpp:44-116 | placement and state as LoadRows says, failing exactly when it does |
| GameState.ChessGameState.TallyM | Source/UnrealChess/ChessGameState.cpp:123 | UpdateListsMaterial after the checks, leaving the reference lists |
| GameState.ChessGameState.PlaceRowsM | Source/UnrealChess/ChessGameState.cpp:46-83 | the placement loop leaves the board PlaceRows describes |
| GameState.ChessGameState.PlaceRowStep | Source/UnrealChess/ChessGameState.cpp:48-83 | one pass puts row k on rank Eight - k |
| GameState.ChessGameState.PlaceRowM | Source/UnrealChess/ChessGameState.cpp:52-80 | one row leaves the board PlaceSquares describes |
| GameState.ChessGameState.PutRunM | Source/UnrealChess/ChessGameState.cpp:70-79 | the count loop puts down count copies of the piece |
| GameState.ChessGameState.PutSquareM | Source/UnrealChess/ChessGameState.cpp:72-78 | one square takes the piece and its coordinate |
| GameState.ChessGameState.ReadStateM | Source/UnrealChess/ChessGameState.cpp:86-116 | the state fields as ReadState says, failing exactly when it does |
| GameState.ChessGameState.CommitState | Source/UnrealChess/ChessGameState.cpp:89-114 | side, en passant and the fresh key (corrected as in Findings row 2) give ReadState's position |
| GameState.ChessGameState.ReadEp | Source/UnrealChess/ChessGameState.cpp:108-112 | the en-passant token is accepted exactly when present and, unless "-", at least two characters naming a cell of the table |
| GameState.ChessGameState.ReadCastling | Source/UnrealChess/ChessGameState.cpp:91-106 | the castling loop leaves CastlingFrom of the old permission |
| GameState.ChessGameState.GeneratePositionHashKey | Source/UnrealChess/ChessGameState.cpp:1162-1188 | the key of the position: every on-board piece's key (the corrected test of Findings row 2), the side key, the en-passant key and the castle key |
| GameState.ChessGameState.TallyFits | Source/UnrealChess/ChessGameState.cpp:968-1028 | the check passes exactly when no code has more than Capacity pieces |
| GameState.ChessGameState.GenerateAllMoves | Source/UnrealChess/ChessGameState.cpp:329-353 | the move list is emptied and then holds AllMoves of the board, lists, side, en passant and castling; nothing for NoColor or Both |
| GameState.ChessGameState.SideMoves | Source/UnrealChess/ChessGameState.cpp:333-348 | for White or Black, the pawn moves then the piece moves appended give AllMoves |
| GameState.ChessGameState.PieceMoves | Source/UnrealChess/ChessGameState.cpp:337-348 | the side's castling moves, then its sliding and non-sliding moves, join the list |
| GameState.ChessGameState.GeneratePawnMoves | Source/UnrealChess/ChessGameState.cpp:631-705 | the loop over the live pawn slots appends AllPawnMoves of the pawn list, pawn by pawn in list order |
| GameState.ChessGameState.PawnMovesFromM | Source/UnrealChess/ChessGameState.cpp:638-704 | one pawn's moves, PawnMovesFrom, join the list; none while the square ahead is occupied |
| GameState.ChessGameState.PawnAheadM | Source/UnrealChess/ChessGameState.cpp:644-703 | with the square ahead empty, the pushes then the captures give PawnMovesFrom |
| GameState.ChessGameState.PawnPushesM | Source/UnrealChess/ChessGameState.cpp:644-659 | the push (fanned out on the promotion rank) then the double push join the list |
| GameState.ChessGameState.PawnCapturesM | Source/UnrealChess/ChessGameState.cpp:661-702 | the 9-offset capture, the 11-offset capture, then the en-passant captures join the list |
| MoveGeneration.PawnMovesFromAhead | Source/UnrealChess/ChessGameState.cpp:644-703 | a pawn has no move while the square ahead is occupied; otherwise its moves are the push, double push, two captures and en-passant captures in that order |
| MoveGeneration.AllPawnMovesStep | Source/UnrealChess/ChessGameState.cpp:636-640 | the first i+1 pawns of the list give the moves of the first i, then those of pawn i |
| MoveGeneration.AllMovesParts | Source/UnrealChess/ChessGameState.cpp:329-353 | AllMoves is empty for NoColor and Both, and otherwise the pawns, castling, sliding and non-sliding moves in that order |
| MoveGeneration.AllMovesAppended | Source/UnrealChess/ChessGameState.cpp:333-348 | appending the pawn moves and then the piece moves to a list appends AllMoves |
| MoveGeneration.AppendPushesCaptures | Source/UnrealChess/ChessGameState.cpp:644-703 | appending the pushes and then the captures appends PawnMovesFrom |
| GameState.ChessGameState.LiveLists | Source/UnrealChess/ChessGameState.cpp:329-353 | the live slots of PieceList are the recorded lists |
| GameState.ChessGameState.LiveRow | Source/UnrealChess/ChessGameState.cpp:637-640 | slots 0 to PieceCount[c]-1 of row c are list c |
| GameState.ChessGameState.UpdateListsMaterial | Source/UnrealChess/ChessGameState.cpp:968-1028 | the object stays valid holding TallyTiles of the old position |
| GameState.ChessGameState.TallyTileM | Source/UnrealChess/ChessGameState.cpp:973-1020 | one cell as TallyTile says |
| GameState.ChessGameState.TallyOccupied | Source/UnrealChess/ChessGameState.cpp:976-1018 | an occupied on-board cell bumps the counters, appends its coordinate and records a king |
| GameState.ChessGameState.TallyCounters | Source/UnrealChess/ChessGameState.cpp:979-997 | big, major and minor counts by the piece's flags, and its cost added to material |
| GameState.ChessGameState.IsTileAttacked | Source/UnrealChess/ChessGameState.cpp:139-248 | the result is Attacked of the board, the square and the side |
| GameState.ChessGameState.StepScan | Source/UnrealChess/ChessGameState.cpp:165-176 | some offset lands on a piece of the roles and side |
| GameState.ChessGameState.RayScan | Source/UnrealChess/ChessGameState.cpp:178-234 | along some ray the first piece met is of the roles and side |
| GameState.ChessGameState.WalkRay | Source/UnrealChess/ChessGameState.cpp:184-204 | the inner walk returns RayFirst |
| GameState.ChessGameState.AddMove | Source/UnrealChess/ChessGameState.cpp:250-263 | the move joins the end of the move list |
| GameState.ChessGameState.AddPawnMove | Source/UnrealChess/ChessGameState.cpp:265-325 | the pawn's moves, fanned out on the promotion rank, join the list |
| GameState.ChessGameState.EnPassantCapturesM | Source/UnrealChess/ChessGameState.cpp:674-702 | the two en-passant captures join the list |
| GameState.ChessGameState.DoublePushM | Source/UnrealChess/ChessGameState.cpp:648-659 | the double push joins the list |
| GameState.ChessGameState.PawnCaptureM | Source/UnrealChess/ChessGameState.cpp:661-672 | a diagonal capture joins the list |
| GameState.ChessGameState.EnPassantM | Source/UnrealChess/ChessGameState.cpp:677-701 | one en-passant capture joins the list |
| ChessMove.FieldsRoundTrip | Source/UnrealChess/ChessMove.cpp:11-17 | each field of the packed word is recovered by its shift and mask, and each flag bit is kept |
| ChessMove.Reassemble | Source/UnrealChess/ChessMove.h:37-48 | a word with bits only in the fields and flags is the OR of its decoded fields and flags |
| ChessDefinitions.FlipCode | Source/UnrealChess/ChessGameState.cpp:607-609 | flipping a colour code stays a colour code |
| Position.ClearBits | Source/UnrealChess/ChessGameState.cpp:387-391 | clearing a pawn bit keeps the three bitboards |
| Position.SetBits | Source/UnrealChess/ChessGameState.cpp:428-435 | setting a pawn bit keeps the three bitboards |

## Left out

- `TakeMove` (ChessGameState.cpp:491-494) has an empty body in the source, so `MakeMove` leaves the position after the move even when the king is left attacked.
- `MakeHashKeys` and `GetRandom64` are not modelled: they draw keys from `FMath::Rand`, so the keys are a parameter (`HashKeys`) that only has to have the right shape.
- The history record, `Ply` and `HisPly` are not modelled beyond being zeroed by `ResetBoard`, because the source never reads them.
- `UE_LOG` output and the engine's actor, replication and blueprint plumbing are left out: they are I/O.
- GameState.ChessGameState.PopBit: states only the bitboard it leaves; the `BitTable` lookup and the index it returns are not modelled, because the table is not part of this model.
- The length of each `PieceList` row is not shown in the source files modelled here; the model fixes it as `Capacity` = 10.
- The move directions of each piece and the sliding / non-sliding piece lists are taken from `ChessDefinitions.h`. The bodies that fill them in are not shown, so those tables are stated once in the model.
- `GetPieceFromCode`'s body is not shown; the model takes it to be the inverse of `GetCode`.
- The big / major / minor flags follow the comments of `ChessDefinitions.h:78-85`. `ChessDefinitions.cpp` passes `false` for every flag when it builds the pieces.
- `check(...)` failures and reads past the 120-cell array are not modelled as crashes. They become `None` / `Aborted` results, or preconditions where the source calls the operation only from checked code; `IsTileAttacked`'s real file and rank is one of those preconditions.
- The pawn generators append to `Moves` step by step, as the source does. `GenerateWhiteCastling`, `GenerateBlackCastling`, `GenerateSlideMoves` and `GenerateNonSlideMoves` are value functions, and `PieceMoves` appends each one's whole list at once. Their inner appends are not captured step by step.
- GameState.ChessGameState.IsTileAttacked: requires a real file and rank. The source accepts any bytes; the only caller that could pass another square is `MakeMove` with an unset king cache, where the source reads outside the board arrays.
- GameState.ChessGameState.ClearPiece: runs the corrected list fill of Findings row 1 (from slot `Count - 1`), not the fill from slot `Count` as written at `ChessGameState.cpp:409-410`. `PieceLists.ClearSlotAsWritten` models the code as written.
- Position.RemoveAt: fills the hole from the last slot (`Count - 1`), the corrected fill of Findings row 1, not the fill from slot `Count` as written.
- Position.ClearPieceS: builds on `Position.RemoveAt`, so it states the corrected fill of Findings row 1.
- Position.AfterClear: builds on `Position.RemoveAt`, so it states the corrected fill of Findings row 1.
- Consistency.ClearKeepsLists: is about the corrected fill of Findings row 1; the fill as written would not keep the lists matching the board.
- Consistency.DistinctAfterRemove: is about the corrected fill of Findings row 1.
- GameState.ChessGameState.DropSlot: the method that performs that corrected fill.
- GameState.ChessGameState.MakeMove: its captures, en-passant clears and promotions call `ClearPiece`, so they too use the corrected fill of Findings row 1.
- GameState.ChessGameState.GeneratePositionHashKey: hashes every on-board tile holding a piece, the corrected test of Findings row 2, not the `!IsOnBoard() && !IsEmpty()` test at `ChessGameState.cpp:1169`. `Hash.AsWrittenIgnoresPieces` models the code as written.
- GameState.ChessGameState.CommitState: stores that corrected key.
- GameState.ChessGameState.InitBoard: the loaded key is the corrected key of Findings row 2.
- Fen.LoadFen: the loaded key is the corrected key of Findings row 2.
- Fen.LoadedPosition: states the corrected key of Findings row 2.
- `ChessGameState.cpp:612` lacks the closing parenthesis of its `if`. The model reads it with that parenthesis closed after `Side`.
- Fen.LoadFen: a placement row covering more than eight squares, or more than eight rows, is rejected (the load fails). In the source, on ranks seven to one a row's ninth and later squares land on the squares of the rank above, overwriting pieces placed there under coordinates that do not name their cell; only rank eight's overflow, and a ninth row, index past the 64-entry square converter.
- Fen.LoadFen: fewer than three state tokens, or an en-passant token shorter than two characters or naming a cell outside the table, is rejected. In the source these are out-of-range reads.
- Fen.IsSpace: white space is limited to space, tab, carriage return and line feed, not the full set of Unreal's `FChar::IsWhitespace`.
- Counters, material and the fifty-move counter are unbounded integers: no 32-bit overflow is modelled. Piece counts and material are bounded by the 32 pieces on the board; the fifty-move counter is bounded by nothing in this core (no draw is enforced), and would overflow an int32 only after about 2^31 consecutive quiet moves.
- Checkmate, stalemate, repetition and the fifty-move rule are not decided anywhere in the core, so they are not modelled.

## Findings

| source | as written | input that shows it | evidently intended | confidence | as-written member | corrected member |
|---|---|---|---|---|---|---|
| Source/UnrealChess/ChessGameState.cpp:407-410 | ClearPiece fills the removed slot from `PieceList[PieceCode][Count]`, with `Count` read before the decrement: the first slot past the live part | white pawns listed A2, B2 with a stale A1 in slot 2; clearing A2 leaves the list A1 | fill the hole from the last live slot, `Count - 1`, so the list keeps B2 | high, not executed | PieceLists.ClearSlotCounterexample | PieceLists.ClearSlotKeepsOthers |
| Source/UnrealChess/ChessGameState.cpp:1169 | GeneratePositionHashKey hashes a tile only when `!IsOnBoard() && !IsEmpty()`: off-board tiles, which never hold a piece | the empty board and the board with a white pawn on e2 get the same key for every choice of keys | hash every on-board tile holding a piece, so the key matches the incrementally maintained one | high, not executed | Hash.AsWrittenIgnoresPieces | Consistency.CoherentKeyIsPositionHash |
| Source/UnrealChess/ChessBoardTile.h:104-107 | HasPiece requires `!IsOnBoard()`, so it is false on every tile a piece can stand on | an on-board e2 tile holding a white pawn: HasPiece(white pawn) is false | "not empty and equal to it", as the comment on line 103 says | high, not executed | ChessBoardTile.HasPieceCounterexample | ChessBoardTile.HasPieceIntended |
