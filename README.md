# Chess board package, modelled in Dafny

This project models the `board` package of a small Go chess engine, as the code behaves. The package has three parts.

- **The piece catalogue and the per-piece movement generators** (`board/pieces.go`).
  - Thirteen piece values with colour tests.
  - The dispatcher `GetMovementMatrix`.
  - The pawn, rook, knight, bishop, king and queen generators. Each returns a new 8 x 8 x 12 plane board marking the squares the piece may move to.
- **The position type `BitBoard`** (`board/bit_board.go`).
  - The plane array, the four castling flags, the side to move, the two counters and the en-passant square.
  - Square queries, in-place placement, the pointwise `And` / `Or` / `Not`, `Copy` and the king search.
  - `IsCheck` and `doesMoveResultInCheck`.
  - The Forsyth-Edwards (FEN) codec `ToFEN` / `FromFEN` and `GetStartBoard`.
- **Square names** (`board/board_util.go`): `a1` .. `h8` to and from 0-based (file, rank).

The code is modelled as written, including the places where it departs from the rules of chess:
- `IsWhite` is false for the white pawn.
- The white knight is generated as a black one and marks the rook plane.
- The (±1, ±2) knight targets must be empty.
- The pawn moves forward onto an enemy piece and double-steps from any rank.
- The king's self-exclusion compares the offsets with the coordinates.
- `FromFEN` does not expand digits and cannot clear a castling flag.
- `ToFEN` takes the active colour from the turn counter.

Layout, one module per file:
- `Text`: stand-ins for the Go library calls the package uses (`strconv.Itoa`, `strconv.Atoi`, `strings.Split`).
- `Algebra`: square names.
- `Pieces`: the piece values, the colour tests, and the FEN letters of `GetNotation` / `GetPieceByNotation`.
- `Planes`: the plane array as a value (`Grid`) and the square predicates over it.
- `Moves`: the reach rule of each generator as a predicate, the king search and the check relation.
- `Fen`: the position as a value, `ToFEN` as `Encode` and `FromFEN` as written as `Decode`.
- `Board`: the `BitBoard` class over an `array3<bool>` with its in-place methods, each proved against the value-level definitions.
- `Movement`: the generators as methods that fill a new `BitBoard`, each proved to mark exactly the squares of its reach rule.
- `Check`: `IsCheck` and `doesMoveResultInCheck`.
- `Scenarios`: concrete boards. The start position, and the king-and-queen boards of the package's check scenario, with what the generators and `IsCheck` make of them.

Go panics on an out-of-range index. Where the code can panic, the model has a precondition instead:
- `PawnSafe`: the squares a pawn looks at ahead must be on the board.
- `MatrixDefined` / `CheckDefined`: the generators `IsCheck` calls must not panic.
- `Decodable`: a FEN text must have at least six fields and at least eight ranks, the first eight of at most eight characters each, and an en-passant field that is "-" or has at least two characters.

## Model

| member | source | states |
|---|---|---|
| Pieces.ColourClasses | board/pieces.go:21-27 | IsBlack holds exactly for 0..5 and IsWhite exactly for 7..11; WhitePawn and NoPiece are neither colour and no piece is both |
| Pieces.NotationRoundTrip | board/bit_board.go:57-58 | the assumed FEN letter table is a bijection between the twelve pieces and the letters pnbrqkPNBRQK; every other character reads as NoPiece; no piece letter is a digit, '/', '-' or a space |
| Algebra.RowColToAlgebraShape | board/board_util.go:8-13 | for file and rank in 0..7 the name is two characters: the letter 'a' + file, then the digit for rank + 1 |
| Algebra.AlgebraToRowColReadsTwo | board/board_util.go:15-23 | the result always has two entries and depends only on the first two characters |
| Algebra.AlgebraRoundTrip | board/board_util.go:8-23 | AlgebraToRowCol(RowColToAlgebra(r, c)) == [r, c] for every square |
| Algebra.AlgebraRoundTripConverse | board/board_util.go:8-23 | every name a1..h8 reads as an on-board square whose name is the text again |
| Algebra.CornerNames | board/board_util.go:8-23 | (0, 0) is "a1" and (7, 7) is "h8", in both directions |
| Text.AtoiItoa | board/bit_board.go:107-110 | reading back the decimal text Itoa writes gives the number again, for every integer |
| Text.SplitJoin | board/bit_board.go:118 | splitting a join of parts free of the separator gives the parts back |
| Text.JoinSplit | board/bit_board.go:118 | joining what Split produced gives the text back |
| Planes.PieceAtSpec | board/bit_board.go:275-287 | GetPieceOnField's value is NoPiece exactly on an empty square, otherwise the lowest plane set |
| Planes.PlaceSpec | board/bit_board.go:265-273 | after placing p the square reports p, holds only p's plane (no plane for NoPiece), and every other square is unchanged |
| Planes.SinglePlaneColour | board/bit_board.go:226-263 | on a square holding one piece, exactly one of black / white holds (plane 6 counts as white) and availability is that of the other colour |
| Planes.EmptySquareColour | board/bit_board.go:226-263 | an empty square is neither black nor white and is available to both sides |
| Planes.NotNot | board/bit_board.go:190-202 | negating twice gives the planes back |
| Planes.AndOrPointwise | board/bit_board.go:163-202 | And, Or and Not work cell by cell on every (file, rank, plane) |
| Planes.NormalSpec | board/bit_board.go:341-351 | the copied planes report the same piece on every square, hold one piece per square, and equal the original when it already held one piece per square |
| Board.BitBoard.Empty | board/bit_board.go:20-32 | no plane set anywhere, all castling flags set, white to move, both counters 0, en passant (-1, -1) |
| Board.BitBoard.IsFieldEmpty | board/bit_board.go:217-224 | true exactly when none of the square's twelve planes is set |
| Board.BitBoard.IsFieldBlack | board/bit_board.go:226-238 | true exactly when the square is occupied and one of planes 0..5 is set |
| Board.BitBoard.IsFieldWhite | board/bit_board.go:240-252 | true exactly when the square is occupied and one of planes 6..11 is set |
| Board.BitBoard.IsFieldAvailable | board/bit_board.go:254-263 | true exactly when the square is empty or held by the other colour |
| Board.BitBoard.PlacePieceOnBoard | board/bit_board.go:265-273 | the square's planes become those of the piece alone, no other cell changes, and a well-formed board stays well-formed |
| Board.BitBoard.GetPieceOnField | board/bit_board.go:275-287 | the piece whose plane is the lowest set, NoPiece for an empty square |
| Board.BitBoard.FindKing | board/bit_board.go:289-306 | the first square, file by file and rank by rank, holding the side's king; (-1, -1) when there is none |
| Moves.KingSquareSpec | board/bit_board.go:289-306 | the king search returns (-1, -1) exactly when no square holds the king, and otherwise a king square with none earlier in scan order |
| Board.BitBoard.RankText | board/bit_board.go:44-67 | one rank written as runs of empty squares and piece letters, equal to the value-level rank field |
| Board.BitBoard.PlacementText | board/bit_board.go:44-68 | ranks 7 down to 0, separated by '/' |
| Board.BitBoard.CastlingText | board/bit_board.go:81-97 | K, Q, k, q for the flags that are set, in that order, or "-" when none is |
| Board.BitBoard.ToFEN | board/bit_board.go:40-113 | the text is Encode of the board's position: the six fields joined by single spaces |
| Fen.RleShape | board/bit_board.go:44-63 | the digit values plus the number of letters of a rank text equal the files it describes (the pending run plus the rest of the rank), and it holds only digits and piece letters |
| Fen.RleExpand | board/bit_board.go:44-63 | reading a rank text back, a digit as that many empty squares and a letter as its piece, gives the pending empty squares followed by the rank's pieces in order: the digits stand exactly for the runs of empty squares and the letters for the pieces between them |
| Fen.RankFieldExpand | board/bit_board.go:44-63 | each rank field ToFEN writes reads back, digits expanded, as exactly that rank's pieces, file 0 first |
| Fen.RankFieldWidth | board/bit_board.go:44-63 | each rank field written accounts for exactly eight files and holds only digits and piece letters |
| Fen.BoardFieldRanks | board/bit_board.go:44-68 | the placement field is the eight rank fields, rank 7 first, joined by '/', and splits back into them |
| Fen.CastleFieldDash | board/bit_board.go:81-97 | the castling field is "-" exactly when all four flags are false |
| Fen.EpFieldDash | board/bit_board.go:99-104 | the en-passant field is "-" exactly when a coordinate is -1 |
| Fen.SideFieldSpec | board/bit_board.go:72-77 | the active colour is "w" exactly for a positive odd turn counter (Go's truncating %), whatever whitesTurn says |
| Fen.SplitEncode | board/bit_board.go:40-113 | when the en-passant square has a -1 coordinate or is on the board, splitting ToFEN's text at spaces gives back its six fields |
| Board.BitBoard.PlaceRanks | board/bit_board.go:126-134 | rank j is read from rows[7 - j], the character at index i going on file i, giving DecodeGrid; the board stays well-formed |
| Board.BitBoard.ReadCastling | board/bit_board.go:138-149 | K, Q, k and q set their flag, nothing is cleared, no other field changes and the board stays well-formed |
| Board.BitBoard.ReadFields | board/bit_board.go:136-158 | the squares are unchanged; the turn flag is side == "w", the castling flags are read as ApplyCastling, en passant is (-1, -1) for "-" and the square's coordinates otherwise, and both counters are stored; the board stays well-formed |
| Fen.ApplyCastlingSpec | board/bit_board.go:138-149 | a flag is set afterwards exactly when it was set before or its letter occurs in the text |
| Fen.DecodeKeepsAllRights | board/bit_board.go:138-149 | because reading starts from the empty board, every castling flag is set after FromFEN |
| Fen.DecodeGridSpec | board/bit_board.go:128-134 | each decoded square holds the piece named by the character at its file index (NoPiece for a digit or past the end), with at most one plane set |
| Fen.DigitsNotExpanded | board/bit_board.go:128-134 | in "4k3" the king lands on file 1, and files 0 and 4 stay empty |
| Board.FromFEN | board/bit_board.go:115-161 | the new board's position is Decode of the text |
| Fen.EncodeDecode | board/bit_board.go:40-161 | ToFEN(FromFEN(s)) == s for every text with exactly six space-separated fields: eight '/'-separated ranks each "8" or eight piece letters; an active-colour letter equal to the one ToFEN derives from the turn counter ("w" exactly for an odd positive counter); the castling field "KQkq"; an en-passant field "-" or a square name a1..h8; and both counters in Itoa form |
| Fen.DecodeEncode | board/bit_board.go:40-161 | for a position whose squares hold one piece each, whose ranks are full or empty and whose en passant has a -1 coordinate or is on the board, FromFEN(ToFEN(p)) gives p back, except that the castling flags come back all set, the colour comes from the turn counter and an en passant with a -1 comes back as (-1, -1) |
| Fen.StartFenLiteral | board/bit_board.go:34-35 | the start text is "rnbqkbnr/pppppppp/8/8/8/8/PPPPPPPP/RNBQKBNR w KQkq - 0 1" |
| Fen.StartRoundTrip | board/bit_board.go:34-35 | the start position's text is read and written back unchanged |
| Board.GetStartBoard | board/bit_board.go:34-35 | the board is FromFEN of the start text, and ToFEN of it is that text again |
| Board.BitBoard.Copy | board/bit_board.go:341-351 | a new board in new storage with the same piece on every square, one plane per square, and the empty board's flags and counters |
| Board.And | board/bit_board.go:163-174 | a new board in new storage whose planes are the cell-by-cell conjunction and the flags those of the empty board |
| Board.Or | board/bit_board.go:176-188 | a new board in new storage whose planes are the cell-by-cell disjunction and the flags those of the empty board |
| Board.Not | board/bit_board.go:190-202 | a new board in new storage whose planes are the cell-by-cell negation and the flags those of the empty board |
| Moves.RookReachShape | board/pieces.go:90-140 | every square the rook marks shares exactly one of its file and rank |
| Moves.RayBlocked | board/pieces.go:99-107 | a ray reaches the squares before its first occupied square, and that square too exactly when it is available |
| Moves.RayLeavesBoard | board/pieces.go:99-107 | a ray that leaves the board empty reaches every square it passed |
| Moves.BishopReachShape | board/pieces.go:191-259 | every square the bishop marks is on one of its diagonals and off its file |
| Moves.OpenBoardReach | board/pieces.go:90-259 | on a board empty apart from the piece, the rook reaches its file and rank and the bishop its diagonals |
| Moves.QueenIsRookOrBishop | board/pieces.go:285-310 | for the matrices GetMovementMatrix returns for a queen, a rook and a bishop of one colour on one square, the queen's is occupied exactly where the rook's or the bishop's is |
| Moves.KnightReachShape | board/pieces.go:142-189 | white and black knights mark the same squares; marked squares are a knight's move away; a (±1, ±2) target that is occupied is never marked |
| Moves.KingReachShape | board/pieces.go:261-283 | marked squares are within one file and rank; the king's own square is marked exactly when it is available and the king is off (0, 0); other neighbours are marked exactly when available and their offset is not (x, y) |
| Moves.PawnReachShape | board/pieces.go:61-88 | a pawn marks only one or two squares ahead on its file, or a diagonal square ahead held by the other colour |
| Moves.PawnOwnFile | board/pieces.go:72-75 | on its own file the pawn marks the square ahead exactly when it is available, and two ahead exactly when both are available |
| Moves.PawnSideFile | board/pieces.go:77-86 | on a neighbouring file the pawn marks the square ahead exactly when it is occupied and available |
| Moves.PawnBlocked | board/pieces.go:61-88 | a pawn with no available square ahead and no capture has an empty matrix |
| Moves.NoPieceReachesNothing | board/pieces.go:58 | NoPiece marks no square |
| Moves.MatrixEmptyAt | board/pieces.go:30-59 | a square of a movement matrix is empty exactly when the piece does not reach it |
| Movement.WalkRay | board/pieces.go:99-107 | one ray loop marks, in the piece's plane, exactly the squares the ray reaches and changes nothing else |
| Movement.RookMatrix | board/pieces.go:90-140 | a new board in new storage marking, in the rook's plane, exactly the squares its four rays reach |
| Movement.BishopMatrix | board/pieces.go:191-259 | a new board in new storage marking, in the bishop's plane, exactly the squares its four diagonals reach |
| Movement.KnightMatrix | board/pieces.go:142-189 | a new board in new storage marking, in the rook plane of the colour passed, exactly the knight's reach |
| Movement.PawnMatrix | board/pieces.go:61-88 | a new board in new storage marking, in the pawn's plane, exactly the pawn's reach |
| Movement.KingMatrix | board/pieces.go:261-283 | a new board in new storage marking, in the king's plane, exactly the king's reach |
| Movement.MergeQueen | board/pieces.go:299-306 | a square gets the queen exactly when the rook or bishop matrix is occupied there |
| Movement.QueenMatrix | board/pieces.go:285-310 | a new board in new storage marking, in the queen's plane, exactly the union of rook and bishop reach |
| Movement.GetMovementMatrix | board/pieces.go:30-59 | for every piece, a new board in new storage whose only marks are the dispatched generator's reach, in its plane (the white knight dispatched as black) |
| Check.Attacks | board/bit_board.go:330-335 | And with the king-square mask is non-empty at the king exactly when the piece reaches the king |
| Check.ScanFile | board/bit_board.go:320-336 | reports an attacker on the file exactly when there is one, given none on earlier files |
| Check.ScanBoard | board/bit_board.go:319-338 | reports whether any examined piece reaches the king |
| Check.IsCheck | board/bit_board.go:308-339 | false without a king; otherwise true exactly when some piece that is not the side's own (by IsWhite / IsBlack) reaches the king's square |
| Check.DoesMoveResultInCheck | board/bit_board.go:353-361 | IsCheck of a copy with the piece lifted from (x1, y1) and put on (x2, y2); the receiver is not modified |
| Scenarios.StartGridOfFen | board/bit_board.go:34-35 | the start board's planes are those of its eight rank texts |
| Scenarios.StartKnightTargets | board/pieces.go:142-189 | in the start position, the black knight on b8 marks exactly a6 and c6 |
| Scenarios.StartSquare | board/bit_board.go:34-35 | every square of the start board holds the piece of the standard start position: rook, knight, bishop, queen, king, bishop, knight, rook on ranks 1 and 8, pawns on ranks 2 and 7, nothing between |
| Scenarios.StartPawnTargets | board/pieces_test.go:13-34 | in the start position the white pawn on a2 marks exactly a3 and a4, and the black pawn on a7 exactly a6 and a5 |
| Scenarios.StartRookShut | board/pieces_test.go:61-68 | in the start position the black rook on h8 marks nothing |
| Scenarios.StartBishopShut | board/pieces_test.go:125-132 | in the start position the black bishop on c8 marks nothing |
| Scenarios.StartQueenShut | board/pieces_test.go:166-172 | in the start position the black queen on d8 marks nothing |
| Scenarios.StartKingShut | board/pieces_test.go:196-204 | in the start position the black king on e8 marks nothing |
| Scenarios.StartKings | board/bit_board.go:289-306 | the king search finds the white king on e1 and the black king on e8 of the start position |
| Scenarios.NoReachAcross | board/pieces.go:30-59 | no piece marks a square seven ranks away on another file unless it is also seven files away |
| Scenarios.StartNotInCheck | board/bit_board_test.go:155-159 | the start position is check for neither side, and IsCheck does not panic on it |
| Scenarios.QueenGivesCheck | board/bit_board_test.go:161-170 | with a white king on e5 and a black queen on a1, white is in check, black (without a king) is not, and IsCheck does not panic |
| Scenarios.BlockedPawn | board/bit_board.go:320-336 | the white pawn on d4, which IsCheck examines for the white side, does not reach the white king on e5: its diagonal step needs a black piece there |
| Scenarios.PawnBlocksCheck | board/bit_board_test.go:172-176 | with a white pawn added on d4 white is no longer in check, and IsCheck does not panic |

## Left out

- `BitBoard.String` (board/bit_board.go:204-215) is debug printing.
- The `Game` position stack is not part of this model.
- `GetNotation` and `GetPieceByNotation` are defined elsewhere in the package; the standard FEN letter table is assumed, with `-` for NoPiece.
- `IsCheck` calls `GetMovementMatrix` with a fourth argument that its three-argument definition does not take. It is modelled as the three-argument call.
- Check.IsCheck, Check.DoesMoveResultInCheck: in Go these are `BitBoard` methods. Here they are module-level methods taking the board, because the generators they call use the board type.
- `strconv.Itoa` / `Atoi` are modelled on unbounded integers: no 64-bit overflow and no distinct error result (an error reads as 0, as Go returns).
- Algebra.RuneChar: `string(rune(n))` is modelled on an unbounded integer, so the 32-bit wrap-around of `rune('a' + row)` (board/board_util.go:9) is not modelled; no square name of an on-board square comes near it. UTF-8 encoding of non-ASCII characters is not modelled either; strings are sequences of characters.
- Go's panics are preconditions, not modelled errors. This covers a malformed FEN text, a rank text over eight characters, a pawn whose squares ahead leave the board, and an en-passant field shorter than two characters.
- Check.IsCheck: it requires that every piece examined before an attacker is found has a defined matrix. A white pawn on rank index 6 with a free square ahead is examined for the white side, because `IsWhite` is false for it, and makes Go panic.
- Movement.WalkRay: the four `for` loops of each of getRookMatrix and getBishopMatrix are one loop parameterised by direction. The bishop's `yi` bound test is its on-board condition.
- Loops whose whole state would make one proof too large are split into helper methods over part of the iteration, with the same order of effects: the knight targets, pawn steps, king columns, queen merge, IsCheck's scan, Copy's files, and FromFEN's rank placement and field reads.
