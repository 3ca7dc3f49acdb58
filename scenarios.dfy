/** Concrete positions: the start position GetStartBoard reads, and the boards of the package's
    own check scenario, with what the generators and IsCheck make of them. */
module Scenarios {
  import opened Pieces
  import opened Planes
  import opened Moves
  import opened Fen

  /** A square holding the planes of one piece answers every square query by that piece. */
  lemma SingleSquare(g: Grid, a: int, b: int, p: Piece)
    requires Shaped(g) && OnBoard(a, b) && g[a][b] == Single(p)
    ensures PieceAt(g, a, b) == p
    ensures EmptyAt(g, a, b) <==> p == NoPiece
    ensures BlackAt(g, a, b) <==> p as int < 6
    ensures WhiteAt(g, a, b) <==> 6 <= p as int < 12
    ensures AvailableAt(g, a, b, true) <==> p as int < 6 || p == NoPiece
    ensures AvailableAt(g, a, b, false) <==> 6 <= p as int
  {
    FirstSetSingle(p, 0);
    if p == NoPiece {
      EmptySquareColour(g, a, b);
    } else {
      SinglePlaneColour(g, a, b, p);
    }
  }

  // ---------------------------------------------------------------- the start position

  /** The start position's planes: its eight rank texts decoded. */
  function StartGrid(): (g: Grid)
    ensures Shaped(g)
  {
    DecodeGrid(StartRows)
  }

  /** They are the planes GetStartBoard reads from its FEN text. */
  lemma StartGridOfFen()
    ensures Decodable(StartFen) && Decode(StartFen).grid == StartGrid()
  {
    StartRoundTrip();
    SplitStartParts();
    SplitStartRows();
  }

  /** The start position square by square: rook, knight, bishop, queen, king, bishop, knight,
      rook on the back ranks, pawns in front of them, four empty ranks between. */
  function StartPiece(a: int, b: int): Piece
    requires OnBoard(a, b)
  {
    if b == 0 then [WhiteRook, WhiteKnight, WhiteBishop, WhiteQueen, WhiteKing, WhiteBishop, WhiteKnight, WhiteRook][a]
    else if b == 1 then WhitePawn
    else if b == 6 then BlackPawn
    else if b == 7 then [BlackRook, BlackKnight, BlackBishop, BlackQueen, BlackKing, BlackBishop, BlackKnight, BlackRook][a]
    else NoPiece
  }

  /** A back-rank letter names the start position's piece on its file. */
  lemma BackRankSquare(a: int, white: bool)
    requires 0 <= a < 8
    ensures PieceByNotation((if white then "RNBQKBNR" else "rnbqkbnr")[a]) == StartPiece(a, if white then 0 else 7)
  {
    if a < 4 {
      assert a == 0 || a == 1 || a == 2 || a == 3;
    } else {
      assert a == 4 || a == 5 || a == 6 || a == 7;
    }
  }

  /** GetStartBoard's text puts exactly that piece on every square. */
  lemma StartSquare(a: int, b: int)
    requires OnBoard(a, b)
    ensures StartGrid()[a][b] == Single(StartPiece(a, b))
  {
    DecodeGridSpec(StartRows, a, b);
    var row := StartRows[7 - b];
    if b == 0 || b == 7 {
      assert row == if b == 0 then "RNBQKBNR" else "rnbqkbnr";
      BackRankSquare(a, b == 0);
    } else if b == 1 || b == 6 {
      assert row[a] == if b == 1 then 'P' else 'p';
    } else {
      assert row == "8";
    }
  }

  lemma StartEmptySquare(a: int, b: int)
    requires OnBoard(a, b) && 2 <= b <= 5
    ensures EmptyAt(StartGrid(), a, b)
  {
    StartSquare(a, b);
    SingleSquare(StartGrid(), a, b, NoPiece);
  }

  lemma StartBlackPawn(a: int)
    requires 0 <= a < 8
    ensures BlackAt(StartGrid(), a, 6) && !WhiteAt(StartGrid(), a, 6)
  {
    StartSquare(a, 6);
    SingleSquare(StartGrid(), a, 6, BlackPawn);
  }

  /** A ray whose first square is off the board, or is one the mover may not take, marks nothing. */
  lemma RayShut(g: Grid, x: int, y: int, dx: int, dy: int, white: bool, a: int, b: int)
    requires Shaped(g) && OnBoard(x, y) && IsDirection(dx, dy) && OnBoard(a, b)
    requires OnBoard(x + dx, y + dy) ==> !AvailableAt(g, x + dx, y + dy, white)
    ensures !RayReach(g, x, y, dx, dy, white, a, b)
  {
    if OnBoard(x + Step(1, dx), y + Step(1, dy)) {
      RayBlockedAt(g, x, y, dx, dy, white, 1, a, b);
    } else {
      RayLeavesAt(g, x, y, dx, dy, white, 1, a, b);
    }
  }

  /** In the start position the black knight on b8 reaches exactly a6 and c6. */
  lemma StartKnightTargets(a: int, b: int)
    requires OnBoard(a, b)
    ensures Reach(BlackKnight, StartGrid(), 1, 7, a, b) <==> (a, b) == (0, 5) || (a, b) == (2, 5)
  {
    StartEmptySquare(0, 5);
    StartEmptySquare(2, 5);
    StartBlackPawn(3);
  }

  /** The pawns on the a-file move one or two squares ahead and capture nothing. */
  lemma StartPawnTargets(a: int, b: int)
    requires OnBoard(a, b)
    ensures Reach(WhitePawn, StartGrid(), 0, 1, a, b) <==> a == 0 && (b == 2 || b == 3)
    ensures Reach(BlackPawn, StartGrid(), 0, 6, a, b) <==> a == 0 && (b == 5 || b == 4)
  {
    var g := StartGrid();
    StartEmptySquare(0, 2);
    StartEmptySquare(0, 3);
    StartEmptySquare(1, 2);
    StartEmptySquare(0, 4);
    StartEmptySquare(0, 5);
    StartEmptySquare(1, 5);
    EmptySquareColour(g, 0, 2);
    EmptySquareColour(g, 0, 3);
    EmptySquareColour(g, 0, 4);
    EmptySquareColour(g, 0, 5);
  }

  /** A black piece on the back two ranks is one no black piece may take. */
  lemma StartBlackHeld(a: int, b: int)
    requires OnBoard(a, b) && 6 <= b
    ensures !AvailableAt(StartGrid(), a, b, false)
  {
    StartSquare(a, b);
    SingleSquare(StartGrid(), a, b, StartPiece(a, b));
  }

  /** Behind its knight and pawn, the black rook on h8 marks nothing. */
  lemma StartRookShut(a: int, b: int)
    requires OnBoard(a, b)
    ensures !Reach(BlackRook, StartGrid(), 7, 7, a, b)
  {
    var g := StartGrid();
    StartBlackHeld(6, 7);
    StartBlackHeld(7, 6);
    RayShut(g, 7, 7, 1, 0, false, a, b);
    RayShut(g, 7, 7, -1, 0, false, a, b);
    RayShut(g, 7, 7, 0, 1, false, a, b);
    RayShut(g, 7, 7, 0, -1, false, a, b);
  }

  /** Behind its pawns, the black bishop on c8 marks nothing. */
  lemma StartBishopShut(a: int, b: int)
    requires OnBoard(a, b)
    ensures !Reach(BlackBishop, StartGrid(), 2, 7, a, b)
  {
    var g := StartGrid();
    StartBlackHeld(3, 6);
    StartBlackHeld(1, 6);
    RayShut(g, 2, 7, 1, 1, false, a, b);
    RayShut(g, 2, 7, 1, -1, false, a, b);
    RayShut(g, 2, 7, -1, -1, false, a, b);
    RayShut(g, 2, 7, -1, 1, false, a, b);
  }

  /** Between its own pieces, the black queen on d8 marks nothing. */
  lemma StartQueenShut(a: int, b: int)
    requires OnBoard(a, b)
    ensures !Reach(BlackQueen, StartGrid(), 3, 7, a, b)
  {
    var g := StartGrid();
    StartBlackHeld(4, 7);
    StartBlackHeld(2, 7);
    StartBlackHeld(3, 6);
    StartBlackHeld(4, 6);
    StartBlackHeld(2, 6);
    RayShut(g, 3, 7, 1, 0, false, a, b);
    RayShut(g, 3, 7, -1, 0, false, a, b);
    RayShut(g, 3, 7, 0, 1, false, a, b);
    RayShut(g, 3, 7, 0, -1, false, a, b);
    RayShut(g, 3, 7, 1, 1, false, a, b);
    RayShut(g, 3, 7, 1, -1, false, a, b);
    RayShut(g, 3, 7, -1, -1, false, a, b);
    RayShut(g, 3, 7, -1, 1, false, a, b);
  }

  /** Surrounded by its own pieces, the black king on e8 marks nothing. */
  lemma StartKingShut(a: int, b: int)
    requires OnBoard(a, b)
    ensures !Reach(BlackKing, StartGrid(), 4, 7, a, b)
  {
    if 3 <= a <= 5 && 6 <= b {
      StartBlackHeld(a, b);
    }
  }

  /** Only e1 holds the white king and only e8 the black one. */
  lemma StartKingSquares(a: int, b: int)
    requires OnBoard(a, b)
    ensures StartPiece(a, b) == WhiteKing ==> (a, b) == (4, 0)
    ensures StartPiece(a, b) == BlackKing ==> (a, b) == (4, 7)
  {
    if a < 4 {
      assert a == 0 || a == 1 || a == 2 || a == 3;
    } else {
      assert a == 4 || a == 5 || a == 6 || a == 7;
    }
  }

  /** The start position's kings: the white one on e1, the black one on e8. */
  lemma StartKings(white: bool)
    ensures KingSquare(StartGrid(), white) == (4, if white then 0 else 7)
  {
    var g := StartGrid();
    var ky := if white then 0 else 7;
    StartSquare(4, ky);
    SingleSquare(g, 4, ky, KingOf(white));
    KingSquareSpec(g, white);
    var r := KingSquare(g, white);
    StartSquare(r.0, r.1);
    SingleSquare(g, r.0, r.1, StartPiece(r.0, r.1));
    StartKingSquares(r.0, r.1);
  }

  /** No piece reaches a square seven ranks away on another file, unless it is seven files away
      too: the rays are straight, and every other piece moves at most two ranks. */
  lemma NoReachAcross(p: Piece, g: Grid, x: int, y: int, a: int, b: int)
    requires Shaped(g) && OnBoard(x, y) && OnBoard(a, b)
    requires (b - y == 7 || y - b == 7) && a != x && a - x != 7 && x - a != 7
    ensures !Reach(p, g, x, y, a, b)
  {
  }

  /** A back-rank piece IsCheck examines on the start position is the other side's, across the
      board from the king. */
  lemma StartBackRankNoAttacker(white: bool, a: int, b: int)
    requires OnBoard(a, b) && (b == 0 || b == 7)
    ensures !Attacker(StartGrid(), white, a, b, 4, if white then 0 else 7)
  {
    var g := StartGrid();
    var p := StartPiece(a, b);
    var ky := if white then 0 else 7;
    StartSquare(a, b);
    SingleSquare(g, a, b, p);
    StartBackRankColour(a);
    if b != ky {
      if a != 4 {
        NoReachAcross(p, g, a, b, 4, ky);
      } else {
        assert p == KingOf(!white);
      }
    }
  }

  /** The back ranks hold white pieces on rank 1 and black ones on rank 8, the kings on the e-file. */
  lemma StartBackRankColour(a: int)
    requires 0 <= a < 8
    ensures IsWhite(StartPiece(a, 0)) && IsBlack(StartPiece(a, 7))
    ensures a == 4 ==> StartPiece(a, 0) == WhiteKing && StartPiece(a, 7) == BlackKing
  {
    if a < 4 {
      assert a == 0 || a == 1 || a == 2 || a == 3;
    } else {
      assert a == 4 || a == 5 || a == 6 || a == 7;
    }
  }

  /** No piece IsCheck examines on the start position reaches the king it tests, and every one
      of them has a movement matrix. */
  lemma StartNoAttacker(white: bool, a: int, b: int)
    requires OnBoard(a, b)
    ensures MatrixDefined(StartGrid(), PieceAt(StartGrid(), a, b), a, b)
    ensures !Attacker(StartGrid(), white, a, b, 4, if white then 0 else 7)
  {
    var g := StartGrid();
    StartSquare(a, b);
    SingleSquare(g, a, b, StartPiece(a, b));
    if b == 0 || b == 7 {
      StartBackRankNoAttacker(white, a, b);
    }
  }

  /** The start position is check for neither side, and IsCheck is defined on it. */
  lemma StartNotInCheck(white: bool)
    ensures CheckDefined(StartGrid(), white) && !InCheck(StartGrid(), white)
  {
    StartKings(white);
    forall a, b | OnBoard(a, b)
      ensures MatrixDefined(StartGrid(), PieceAt(StartGrid(), a, b), a, b)
      ensures !Attacker(StartGrid(), white, a, b, 4, if white then 0 else 7)
    {
      StartNoAttacker(white, a, b);
    }
  }

  // ---------------------------------------------------------------- a queen giving check

  /** The check scenario: a white king on e5 (4, 4) and a black queen on a1 (0, 0), placed on an
      empty board, and, when blocked, a white pawn put on d4 (3, 3) between them. */
  function SceneGrid(blocked: bool): (g: Grid)
    ensures Shaped(g)
  {
    var g := Place(Place(EmptyGrid(), 4, 4, WhiteKing), 0, 0, BlackQueen);
    if blocked then Place(g, 3, 3, WhitePawn) else g
  }

  function ScenePiece(a: int, b: int, blocked: bool): Piece {
    if (a, b) == (4, 4) then WhiteKing
    else if (a, b) == (0, 0) then BlackQueen
    else if blocked && (a, b) == (3, 3) then WhitePawn
    else NoPiece
  }

  /** The scenario's squares hold exactly the pieces placed there; its one pawn has a matrix. */
  lemma SceneSquare(a: int, b: int, blocked: bool)
    requires OnBoard(a, b)
    ensures SceneGrid(blocked)[a][b] == Single(ScenePiece(a, b, blocked))
    ensures PieceAt(SceneGrid(blocked), a, b) == ScenePiece(a, b, blocked)
    ensures MatrixDefined(SceneGrid(blocked), ScenePiece(a, b, blocked), a, b)
  {
    assert EmptyGrid()[a][b] == Single(NoPiece);
    FirstSetSingle(ScenePiece(a, b, blocked), 0);
  }

  /** Only e5 holds a king, the white one. */
  lemma SceneKings(blocked: bool)
    ensures KingSquare(SceneGrid(blocked), true) == (4, 4)
    ensures KingSquare(SceneGrid(blocked), false) == (-1, -1)
  {
    var g := SceneGrid(blocked);
    SceneSquare(4, 4, blocked);
    KingSquareSpec(g, true);
    var r := KingSquare(g, true);
    SceneSquare(r.0, r.1, blocked);
    KingSquareSpec(g, false);
    var s := KingSquare(g, false);
    if s != (-1, -1) {
      SceneSquare(s.0, s.1, blocked);
    }
  }

  /** IsCheck does not panic on either board: its one pawn stands well inside the board. */
  lemma SceneDefined(blocked: bool)
    ensures CheckDefined(SceneGrid(blocked), true)
  {
    var g := SceneGrid(blocked);
    SceneKings(blocked);
    forall a, b | OnBoard(a, b) ensures MatrixDefined(g, PieceAt(g, a, b), a, b) {
      SceneSquare(a, b, blocked);
    }
  }

  /** The queen's diagonal to the king is open: white is in check. Black has no king, so black
      is not. */
  lemma QueenGivesCheck()
    ensures CheckDefined(SceneGrid(false), true) && InCheck(SceneGrid(false), true)
    ensures !InCheck(SceneGrid(false), false)
  {
    var g := SceneGrid(false);
    SceneDefined(false);
    SceneKings(false);
    forall t | 1 <= t < 4 ensures EmptyAt(g, t, t) {
      SceneSquare(t, t, false);
      SingleSquare(g, t, t, NoPiece);
    }
    SceneSquare(4, 4, false);
    SingleSquare(g, 4, 4, WhiteKing);
    assert RayReach(g, 0, 0, 1, 1, false, 4, 4);
    SceneSquare(0, 0, false);
    assert Attacker(g, true, 0, 0, 4, 4);
  }

  /** A queen on a1 does not reach e5 past a piece on d4. */
  lemma QueenStopped(g: Grid)
    requires Shaped(g) && !EmptyAt(g, 3, 3)
    ensures !Reach(BlackQueen, g, 0, 0, 4, 4)
  {
    RayStopsAtOccupied(g, 0, 0, 1, 1, false, 3, 4, 4);
  }

  /** The queen on a1 does not reach e5 past the pawn on d4. */
  lemma BlockedQueen()
    ensures !Reach(BlackQueen, SceneGrid(true), 0, 0, 4, 4)
  {
    SceneSquare(3, 3, true);
    SingleSquare(SceneGrid(true), 3, 3, WhitePawn);
    QueenStopped(SceneGrid(true));
  }

  /** The pawn on d4, which IsCheck examines because IsWhite is false for it, captures only
      black pieces, so it does not reach the king on e5 either. */
  lemma BlockedPawn()
    ensures !Reach(WhitePawn, SceneGrid(true), 3, 3, 4, 4)
  {
    var g := SceneGrid(true);
    SceneSquare(4, 4, true);
    SingleSquare(g, 4, 4, WhiteKing);
  }

  /** With the pawn on d4 white is not in check. */
  lemma PawnBlocksCheck()
    ensures CheckDefined(SceneGrid(true), true) && !InCheck(SceneGrid(true), true)
  {
    var g := SceneGrid(true);
    SceneDefined(true);
    SceneKings(true);
    BlockedQueen();
    BlockedPawn();
    forall a, b | OnBoard(a, b) ensures !Attacker(g, true, a, b, 4, 4) {
      SceneSquare(a, b, true);
    }
  }
}
