/** The movement generators: for a piece on (x, y), a new board whose planes mark the squares
    the piece may move to. Each generator is proved, square by square, against the destination
    rules of module Moves. */
module Movement {
  import opened Pieces
  import opened Planes
  import opened Moves
  import opened Fen
  import opened Board

  /** The end of a ray walk at the occupied square n steps out: mark it when it is available
      to the mover, and the marks are then exactly the squares the ray reaches. */
  method StopRay(board: BitBoard, m: BitBoard, x: int, y: int, dx: int, dy: int, piece: Piece, white: bool,
                 i: int, j: int, ghost n: int, ghost before: Grid)
    requires board.Dims() && m.Dims() && m.board != board.board && Shaped(before)
    requires OnBoard(x, y) && IsDirection(dx, dy) && piece != NoPiece && n >= 1
    requires i == x + Step(n, dx) && j == y + Step(n, dy) && OnBoard(i, j) && !EmptyAt(board.Grid(), i, j)
    requires forall t :: 0 < t < n ==> OnBoard(x + Step(t, dx), y + Step(t, dy)) && EmptyAt(board.Grid(), x + Step(t, dx), y + Step(t, dy))
    requires forall a, b, k :: 0 <= a < 8 && 0 <= b < 8 && 0 <= k < 12 ==>
               m.board[a, b, k] == if OnRay(x, y, dx, dy, a, b) && RayIndex(x, y, dx, dy, a, b) < n
                                   then k == piece as int else before[a][b][k]
    modifies m.board
    ensures forall a, b, k :: 0 <= a < 8 && 0 <= b < 8 && 0 <= k < 12 ==>
              m.board[a, b, k] == if RayReach(board.Grid(), x, y, dx, dy, white, a, b) then k == piece as int
                                  else before[a][b][k]
  {
    ghost var g := board.Grid();
    var available := board.IsFieldAvailable(i, j, white);
    if available {
      m.PlacePieceOnBoard(i, j, piece);
      RayNext(x, y, dx, dy, n);
    }
    RayBlocked(g, x, y, dx, dy, white, n);
    RayMarks(g, x, y, dx, dy, white, if available then n + 1 else n, piece, m.Grid(), before);
    assert board.Grid() == g;
  }

  /** One empty square of a ray walk, n steps out: it is marked and the walk goes on. */
  method MarkRaySquare(board: BitBoard, m: BitBoard, x: int, y: int, dx: int, dy: int, piece: Piece,
                       i: int, j: int, ghost n: int, ghost before: Grid)
    requires board.Dims() && m.Dims() && m.board != board.board && Shaped(before)
    requires OnBoard(x, y) && IsDirection(dx, dy) && piece != NoPiece && n >= 1
    requires i == x + Step(n, dx) && j == y + Step(n, dy) && OnBoard(i, j) && EmptyAt(board.Grid(), i, j)
    requires forall t :: 0 < t < n ==> OnBoard(x + Step(t, dx), y + Step(t, dy)) && EmptyAt(board.Grid(), x + Step(t, dx), y + Step(t, dy))
    requires forall a, b, k :: 0 <= a < 8 && 0 <= b < 8 && 0 <= k < 12 ==>
               m.board[a, b, k] == if OnRay(x, y, dx, dy, a, b) && RayIndex(x, y, dx, dy, a, b) < n
                                   then k == piece as int else before[a][b][k]
    modifies m.board
    ensures n < 8
    ensures forall t :: 0 < t < n + 1 ==> OnBoard(x + Step(t, dx), y + Step(t, dy)) && EmptyAt(board.Grid(), x + Step(t, dx), y + Step(t, dy))
    ensures forall a, b, k :: 0 <= a < 8 && 0 <= b < 8 && 0 <= k < 12 ==>
              m.board[a, b, k] == if OnRay(x, y, dx, dy, a, b) && RayIndex(x, y, dx, dy, a, b) < n + 1
                                  then k == piece as int else before[a][b][k]
  {
    m.PlacePieceOnBoard(i, j, piece);
    RayNext(x, y, dx, dy, n);
    RayEmptyNext(board.Grid(), x, y, dx, dy, n);
  }

  /** One ray loop of getRookMatrix or getBishopMatrix: from the square next to (x, y) along
      (dx, dy), mark each empty square, stop at the first occupied square (marking it when it is
      available to the mover) or at the edge of the board. */
  method WalkRay(board: BitBoard, m: BitBoard, x: int, y: int, dx: int, dy: int, piece: Piece, white: bool)
    requires board.Dims() && m.Dims() && m.board != board.board
    requires OnBoard(x, y) && IsDirection(dx, dy) && piece != NoPiece
    modifies m.board
    ensures forall a, b, k :: 0 <= a < 8 && 0 <= b < 8 && 0 <= k < 12 ==>
              m.board[a, b, k] == if RayReach(board.Grid(), x, y, dx, dy, white, a, b) then k == piece as int
                                  else old(m.board[a, b, k])
  {
    ghost var g := board.Grid();
    ghost var before := m.Grid();
    var i, j := x + dx, y + dy;
    ghost var n := 1;
    while 0 <= i < 8 && 0 <= j < 8
      invariant 1 <= n <= 8 && i == x + Step(n, dx) && j == y + Step(n, dy)
      invariant forall t :: 0 < t < n ==> OnBoard(x + Step(t, dx), y + Step(t, dy)) && EmptyAt(g, x + Step(t, dx), y + Step(t, dy))
      invariant forall a, b, k :: 0 <= a < 8 && 0 <= b < 8 && 0 <= k < 12 ==>
                  m.board[a, b, k] == if OnRay(x, y, dx, dy, a, b) && RayIndex(x, y, dx, dy, a, b) < n
                                      then k == piece as int else before[a][b][k]
      decreases 8 - n
    {
      var empty := board.IsFieldEmpty(i, j);
      if !empty {
        StopRay(board, m, x, y, dx, dy, piece, white, i, j, n, before);
        return;
      }
      MarkRaySquare(board, m, x, y, dx, dy, piece, i, j, n, before);
      i, j, n := i + dx, j + dy, n + 1;
    }
    RayLeavesBoard(g, x, y, dx, dy, white, n);
    RayMarks(g, x, y, dx, dy, white, n, piece, m.Grid(), before);
    assert board.Grid() == g;
  }

  /** getRookMatrix: the four axis rays, in the order +file, -file, +rank, -rank, each marking
      the rook's plane. */
  method RookMatrix(board: BitBoard, x: int, y: int, white: bool) returns (m: BitBoard)
    requires board.Dims() && OnBoard(x, y)
    ensures fresh(m) && fresh(m.board)
    ensures m.Valid() && m.View() == EmptyPosition().(grid := m.Grid())
    ensures forall a, b, k :: 0 <= a < 8 && 0 <= b < 8 && 0 <= k < 12 ==>
              m.board[a, b, k] == (k == (if white then WhiteRook else BlackRook) as int && RookReach(board.Grid(), x, y, white, a, b))
  {
    var piece := if white then WhiteRook else BlackRook;
    m := new BitBoard.Empty();
    WalkRay(board, m, x, y, 1, 0, piece, white);
    WalkRay(board, m, x, y, -1, 0, piece, white);
    WalkRay(board, m, x, y, 0, 1, piece, white);
    WalkRay(board, m, x, y, 0, -1, piece, white);
  }

  /** getBishopMatrix: the four diagonal rays, in the order (+1, +1), (+1, -1), (-1, -1),
      (-1, +1), each marking the bishop's plane. */
  method BishopMatrix(board: BitBoard, x: int, y: int, white: bool) returns (m: BitBoard)
    requires board.Dims() && OnBoard(x, y)
    ensures fresh(m) && fresh(m.board)
    ensures m.Valid() && m.View() == EmptyPosition().(grid := m.Grid())
    ensures forall a, b, k :: 0 <= a < 8 && 0 <= b < 8 && 0 <= k < 12 ==>
              m.board[a, b, k] == (k == (if white then WhiteBishop else BlackBishop) as int && BishopReach(board.Grid(), x, y, white, a, b))
  {
    var piece := if white then WhiteBishop else BlackBishop;
    m := new BitBoard.Empty();
    WalkRay(board, m, x, y, 1, 1, piece, white);
    WalkRay(board, m, x, y, 1, -1, piece, white);
    WalkRay(board, m, x, y, -1, -1, piece, white);
    WalkRay(board, m, x, y, -1, 1, piece, white);
  }

  /** One knight target, i files and j ranks from (x, y) and on the board: its cell in plane k
      is set to whether the square is available to the mover (the (+-2, +-1) targets) or empty
      (the (+-1, +-2) targets), as getKnightMatrix assigns it; that is whether the knight reaches it. */
  method KnightTarget(board: BitBoard, m: BitBoard, x: int, y: int, i: int, j: int, k: Piece, white: bool)
    requires board.Dims() && m.Dims() && m.board != board.board && OnBoard(x, y) && OnBoard(x + i, y + j) && k != NoPiece
    requires ((i == 2 || i == -2) && (j == 1 || j == -1)) || ((i == 1 || i == -1) && (j == 2 || j == -2))
    modifies m.board
    ensures forall a, b, k' :: 0 <= a < 8 && 0 <= b < 8 && 0 <= k' < 12 ==>
              m.board[a, b, k'] == if a == x + i && b == y + j && k' == k as int then KnightReach(board.Grid(), x, y, white, a, b)
                                   else old(m.board[a, b, k'])
  {
    var r: bool;
    if i == 2 || i == -2 {
      r := board.IsFieldAvailable(x + i, y + j, white);
    } else {
      r := board.IsFieldEmpty(x + i, y + j);
    }
    m.board[x + i, y + j, k] := r;
  }

  /** The two knight targets i = +-2 files away, one rank either side, when that file is on the board. */
  method KnightFile(board: BitBoard, m: BitBoard, x: int, y: int, i: int, piece: Piece, white: bool)
    requires board.Dims() && m.Dims() && m.board != board.board && OnBoard(x, y) && piece != NoPiece
    requires i == 2 || i == -2
    modifies m.board
    ensures forall a, b, k :: 0 <= a < 8 && 0 <= b < 8 && 0 <= k < 12 ==>
              m.board[a, b, k] == if a == x + i && (b == y + 1 || b == y - 1) && k == piece as int
                                  then KnightReach(board.Grid(), x, y, white, a, b) else old(m.board[a, b, k])
  {
    if 0 <= x + i < 8 {
      if y + 1 < 8 {
        KnightTarget(board, m, x, y, i, 1, piece, white);
      }
      if y - 1 >= 0 {
        KnightTarget(board, m, x, y, i, -1, piece, white);
      }
    }
  }

  /** The two knight targets j = +-2 ranks away, one file either side, when that rank is on the board. */
  method KnightRank(board: BitBoard, m: BitBoard, x: int, y: int, j: int, piece: Piece, white: bool)
    requires board.Dims() && m.Dims() && m.board != board.board && OnBoard(x, y) && piece != NoPiece
    requires j == 2 || j == -2
    modifies m.board
    ensures forall a, b, k :: 0 <= a < 8 && 0 <= b < 8 && 0 <= k < 12 ==>
              m.board[a, b, k] == if b == y + j && (a == x + 1 || a == x - 1) && k == piece as int
                                  then KnightReach(board.Grid(), x, y, white, a, b) else old(m.board[a, b, k])
  {
    if 0 <= y + j < 8 {
      if x + 1 < 8 {
        KnightTarget(board, m, x, y, 1, j, piece, white);
      }
      if x - 1 >= 0 {
        KnightTarget(board, m, x, y, -1, j, piece, white);
      }
    }
  }

  /** getKnightMatrix as written: it marks the rook's plane of its colour; the (+-2, +-1) targets
      take IsFieldAvailable, the (+-1, +-2) targets IsFieldEmpty; targets off the board are skipped. */
  method KnightMatrix(board: BitBoard, x: int, y: int, white: bool) returns (m: BitBoard)
    requires board.Dims() && OnBoard(x, y)
    ensures fresh(m) && fresh(m.board)
    ensures m.Valid() && m.View() == EmptyPosition().(grid := m.Grid())
    ensures forall a, b, k :: 0 <= a < 8 && 0 <= b < 8 && 0 <= k < 12 ==>
              m.board[a, b, k] == (k == (if white then WhiteRook else BlackRook) as int && KnightReach(board.Grid(), x, y, white, a, b))
  {
    var piece := if white then WhiteRook else BlackRook;
    m := new BitBoard.Empty();
    KnightFile(board, m, x, y, 2, piece, white);
    KnightFile(board, m, x, y, -2, piece, white);
    KnightRank(board, m, x, y, 2, piece, white);
    KnightRank(board, m, x, y, -2, piece, white);
  }

  /** The pawn's advance: the square ahead is written when available, and then the square two
      ahead is written with its own availability. */
  method PawnAdvance(board: BitBoard, m: BitBoard, x: int, y: int, piece: Piece, white: bool)
    requires board.Dims() && m.Dims() && m.board != board.board && OnBoard(x, y) && piece != NoPiece
    requires PawnSafe(board.Grid(), x, y, white)
    requires forall b :: 0 <= b < 8 ==> !m.board[x, b, piece]
    modifies m.board
    ensures forall a, b, k :: 0 <= a < 8 && 0 <= b < 8 && 0 <= k < 12 ==>
              m.board[a, b, k] == if a == x && k == piece as int then PawnReach(board.Grid(), x, y, white, a, b)
                                  else old(m.board[a, b, k])
  {
    PawnOwnFile(board.Grid(), x, y, white);
    var direction := if white then 1 else -1;
    var ahead := board.IsFieldAvailable(x, y + direction, white);
    if ahead {
      m.board[x, y + direction, piece] := true;
      var twoAhead := board.IsFieldAvailable(x, y + 2 * direction, white);
      m.board[x, y + 2 * direction, piece] := twoAhead;
    }
  }

  /** A pawn capture on file x + i (i = +-1), when that file is on the board: marked when the
      square ahead on it is available to the mover and not empty. */
  method PawnCapture(board: BitBoard, m: BitBoard, x: int, y: int, i: int, piece: Piece, white: bool)
    requires board.Dims() && m.Dims() && m.board != board.board && OnBoard(x, y) && piece != NoPiece
    requires PawnSafe(board.Grid(), x, y, white) && (i == 1 || i == -1)
    requires forall a, b, k :: 0 <= a < 8 && 0 <= b < 8 && 0 <= k < 12 && a == x + i ==> !m.board[a, b, k]
    modifies m.board
    ensures forall a, b, k :: 0 <= a < 8 && 0 <= b < 8 && 0 <= k < 12 ==>
              m.board[a, b, k] == if a == x + i then k == piece as int && PawnReach(board.Grid(), x, y, white, a, b)
                                  else old(m.board[a, b, k])
  {
    var direction := if white then 1 else -1;
    if 0 <= x + i < 8 {
      PawnSideFile(board.Grid(), x, y, white, i);
      var available := board.IsFieldAvailable(x + i, y + direction, white);
      if available {
        var empty := board.IsFieldEmpty(x + i, y + direction);
        if !empty {
          m.PlacePieceOnBoard(x + i, y + direction, piece);
        }
      }
    }
  }

  /** getPawnMatrix's two captures, on file x - 1 and then on file x + 1. */
  method PawnCaptures(board: BitBoard, m: BitBoard, x: int, y: int, piece: Piece, white: bool)
    requires board.Dims() && m.Dims() && m.board != board.board && OnBoard(x, y) && piece != NoPiece
    requires PawnSafe(board.Grid(), x, y, white)
    requires forall a, b, k :: 0 <= a < 8 && 0 <= b < 8 && 0 <= k < 12 && a != x ==> !m.board[a, b, k]
    modifies m.board
    ensures forall a, b, k :: 0 <= a < 8 && 0 <= b < 8 && 0 <= k < 12 ==>
              m.board[a, b, k] == if a != x then k == piece as int && PawnReach(board.Grid(), x, y, white, a, b)
                                  else old(m.board[a, b, k])
  {
    PawnCapture(board, m, x, y, -1, piece, white);
    PawnCapture(board, m, x, y, 1, piece, white);
    PawnFarFiles(board.Grid(), x, y, white);
  }

  /** getPawnMatrix: the advance on the pawn's own file, then the capture on each neighbouring
      file, all in the pawn's plane. */
  method PawnMatrix(board: BitBoard, x: int, y: int, white: bool) returns (m: BitBoard)
    requires board.Dims() && OnBoard(x, y) && PawnSafe(board.Grid(), x, y, white)
    ensures fresh(m) && fresh(m.board)
    ensures m.Valid() && m.View() == EmptyPosition().(grid := m.Grid())
    ensures forall a, b, k :: 0 <= a < 8 && 0 <= b < 8 && 0 <= k < 12 ==>
              m.board[a, b, k] == (k == (if white then WhitePawn else BlackPawn) as int && PawnReach(board.Grid(), x, y, white, a, b))
  {
    var piece := if white then WhitePawn else BlackPawn;
    m := new BitBoard.Empty();
    PawnAdvance(board, m, x, y, piece, white);
    PawnCaptures(board, m, x, y, piece, white);
  }

  /** One column of getKingMatrix's neighbourhood loop, offset i from the king's file: each of
      the three squares is marked when the skip test lets it through, it is on the board and it is
      available to the mover. */
  method KingColumn(board: BitBoard, m: BitBoard, x: int, y: int, i: int, piece: Piece, white: bool)
    requires board.Dims() && m.Dims() && m.board != board.board && OnBoard(x, y) && piece != NoPiece
    requires -1 <= i <= 1
    requires forall a, b, k :: 0 <= a < 8 && 0 <= b < 8 && 0 <= k < 12 && a == x + i ==> !m.board[a, b, k]
    modifies m.board
    ensures forall a, b, k :: 0 <= a < 8 && 0 <= b < 8 && 0 <= k < 12 ==>
              m.board[a, b, k] == if a == x + i then k == piece as int && KingReach(board.Grid(), x, y, white, a, b)
                                  else old(m.board[a, b, k])
  {
    for j := -1 to 2
      invariant forall a, b, k :: 0 <= a < 8 && 0 <= b < 8 && 0 <= k < 12 ==>
                  m.board[a, b, k] == if a == x + i && b - y < j then k == piece as int && KingReach(board.Grid(), x, y, white, a, b)
                                      else old(m.board[a, b, k])
    {
      var xi, yi := x + i, y + j;
      if !(i == x && j == y) && xi < 8 && xi >= 0 && yi < 8 && yi >= 0 {
        var available := board.IsFieldAvailable(xi, yi, white);
        if available {
          m.PlacePieceOnBoard(xi, yi, piece);
        }
      }
    }
  }

  /** getKingMatrix as written: the offsets (i, j) in -1..1 are skipped when they equal (x, y),
      so the king's own square is examined (and its other neighbours skipped) near the corner a1. */
  method KingMatrix(board: BitBoard, x: int, y: int, white: bool) returns (m: BitBoard)
    requires board.Dims() && OnBoard(x, y)
    ensures fresh(m) && fresh(m.board)
    ensures m.Valid() && m.View() == EmptyPosition().(grid := m.Grid())
    ensures forall a, b, k :: 0 <= a < 8 && 0 <= b < 8 && 0 <= k < 12 ==>
              m.board[a, b, k] == (k == (if white then WhiteKing else BlackKing) as int && KingReach(board.Grid(), x, y, white, a, b))
  {
    var piece := if white then WhiteKing else BlackKing;
    m := new BitBoard.Empty();
    ghost var flags := m.View();
    for i := -1 to 2
      modifies m.board
      invariant forall a, b, k :: 0 <= a < 8 && 0 <= b < 8 && 0 <= k < 12 ==>
                  m.board[a, b, k] == (k == piece as int && a - x < i && KingReach(board.Grid(), x, y, white, a, b))
    {
      KingColumn(board, m, x, y, i, piece, white);
    }
    assert m.View() == flags.(grid := m.Grid());
  }

  /** One file of getQueenMatrix's merge loop: each square where the rook or the bishop matrix
      is not empty gets the queen. */
  method QueenColumn(rook: BitBoard, bishop: BitBoard, m: BitBoard, i: int, piece: Piece)
    requires rook.Dims() && bishop.Dims() && m.Dims() && m.board != rook.board && m.board != bishop.board
    requires 0 <= i < 8 && piece != NoPiece
    requires forall a, b, k :: 0 <= a < 8 && 0 <= b < 8 && 0 <= k < 12 && a == i ==> !m.board[a, b, k]
    modifies m.board
    ensures forall a, b, k :: 0 <= a < 8 && 0 <= b < 8 && 0 <= k < 12 ==>
              m.board[a, b, k] == if a == i then k == piece as int && (!EmptyAt(rook.Grid(), a, b) || !EmptyAt(bishop.Grid(), a, b))
                                  else old(m.board[a, b, k])
  {
    for j := 0 to 8
      invariant forall a, b, k :: 0 <= a < 8 && 0 <= b < 8 && 0 <= k < 12 ==>
                  m.board[a, b, k] == if a == i && b < j then k == piece as int && (!EmptyAt(rook.Grid(), a, b) || !EmptyAt(bishop.Grid(), a, b))
                                      else old(m.board[a, b, k])
    {
      var rookEmpty := rook.IsFieldEmpty(i, j);
      var bishopEmpty := bishop.IsFieldEmpty(i, j);
      if !rookEmpty || !bishopEmpty {
        m.PlacePieceOnBoard(i, j, piece);
      }
    }
  }

  /** getQueenMatrix's merge loop over a fresh board: a square gets the queen when the rook or
      the bishop matrix of its colour is not empty there. */
  method MergeQueen(board: BitBoard, rook: BitBoard, bishop: BitBoard, x: int, y: int, white: bool, piece: Piece)
    returns (m: BitBoard)
    requires board.Dims() && rook.Dims() && bishop.Dims() && OnBoard(x, y) && piece != NoPiece
    requires IsMatrixOf(rook.Grid(), if white then WhiteRook else BlackRook, board.Grid(), x, y)
    requires IsMatrixOf(bishop.Grid(), if white then WhiteBishop else BlackBishop, board.Grid(), x, y)
    ensures fresh(m) && fresh(m.board)
    ensures m.Valid() && m.View() == EmptyPosition().(grid := m.Grid())
    ensures forall a, b, k :: 0 <= a < 8 && 0 <= b < 8 && 0 <= k < 12 ==>
              m.board[a, b, k] == (k == piece as int && QueenReach(board.Grid(), x, y, white, a, b))
  {
    QueenMerge(rook.Grid(), bishop.Grid(), board.Grid(), x, y, white);
    m := new BitBoard.Empty();
    ghost var flags := m.View();
    for i := 0 to 8
      modifies m.board
      invariant forall a, b, k :: 0 <= a < 8 && 0 <= b < 8 && 0 <= k < 12 ==>
                  m.board[a, b, k] == (k == piece as int && a < i && (!EmptyAt(rook.Grid(), a, b) || !EmptyAt(bishop.Grid(), a, b)))
    {
      QueenColumn(rook, bishop, m, i, piece);
    }
    assert m.View() == flags.(grid := m.Grid());
  }

  /** getQueenMatrix: the bishop and rook matrices of the queen's colour, merged square by square
      into the queen's plane. */
  method QueenMatrix(board: BitBoard, x: int, y: int, white: bool) returns (m: BitBoard)
    requires board.Dims() && OnBoard(x, y)
    ensures fresh(m) && fresh(m.board)
    ensures m.Valid() && m.View() == EmptyPosition().(grid := m.Grid())
    ensures forall a, b, k :: 0 <= a < 8 && 0 <= b < 8 && 0 <= k < 12 ==>
              m.board[a, b, k] == (k == (if white then WhiteQueen else BlackQueen) as int && QueenReach(board.Grid(), x, y, white, a, b))
    decreases 1
  {
    var piece: Piece;
    var bishop: BitBoard;
    var rook: BitBoard;
    if white {
      piece := WhiteQueen;
      bishop := GetMovementMatrix(WhiteBishop, board, x, y);
      rook := GetMovementMatrix(WhiteRook, board, x, y);
    } else {
      bishop := GetMovementMatrix(BlackBishop, board, x, y);
      rook := GetMovementMatrix(BlackRook, board, x, y);
      piece := BlackQueen;
    }
    m := MergeQueen(board, rook, bishop, x, y, white, piece);
  }

  /** GetMovementMatrix: the generator for the piece, with the colour each case passes (the
      white knight is dispatched as black); NoPiece gets an empty board. */
  method GetMovementMatrix(p: Piece, board: BitBoard, x: int, y: int) returns (m: BitBoard)
    requires board.Dims() && OnBoard(x, y) && MatrixDefined(board.Grid(), p, x, y)
    ensures fresh(m) && fresh(m.board)
    ensures m.Valid() && m.View() == EmptyPosition().(grid := m.Grid())
    ensures IsMatrixOf(m.Grid(), p, board.Grid(), x, y)
    decreases if p == BlackQueen || p == WhiteQueen then 2 else 0
  {
    if p == BlackPawn {
      m := PawnMatrix(board, x, y, false);
      PawnMatrixOf(m.Grid(), board.Grid(), x, y, false);
    } else if p == WhitePawn {
      m := PawnMatrix(board, x, y, true);
      PawnMatrixOf(m.Grid(), board.Grid(), x, y, true);
    } else if p == BlackRook {
      m := RookMatrix(board, x, y, false);
      RookMatrixOf(m.Grid(), board.Grid(), x, y, false);
    } else if p == WhiteRook {
      m := RookMatrix(board, x, y, true);
      RookMatrixOf(m.Grid(), board.Grid(), x, y, true);
    } else if p == BlackKnight {
      m := KnightMatrix(board, x, y, false);
      KnightMatrixOf(m.Grid(), board.Grid(), x, y, p);
    } else if p == WhiteKnight {
      m := KnightMatrix(board, x, y, false);
      KnightMatrixOf(m.Grid(), board.Grid(), x, y, p);
    } else if p == BlackBishop {
      m := BishopMatrix(board, x, y, false);
      BishopMatrixOf(m.Grid(), board.Grid(), x, y, false);
    } else if p == WhiteBishop {
      m := BishopMatrix(board, x, y, true);
      BishopMatrixOf(m.Grid(), board.Grid(), x, y, true);
    } else if p == BlackQueen {
      m := QueenMatrix(board, x, y, false);
      QueenMatrixOf(m.Grid(), board.Grid(), x, y, false);
    } else if p == WhiteQueen {
      m := QueenMatrix(board, x, y, true);
      QueenMatrixOf(m.Grid(), board.Grid(), x, y, true);
    } else if p == BlackKing {
      m := KingMatrix(board, x, y, false);
      KingMatrixOf(m.Grid(), board.Grid(), x, y, false);
    } else if p == WhiteKing {
      m := KingMatrix(board, x, y, true);
      KingMatrixOf(m.Grid(), board.Grid(), x, y, true);
    } else {
      m := new BitBoard.Empty();
    }
  }
}
