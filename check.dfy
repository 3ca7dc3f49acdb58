/** IsCheck and doesMoveResultInCheck. In Go they are methods of BitBoard; they call the movement
    generators, which use BitBoard, so here they are module-level methods taking the board. */
module Check {
  import opened Pieces
  import opened Planes
  import opened Moves
  import opened Fen
  import opened Board
  import opened Movement

  /** Masking with a square whose twelve planes are all set keeps the other grid's planes there. */
  lemma AndFullSquare(c: Grid, m: Grid, x: int, y: int)
    requires Shaped(c) && Shaped(m) && OnBoard(x, y)
    requires forall k :: 0 <= k < 12 ==> c[x][y][k]
    ensures EmptyAt(AndGrid(c, m), x, y) <==> EmptyAt(m, x, y)
  {
    assert forall k :: 0 <= k < 12 ==> AndGrid(c, m)[x][y][k] == m[x][y][k];
  }

  /** One examined square of IsCheck's scan: the piece on (i, j) attacks the king on (x, y)
      exactly when And(checkMatrix, its movement matrix) is not empty on the king's square. */
  method Attacks(board: BitBoard, checkMatrix: BitBoard, white: bool, x: int, y: int, i: int, j: int, piece: Piece)
    returns (r: bool)
    requires board.Dims() && checkMatrix.Dims() && OnBoard(x, y) && OnBoard(i, j)
    requires piece == PieceAt(board.Grid(), i, j) && Candidate(piece, white)
    requires MatrixDefined(board.Grid(), piece, i, j)
    requires forall a, b, k :: 0 <= a < 8 && 0 <= b < 8 && 0 <= k < 12 ==> checkMatrix.board[a, b, k] == (a == x && b == y)
    ensures r == Attacker(board.Grid(), white, i, j, x, y)
  {
    var movementMatrix := GetMovementMatrix(piece, board, i, j);
    var combinedMatrix := And(checkMatrix, movementMatrix);
    var empty := combinedMatrix.IsFieldEmpty(x, y);
    AndFullSquare(checkMatrix.Grid(), movementMatrix.Grid(), x, y);
    MatrixEmptyAt(movementMatrix.Grid(), piece, board.Grid(), i, j);
    r := !empty;
  }

  /** A square whose piece is not examined holds no attacker. */
  lemma NotCandidate(g: Grid, white: bool, i: int, j: int, x: int, y: int)
    requires Shaped(g) && OnBoard(i, j) && OnBoard(x, y) && !Candidate(PieceAt(g, i, j), white)
    requires forall b :: 0 <= b < j ==> !Attacker(g, white, i, b, x, y)
    ensures forall b :: 0 <= b < j + 1 ==> !Attacker(g, white, i, b, x, y)
  {
  }

  lemma NoAttackerUpTo(g: Grid, white: bool, i: int, j: int, x: int, y: int)
    requires Shaped(g) && OnBoard(i, j) && OnBoard(x, y) && !Attacker(g, white, i, j, x, y)
    requires forall b :: 0 <= b < j ==> !Attacker(g, white, i, b, x, y)
    ensures forall b :: 0 <= b < j + 1 ==> !Attacker(g, white, i, b, x, y)
  {
  }

  lemma NoAttackerBeforeFile(g: Grid, white: bool, i: int, x: int, y: int)
    requires Shaped(g) && 0 <= i < 8 && OnBoard(x, y)
    requires forall a, b :: OnBoard(a, b) && a < i ==> !Attacker(g, white, a, b, x, y)
    requires forall b :: 0 <= b < 8 ==> !Attacker(g, white, i, b, x, y)
    ensures forall a, b :: OnBoard(a, b) && a < i + 1 ==> !Attacker(g, white, a, b, x, y)
  {
  }

  /** The inner loop of IsCheck's scan, over the ranks of file i: it reports whether a piece on
      that file attacks the king, given that none on an earlier file does. */
  method ScanFile(board: BitBoard, checkMatrix: BitBoard, white: bool, x: int, y: int, i: int) returns (found: bool)
    requires board.Dims() && checkMatrix.Dims() && 0 <= i < 8
    requires (x, y) == KingSquare(board.Grid(), white) && OnBoard(x, y) && CheckDefined(board.Grid(), white)
    requires forall a, b, k :: 0 <= a < 8 && 0 <= b < 8 && 0 <= k < 12 ==> checkMatrix.board[a, b, k] == (a == x && b == y)
    requires forall a, b :: OnBoard(a, b) && a < i ==> !Attacker(board.Grid(), white, a, b, x, y)
    ensures found ==> exists b :: 0 <= b < 8 && Attacker(board.Grid(), white, i, b, x, y)
    ensures !found ==> forall b :: 0 <= b < 8 ==> !Attacker(board.Grid(), white, i, b, x, y)
  {
    ghost var g := board.Grid();
    for j := 0 to 8
      invariant forall b :: 0 <= b < j ==> !Attacker(g, white, i, b, x, y)
    {
      var piece := board.GetPieceOnField(i, j);
      if piece == NoPiece || (white && IsWhite(piece)) || (!white && IsBlack(piece)) {
        NotCandidate(g, white, i, j, x, y);
        continue;
      }
      DefinedBeforeAttack(g, white, i, j);
      var attacks := Attacks(board, checkMatrix, white, x, y, i, j, piece);
      if attacks {
        return true;
      }
      NoAttackerUpTo(g, white, i, j, x, y);
    }
    return false;
  }

  /** IsCheck's scan over all files: whether any square holds an attacker of the king. */
  method ScanBoard(board: BitBoard, checkMatrix: BitBoard, white: bool, x: int, y: int) returns (found: bool)
    requires board.Dims() && checkMatrix.Dims()
    requires (x, y) == KingSquare(board.Grid(), white) && OnBoard(x, y) && CheckDefined(board.Grid(), white)
    requires forall a, b, k :: 0 <= a < 8 && 0 <= b < 8 && 0 <= k < 12 ==> checkMatrix.board[a, b, k] == (a == x && b == y)
    ensures found <==> exists a, b :: OnBoard(a, b) && Attacker(board.Grid(), white, a, b, x, y)
  {
    ghost var g := board.Grid();
    for i := 0 to 8
      invariant forall a, b :: OnBoard(a, b) && a < i ==> !Attacker(g, white, a, b, x, y)
    {
      found := ScanFile(board, checkMatrix, white, x, y, i);
      assert board.Grid() == g;
      if found {
        return;
      }
      NoAttackerBeforeFile(g, white, i, x, y);
    }
    found := false;
  }

  /** IsCheck's checkMatrix: an empty board with all twelve planes set on the king's square. */
  method MarkSquare(c: BitBoard, x: int, y: int)
    requires c.Dims() && OnBoard(x, y)
    requires forall a, b, k :: 0 <= a < 8 && 0 <= b < 8 && 0 <= k < 12 ==> !c.board[a, b, k]
    modifies c.board
    ensures forall a, b, k :: 0 <= a < 8 && 0 <= b < 8 && 0 <= k < 12 ==> c.board[a, b, k] == (a == x && b == y)
  {
    for i := 0 to 12
      invariant forall a, b, k :: 0 <= a < 8 && 0 <= b < 8 && 0 <= k < 12 ==>
                  c.board[a, b, k] == (a == x && b == y && k < i)
    {
      c.board[x, y, i] := true;
    }
  }

  /** IsCheck: false when the side has no king; otherwise, scanning file by file and rank by
      rank, true as soon as a piece that is not the side's own (judged by IsWhite / IsBlack)
      has a movement matrix marking the king's square. */
  method IsCheck(board: BitBoard, white: bool) returns (r: bool)
    requires board.Dims() && CheckDefined(board.Grid(), white)
    ensures r == InCheck(board.Grid(), white)
  {
    ghost var g := board.Grid();
    var checkMatrix := new BitBoard.Empty();
    var x, y := board.FindKing(white);
    if x == -1 || y == -1 {
      return false;
    }
    MarkSquare(checkMatrix, x, y);
    r := ScanBoard(board, checkMatrix, white, x, y);
  }

  /** The copy doesMoveResultInCheck examines: the piece on (x1, y1) lifted and put on (x2, y2). */
  method MovedCopy(board: BitBoard, x1: int, y1: int, x2: int, y2: int) returns (movedBoard: BitBoard)
    requires board.Dims() && OnBoard(x1, y1) && OnBoard(x2, y2)
    ensures fresh(movedBoard) && fresh(movedBoard.board) && movedBoard.Dims()
    ensures movedBoard.Grid() == MovedGrid(board.Grid(), x1, y1, x2, y2)
  {
    movedBoard := board.Copy();
    ghost var g0 := movedBoard.Grid();
    var piece := movedBoard.GetPieceOnField(x1, y1);
    movedBoard.PlacePieceOnBoard(x1, y1, NoPiece);
    ghost var g1 := movedBoard.Grid();
    PlaceOf(g0, x1, y1, NoPiece, g1);
    movedBoard.PlacePieceOnBoard(x2, y2, piece);
    PlaceOf(g1, x2, y2, piece, movedBoard.Grid());
    NormalSpec(board.Grid());
  }

  /** doesMoveResultInCheck: on a copy of the board, lift the piece from (x1, y1), put it on
      (x2, y2), and ask IsCheck; the receiver itself is left as it was. */
  method DoesMoveResultInCheck(board: BitBoard, x1: int, y1: int, x2: int, y2: int, white: bool) returns (r: bool)
    requires board.Dims() && OnBoard(x1, y1) && OnBoard(x2, y2)
    requires CheckDefined(MovedGrid(board.Grid(), x1, y1, x2, y2), white)
    ensures r == InCheck(MovedGrid(board.Grid(), x1, y1, x2, y2), white)
  {
    var movedBoard := MovedCopy(board, x1, y1, x2, y2);
    r := IsCheck(movedBoard, white);
  }
}
