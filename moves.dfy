/** Which squares each movement generator marks, stated square by square over a Grid, and
    the king search and check test built on them. These are the reference definitions the
    generator methods (module Movement) and the check methods (module Check) are proved against. */
module Moves {
  import opened Pieces
  import opened Planes

  // ---------------------------------------------------------------- rays (rook, bishop, queen)

  /** n steps of -1, 0 or +1 along one axis. */
  function Step(n: int, d: int): int {
    if d > 0 then n else if d < 0 then -n else 0
  }

  predicate IsDirection(dx: int, dy: int) {
    -1 <= dx <= 1 && -1 <= dy <= 1 && (dx != 0 || dy != 0)
  }

  /** How many steps along (dx, dy) lead from (x, y) to (a, b), if (a, b) is on that ray. */
  function RayIndex(x: int, y: int, dx: int, dy: int, a: int, b: int): int {
    if dx != 0 then Step(a - x, dx) else Step(b - y, dy)
  }

  predicate OnRay(x: int, y: int, dx: int, dy: int, a: int, b: int) {
    var t := RayIndex(x, y, dx, dy, a, b);
    t >= 1 && a == x + Step(t, dx) && b == y + Step(t, dy)
  }

  /** A ray walk from (x, y) marks (a, b) iff (a, b) lies on the ray, every square strictly
      between is empty, and (a, b) is available to the mover (empty, or held by the other colour). */
  predicate RayReach(g: Grid, x: int, y: int, dx: int, dy: int, white: bool, a: int, b: int)
    requires Shaped(g) && OnBoard(x, y) && IsDirection(dx, dy) && OnBoard(a, b)
  {
    && OnRay(x, y, dx, dy, a, b)
    && (forall t :: 0 < t < RayIndex(x, y, dx, dy, a, b) ==> EmptyAt(g, x + Step(t, dx), y + Step(t, dy)))
    && AvailableAt(g, a, b, white)
  }

  /** getRookMatrix: the four axis rays, in the order +file, -file, +rank, -rank. */
  predicate RookReach(g: Grid, x: int, y: int, white: bool, a: int, b: int)
    requires Shaped(g) && OnBoard(x, y) && OnBoard(a, b)
  {
    || RayReach(g, x, y, 1, 0, white, a, b)
    || RayReach(g, x, y, -1, 0, white, a, b)
    || RayReach(g, x, y, 0, 1, white, a, b)
    || RayReach(g, x, y, 0, -1, white, a, b)
  }

  /** getBishopMatrix: the four diagonal rays. */
  predicate BishopReach(g: Grid, x: int, y: int, white: bool, a: int, b: int)
    requires Shaped(g) && OnBoard(x, y) && OnBoard(a, b)
  {
    || RayReach(g, x, y, 1, 1, white, a, b)
    || RayReach(g, x, y, 1, -1, white, a, b)
    || RayReach(g, x, y, -1, -1, white, a, b)
    || RayReach(g, x, y, -1, 1, white, a, b)
  }

  /** getQueenMatrix: a square is marked when the rook or the bishop matrix marks it. */
  predicate QueenReach(g: Grid, x: int, y: int, white: bool, a: int, b: int)
    requires Shaped(g) && OnBoard(x, y) && OnBoard(a, b)
  {
    RookReach(g, x, y, white, a, b) || BishopReach(g, x, y, white, a, b)
  }

  // ---------------------------------------------------------------- knight, king, pawn

  /** getKnightMatrix as written: the (+-2, +-1) targets need an available square, but the
      (+-1, +-2) targets need an empty one, so the knight cannot capture there. */
  predicate KnightReach(g: Grid, x: int, y: int, white: bool, a: int, b: int)
    requires Shaped(g) && OnBoard(x, y) && OnBoard(a, b)
  {
    || ((a - x == 2 || a - x == -2) && (b - y == 1 || b - y == -1) && AvailableAt(g, a, b, white))
    || ((a - x == 1 || a - x == -1) && (b - y == 2 || b - y == -2) && EmptyAt(g, a, b))
  }

  /** getKingMatrix as written: the neighbourhood offsets (i, j) in -1..1 are skipped when they
      equal the source coordinates (x, y), not when they are (0, 0). */
  predicate KingReach(g: Grid, x: int, y: int, white: bool, a: int, b: int)
    requires Shaped(g) && OnBoard(x, y) && OnBoard(a, b)
  {
    && -1 <= a - x <= 1 && -1 <= b - y <= 1
    && !(a - x == x && b - y == y)
    && AvailableAt(g, a, b, white)
  }

  /** The rank direction a pawn moves in. */
  function Forward(white: bool): int {
    if white then 1 else -1
  }

  /** getPawnMatrix indexes the square ahead, and the one two ahead when the first is
      available; both must be on the board (otherwise Go panics). */
  predicate PawnSafe(g: Grid, x: int, y: int, white: bool)
    requires Shaped(g) && OnBoard(x, y)
  {
    var d := Forward(white);
    0 <= y + d < 8 && (AvailableAt(g, x, y + d, white) ==> 0 <= y + 2 * d < 8)
  }

  /** getPawnMatrix as written: one step ahead when that square is available (even if an enemy
      holds it), two steps ahead when both squares are available (from any rank), and a
      diagonal step ahead when the other colour holds it. There is no en-passant capture. */
  predicate PawnReach(g: Grid, x: int, y: int, white: bool, a: int, b: int)
    requires Shaped(g) && OnBoard(x, y) && OnBoard(a, b)
  {
    var d := Forward(white);
    && 0 <= y + d < 8
    && (|| (a == x && b == y + d && AvailableAt(g, x, y + d, white))
        || (a == x && b == y + 2 * d && AvailableAt(g, x, y + d, white) && AvailableAt(g, a, b, white))
        || ((a == x - 1 || a == x + 1) && b == y + d && AvailableAt(g, a, b, white) && !EmptyAt(g, a, b)))
  }

  /** On the pawn's own file it reaches the square ahead when that is available, and the square
      two ahead when both are available. */
  lemma PawnOwnFile(g: Grid, x: int, y: int, white: bool)
    requires Shaped(g) && OnBoard(x, y) && PawnSafe(g, x, y, white)
    ensures forall b :: 0 <= b < 8 ==>
              (PawnReach(g, x, y, white, x, b) <==>
                 AvailableAt(g, x, y + Forward(white), white)
                 && (b == y + Forward(white) || (b == y + 2 * Forward(white) && AvailableAt(g, x, b, white))))
  {
  }

  /** On a neighbouring file it reaches only the square ahead, when the other colour holds it. */
  lemma PawnSideFile(g: Grid, x: int, y: int, white: bool, i: int)
    requires Shaped(g) && OnBoard(x, y) && PawnSafe(g, x, y, white) && (i == 1 || i == -1) && 0 <= x + i < 8
    ensures forall a, b :: a == x + i && 0 <= b < 8 ==>
              (PawnReach(g, x, y, white, a, b) <==> b == y + Forward(white) && AvailableAt(g, a, b, white) && !EmptyAt(g, a, b))
  {
  }

  /** Beyond the neighbouring files the pawn reaches nothing. */
  lemma PawnFarFiles(g: Grid, x: int, y: int, white: bool)
    requires Shaped(g) && OnBoard(x, y)
    ensures forall a, b :: OnBoard(a, b) && (a < x - 1 || a > x + 1) ==> !PawnReach(g, x, y, white, a, b)
  {
  }

  // ---------------------------------------------------------------- the dispatcher

  /** The colour GetMovementMatrix passes to the generator: WhiteKnight is dispatched as black. */
  predicate MoverWhite(p: Piece) {
    p == WhitePawn || p == WhiteRook || p == WhiteBishop || p == WhiteQueen || p == WhiteKing
  }

  /** The plane GetMovementMatrix's result uses: the piece's own, except that both knights write
      the black rook's plane (the knight generator uses the rook planes and is called as black).
      For NoPiece it is 12, which no plane index reaches: the matrix is empty. */
  function MovePlane(p: Piece): int {
    if p == BlackKnight || p == WhiteKnight then BlackRook as int else p as int
  }

  /** The squares GetMovementMatrix marks for piece p standing on (x, y). */
  predicate Reach(p: Piece, g: Grid, x: int, y: int, a: int, b: int)
    requires Shaped(g) && OnBoard(x, y) && OnBoard(a, b)
  {
    var white := MoverWhite(p);
    if p == BlackPawn || p == WhitePawn then PawnReach(g, x, y, white, a, b)
    else if p == BlackRook || p == WhiteRook then RookReach(g, x, y, white, a, b)
    else if p == BlackKnight || p == WhiteKnight then KnightReach(g, x, y, white, a, b)
    else if p == BlackBishop || p == WhiteBishop then BishopReach(g, x, y, white, a, b)
    else if p == BlackQueen || p == WhiteQueen then QueenReach(g, x, y, white, a, b)
    else if p == BlackKing || p == WhiteKing then KingReach(g, x, y, white, a, b)
    else false
  }

  /** What GetMovementMatrix needs so that no index goes out of range: only pawns can fail. */
  predicate MatrixDefined(g: Grid, p: Piece, x: int, y: int)
    requires Shaped(g) && OnBoard(x, y)
  {
    (p == BlackPawn || p == WhitePawn) ==> PawnSafe(g, x, y, MoverWhite(p))
  }

  /** The matrix GetMovementMatrix returns for p on (x, y), as a Grid. */
  ghost predicate IsMatrixOf(m: Grid, p: Piece, g: Grid, x: int, y: int)
    requires Shaped(m) && Shaped(g) && OnBoard(x, y)
  {
    forall a, b, k :: OnBoard(a, b) && 0 <= k < 12 ==> m[a][b][k] == (k == MovePlane(p) && Reach(p, g, x, y, a, b))
  }

  /** A grid marking, in a generator's own plane, the squares its rule reaches is the movement
      matrix of that piece. */
  lemma PawnMatrixOf(m: Grid, g: Grid, x: int, y: int, white: bool)
    requires Shaped(m) && Shaped(g) && OnBoard(x, y)
    requires forall a, b, k :: OnBoard(a, b) && 0 <= k < 12 ==>
               m[a][b][k] == (k == (if white then WhitePawn else BlackPawn) as int && PawnReach(g, x, y, white, a, b))
    ensures IsMatrixOf(m, if white then WhitePawn else BlackPawn, g, x, y)
  {
  }

  lemma RookMatrixOf(m: Grid, g: Grid, x: int, y: int, white: bool)
    requires Shaped(m) && Shaped(g) && OnBoard(x, y)
    requires forall a, b, k :: OnBoard(a, b) && 0 <= k < 12 ==>
               m[a][b][k] == (k == (if white then WhiteRook else BlackRook) as int && RookReach(g, x, y, white, a, b))
    ensures IsMatrixOf(m, if white then WhiteRook else BlackRook, g, x, y)
  {
  }

  lemma BishopMatrixOf(m: Grid, g: Grid, x: int, y: int, white: bool)
    requires Shaped(m) && Shaped(g) && OnBoard(x, y)
    requires forall a, b, k :: OnBoard(a, b) && 0 <= k < 12 ==>
               m[a][b][k] == (k == (if white then WhiteBishop else BlackBishop) as int && BishopReach(g, x, y, white, a, b))
    ensures IsMatrixOf(m, if white then WhiteBishop else BlackBishop, g, x, y)
  {
  }

  lemma QueenMatrixOf(m: Grid, g: Grid, x: int, y: int, white: bool)
    requires Shaped(m) && Shaped(g) && OnBoard(x, y)
    requires forall a, b, k :: OnBoard(a, b) && 0 <= k < 12 ==>
               m[a][b][k] == (k == (if white then WhiteQueen else BlackQueen) as int && QueenReach(g, x, y, white, a, b))
    ensures IsMatrixOf(m, if white then WhiteQueen else BlackQueen, g, x, y)
  {
  }

  lemma KingMatrixOf(m: Grid, g: Grid, x: int, y: int, white: bool)
    requires Shaped(m) && Shaped(g) && OnBoard(x, y)
    requires forall a, b, k :: OnBoard(a, b) && 0 <= k < 12 ==>
               m[a][b][k] == (k == (if white then WhiteKing else BlackKing) as int && KingReach(g, x, y, white, a, b))
    ensures IsMatrixOf(m, if white then WhiteKing else BlackKing, g, x, y)
  {
  }

  /** Both knights are dispatched as black: the black knight's generator gives the matrix of either. */
  lemma KnightMatrixOf(m: Grid, g: Grid, x: int, y: int, p: Piece)
    requires Shaped(m) && Shaped(g) && OnBoard(x, y) && (p == BlackKnight || p == WhiteKnight)
    requires forall a, b, k :: OnBoard(a, b) && 0 <= k < 12 ==>
               m[a][b][k] == (k == BlackRook as int && KnightReach(g, x, y, false, a, b))
    ensures IsMatrixOf(m, p, g, x, y)
  {
  }

  /** A movement matrix is non-empty exactly on the squares the piece reaches (it marks a single
      plane), which is how getQueenMatrix and IsCheck read it. */
  lemma MatrixEmptyAt(m: Grid, p: Piece, g: Grid, x: int, y: int)
    requires Shaped(m) && Shaped(g) && OnBoard(x, y) && IsMatrixOf(m, p, g, x, y)
    ensures forall a, b :: OnBoard(a, b) ==> (EmptyAt(m, a, b) <==> !Reach(p, g, x, y, a, b))
  {
    forall a, b | OnBoard(a, b) ensures EmptyAt(m, a, b) <==> !Reach(p, g, x, y, a, b) {
      if Reach(p, g, x, y, a, b) {
        NoPieceReachesNothing(g, x, y, a, b);
        assert m[a][b][MovePlane(p)];
      }
    }
  }

  /** getQueenMatrix's merge: a square is non-empty in the rook or the bishop matrix of the
      queen's colour exactly when the queen reaches it. */
  lemma QueenMerge(rook: Grid, bishop: Grid, g: Grid, x: int, y: int, white: bool)
    requires Shaped(rook) && Shaped(bishop) && Shaped(g) && OnBoard(x, y)
    requires IsMatrixOf(rook, if white then WhiteRook else BlackRook, g, x, y)
    requires IsMatrixOf(bishop, if white then WhiteBishop else BlackBishop, g, x, y)
    ensures forall a, b :: OnBoard(a, b) ==>
              ((!EmptyAt(rook, a, b) || !EmptyAt(bishop, a, b)) <==> QueenReach(g, x, y, white, a, b))
  {
    MatrixEmptyAt(rook, if white then WhiteRook else BlackRook, g, x, y);
    MatrixEmptyAt(bishop, if white then WhiteBishop else BlackBishop, g, x, y);
  }

  // ---------------------------------------------------------------- king search and check

  function KingOf(white: bool): Piece {
    if white then WhiteKing else BlackKing
  }

  /** findKing's scan from square (i, j) on, file by file and rank by rank within a file. */
  function KingScan(g: Grid, king: Piece, i: int, j: int): (r: (int, int))
    requires Shaped(g) && 0 <= i <= 8 && 0 <= j <= 8
    ensures r == (-1, -1) || OnBoard(r.0, r.1)
    decreases 8 - i, 8 - j
  {
    if i == 8 then (-1, -1)
    else if j == 8 then KingScan(g, king, i + 1, 0)
    else if PieceAt(g, i, j) == king then (i, j)
    else KingScan(g, king, i, j + 1)
  }

  /** findKing: the first square in scan order holding the side's king, or (-1, -1). */
  function KingSquare(g: Grid, white: bool): (int, int)
    requires Shaped(g)
  {
    KingScan(g, KingOf(white), 0, 0)
  }

  predicate ScannedBefore(a: int, b: int, i: int, j: int) {
    a < i || (a == i && b < j)
  }

  lemma {:induction false} KingScanSpec(g: Grid, king: Piece, i: int, j: int)
    requires Shaped(g) && 0 <= i <= 8 && 0 <= j <= 8
    ensures var r := KingScan(g, king, i, j);
            if r == (-1, -1) then
              forall a, b :: OnBoard(a, b) && !ScannedBefore(a, b, i, j) ==> PieceAt(g, a, b) != king
            else
              OnBoard(r.0, r.1) && !ScannedBefore(r.0, r.1, i, j) && PieceAt(g, r.0, r.1) == king
              && forall a, b :: OnBoard(a, b) && !ScannedBefore(a, b, i, j) && ScannedBefore(a, b, r.0, r.1)
                                ==> PieceAt(g, a, b) != king
    decreases 8 - i, 8 - j
  {
    if i == 8 {
    } else if j == 8 {
      KingScanSpec(g, king, i + 1, 0);
    } else if PieceAt(g, i, j) != king {
      KingScanSpec(g, king, i, j + 1);
    }
  }

  /** findKing finds the side's king when there is one (the first in scan order), and
      returns (-1, -1) exactly when there is none. */
  lemma KingSquareSpec(g: Grid, white: bool)
    requires Shaped(g)
    ensures var r := KingSquare(g, white);
            if r == (-1, -1) then
              forall a, b :: OnBoard(a, b) ==> PieceAt(g, a, b) != KingOf(white)
            else
              OnBoard(r.0, r.1) && PieceAt(g, r.0, r.1) == KingOf(white)
              && forall a, b :: OnBoard(a, b) && ScannedBefore(a, b, r.0, r.1) ==> PieceAt(g, a, b) != KingOf(white)
  {
    KingScanSpec(g, KingOf(white), 0, 0);
  }

  /** IsCheck skips empty squares and the side's own pieces, judged by IsWhite / IsBlack, so a
      WhitePawn is examined as a possible attacker of the white king. */
  predicate Candidate(p: Piece, white: bool) {
    p != NoPiece && !(white && IsWhite(p)) && !(!white && IsBlack(p))
  }

  predicate Attacker(g: Grid, white: bool, a: int, b: int, kx: int, ky: int)
    requires Shaped(g) && OnBoard(a, b) && OnBoard(kx, ky)
  {
    Candidate(PieceAt(g, a, b), white) && Reach(PieceAt(g, a, b), g, a, b, kx, ky)
  }

  /** IsCheck: the side has a king, and some examined piece's movement matrix marks its square. */
  ghost predicate InCheck(g: Grid, white: bool)
    requires Shaped(g)
  {
    var k := KingSquare(g, white);
    k != (-1, -1) && exists a, b :: OnBoard(a, b) && Attacker(g, white, a, b, k.0, k.1)
  }

  /** doesMoveResultInCheck's board: the copy's squares (one piece each), with (x1, y1) emptied
      and the piece from there put on (x2, y2). */
  function MovedGrid(g: Grid, x1: int, y1: int, x2: int, y2: int): (r: Grid)
    requires Shaped(g) && OnBoard(x1, y1) && OnBoard(x2, y2)
    ensures Shaped(r)
  {
    Place(Place(Normal(g), x1, y1, NoPiece), x2, y2, PieceAt(g, x1, y1))
  }

  /** IsCheck asks for the movement matrix of each examined piece in scan order until one attacks
      the king; Go panics at the first one whose matrix is undefined. So every examined piece with
      an undefined matrix must come after an attacker (nothing is needed when there is no king). */
  ghost predicate CheckDefined(g: Grid, white: bool)
    requires Shaped(g)
  {
    var k := KingSquare(g, white);
    k == (-1, -1)
    || forall a, b {:trigger MatrixDefined(g, PieceAt(g, a, b), a, b)} ::
         OnBoard(a, b) && Candidate(PieceAt(g, a, b), white) && !MatrixDefined(g, PieceAt(g, a, b), a, b) ==>
         exists c, d :: OnBoard(c, d) && ScannedBefore(c, d, a, b) && Attacker(g, white, c, d, k.0, k.1)
  }

  /** An examined piece reached before any attacker has a defined matrix. */
  lemma DefinedBeforeAttack(g: Grid, white: bool, i: int, j: int)
    requires Shaped(g) && CheckDefined(g, white) && KingSquare(g, white) != (-1, -1) && OnBoard(i, j)
    requires Candidate(PieceAt(g, i, j), white)
    requires forall c, d :: OnBoard(c, d) && ScannedBefore(c, d, i, j) ==>
               !Attacker(g, white, c, d, KingSquare(g, white).0, KingSquare(g, white).1)
    ensures MatrixDefined(g, PieceAt(g, i, j), i, j)
  {
  }

  // ---------------------------------------------------------------- properties of the rules

  /** A ray stops at the first occupied square: nothing beyond it is marked. */
  lemma RayStopsAtOccupied(g: Grid, x: int, y: int, dx: int, dy: int, white: bool, t: int, a: int, b: int)
    requires Shaped(g) && OnBoard(x, y) && IsDirection(dx, dy) && OnBoard(a, b)
    requires 1 <= t && OnBoard(x + Step(t, dx), y + Step(t, dy)) && !EmptyAt(g, x + Step(t, dx), y + Step(t, dy))
    requires OnRay(x, y, dx, dy, a, b) && RayIndex(x, y, dx, dy, a, b) > t
    ensures !RayReach(g, x, y, dx, dy, white, a, b)
  {
  }

  /** The square n steps along a ray is on the ray, at index n. */
  lemma RayIndexOf(x: int, y: int, dx: int, dy: int, n: int)
    requires IsDirection(dx, dy) && n >= 1
    ensures OnRay(x, y, dx, dy, x + Step(n, dx), y + Step(n, dy))
    ensures RayIndex(x, y, dx, dy, x + Step(n, dx), y + Step(n, dy)) == n
  {
  }

  /** The squares strictly within n + 1 steps are those within n steps and the n-th one. */
  lemma RayNext(x: int, y: int, dx: int, dy: int, n: int)
    requires IsDirection(dx, dy) && n >= 1
    ensures forall a, b :: (OnRay(x, y, dx, dy, a, b) && RayIndex(x, y, dx, dy, a, b) < n + 1) <==>
              ((OnRay(x, y, dx, dy, a, b) && RayIndex(x, y, dx, dy, a, b) < n) || (a == x + Step(n, dx) && b == y + Step(n, dy)))
  {
    forall a, b ensures (OnRay(x, y, dx, dy, a, b) && RayIndex(x, y, dx, dy, a, b) < n + 1) <==>
              ((OnRay(x, y, dx, dy, a, b) && RayIndex(x, y, dx, dy, a, b) < n) || (a == x + Step(n, dx) && b == y + Step(n, dy)))
    {
      if a == x + Step(n, dx) && b == y + Step(n, dy) {
        RayIndexOf(x, y, dx, dy, n);
      }
    }
  }

  /** One more empty square on the ray: the walk goes on, at most seven squares out. */
  lemma RayEmptyNext(g: Grid, x: int, y: int, dx: int, dy: int, n: int)
    requires Shaped(g) && OnBoard(x, y) && IsDirection(dx, dy) && n >= 1
    requires forall t :: 0 < t < n ==> OnBoard(x + Step(t, dx), y + Step(t, dy)) && EmptyAt(g, x + Step(t, dx), y + Step(t, dy))
    requires OnBoard(x + Step(n, dx), y + Step(n, dy)) && EmptyAt(g, x + Step(n, dx), y + Step(n, dy))
    ensures n < 8
    ensures forall t :: 0 < t < n + 1 ==> OnBoard(x + Step(t, dx), y + Step(t, dy)) && EmptyAt(g, x + Step(t, dx), y + Step(t, dy))
  {
  }

  /** One square of a ray walk stopped by the occupied square n steps out. */
  lemma RayBlockedAt(g: Grid, x: int, y: int, dx: int, dy: int, white: bool, n: int, a: int, b: int)
    requires Shaped(g) && OnBoard(x, y) && IsDirection(dx, dy) && n >= 1 && OnBoard(a, b)
    requires OnBoard(x + Step(n, dx), y + Step(n, dy)) && !EmptyAt(g, x + Step(n, dx), y + Step(n, dy))
    requires forall t :: 0 < t < n ==> OnBoard(x + Step(t, dx), y + Step(t, dy)) && EmptyAt(g, x + Step(t, dx), y + Step(t, dy))
    ensures RayReach(g, x, y, dx, dy, white, a, b) <==>
              OnRay(x, y, dx, dy, a, b) && (RayIndex(x, y, dx, dy, a, b) < n
                || (RayIndex(x, y, dx, dy, a, b) == n && AvailableAt(g, a, b, white)))
  {
    if OnRay(x, y, dx, dy, a, b) {
      var t := RayIndex(x, y, dx, dy, a, b);
      assert a == x + Step(t, dx) && b == y + Step(t, dy);
      if t < n {
        assert EmptyAt(g, a, b);
        assert forall s :: 0 < s < t ==> EmptyAt(g, x + Step(s, dx), y + Step(s, dy));
      } else if t == n {
        assert forall s :: 0 < s < t ==> EmptyAt(g, x + Step(s, dx), y + Step(s, dy));
      } else {
        assert 0 < n < t && !EmptyAt(g, x + Step(n, dx), y + Step(n, dy));
      }
    }
  }

  /** A ray walk stopped by the occupied square n steps out, after n - 1 empty ones: the ray
      reaches the squares before it, and that square itself when it is available. */
  lemma RayBlocked(g: Grid, x: int, y: int, dx: int, dy: int, white: bool, n: int)
    requires Shaped(g) && OnBoard(x, y) && IsDirection(dx, dy) && n >= 1
    requires OnBoard(x + Step(n, dx), y + Step(n, dy)) && !EmptyAt(g, x + Step(n, dx), y + Step(n, dy))
    requires forall t :: 0 < t < n ==> OnBoard(x + Step(t, dx), y + Step(t, dy)) && EmptyAt(g, x + Step(t, dx), y + Step(t, dy))
    ensures var last := if AvailableAt(g, x + Step(n, dx), y + Step(n, dy), white) then n + 1 else n;
            forall a, b :: OnBoard(a, b) ==>
              (RayReach(g, x, y, dx, dy, white, a, b) <==> OnRay(x, y, dx, dy, a, b) && RayIndex(x, y, dx, dy, a, b) < last)
  {
    var last := if AvailableAt(g, x + Step(n, dx), y + Step(n, dy), white) then n + 1 else n;
    forall a, b | OnBoard(a, b)
      ensures RayReach(g, x, y, dx, dy, white, a, b) <==> OnRay(x, y, dx, dy, a, b) && RayIndex(x, y, dx, dy, a, b) < last
    {
      RayBlockedAt(g, x, y, dx, dy, white, n, a, b);
      if OnRay(x, y, dx, dy, a, b) && RayIndex(x, y, dx, dy, a, b) == n {
        assert a == x + Step(n, dx) && b == y + Step(n, dy);
      }
    }
  }

  /** One square of a ray walk that left the board n steps out. */
  lemma RayLeavesAt(g: Grid, x: int, y: int, dx: int, dy: int, white: bool, n: int, a: int, b: int)
    requires Shaped(g) && OnBoard(x, y) && IsDirection(dx, dy) && n >= 1 && OnBoard(a, b)
    requires !OnBoard(x + Step(n, dx), y + Step(n, dy))
    requires forall t :: 0 < t < n ==> OnBoard(x + Step(t, dx), y + Step(t, dy)) && EmptyAt(g, x + Step(t, dx), y + Step(t, dy))
    ensures RayReach(g, x, y, dx, dy, white, a, b) <==> OnRay(x, y, dx, dy, a, b) && RayIndex(x, y, dx, dy, a, b) < n
  {
    if OnRay(x, y, dx, dy, a, b) {
      var t := RayIndex(x, y, dx, dy, a, b);
      assert t < n;
      assert EmptyAt(g, x + Step(t, dx), y + Step(t, dy));
    }
  }

  /** A ray walk that left the board after n - 1 empty squares: the ray reaches exactly those. */
  lemma RayLeavesBoard(g: Grid, x: int, y: int, dx: int, dy: int, white: bool, n: int)
    requires Shaped(g) && OnBoard(x, y) && IsDirection(dx, dy) && n >= 1
    requires !OnBoard(x + Step(n, dx), y + Step(n, dy))
    requires forall t :: 0 < t < n ==> OnBoard(x + Step(t, dx), y + Step(t, dy)) && EmptyAt(g, x + Step(t, dx), y + Step(t, dy))
    ensures forall a, b :: OnBoard(a, b) ==>
              (RayReach(g, x, y, dx, dy, white, a, b) <==> OnRay(x, y, dx, dy, a, b) && RayIndex(x, y, dx, dy, a, b) < n)
  {
    forall a, b | OnBoard(a, b)
      ensures RayReach(g, x, y, dx, dy, white, a, b) <==> OnRay(x, y, dx, dy, a, b) && RayIndex(x, y, dx, dy, a, b) < n
    {
      RayLeavesAt(g, x, y, dx, dy, white, n, a, b);
    }
  }

  /** Marks laid along a ray up to (not including) step last are the marks of RayReach, once the
      ray is known to reach exactly those squares. */
  lemma RayMarks(g: Grid, x: int, y: int, dx: int, dy: int, white: bool, last: int, piece: Piece, cur: Grid, before: Grid)
    requires Shaped(g) && Shaped(cur) && Shaped(before) && OnBoard(x, y) && IsDirection(dx, dy)
    requires forall a, b :: OnBoard(a, b) ==>
               (RayReach(g, x, y, dx, dy, white, a, b) <==> OnRay(x, y, dx, dy, a, b) && RayIndex(x, y, dx, dy, a, b) < last)
    requires forall a, b, k :: 0 <= a < 8 && 0 <= b < 8 && 0 <= k < 12 ==>
               cur[a][b][k] == if OnRay(x, y, dx, dy, a, b) && RayIndex(x, y, dx, dy, a, b) < last then k == piece as int else before[a][b][k]
    ensures forall a, b, k :: 0 <= a < 8 && 0 <= b < 8 && 0 <= k < 12 ==>
              cur[a][b][k] == if RayReach(g, x, y, dx, dy, white, a, b) then k == piece as int else before[a][b][k]
  {
  }

  /** The rook marks only squares on its own file or its own rank, never its own square. */
  lemma RookReachShape(g: Grid, x: int, y: int, white: bool, a: int, b: int)
    requires Shaped(g) && OnBoard(x, y) && OnBoard(a, b) && RookReach(g, x, y, white, a, b)
    ensures (a == x && b != y) || (a != x && b == y)
  {
  }

  /** The bishop marks only squares on its two diagonals, never on its own file. */
  lemma BishopReachShape(g: Grid, x: int, y: int, white: bool, a: int, b: int)
    requires Shaped(g) && OnBoard(x, y) && OnBoard(a, b) && BishopReach(g, x, y, white, a, b)
    ensures (b - a == y - x || b + a == y + x) && a != x
  {
  }

  /** On an otherwise empty board the rook reaches its whole file and rank, the bishop its diagonals. */
  lemma OpenBoardReach(g: Grid, x: int, y: int, white: bool, a: int, b: int)
    requires Shaped(g) && OnBoard(x, y) && OnBoard(a, b)
    requires forall c, d :: OnBoard(c, d) && (c, d) != (x, y) ==> EmptyAt(g, c, d)
    ensures RookReach(g, x, y, white, a, b) <==> (a == x) != (b == y)
    ensures BishopReach(g, x, y, white, a, b) <==> a != x && (b - a == y - x || b + a == y + x)
  {
    if (a == x) != (b == y) {
      var dx := if a > x then 1 else if a < x then -1 else 0;
      var dy := if b > y then 1 else if b < y then -1 else 0;
      EmptyRayReach(g, x, y, dx, dy, white, a, b);
    }
    if a != x && (b - a == y - x || b + a == y + x) {
      var dx := if a > x then 1 else -1;
      var dy := if b > y then 1 else -1;
      EmptyRayReach(g, x, y, dx, dy, white, a, b);
    }
  }

  lemma EmptyRayReach(g: Grid, x: int, y: int, dx: int, dy: int, white: bool, a: int, b: int)
    requires Shaped(g) && OnBoard(x, y) && IsDirection(dx, dy) && OnBoard(a, b)
    requires forall c, d :: OnBoard(c, d) && (c, d) != (x, y) ==> EmptyAt(g, c, d)
    requires OnRay(x, y, dx, dy, a, b)
    ensures RayReach(g, x, y, dx, dy, white, a, b)
  {
    var n := RayIndex(x, y, dx, dy, a, b);
    forall t | 0 < t < n ensures EmptyAt(g, x + Step(t, dx), y + Step(t, dy)) {
      assert OnBoard(x + Step(t, dx), y + Step(t, dy));
    }
  }

  /** For the matrices GetMovementMatrix returns for a queen, a rook and a bishop of one colour
      on one square, the queen's is occupied exactly where the rook's or the bishop's is. */
  lemma QueenIsRookOrBishop(queen: Grid, rook: Grid, bishop: Grid, g: Grid, x: int, y: int, white: bool)
    requires Shaped(queen) && Shaped(rook) && Shaped(bishop) && Shaped(g) && OnBoard(x, y)
    requires IsMatrixOf(queen, if white then WhiteQueen else BlackQueen, g, x, y)
    requires IsMatrixOf(rook, if white then WhiteRook else BlackRook, g, x, y)
    requires IsMatrixOf(bishop, if white then WhiteBishop else BlackBishop, g, x, y)
    ensures forall a, b :: OnBoard(a, b) ==>
              (!EmptyAt(queen, a, b) <==> !EmptyAt(rook, a, b) || !EmptyAt(bishop, a, b))
  {
    MatrixEmptyAt(queen, if white then WhiteQueen else BlackQueen, g, x, y);
    QueenMerge(rook, bishop, g, x, y, white);
  }

  /** Knight targets: (+-2, +-1) when available, (+-1, +-2) only when empty; nothing else. */
  lemma KnightReachShape(g: Grid, x: int, y: int, a: int, b: int)
    requires Shaped(g) && OnBoard(x, y) && OnBoard(a, b)
    ensures Reach(WhiteKnight, g, x, y, a, b) == Reach(BlackKnight, g, x, y, a, b)
    ensures Reach(BlackKnight, g, x, y, a, b) ==>
              ((a - x) * (a - x) == 4 && (b - y) * (b - y) == 1) || ((a - x) * (a - x) == 1 && (b - y) * (b - y) == 4)
    ensures (a - x) * (a - x) == 1 && (b - y) * (b - y) == 4 && !EmptyAt(g, a, b) ==> !Reach(WhiteKnight, g, x, y, a, b)
  {
  }

  /** The king marks only squares within one file and one rank; its own square is marked
      when it is available to it, unless the king stands on (0, 0). */
  lemma KingReachShape(g: Grid, x: int, y: int, white: bool, a: int, b: int)
    requires Shaped(g) && OnBoard(x, y) && OnBoard(a, b)
    ensures KingReach(g, x, y, white, a, b) ==> -1 <= a - x <= 1 && -1 <= b - y <= 1
    ensures KingReach(g, x, y, white, x, y) <==> (x, y) != (0, 0) && AvailableAt(g, x, y, white)
    ensures (-1 <= a - x <= 1 && -1 <= b - y <= 1 && (a, b) != (x, y)) ==>
              (KingReach(g, x, y, white, a, b) <==> AvailableAt(g, a, b, white) && (a - x, b - y) != (x, y))
  {
  }

  /** A pawn whose square ahead holds a piece of its own side, and which has nothing to capture,
      marks nothing. */
  lemma PawnBlocked(g: Grid, x: int, y: int, white: bool)
    requires Shaped(g) && OnBoard(x, y) && 0 <= y + Forward(white) < 8
    requires !AvailableAt(g, x, y + Forward(white), white)
    requires x > 0 ==> !(AvailableAt(g, x - 1, y + Forward(white), white) && !EmptyAt(g, x - 1, y + Forward(white)))
    requires x < 7 ==> !(AvailableAt(g, x + 1, y + Forward(white), white) && !EmptyAt(g, x + 1, y + Forward(white)))
    ensures forall a, b :: OnBoard(a, b) ==> !PawnReach(g, x, y, white, a, b)
  {
  }

  /** Marked squares: the pawn's diagonal ones hold a piece of the other colour, its forward
      ones are on its own file, one or two ranks ahead. */
  lemma PawnReachShape(g: Grid, x: int, y: int, white: bool, a: int, b: int)
    requires Shaped(g) && OnBoard(x, y) && OnBoard(a, b) && PawnReach(g, x, y, white, a, b)
    ensures a == x ==> b == y + Forward(white) || b == y + 2 * Forward(white)
    ensures a != x ==> (a == x - 1 || a == x + 1) && b == y + Forward(white)
                       && (if white then BlackAt(g, a, b) else WhiteAt(g, a, b))
  {
  }

  /** An empty square marks nothing: the matrix for NoPiece is all false. */
  lemma NoPieceReachesNothing(g: Grid, x: int, y: int, a: int, b: int)
    requires Shaped(g) && OnBoard(x, y) && OnBoard(a, b)
    ensures !Reach(NoPiece, g, x, y, a, b) && MatrixDefined(g, NoPiece, x, y)
  {
  }
}
