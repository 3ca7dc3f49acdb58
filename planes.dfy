/** The plane array of a BitBoard as a value: [file 0..7][rank 0..7][plane 0..11] -> bool.
    Square queries and whole-board operations are defined here once, and the class methods
    that compute them by loops are proved against these definitions. */
module Planes {
  import opened Pieces

  type Grid = seq<seq<seq<bool>>>

  predicate OnBoard(x: int, y: int) {
    0 <= x < 8 && 0 <= y < 8
  }

  predicate Shaped(g: Grid) {
    |g| == 8 && forall x :: 0 <= x < 8 ==> |g[x]| == 8 && forall y :: 0 <= y < 8 ==> |g[x][y]| == 12
  }

  /** IsFieldEmpty: no plane is set. */
  predicate EmptyAt(g: Grid, x: int, y: int)
    requires Shaped(g) && OnBoard(x, y)
  {
    forall k :: 0 <= k < 12 ==> !g[x][y][k]
  }

  /** IsFieldBlack: occupied, with one of the black planes 0..5 set. */
  predicate BlackAt(g: Grid, x: int, y: int)
    requires Shaped(g) && OnBoard(x, y)
  {
    !EmptyAt(g, x, y) && exists k :: 0 <= k < 6 && g[x][y][k]
  }

  /** IsFieldWhite: occupied, with one of the planes 6..11 set (plane 6 included). */
  predicate WhiteAt(g: Grid, x: int, y: int)
    requires Shaped(g) && OnBoard(x, y)
  {
    !EmptyAt(g, x, y) && exists k :: 6 <= k < 12 && g[x][y][k]
  }

  /** IsFieldAvailable: a mover of the given colour may land here: empty, or held by the other colour. */
  predicate AvailableAt(g: Grid, x: int, y: int, white: bool)
    requires Shaped(g) && OnBoard(x, y)
  {
    EmptyAt(g, x, y) || (if white then BlackAt(g, x, y) else WhiteAt(g, x, y))
  }

  /** The lowest plane set in a square's booleans from plane k on, NoPiece when none is. */
  function FirstSet(cell: seq<bool>, k: nat): Piece
    requires |cell| == 12 && k <= 12
    decreases 12 - k
  {
    if k == 12 then NoPiece else if cell[k] then k as Piece else FirstSet(cell, k + 1)
  }

  /** GetPieceOnField: the lowest plane set at the square, NoPiece for an empty square. */
  function PieceAt(g: Grid, x: int, y: int): Piece
    requires Shaped(g) && OnBoard(x, y)
  {
    FirstSet(g[x][y], 0)
  }

  /** The twelve booleans of a square holding just p (all false for NoPiece). */
  function Single(p: Piece): (cell: seq<bool>)
    ensures |cell| == 12
  {
    seq(12, k => p != NoPiece && k == p as int)
  }

  /** PlacePieceOnBoard: the square's planes are cleared, then p's plane is set. */
  function Place(g: Grid, x: int, y: int, p: Piece): (r: Grid)
    requires Shaped(g) && OnBoard(x, y)
    ensures Shaped(r)
  {
    g[x := g[x][y := Single(p)]]
  }

  /** Each square reduced to the piece GetPieceOnField reports, as Copy rebuilds it. */
  function Normal(g: Grid): (r: Grid)
    requires Shaped(g)
    ensures Shaped(r)
  {
    seq(8, x requires 0 <= x < 8 => seq(8, y requires 0 <= y < 8 => Single(PieceAt(g, x, y))))
  }

  function EmptyGrid(): (r: Grid)
    ensures Shaped(r)
  {
    seq(8, x => seq(8, y => seq(12, k => false)))
  }

  function AndGrid(a: Grid, b: Grid): (r: Grid)
    requires Shaped(a) && Shaped(b)
    ensures Shaped(r)
  {
    seq(8, x requires 0 <= x < 8 => seq(8, y requires 0 <= y < 8 =>
      seq(12, k requires 0 <= k < 12 => a[x][y][k] && b[x][y][k])))
  }

  function OrGrid(a: Grid, b: Grid): (r: Grid)
    requires Shaped(a) && Shaped(b)
    ensures Shaped(r)
  {
    seq(8, x requires 0 <= x < 8 => seq(8, y requires 0 <= y < 8 =>
      seq(12, k requires 0 <= k < 12 => a[x][y][k] || b[x][y][k])))
  }

  function NotGrid(a: Grid): (r: Grid)
    requires Shaped(a)
    ensures Shaped(r)
  {
    seq(8, x requires 0 <= x < 8 => seq(8, y requires 0 <= y < 8 =>
      seq(12, k requires 0 <= k < 12 => !a[x][y][k])))
  }

  /** The board invariant the source intends: at most one plane set per square. */
  predicate OnePiecePerSquare(g: Grid)
    requires Shaped(g)
  {
    forall x, y, k, l :: 0 <= x < 8 && 0 <= y < 8 && 0 <= k < l < 12 ==> !(g[x][y][k] && g[x][y][l])
  }

  /** Two grids that agree on every cell are equal. */
  lemma Ext(a: Grid, b: Grid)
    requires Shaped(a) && Shaped(b)
    requires forall x, y, k :: OnBoard(x, y) && 0 <= k < 12 ==> a[x][y][k] == b[x][y][k]
    ensures a == b
  {
    forall x | 0 <= x < 8 ensures a[x] == b[x] {
      forall y | 0 <= y < 8 ensures a[x][y] == b[x][y] {
      }
    }
  }

  lemma {:induction false} FirstSetSingle(p: Piece, k: nat)
    requires k <= 12 && (p == NoPiece || k <= p as int)
    ensures FirstSet(Single(p), k) == p
    decreases 12 - k
  {
    if k < 12 && k != p as int {
      FirstSetSingle(p, k + 1);
    }
  }

  lemma {:induction false} FirstSetNone(cell: seq<bool>, k: nat)
    requires |cell| == 12 && k <= 12
    ensures FirstSet(cell, k) == NoPiece <==> forall l :: k <= l < 12 ==> !cell[l]
    ensures FirstSet(cell, k) != NoPiece ==>
              k <= FirstSet(cell, k) as int < 12 && cell[FirstSet(cell, k)]
              && forall l :: k <= l < FirstSet(cell, k) as int ==> !cell[l]
    decreases 12 - k
  {
    if k < 12 {
      FirstSetNone(cell, k + 1);
    }
  }

  /** GetPieceOnField is NoPiece exactly on empty squares; otherwise it is the lowest plane set. */
  lemma PieceAtSpec(g: Grid, x: int, y: int)
    requires Shaped(g) && OnBoard(x, y)
    ensures PieceAt(g, x, y) == NoPiece <==> EmptyAt(g, x, y)
    ensures PieceAt(g, x, y) != NoPiece ==>
              g[x][y][PieceAt(g, x, y)] && forall l :: 0 <= l < PieceAt(g, x, y) as int ==> !g[x][y][l]
  {
    FirstSetNone(g[x][y], 0);
  }

  /** After PlacePieceOnBoard the square reports p, holds at most p's plane (nothing for NoPiece),
      and every other square is unchanged. */
  lemma PlaceSpec(g: Grid, x: int, y: int, p: Piece)
    requires Shaped(g) && OnBoard(x, y)
    ensures PieceAt(Place(g, x, y, p), x, y) == p
    ensures forall k :: 0 <= k < 12 ==> Place(g, x, y, p)[x][y][k] == (p != NoPiece && k == p as int)
    ensures p == NoPiece ==> EmptyAt(Place(g, x, y, p), x, y)
    ensures forall a, b :: OnBoard(a, b) && (a, b) != (x, y) ==> Place(g, x, y, p)[a][b] == g[a][b]
  {
    FirstSetSingle(p, 0);
  }

  /** A square holding one plane is black or white but not both, by the plane's number. */
  lemma SinglePlaneColour(g: Grid, x: int, y: int, p: Piece)
    requires Shaped(g) && OnBoard(x, y) && p != NoPiece && g[x][y] == Single(p)
    ensures !EmptyAt(g, x, y)
    ensures BlackAt(g, x, y) <==> p as int < 6
    ensures WhiteAt(g, x, y) <==> p as int >= 6
    ensures AvailableAt(g, x, y, true) <==> p as int < 6
    ensures AvailableAt(g, x, y, false) <==> p as int >= 6
  {
    assert g[x][y][p] by {
      assert Single(p)[p] == true;
    }
    if p as int < 6 {
      forall k | 6 <= k < 12 ensures !g[x][y][k] {
        assert Single(p)[k] == false;
      }
    } else {
      forall k | 0 <= k < 6 ensures !g[x][y][k] {
        assert Single(p)[k] == false;
      }
    }
  }

  /** An empty square is neither black nor white, and is available to both colours. */
  lemma EmptySquareColour(g: Grid, x: int, y: int)
    requires Shaped(g) && OnBoard(x, y) && EmptyAt(g, x, y)
    ensures !BlackAt(g, x, y) && !WhiteAt(g, x, y)
    ensures AvailableAt(g, x, y, true) && AvailableAt(g, x, y, false)
  {
  }

  /** Not is an involution on the planes. */
  lemma NotNot(g: Grid)
    requires Shaped(g)
    ensures NotGrid(NotGrid(g)) == g
  {
    Ext(NotGrid(NotGrid(g)), g);
  }

  /** And, Or and Not act cell by cell. */
  lemma AndOrPointwise(a: Grid, b: Grid, x: int, y: int, k: int)
    requires Shaped(a) && Shaped(b) && OnBoard(x, y) && 0 <= k < 12
    ensures AndGrid(a, b)[x][y][k] == (a[x][y][k] && b[x][y][k])
    ensures OrGrid(a, b)[x][y][k] == (a[x][y][k] || b[x][y][k])
    ensures NotGrid(a)[x][y][k] == !a[x][y][k]
  {
  }

  /** A grid that differs from g only on (x, y), where it holds just p, is Place(g, x, y, p). */
  lemma PlaceOf(g: Grid, x: int, y: int, p: Piece, r: Grid)
    requires Shaped(g) && Shaped(r) && OnBoard(x, y)
    requires forall a, b, k :: 0 <= a < 8 && 0 <= b < 8 && 0 <= k < 12 ==>
               r[a][b][k] == if a == x && b == y then p != NoPiece && k == p as int else g[a][b][k]
    ensures r == Place(g, x, y, p)
  {
    Ext(r, Place(g, x, y, p));
  }

  /** A grid that is the conjunction, disjunction or negation cell by cell is AndGrid, OrGrid
      or NotGrid. */
  lemma AndGridOf(a: Grid, b: Grid, r: Grid)
    requires Shaped(a) && Shaped(b) && Shaped(r)
    requires forall x, y, k :: 0 <= x < 8 && 0 <= y < 8 && 0 <= k < 12 ==> r[x][y][k] == (a[x][y][k] && b[x][y][k])
    ensures r == AndGrid(a, b)
  {
    Ext(r, AndGrid(a, b));
  }

  lemma OrGridOf(a: Grid, b: Grid, r: Grid)
    requires Shaped(a) && Shaped(b) && Shaped(r)
    requires forall x, y, k :: 0 <= x < 8 && 0 <= y < 8 && 0 <= k < 12 ==> r[x][y][k] == (a[x][y][k] || b[x][y][k])
    ensures r == OrGrid(a, b)
  {
    Ext(r, OrGrid(a, b));
  }

  lemma NotGridOf(a: Grid, r: Grid)
    requires Shaped(a) && Shaped(r)
    requires forall x, y, k :: 0 <= x < 8 && 0 <= y < 8 && 0 <= k < 12 ==> r[x][y][k] == !a[x][y][k]
    ensures r == NotGrid(a)
  {
    Ext(r, NotGrid(a));
  }

  /** A grid holding, on every square, just the piece GetPieceOnField reports there is Normal(g). */
  lemma NormalOf(g: Grid, r: Grid)
    requires Shaped(g) && Shaped(r)
    requires forall x, y, k :: 0 <= x < 8 && 0 <= y < 8 && 0 <= k < 12 ==> r[x][y][k] == Single(PieceAt(g, x, y))[k]
    ensures r == Normal(g)
  {
    Ext(r, Normal(g));
  }

  /** Copy keeps each square's reported piece, and keeps the whole grid when it already has at
      most one piece per square. */
  lemma NormalSpec(g: Grid)
    requires Shaped(g)
    ensures forall x, y :: OnBoard(x, y) ==> PieceAt(Normal(g), x, y) == PieceAt(g, x, y)
    ensures OnePiecePerSquare(Normal(g))
    ensures OnePiecePerSquare(g) ==> Normal(g) == g
  {
    forall x, y | OnBoard(x, y) ensures PieceAt(Normal(g), x, y) == PieceAt(g, x, y) {
      FirstSetSingle(PieceAt(g, x, y), 0);
    }
    if OnePiecePerSquare(g) {
      forall x, y, k | OnBoard(x, y) && 0 <= k < 12 ensures Normal(g)[x][y][k] == g[x][y][k] {
        PieceAtSpec(g, x, y);
      }
      Ext(Normal(g), g);
    }
  }
}
