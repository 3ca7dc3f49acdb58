/** The position type BitBoard: an 8 x 8 x 12 plane array that is updated in place, the four
    castling flags, the side to move, the two counters and the en-passant square; its square
    queries, PlacePieceOnBoard, the pointwise And / Or / Not, Copy, the king search and the
    FEN codec. Each method is proved against the value-level definitions of Planes, Moves and Fen. */
module Board {
  import opened Text
  import opened Algebra
  import opened Pieces
  import opened Planes
  import opened Moves
  import opened Fen

  class BitBoard {
    /** [file][rank][plane]; the slices are never replaced, only their cells. */
    const board: array3<bool>
    var blackCastleLeft: bool
    var blackCastleRight: bool
    var whiteCastleLeft: bool
    var whiteCastleRight: bool
    var whitesTurn: bool
    var turn: int
    var halfmove: int
    var enPassant: seq<int>

    predicate Dims() {
      board.Length0 == 8 && board.Length1 == 8 && board.Length2 == 12
    }

    predicate Valid()
      reads this
    {
      Dims() && |enPassant| == 2
    }

    /** The plane array as a value. */
    ghost function Grid(): (g: Grid)
      reads board
      requires Dims()
      ensures Shaped(g)
      ensures forall x, y, k :: 0 <= x < 8 && 0 <= y < 8 && 0 <= k < 12 ==> g[x][y][k] == board[x, y, k]
    {
      seq(8, x reads board => seq(8, y reads board => seq(12, k reads board =>
        if 0 <= x < 8 && 0 <= y < 8 && 0 <= k < 12 then board[x, y, k] else false)))
    }

    /** The four castling flags as a value. */
    function Castling(): Rights
      reads this
    {
      Rights(blackCastleLeft, blackCastleRight, whiteCastleLeft, whiteCastleRight)
    }

    /** The whole position as a value. */
    ghost function View(): (p: Position)
      reads this, board
      requires Dims()
      ensures p.grid == Grid()
    {
      Position(Grid(), Castling(), whitesTurn, turn, halfmove, enPassant)
    }

    /** CreateEmptyBitBoard: no piece anywhere, all castling flags set, white to move, both
        counters 0 and no en-passant square. */
    constructor Empty()
      ensures Valid() && fresh(board)
      ensures View() == EmptyPosition()
      ensures forall a, b, k :: 0 <= a < 8 && 0 <= b < 8 && 0 <= k < 12 ==> !board[a, b, k]
    {
      board := new bool[8, 8, 12]((_, _, _) => false);
      blackCastleLeft, blackCastleRight, whiteCastleLeft, whiteCastleRight := true, true, true, true;
      whitesTurn, turn, halfmove, enPassant := true, 0, 0, [-1, -1];
      new;
      Ext(Grid(), EmptyGrid());
    }

    method IsFieldEmpty(x: int, y: int) returns (r: bool)
      requires Dims() && OnBoard(x, y)
      ensures r == EmptyAt(Grid(), x, y)
    {
      for k := 0 to 12
        invariant forall l :: 0 <= l < k ==> !board[x, y, l]
      {
        if board[x, y, k] {
          return false;
        }
      }
      return true;
    }

    method IsFieldBlack(x: int, y: int) returns (r: bool)
      requires Dims() && OnBoard(x, y)
      ensures r == BlackAt(Grid(), x, y)
    {
      var empty := IsFieldEmpty(x, y);
      if empty {
        return false;
      }
      for i := 0 to 6
        invariant forall l :: 0 <= l < i ==> !board[x, y, l]
      {
        if board[x, y, i] {
          return true;
        }
      }
      return false;
    }

    method IsFieldWhite(x: int, y: int) returns (r: bool)
      requires Dims() && OnBoard(x, y)
      ensures r == WhiteAt(Grid(), x, y)
    {
      var empty := IsFieldEmpty(x, y);
      if empty {
        return false;
      }
      for i := 6 to 12
        invariant forall l :: 6 <= l < i ==> !board[x, y, l]
      {
        if board[x, y, i] {
          return true;
        }
      }
      return false;
    }

    method IsFieldAvailable(x: int, y: int, white: bool) returns (r: bool)
      requires Dims() && OnBoard(x, y)
      ensures r == AvailableAt(Grid(), x, y, white)
    {
      var empty := IsFieldEmpty(x, y);
      if empty {
        return true;
      }
      if white {
        r := IsFieldBlack(x, y);
      } else {
        r := IsFieldWhite(x, y);
      }
    }

    /** Clears the square's twelve planes, then sets the piece's plane (none for NoPiece). */
    method PlacePieceOnBoard(x: int, y: int, piece: Piece)
      requires Dims() && OnBoard(x, y)
      modifies board
      ensures old(Valid()) ==> Valid()
      ensures forall a, b, k :: 0 <= a < 8 && 0 <= b < 8 && 0 <= k < 12 ==>
                board[a, b, k] == if a == x && b == y then piece != NoPiece && k == piece as int else old(board[a, b, k])
    {
      for i := 0 to 12
        invariant forall a, b, k :: 0 <= a < 8 && 0 <= b < 8 && 0 <= k < 12 ==>
                    board[a, b, k] == if a == x && b == y && k < i then false else old(board[a, b, k])
      {
        board[x, y, i] := false;
      }
      if piece == NoPiece {
      } else {
        board[x, y, piece] := true;
      }
      Ext(Grid(), Place(old(Grid()), x, y, piece));
    }

    method GetPieceOnField(x: int, y: int) returns (p: Piece)
      requires Dims() && OnBoard(x, y)
      ensures p == PieceAt(Grid(), x, y)
    {
      var empty := IsFieldEmpty(x, y);
      if empty {
        FirstSetNone(Grid()[x][y], 0);
        return NoPiece;
      }
      ghost var cell := Grid()[x][y];
      for i := 0 to 12
        invariant FirstSet(cell, i) == FirstSet(cell, 0)
      {
        if board[x, y, i] {
          return i as Piece;
        }
      }
      return NoPiece;
    }

    /** findKing: scans file 0 to 7 and, within a file, rank 0 to 7; (-1, -1) when there is no king. */
    method FindKing(white: bool) returns (x: int, y: int)
      requires Dims()
      ensures (x, y) == KingSquare(Grid(), white)
    {
      var piece := if white then WhiteKing else BlackKing;
      ghost var g := Grid();
      for i := 0 to 8
        invariant KingScan(g, piece, i, 0) == KingSquare(g, white)
      {
        for j := 0 to 8
          invariant KingScan(g, piece, i, j) == KingSquare(g, white)
        {
          var p := GetPieceOnField(i, j);
          if p == piece {
            return i, j;
          }
        }
      }
      return -1, -1;
    }

    /** One rank of the placement field, as ToFEN's inner loop writes it: runs of empty squares
        as a count, pieces as their letters, file 0 first. */
    method RankText(j: int) returns (output: string)
      requires Dims() && 0 <= j < 8
      ensures output == RankField(Grid(), j)
    {
      output := "";
      ghost var g := Grid();
      ghost var row := RankPieces(g, j);
      var emptySquare: nat := 0;
      for i := 0 to 8
        invariant emptySquare <= i
        invariant output + Rle(row[i..], emptySquare) == Rle(row, 0)
      {
        var empty := IsFieldEmpty(i, j);
        assert empty <==> row[i] == NoPiece by {
          PieceAtSpec(g, i, j);
        }
        if empty {
          RleStep(row, i, emptySquare);
          emptySquare := emptySquare + 1;
          continue;
        }
        ghost var before, run := output, emptySquare;
        if emptySquare != 0 {
          output := output + Itoa(emptySquare);
          emptySquare := 0;
        }
        assert output == before + RunText(run);
        var piece := GetPieceOnField(i, j);
        output := output + [Notation(piece)];
        RleEmit(before, row, i, run);
      }
      RleStep(row, 8, emptySquare);
      if emptySquare != 0 {
        output := output + Itoa(emptySquare);
      }
    }

    /** The placement field: ranks 7 down to 0, separated by '/'. */
    method PlacementText() returns (output: string)
      requires Dims()
      ensures output == BoardField(Grid())
    {
      ghost var g := Grid();
      output := "";
      for jj := 8 downto 0
        invariant output == if jj == 8 then "" else RanksText(g, jj) + (if jj != 0 then "/" else "")
      {
        var j := jj;
        var rank := RankText(j);
        output := output + rank;
        if j != 0 {
          output := output + "/";
        }
      }
    }

    /** The castling field as ToFEN writes it: K, Q, k, q for the flags that are set, in that
        order, and '-' when none is. */
    method CastlingText() returns (output: string)
      ensures output == CastleField(Rights(blackCastleLeft, blackCastleRight, whiteCastleLeft, whiteCastleRight))
    {
      ghost var rights := Rights(blackCastleLeft, blackCastleRight, whiteCastleLeft, whiteCastleRight);
      ghost var c1, c2, c3, c4 := if whiteCastleRight then "K" else "", if whiteCastleLeft then "Q" else "",
                                  if blackCastleRight then "k" else "", if blackCastleLeft then "q" else "";
      output := "";
      if whiteCastleRight {
        output := output + "K";
      }
      assert output == [] + c1;
      if whiteCastleLeft {
        output := output + "Q";
      }
      assert output == [] + c1 + c2;
      if blackCastleRight {
        output := output + "k";
      }
      assert output == [] + c1 + c2 + c3;
      if blackCastleLeft {
        output := output + "q";
      }
      assert output == [] + c1 + c2 + c3 + c4;
      if !(whiteCastleRight || whiteCastleLeft || blackCastleRight || blackCastleLeft) {
        output := output + "-";
      }
      CastleAppend([], rights);
    }

    /** FromFEN's placement loops: rank j is read from rows[7 - j], the character at index i
        onto file i, on a board that starts empty. */
    method PlaceRanks(rows: seq<string>)
      requires Valid() && |rows| >= 8 && forall r :: 0 <= r < 8 ==> |rows[r]| <= 8
      requires forall a, b, k :: 0 <= a < 8 && 0 <= b < 8 && 0 <= k < 12 ==> !board[a, b, k]
      modifies board
      ensures Valid()
      ensures Grid() == DecodeGrid(rows)
    {
      for jj := 8 downto 0
        invariant forall a, b, k :: 0 <= a < 8 && 0 <= b < 8 && 0 <= k < 12 ==>
                    board[a, b, k] == (b >= jj && CellOfRow(rows[7 - b], a)[k])
      {
        PlaceRank(rows[7 - jj], jj);
      }
      DecodeGridOf(rows, Grid());
    }

    /** One rank of FromFEN: the character at index i of the text goes on file i. */
    method PlaceRank(row: string, j: int)
      requires Valid() && 0 <= j < 8 && |row| <= 8
      requires forall a, k :: 0 <= a < 8 && 0 <= k < 12 ==> !board[a, j, k]
      modifies board
      ensures Valid()
      ensures forall a, b, k :: 0 <= a < 8 && 0 <= b < 8 && 0 <= k < 12 ==>
                board[a, b, k] == if b == j then CellOfRow(row, a)[k] else old(board[a, b, k])
    {
      for i := 0 to |row|
        invariant forall a, b, k :: 0 <= a < 8 && 0 <= b < 8 && 0 <= k < 12 ==>
                    board[a, b, k] == if b == j && a < i then CellOfRow(row, a)[k] else old(board[a, b, k])
      {
        var piece := PieceByNotation(row[i]);
        PlacePieceOnBoard(i, j, piece);
      }
    }

    /** FromFEN's castling loop: K, Q, k and q set their flag, nothing is cleared, and no other
        field changes. */
    method ReadCastling(text: string)
      requires Valid()
      modifies this
      ensures Valid()
      ensures Castling() == ApplyCastling(old(Castling()), text)
      ensures whitesTurn == old(whitesTurn) && turn == old(turn) && halfmove == old(halfmove)
      ensures enPassant == old(enPassant)
    {
      for c := 0 to |text|
        invariant ApplyCastling(Castling(), text[c..]) == ApplyCastling(old(Castling()), text)
        invariant whitesTurn == old(whitesTurn) && turn == old(turn) && halfmove == old(halfmove)
        invariant enPassant == old(enPassant)
      {
        assert text[c..][1..] == text[c + 1..];
        match text[c]
        case 'K' => whiteCastleRight := true;
        case 'Q' => whiteCastleLeft := true;
        case 'k' => blackCastleRight := true;
        case 'q' => blackCastleLeft := true;
        case _ =>
      }
      assert text[|text|..] == [];
    }

    /** ToFEN: rank 7 first, each rank as runs of empty squares and piece letters; then the
        active colour, castling, en-passant, halfmove and turn fields. */
    method ToFEN() returns (output: string)
      requires Valid()
      ensures output == Encode(View())
    {
      ghost var g := Grid();
      output := PlacementText();
      output := output + " ";
      if GoRem(turn, 2) == 1 {
        output := output + "w";
      } else {
        output := output + "b";
      }
      assert output == BoardField(g) + " " + SideField(turn);
      output := output + " ";
      ghost var rights := Rights(blackCastleLeft, blackCastleRight, whiteCastleLeft, whiteCastleRight);
      var castling := CastlingText();
      output := output + castling;
      ghost var afterCastle := output;
      if enPassant[0] == -1 || enPassant[1] == -1 {
        output := output + " -";
      } else {
        output := output + " " + RowColToAlgebra(enPassant[0], enPassant[1]);
      }
      EpAppend(afterCastle, enPassant);
      assert output == afterCastle + " " + EpField(enPassant);
      output := output + " " + Itoa(halfmove);
      output := output + " " + Itoa(turn);
      assert View() == Position(g, rights, whitesTurn, turn, halfmove, enPassant);
      EncodeText(View());
      assert output == BoardField(g) + " " + SideField(turn) + " " + CastleField(rights)
                       + " " + EpField(enPassant) + " " + Itoa(halfmove) + " " + Itoa(turn);
    }

    /** Copy: a new board with the same piece on every square; the flags and counters are the
        empty board's, not this board's. */
    method Copy() returns (c: BitBoard)
      requires Dims()
      ensures fresh(c) && fresh(c.board) && c.Valid()
      ensures c.View() == EmptyPosition().(grid := Normal(Grid()))
    {
      c := new BitBoard.Empty();
      ghost var g := Grid();
      ghost var flags := c.View();
      for i := 0 to 8
        invariant fresh(c.board)
        modifies c.board
        invariant forall a, b, k :: 0 <= a < 8 && 0 <= b < 8 && 0 <= k < 12 ==>
                    c.board[a, b, k] == (a < i && Single(PieceAt(g, a, b))[k])
      {
        CopyFile(c, i);
      }
      NormalOf(g, c.Grid());
      assert c.View() == flags.(grid := c.Grid());
    }

    /** The rest of FromFEN once the pieces are placed: the side to move is white exactly for
        "w", each castling letter sets its flag, "-" leaves no en-passant square, and the two
        counters are stored; the planes are untouched. */
    method ReadFields(side: string, castleRights: string, ep: string, halfmoves: int, turns: int)
      requires Valid() && (ep == "-" || |ep| >= 2)
      modifies this
      ensures Valid()
      ensures View() == Position(old(Grid()), ApplyCastling(old(Castling()), castleRights), side == "w",
                                 turns, halfmoves, DecodeEp(ep))
    {
      whitesTurn := side == "w";
      ReadCastling(castleRights);
      if ep == "-" {
        enPassant := [-1, -1];
      } else {
        enPassant := AlgebraToRowCol(ep);
      }
      halfmove := halfmoves;
      turn := turns;
    }

    /** One file of Copy's loop: each square of file i gets the piece reported on it here. */
    method CopyFile(c: BitBoard, i: int)
      requires Dims() && c.Dims() && c.board != board && 0 <= i < 8
      modifies c.board
      ensures forall a, b, k :: 0 <= a < 8 && 0 <= b < 8 && 0 <= k < 12 ==>
                c.board[a, b, k] == if a == i then Single(PieceAt(Grid(), a, b))[k] else old(c.board[a, b, k])
    {
      for j := 0 to 8
        invariant forall a, b, k :: 0 <= a < 8 && 0 <= b < 8 && 0 <= k < 12 ==>
                    c.board[a, b, k] == if a == i && b < j then Single(PieceAt(Grid(), a, b))[k] else old(c.board[a, b, k])
      {
        var p := GetPieceOnField(i, j);
        c.PlacePieceOnBoard(i, j, p);
      }
    }
  }

  /** The cell-by-cell conjunction, on a new board with the empty board's flags. */
  method And(a: BitBoard, b: BitBoard) returns (result: BitBoard)
    requires a.Dims() && b.Dims()
    ensures fresh(result) && fresh(result.board)
    ensures result.Valid() && result.View() == EmptyPosition().(grid := AndGrid(a.Grid(), b.Grid()))
  {
    result := new BitBoard.Empty();
    ghost var flags := result.View();
    for i := 0 to 8
      invariant fresh(result.board)
      modifies result.board
      invariant forall x, y, k :: 0 <= x < 8 && 0 <= y < 8 && 0 <= k < 12 ==>
                  result.board[x, y, k] == (x < i && a.board[x, y, k] && b.board[x, y, k])
    {
      for j := 0 to 8
        modifies result.board
        invariant forall x, y, k :: 0 <= x < 8 && 0 <= y < 8 && 0 <= k < 12 ==>
                    result.board[x, y, k] == ((x < i || (x == i && y < j)) && a.board[x, y, k] && b.board[x, y, k])
      {
        AndSquare(result.board, a.board, b.board, i, j);
      }
    }
    AndGridOf(a.Grid(), b.Grid(), result.Grid());
    assert result.View() == flags.(grid := result.Grid());
  }

  /** The innermost loop of And: the twelve planes of square (i, j). */
  method AndSquare(r: array3<bool>, a: array3<bool>, b: array3<bool>, i: int, j: int)
    requires r.Length0 == a.Length0 == b.Length0 == 8 && r.Length1 == a.Length1 == b.Length1 == 8
    requires r.Length2 == a.Length2 == b.Length2 == 12
    requires r != a && r != b && OnBoard(i, j)
    modifies r
    ensures forall x, y, k :: 0 <= x < 8 && 0 <= y < 8 && 0 <= k < 12 ==>
              r[x, y, k] == if x == i && y == j then a[x, y, k] && b[x, y, k] else old(r[x, y, k])
  {
    for k := 0 to 12
      invariant forall x, y, l :: 0 <= x < 8 && 0 <= y < 8 && 0 <= l < 12 ==>
                  r[x, y, l] == if x == i && y == j && l < k then a[x, y, l] && b[x, y, l] else old(r[x, y, l])
    {
      r[i, j, k] := a[i, j, k] && b[i, j, k];
    }
  }

  /** The cell-by-cell disjunction, on a new board with the empty board's flags. */
  method Or(a: BitBoard, b: BitBoard) returns (result: BitBoard)
    requires a.Dims() && b.Dims()
    ensures fresh(result) && fresh(result.board)
    ensures result.Valid() && result.View() == EmptyPosition().(grid := OrGrid(a.Grid(), b.Grid()))
  {
    result := new BitBoard.Empty();
    ghost var flags := result.View();
    for i := 0 to 8
      invariant fresh(result.board)
      modifies result.board
      invariant forall x, y, k :: 0 <= x < 8 && 0 <= y < 8 && 0 <= k < 12 ==>
                  result.board[x, y, k] == (x < i && (a.board[x, y, k] || b.board[x, y, k]))
    {
      for j := 0 to 8
        modifies result.board
        invariant forall x, y, k :: 0 <= x < 8 && 0 <= y < 8 && 0 <= k < 12 ==>
                    result.board[x, y, k] == ((x < i || (x == i && y < j)) && (a.board[x, y, k] || b.board[x, y, k]))
      {
        OrSquare(result.board, a.board, b.board, i, j);
      }
    }
    OrGridOf(a.Grid(), b.Grid(), result.Grid());
    assert result.View() == flags.(grid := result.Grid());
  }

  /** The innermost loop of Or: the twelve planes of square (i, j). */
  method OrSquare(r: array3<bool>, a: array3<bool>, b: array3<bool>, i: int, j: int)
    requires r.Length0 == a.Length0 == b.Length0 == 8 && r.Length1 == a.Length1 == b.Length1 == 8
    requires r.Length2 == a.Length2 == b.Length2 == 12
    requires r != a && r != b && OnBoard(i, j)
    modifies r
    ensures forall x, y, k :: 0 <= x < 8 && 0 <= y < 8 && 0 <= k < 12 ==>
              r[x, y, k] == if x == i && y == j then a[x, y, k] || b[x, y, k] else old(r[x, y, k])
  {
    for k := 0 to 12
      invariant forall x, y, l :: 0 <= x < 8 && 0 <= y < 8 && 0 <= l < 12 ==>
                  r[x, y, l] == if x == i && y == j && l < k then a[x, y, l] || b[x, y, l] else old(r[x, y, l])
    {
      r[i, j, k] := a[i, j, k] || b[i, j, k];
    }
  }

  /** The cell-by-cell negation, on a new board with the empty board's flags. */
  method Not(a: BitBoard) returns (result: BitBoard)
    requires a.Dims()
    ensures fresh(result) && fresh(result.board)
    ensures result.Valid() && result.View() == EmptyPosition().(grid := NotGrid(a.Grid()))
  {
    result := new BitBoard.Empty();
    ghost var flags := result.View();
    for i := 0 to 8
      invariant fresh(result.board)
      modifies result.board
      invariant forall x, y, k :: 0 <= x < 8 && 0 <= y < 8 && 0 <= k < 12 ==>
                  result.board[x, y, k] == (x < i && !a.board[x, y, k])
    {
      for j := 0 to 8
        modifies result.board
        invariant forall x, y, k :: 0 <= x < 8 && 0 <= y < 8 && 0 <= k < 12 ==>
                    result.board[x, y, k] == ((x < i || (x == i && y < j)) && !a.board[x, y, k])
      {
        NotSquare(result.board, a.board, i, j);
      }
    }
    NotGridOf(a.Grid(), result.Grid());
    assert result.View() == flags.(grid := result.Grid());
  }

  /** The innermost loop of Not: the twelve planes of square (i, j). */
  method NotSquare(r: array3<bool>, a: array3<bool>, i: int, j: int)
    requires r.Length0 == a.Length0 == 8 && r.Length1 == a.Length1 == 8 && r.Length2 == a.Length2 == 12
    requires r != a && OnBoard(i, j)
    modifies r
    ensures forall x, y, k :: 0 <= x < 8 && 0 <= y < 8 && 0 <= k < 12 ==>
              r[x, y, k] == if x == i && y == j then !a[x, y, k] else old(r[x, y, k])
  {
    for k := 0 to 12
      invariant forall x, y, l :: 0 <= x < 8 && 0 <= y < 8 && 0 <= l < 12 ==>
                  r[x, y, l] == if x == i && y == j && l < k then !a[x, y, l] else old(r[x, y, l])
    {
      r[i, j, k] := !a[i, j, k];
    }
  }

  /** FromFEN as written: the character at index i of the text of rank j goes on file i. */
  method FromFEN(fen: string) returns (board: BitBoard)
    requires Decodable(fen)
    ensures fresh(board) && fresh(board.board) && board.Valid()
    ensures board.View() == Decode(fen)
  {
    board := new BitBoard.Empty();
    var fenSplitBySpace := Split(fen, ' ');
    var boardString := fenSplitBySpace[0];
    var currentSide := fenSplitBySpace[1];
    var castleRights := fenSplitBySpace[2];
    var enPassant := fenSplitBySpace[3];
    var halfmove := Atoi(fenSplitBySpace[4]);
    var turn := Atoi(fenSplitBySpace[5]);
    var rows := Split(boardString, '/');

    board.PlaceRanks(rows);
    board.ReadFields(currentSide, castleRights, enPassant, halfmove, turn);
  }

  /** The standard start position, read from its FEN text. */
  method GetStartBoard() returns (board: BitBoard)
    ensures fresh(board) && fresh(board.board) && board.Valid()
    ensures Decodable(StartFen) && board.View() == Decode(StartFen) && Encode(board.View()) == StartFen
  {
    StartRoundTrip();
    board := FromFEN(StartFen);
  }
}
