/** The piece catalogue: twelve piece kinds and the NO_PIECE sentinel. A piece's number is
    also the index of its plane in a square's twelve booleans. */
module Pieces {

  newtype Piece = p: int | 0 <= p <= 12

  const BlackPawn: Piece := 0
  const BlackRook: Piece := 1
  const BlackKnight: Piece := 2
  const BlackBishop: Piece := 3
  const BlackQueen: Piece := 4
  const BlackKing: Piece := 5
  const WhitePawn: Piece := 6
  const WhiteRook: Piece := 7
  const WhiteKnight: Piece := 8
  const WhiteBishop: Piece := 9
  const WhiteQueen: Piece := 10
  const WhiteKing: Piece := 11
  const NoPiece: Piece := 12

  predicate IsBlack(p: Piece) {
    p < 6
  }

  /** As written: the test is `p > 6`, so WhitePawn (6) is not white. */
  predicate IsWhite(p: Piece) {
    p > 6 && p != NoPiece
  }

  /** Black is exactly 0..5 and white exactly 7..11; WhitePawn and NoPiece are neither. */
  lemma ColourClasses(p: Piece)
    ensures IsBlack(p) <==> BlackPawn <= p <= BlackKing
    ensures IsWhite(p) <==> WhiteRook <= p <= WhiteKing
    ensures !(IsBlack(p) && IsWhite(p))
    ensures !IsBlack(WhitePawn) && !IsWhite(WhitePawn) && !IsBlack(NoPiece) && !IsWhite(NoPiece)
  {
  }

  /** GetNotation (defined elsewhere in the package; the standard FEN letter table is
      assumed): the letter, lower case for black, upper case for white, '-' for NoPiece. */
  function Notation(p: Piece): char {
    "prnbqkPRNBQK-"[p]
  }

  /** GetPieceByNotation (defined elsewhere in the package; the standard FEN letter table
      is assumed): the piece a letter names, NoPiece for any other character. */
  function PieceByNotation(c: char): Piece {
    match c
    case 'p' => BlackPawn
    case 'r' => BlackRook
    case 'n' => BlackKnight
    case 'b' => BlackBishop
    case 'q' => BlackQueen
    case 'k' => BlackKing
    case 'P' => WhitePawn
    case 'R' => WhiteRook
    case 'N' => WhiteKnight
    case 'B' => WhiteBishop
    case 'Q' => WhiteQueen
    case 'K' => WhiteKing
    case _ => NoPiece
  }

  predicate IsPieceLetter(c: char) {
    c in "prnbqkPRNBQK"
  }

  /** The notation is a bijection: every piece is recovered from its letter, and every piece
      letter is the notation of the piece it names. No piece letter is a digit, '/', '-' or a space. */
  lemma NotationRoundTrip(p: Piece, c: char)
    ensures PieceByNotation(Notation(p)) == p
    ensures p != NoPiece <==> IsPieceLetter(Notation(p))
    ensures IsPieceLetter(c) ==> Notation(PieceByNotation(c)) == c && PieceByNotation(c) != NoPiece
    ensures IsPieceLetter(c) ==> !('0' <= c <= '9') && c != '/' && c != ' ' && c != '-'
    ensures !IsPieceLetter(c) ==> PieceByNotation(c) == NoPiece
  {
  }
}
