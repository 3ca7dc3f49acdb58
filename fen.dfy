/** A position as a value, and the Forsyth-Edwards text ToFEN writes for it and FromFEN reads
    from it (section 16.1 of the PGN standard: placement, active colour, castling, en-passant
    square, halfmove clock, fullmove number, separated by single spaces). Both directions are
    defined here as the code behaves; the BitBoard methods are proved against them. */
module Fen {
  import opened Text
  import opened Algebra
  import opened Pieces
  import opened Planes

  /** The four castling flags, in the order the BitBoard declares them. */
  datatype Rights = Rights(blackLeft: bool, blackRight: bool, whiteLeft: bool, whiteRight: bool)

  /** Everything a BitBoard holds. */
  datatype Position = Position(grid: Grid, rights: Rights, whitesTurn: bool, turn: int, halfmove: int,
                               enPassant: seq<int>)

  const AllRights := Rights(true, true, true, true)

  /** CreateEmptyBitBoard's position. */
  function EmptyPosition(): (p: Position)
    ensures Shaped(p.grid) && |p.enPassant| == 2
  {
    Position(EmptyGrid(), AllRights, true, 0, 0, [-1, -1])
  }

  // ---------------------------------------------------------------- ToFEN

  /** The pending run of empty squares, written as a number when there is one. */
  function RunText(run: nat): string {
    if run != 0 then Itoa(run) else ""
  }

  /** A rank's text from file |row| before its end, with `run` empty squares pending:
      runs of empty squares as numbers, pieces as their letters. */
  function Rle(row: seq<Piece>, run: nat): string
    decreases |row|
  {
    if row == [] then RunText(run)
    else if row[0] == NoPiece then Rle(row[1..], run + 1)
    else RunText(run) + [Notation(row[0])] + Rle(row[1..], 0)
  }

  /** One step of the run-length scan from file i. */
  lemma RleStep(row: seq<Piece>, i: int, run: nat)
    requires 0 <= i <= |row|
    ensures i == |row| ==> Rle(row[i..], run) == RunText(run)
    ensures i < |row| ==> Rle(row[i..], run) == if row[i] == NoPiece then Rle(row[i + 1..], run + 1)
                                                  else RunText(run) + [Notation(row[i])] + Rle(row[i + 1..], 0)
  {
    if i < |row| {
      assert row[i..][0] == row[i] && row[i..][1..] == row[i + 1..];
    } else {
      assert row[i..] == [];
    }
  }

  /** Emitting the pending run and the piece at file i leaves the scan from file i + 1 with no
      run pending. */
  lemma RleEmit(out: string, row: seq<Piece>, i: int, run: nat)
    requires 0 <= i < |row| && row[i] != NoPiece
    ensures out + RunText(run) + [Notation(row[i])] + Rle(row[i + 1..], 0) == out + Rle(row[i..], run)
  {
    RleStep(row, i, run);
    ConcatAssoc(out, RunText(run) + [Notation(row[i])], Rle(row[i + 1..], 0));
  }

  /** The pieces GetPieceOnField reports along rank j, file 0 first. */
  function RankPieces(g: Grid, j: int): (row: seq<Piece>)
    requires Shaped(g) && 0 <= j < 8
    ensures |row| == 8
  {
    seq(8, i requires 0 <= i < 8 => PieceAt(g, i, j))
  }

  function RankField(g: Grid, j: int): string
    requires Shaped(g) && 0 <= j < 8
  {
    Rle(RankPieces(g, j), 0)
  }

  /** Ranks 7 down to j, separated by '/'. */
  function RanksText(g: Grid, j: int): string
    requires Shaped(g) && 0 <= j < 8
    decreases 7 - j
  {
    if j == 7 then RankField(g, 7) else RanksText(g, j + 1) + "/" + RankField(g, j)
  }

  function BoardField(g: Grid): string
    requires Shaped(g)
  {
    RanksText(g, 0)
  }

  /** Go's % on int: truncated, so the remainder takes the sign of n. */
  function GoRem(n: int, d: int): int
    requires d > 0
  {
    if n >= 0 then n % d else -((-n) % d)
  }

  /** The active colour ToFEN writes: taken from the turn counter, not from whitesTurn. */
  function SideField(turn: int): string {
    if GoRem(turn, 2) == 1 then "w" else "b"
  }

  function CastleField(r: Rights): string {
    (if r.whiteRight then "K" else "") + (if r.whiteLeft then "Q" else "")
    + (if r.blackRight then "k" else "") + (if r.blackLeft then "q" else "")
    + (if !(r.whiteRight || r.whiteLeft || r.blackRight || r.blackLeft) then "-" else "")
  }

  function EpField(ep: seq<int>): string
    requires |ep| >= 2
  {
    if ep[0] == -1 || ep[1] == -1 then "-" else RowColToAlgebra(ep[0], ep[1])
  }

  predicate Encodable(p: Position) {
    Shaped(p.grid) && |p.enPassant| >= 2
  }

  function Fields(p: Position): (f: seq<string>)
    requires Encodable(p)
    ensures |f| == 6
  {
    [BoardField(p.grid), SideField(p.turn), CastleField(p.rights), EpField(p.enPassant),
     Itoa(p.halfmove), Itoa(p.turn)]
  }

  /** ToFEN: the six fields joined by single spaces. */
  function Encode(p: Position): string
    requires Encodable(p)
  {
    Join(Fields(p), ' ')
  }

  /** The text spelled out field by field, as ToFEN appends it. */
  lemma EncodeText(p: Position)
    requires Encodable(p)
    ensures Encode(p) == BoardField(p.grid) + " " + SideField(p.turn) + " " + CastleField(p.rights)
                         + " " + EpField(p.enPassant) + " " + Itoa(p.halfmove) + " " + Itoa(p.turn)
  {
    JoinSix(BoardField(p.grid), SideField(p.turn), CastleField(p.rights), EpField(p.enPassant),
            Itoa(p.halfmove), Itoa(p.turn), ' ');
  }

  /** The castling field appended letter by letter, as ToFEN writes it. */
  lemma CastleAppend(pre: string, r: Rights)
    ensures pre + CastleField(r) == pre + (if r.whiteRight then "K" else "") + (if r.whiteLeft then "Q" else "")
              + (if r.blackRight then "k" else "") + (if r.blackLeft then "q" else "")
              + (if !(r.whiteRight || r.whiteLeft || r.blackRight || r.blackLeft) then "-" else "")
  {
  }

  /** The en-passant field appended after its separating space, as ToFEN writes it. */
  lemma EpAppend(pre: string, ep: seq<int>)
    requires |ep| >= 2
    ensures pre + " " + EpField(ep) ==
              if ep[0] == -1 || ep[1] == -1 then pre + " -" else pre + " " + RowColToAlgebra(ep[0], ep[1])
  {
    if ep[0] == -1 || ep[1] == -1 {
      assert pre + " " + "-" == pre + " -";
    }
  }

  // ---------------------------------------------------------------- FromFEN, as written

  /** What FromFEN needs to index without panicking: six space-separated fields, eight ranks of
      at most eight characters (a ninth character would be placed on file 8), and an en-passant
      field that is "-" or has at least two characters. */
  predicate Decodable(fen: string) {
    var f := Split(fen, ' ');
    && |f| >= 6
    && |Split(f[0], '/')| >= 8
    && (forall r :: 0 <= r < 8 ==> |Split(f[0], '/')[r]| <= 8)
    && (f[3] == "-" || |f[3]| >= 2)
  }

  /** The square at file a of a rank text: the character at index a, read as a piece letter
      (digits are not expanded: they read as NoPiece); files past the text stay empty. */
  function CellOfRow(row: string, a: int): (cell: seq<bool>)
    requires 0 <= a
    ensures |cell| == 12
  {
    if a < |row| then Single(PieceByNotation(row[a])) else Single(NoPiece)
  }

  /** Rank b is read from rows[7 - b]: the first rank text is rank 7. */
  function DecodeGrid(rows: seq<string>): (g: Grid)
    requires |rows| >= 8
    ensures Shaped(g)
  {
    seq(8, a requires 0 <= a < 8 => seq(8, b requires 0 <= b < 8 => CellOfRow(rows[7 - b], a)))
  }

  /** A grid whose every square holds what CellOfRow reads from its rank text is the decoded grid. */
  lemma DecodeGridOf(rows: seq<string>, g: Grid)
    requires |rows| >= 8 && Shaped(g)
    requires forall a, b, k :: 0 <= a < 8 && 0 <= b < 8 && 0 <= k < 12 ==> g[a][b][k] == CellOfRow(rows[7 - b], a)[k]
    ensures g == DecodeGrid(rows)
  {
    Ext(g, DecodeGrid(rows));
  }

  /** One castling character: K, Q, k and q set their flag; anything else is ignored. */
  function CastleStep(r: Rights, c: char): Rights {
    match c
    case 'K' => r.(whiteRight := true)
    case 'Q' => r.(whiteLeft := true)
    case 'k' => r.(blackRight := true)
    case 'q' => r.(blackLeft := true)
    case _ => r
  }

  function ApplyCastling(r: Rights, text: string): Rights
    decreases |text|
  {
    if text == [] then r else ApplyCastling(CastleStep(r, text[0]), text[1..])
  }

  function DecodeEp(s: string): (ep: seq<int>)
    requires s == "-" || |s| >= 2
    ensures |ep| == 2
  {
    if s == "-" then [-1, -1] else AlgebraToRowCol(s)
  }

  /** FromFEN: the position starts as the empty board's, so the castling flags start all set. */
  function Decode(fen: string): (p: Position)
    requires Decodable(fen)
    ensures Encodable(p) && |p.enPassant| == 2
  {
    var f := Split(fen, ' ');
    Position(DecodeGrid(Split(f[0], '/')), ApplyCastling(AllRights, f[2]), f[1] == "w",
             Atoi(f[5]), Atoi(f[4]), DecodeEp(f[3]))
  }

  // ---------------------------------------------------------------- rank texts

  /** How many files a rank text covers: a digit covers its value, any other character one. */
  function Width(s: string): nat {
    if s == [] then 0 else CharWidth(s[0]) + Width(s[1..])
  }

  function CharWidth(c: char): nat {
    if IsDigit(c) then c as int - '0' as int else 1
  }

  predicate RankChars(s: string) {
    forall k :: 0 <= k < |s| ==> IsDigit(s[k]) || IsPieceLetter(s[k])
  }

  lemma {:induction false} WidthAppend(a: string, b: string)
    ensures Width(a + b) == Width(a) + Width(b)
  {
    if a != [] {
      var ab := a + b;
      assert ab[0] == a[0] && ab[1..] == a[1..] + b;
      WidthAppend(a[1..], b);
      assert Width(ab) == CharWidth(a[0]) + Width(a[1..] + b);
    } else {
      assert a + b == b;
    }
  }

  lemma RunTextShape(run: nat)
    requires run <= 9
    ensures Width(RunText(run)) == run && RankChars(RunText(run))
  {
    if run != 0 {
      ItoaSmall(run);
      assert [DigitChar(run)][1..] == [];
    }
  }

  /** A rank text covers exactly the files it describes, and holds only digits and piece letters. */
  lemma {:induction false} RleShape(row: seq<Piece>, run: nat)
    requires run + |row| <= 9
    ensures Width(Rle(row, run)) == run + |row| && RankChars(Rle(row, run))
    decreases |row|
  {
    if row == [] {
      RunTextShape(run);
    } else if row[0] == NoPiece {
      RleShape(row[1..], run + 1);
    } else {
      RunTextShape(run);
      RleShape(row[1..], 0);
      NotationRoundTrip(row[0], ' ');
      var c := [Notation(row[0])];
      assert Width(c) == 1 by {
        assert c[1..] == [];
      }
      WidthAppend(RunText(run), c);
      WidthAppend(RunText(run) + c, Rle(row[1..], 0));
    }
  }

  /** Each of ToFEN's rank fields accounts for exactly eight files. */
  lemma RankFieldWidth(g: Grid, j: int)
    requires Shaped(g) && 0 <= j < 8
    ensures Width(RankField(g, j)) == 8 && RankChars(RankField(g, j))
  {
    RleShape(RankPieces(g, j), 0);
  }

  /** How a FEN reader expands a rank text: a digit stands for that many empty squares, any
      other character for the piece it names. FromFEN itself does not expand digits (see
      DigitsNotExpanded); this is the reading the run-length text is written for. */
  function Expand(s: string): seq<Piece> {
    if s == [] then [] else ExpandChar(s[0]) + Expand(s[1..])
  }

  function ExpandChar(c: char): seq<Piece> {
    if IsDigit(c) then Blanks(c as int - '0' as int) else [PieceByNotation(c)]
  }

  function Blanks(n: nat): seq<Piece> {
    seq(n, _ => NoPiece)
  }

  lemma {:induction false} ExpandAppend(a: string, b: string)
    ensures Expand(a + b) == Expand(a) + Expand(b)
  {
    if a != [] {
      var ab := a + b;
      assert ab[0] == a[0] && ab[1..] == a[1..] + b;
      ExpandAppend(a[1..], b);
    } else {
      assert a + b == b;
    }
  }

  lemma RunTextExpand(run: nat)
    requires run <= 9
    ensures Expand(RunText(run)) == Blanks(run)
  {
    if run != 0 {
      ItoaSmall(run);
      assert [DigitChar(run)][1..] == [];
    }
  }

  /** Reading a rank text back gives the pending empty squares followed by the rank's pieces,
      in order: the digits stand exactly for the runs of empty squares and the letters for the
      pieces between them. */
  lemma {:induction false} RleExpand(row: seq<Piece>, run: nat)
    requires run + |row| <= 9
    ensures Expand(Rle(row, run)) == Blanks(run) + row
    decreases |row|
  {
    if row == [] {
      RunTextExpand(run);
    } else if row[0] == NoPiece {
      RleExpand(row[1..], run + 1);
      BlanksStep(run, row);
    } else {
      RleExpand(row[1..], 0);
      ExpandEmit(run, row[0], Rle(row[1..], 0));
      PieceStep(run, row);
    }
  }

  lemma BlanksStep(n: nat, row: seq<Piece>)
    requires row != [] && row[0] == NoPiece
    ensures Blanks(n + 1) + row[1..] == Blanks(n) + row
  {
  }

  lemma PieceStep(n: nat, row: seq<Piece>)
    requires row != []
    ensures Blanks(n) + [row[0]] + (Blanks(0) + row[1..]) == Blanks(n) + row
  {
    assert Blanks(0) + row[1..] == row[1..];
    assert [row[0]] + row[1..] == row;
  }

  /** The pending run followed by a piece letter reads back as the run's empty squares and the piece. */
  lemma ExpandEmit(run: nat, p: Piece, rest: string)
    requires run <= 9 && p != NoPiece
    ensures Expand(RunText(run) + [Notation(p)] + rest) == Blanks(run) + [p] + Expand(rest)
  {
    var c := [Notation(p)];
    RunTextExpand(run);
    NotationRoundTrip(p, ' ');
    assert Expand(c) == [p] by {
      assert c[1..] == [];
    }
    ExpandAppend(RunText(run), c);
    ExpandAppend(RunText(run) + c, rest);
  }

  /** Each of ToFEN's rank fields reads back as the pieces of that rank, file 0 first. */
  lemma RankFieldExpand(g: Grid, j: int)
    requires Shaped(g) && 0 <= j < 8
    ensures Expand(RankField(g, j)) == RankPieces(g, j)
  {
    RleExpand(RankPieces(g, j), 0);
    assert Blanks(0) + RankPieces(g, j) == RankPieces(g, j);
  }

  /** A rank without empty squares is written as its piece letters. */
  lemma {:induction false} RleFull(row: seq<Piece>)
    requires forall i :: 0 <= i < |row| ==> row[i] != NoPiece
    ensures Rle(row, 0) == seq(|row|, i requires 0 <= i < |row| => Notation(row[i]))
    decreases |row|
  {
    if row != [] {
      RleFull(row[1..]);
    }
  }

  /** A run of empty squares is written as one number. */
  lemma {:induction false} RleEmpty(row: seq<Piece>, run: nat)
    requires forall i :: 0 <= i < |row| ==> row[i] == NoPiece
    ensures Rle(row, run) == RunText(run + |row|)
    decreases |row|
  {
    if row != [] {
      RleEmpty(row[1..], run + 1);
    }
  }

  /** The rank fields of ranks 7 down to j, rank 7 first. */
  function RanksFrom(g: Grid, j: int): (parts: seq<string>)
    requires Shaped(g) && 0 <= j < 8
    ensures |parts| == 8 - j && forall r :: 0 <= r < 8 - j ==> parts[r] == RankField(g, 7 - r)
    decreases 7 - j
  {
    if j == 7 then [RankField(g, 7)] else RanksFrom(g, j + 1) + [RankField(g, j)]
  }

  /** The board field is the eight rank fields, rank 7 first, joined by '/'. */
  lemma {:induction false} RanksTextJoin(g: Grid, j: int)
    requires Shaped(g) && 0 <= j < 8
    ensures RanksText(g, j) == Join(RanksFrom(g, j), '/')
    decreases 7 - j
  {
    if j < 7 {
      RanksTextJoin(g, j + 1);
      JoinSnoc(RanksFrom(g, j + 1), RankField(g, j), '/');
    }
  }

  lemma RankCharsNoSeparator(s: string)
    requires RankChars(s)
    ensures '/' !in s && ' ' !in s
  {
    forall k | 0 <= k < |s| ensures s[k] != '/' && s[k] != ' ' {
      NotationRoundTrip(NoPiece, s[k]);
    }
  }

  /** The eight rank fields of a grid, rank 7 first. */
  function Ranks(g: Grid): (parts: seq<string>)
    requires Shaped(g)
    ensures |parts| == 8
  {
    seq(8, r requires 0 <= r < 8 => RankField(g, 7 - r))
  }

  lemma RanksNoSeparator(g: Grid)
    requires Shaped(g)
    ensures forall r :: 0 <= r < 8 ==> '/' !in Ranks(g)[r] && ' ' !in Ranks(g)[r]
  {
    forall r | 0 <= r < 8 ensures '/' !in Ranks(g)[r] && ' ' !in Ranks(g)[r] {
      RankFieldWidth(g, 7 - r);
      RankCharsNoSeparator(Ranks(g)[r]);
    }
  }

  /** Splitting the board field at '/' gives the eight rank fields, rank 7 first. */
  lemma BoardFieldRanks(g: Grid)
    requires Shaped(g)
    ensures BoardField(g) == Join(Ranks(g), '/')
    ensures Split(BoardField(g), '/') == Ranks(g)
  {
    RanksTextJoin(g, 0);
    assert RanksFrom(g, 0) == Ranks(g);
    RanksNoSeparator(g);
    SplitJoin(Ranks(g), '/');
  }

  // ---------------------------------------------------------------- the other fields

  /** The castling field is "-" exactly when no flag is set. */
  lemma CastleFieldDash(r: Rights)
    ensures CastleField(r) == "-" <==> !(r.whiteRight || r.whiteLeft || r.blackRight || r.blackLeft)
    ensures ' ' !in CastleField(r) && |CastleField(r)| >= 1
  {
    var s := CastleField(r);
    if r.whiteRight || r.whiteLeft || r.blackRight || r.blackLeft {
      assert s[0] != '-';
    }
  }

  lemma ItoaNonEmpty(n: int)
    ensures |Itoa(n)| >= 1
  {
    if n < 0 {
      NatToDecimalDigits(-n);
    } else {
      NatToDecimalDigits(n);
    }
  }

  /** The en-passant field is "-" exactly when a coordinate is -1. */
  lemma EpFieldDash(ep: seq<int>)
    requires |ep| >= 2
    ensures EpField(ep) == "-" <==> ep[0] == -1 || ep[1] == -1
  {
    ItoaNonEmpty(ep[1] + 1);
  }

  /** The active colour ToFEN writes is "w" exactly for a positive odd turn counter, whatever
      whitesTurn says. */
  lemma SideFieldSpec(p: Position, whitesTurn: bool)
    requires Encodable(p)
    ensures SideField(p.turn) == "w" <==> p.turn > 0 && p.turn % 2 == 1
    ensures Encode(p.(whitesTurn := whitesTurn)) == Encode(p)
  {
  }

  /** The castling characters can only set flags: a flag is set afterwards exactly when it was
      set before or its letter occurs in the text. */
  lemma {:induction false} ApplyCastlingSpec(r: Rights, text: string)
    ensures var q := ApplyCastling(r, text);
            && (q.whiteRight <==> r.whiteRight || 'K' in text)
            && (q.whiteLeft <==> r.whiteLeft || 'Q' in text)
            && (q.blackRight <==> r.blackRight || 'k' in text)
            && (q.blackLeft <==> r.blackLeft || 'q' in text)
    decreases |text|
  {
    if text != [] {
      ApplyCastlingSpec(CastleStep(r, text[0]), text[1..]);
      assert text == [text[0]] + text[1..];
    }
  }

  /** Whatever the castling field says, FromFEN's flags are all set. */
  lemma DecodeKeepsAllRights(fen: string)
    requires Decodable(fen)
    ensures Decode(fen).rights == AllRights
  {
    ApplyCastlingSpec(AllRights, Split(fen, ' ')[2]);
  }

  // ---------------------------------------------------------------- reading the placement field

  /** Each decoded square holds the piece named by the character at its file index in its rank
      text (NoPiece for a digit or past the end), and at most one plane is set. */
  lemma DecodeGridSpec(rows: seq<string>, a: int, b: int)
    requires |rows| >= 8 && OnBoard(a, b)
    ensures PieceAt(DecodeGrid(rows), a, b)
              == (if a < |rows[7 - b]| then PieceByNotation(rows[7 - b][a]) else NoPiece)
    ensures DecodeGrid(rows)[a][b] == Single(PieceAt(DecodeGrid(rows), a, b))
  {
    var p := if a < |rows[7 - b]| then PieceByNotation(rows[7 - b][a]) else NoPiece;
    FirstSetSingle(p, 0);
  }

  /** A digit in a rank text is not expanded: in "4k3" the king lands on file 1, not file 4. */
  lemma DigitsNotExpanded()
    ensures var g := DecodeGrid(["4k3", "8", "8", "8", "8", "8", "8", "4K3"]);
            && PieceAt(g, 1, 7) == BlackKing && PieceAt(g, 4, 7) == NoPiece
            && PieceAt(g, 0, 7) == NoPiece && PieceAt(g, 1, 0) == WhiteKing
  {
    var rows := ["4k3", "8", "8", "8", "8", "8", "8", "4K3"];
    var g := DecodeGrid(rows);
    DecodeGridSpec(rows, 1, 7);
    assert PieceAt(g, 1, 7) == BlackKing;
    DecodeGridSpec(rows, 4, 7);
    assert PieceAt(g, 4, 7) == NoPiece;
    DecodeGridSpec(rows, 0, 7);
    assert PieceAt(g, 0, 7) == NoPiece;
    DecodeGridSpec(rows, 1, 0);
  }

  // ---------------------------------------------------------------- round trips

  /** Rank texts FromFEN and ToFEN agree on: eight piece letters, or "8" for an empty rank. */
  predicate PlainRank(row: string) {
    row == "8" || (|row| == 8 && forall i :: 0 <= i < 8 ==> IsPieceLetter(row[i]))
  }

  predicate IsSquareName(s: string) {
    |s| == 2 && 'a' <= s[0] <= 'h' && '1' <= s[1] <= '8'
  }

  /** Texts that ToFEN writes back unchanged after FromFEN: plain ranks, an active colour that
      agrees with the turn counter, all four castling letters, a square name or "-", and
      counters in Itoa's form. */
  predicate Canonical(fen: string) {
    var f := Split(fen, ' ');
    && |f| == 6
    && |Split(f[0], '/')| == 8
    && (forall r :: 0 <= r < 8 ==> PlainRank(Split(f[0], '/')[r]))
    && f[1] == SideField(Atoi(f[5]))
    && f[2] == "KQkq"
    && (f[3] == "-" || IsSquareName(f[3]))
    && f[4] == Itoa(Atoi(f[4]))
    && f[5] == Itoa(Atoi(f[5]))
  }

  /** ToFEN writes back each plain rank text FromFEN read. */
  lemma RankFieldOfPlainRank(rows: seq<string>, r: int)
    requires |rows| >= 8 && 0 <= r < 8 && PlainRank(rows[r])
    ensures Ranks(DecodeGrid(rows))[r] == rows[r]
  {
    var g := DecodeGrid(rows);
    var j := 7 - r;
    var row := rows[r];
    var pieces := RankPieces(g, j);
    forall i | 0 <= i < 8
      ensures pieces[i] == if i < |row| then PieceByNotation(row[i]) else NoPiece
    {
      DecodeGridSpec(rows, i, j);
    }
    if row == "8" {
      RleEmpty(pieces, 0);
      ItoaSmall(8);
    } else {
      forall i | 0 <= i < 8 ensures pieces[i] != NoPiece && Notation(pieces[i]) == row[i] {
        NotationRoundTrip(NoPiece, row[i]);
      }
      RleFull(pieces);
    }
  }

  /** The placement field of a canonical text is written back unchanged. */
  lemma EncodeDecodeBoard(fen: string)
    requires Canonical(fen)
    ensures Decodable(fen) && BoardField(Decode(fen).grid) == Split(fen, ' ')[0]
  {
    var f := Split(fen, ' ');
    var rows := Split(f[0], '/');
    assert |rows| == 8 && forall r :: 0 <= r < 8 ==> PlainRank(rows[r]);
    forall r | 0 <= r < 8 ensures |rows[r]| <= 8 {
      assert PlainRank(rows[r]);
    }
    assert Decodable(fen);
    var g := Decode(fen).grid;
    assert g == DecodeGrid(rows);
    BoardFieldRanks(g);
    forall r | 0 <= r < 8 ensures Ranks(g)[r] == rows[r] {
      RankFieldOfPlainRank(rows, r);
    }
    assert Ranks(g) == rows;
    JoinSplit(f[0], '/');
  }

  /** For a canonical text, ToFEN(FromFEN(fen)) == fen. */
  lemma EncodeDecode(fen: string)
    requires Canonical(fen)
    ensures Decodable(fen) && Encode(Decode(fen)) == fen
  {
    EncodeDecodeBoard(fen);
    EncodeDecodeFields(fen);
    FieldsAre(Decode(fen), Split(fen, ' '));
    JoinSplit(fen, ' ');
  }

  /** ToFEN writes back the last five fields of a canonical text FromFEN read. */
  lemma EncodeDecodeFields(fen: string)
    requires Canonical(fen) && Decodable(fen)
    ensures var p, f := Decode(fen), Split(fen, ' ');
            && SideField(p.turn) == f[1] && CastleField(p.rights) == f[2] && EpField(p.enPassant) == f[3]
            && Itoa(p.halfmove) == f[4] && Itoa(p.turn) == f[5]
  {
    var f := Split(fen, ' ');
    DecodeKeepsAllRights(fen);
    if f[3] != "-" {
      AlgebraRoundTripConverse(f[3]);
    }
  }

  lemma FieldsAre(p: Position, f: seq<string>)
    requires Encodable(p) && |f| == 6
    requires BoardField(p.grid) == f[0] && SideField(p.turn) == f[1] && CastleField(p.rights) == f[2]
    requires EpField(p.enPassant) == f[3] && Itoa(p.halfmove) == f[4] && Itoa(p.turn) == f[5]
    ensures Fields(p) == f
  {
  }

  predicate FullRank(g: Grid, j: int)
    requires Shaped(g) && 0 <= j < 8
  {
    forall i :: 0 <= i < 8 ==> PieceAt(g, i, j) != NoPiece
  }

  predicate EmptyRank(g: Grid, j: int)
    requires Shaped(g) && 0 <= j < 8
  {
    forall i :: 0 <= i < 8 ==> PieceAt(g, i, j) == NoPiece
  }

  /** Ranks ToFEN and FromFEN agree on: full ranks and empty ranks. */
  predicate PlainRanks(g: Grid)
    requires Shaped(g)
  {
    forall j :: 0 <= j < 8 ==> FullRank(g, j) || EmptyRank(g, j)
  }

  /** An en-passant value ToFEN writes as "-" or as a square name. */
  predicate EpWritable(ep: seq<int>)
    requires |ep| >= 2
  {
    ep[0] == -1 || ep[1] == -1 || OnBoard(ep[0], ep[1])
  }

  lemma ItoaNoSpace(n: int)
    ensures ' ' !in Itoa(n)
  {
    if n < 0 {
      NatToDecimalDigits(-n);
      assert forall k :: 1 <= k < |Itoa(n)| ==> Itoa(n)[k] == NatToDecimal(-n)[k - 1];
    } else {
      NatToDecimalDigits(n);
    }
  }

  /** A character that is neither the separator nor in any part is not in the joined text. */
  lemma {:induction false} JoinNoSeparatorChar(parts: seq<string>, sep: char, c: char)
    requires |parts| >= 1 && c != sep
    requires forall i :: 0 <= i < |parts| ==> c !in parts[i]
    ensures c !in Join(parts, sep)
  {
    if |parts| > 1 {
      JoinNoSeparatorChar(parts[1..], sep, c);
    }
  }

  /** No field ToFEN writes holds a space. */
  lemma FieldsNoSpace(p: Position)
    requires Encodable(p) && EpWritable(p.enPassant)
    ensures forall i :: 0 <= i < 6 ==> ' ' !in Fields(p)[i]
  {
    var b, s, c, e := BoardField(p.grid), SideField(p.turn), CastleField(p.rights), EpField(p.enPassant);
    BoardFieldRanks(p.grid);
    RanksNoSeparator(p.grid);
    JoinNoSeparatorChar(Ranks(p.grid), '/', ' ');
    assert ' ' !in b;
    assert s == "w" || s == "b";
    CastleFieldDash(p.rights);
    if !(p.enPassant[0] == -1 || p.enPassant[1] == -1) {
      RowColToAlgebraShape(p.enPassant[0], p.enPassant[1]);
    }
    assert ' ' !in e;
    ItoaNoSpace(p.halfmove);
    ItoaNoSpace(p.turn);
    NoSeparatorSix(b, s, c, e, Itoa(p.halfmove), Itoa(p.turn), ' ');
  }

  /** Splitting ToFEN's text at spaces gives its six fields back. */
  lemma SplitEncode(p: Position)
    requires Encodable(p) && EpWritable(p.enPassant)
    ensures Split(Encode(p), ' ') == Fields(p)
  {
    FieldsNoSpace(p);
    SplitJoin(Fields(p), ' ');
  }

  /** With at most one piece per square, a square's planes are those of the piece it reports. */
  lemma SquareIsSingle(g: Grid, x: int, y: int)
    requires Shaped(g) && OnBoard(x, y) && OnePiecePerSquare(g)
    ensures g[x][y] == Single(PieceAt(g, x, y))
  {
    PieceAtSpec(g, x, y);
    var p := PieceAt(g, x, y);
    forall k | 0 <= k < 12 ensures g[x][y][k] == Single(p)[k] {
      if p != NoPiece && p as int < k {
        assert !(g[x][y][p] && g[x][y][k]);
      }
    }
  }

  lemma FullRankField(g: Grid, j: int)
    requires Shaped(g) && 0 <= j < 8 && FullRank(g, j)
    ensures RankField(g, j) == seq(8, i requires 0 <= i < 8 => Notation(PieceAt(g, i, j)))
  {
    RleFull(RankPieces(g, j));
  }

  lemma EmptyRankField(g: Grid, j: int)
    requires Shaped(g) && 0 <= j < 8 && EmptyRank(g, j)
    ensures RankField(g, j) == "8"
  {
    RleEmpty(RankPieces(g, j), 0);
    ItoaSmall(8);
  }

  /** The squares of a full or empty rank are read back from ToFEN's rank text. */
  lemma DecodeRankField(g: Grid, j: int)
    requires Shaped(g) && OnePiecePerSquare(g) && 0 <= j < 8 && (FullRank(g, j) || EmptyRank(g, j))
    ensures |RankField(g, j)| <= 8
    ensures forall a :: 0 <= a < 8 ==> CellOfRow(RankField(g, j), a) == g[a][j]
  {
    if FullRank(g, j) {
      FullRankField(g, j);
    } else {
      EmptyRankField(g, j);
    }
    forall a | 0 <= a < 8 ensures CellOfRow(RankField(g, j), a) == g[a][j] {
      SquareIsSingle(g, a, j);
      if FullRank(g, j) {
        NotationRoundTrip(PieceAt(g, a, j), ' ');
      }
    }
  }

  /** Reading back the rank fields, rank 7 first, gives the grid again when every rank is full
      or empty. */
  lemma DecodeRanks(g: Grid)
    requires Shaped(g) && OnePiecePerSquare(g) && PlainRanks(g)
    ensures forall r :: 0 <= r < 8 ==> |Ranks(g)[r]| <= 8
    ensures DecodeGrid(Ranks(g)) == g
  {
    forall r | 0 <= r < 8 ensures |Ranks(g)[r]| <= 8 {
      DecodeRankField(g, 7 - r);
    }
    forall a, b | OnBoard(a, b) ensures DecodeGrid(Ranks(g))[a][b] == g[a][b] {
      DecodeSquare(g, a, b);
    }
    Ext(DecodeGrid(Ranks(g)), g);
  }

  lemma DecodeSquare(g: Grid, a: int, b: int)
    requires Shaped(g) && OnePiecePerSquare(g) && PlainRanks(g) && OnBoard(a, b)
    ensures DecodeGrid(Ranks(g))[a][b] == g[a][b]
  {
    var rows := Ranks(g);
    assert rows[7 - b] == RankField(g, b);
    DecodeRankField(g, b);
    assert DecodeGrid(rows)[a][b] == CellOfRow(rows[7 - b], a);
  }

  /** FromFEN reads back the grid ToFEN wrote, when every rank is full or empty. */
  lemma DecodeEncodeGrid(p: Position)
    requires Encodable(p) && EpWritable(p.enPassant) && OnePiecePerSquare(p.grid) && PlainRanks(p.grid)
    ensures Decodable(Encode(p)) && Decode(Encode(p)).grid == p.grid
  {
    SplitEncode(p);
    BoardFieldRanks(p.grid);
    DecodeRanks(p.grid);
    var f := Split(Encode(p), ' ');
    assert Split(f[0], '/') == Ranks(p.grid);
    assert Decodable(Encode(p));
  }

  /** FromFEN(ToFEN(position)) gives the position back when its ranks are full or empty and its
      squares hold one piece each, except what the two directions do not carry: the castling
      flags come back all set, the active colour comes back from the turn counter, and an
      en-passant value with a -1 comes back as (-1, -1). */
  lemma DecodeEncode(p: Position)
    requires Encodable(p) && EpWritable(p.enPassant) && OnePiecePerSquare(p.grid) && PlainRanks(p.grid)
    ensures Decodable(Encode(p))
    ensures Decode(Encode(p)) == p.(rights := AllRights, whitesTurn := GoRem(p.turn, 2) == 1,
                                    enPassant := if p.enPassant[0] == -1 || p.enPassant[1] == -1 then [-1, -1]
                                                 else p.enPassant[..2])
  {
    DecodeEncodeGrid(p);
    DecodeEncodeCounters(p);
    DecodeEncodeEp(p);
  }

  /** The castling flags come back all set; the counters and the turn-derived colour come back. */
  lemma DecodeEncodeCounters(p: Position)
    requires Encodable(p) && EpWritable(p.enPassant)
    ensures Split(Encode(p), ' ') == Fields(p)
    ensures var f := Split(Encode(p), ' ');
            ApplyCastling(AllRights, f[2]) == AllRights && (f[1] == "w") == (GoRem(p.turn, 2) == 1)
            && Atoi(f[4]) == p.halfmove && Atoi(f[5]) == p.turn
  {
    SplitEncode(p);
    ApplyCastlingSpec(AllRights, CastleField(p.rights));
    AtoiItoa(p.halfmove);
    AtoiItoa(p.turn);
  }

  /** The en-passant field reads back as the square it names, or (-1, -1) for "-". */
  lemma DecodeEncodeEp(p: Position)
    requires Encodable(p) && EpWritable(p.enPassant)
    ensures var e := EpField(p.enPassant);
            (e == "-" || |e| >= 2)
            && DecodeEp(e) == if p.enPassant[0] == -1 || p.enPassant[1] == -1 then [-1, -1] else p.enPassant[..2]
  {
    if !(p.enPassant[0] == -1 || p.enPassant[1] == -1) {
      AlgebraRoundTrip(p.enPassant[0], p.enPassant[1]);
      RowColToAlgebraShape(p.enPassant[0], p.enPassant[1]);
    }
  }

  // ---------------------------------------------------------------- the start position

  /** The start position's ranks, rank 7 first. */
  const StartRows: seq<string> := ["rnbqkbnr", "pppppppp", "8", "8", "8", "8", "PPPPPPPP", "RNBQKBNR"]

  const StartParts: seq<string> := [Join(StartRows, '/'), "w", "KQkq", "-", "0", "1"]

  /** GetStartBoard's text, "rnbqkbnr/pppppppp/8/8/8/8/PPPPPPPP/RNBQKBNR w KQkq - 0 1". */
  const StartFen: string := Join(StartParts, ' ')

  /** The start placement's upper and lower halves, and the whole, spelled out. Each is
      stated about a text equal to a join of literal parts, so that each comparison of texts
      is checked on its own. */
  lemma UpperRanksSpelled(x: string)
    requires x == "rnbqkbnr" + "/" + "pppppppp" + "/" + "8" + "/" + "8"
    ensures x == "rnbqkbnr/pppppppp/8/8"
  {
  }

  lemma LowerRanksSpelled(x: string)
    requires x == "8" + "/" + "8" + "/" + "PPPPPPPP" + "/" + "RNBQKBNR"
    ensures x == "8/8/PPPPPPPP/RNBQKBNR"
  {
  }

  lemma PlacementSpelled(x: string, y: string)
    requires x == "rnbqkbnr/pppppppp/8/8" && y == "8/8/PPPPPPPP/RNBQKBNR"
    ensures x + "/" + y == "rnbqkbnr/pppppppp/8/8/8/8/PPPPPPPP/RNBQKBNR"
  {
  }

  lemma StartPlacementLiteral()
    ensures StartParts[0] == "rnbqkbnr/pppppppp/8/8/8/8/PPPPPPPP/RNBQKBNR"
  {
    var upper, lower := StartRows[..4], StartRows[4..];
    assert StartRows == upper + lower;
    JoinAppend(upper, lower, '/');
    JoinFour("rnbqkbnr", "pppppppp", "8", "8", '/');
    assert upper == ["rnbqkbnr", "pppppppp", "8", "8"];
    UpperRanksSpelled(Join(upper, '/'));
    JoinFour("8", "8", "PPPPPPPP", "RNBQKBNR", '/');
    assert lower == ["8", "8", "PPPPPPPP", "RNBQKBNR"];
    LowerRanksSpelled(Join(lower, '/'));
    PlacementSpelled(Join(upper, '/'), Join(lower, '/'));
  }

  lemma LaterFieldsSpelled(x: string, y: string)
    requires x == "w" + " " + "KQkq" && y == "-" + " " + "0" + " " + "1"
    ensures x + " " + y == "w KQkq - 0 1"
  {
  }

  lemma StartFenSpelled(x: string, y: string)
    requires x == "rnbqkbnr/pppppppp/8/8/8/8/PPPPPPPP/RNBQKBNR" && y == "w KQkq - 0 1"
    ensures x + " " + y == "rnbqkbnr/pppppppp/8/8/8/8/PPPPPPPP/RNBQKBNR w KQkq - 0 1"
  {
  }

  lemma LaterFieldsLiteral(parts: seq<string>)
    requires parts == ["w", "KQkq", "-", "0", "1"]
    ensures Join(parts, ' ') == "w KQkq - 0 1"
  {
    var side, counters := parts[..2], parts[2..];
    assert parts == side + counters;
    JoinAppend(side, counters, ' ');
    assert side[1..] == ["KQkq"];
    assert counters[1..] == ["0", "1"] && counters[2..] == ["1"];
    assert Join(counters[1..], ' ') == "0" + " " + "1";
    LaterFieldsSpelled(Join(side, ' '), Join(counters, ' '));
  }

  /** GetStartBoard's text is the standard start position. */
  lemma StartFenLiteral()
    ensures StartFen == "rnbqkbnr/pppppppp/8/8/8/8/PPPPPPPP/RNBQKBNR w KQkq - 0 1"
  {
    var placement, later := StartParts[..1], StartParts[1..];
    assert StartParts == placement + later;
    JoinAppend(placement, later, ' ');
    StartPlacementLiteral();
    LaterFieldsLiteral(later);
    StartFenSpelled(Join(placement, ' '), Join(later, ' '));
  }

  lemma SplitStartRows()
    ensures Split(StartParts[0], '/') == StartRows
  {
    assert forall i :: 0 <= i < 8 ==> '/' !in StartRows[i];
    SplitJoin(StartRows, '/');
  }

  lemma SplitStartParts()
    ensures Split(StartFen, ' ') == StartParts
  {
    assert forall i :: 0 <= i < 8 ==> ' ' !in StartRows[i];
    JoinNoSeparatorChar(StartRows, '/', ' ');
    NoSeparatorSix(Join(StartRows, '/'), "w", "KQkq", "-", "0", "1", ' ');
    SplitJoin(StartParts, ' ');
  }

  lemma StartRowsPlain()
    ensures forall r :: 0 <= r < 8 ==> PlainRank(StartRows[r])
  {
    assert PlainRank(StartRows[0]) && PlainRank(StartRows[1]);
    assert PlainRank(StartRows[6]) && PlainRank(StartRows[7]);
  }

  lemma StartCounters()
    ensures Atoi("1") == 1 && Atoi("0") == 0 && Itoa(1) == "1" && Itoa(0) == "0"
  {
    assert "1"[..0] == [] && "0"[..0] == [];
    ItoaSmall(0);
    ItoaSmall(1);
  }

  /** ToFEN(FromFEN(s)) == s for the start position's text. */
  lemma StartRoundTrip()
    ensures Canonical(StartFen) && Decodable(StartFen)
    ensures Encode(Decode(StartFen)) == StartFen
  {
    SplitStartParts();
    SplitStartRows();
    StartRowsPlain();
    StartCounters();
    var f := Split(StartFen, ' ');
    assert f[1] == "w" && f[2] == "KQkq" && f[3] == "-" && f[4] == "0" && f[5] == "1";
    assert f[1] == SideField(Atoi(f[5]));
    assert Canonical(StartFen);
    EncodeDecode(StartFen);
  }
}
