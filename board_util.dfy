/** Algebraic square names (file letter then rank digit, "a1" .. "h8") and their
    0-based (file, rank) coordinates. The Go code calls the file "row" and the rank "col". */
module Algebra {
  import opened Text

  /** string(rune(n)): the character with code n, or U+FFFD when n is not a Unicode scalar value. */
  function RuneChar(n: int): (c: char)
    ensures (0 <= n < 0xD800 || 0xE000 <= n < 0x11_0000) ==> c as int == n
  {
    if 0 <= n < 0xD800 || 0xE000 <= n < 0x11_0000 then n as char else '�'
  }

  /** RowColToAlgebra: the letter 'a' + row followed by the decimal text of col + 1. */
  function RowColToAlgebra(row: int, col: int): string {
    [RuneChar('a' as int + row)] + Itoa(col + 1)
  }

  /** AlgebraToRowCol: only the first two characters are read: the letter's offset from 'a',
      and the second character read as a number (0 when it is not a digit, as Atoi fails) minus one.
      Shorter input makes the Go code index out of range. */
  function AlgebraToRowCol(c: string): seq<int>
    requires |c| >= 2
  {
    [c[0] as int - 'a' as int, Atoi([c[1]]) - 1]
  }

  /** On the board, a square name is exactly two characters: the file letter, then the rank digit. */
  lemma RowColToAlgebraShape(row: int, col: int)
    requires 0 <= row < 8 && 0 <= col < 8
    ensures var s := RowColToAlgebra(row, col);
            |s| == 2 && 'a' <= s[0] <= 'h' && s[0] as int == 'a' as int + row
            && '1' <= s[1] <= '8' && s[1] as int == '1' as int + col
  {
    ItoaSmall(col + 1);
  }

  /** The result always has two entries, whatever follows the second character. */
  lemma AlgebraToRowColReadsTwo(c: string)
    requires |c| >= 2
    ensures |AlgebraToRowCol(c)| == 2 && AlgebraToRowCol(c) == AlgebraToRowCol(c[..2])
  {
  }

  /** Coordinates to name and back. */
  lemma AlgebraRoundTrip(row: int, col: int)
    requires 0 <= row < 8 && 0 <= col < 8
    ensures |RowColToAlgebra(row, col)| >= 2
    ensures AlgebraToRowCol(RowColToAlgebra(row, col)) == [row, col]
  {
    RowColToAlgebraShape(row, col);
    var s := RowColToAlgebra(row, col);
    assert [s[1]][1..] == [];
    assert DigitsValue([s[1]]) == col + 1 by {
      assert [s[1]][..0] == [];
    }
  }

  /** Name to coordinates and back, for every square name a1 .. h8. */
  lemma AlgebraRoundTripConverse(s: string)
    requires |s| == 2 && 'a' <= s[0] <= 'h' && '1' <= s[1] <= '8'
    ensures var rc := AlgebraToRowCol(s);
            0 <= rc[0] < 8 && 0 <= rc[1] < 8 && RowColToAlgebra(rc[0], rc[1]) == s
  {
    assert DigitsValue([s[1]]) == s[1] as int - '0' as int by {
      assert [s[1]][..0] == [];
    }
    var rc := AlgebraToRowCol(s);
    RowColToAlgebraShape(rc[0], rc[1]);
  }

  lemma CornerNames()
    ensures RowColToAlgebra(0, 0) == "a1" && RowColToAlgebra(7, 7) == "h8"
    ensures AlgebraToRowCol("a1") == [0, 0] && AlgebraToRowCol("h8") == [7, 7]
  {
    AlgebraRoundTrip(0, 0);
    AlgebraRoundTrip(7, 7);
    RowColToAlgebraShape(0, 0);
    RowColToAlgebraShape(7, 7);
  }
}
