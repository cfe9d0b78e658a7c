/** The game field of main.py and the per-cell operations on it: building an
    empty field, translating a typed move number into a cell, validating a
    move, the draw test and the change of turn. */
module Board {

  /** The content of a cell nobody has played yet (`EMPTY_CELL`). */
  const EMPTY_CELL: char := '_'

  /** The field as a list of rows; the board size is the number of rows. */
  type Grid = seq<seq<char>>

  /** A cell coordinate, (row, column), that is (`coord_y`, `coord_x`). */
  type Coord = (int, int)

  predicate IsSquare(g: Grid) {
    forall y :: 0 <= y < |g| ==> |g[y]| == |g|
  }

  /** The two marks a player can put on the field. */
  predicate IsMark(c: char) {
    c == 'X' || c == 'O'
  }

  predicate InBounds(size: int, rc: Coord) {
    0 <= rc.0 < size && 0 <= rc.1 < size
  }

  /** Every cell is empty or holds a player's mark. */
  predicate WellFormed(g: Grid) {
    IsSquare(g) &&
    forall y, x :: 0 <= y < |g| && 0 <= x < |g| ==> g[y][x] == EMPTY_CELL || IsMark(g[y][x])
  }

  function CellOf(g: Grid, rc: Coord): char
    requires IsSquare(g) && InBounds(|g|, rc)
  {
    g[rc.0][rc.1]
  }

  /** Two square grids of one size with the same cells are equal. */
  lemma GridExtensionality(a: Grid, b: Grid)
    requires IsSquare(a) && IsSquare(b) && |a| == |b|
    requires forall y, x :: 0 <= y < |a| && 0 <= x < |a| ==> a[y][x] == b[y][x]
    ensures a == b
  {
    forall y | 0 <= y < |a|
      ensures a[y] == b[y]
    {
      assert forall x :: 0 <= x < |a| ==> a[y][x] == b[y][x];
    }
  }

  /** `init_field`: `size` rows of `size` cells, each row its own list. */
  function InitField(size: nat, empty: char): (g: Grid)
    ensures |g| == size && IsSquare(g)
    ensures forall y, x :: 0 <= y < size && 0 <= x < size ==> g[y][x] == empty
  {
    seq(size, _ => seq(size, _ => empty))
  }

  /** `field[coord_y][coord_x] = player`: exactly one cell changes. */
  function Place(g: Grid, rc: Coord, mark: char): (h: Grid)
    requires IsSquare(g) && InBounds(|g|, rc)
    ensures |h| == |g| && IsSquare(h)
    ensures h[rc.0][rc.1] == mark
    ensures forall y, x :: 0 <= y < |g| && 0 <= x < |g| && (y, x) != rc ==> h[y][x] == g[y][x]
  {
    g[rc.0 := g[rc.0][rc.1 := mark]]
  }

  /** `change_player`: 'X' becomes 'O', anything else becomes 'X'. */
  function ChangePlayer(player: char): (next: char)
    ensures IsMark(next) && next != player
  {
    if player == 'X' then 'O' else 'X'
  }

  /** On the two marks, changing the player twice gives the player back. */
  lemma ChangePlayerInvolution(player: char)
    requires IsMark(player)
    ensures ChangePlayer(ChangePlayer(player)) == player
  {
  }

  // ---------------------------------------------------------------------
  // Move numbers

  /** `str.isdigit` restricted to ASCII: non-empty and every character a digit. */
  predicate IsDigits(s: string) {
    |s| > 0 && forall i :: 0 <= i < |s| ==> '0' <= s[i] <= '9'
  }

  /** `int(s)` of a digit string, read in base 10 (leading zeros allowed). */
  function DecimalValue(s: string): nat
    requires forall i :: 0 <= i < |s| ==> '0' <= s[i] <= '9'
  {
    if |s| == 0 then 0
    else 10 * DecimalValue(s[..|s| - 1]) + (s[|s| - 1] as int - '0' as int)
  }

  /** The digits of a number the board shows, without the padding of the display. */
  function ShowNumber(n: nat): (s: string)
    ensures IsDigits(s)
    decreases n
  {
    if n < 10 then [('0' as int + n) as char]
    else ShowNumber(n / 10) + [('0' as int + n % 10) as char]
  }

  /** Reading back the printed decimal text of a number gives the number. */
  lemma {:induction false} DecimalValueOfShowNumber(n: nat)
    ensures DecimalValue(ShowNumber(n)) == n
    decreases n
  {
    var s := ShowNumber(n);
    if n >= 10 {
      DecimalValueOfShowNumber(n / 10);
      assert s[..|s| - 1] == ShowNumber(n / 10);
    }
  }

  /** The coordinates `player_move` computes from a move number before its
      range check, with Python's floor division and remainder (`move` is
      never negative here). */
  function MoveToCoords(move: nat, size: nat): Coord
    requires size >= 1
  {
    var coordY := move / size;
    if move > 0 && move % size == 0 then (coordY - 1, size - 1)
    else (coordY, move % size - 1)
  }

  /** The number printed for cell (i, j) in the numbered view of the board. */
  function DisplayIndex(i: int, j: int, size: int): int {
    i * size + (j + 1)
  }

  predicate MoveInRange(move: int, size: int) {
    1 <= move <= size * size
  }

  lemma DivModUnique(a: int, b: int, q: int, r: int)
    requires 0 < b && 0 <= r < b && a == q * b + r
    ensures a / b == q && a % b == r
  {
    var q', r' := a / b, a % b;
    assert (q - q') * b == r' - r;
    if q > q' {
      assert (q - q') * b >= b by { MulAtLeast(q - q', b); }
    } else if q < q' {
      assert (q' - q) * b >= b by { MulAtLeast(q' - q, b); }
    }
  }

  lemma MulAtLeast(d: int, b: int)
    requires d >= 1 && b > 0
    ensures d * b >= b
  {
    assert d * b == (d - 1) * b + b;
    assert (d - 1) * b >= 0;
  }

  /** For a positive move number the computed cell is
      ((move-1) / size, (move-1) % size): the special case for a remainder of
      0 is the wrap to the last column of the previous row. */
  lemma MoveToCoordsFormula(move: nat, size: nat)
    requires size >= 1 && move >= 1
    ensures MoveToCoords(move, size) == ((move - 1) / size, (move - 1) % size)
  {
    var q, r := move / size, move % size;
    assert move == q * size + r;
    if r == 0 {
      assert move - 1 == (q - 1) * size + (size - 1);
      DivModUnique(move - 1, size, q - 1, size - 1);
    } else {
      DivModUnique(move - 1, size, q, r - 1);
    }
  }

  lemma RowBelowSize(m: int, size: nat)
    requires size >= 1 && 0 <= m < size * size
    ensures m / size < size
  {
    if m / size >= size {
      MulMono(size, m / size, size);
      assert false;
    }
  }

  /** For a move in range the computed cell is ((move-1) / size, (move-1) % size),
      so it lies on the board. */
  lemma MoveToCoordsInRange(move: nat, size: nat)
    requires size >= 1 && MoveInRange(move, size)
    ensures MoveToCoords(move, size) == ((move - 1) / size, (move - 1) % size)
    ensures InBounds(size, MoveToCoords(move, size))
  {
    MoveToCoordsFormula(move, size);
    RowBelowSize(move - 1, size);
    var m := move - 1;
    assert 0 <= m / size < size && 0 <= m % size < size;
  }

  lemma MulMono(a: int, b: int, c: int)
    requires a <= b && c >= 0
    ensures a * c <= b * c
  {
    assert b * c - a * c == (b - a) * c;
  }

  /** The numbered view shows every cell a number in range that the move
      translation turns back into that very cell. */
  lemma {:induction false} DisplayIndexInverse(i: int, j: int, size: nat)
    requires InBounds(size, (i, j))
    ensures MoveInRange(DisplayIndex(i, j, size), size)
    ensures MoveToCoords(DisplayIndex(i, j, size), size) == (i, j)
  {
    var m := DisplayIndex(i, j, size);
    assert i * size <= (size - 1) * size by { MulMono(i, size - 1, size); }
    assert MoveInRange(m, size);
    DivModUnique(m - 1, size, i, j);
    MoveToCoordsInRange(m, size);
  }

  /** Every move number in range is the number displayed on the cell it
      resolves to. */
  lemma {:induction false} CoordsInverse(move: nat, size: nat)
    requires size >= 1 && MoveInRange(move, size)
    ensures var rc := MoveToCoords(move, size); DisplayIndex(rc.0, rc.1, size) == move
  {
    MoveToCoordsInRange(move, size);
  }

  // ---------------------------------------------------------------------
  // Move validation

  /** Why `player_move` asks again for a move. */
  datatype MoveError = NotANumber | OutOfRange | CellOccupied

  datatype Checked = Accepted(cell: Coord) | Rejected(error: MoveError)

  /** The checks `player_move` makes on one typed token, in its order: the
      token must be digits, the number must be in [1, size*size], and the
      target cell must hold neither 'X' nor 'O'. */
  function ValidateMove(token: string, g: Grid): (r: Checked)
    requires IsSquare(g) && |g| >= 1
    ensures r.Accepted? ==> InBounds(|g|, r.cell) && !IsMark(CellOf(g, r.cell))
  {
    if !IsDigits(token) then Rejected(NotANumber)
    else
      var move := DecimalValue(token);
      if move <= 0 || move > |g| * |g| then Rejected(OutOfRange)
      else
        MoveToCoordsInRange(move, |g|);
        var rc := MoveToCoords(move, |g|);
        if IsMark(CellOf(g, rc)) then Rejected(CellOccupied)
        else Accepted(rc)
  }

  /** What each verdict of the move check means: not digits, out of
      [1, size*size], an occupied target cell, or the accepted cell, which is
      row (move-1) / size and column (move-1) % size. */
  lemma ValidateMoveMeaning(token: string, g: Grid)
    requires IsSquare(g) && |g| >= 1
    ensures var r := ValidateMove(token, g);
            (r == Rejected(NotANumber) <==> !IsDigits(token)) &&
            (r == Rejected(OutOfRange) <==> IsDigits(token) && !MoveInRange(DecimalValue(token), |g|)) &&
            (r.Accepted? ==>
               IsDigits(token) && MoveInRange(DecimalValue(token), |g|) &&
               r.cell == ((DecimalValue(token) - 1) / |g|, (DecimalValue(token) - 1) % |g|)) &&
            (r == Rejected(CellOccupied) ==>
               IsDigits(token) && MoveInRange(DecimalValue(token), |g|) &&
               var rc := ((DecimalValue(token) - 1) / |g|, (DecimalValue(token) - 1) % |g|);
               InBounds(|g|, rc) && IsMark(CellOf(g, rc)))
  {
    if IsDigits(token) && MoveInRange(DecimalValue(token), |g|) {
      MoveToCoordsInRange(DecimalValue(token), |g|);
    }
  }

  /** Typing the number the board shows on an empty cell places the mark
      there. */
  lemma DisplayedMoveAccepted(g: Grid, rc: Coord)
    requires IsSquare(g) && |g| >= 1 && InBounds(|g|, rc) && !IsMark(CellOf(g, rc))
    ensures ValidateMove(ShowNumber(DisplayIndex(rc.0, rc.1, |g|)), g) == Accepted(rc)
  {
    var m := DisplayIndex(rc.0, rc.1, |g|);
    var token := ShowNumber(m);
    DecimalValueOfShowNumber(m);
    DisplayIndexInverse(rc.0, rc.1, |g|);
    assert IsDigits(token) && DecimalValue(token) == m && MoveInRange(m, |g|);
    assert MoveToCoords(m, |g|) == rc;
  }

  // ---------------------------------------------------------------------
  // Draw

  /** `is_draw`: no cell is left empty. */
  predicate IsDraw(g: Grid)
    requires IsSquare(g)
  {
    forall y, x :: 0 <= y < |g| && 0 <= x < |g| ==> g[y][x] != EMPTY_CELL
  }
}
