/** `is_win`: the lines it scans, the substring test it applies to each, and
    the equivalence with "L equal marks in a row in one of four directions". */
module WinDetection {
  import opened Board

  /** The length of a winning run: the board size, capped at 5. */
  function WinLength(size: nat): nat {
    if size <= 5 then size else 5
  }

  /** `player * n`. */
  function Repeat(c: char, n: nat): (s: seq<char>)
    ensures |s| == n && forall i :: 0 <= i < n ==> s[i] == c
  {
    seq(n, _ => c)
  }

  /** `pat` occurs in `line` starting at position `k`. */
  predicate OccursAt(line: seq<char>, pat: seq<char>, k: int) {
    0 <= k && k + |pat| <= |line| && line[k..k + |pat|] == pat
  }

  /** Python's `pat in line` on strings: substring containment. */
  predicate Contains(line: seq<char>, pat: seq<char>) {
    exists k :: 0 <= k <= |line| - |pat| && OccursAt(line, pat, k)
  }

  // ---------------------------------------------------------------------
  // The six sweeps of is_win

  /** The six loops of `is_win`, in the order they run: rows, columns, the
      upper and lower halves of the '/' diagonals, and the upper and lower
      halves of the '\' diagonals. */
  datatype Sweep = Rows | Columns | AntiUpper | AntiLower | DiagUpper | DiagLower

  /** The loop index `i` (or `y`, `x`) each sweep runs over: `range(size)`,
      or `range(size - 1, 0, -1)` for the two lower halves. */
  predicate SweepIndex(s: Sweep, size: int, i: int) {
    match s
    case AntiLower | DiagLower => 0 < i < size
    case _ => 0 <= i < size
  }

  /** The number of cells line `i` of a sweep joins. */
  function LineLength(s: Sweep, size: int, i: int): int {
    match s
    case Rows | Columns => size
    case AntiUpper | DiagUpper => i + 1
    case AntiLower | DiagLower => i
  }

  /** The cell the `j`-th character of line `i` reads, exactly as the list
      comprehensions of `is_win` index the field. */
  function SweepCell(s: Sweep, size: int, i: int, j: int): Coord {
    match s
    case Rows => (i, j)
    case Columns => (j, i)
    case AntiUpper => (i - j, j)
    case AntiLower => ((size - 1) - j, size - i + j)
    case DiagUpper => (j, (size - 1) - i + j)
    case DiagLower => (size - i + j, j)
  }

  /** Every sweep reads only cells of the board. */
  lemma SweepCellInBounds(s: Sweep, size: int, i: int, j: int)
    requires SweepIndex(s, size, i) && 0 <= j < LineLength(s, size, i)
    ensures InBounds(size, SweepCell(s, size, i, j))
  {
  }

  /** The string `''.join(...)` builds for line `i` of sweep `s`. */
  function Line(g: Grid, s: Sweep, i: int): (line: seq<char>)
    requires IsSquare(g) && SweepIndex(s, |g|, i)
    ensures |line| == LineLength(s, |g|, i)
  {
    seq(LineLength(s, |g|, i), j requires 0 <= j < LineLength(s, |g|, i) =>
      SweepCellInBounds(s, |g|, i, j);
      CellOf(g, SweepCell(s, |g|, i, j)))
  }

  /** Some line of sweep `s` contains `pat`. */
  predicate SweepFinds(g: Grid, s: Sweep, pat: seq<char>)
    requires IsSquare(g)
  {
    exists i :: 0 <= i < |g| && SweepIndex(s, |g|, i) && Contains(Line(g, s, i), pat)
  }

  /** `is_win(player, field)`: the run of `WinLength` marks occurs in some
      row, column or diagonal line. */
  predicate IsWin(player: char, g: Grid)
    requires IsSquare(g)
  {
    var winLine := Repeat(player, WinLength(|g|));
    SweepFinds(g, Rows, winLine) || SweepFinds(g, Columns, winLine) ||
    SweepFinds(g, AntiUpper, winLine) || SweepFinds(g, AntiLower, winLine) ||
    SweepFinds(g, DiagUpper, winLine) || SweepFinds(g, DiagLower, winLine)
  }

  // ---------------------------------------------------------------------
  // The geometric view: L marks in a row

  /** The four directions a run can be read in, from its first cell. */
  datatype Direction = Right | Down | DownRight | DownLeft

  /** The cell `t` steps from `start` in direction `d`. */
  function Along(start: Coord, d: Direction, t: int): Coord {
    match d
    case Right => (start.0, start.1 + t)
    case Down => (start.0 + t, start.1)
    case DownRight => (start.0 + t, start.1 + t)
    case DownLeft => (start.0 + t, start.1 - t)
  }

  predicate MarkedAt(g: Grid, rc: Coord, player: char)
    requires IsSquare(g)
  {
    InBounds(|g|, rc) && CellOf(g, rc) == player
  }

  /** The `len` cells from `start` in direction `d` lie on the board and all
      hold `player`. */
  predicate RunFrom(g: Grid, player: char, start: Coord, d: Direction, len: nat)
    requires IsSquare(g)
  {
    InBounds(|g|, start) &&
    forall t :: 0 <= t < len ==> MarkedAt(g, Along(start, d, t), player)
  }

  /** Some start cell and direction give a winning run of `player`. */
  ghost predicate HasWinningRun(player: char, g: Grid)
    requires IsSquare(g)
  {
    exists start, d :: RunFrom(g, player, start, d, WinLength(|g|))
  }

  // ---------------------------------------------------------------------
  // Order and coverage of the sweeps

  /** The direction in which one step along a sweep's line moves: rows go
      right, columns down, '\' lines down-right; '/' lines are read from the
      bottom-left up, so one step along them is one step back down-left. */
  function SweepDirection(s: Sweep): Direction {
    match s
    case Rows => Right
    case Columns => Down
    case DiagUpper | DiagLower => DownRight
    case AntiUpper | AntiLower => DownLeft
  }

  predicate ReadsBackwards(s: Sweep) {
    s == AntiUpper || s == AntiLower
  }

  /** The line position `t` steps along a sweep's line from position `j`:
      forward, or backward for the '/' sweeps. */
  function StepIndex(s: Sweep, j: int, t: int): int {
    if ReadsBackwards(s) then j - t else j + t
  }

  /** Consecutive characters of a line are neighbouring cells along it: the
      cell `t` steps along the line from position j is t steps on in the
      sweep's direction. */
  lemma SweepAlong(s: Sweep, size: int, i: int, j: int, t: int)
    ensures SweepCell(s, size, i, StepIndex(s, j, t)) == Along(SweepCell(s, size, i, j), SweepDirection(s), t)
  {
  }

  /** Every '/' line has one constant row + column, and between them the two
      '/' sweeps cover every cell, so every sum in [0, 2*size - 2]. */
  lemma {:induction false} AntiDiagonalCoverage(size: int, rc: Coord)
    requires InBounds(size, rc)
    ensures exists s, i, j :: (s == AntiUpper || s == AntiLower) && SweepIndex(s, size, i) &&
              0 <= j < LineLength(s, size, i) && SweepCell(s, size, i, j) == rc
  {
    var sum := rc.0 + rc.1;
    if sum < size {
      assert SweepCell(AntiUpper, size, sum, rc.1) == rc;
    } else {
      assert SweepCell(AntiLower, size, 2 * size - 1 - sum, size - 1 - rc.0) == rc;
    }
  }

  /** The two '\' sweeps cover every cell, so every difference
      column - row in [-(size - 1), size - 1]. */
  lemma {:induction false} DiagonalCoverage(size: int, rc: Coord)
    requires InBounds(size, rc)
    ensures exists s, i, j :: (s == DiagUpper || s == DiagLower) && SweepIndex(s, size, i) &&
              0 <= j < LineLength(s, size, i) && SweepCell(s, size, i, j) == rc
  {
    var diff := rc.1 - rc.0;
    if diff >= 0 {
      assert SweepCell(DiagUpper, size, size - 1 - diff, rc.0) == rc;
    } else {
      assert SweepCell(DiagLower, size, size + diff, rc.1) == rc;
    }
  }

  /** Each line's cells share one anti-diagonal or diagonal, and different
      lines of the same sweep lie on different ones, so no line is scanned
      twice. */
  lemma SweepLineInvariant(s: Sweep, size: int, i: int, j: int)
    requires SweepIndex(s, size, i) && 0 <= j < LineLength(s, size, i)
    ensures s == AntiUpper ==> SweepCell(s, size, i, j).0 + SweepCell(s, size, i, j).1 == i
    ensures s == AntiLower ==> SweepCell(s, size, i, j).0 + SweepCell(s, size, i, j).1 == 2 * size - 1 - i
    ensures s == DiagUpper ==> SweepCell(s, size, i, j).1 - SweepCell(s, size, i, j).0 == size - 1 - i
    ensures s == DiagLower ==> SweepCell(s, size, i, j).1 - SweepCell(s, size, i, j).0 == i - size
  {
  }

  // ---------------------------------------------------------------------
  // Equivalence of the scan and the geometric view

  lemma OccursFromCells(line: seq<char>, player: char, len: nat, k: int)
    requires 0 <= k && k + len <= |line|
    requires forall j :: k <= j < k + len ==> line[j] == player
    ensures OccursAt(line, Repeat(player, len), k)
  {
    assert line[k..k + len] == Repeat(player, len);
  }

  lemma CellsFromOccurs(line: seq<char>, player: char, len: nat, k: int)
    requires OccursAt(line, Repeat(player, len), k)
    ensures forall j :: k <= j < k + len ==> line[j] == player
  {
    forall j | k <= j < k + len
      ensures line[j] == player
    {
      assert line[k..k + len][j - k] == line[j];
    }
  }

  /** A match of the win line in line `i` of sweep `s` at position `k` is a
      winning run on the board. */
  lemma {:induction false} RunFromSweepMatch(g: Grid, player: char, s: Sweep, i: int, k: int)
    requires IsSquare(g) && SweepIndex(s, |g|, i) && WinLength(|g|) >= 1
    requires OccursAt(Line(g, s, i), Repeat(player, WinLength(|g|)), k)
    ensures RunFrom(g, player,
                    SweepCell(s, |g|, i, if ReadsBackwards(s) then k + WinLength(|g|) - 1 else k),
                    SweepDirection(s), WinLength(|g|))
  {
    var n, len := |g|, WinLength(|g|);
    var line := Line(g, s, i);
    var j0 := if ReadsBackwards(s) then k + len - 1 else k;
    var start := SweepCell(s, n, i, j0);
    CellsFromOccurs(line, player, len, k);
    SweepCellInBounds(s, n, i, j0);
    forall t | 0 <= t < len
      ensures MarkedAt(g, Along(start, SweepDirection(s), t), player)
    {
      var j := StepIndex(s, j0, t);
      SweepAlong(s, n, i, j0, t);
      SweepCellInBounds(s, n, i, j);
      assert line[j] == player;
    }
  }

  /** A run whose j-th cell is position `k + j` of line `i` of sweep `s`
      (or position `k + len - 1 - j` for a '/' sweep) makes that line match. */
  lemma {:induction false} SweepMatchFromRun(g: Grid, player: char, start: Coord, s: Sweep, i: int, k: int)
    requires IsSquare(g) && SweepIndex(s, |g|, i)
    requires 0 <= k && k + WinLength(|g|) <= LineLength(s, |g|, i)
    requires RunFrom(g, player, start, SweepDirection(s), WinLength(|g|))
    requires SweepCell(s, |g|, i, if ReadsBackwards(s) then k + WinLength(|g|) - 1 else k) == start
    ensures Contains(Line(g, s, i), Repeat(player, WinLength(|g|)))
  {
    var n, len := |g|, WinLength(|g|);
    var line := Line(g, s, i);
    var j0 := if ReadsBackwards(s) then k + len - 1 else k;
    forall j | k <= j < k + len
      ensures line[j] == player
    {
      var t := if ReadsBackwards(s) then j0 - j else j - j0;
      assert StepIndex(s, j0, t) == j;
      SweepAlong(s, n, i, j0, t);
      assert MarkedAt(g, Along(start, SweepDirection(s), t), player);
    }
    OccursFromCells(line, player, len, k);
  }

  lemma RunFromSweepFinds(g: Grid, player: char, s: Sweep)
    requires IsSquare(g) && SweepFinds(g, s, Repeat(player, WinLength(|g|)))
    ensures HasWinningRun(player, g)
  {
    var n, len := |g|, WinLength(|g|);
    var w := Repeat(player, len);
    var i :| 0 <= i < n && SweepIndex(s, n, i) && Contains(Line(g, s, i), w);
    var line := Line(g, s, i);
    var k :| 0 <= k <= |line| - |w| && OccursAt(line, w, k);
    RunFromSweepMatch(g, player, s, i, k);
  }

  /** One line of one sweep holding the win line is a win. */
  lemma SweepLineWins(g: Grid, player: char, s: Sweep, i: int)
    requires IsSquare(g) && 0 <= i < |g| && SweepIndex(s, |g|, i)
    requires Contains(Line(g, s, i), Repeat(player, WinLength(|g|)))
    ensures IsWin(player, g)
  {
    assert SweepFinds(g, s, Repeat(player, WinLength(|g|)));
  }

  /** A winning run along a row or down a column lies in that row or
      column. */
  lemma {:induction false} StraightRunWins(g: Grid, player: char, start: Coord, d: Direction)
    requires IsSquare(g) && (d == Right || d == Down) && RunFrom(g, player, start, d, WinLength(|g|))
    ensures IsWin(player, g)
  {
    var len := WinLength(|g|);
    var r, c := start.0, start.1;
    assert MarkedAt(g, Along(start, d, len - 1), player);
    if d == Right {
      SweepMatchFromRun(g, player, start, Rows, r, c);
      SweepLineWins(g, player, Rows, r);
    } else {
      SweepMatchFromRun(g, player, start, Columns, c, r);
      SweepLineWins(g, player, Columns, c);
    }
  }

  /** A winning run down-right lies in the '\' line of its column - row
      difference, scanned by the upper sweep when that difference is not
      negative and by the lower one otherwise. */
  lemma {:induction false} DiagonalRunWins(g: Grid, player: char, start: Coord)
    requires IsSquare(g) && RunFrom(g, player, start, DownRight, WinLength(|g|))
    ensures IsWin(player, g)
  {
    var n, len := |g|, WinLength(|g|);
    var r, c := start.0, start.1;
    assert MarkedAt(g, Along(start, DownRight, len - 1), player);
    if c >= r {
      SweepMatchFromRun(g, player, start, DiagUpper, n - 1 - (c - r), r);
      SweepLineWins(g, player, DiagUpper, n - 1 - (c - r));
    } else {
      SweepMatchFromRun(g, player, start, DiagLower, n - (r - c), c);
      SweepLineWins(g, player, DiagLower, n - (r - c));
    }
  }

  /** A winning run down-left lies in the '/' line of its row + column sum,
      scanned by the upper sweep when the sum is below the size and by the
      lower one otherwise; the line reads the run from its far end. */
  lemma {:induction false} AntiDiagonalRunWins(g: Grid, player: char, start: Coord)
    requires IsSquare(g) && RunFrom(g, player, start, DownLeft, WinLength(|g|))
    ensures IsWin(player, g)
  {
    var n, len := |g|, WinLength(|g|);
    var r, c := start.0, start.1;
    assert MarkedAt(g, Along(start, DownLeft, len - 1), player);
    if r + c < n {
      SweepMatchFromRun(g, player, start, AntiUpper, r + c, c - len + 1);
      SweepLineWins(g, player, AntiUpper, r + c);
    } else {
      SweepMatchFromRun(g, player, start, AntiLower, 2 * n - 1 - (r + c), n - r - len);
      SweepLineWins(g, player, AntiLower, 2 * n - 1 - (r + c));
    }
  }

  /** `is_win` holds exactly when some start cell and one of the four
      directions give `WinLength(size)` cells on the board that all hold the
      player's mark. */
  lemma {:induction false} IsWinIffRun(player: char, g: Grid)
    requires IsSquare(g)
    ensures IsWin(player, g) <==> HasWinningRun(player, g)
  {
    if IsWin(player, g) {
      var s: Sweep :| SweepFinds(g, s, Repeat(player, WinLength(|g|)));
      RunFromSweepFinds(g, player, s);
    }
    if HasWinningRun(player, g) {
      var start, d :| RunFrom(g, player, start, d, WinLength(|g|));
      match d {
        case Right | Down => StraightRunWins(g, player, start, d);
        case DownRight => DiagonalRunWins(g, player, start);
        case DownLeft => AntiDiagonalRunWins(g, player, start);
      }
    }
  }

  /** On boards of size at most 5 a row wins only when the whole row holds
      the player's mark (and the same for columns). */
  lemma {:induction false} SmallBoardRowWin(player: char, g: Grid, y: int)
    requires IsSquare(g) && |g| <= 5 && 0 <= y < |g|
    ensures Contains(Line(g, Rows, y), Repeat(player, WinLength(|g|))) <==>
            forall x :: 0 <= x < |g| ==> g[y][x] == player
    ensures Contains(Line(g, Columns, y), Repeat(player, WinLength(|g|))) <==>
            forall x :: 0 <= x < |g| ==> g[x][y] == player
  {
    var n := |g|;
    var w := Repeat(player, n);
    forall x | 0 <= x < n
      ensures Line(g, Rows, y)[x] == g[y][x] && Line(g, Columns, y)[x] == g[x][y]
    {
    }
    if Contains(Line(g, Rows, y), w) {
      var k :| 0 <= k <= n - n && OccursAt(Line(g, Rows, y), w, k);
      CellsFromOccurs(Line(g, Rows, y), player, n, k);
    }
    if forall x :: 0 <= x < n ==> g[y][x] == player {
      OccursFromCells(Line(g, Rows, y), player, n, 0);
    }
    if Contains(Line(g, Columns, y), w) {
      var k :| 0 <= k <= n - n && OccursAt(Line(g, Columns, y), w, k);
      CellsFromOccurs(Line(g, Columns, y), player, n, k);
    }
    if forall x :: 0 <= x < n ==> g[x][y] == player {
      OccursFromCells(Line(g, Columns, y), player, n, 0);
    }
  }

  /** A board with no cell holding `player` has no win for `player`; in
      particular an empty board has none. */
  lemma NoMarkNoWin(player: char, g: Grid)
    requires IsSquare(g)
    requires forall y, x :: 0 <= y < |g| && 0 <= x < |g| ==> g[y][x] != player
    ensures !IsWin(player, g)
  {
    IsWinIffRun(player, g);
    forall start, d
      ensures !RunFrom(g, player, start, d, WinLength(|g|))
    {
      if InBounds(|g|, start) {
        assert !MarkedAt(g, Along(start, d, 0), player);
      }
    }
  }

  /** One of the eight lines of a 3 by 3 board (three rows, three columns,
      two diagonals) holds only `player`. */
  predicate FullLineOnThree(player: char, g: Grid)
    requires IsSquare(g) && |g| == 3
  {
    (exists y :: 0 <= y < 3 && g[y][0] == player && g[y][1] == player && g[y][2] == player) ||
    (exists x :: 0 <= x < 3 && g[0][x] == player && g[1][x] == player && g[2][x] == player) ||
    (g[0][0] == player && g[1][1] == player && g[2][2] == player) ||
    (g[0][2] == player && g[1][1] == player && g[2][0] == player)
  }

  /** On the classic 3 by 3 board `is_win` means three in a row on one of
      the eight lines. */
  lemma ThreeByThreeWin(player: char, g: Grid)
    requires IsSquare(g) && |g| == 3
    ensures IsWin(player, g) <==> FullLineOnThree(player, g)
  {
    IsWinIffRun(player, g);
    if HasWinningRun(player, g) {
      var start, d :| RunFrom(g, player, start, d, 3);
      assert MarkedAt(g, Along(start, d, 0), player);
      assert MarkedAt(g, Along(start, d, 1), player);
      assert MarkedAt(g, Along(start, d, 2), player);
    }
    if FullLineOnThree(player, g) {
      var start: Coord, d: Direction;
      if y :| 0 <= y < 3 && g[y][0] == player && g[y][1] == player && g[y][2] == player {
        start, d := (y, 0), Right;
      } else if x :| 0 <= x < 3 && g[0][x] == player && g[1][x] == player && g[2][x] == player {
        start, d := (0, x), Down;
      } else if g[0][0] == player && g[1][1] == player && g[2][2] == player {
        start, d := (0, 0), DownRight;
      } else {
        start, d := (0, 2), DownLeft;
      }
      assert forall t :: 0 <= t < 3 ==> MarkedAt(g, Along(start, d, t), player);
      assert RunFrom(g, player, start, d, 3);
    }
  }
}
