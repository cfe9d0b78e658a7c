/** One round of the game (`player_move` and `game`): a reference definition
    of the round as a function of the typed tokens, its properties, and the
    imperative loops that follow it on a mutable field. */
module Round {
  import opened Board
  import opened WinDetection

  /** How a round ends. `InputExhausted` stands for `input()` running out of
      lines, which in the program raises an exception out of the round. */
  datatype Outcome = Win(winner: char) | Draw | InputExhausted

  /** The position of the first token at or after `from` that the move
      validation accepts, or `|input|` when none does: the tokens
      `player_move` reads, rejects and asks again for, and the one it keeps. */
  function FirstAccepted(g: Grid, input: seq<string>, from: nat): (k: nat)
    requires IsSquare(g) && |g| >= 1 && from <= |input|
    ensures from <= k <= |input|
    ensures k < |input| ==> ValidateMove(input[k], g).Accepted?
    decreases |input| - from
  {
    if from == |input| then |input|
    else if ValidateMove(input[from], g).Accepted? then from
    else FirstAccepted(g, input, from + 1)
  }

  /** Every token `player_move` reads before the one it keeps is rejected,
      and is consumed without changing anything. */
  lemma {:induction false} FirstAcceptedSkipsRejected(g: Grid, input: seq<string>, from: nat)
    requires IsSquare(g) && |g| >= 1 && from <= |input|
    ensures forall j :: from <= j < FirstAccepted(g, input, from) ==> ValidateMove(input[j], g).Rejected?
    decreases |input| - from
  {
    if from < |input| && !ValidateMove(input[from], g).Accepted? {
      FirstAcceptedSkipsRejected(g, input, from + 1);
    }
  }

  /** The loop guard of `game`: the round goes on while neither holds. */
  predicate Finished(last: char, g: Grid)
    requires IsSquare(g)
  {
    IsWin(last, g) || IsDraw(g)
  }

  /** The verdict `game` prints after the loop: a full board is a draw, even
      when the last move also won; otherwise the last mover has won. */
  function Verdict(last: char, g: Grid): Outcome
    requires IsSquare(g)
  {
    if !IsDraw(g) then Win(last) else Draw
  }

  /** The state at the end of a round: the board, the player who moved last,
      the outcome, the cells played in order and how many tokens were read. */
  datatype RoundEnd = RoundEnd(board: Grid, last: char, outcome: Outcome, moves: seq<Coord>, consumed: nat)

  /** The round from board `g`, where `last` moved last (for a new round,
      the pre-flipped starting player), reading tokens from `input[pos..]`. */
  function PlayRound(g: Grid, last: char, input: seq<string>, pos: nat): (e: RoundEnd)
    requires WellFormed(g) && pos <= |input|
    ensures WellFormed(e.board) && |e.board| == |g| && pos <= e.consumed <= |input|
    ensures AllInBounds(|g|, e.moves)
    decreases |input| - pos
  {
    if Finished(last, g) then RoundEnd(g, last, Verdict(last, g), [], pos)
    else
      var mover := ChangePlayer(last);
      var k := FirstAccepted(g, input, pos);
      if k == |input| then RoundEnd(g, last, InputExhausted, [], |input|)
      else
        var rc := ValidateMove(input[k], g).cell;
        var e := PlayRound(Place(g, rc, mover), mover, input, k + 1);
        e.(moves := [rc] + e.moves)
  }

  // ---------------------------------------------------------------------
  // The sequence of moves of a round

  /** The mark of the `k`-th move (from 0) when `first` moves first. */
  function MoverAt(first: char, k: nat): char {
    if k % 2 == 0 then first else ChangePlayer(first)
  }

  predicate AllInBounds(size: int, moves: seq<Coord>) {
    forall k :: 0 <= k < |moves| ==> InBounds(size, moves[k])
  }

  /** The board after playing `moves` on `g`, `first` moving first and the
      players alternating. */
  function Replay(g: Grid, first: char, moves: seq<Coord>): (h: Grid)
    requires IsSquare(g) && AllInBounds(|g|, moves)
    ensures IsSquare(h) && |h| == |g|
    decreases |moves|
  {
    if moves == [] then g
    else Replay(Place(g, moves[0], first), ChangePlayer(first), moves[1..])
  }

  /** Each move lands on a cell that holds no mark on the board before it. */
  predicate Legal(g: Grid, first: char, moves: seq<Coord>)
    requires IsSquare(g)
  {
    AllInBounds(|g|, moves) &&
    forall k :: 0 <= k < |moves| ==> !IsMark(CellOf(Replay(g, first, moves[..k]), moves[k]))
  }

  /** The round went on after every move but the last: the board after
      move k (for k below the last) is neither a win for its mover nor full. */
  predicate ContinuedUntilLast(g: Grid, first: char, moves: seq<Coord>)
    requires IsSquare(g) && AllInBounds(|g|, moves)
  {
    forall k :: 0 <= k < |moves| - 1 ==> !Finished(MoverAt(first, k), Replay(g, first, moves[..k + 1]))
  }

  lemma MoverAtShift(first: char, k: nat)
    requires IsMark(first)
    ensures MoverAt(first, k + 1) == MoverAt(ChangePlayer(first), k)
  {
  }

  /** Replaying a prefix one move longer places that move's mark on the
      board of the shorter prefix. */
  lemma {:induction false} ReplaySnoc(g: Grid, first: char, moves: seq<Coord>, k: nat)
    requires IsSquare(g) && IsMark(first) && AllInBounds(|g|, moves) && k < |moves|
    ensures Replay(g, first, moves[..k + 1]) ==
            Place(Replay(g, first, moves[..k]), moves[k], MoverAt(first, k))
    decreases k
  {
    if k > 0 {
      var g1 := Place(g, moves[0], first);
      var rest := moves[1..];
      assert moves[..k + 1][1..] == rest[..k];
      assert moves[..k][1..] == rest[..k - 1];
      ReplaySnoc(g1, ChangePlayer(first), rest, k - 1);
      MoverAtShift(first, k - 1);
    }
  }

  /** Replaying a list that starts with `rc` is replaying the rest on the
      board with `rc` played, the other player moving first. */
  lemma ReplayPrefixCons(g: Grid, first: char, rc: Coord, rest: seq<Coord>, j: nat)
    requires IsSquare(g) && InBounds(|g|, rc) && AllInBounds(|g|, rest) && 1 <= j <= |rest| + 1
    ensures AllInBounds(|g|, ([rc] + rest)[..j])
    ensures Replay(g, first, ([rc] + rest)[..j]) == Replay(Place(g, rc, first), ChangePlayer(first), rest[..j - 1])
  {
    var ms := [rc] + rest;
    assert ms[..j][0] == rc;
    assert ms[..j][1..] == rest[..j - 1];
  }

  /** One unfolding of `PlayRound` when the round goes on with the move
      `rc` accepted from token `k`: the rest of the round is played from the
      board with `rc` marked, and `rc` is put in front of its moves. */
  lemma PlayRoundStep(g: Grid, last: char, input: seq<string>, pos: nat, k: nat, rc: Coord)
    requires WellFormed(g) && pos <= |input| && !Finished(last, g)
    requires k == FirstAccepted(g, input, pos) && k < |input| && rc == ValidateMove(input[k], g).cell
    ensures InBounds(|g|, rc) && !IsMark(CellOf(g, rc)) && WellFormed(Place(g, rc, ChangePlayer(last)))
    ensures var e := PlayRound(g, last, input, pos);
            var e1 := PlayRound(Place(g, rc, ChangePlayer(last)), ChangePlayer(last), input, k + 1);
            e.board == e1.board && e.last == e1.last && e.outcome == e1.outcome &&
            e.moves == [rc] + e1.moves && e.consumed == e1.consumed
  {
  }

  /** `PlayRound` when the round stops before another move: the board and
      the last mover stay as they are and no move is recorded. */
  lemma PlayRoundStops(g: Grid, last: char, input: seq<string>, pos: nat)
    requires WellFormed(g) && pos <= |input|
    requires Finished(last, g) || FirstAccepted(g, input, pos) == |input|
    ensures var e := PlayRound(g, last, input, pos);
            e.board == g && e.last == last && e.moves == [] &&
            e.outcome == (if Finished(last, g) then Verdict(last, g) else InputExhausted) &&
            e.consumed == (if Finished(last, g) then pos else |input|)
  {
  }

  // Each property of a round below is proved by induction on the round: a
  // lemma that settles the rounds that stop at once and hands the others to
  // a step lemma, which applies the property to the rest of the round and
  // puts the first move back with a lemma about move lists alone.

  /** Putting a move in front of a continuation whose final board is the
      replay of its moves gives a list whose replay is that board too. */
  lemma ReplayCons(g: Grid, first: char, rc: Coord, e: RoundEnd, e1: RoundEnd)
    requires IsSquare(g) && InBounds(|g|, rc) && AllInBounds(|g|, e1.moves)
    requires e.board == e1.board && e.moves == [rc] + e1.moves
    requires e1.board == Replay(Place(g, rc, first), ChangePlayer(first), e1.moves)
    ensures AllInBounds(|g|, e.moves) && e.board == Replay(g, first, e.moves)
  {
    assert e.moves[0] == rc && e.moves[1..] == e1.moves;
  }

  /** A round's final board is the replay of its moves by alternating
      players, the first of them the player after `last`. */
  lemma {:induction false} RoundIsReplay(g: Grid, last: char, input: seq<string>, pos: nat)
    requires WellFormed(g) && pos <= |input|
    ensures var e := PlayRound(g, last, input, pos);
            e.board == Replay(g, ChangePlayer(last), e.moves)
    decreases |input| - pos, 1
  {
    if Finished(last, g) || FirstAccepted(g, input, pos) == |input| {
      PlayRoundStops(g, last, input, pos);
    } else {
      RoundIsReplayStep(g, last, input, pos);
    }
  }

  lemma {:induction false} RoundIsReplayStep(g: Grid, last: char, input: seq<string>, pos: nat)
    requires WellFormed(g) && pos <= |input| && !Finished(last, g) && FirstAccepted(g, input, pos) < |input|
    ensures var e := PlayRound(g, last, input, pos);
            e.board == Replay(g, ChangePlayer(last), e.moves)
    decreases |input| - pos, 0
  {
    var k := FirstAccepted(g, input, pos);
    var first := ChangePlayer(last);
    var rc := ValidateMove(input[k], g).cell;
    var g1 := Place(g, rc, first);
    PlayRoundStep(g, last, input, pos, k, rc);
    RoundIsReplay(g1, first, input, k + 1);
    ReplayCons(g, first, rc, PlayRound(g, last, input, pos), PlayRound(g1, first, input, k + 1));
  }

  /** Prepending a legal first move to a legal continuation is legal. */
  lemma LegalCons(g: Grid, first: char, rc: Coord, rest: seq<Coord>)
    requires IsSquare(g) && InBounds(|g|, rc) && !IsMark(CellOf(g, rc))
    requires Legal(Place(g, rc, first), ChangePlayer(first), rest)
    ensures Legal(g, first, [rc] + rest)
  {
    var ms := [rc] + rest;
    forall j | 0 <= j < |ms|
      ensures !IsMark(CellOf(Replay(g, first, ms[..j]), ms[j]))
    {
      if j == 0 {
        assert ms[..0] == [];
      } else {
        ReplayPrefixCons(g, first, rc, rest, j);
        assert ms[j] == rest[j - 1];
      }
    }
  }

  /** Every move of a round lands on a cell that held no mark before it. */
  lemma {:induction false} RoundIsLegal(g: Grid, last: char, input: seq<string>, pos: nat)
    requires WellFormed(g) && pos <= |input|
    ensures var e := PlayRound(g, last, input, pos);
            Legal(g, ChangePlayer(last), e.moves)
    decreases |input| - pos, 1
  {
    if Finished(last, g) || FirstAccepted(g, input, pos) == |input| {
      PlayRoundStops(g, last, input, pos);
    } else {
      RoundIsLegalStep(g, last, input, pos);
    }
  }

  lemma {:induction false} RoundIsLegalStep(g: Grid, last: char, input: seq<string>, pos: nat)
    requires WellFormed(g) && pos <= |input| && !Finished(last, g) && FirstAccepted(g, input, pos) < |input|
    ensures var e := PlayRound(g, last, input, pos);
            Legal(g, ChangePlayer(last), e.moves)
    decreases |input| - pos, 0
  {
    var k := FirstAccepted(g, input, pos);
    var first := ChangePlayer(last);
    var rc := ValidateMove(input[k], g).cell;
    var g1 := Place(g, rc, first);
    PlayRoundStep(g, last, input, pos, k, rc);
    RoundIsLegal(g1, first, input, k + 1);
    LegalCons(g, first, rc, PlayRound(g1, first, input, k + 1).moves);
  }

  /** The player who moved last is the mover of the round's final move (or
      `last` when no move was made); a move is made only when the round
      had not already finished. */
  lemma {:induction false} RoundLastMover(g: Grid, last: char, input: seq<string>, pos: nat)
    requires WellFormed(g) && pos <= |input|
    ensures var e := PlayRound(g, last, input, pos);
            (e.moves == [] ==> e.last == last) &&
            (e.moves != [] ==> e.last == MoverAt(ChangePlayer(last), |e.moves| - 1) && !Finished(last, g))
    decreases |input| - pos, 1
  {
    if Finished(last, g) || FirstAccepted(g, input, pos) == |input| {
      PlayRoundStops(g, last, input, pos);
    } else {
      RoundLastMoverStep(g, last, input, pos);
    }
  }

  lemma {:induction false} RoundLastMoverStep(g: Grid, last: char, input: seq<string>, pos: nat)
    requires WellFormed(g) && pos <= |input| && !Finished(last, g) && FirstAccepted(g, input, pos) < |input|
    ensures var e := PlayRound(g, last, input, pos);
            e.moves != [] && e.last == MoverAt(ChangePlayer(last), |e.moves| - 1)
    decreases |input| - pos, 0
  {
    var k := FirstAccepted(g, input, pos);
    var first := ChangePlayer(last);
    var rc := ValidateMove(input[k], g).cell;
    var g1 := Place(g, rc, first);
    PlayRoundStep(g, last, input, pos, k, rc);
    RoundLastMover(g1, first, input, k + 1);
    LastMoverCons(PlayRound(g, last, input, pos), PlayRound(g1, first, input, k + 1), rc, first);
  }

  /** Putting a move in front of a continuation whose last mover is known
      makes the same player the mover of the longer list's last move. */
  lemma LastMoverCons(e: RoundEnd, e1: RoundEnd, rc: Coord, first: char)
    requires IsMark(first) && e.last == e1.last && e.moves == [rc] + e1.moves
    requires e1.moves == [] ==> e1.last == first
    requires e1.moves != [] ==> e1.last == MoverAt(ChangePlayer(first), |e1.moves| - 1)
    ensures e.moves != [] && e.last == MoverAt(first, |e.moves| - 1)
  {
    if e1.moves != [] {
      MoverAtShift(first, |e1.moves| - 1);
    }
  }

  /** Prepending a move after which the round went on to a continuation
      that went on until its last move gives such a list again. */
  lemma ContinuedCons(g: Grid, first: char, rc: Coord, rest: seq<Coord>)
    requires IsSquare(g) && IsMark(first) && InBounds(|g|, rc) && AllInBounds(|g|, rest)
    requires rest != [] ==> !Finished(first, Place(g, rc, first))
    requires ContinuedUntilLast(Place(g, rc, first), ChangePlayer(first), rest)
    ensures ContinuedUntilLast(g, first, [rc] + rest)
  {
    var ms := [rc] + rest;
    forall j | 0 <= j < |ms| - 1
      ensures !Finished(MoverAt(first, j), Replay(g, first, ms[..j + 1]))
    {
      ReplayPrefixCons(g, first, rc, rest, j + 1);
      if j == 0 {
        assert rest[..0] == [];
      } else {
        MoverAtShift(first, j - 1);
      }
    }
  }

  /** The round went on after every move but its last one: none of the
      earlier moves left a win for its mover or a full board. */
  lemma {:induction false} RoundContinuedUntilLast(g: Grid, last: char, input: seq<string>, pos: nat)
    requires WellFormed(g) && pos <= |input|
    ensures var e := PlayRound(g, last, input, pos);
            ContinuedUntilLast(g, ChangePlayer(last), e.moves)
    decreases |input| - pos, 1
  {
    if Finished(last, g) || FirstAccepted(g, input, pos) == |input| {
      PlayRoundStops(g, last, input, pos);
    } else {
      RoundContinuedUntilLastStep(g, last, input, pos);
    }
  }

  lemma {:induction false} RoundContinuedUntilLastStep(g: Grid, last: char, input: seq<string>, pos: nat)
    requires WellFormed(g) && pos <= |input| && !Finished(last, g) && FirstAccepted(g, input, pos) < |input|
    ensures var e := PlayRound(g, last, input, pos);
            ContinuedUntilLast(g, ChangePlayer(last), e.moves)
    decreases |input| - pos, 0
  {
    var k := FirstAccepted(g, input, pos);
    var first := ChangePlayer(last);
    var rc := ValidateMove(input[k], g).cell;
    var g1 := Place(g, rc, first);
    PlayRoundStep(g, last, input, pos, k, rc);
    RoundContinuedUntilLast(g1, first, input, k + 1);
    RoundLastMover(g1, first, input, k + 1);
    ContinuedCons(g, first, rc, PlayRound(g1, first, input, k + 1).moves);
  }

  /** The outcome of every round agrees with its final board in the sense
      of `OutcomeFitsBoard`. */
  lemma {:induction false} RoundOutcomeMeaning(g: Grid, last: char, input: seq<string>, pos: nat)
    requires WellFormed(g) && pos <= |input|
    ensures OutcomeFitsBoard(PlayRound(g, last, input, pos), |input|)
    decreases |input| - pos, 1
  {
    if Finished(last, g) || FirstAccepted(g, input, pos) == |input| {
      PlayRoundStops(g, last, input, pos);
    } else {
      RoundOutcomeMeaningStep(g, last, input, pos);
    }
  }

  lemma {:induction false} RoundOutcomeMeaningStep(g: Grid, last: char, input: seq<string>, pos: nat)
    requires WellFormed(g) && pos <= |input| && !Finished(last, g) && FirstAccepted(g, input, pos) < |input|
    ensures OutcomeFitsBoard(PlayRound(g, last, input, pos), |input|)
    decreases |input| - pos, 0
  {
    var k := FirstAccepted(g, input, pos);
    var first := ChangePlayer(last);
    var rc := ValidateMove(input[k], g).cell;
    var g1 := Place(g, rc, first);
    PlayRoundStep(g, last, input, pos, k, rc);
    RoundOutcomeMeaning(g1, first, input, k + 1);
    OutcomeFitsSame(PlayRound(g, last, input, pos), PlayRound(g1, first, input, k + 1), |input|);
  }

  /** The outcome of a round end agrees with its board: a draw exactly when
      the board is full; a win only for the player who moved last, on a
      board that is not full and holds a winning line for them; and running
      out of input only while the round was still undecided, all tokens
      read. */
  predicate OutcomeFitsBoard(e: RoundEnd, tokens: nat)
    requires IsSquare(e.board)
  {
    (e.outcome == Draw <==> IsDraw(e.board)) &&
    (e.outcome.Win? ==> e.outcome.winner == e.last && IsWin(e.last, e.board) && !IsDraw(e.board)) &&
    (e.outcome == InputExhausted ==> !Finished(e.last, e.board) && e.consumed == tokens)
  }

  lemma OutcomeFitsSame(e: RoundEnd, e1: RoundEnd, tokens: nat)
    requires IsSquare(e1.board) && OutcomeFitsBoard(e1, tokens)
    requires e.board == e1.board && e.last == e1.last && e.outcome == e1.outcome && e.consumed == e1.consumed
    ensures IsSquare(e.board) && OutcomeFitsBoard(e, tokens)
  {
  }

  /** The precedence of `game`: when the final board is full the round is a
      draw and nobody is credited, even if the last move completed a winning
      line. */
  lemma DrawBeforeWin(g: Grid, last: char, input: seq<string>, pos: nat)
    requires WellFormed(g) && pos <= |input|
    requires var e := PlayRound(g, last, input, pos); IsDraw(e.board) && IsWin(e.last, e.board)
    ensures PlayRound(g, last, input, pos).outcome == Draw
  {
    RoundOutcomeMeaning(g, last, input, pos);
  }

  /** A concrete case of the precedence: X completes the '\' diagonal with
      the move that fills a 3 by 3 board, and the verdict is a draw. */
  lemma WinningLastMoveIsDraw()
    ensures var b := [['X', 'O', 'X'], ['O', 'X', 'O'], ['O', 'X', 'X']];
            IsSquare(b) && IsWin('X', b) && IsDraw(b) && Verdict('X', b) == Draw
  {
    var b := [['X', 'O', 'X'], ['O', 'X', 'O'], ['O', 'X', 'X']];
    assert Line(b, DiagUpper, 2) == ['X', 'X', 'X'];
    assert OccursAt(Line(b, DiagUpper, 2), Repeat('X', 3), 0);
    assert SweepFinds(b, DiagUpper, Repeat('X', 3));
  }

  /** The facts `AdvanceOnThree` needs about one move of a 3 by 3 round. */
  predicate StepReady(g: Grid, last: char, input: seq<string>, k: nat, rc: Coord, h: Grid) {
    WellFormed(g) && |g| == 3 && !FullLineOnThree(last, g) &&
    InBounds(3, rc) && g[rc.0][rc.1] == EMPTY_CELL &&
    k < |input| && input[k] == ShowNumber(DisplayIndex(rc.0, rc.1, 3)) &&
    |h| == 3 && h[rc.0] == g[rc.0][rc.1 := ChangePlayer(last)] && h == g[rc.0 := h[rc.0]]
  }

  /** One move of a round on a 3 by 3 board where the player who moved last
      has no line: the token at `k` is the number shown on the free cell
      `rc`, so the board is not full, and the round goes on from the board
      `h` with that cell marked. */
  lemma AdvanceOnThree(g: Grid, last: char, input: seq<string>, k: nat, rc: Coord, h: Grid, next: char, k1: nat)
    requires StepReady(g, last, input, k, rc, h) && next == ChangePlayer(last) && k1 == k + 1
    ensures WellFormed(h) && k1 <= |input|
    ensures var e := PlayRound(g, last, input, k);
            var e1 := PlayRound(h, next, input, k1);
            e.board == e1.board && e.last == e1.last && e.outcome == e1.outcome
  {
    ThreeByThreeWin(last, g);
    assert g[rc.0][rc.1] == EMPTY_CELL;
    assert !IsDraw(g);
    DisplayedMoveAccepted(g, rc);
    assert FirstAccepted(g, input, k) == k;
    PlayRoundStep(g, last, input, k, k, rc);
  }

  /** The round that reaches the board of `WinningLastMoveIsDraw`: X plays
      1, 3, 5, 8 and 9 and O plays 2, 4, 6 and 7. Nobody has a line before
      the last move, which fills the board and completes X's '\' diagonal,
      and the round is a draw. */
  lemma ExampleRoundIsDraw()
    ensures var e := PlayRound(InitField(3, EMPTY_CELL), 'O', ExampleTokens(), 0);
            e.board == [['X', 'O', 'X'], ['O', 'X', 'O'], ['O', 'X', 'X']] &&
            e.last == 'X' && IsWin(e.last, e.board) && e.outcome == Draw
  {
    var t := ExampleTokens();
    var b0 := [['_', '_', '_'], ['_', '_', '_'], ['_', '_', '_']];
    var b9 := [['X', 'O', 'X'], ['O', 'X', 'O'], ['O', 'X', 'X']];
    GridExtensionality(InitField(3, EMPTY_CELL), b0);
    ExampleMove1(); ExampleMove2(); ExampleMove3();
    ExampleMove4(); ExampleMove5(); ExampleMove6();
    ExampleMove7(); ExampleMove8(); ExampleMove9();
    WinningLastMoveIsDraw();
    PlayRoundStops(b9, 'X', t, 9);
  }

  /** The tokens typed in the example round, one per move. */
  function ExampleTokens(): seq<string> {
    ["1", "2", "3", "4", "5", "6", "8", "7", "9"]
  }

  /** Move 1 of the example round: X plays 1. */
  lemma ExampleMove1()
    ensures var g := [['_', '_', '_'], ['_', '_', '_'], ['_', '_', '_']];
            var h := [['X', '_', '_'], ['_', '_', '_'], ['_', '_', '_']];
            WellFormed(g) && WellFormed(h) &&
            (var e := PlayRound(g, 'O', ExampleTokens(), 0);
             var e1 := PlayRound(h, 'X', ExampleTokens(), 1);
             e.board == e1.board && e.last == e1.last && e.outcome == e1.outcome)
  {
    var g := [['_', '_', '_'], ['_', '_', '_'], ['_', '_', '_']];
    var h := [['X', '_', '_'], ['_', '_', '_'], ['_', '_', '_']];
    assert StepReady(g, 'O', ExampleTokens(), 0, (0, 0), h);
    AdvanceOnThree(g, 'O', ExampleTokens(), 0, (0, 0), h, 'X', 1);
  }

  /** Move 2 of the example round: O plays 2. */
  lemma ExampleMove2()
    ensures var g := [['X', '_', '_'], ['_', '_', '_'], ['_', '_', '_']];
            var h := [['X', 'O', '_'], ['_', '_', '_'], ['_', '_', '_']];
            WellFormed(g) && WellFormed(h) &&
            (var e := PlayRound(g, 'X', ExampleTokens(), 1);
             var e1 := PlayRound(h, 'O', ExampleTokens(), 2);
             e.board == e1.board && e.last == e1.last && e.outcome == e1.outcome)
  {
    var g := [['X', '_', '_'], ['_', '_', '_'], ['_', '_', '_']];
    var h := [['X', 'O', '_'], ['_', '_', '_'], ['_', '_', '_']];
    assert StepReady(g, 'X', ExampleTokens(), 1, (0, 1), h);
    AdvanceOnThree(g, 'X', ExampleTokens(), 1, (0, 1), h, 'O', 2);
  }

  /** Move 3 of the example round: X plays 3. */
  lemma ExampleMove3()
    ensures var g := [['X', 'O', '_'], ['_', '_', '_'], ['_', '_', '_']];
            var h := [['X', 'O', 'X'], ['_', '_', '_'], ['_', '_', '_']];
            WellFormed(g) && WellFormed(h) &&
            (var e := PlayRound(g, 'O', ExampleTokens(), 2);
             var e1 := PlayRound(h, 'X', ExampleTokens(), 3);
             e.board == e1.board && e.last == e1.last && e.outcome == e1.outcome)
  {
    var g := [['X', 'O', '_'], ['_', '_', '_'], ['_', '_', '_']];
    var h := [['X', 'O', 'X'], ['_', '_', '_'], ['_', '_', '_']];
    assert StepReady(g, 'O', ExampleTokens(), 2, (0, 2), h);
    AdvanceOnThree(g, 'O', ExampleTokens(), 2, (0, 2), h, 'X', 3);
  }

  /** Move 4 of the example round: O plays 4. */
  lemma ExampleMove4()
    ensures var g := [['X', 'O', 'X'], ['_', '_', '_'], ['_', '_', '_']];
            var h := [['X', 'O', 'X'], ['O', '_', '_'], ['_', '_', '_']];
            WellFormed(g) && WellFormed(h) &&
            (var e := PlayRound(g, 'X', ExampleTokens(), 3);
             var e1 := PlayRound(h, 'O', ExampleTokens(), 4);
             e.board == e1.board && e.last == e1.last && e.outcome == e1.outcome)
  {
    var g := [['X', 'O', 'X'], ['_', '_', '_'], ['_', '_', '_']];
    var h := [['X', 'O', 'X'], ['O', '_', '_'], ['_', '_', '_']];
    assert StepReady(g, 'X', ExampleTokens(), 3, (1, 0), h);
    AdvanceOnThree(g, 'X', ExampleTokens(), 3, (1, 0), h, 'O', 4);
  }

  /** Move 5 of the example round: X plays 5. */
  lemma ExampleMove5()
    ensures var g := [['X', 'O', 'X'], ['O', '_', '_'], ['_', '_', '_']];
            var h := [['X', 'O', 'X'], ['O', 'X', '_'], ['_', '_', '_']];
            WellFormed(g) && WellFormed(h) &&
            (var e := PlayRound(g, 'O', ExampleTokens(), 4);
             var e1 := PlayRound(h, 'X', ExampleTokens(), 5);
             e.board == e1.board && e.last == e1.last && e.outcome == e1.outcome)
  {
    var g := [['X', 'O', 'X'], ['O', '_', '_'], ['_', '_', '_']];
    var h := [['X', 'O', 'X'], ['O', 'X', '_'], ['_', '_', '_']];
    assert StepReady(g, 'O', ExampleTokens(), 4, (1, 1), h);
    AdvanceOnThree(g, 'O', ExampleTokens(), 4, (1, 1), h, 'X', 5);
  }

  /** Move 6 of the example round: O plays 6. */
  lemma ExampleMove6()
    ensures var g := [['X', 'O', 'X'], ['O', 'X', '_'], ['_', '_', '_']];
            var h := [['X', 'O', 'X'], ['O', 'X', 'O'], ['_', '_', '_']];
            WellFormed(g) && WellFormed(h) &&
            (var e := PlayRound(g, 'X', ExampleTokens(), 5);
             var e1 := PlayRound(h, 'O', ExampleTokens(), 6);
             e.board == e1.board && e.last == e1.last && e.outcome == e1.outcome)
  {
    var g := [['X', 'O', 'X'], ['O', 'X', '_'], ['_', '_', '_']];
    var h := [['X', 'O', 'X'], ['O', 'X', 'O'], ['_', '_', '_']];
    assert StepReady(g, 'X', ExampleTokens(), 5, (1, 2), h);
    AdvanceOnThree(g, 'X', ExampleTokens(), 5, (1, 2), h, 'O', 6);
  }

  /** Move 7 of the example round: X plays 8. */
  lemma ExampleMove7()
    ensures var g := [['X', 'O', 'X'], ['O', 'X', 'O'], ['_', '_', '_']];
            var h := [['X', 'O', 'X'], ['O', 'X', 'O'], ['_', 'X', '_']];
            WellFormed(g) && WellFormed(h) &&
            (var e := PlayRound(g, 'O', ExampleTokens(), 6);
             var e1 := PlayRound(h, 'X', ExampleTokens(), 7);
             e.board == e1.board && e.last == e1.last && e.outcome == e1.outcome)
  {
    var g := [['X', 'O', 'X'], ['O', 'X', 'O'], ['_', '_', '_']];
    var h := [['X', 'O', 'X'], ['O', 'X', 'O'], ['_', 'X', '_']];
    assert StepReady(g, 'O', ExampleTokens(), 6, (2, 1), h);
    AdvanceOnThree(g, 'O', ExampleTokens(), 6, (2, 1), h, 'X', 7);
  }

  /** Move 8 of the example round: O plays 7. */
  lemma ExampleMove8()
    ensures var g := [['X', 'O', 'X'], ['O', 'X', 'O'], ['_', 'X', '_']];
            var h := [['X', 'O', 'X'], ['O', 'X', 'O'], ['O', 'X', '_']];
            WellFormed(g) && WellFormed(h) &&
            (var e := PlayRound(g, 'X', ExampleTokens(), 7);
             var e1 := PlayRound(h, 'O', ExampleTokens(), 8);
             e.board == e1.board && e.last == e1.last && e.outcome == e1.outcome)
  {
    var g := [['X', 'O', 'X'], ['O', 'X', 'O'], ['_', 'X', '_']];
    var h := [['X', 'O', 'X'], ['O', 'X', 'O'], ['O', 'X', '_']];
    assert StepReady(g, 'X', ExampleTokens(), 7, (2, 0), h);
    AdvanceOnThree(g, 'X', ExampleTokens(), 7, (2, 0), h, 'O', 8);
  }

  /** Move 9 of the example round: X plays 9. */
  lemma ExampleMove9()
    ensures var g := [['X', 'O', 'X'], ['O', 'X', 'O'], ['O', 'X', '_']];
            var h := [['X', 'O', 'X'], ['O', 'X', 'O'], ['O', 'X', 'X']];
            WellFormed(g) && WellFormed(h) &&
            (var e := PlayRound(g, 'O', ExampleTokens(), 8);
             var e1 := PlayRound(h, 'X', ExampleTokens(), 9);
             e.board == e1.board && e.last == e1.last && e.outcome == e1.outcome)
  {
    var g := [['X', 'O', 'X'], ['O', 'X', 'O'], ['O', 'X', '_']];
    var h := [['X', 'O', 'X'], ['O', 'X', 'O'], ['O', 'X', 'X']];
    assert StepReady(g, 'O', ExampleTokens(), 8, (2, 2), h);
    AdvanceOnThree(g, 'O', ExampleTokens(), 8, (2, 2), h, 'X', 9);
  }

  /** A round on a fresh board of size at least 1 starts with a move by
      `player` (after the pre-flip in `game`): its moves are legal and,
      played alternately from `player`, rebuild the final board. */
  lemma {:induction false} FreshRoundStartsWithPlayer(player: char, size: nat, input: seq<string>)
    requires IsMark(player) && size >= 1
    ensures var g := InitField(size, EMPTY_CELL);
            var e := PlayRound(g, ChangePlayer(player), input, 0);
            WellFormed(g) && !Finished(ChangePlayer(player), g) &&
            e.board == Replay(g, player, e.moves) && Legal(g, player, e.moves)
  {
    var g := InitField(size, EMPTY_CELL);
    assert WellFormed(g);
    NoMarkNoWin(ChangePlayer(player), g);
    assert g[0][0] == EMPTY_CELL;
    ChangePlayerInvolution(player);
    RoundIsReplay(g, ChangePlayer(player), input, 0);
    RoundIsLegal(g, ChangePlayer(player), input, 0);
  }

  /** In a round on a fresh board the last move is `player`'s after an odd
      number of moves and the other player's after an even number; with no
      move at all the pre-flipped player is still the last. */
  lemma FreshRoundLastMover(player: char, size: nat, input: seq<string>)
    requires IsMark(player)
    ensures var e := PlayRound(InitField(size, EMPTY_CELL), ChangePlayer(player), input, 0);
            e.last == (if |e.moves| % 2 == 1 then player else ChangePlayer(player))
  {
    var g := InitField(size, EMPTY_CELL);
    assert WellFormed(g);
    var e := PlayRound(g, ChangePlayer(player), input, 0);
    RoundLastMover(g, ChangePlayer(player), input, 0);
    ChangePlayerInvolution(player);
    if e.moves != [] {
      MoverAtLast(player, |e.moves|);
    }
  }

  lemma MoverAtLast(first: char, n: nat)
    requires n >= 1
    ensures MoverAt(first, n - 1) == if n % 2 == 1 then first else ChangePlayer(first)
  {
  }

  /** Marks never revert: a cell that holds a mark after some prefix of the
      moves holds the same mark after every longer prefix. */
  lemma {:induction false} MarksPersist(g: Grid, first: char, moves: seq<Coord>, j: nat, k: nat, rc: Coord)
    requires IsSquare(g) && IsMark(first) && Legal(g, first, moves) && j <= k <= |moves|
    requires InBounds(|g|, rc) && IsMark(CellOf(Replay(g, first, moves[..j]), rc))
    ensures CellOf(Replay(g, first, moves[..k]), rc) == CellOf(Replay(g, first, moves[..j]), rc)
    decreases k - j
  {
    if j < k {
      ReplaySnoc(g, first, moves, j);
      assert moves[j] != rc;
      MarksPersist(g, first, moves, j + 1, k, rc);
    }
  }

  // ---------------------------------------------------------------------
  // The imperative round on a mutable field

  /** The field as a list of rows. */
  function Snapshot(field: array2<char>): (g: Grid)
    reads field
    ensures |g| == field.Length0
    ensures forall y :: 0 <= y < |g| ==> |g[y]| == field.Length1
    ensures forall y, x :: 0 <= y < field.Length0 && 0 <= x < field.Length1 ==> g[y][x] == field[y, x]
  {
    seq(field.Length0, y requires 0 <= y < field.Length0 reads field =>
      seq(field.Length1, x requires 0 <= x < field.Length1 reads field => field[y, x]))
  }

  /** `is_draw` as it runs: row by row, cell by cell, answering no at the
      first empty cell and yes when there is none. */
  method CheckDraw(field: array2<char>) returns (full: bool)
    requires field.Length0 == field.Length1
    ensures full == IsDraw(Snapshot(field))
  {
    var size := field.Length0;
    for y := 0 to size
      invariant forall y', x :: 0 <= y' < y && 0 <= x < size ==> field[y', x] != EMPTY_CELL
    {
      for x := 0 to size
        invariant forall x' :: 0 <= x' < x ==> field[y, x'] != EMPTY_CELL
      {
        if field[y, x] == EMPTY_CELL {
          assert Snapshot(field)[y][x] == EMPTY_CELL;
          return false;
        }
      }
    }
    return true;
  }

  /** `player_move`: reads tokens from `input[pos..]` until one is accepted
      and writes `player` into the cell it names; a rejected token is
      consumed and changes nothing. `placed` is false when the input ran out
      first, and `next` is the position after the last token read. */
  method PlayerMove(player: char, field: array2<char>, input: seq<string>, pos: nat)
      returns (placed: bool, next: nat)
    requires field.Length0 == field.Length1 >= 1 && pos <= |input|
    modifies field
    ensures var g := old(Snapshot(field));
            var k := FirstAccepted(g, input, pos);
            placed == (k < |input|) &&
            (placed ==> next == k + 1 && Snapshot(field) == Place(g, ValidateMove(input[k], g).cell, player)) &&
            (!placed ==> next == |input| && Snapshot(field) == g)
  {
    ghost var g := Snapshot(field);
    var size := field.Length0;
    var i := pos;
    while i < |input|
      invariant pos <= i <= |input|
      invariant Snapshot(field) == g
      invariant FirstAccepted(g, input, pos) == FirstAccepted(g, input, i)
    {
      var move := input[i];
      if IsDigits(move) {
        var number := DecimalValue(move);
        var rc := MoveToCoords(number, size);
        if MoveInRange(number, size) {
          MoveToCoordsInRange(number, size);
          if field[rc.0, rc.1] != 'X' && field[rc.0, rc.1] != 'O' {
            assert ValidateMove(move, g) == Accepted(rc);
            field[rc.0, rc.1] := player;
            GridExtensionality(Snapshot(field), Place(g, rc, player));
            return true, i + 1;
          }
          assert ValidateMove(move, g) == Rejected(CellOccupied);
        } else {
          assert ValidateMove(move, g) == Rejected(OutOfRange);
        }
      } else {
        assert ValidateMove(move, g) == Rejected(NotANumber);
      }
      i := i + 1;
    }
    return false, |input|;
  }

  /** `game`: plays one round on a fresh `size` by `size` field, `player`
      moving first, and credits the winner in `wins` (`x_o_wins`): the first
      counter for 'X', the second for any other winner, neither on a draw. */
  method Game(player: char, size: nat, input: seq<string>, wins: array<nat>) returns (outcome: Outcome)
    requires wins.Length == 2
    modifies wins
    ensures outcome == PlayRound(InitField(size, EMPTY_CELL), ChangePlayer(player), input, 0).outcome
    ensures wins[0] == old(wins[0]) + (if outcome == Win('X') then 1 else 0)
    ensures wins[1] == old(wins[1]) + (if outcome.Win? && outcome.winner != 'X' then 1 else 0)
  {
    var field := new char[size, size]((_, _) => EMPTY_CELL);
    ghost var g0 := InitField(size, EMPTY_CELL);
    GridExtensionality(Snapshot(field), g0);
    ghost var whole := PlayRound(g0, ChangePlayer(player), input, 0);
    var current := ChangePlayer(player);
    var pos := 0;
    while !IsWin(current, Snapshot(field)) && !IsDraw(Snapshot(field))
      invariant pos <= |input| && WellFormed(Snapshot(field))
      invariant PlayRound(Snapshot(field), current, input, pos).outcome == whole.outcome
      invariant wins[..] == old(wins[..])
      decreases |input| - pos
    {
      ghost var g, last, from := Snapshot(field), current, pos;
      current := ChangePlayer(current);
      var placed;
      placed, pos := PlayerMove(current, field, input, pos);
      if !placed {
        PlayRoundStops(g, last, input, from);
        return InputExhausted;
      }
      ghost var k := FirstAccepted(g, input, from);
      ghost var rc := ValidateMove(input[k], g).cell;
      PlayRoundStep(g, last, input, from, k, rc);
      assert Snapshot(field) == Place(g, rc, current) && pos == k + 1;
    }
    PlayRoundStops(Snapshot(field), current, input, pos);
    if !IsDraw(Snapshot(field)) {
      if current == 'X' {
        wins[0] := wins[0] + 1;
      } else {
        wins[1] := wins[1] + 1;
      }
      outcome := Win(current);
    } else {
      outcome := Draw;
    }
  }
}
