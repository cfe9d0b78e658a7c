/** The session of `app`: rounds played one after another, grouped into
    games; a new game resets the round counter and the score, and each
    further round of a game swaps the player who starts. */
module Series {
  import opened Board
  import opened WinDetection
  import opened Round

  /** The settings a new game asks for: the board size and the first player. */
  datatype Config = Config(size: nat, first: char)

  /** What the size question and the first-player menu can return. */
  predicate ValidConfig(c: Config) {
    3 <= c.size <= 7 && IsMark(c.first)
  }

  /** The answers given around round i: the settings (read only when the
      round starts a new game), the move tokens of the round, whether to
      play again and, if so, whether to start a new game. */
  datatype RoundScript = RoundScript(config: Config, tokens: seq<string>, again: bool, newGame: bool)

  /** `x_o_wins`: the wins of 'X' and of 'O' in the current game. */
  datatype Score = Score(x: nat, o: nat)

  /** What a round leaves behind: its number within the game, the size and
      starting player it was played with, how it ended and the score after it. */
  datatype RoundRecord = RoundRecord(round: nat, size: nat, starter: char, outcome: Outcome, score: Score)

  /** The score after a round with this outcome: a win by 'X' counts in the
      first counter, any other winner in the second, anything else in neither. */
  function Credited(s: Score, outcome: Outcome): Score {
    match outcome
    case Win(w) => if w == 'X' then Score(s.x + 1, s.o) else Score(s.x, s.o + 1)
    case _ => s
  }

  /** Round i starts a new game: it is the first round, or the answer after
      the round before asked for a new game. */
  predicate StartsGame(script: seq<RoundScript>, i: nat)
    requires i < |script|
  {
    i == 0 || script[i - 1].newGame
  }

  /** Record i is what round i of the session leaves, given the record of
      the round before it: a new game is round 1 with the chosen settings
      and a fresh score; any other round takes the next number, the same
      size and the other starting player, and adds to the score so far. */
  predicate Linked(script: seq<RoundScript>, log: seq<RoundRecord>, i: nat)
    requires i < |log| <= |script|
  {
    var r := log[i];
    (StartsGame(script, i) ==>
       r.round == 1 && r.size == script[i].config.size && r.starter == script[i].config.first &&
       r.score == Credited(Score(0, 0), r.outcome)) &&
    (!StartsGame(script, i) ==>
       r.round == log[i - 1].round + 1 && r.size == log[i - 1].size &&
       r.starter == ChangePlayer(log[i - 1].starter) &&
       r.score == Credited(log[i - 1].score, r.outcome))
  }

  /** The outcome of record i is that of the round `game` plays with its
      size, its starting player and the tokens of round i. */
  predicate Played(script: seq<RoundScript>, log: seq<RoundRecord>, i: nat)
    requires i < |log| <= |script|
  {
    log[i].outcome == PlayRound(InitField(log[i].size, EMPTY_CELL), ChangePlayer(log[i].starter), script[i].tokens, 0).outcome
  }

  predicate LinkedLog(script: seq<RoundScript>, log: seq<RoundRecord>) {
    |log| <= |script| && forall i :: 0 <= i < |log| ==> Linked(script, log, i)
  }

  /** The session went on after round k: the answer was yes and the round
      ended normally. */
  predicate WentOn(script: seq<RoundScript>, log: seq<RoundRecord>, k: nat)
    requires k < |log| <= |script|
  {
    script[k].again && log[k].outcome != InputExhausted
  }

  /** The log of a whole session: every record follows from the one before,
      the session went on after every round but the last because the answer
      was yes and the round ended normally, and it stopped early only on a
      no or on input running out. */
  predicate SeriesLog(script: seq<RoundScript>, log: seq<RoundRecord>) {
    LinkedLog(script, log) &&
    (forall i :: 0 <= i < |log| ==> Played(script, log, i)) &&
    (forall i :: 0 <= i < |log| - 1 ==> WentOn(script, log, i)) &&
    (|log| < |script| ==> |log| > 0 && !WentOn(script, log, |log| - 1))
  }

  /** `app`: plays the rounds the script describes until the answer is no
      (or the input runs out), keeping the round counter, the current
      settings and the score of the current game. */
  method App(script: seq<RoundScript>) returns (log: seq<RoundRecord>)
    requires forall i :: 0 <= i < |script| ==> ValidConfig(script[i].config)
    ensures SeriesLog(script, log)
  {
    var answerSwitch, newGameSwitch := true, true;
    var roundCounter: nat := 1;
    var xoWins := new nat[2](_ => 0);
    var player, size := 'X', 3;
    var i := 0;
    log := [];
    while answerSwitch && i < |script|
      invariant i == |log| <= |script|
      invariant fresh(xoWins) && xoWins.Length == 2
      invariant forall k :: 0 <= k < i ==> Linked(script, log, k)
      invariant forall k :: 0 <= k < i ==> Played(script, log, k)
      invariant forall k :: 0 <= k < i - 1 ==> WentOn(script, log, k)
      invariant i == 0 ==> answerSwitch && newGameSwitch
      invariant i > 0 ==> answerSwitch == script[i - 1].again && log[i - 1].outcome != InputExhausted
      invariant i > 0 && answerSwitch ==> newGameSwitch == script[i - 1].newGame
      invariant i > 0 ==> roundCounter >= 2 && roundCounter == log[i - 1].round + 1 && size == log[i - 1].size &&
                          player == log[i - 1].starter && Score(xoWins[0], xoWins[1]) == log[i - 1].score
      decreases |script| - i
    {
      if newGameSwitch {
        roundCounter := 1;
        xoWins := new nat[2](_ => 0);
        size := script[i].config.size;
        player := script[i].config.first;
      }
      if roundCounter > 1 {
        player := ChangePlayer(player);
      }
      var before := Score(xoWins[0], xoWins[1]);
      var outcome := Game(player, size, script[i].tokens, xoWins);
      var record := RoundRecord(roundCounter, size, player, outcome, Score(xoWins[0], xoWins[1]));
      assert record.score == Credited(before, outcome);
      AppendRecord(script, log, record);
      ghost var previous := log;
      log := log + [record];
      forall k | 0 <= k < i
        ensures WentOn(script, log, k)
      {
        assert log[k] == previous[k];
        if k < i - 1 {
          assert WentOn(script, previous, k);
        }
      }
      i := i + 1;
      if outcome == InputExhausted {
        break;
      }
      answerSwitch := script[i - 1].again;
      roundCounter := roundCounter + 1;
      if answerSwitch {
        newGameSwitch := script[i - 1].newGame;
      }
    }
  }

  /** Appending the record of the next round, linked to the one before
      and with the outcome of its round, keeps both properties for every
      record. */
  lemma AppendRecord(script: seq<RoundScript>, log: seq<RoundRecord>, r: RoundRecord)
    requires |log| < |script|
    requires forall k :: 0 <= k < |log| ==> Linked(script, log, k)
    requires forall k :: 0 <= k < |log| ==> Played(script, log, k)
    requires StartsGame(script, |log|) ==>
               r.round == 1 && r.size == script[|log|].config.size && r.starter == script[|log|].config.first &&
               r.score == Credited(Score(0, 0), r.outcome)
    requires !StartsGame(script, |log|) ==>
               r.round == log[|log| - 1].round + 1 && r.size == log[|log| - 1].size &&
               r.starter == ChangePlayer(log[|log| - 1].starter) &&
               r.score == Credited(log[|log| - 1].score, r.outcome)
    requires r.outcome == PlayRound(InitField(r.size, EMPTY_CELL), ChangePlayer(r.starter), script[|log|].tokens, 0).outcome
    ensures forall k :: 0 <= k <= |log| ==> Linked(script, log + [r], k)
    ensures forall k :: 0 <= k <= |log| ==> Played(script, log + [r], k)
  {
    var longer := log + [r];
    forall k | 0 <= k <= |log|
      ensures Linked(script, longer, k) && Played(script, longer, k)
    {
      if k < |log| {
        assert Linked(script, log, k) && Played(script, log, k);
        assert longer[k] == log[k];
      } else {
        assert longer[k] == r;
      }
      if 0 < k {
        assert longer[k - 1] == log[k - 1];
      }
    }
  }

  /** The number of rounds among `rs` won by 'X' (`isX`) or by the other
      player (`!isX`). */
  function CountWins(rs: seq<RoundRecord>, isX: bool): nat {
    if rs == [] then 0
    else CountWins(rs[..|rs| - 1], isX) +
         (if rs[|rs| - 1].outcome.Win? && (rs[|rs| - 1].outcome.winner == 'X') == isX then 1 else 0)
  }

  /** Round i belongs to the game that began `log[i].round - 1` rounds
      earlier: no new game was asked for in between, the size is the one
      chosen for that game, the starting player is the chosen one in odd
      rounds and the other one in even rounds, and the score counts exactly
      the wins of that game's rounds up to i. */
  lemma {:induction false} RoundInGame(script: seq<RoundScript>, log: seq<RoundRecord>, i: nat)
    requires forall k :: 0 <= k < |script| ==> ValidConfig(script[k].config)
    requires LinkedLog(script, log) && i < |log|
    ensures 1 <= log[i].round <= i + 1
    ensures var j := i + 1 - log[i].round;
            StartsGame(script, j) &&
            (forall m :: j < m <= i ==> !StartsGame(script, m)) &&
            log[i].size == script[j].config.size &&
            log[i].starter == (if log[i].round % 2 == 1 then script[j].config.first
                               else ChangePlayer(script[j].config.first)) &&
            log[i].score == Score(CountWins(log[j..i + 1], true), CountWins(log[j..i + 1], false))
  {
    assert Linked(script, log, i);
    if StartsGame(script, i) {
      assert log[i..i + 1][..0] == [];
    } else {
      RoundInGame(script, log, i - 1);
      var j := i + 1 - log[i].round;
      assert j == i - log[i - 1].round;
      assert log[j..i + 1][..i - j] == log[j..i];
      ChangePlayerInvolution(script[j].config.first);
    }
  }

  /** A corollary of the links between records that `App` promises: within
      one game, consecutive rounds have consecutive numbers and are started
      by different players, whoever won. */
  lemma StartersAlternate(script: seq<RoundScript>, log: seq<RoundRecord>, i: nat)
    requires LinkedLog(script, log) && 0 < i < |log| && !StartsGame(script, i)
    ensures log[i].starter != log[i - 1].starter && log[i].round == log[i - 1].round + 1
  {
    assert Linked(script, log, i);
  }

  /** A game's score never exceeds the number of rounds played in it, and a
      drawn round leaves it as it was. */
  lemma ScoreBounded(script: seq<RoundScript>, log: seq<RoundRecord>, i: nat)
    requires forall k :: 0 <= k < |script| ==> ValidConfig(script[k].config)
    requires LinkedLog(script, log) && i < |log|
    ensures log[i].score.x + log[i].score.o <= log[i].round
    ensures log[i].outcome == Draw && !StartsGame(script, i) ==> log[i].score == log[i - 1].score
  {
    RoundInGame(script, log, i);
    var j := i + 1 - log[i].round;
    CountWinsBound(log[j..i + 1]);
    assert Linked(script, log, i);
  }

  lemma {:induction false} CountWinsBound(rs: seq<RoundRecord>)
    ensures CountWins(rs, true) + CountWins(rs, false) <= |rs|
  {
    if rs != [] {
      CountWinsBound(rs[..|rs| - 1]);
    }
  }
}
