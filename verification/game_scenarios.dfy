/**
 * Whole sessions played through the reducer
 * (src/contexts/game-context.tsx, lines 132-239).
 */
module GameScenarios {
  import opened Wrappers
  import opened GameTypes
  import opened TargetGeneration
  import opened BoardSetup
  import opened GameContext
  import opened GameHelpers
  import opened GameInvariants
  import opened AnswerValidation

  /** The 2 x 2 board of ones, as dealt: ids 0 to 3, nothing revealed. */
  const ONES: seq<Square> := [Square(0, 1, false), Square(1, 1, false), Square(2, 1, false), Square(3, 1, false)]

  /** With 1 as the largest number every draw deals the same board. */
  lemma OnesBoard(draw: nat -> nat)
    ensures Board(2, 1, draw) == ONES
  {
    var b := Board(2, 1, draw);
    assert |b| == 4;
    forall i | 0 <= i < 4 ensures b[i] == ONES[i] {
      assert RandomInt(1, 1, draw(i)) == 1;
    }
  }

  /** Every pairwise sum of squares holding 1 is 2. */
  lemma {:induction false} PairTargetsOfOnes(avail: seq<Square>)
    requires forall k :: 0 <= k < |avail| ==> avail[k].value == 1
    ensures forall x :: x in PairTargets(Addition, avail) ==> x == 2
  {
    if |avail| > 0 {
      PairTargetsOfOnes(avail[1..]);
    }
  }

  /** At least two hidden squares, all holding 1, always give the addition target 2. */
  lemma OnesTarget(board: seq<Square>, tables: seq<int>, draws: TargetDraws)
    requires |Available(board)| >= 2
    requires forall k :: 0 <= k < |Available(board)| ==> Available(board)[k].value == 1
    ensures GenerateTarget(board, Addition, tables, draws) == Some(TargetResult(2, Addition, None, false))
  {
    var avail := Available(board);
    PairTargetsOfOnes(avail);
    var picked := PickRandom(PairTargets(Addition, avail), draws.pair);
    assert picked.Some? && picked.value == 2;
  }

  /** A running session accepts a toggle of a hidden square, with nothing selected. */
  predicate FreshTurn(s: GameState, id: int) {
    && s.game.Some? && !s.game.value.isComplete
    && s.game.value.selectedSquares == []
    && Find(s.game.value.board, id).Some? && !Find(s.game.value.board, id).value.revealed
  }

  /** The first of two toggles only records the selection. */
  lemma FirstToggle(s: GameState, a: int)
    requires FreshTurn(s, a) && MaxSelections(s.game.value.currentOperation) == 2
    ensures ReduceToggleSquare(s, a) == s.(game := Some(s.game.value.(selectedSquares := [a])))
  {
    assert s.game.value.selectedSquares + [a] == [a];
  }

  /**
   * In a running addition session with target 2 and nothing selected,
   * toggling two distinct hidden squares holding 1 celebrates the pair and
   * changes nothing else.
   */
  lemma CorrectPair(s: GameState, a: int, b: int)
    requires FreshTurn(s, a) && FreshTurn(s, b) && a != b
    requires s.game.value.currentOperation == Addition && s.game.value.multiplicationTable.None?
    requires s.game.value.target == 2
    requires Find(s.game.value.board, a).value.value == 1 && Find(s.game.value.board, b).value.value == 1
    ensures
      GameReducer(GameReducer(s, ToggleSquare(a), EMPTY_DRAWS), ToggleSquare(b), EMPTY_DRAWS)
      == s.(game := Some(s.game.value.(selectedSquares := [a, b], celebratingSquares := [a, b])))
  {
    FirstToggle(s, a);
    assert GameReducer(s, ToggleSquare(a), EMPTY_DRAWS) == ReduceToggleSquare(s, a);
    var g := s.game.value;
    var s1 := s.(game := Some(g.(selectedSquares := [a])));
    SecondToggle(s1, a, b);
    assert GameReducer(s1, ToggleSquare(b), EMPTY_DRAWS) == ReduceToggleSquare(s1, b);
  }

  /** The second toggle completes a correct pair, which is celebrated. */
  lemma SecondToggle(s: GameState, a: int, b: int)
    requires s.game.Some? && !s.game.value.isComplete && s.game.value.selectedSquares == [a] && a != b
    requires Find(s.game.value.board, b).Some? && !Find(s.game.value.board, b).value.revealed
    requires s.game.value.currentOperation == Addition && s.game.value.multiplicationTable.None?
    requires s.game.value.target == 2
    requires Find(s.game.value.board, a).Some? && Find(s.game.value.board, a).value.value == 1
    requires Find(s.game.value.board, b).value.value == 1
    ensures ReduceToggleSquare(s, b)
      == s.(game := Some(s.game.value.(selectedSquares := [a, b], celebratingSquares := [a, b])))
  {
    assert SelectedValues(s.game.value.board, [a, b]) == [1, 1];
    assert CheckAnswer([1, 1], 2, Addition, None);
    assert [a] + [b] == [a, b];
  }

  /** Toggling consumes no random draw; these stand in for any. */
  const EMPTY_DRAWS: Entropy := Entropy(i => 0, 0, TargetDraws(0, 0, 0, false, 0))

  /** The first reveal of the session below: squares 0 and 1 are shown. */
  const HALF_SHOWN: seq<Square> := [Square(0, 1, true), Square(1, 1, true), Square(2, 1, false), Square(3, 1, false)]

  lemma HalfShownMarked()
    ensures MarkRevealed(ONES, [0, 1]) == HALF_SHOWN
  {
  }

  lemma HalfShownAvailable()
    ensures Available(HALF_SHOWN) == [Square(2, 1, false), Square(3, 1, false)]
    ensures !AllRevealed(HALF_SHOWN)
  {
    AvailableSkipsRevealedPair(HALF_SHOWN);
    assert HALF_SHOWN[2..] == [Square(2, 1, false), Square(3, 1, false)];
    AvailableOfHidden(HALF_SHOWN[2..]);
    assert !HALF_SHOWN[2].revealed;
  }

  lemma LastPairReveals()
    ensures AllRevealed(MarkRevealed(HALF_SHOWN, [2, 3]))
  {
  }

  /** A session on `board` with the addition target 2 and nothing selected. */
  predicate AddsToTwo(s: GameState, board: seq<Square>) {
    && s.screen == Playing && s.game.Some?
    && var g := s.game.value;
    && g.board == board && !g.isComplete
    && g.selectedSquares == [] && g.celebratingSquares == []
    && TargetOf(g) == TargetResult(2, Addition, None, false)
  }

  /** Starting on the board of ones sets the addition target 2. */
  lemma StartOnes(s0: GameState, rng: Entropy)
    requires s0.config == GameConfig(Addition, 1, 2, [])
    ensures AddsToTwo(GameReducer(s0, StartGame, rng), ONES)
    ensures GameReducer(s0, StartGame, rng).unlockedImages == s0.unlockedImages
  {
    OnesBoard(rng.boardDraw);
    OnesFirstTarget(rng.targetDraws);
    assert StartAccepted(s0, rng);
    assert GameReducer(s0, StartGame, rng) == ReduceStartGame(s0, rng);
  }

  /** The fresh board of ones gives the addition target 2. */
  lemma OnesFirstTarget(draws: TargetDraws)
    ensures GenerateTarget(ONES, Addition, [], draws) == Some(TargetResult(2, Addition, None, false))
  {
    AvailableOfHidden(ONES);
    forall k | 0 <= k < |ONES| ensures ONES[k].value == 1 {
    }
    OnesTarget(ONES, [], draws);
  }

  /** The two squares left hidden after the first reveal give the addition target 2. */
  lemma HalfShownTarget(draws: TargetDraws)
    ensures GenerateTarget(HALF_SHOWN, Addition, [], draws) == Some(TargetResult(2, Addition, None, false))
  {
    HalfShownAvailable();
    OnesTarget(HALF_SHOWN, [], draws);
  }

  /** The first reveal shows squares 0 and 1 and sets the addition target 2 again. */
  lemma RevealFirstPair(s: GameState, rng: Entropy)
    requires s.config == GameConfig(Addition, 1, 2, [])
    requires s.screen == Playing && s.game.Some? && !s.game.value.isComplete
    requires s.game.value.board == ONES && s.game.value.celebratingSquares == [0, 1]
    ensures AddsToTwo(GameReducer(s, RevealSquares, rng), HALF_SHOWN)
    ensures GameReducer(s, RevealSquares, rng).unlockedImages == s.unlockedImages
  {
    HalfShownMarked();
    HalfShownAvailable();
    HalfShownTarget(rng.targetDraws);
    assert GameReducer(s, RevealSquares, rng) == ReduceRevealSquares(s, rng);
  }

  /** On the board of ones, squares 0 and 1 are found, hidden and hold 1. */
  lemma FindInOnes()
    ensures Find(ONES, 0) == Some(Square(0, 1, false))
    ensures Find(ONES, 1) == Some(Square(1, 1, false))
  {
    assert ONES[1..][0] == ONES[1];
  }

  /** After the first reveal, squares 2 and 3 are found, hidden and hold 1. */
  lemma FindInHalfShown()
    ensures Find(HALF_SHOWN, 2) == Some(Square(2, 1, false))
    ensures Find(HALF_SHOWN, 3) == Some(Square(3, 1, false))
  {
    assert HALF_SHOWN[1..][1..][0] == HALF_SHOWN[2];
    assert HALF_SHOWN[1..][1..][1..][0] == HALF_SHOWN[3];
  }

  /** The second half of the session below: a correct pair on the last two squares, then the reveal. */
  lemma ClearLastPair(s4: GameState, r3: Entropy)
    requires Valid(s4) && AddsToTwo(s4, HALF_SHOWN)
    ensures
      var s6 := GameReducer(GameReducer(s4, ToggleSquare(2), EMPTY_DRAWS), ToggleSquare(3), EMPTY_DRAWS);
      var s7 := GameReducer(s6, RevealSquares, r3);
      && s6.game.Some? && s6.game.value.celebratingSquares == [2, 3]
      && s7.game.Some? && s7.game.value.isComplete && AllRevealed(s7.game.value.board)
      && multiset(s7.unlockedImages)[s4.game.value.backgroundImageNumber] == 1
  {
    FindInHalfShown();
    CorrectPair(s4, 2, 3);
    var s5 := GameReducer(s4, ToggleSquare(2), EMPTY_DRAWS);
    var s6 := GameReducer(s5, ToggleSquare(3), EMPTY_DRAWS);
    GameReducerKeepsValid(s4, ToggleSquare(2), EMPTY_DRAWS);
    GameReducerKeepsValid(s5, ToggleSquare(3), EMPTY_DRAWS);
    LastPairReveals();
    assert GameReducer(s6, RevealSquares, r3) == ReduceRevealSquares(s6, r3);
    CompletionUnlocksOnce(s6, r3);
  }

  /** The first half of the session below: start, a correct pair, then the reveal. */
  lemma ClearFirstPair(s0: GameState, r1: Entropy, r2: Entropy)
    requires Valid(s0) && s0.config == GameConfig(Addition, 1, 2, [])
    ensures
      var s1 := GameReducer(s0, StartGame, r1);
      var s3 := GameReducer(GameReducer(s1, ToggleSquare(0), EMPTY_DRAWS), ToggleSquare(1), EMPTY_DRAWS);
      var s4 := GameReducer(s3, RevealSquares, r2);
      && AddsToTwo(s1, ONES)
      && s3.game.Some? && s3.game.value.celebratingSquares == [0, 1]
      && AddsToTwo(s4, HALF_SHOWN) && Valid(s4)
      && s4.game.value.backgroundImageNumber == s1.game.value.backgroundImageNumber
  {
    StartOnes(s0, r1);
    var s1 := GameReducer(s0, StartGame, r1);
    FindInOnes();
    CorrectPair(s1, 0, 1);
    var s2 := GameReducer(s1, ToggleSquare(0), EMPTY_DRAWS);
    var s3 := GameReducer(s2, ToggleSquare(1), EMPTY_DRAWS);
    RevealFirstPair(s3, r2);
    GameReducerKeepsValid(s0, StartGame, r1);
    GameReducerKeepsValid(s1, ToggleSquare(0), EMPTY_DRAWS);
    GameReducerKeepsValid(s2, ToggleSquare(1), EMPTY_DRAWS);
    GameReducerKeepsValid(s3, RevealSquares, r2);
  }

  /**
   * A 2 x 2 addition board whose numbers are all 1: whatever the random
   * draws and the images already unlocked, the player clears it in two
   * correct pairs, the session completes and its image is unlocked exactly
   * once.
   */
  lemma AdditionSessionCompletes(unlockedImages: seq<int>, r1: Entropy, r2: Entropy, r3: Entropy)
    requires NoDuplicates(unlockedImages)
    ensures
      var s0 := GameState(GameConfig(Addition, 1, 2, []), unlockedImages, ConfigScreen, None);
      var s1 := GameReducer(s0, StartGame, r1);
      var s3 := GameReducer(GameReducer(s1, ToggleSquare(0), EMPTY_DRAWS), ToggleSquare(1), EMPTY_DRAWS);
      var s4 := GameReducer(s3, RevealSquares, r2);
      var s6 := GameReducer(GameReducer(s4, ToggleSquare(2), EMPTY_DRAWS), ToggleSquare(3), EMPTY_DRAWS);
      var s7 := GameReducer(s6, RevealSquares, r3);
      && AddsToTwo(s1, ONES)
      && s3.game.Some? && s3.game.value.celebratingSquares == [0, 1]
      && AddsToTwo(s4, HALF_SHOWN)
      && s6.game.Some? && s6.game.value.celebratingSquares == [2, 3]
      && s7.game.Some? && s7.game.value.isComplete && AllRevealed(s7.game.value.board)
      && multiset(s7.unlockedImages)[s1.game.value.backgroundImageNumber] == 1
  {
    var s0 := GameState(GameConfig(Addition, 1, 2, []), unlockedImages, ConfigScreen, None);
    ClearFirstPair(s0, r1, r2);
    var s1 := GameReducer(s0, StartGame, r1);
    var s3 := GameReducer(GameReducer(s1, ToggleSquare(0), EMPTY_DRAWS), ToggleSquare(1), EMPTY_DRAWS);
    ClearLastPair(GameReducer(s3, RevealSquares, r2), r3);
  }

  /** Before the reveal: squares holding 2 and 7 are celebrated for the target 5. */
  const PAIR_BOARD: seq<Square> := [Square(0, 2, false), Square(1, 7, false), Square(2, 5, false), Square(3, 5, false)]

  /** After the reveal: only the two squares holding 5 are hidden. */
  const PAIR_SHOWN: seq<Square> := [Square(0, 2, true), Square(1, 7, true), Square(2, 5, false), Square(3, 5, false)]

  function EqualPairState(): GameState {
    var game := ActiveGame(PAIR_BOARD, [0, 1], 5, Subtraction, None, false, [0, 1], "/assets/3.png", 3, false);
    GameState(GameConfig(Subtraction, 12, 2, []), [], Playing, Some(game))
  }

  /** On a board with nothing revealed every square is available, in order. */
  lemma {:induction false} AvailableOfHidden(board: seq<Square>)
    requires forall k :: 0 <= k < |board| ==> !board[k].revealed
    ensures Available(board) == board
  {
    if |board| > 0 {
      AvailableOfHidden(board[1..]);
      assert board == [board[0]] + board[1..];
    }
  }

  /** Revealed squares at the front of a board are skipped. */
  lemma AvailableSkipsRevealedPair(board: seq<Square>)
    requires |board| >= 2 && board[0].revealed && board[1].revealed
    ensures Available(board) == Available(board[2..])
  {
    assert board[1..][1..] == board[2..];
  }

  /** The state before the reveal satisfies every invariant of the model. */
  lemma EqualPairStateValid()
    ensures Valid(EqualPairState())
  {
    PairGameValid(EqualPairState().game.value);
  }

  lemma PairGameValid(g: ActiveGame)
    requires g == EqualPairState().game.value
    ensures GameValid(g)
  {
    PairSelectionHidden(g);
    PairGameSolvable(g);
    PairBoardNotRevealed(g);
  }

  lemma PairBoardNotRevealed(g: ActiveGame)
    requires g == EqualPairState().game.value
    ensures !AllRevealed(g.board)
  {
    assert !PAIR_BOARD[0].revealed;
  }

  /** The selected (and celebrating) squares 0 and 1 are found and hidden. */
  lemma PairSelectionHidden(g: ActiveGame)
    requires g == EqualPairState().game.value
    ensures g.celebratingSquares == g.selectedSquares
    ensures forall id :: id in g.selectedSquares ==> Unrevealed(g.board, id)
  {
    assert Find(PAIR_BOARD, 0) == Some(PAIR_BOARD[0]);
    assert PAIR_BOARD[1..][0] == PAIR_BOARD[1];
    assert g.selectedSquares == [0, 1];
  }

  /** The session's target can be met by its hidden squares. */
  lemma PairGameSolvable(g: ActiveGame)
    requires g == EqualPairState().game.value
    ensures Solvable(Available(g.board), TargetOf(g))
  {
    PairBoardSolvable();
  }

  /** The target 5 can be met by the squares holding 2 and 7. */
  lemma PairBoardSolvable()
    ensures Solvable(Available(PAIR_BOARD), TargetResult(5, Subtraction, None, false))
  {
    AvailableOfHidden(PAIR_BOARD);
    assert CheckAnswer([PAIR_BOARD[0].value, PAIR_BOARD[1].value], 5, Subtraction, None);
  }

  /** Revealing the celebrated pair leaves two hidden squares of equal value. */
  lemma EqualPairShown()
    ensures MarkRevealed(PAIR_BOARD, [0, 1]) == PAIR_SHOWN
  {
  }

  lemma EqualPairAvailable()
    ensures |Available(PAIR_SHOWN)| == 2
    ensures Available(PAIR_SHOWN)[0].value == Available(PAIR_SHOWN)[1].value
    ensures !AllRevealed(PAIR_SHOWN)
  {
    AvailableSkipsRevealedPair(PAIR_SHOWN);
    assert PAIR_SHOWN[2..] == [Square(2, 5, false), Square(3, 5, false)];
    AvailableOfHidden(PAIR_SHOWN[2..]);
    assert !PAIR_SHOWN[2].revealed;
  }

  /**
   * The falsy test on the target can end a session early: in subtraction
   * mode, once the last two hidden squares hold equal values, their only
   * target is 0, the generator returns nothing, and the reveal completes the
   * session with two squares still hidden and no image unlocked, from a
   * state that satisfies every invariant.
   */
  lemma EqualLastPairEndsWithoutReward(rng: Entropy)
    ensures Valid(EqualPairState())
    ensures
      var r := GameReducer(EqualPairState(), RevealSquares, rng);
      && r.game.Some? && r.game.value.isComplete
      && !AllRevealed(r.game.value.board)
      && r.unlockedImages == []
  {
    EqualPairStateValid();
    EqualPairShown();
    EqualPairAvailable();
    EqualPairNoTarget(PAIR_SHOWN, Subtraction, [], rng.targetDraws);
    assert GameReducer(EqualPairState(), RevealSquares, rng) == ReduceRevealSquares(EqualPairState(), rng);
  }
}
