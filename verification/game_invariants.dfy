/**
 * What every reachable state of the reducer satisfies, and how the state
 * may evolve (src/contexts/game-context.tsx, lines 118-247).
 */
module GameInvariants {
  import opened GameTypes
  import opened TargetGeneration
  import opened GameContext

  /**
   * A session is consistent: the selection fits the operation, selected and
   * celebrating ids name hidden squares, a fully revealed board means the
   * session is complete, and until it is complete the target can be met by
   * the hidden squares.
   */
  ghost predicate GameValid(g: ActiveGame) {
    && |g.selectedSquares| <= MaxSelections(g.currentOperation)
    && (forall id :: id in g.selectedSquares ==> Unrevealed(g.board, id))
    && (forall id :: id in g.celebratingSquares ==> Unrevealed(g.board, id))
    && (AllRevealed(g.board) ==> g.isComplete)
    && (!g.isComplete ==> Solvable(Available(g.board), TargetOf(g)))
  }

  /** The whole state: no image unlocked twice, and the playing screen always has a session. */
  ghost predicate Valid(s: GameState) {
    && NoDuplicates(s.unlockedImages)
    && (s.screen == Playing ==> s.game.Some?)
    && (s.game.Some? ==> GameValid(s.game.value))
  }

  lemma InitialStateValid()
    ensures Valid(INITIAL_STATE)
  {
  }

  lemma {:induction false} StartKeepsValid(s: GameState, rng: Entropy)
    requires Valid(s)
    ensures Valid(ReduceStartGame(s, rng))
  {
    var r := ReduceStartGame(s, rng);
    if StartAccepted(s, rng) {
      var g := r.game.value;
      AvailableEmptyIffAllRevealed(g.board);
    }
  }

  lemma {:induction false} ToggleKeepsValid(s: GameState, id: int)
    requires Valid(s)
    ensures Valid(ReduceToggleSquare(s, id))
  {
    var r := ReduceToggleSquare(s, id);
    if CanToggle(s, id) {
      var g := s.game.value;
      var g' := r.game.value;
      assert g'.board == g.board && TargetOf(g') == TargetOf(g) && g'.isComplete == g.isComplete;
      var newSelected := g.selectedSquares + [id];
      forall x | x in newSelected ensures Unrevealed(g.board, x) {
      }
    }
  }

  lemma {:induction false} RevealKeepsValid(s: GameState, rng: Entropy)
    requires Valid(s)
    ensures Valid(ReduceRevealSquares(s, rng))
  {
  }

  /** Every action keeps a valid state valid. */
  lemma {:induction false} GameReducerKeepsValid(s: GameState, action: GameAction, rng: Entropy)
    requires Valid(s)
    ensures Valid(GameReducer(s, action, rng))
  {
    match action
    case StartGame => StartKeepsValid(s, rng);
    case ToggleSquare(id) => ToggleKeepsValid(s, id);
    case RevealSquares => RevealKeepsValid(s, rng);
    case _ =>
  }

  /**
   * Outside START_GAME a session's squares keep their ids and values, and a
   * revealed square stays revealed.
   */
  lemma {:induction false} RevealedStaysRevealed(s: GameState, action: GameAction, rng: Entropy)
    requires !action.StartGame?
    requires s.game.Some? && GameReducer(s, action, rng).game.Some?
    ensures
      var b := s.game.value.board;
      var b' := GameReducer(s, action, rng).game.value.board;
      && |b'| == |b|
      && forall k :: 0 <= k < |b| ==>
           b'[k].id == b[k].id && b'[k].value == b[k].value && (b[k].revealed ==> b'[k].revealed)
  {
  }

  /** Unlocked images are only ever added, except by RESET_PROGRESS. */
  lemma {:induction false} UnlockedImagesOnlyGrow(s: GameState, action: GameAction, rng: Entropy)
    requires !action.ResetProgress?
    ensures s.unlockedImages <= GameReducer(s, action, rng).unlockedImages
  {
  }

  lemma {:induction false} NoDuplicatesCountsOnce(s: seq<int>, x: int)
    requires NoDuplicates(s) && x in s
    ensures multiset(s)[x] == 1
  {
    if s[0] == x {
      assert x !in s[1..];
      assert s == [s[0]] + s[1..];
    } else {
      NoDuplicatesCountsOnce(s[1..], x);
      assert s == [s[0]] + s[1..];
    }
  }

  /**
   * Completing the board leaves its image in the unlocked list exactly once,
   * whether or not it was there before.
   */
  lemma CompletionUnlocksOnce(s: GameState, rng: Entropy)
    requires Valid(s) && s.game.Some?
    requires AllRevealed(MarkRevealed(s.game.value.board, s.game.value.celebratingSquares))
    ensures multiset(ReduceRevealSquares(s, rng).unlockedImages)[s.game.value.backgroundImageNumber] == 1
  {
    var r := ReduceRevealSquares(s, rng);
    NoDuplicatesCountsOnce(r.unlockedImages, s.game.value.backgroundImageNumber);
  }
}
