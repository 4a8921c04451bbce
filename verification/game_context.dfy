/**
 * The game reducer (src/contexts/game-context.tsx, lines 96-247): a pure
 * function from a state and an action to the next state. The random
 * choices made by the board, reward and target generators are supplied as
 * an `Entropy` value.
 */
module GameContext {
  import opened Wrappers
  import opened GameTypes
  import opened AnswerValidation
  import opened TargetGeneration
  import opened BoardSetup

  /** The random draws one reducer step may consume. */
  datatype Entropy = Entropy(boardDraw: nat -> nat, imageDraw: nat, targetDraws: TargetDraws)

  const INITIAL_STATE: GameState := GameState(DEFAULT_CONFIG, [], ConfigScreen, None)

  /** `board.find((sq) => sq.id === id)`: the first square with that id. */
  function Find(board: seq<Square>, id: int): (r: Option<Square>)
    ensures r.Some? ==> r.value in board && r.value.id == id
    ensures r.Some? ==> exists k :: 0 <= k < |board| && board[k] == r.value &&
                                    (forall j :: 0 <= j < k ==> board[j].id != id)
    ensures r.None? ==> forall k :: 0 <= k < |board| ==> board[k].id != id
  {
    if |board| == 0 then None
    else if board[0].id == id then Some(board[0])
    else Find(board[1..], id)
  }

  /** The id names a square of the board that is still hidden. */
  predicate Unrevealed(board: seq<Square>, id: int) {
    Find(board, id).Some? && !Find(board, id).value.revealed
  }

  /**
   * The values of the selected squares, dropping ids that name no square
   * (`map(find(..)?.value).filter(v => v !== undefined)`).
   */
  function SelectedValues(board: seq<Square>, ids: seq<int>): (vs: seq<int>)
    ensures |vs| <= |ids|
    ensures (forall k :: 0 <= k < |ids| ==> Find(board, ids[k]).Some?) ==>
      |vs| == |ids| && forall k :: 0 <= k < |ids| ==> vs[k] == Find(board, ids[k]).value.value
  {
    if |ids| == 0 then []
    else
      var rest := SelectedValues(board, ids[1..]);
      assert forall k :: 0 < k < |ids| ==> ids[1..][k - 1] == ids[k];
      match Find(board, ids[0])
      case Some(sq) => [sq.value] + rest
      case None => rest
  }

  /** `ids.filter((x) => x !== id)`. */
  function Remove(ids: seq<int>, id: int): (r: seq<int>)
    ensures forall x :: x in r <==> x in ids && x != id
    ensures |r| <= |ids|
    ensures |r| == |ids| - multiset(ids)[id]
  {
    if |ids| == 0 then []
    else
      assert ids == [ids[0]] + ids[1..];
      (if ids[0] == id then [] else [ids[0]]) + Remove(ids[1..], id)
  }

  /**
   * `Remove` is the filter on `x !== id`: it keeps any other id, drops that
   * one, and distributes over concatenation, so the surviving ids keep
   * their order.
   */
  lemma RemoveOfOne(x: int, id: int)
    ensures Remove([x], id) == if x == id then [] else [x]
  {
  }

  lemma {:induction false} RemoveConcat(a: seq<int>, b: seq<int>, id: int)
    ensures Remove(a + b, id) == Remove(a, id) + Remove(b, id)
  {
    if |a| == 0 {
      assert a + b == b;
    } else {
      var head := if a[0] == id then [] else [a[0]];
      RemoveConcatHead(a, b, id);
      RemoveConcat(a[1..], b, id);
      ConcatAssociates(head, Remove(a[1..], id), Remove(b, id));
    }
  }

  /** One step of the filter on a concatenation whose left part is not empty. */
  lemma RemoveConcatHead(a: seq<int>, b: seq<int>, id: int)
    requires |a| > 0
    ensures Remove(a + b, id) == (if a[0] == id then [] else [a[0]]) + Remove(a[1..] + b, id)
    ensures Remove(a, id) == (if a[0] == id then [] else [a[0]]) + Remove(a[1..], id)
  {
    assert (a + b)[0] == a[0] && (a + b)[1..] == a[1..] + b;
  }

  /** `completeGame`: the session is over and nothing stays selected. */
  function CompleteGame(game: ActiveGame, board: seq<Square>): (r: ActiveGame)
    ensures r.isComplete && r.board == board
    ensures r.selectedSquares == [] && r.celebratingSquares == []
    ensures r.(board := game.board, selectedSquares := game.selectedSquares,
               celebratingSquares := game.celebratingSquares, isComplete := game.isComplete) == game
  {
    game.(board := board, selectedSquares := [], celebratingSquares := [], isComplete := true)
  }

  /** The current target of a session, as the generator would report it. */
  function TargetOf(game: ActiveGame): TargetResult {
    TargetResult(game.target, game.currentOperation, game.multiplicationTable,
                 game.multiplicationSwapOrder)
  }

  /** Install a generated target (`...targetInfo`). */
  function WithTarget(game: ActiveGame, t: TargetResult): ActiveGame {
    game.(target := t.target, currentOperation := t.currentOperation,
          multiplicationTable := t.multiplicationTable,
          multiplicationSwapOrder := t.multiplicationSwapOrder)
  }

  /**
   * The board after the celebrating squares are revealed: every square
   * keeps its id and value, and is revealed exactly when it already was or
   * its id is celebrating.
   */
  function MarkRevealed(board: seq<Square>, celebrating: seq<int>): (r: seq<Square>)
    ensures |r| == |board|
    ensures forall k :: 0 <= k < |board| ==>
      && r[k].id == board[k].id
      && r[k].value == board[k].value
      && r[k].revealed == (board[k].revealed || board[k].id in celebrating)
  {
    seq(|board|, k requires 0 <= k < |board| =>
      if board[k].id in celebrating then board[k].(revealed := true) else board[k])
  }

  /** Multiplication and mixed mode need at least one times table. */
  predicate NeedsTimesTables(mode: OperationMode) {
    mode == Multiplication || mode == All
  }

  /** A START_GAME is accepted: times tables are there if needed and a first target exists. */
  predicate StartAccepted(s: GameState, rng: Entropy) {
    && !(NeedsTimesTables(s.config.mode) && |s.config.selectedTimesTables| == 0)
    && GenerateTarget(Board(s.config.boardSize, s.config.maxNumber, rng.boardDraw),
                      s.config.mode, s.config.selectedTimesTables, rng.targetDraws).Some?
  }

  /**
   * START_GAME: rejected (state unchanged) without the needed times tables
   * or without a first target; otherwise a fresh session on a new board,
   * nothing selected, not complete, whose target is the generator's and can
   * be met, and whose reward image is unseen whenever one is.
   */
  function ReduceStartGame(s: GameState, rng: Entropy): (r: GameState)
    ensures !StartAccepted(s, rng) ==> r == s
    ensures StartAccepted(s, rng) ==>
      && r.config == s.config
      && r.unlockedImages == s.unlockedImages
      && r.screen == Playing
      && r.game.Some?
      && var g := r.game.value;
      && g.board == Board(s.config.boardSize, s.config.maxNumber, rng.boardDraw)
      && g.selectedSquares == []
      && g.celebratingSquares == []
      && !g.isComplete
      && GenerateTarget(g.board, s.config.mode, s.config.selectedTimesTables, rng.targetDraws)
         == Some(TargetOf(g))
      && Solvable(Available(g.board), TargetOf(g))
      && g.backgroundImage == ImageUrl(g.backgroundImageNumber)
      && g.backgroundImageNumber in ALL_REWARD_IMAGES
      && ((exists n :: n in ALL_REWARD_IMAGES && n !in s.unlockedImages) ==>
            g.backgroundImageNumber !in s.unlockedImages)
  {
    var config := s.config;
    if NeedsTimesTables(config.mode) && |config.selectedTimesTables| == 0 then s
    else
      var board := Board(config.boardSize, config.maxNumber, rng.boardDraw);
      var image := SelectBackgroundImage(s.unlockedImages, ALL_REWARD_IMAGES, rng.imageDraw);
      var targetInfo := GenerateTarget(board, config.mode, config.selectedTimesTables, rng.targetDraws);
      if targetInfo.None? then s
      else
        GenerateTargetSolvable(board, config.mode, config.selectedTimesTables, rng.targetDraws);
        var t := targetInfo.value;
        s.(screen := Playing,
           game := Some(ActiveGame(board, [], t.target, t.currentOperation, t.multiplicationTable,
                                   t.multiplicationSwapOrder, [], image.imageUrl, image.imageNumber,
                                   false)))
  }

  /** A square may be toggled: a session is running, not complete, and the id names a hidden square. */
  predicate CanToggle(s: GameState, id: int) {
    s.game.Some? && !s.game.value.isComplete && Unrevealed(s.game.value.board, id)
  }

  /**
   * TOGGLE_SQUARE: a no-op unless the square can be toggled. A selected id
   * is deselected. Otherwise a full selection is left alone; a selection
   * that becomes full is checked, and kept and celebrated when correct, or
   * cleared when wrong; a selection that does not become full just grows.
   * Only the two selection lists ever change.
   */
  function ReduceToggleSquare(s: GameState, id: int): (r: GameState)
    ensures r.config == s.config && r.unlockedImages == s.unlockedImages && r.screen == s.screen
    ensures !CanToggle(s, id) ==> r == s
    ensures s.game.Some? ==>
      r.game.Some? &&
      r.game.value == s.game.value.(selectedSquares := r.game.value.selectedSquares,
                                    celebratingSquares := r.game.value.celebratingSquares)
    ensures CanToggle(s, id) ==>
      var g := s.game.value;
      var g' := r.game.value;
      var max := MaxSelections(g.currentOperation);
      var newSelected := g.selectedSquares + [id];
      && (id in g.selectedSquares ==>
            g'.selectedSquares == Remove(g.selectedSquares, id) &&
            g'.celebratingSquares == g.celebratingSquares)
      && (id !in g.selectedSquares && |g.selectedSquares| >= max ==> r == s)
      && (id !in g.selectedSquares && |newSelected| < max ==>
            g'.selectedSquares == newSelected && g'.celebratingSquares == g.celebratingSquares)
      && (id !in g.selectedSquares && |newSelected| == max ==>
            if CheckAnswer(SelectedValues(g.board, newSelected), g.target, g.currentOperation,
                           g.multiplicationTable)
            then g'.selectedSquares == newSelected && g'.celebratingSquares == newSelected
            else g'.selectedSquares == [] && g'.celebratingSquares == g.celebratingSquares)
  {
    if s.game.None? || s.game.value.isComplete then s
    else
      var game := s.game.value;
      var square := Find(game.board, id);
      if square.None? || square.value.revealed then s
      else if id in game.selectedSquares then
        s.(game := Some(game.(selectedSquares := Remove(game.selectedSquares, id))))
      else
        var maxSelections := MaxSelections(game.currentOperation);
        if |game.selectedSquares| >= maxSelections then s
        else
          var newSelected := game.selectedSquares + [id];
          if |newSelected| == maxSelections then
            var selectedValues := SelectedValues(game.board, newSelected);
            if CheckAnswer(selectedValues, game.target, game.currentOperation, game.multiplicationTable) then
              s.(game := Some(game.(selectedSquares := newSelected, celebratingSquares := newSelected)))
            else
              s.(game := Some(game.(selectedSquares := [])))
          else
            s.(game := Some(game.(selectedSquares := newSelected)))
  }

  /** The reward list after a completed board: the image is added unless already there. */
  function Unlock(unlockedImages: seq<int>, imageNumber: int): (r: seq<int>)
    ensures imageNumber in r
    ensures unlockedImages <= r
    ensures forall n :: n in r ==> n in unlockedImages || n == imageNumber
    ensures NoDuplicates(unlockedImages) ==> NoDuplicates(r)
    ensures |r| == if imageNumber in unlockedImages then |unlockedImages| else |unlockedImages| + 1
  {
    if imageNumber in unlockedImages then unlockedImages else unlockedImages + [imageNumber]
  }

  /**
   * REVEAL_SQUARES: the celebrating squares are revealed and both
   * selection lists cleared. A fully revealed board completes the session
   * and unlocks its image once; otherwise a next target is installed, or,
   * when the generator has none, the session completes without unlocking.
   */
  function ReduceRevealSquares(s: GameState, rng: Entropy): (r: GameState)
    ensures s.game.None? ==> r == s
    ensures r.config == s.config && r.screen == s.screen
    ensures s.game.Some? ==>
      var g := s.game.value;
      var newBoard := MarkRevealed(g.board, g.celebratingSquares);
      var next := GenerateTarget(newBoard, s.config.mode, s.config.selectedTimesTables, rng.targetDraws);
      && r.game.Some?
      && var g' := r.game.value;
      && g'.board == newBoard
      && g'.selectedSquares == [] && g'.celebratingSquares == []
      && g'.backgroundImageNumber == g.backgroundImageNumber
      && g'.backgroundImage == g.backgroundImage
      && (AllRevealed(newBoard) ==>
            && g'.isComplete
            && TargetOf(g') == TargetOf(g)
            && r.unlockedImages == Unlock(s.unlockedImages, g.backgroundImageNumber))
      && (!AllRevealed(newBoard) && next.None? ==>
            && g'.isComplete
            && TargetOf(g') == TargetOf(g)
            && r.unlockedImages == s.unlockedImages)
      && (!AllRevealed(newBoard) && next.Some? ==>
            && g'.isComplete == g.isComplete
            && TargetOf(g') == next.value
            && Solvable(Available(newBoard), next.value)
            && r.unlockedImages == s.unlockedImages)
  {
    if s.game.None? then s
    else
      var game := s.game.value;
      var newBoard := MarkRevealed(game.board, game.celebratingSquares);
      if AllRevealed(newBoard) then
        s.(unlockedImages := Unlock(s.unlockedImages, game.backgroundImageNumber),
           game := Some(CompleteGame(game, newBoard)))
      else
        var targetInfo := GenerateTarget(newBoard, s.config.mode, s.config.selectedTimesTables,
                                         rng.targetDraws);
        if targetInfo.None? then
          s.(game := Some(CompleteGame(game, newBoard)))
        else
          GenerateTargetSolvable(newBoard, s.config.mode, s.config.selectedTimesTables, rng.targetDraws);
          s.(game := Some(WithTarget(game.(board := newBoard, selectedSquares := [],
                                           celebratingSquares := []), targetInfo.value)))
  }

  /**
   * `gameReducer`. Each config edit changes that one field and nothing
   * else; EXIT_TO_CONFIG only switches the screen; RESTART_GAME switches
   * the screen and discards the session; RESET_PROGRESS only empties the
   * unlocked images.
   */
  function GameReducer(s: GameState, action: GameAction, rng: Entropy): (r: GameState)
    ensures action.SetMode? ==> r == s.(config := s.config.(mode := action.mode))
    ensures action.SetMaxNumber? ==> r == s.(config := s.config.(maxNumber := action.maxNumber))
    ensures action.SetBoardSize? ==> r == s.(config := s.config.(boardSize := action.boardSize))
    ensures action.SetTimesTables? ==>
      r == s.(config := s.config.(selectedTimesTables := action.timesTables))
    ensures action.ExitToConfig? ==> r == s.(screen := ConfigScreen)
    ensures action.RestartGame? ==> r == s.(screen := ConfigScreen, game := None)
    ensures action.ResetProgress? ==> r == s.(unlockedImages := [])
    ensures action.StartGame? ==> r == ReduceStartGame(s, rng)
    ensures action.ToggleSquare? ==> r == ReduceToggleSquare(s, action.squareId)
    ensures action.RevealSquares? ==> r == ReduceRevealSquares(s, rng)
  {
    match action
    case SetMode(mode) => s.(config := s.config.(mode := mode))
    case SetMaxNumber(maxNumber) => s.(config := s.config.(maxNumber := maxNumber))
    case SetBoardSize(boardSize) => s.(config := s.config.(boardSize := boardSize))
    case SetTimesTables(timesTables) => s.(config := s.config.(selectedTimesTables := timesTables))
    case StartGame => ReduceStartGame(s, rng)
    case ExitToConfig => s.(screen := ConfigScreen)
    case RestartGame => s.(screen := ConfigScreen, game := None)
    case ToggleSquare(squareId) => ReduceToggleSquare(s, squareId)
    case RevealSquares => ReduceRevealSquares(s, rng)
    case ResetProgress => s.(unlockedImages := [])
  }
}
