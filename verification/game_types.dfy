/**
 * The game's data model: operation modes, squares, configuration, the
 * active session, the whole reducer state and the actions it accepts
 * (src/contexts/game-context.tsx, lines 14-64 and 70-84).
 */
module GameTypes {
  import opened Wrappers

  /** The configured mode; `All` mixes the three operations move by move. */
  datatype OperationMode = Addition | Subtraction | Multiplication | All

  /** A concrete operation: any mode except `All`. */
  type Operation = m: OperationMode | m != All witness Addition

  /** One cell of the board. */
  datatype Square = Square(id: int, value: int, revealed: bool)

  datatype GameConfig = GameConfig(
    mode: OperationMode,
    maxNumber: int,
    boardSize: int,
    selectedTimesTables: seq<int>)

  /** The state of a session in progress. */
  datatype ActiveGame = ActiveGame(
    board: seq<Square>,
    selectedSquares: seq<int>,
    target: int,
    currentOperation: Operation,
    multiplicationTable: Option<int>,
    multiplicationSwapOrder: bool,
    celebratingSquares: seq<int>,
    backgroundImage: string,
    backgroundImageNumber: int,
    isComplete: bool)

  datatype Screen = ConfigScreen | Playing

  datatype GameState = GameState(
    config: GameConfig,
    unlockedImages: seq<int>,
    screen: Screen,
    game: Option<ActiveGame>)

  datatype GameAction =
    | SetMode(mode: OperationMode)
    | SetMaxNumber(maxNumber: int)
    | SetBoardSize(boardSize: int)
    | SetTimesTables(timesTables: seq<int>)
    | StartGame
    | ExitToConfig
    | RestartGame
    | ToggleSquare(squareId: int)
    | RevealSquares
    | ResetProgress

  const DEFAULT_CONFIG: GameConfig := GameConfig(Addition, 12, 6, [2, 5, 10])

  /** The reward catalogue: images 1 to 12. */
  const ALL_REWARD_IMAGES: seq<int> := [1, 2, 3, 4, 5, 6, 7, 8, 9, 10, 11, 12]

  /** At most this many squares may be selected for one move. */
  function MaxSelections(op: Operation): (max: int)
    ensures max == 1 <==> op == Multiplication
    ensures 1 <= max <= 2
  {
    if op == Multiplication then 1 else 2
  }

  /** No value occurs twice. */
  predicate NoDuplicates(s: seq<int>) {
    forall i, j :: 0 <= i < j < |s| ==> s[i] != s[j]
  }

  /** Every square on the board has been revealed (`board.every(sq => sq.revealed)`). */
  predicate AllRevealed(board: seq<Square>) {
    forall i :: 0 <= i < |board| ==> board[i].revealed
  }
}
