/**
 * The target generator (src/lib/target-generation.ts): choose the operation
 * for the next move and a target that the unrevealed squares can meet.
 */
module TargetGeneration {
  import opened Wrappers
  import opened GameTypes
  import opened GameHelpers
  import opened AnswerValidation

  /** What the generator hands to the reducer. */
  datatype TargetResult = TargetResult(
    target: int,
    currentOperation: Operation,
    multiplicationTable: Option<int>,
    multiplicationSwapOrder: bool)

  /**
   * The random draws one call of `generateTarget` consumes: one for the
   * operation in mixed mode, one for the square and one for the times table
   * of a multiplication, the coin for the display order, and one for the
   * pairwise target of an addition or subtraction.
   */
  datatype TargetDraws = TargetDraws(op: nat, square: nat, table: nat, swap: bool, pair: nat)

  /**
   * `pickRandom(arr)`: the element at `randomInt(0, arr.length - 1)`. On an
   * empty list that index is 0, which is out of range, so the result is
   * absent.
   */
  function PickRandom<T>(arr: seq<T>, draw: nat): (r: Option<T>)
    ensures r.None? <==> |arr| == 0
    ensures r.Some? ==> r.value in arr
  {
    var i := RandomInt(0, |arr| - 1, draw);
    if 0 <= i < |arr| then Some(arr[i]) else None
  }

  /** Each element of a non-empty list is picked by some draw. */
  lemma PickRandomCovers<T>(arr: seq<T>, i: int)
    requires 0 <= i < |arr|
    ensures exists draw: nat :: PickRandom(arr, draw) == Some(arr[i])
  {
    var draw: nat := i;
    assert RandomInt(0, |arr| - 1, draw) == i;
    assert PickRandom(arr, draw) == Some(arr[i]);
  }

  /** The unrevealed squares, in board order (`board.filter(sq => !sq.revealed)`). */
  function Available(board: seq<Square>): (r: seq<Square>)
    ensures |r| <= |board|
    ensures forall k :: 0 <= k < |r| ==> !r[k].revealed && r[k] in board
    ensures forall k :: 0 <= k < |board| && !board[k].revealed ==> board[k] in r
  {
    if |board| == 0 then []
    else (if board[0].revealed then [] else [board[0]]) + Available(board[1..])
  }

  /**
   * `Available` is the filter on `!revealed`: it keeps a hidden square,
   * drops a revealed one, and distributes over concatenation, so it keeps
   * the board's order and multiplicities.
   */
  lemma AvailableOfOne(sq: Square)
    ensures Available([sq]) == if sq.revealed then [] else [sq]
  {
  }

  lemma {:induction false} AvailableConcat(a: seq<Square>, b: seq<Square>)
    ensures Available(a + b) == Available(a) + Available(b)
  {
    if |a| == 0 {
      assert a + b == b;
    } else {
      var head := if a[0].revealed then [] else [a[0]];
      AvailableConcatHead(a, b);
      AvailableConcat(a[1..], b);
      ConcatAssociates(head, Available(a[1..]), Available(b));
    }
  }

  /** One step of the filter on a concatenation whose left part is not empty. */
  lemma AvailableConcatHead(a: seq<Square>, b: seq<Square>)
    requires |a| > 0
    ensures Available(a + b) == (if a[0].revealed then [] else [a[0]]) + Available(a[1..] + b)
    ensures Available(a) == (if a[0].revealed then [] else [a[0]]) + Available(a[1..])
  {
    assert (a + b)[0] == a[0] && (a + b)[1..] == a[1..] + b;
  }

  lemma ConcatAssociates<T>(x: seq<T>, y: seq<T>, z: seq<T>)
    ensures x + (y + z) == (x + y) + z
  {
  }

  /** A board has no available square exactly when every square is revealed. */
  lemma {:induction false} AvailableEmptyIffAllRevealed(board: seq<Square>)
    ensures |Available(board)| == 0 <==> AllRevealed(board)
  {
    if |board| > 0 {
      AvailableEmptyIffAllRevealed(board[1..]);
      if AllRevealed(board) {
        assert forall k :: 0 <= k < |board[1..]| ==> board[1..][k] == board[k + 1];
      }
      if |Available(board)| == 0 {
        forall k | 0 <= k < |board| ensures board[k].revealed {
          if k > 0 { assert board[k] == board[1..][k - 1]; }
        }
      }
    }
  }

  /**
   * `selectOperation`: a fixed mode is used as it is; mixed mode forces
   * multiplication for one square, picks addition or subtraction for two,
   * and picks any of the three otherwise.
   */
  function SelectOperation(mode: OperationMode, availableCount: int, draw: nat): (op: Operation)
    ensures mode != All ==> op == mode
    ensures mode == All && availableCount == 1 ==> op == Multiplication
    ensures mode == All && availableCount == 2 ==> op != Multiplication
  {
    if mode != All then mode
    else if availableCount == 1 then Multiplication
    else if availableCount == 2 then
      var ops: seq<Operation> := [Addition, Subtraction];
      PickRandom(ops, draw).GetOr(Addition)
    else
      var ops: seq<Operation> := [Addition, Subtraction, Multiplication];
      PickRandom(ops, draw).GetOr(Addition)
  }

  /** In mixed mode every operation the count allows is chosen by some draw. */
  lemma SelectOperationCovers(availableCount: int, op: Operation)
    requires availableCount != 1
    requires availableCount == 2 ==> op != Multiplication
    ensures exists draw: nat :: SelectOperation(All, availableCount, draw) == op
  {
    var i: nat := if op == Addition then 0 else if op == Subtraction then 1 else 2;
    assert SelectOperation(All, availableCount, i) == op;
  }

  /**
   * The target of every unordered pair of available squares, pair (i, j)
   * with i < j, in the order of the source's `flatMap` over `slice(i + 1)`.
   */
  function PairTargets(op: Operation, avail: seq<Square>): (r: seq<int>)
    ensures 2 * |r| == |avail| * (|avail| - 1)
  {
    if |avail| == 0 then []
    else
      seq(|avail| - 1, k requires 0 <= k < |avail| - 1 =>
        CalculateTarget(op, avail[0].value, avail[k + 1].value))
      + PairTargets(op, avail[1..])
  }

  /** Every pairwise target comes from a pair of distinct available squares. */
  lemma {:induction false} PairTargetsSound(op: Operation, avail: seq<Square>, k: int)
    requires 0 <= k < |PairTargets(op, avail)|
    ensures exists i, j ::
      0 <= i < j < |avail| &&
      PairTargets(op, avail)[k] == CalculateTarget(op, avail[i].value, avail[j].value)
  {
    var n := |avail|;
    if k < n - 1 {
      assert PairTargets(op, avail)[k] == CalculateTarget(op, avail[0].value, avail[k + 1].value);
    } else {
      var rest := avail[1..];
      PairTargetsSound(op, rest, k - (n - 1));
      var i, j :| 0 <= i < j < |rest| &&
        PairTargets(op, rest)[k - (n - 1)] == CalculateTarget(op, rest[i].value, rest[j].value);
      assert rest[i] == avail[i + 1] && rest[j] == avail[j + 1];
    }
  }

  /** Every pair of distinct available squares contributes its target. */
  lemma {:induction false} PairTargetsComplete(op: Operation, avail: seq<Square>, i: int, j: int)
    requires 0 <= i < j < |avail|
    ensures CalculateTarget(op, avail[i].value, avail[j].value) in PairTargets(op, avail)
  {
    var n := |avail|;
    if i == 0 {
      assert PairTargets(op, avail)[j - 1] == CalculateTarget(op, avail[0].value, avail[j].value);
    } else {
      var rest := avail[1..];
      PairTargetsComplete(op, rest, i - 1, j - 1);
      assert rest[i - 1] == avail[i] && rest[j - 1] == avail[j];
      var r := PairTargets(op, rest);
      var m :| 0 <= m < |r| && r[m] == CalculateTarget(op, avail[i].value, avail[j].value);
      assert PairTargets(op, avail)[(n - 1) + m] == r[m];
    }
  }

  /**
   * `generateTarget`. Absent when no square is unrevealed; for a
   * multiplication, absent when no times table is selected or the picked
   * table is 0 (the source's falsy test); for an addition or subtraction,
   * absent with fewer than two unrevealed squares or when the picked target
   * is 0 (the same falsy test).
   */
  function GenerateTarget(board: seq<Square>, mode: OperationMode, selectedTimesTables: seq<int>,
                          draws: TargetDraws): (r: Option<TargetResult>)
    ensures |Available(board)| == 0 ==> r.None?
    ensures r.Some? ==>
      r.value.currentOperation == SelectOperation(mode, |Available(board)|, draws.op)
    ensures r.Some? && r.value.currentOperation == Multiplication ==>
      && r.value.multiplicationTable.Some?
      && r.value.multiplicationTable.value in selectedTimesTables
      && r.value.multiplicationTable.value != 0
      && r.value.multiplicationSwapOrder == draws.swap
      && exists sq :: sq in Available(board) &&
           r.value.target == sq.value * r.value.multiplicationTable.value
    ensures r.Some? && r.value.currentOperation != Multiplication ==>
      && |Available(board)| >= 2
      && r.value.multiplicationTable.None?
      && !r.value.multiplicationSwapOrder
      && r.value.target != 0
      && r.value.target in PairTargets(r.value.currentOperation, Available(board))
    ensures
      (SelectOperation(mode, |Available(board)|, draws.op) == Multiplication &&
       |selectedTimesTables| == 0) ==> r.None?
    ensures r.None? <==>
      var n := |Available(board)|;
      var op := SelectOperation(mode, n, draws.op);
      || n == 0
      || (op == Multiplication &&
          (PickRandom(selectedTimesTables, draws.table).None? ||
           PickRandom(selectedTimesTables, draws.table) == Some(0)))
      || (op != Multiplication &&
          (n < 2 || PickRandom(PairTargets(op, Available(board)), draws.pair) == Some(0)))
  {
    var availableSquares := Available(board);
    if |availableSquares| == 0 then None
    else
      var operation := SelectOperation(mode, |availableSquares|, draws.op);
      if operation == Multiplication then
        var square := PickRandom(availableSquares, draws.square);
        var timesTable := PickRandom(selectedTimesTables, draws.table);
        if square.None? || timesTable.None? || timesTable.value == 0 then None
        else Some(TargetResult(square.value.value * timesTable.value, operation,
                               Some(timesTable.value), draws.swap))
      else if |availableSquares| < 2 then None
      else
        var target := PickRandom(PairTargets(operation, availableSquares), draws.pair);
        if target.None? || target.value == 0 then None
        else Some(TargetResult(target.value, operation, None, false))
  }

  /**
   * The target can be met by the unrevealed squares: by one square when the
   * operation is a multiplication by a table, otherwise by two squares at
   * distinct positions, as judged by `checkAnswer`.
   */
  ghost predicate Solvable(avail: seq<Square>, t: TargetResult) {
    if t.currentOperation == Multiplication && t.multiplicationTable.Some? then
      exists i :: 0 <= i < |avail| &&
        CheckAnswer([avail[i].value], t.target, t.currentOperation, t.multiplicationTable)
    else
      exists i, j :: 0 <= i < j < |avail| &&
        CheckAnswer([avail[i].value, avail[j].value], t.target, t.currentOperation,
                    t.multiplicationTable)
  }

  /** A multiplication by a table whose target is some available value times the table is solvable. */
  lemma MultiplicationSolvable(avail: seq<Square>, t: TargetResult)
    requires t.currentOperation == Multiplication && t.multiplicationTable.Some?
    requires exists sq :: sq in avail && t.target == sq.value * t.multiplicationTable.value
    ensures Solvable(avail, t)
  {
    var sq :| sq in avail && t.target == sq.value * t.multiplicationTable.value;
    var i :| 0 <= i < |avail| && avail[i] == sq;
    assert CheckAnswer([avail[i].value], t.target, t.currentOperation, t.multiplicationTable);
  }

  /** An addition or subtraction whose target is one of the pairwise targets is solvable. */
  lemma PairSolvable(avail: seq<Square>, t: TargetResult)
    requires t.currentOperation != Multiplication
    requires t.target in PairTargets(t.currentOperation, avail)
    ensures Solvable(avail, t)
  {
    var targets := PairTargets(t.currentOperation, avail);
    var k :| 0 <= k < |targets| && targets[k] == t.target;
    PairTargetsSound(t.currentOperation, avail, k);
    var i, j :| 0 <= i < j < |avail| &&
      targets[k] == CalculateTarget(t.currentOperation, avail[i].value, avail[j].value);
    assert CheckAnswer([avail[i].value, avail[j].value], t.target, t.currentOperation,
                       t.multiplicationTable);
  }

  /** Solvability: every target the generator produces can be met. */
  lemma GenerateTargetSolvable(board: seq<Square>, mode: OperationMode, selectedTimesTables: seq<int>,
                               draws: TargetDraws)
    requires GenerateTarget(board, mode, selectedTimesTables, draws).Some?
    ensures Solvable(Available(board), GenerateTarget(board, mode, selectedTimesTables, draws).value)
  {
    var t := GenerateTarget(board, mode, selectedTimesTables, draws).value;
    if t.currentOperation == Multiplication {
      MultiplicationSolvable(Available(board), t);
    } else {
      PairSolvable(Available(board), t);
    }
  }

  /**
   * The falsy test on the picked target: a subtraction target of 0 (two
   * equal values) makes the generator return nothing.
   */
  lemma ZeroTargetIsRejected(board: seq<Square>, mode: OperationMode, selectedTimesTables: seq<int>,
                             draws: TargetDraws)
    requires SelectOperation(mode, |Available(board)|, draws.op) != Multiplication
    requires |Available(board)| >= 2
    requires PickRandom(PairTargets(SelectOperation(mode, |Available(board)|, draws.op),
                                    Available(board)), draws.pair) == Some(0)
    ensures GenerateTarget(board, mode, selectedTimesTables, draws).None?
  {
  }

  /**
   * Two hidden squares of equal value give no subtraction target: their only
   * pairwise target is 0, which the falsy test rejects. This holds whenever
   * the operation is subtraction, in subtraction mode or drawn in mixed mode.
   */
  lemma EqualPairNoTarget(board: seq<Square>, mode: OperationMode, tables: seq<int>,
                          draws: TargetDraws)
    requires |Available(board)| == 2 && Available(board)[0].value == Available(board)[1].value
    requires SelectOperation(mode, 2, draws.op) == Subtraction
    ensures GenerateTarget(board, mode, tables, draws).None?
  {
    var avail := Available(board);
    assert PairTargets(Subtraction, avail[1..]) == [];
    assert PairTargets(Subtraction, avail) == [0];
  }
}
