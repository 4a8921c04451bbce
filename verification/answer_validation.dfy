/** The answer validator (src/lib/answer-validation.ts). */
module AnswerValidation {
  import opened Wrappers
  import opened GameTypes
  import opened GameHelpers

  /**
   * `checkAnswer`: does the selection of values meet the target? A
   * multiplication with a table wants exactly one value times the table;
   * everything else (a multiplication without a table included) wants
   * exactly two values whose distance (subtraction) or sum (otherwise) is
   * the target.
   */
  function CheckAnswer(selectedValues: seq<int>, target: int, currentOp: Operation,
                       multiplicationTable: Option<int>): (ok: bool)
    ensures currentOp == Multiplication && multiplicationTable.Some? ==>
      (ok <==> |selectedValues| == 1 &&
               CalculateTarget(Multiplication, selectedValues[0], multiplicationTable.value) == target)
    ensures !(currentOp == Multiplication && multiplicationTable.Some?) ==>
      (ok <==> |selectedValues| == 2 &&
               CalculateTarget(if currentOp == Subtraction then Subtraction else Addition,
                               selectedValues[0], selectedValues[1]) == target)
  {
    if currentOp == Multiplication && multiplicationTable.Some? then
      |selectedValues| == 1 && selectedValues[0] * multiplicationTable.value == target
    else if |selectedValues| != 2 then
      false
    else if currentOp == Subtraction then
      Abs(selectedValues[0] - selectedValues[1]) == target
    else
      selectedValues[0] + selectedValues[1] == target
  }

  /** Two values are accepted in either order. */
  lemma CheckAnswerOrderIndependent(v1: int, v2: int, target: int, currentOp: Operation,
                                    multiplicationTable: Option<int>)
    ensures CheckAnswer([v1, v2], target, currentOp, multiplicationTable)
         == CheckAnswer([v2, v1], target, currentOp, multiplicationTable)
  {
    var op: Operation := if currentOp == Subtraction then Subtraction else Addition;
    CalculateTargetSymmetric(op, v1, v2);
  }

  /** Only the selection sizes the operation asks for can be correct. */
  lemma CheckAnswerNeedsSelectionSize(selectedValues: seq<int>, target: int, currentOp: Operation,
                                      multiplicationTable: Option<int>)
    requires CheckAnswer(selectedValues, target, currentOp, multiplicationTable)
    ensures |selectedValues| == (if currentOp == Multiplication && multiplicationTable.Some? then 1 else 2)
  {
  }

  /**
   * The selection cap is the size of an answer: whenever a multiplication
   * carries a table, as every generated one does, an accepted selection
   * holds exactly `MaxSelections` values, so the check at the cap is the
   * only one that can succeed.
   */
  lemma AcceptedAnswerFillsCap(selectedValues: seq<int>, target: int, currentOp: Operation,
                               multiplicationTable: Option<int>)
    requires currentOp == Multiplication ==> multiplicationTable.Some?
    requires CheckAnswer(selectedValues, target, currentOp, multiplicationTable)
    ensures |selectedValues| == MaxSelections(currentOp)
  {
    CheckAnswerNeedsSelectionSize(selectedValues, target, currentOp, multiplicationTable);
  }
}
