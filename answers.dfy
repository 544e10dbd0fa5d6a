/** Marking the option buttons once the learner picks an answer, shared by
    the result quiz and the step-trace quiz. */
module Answers {

  /** One answer option of a question or a step. */
  datatype AnswerOption = AnswerOption(text: string, isCorrect: bool)

  /** What the page has set on one option button: its `disabled` property
      and whether the `correct` and `incorrect` classes are on it. */
  datatype ButtonState = ButtonState(disabled: bool, correct: bool, incorrect: bool)

  /** A freshly rendered option button. */
  const Enabled := ButtonState(false, false, false)

  /** `options.findIndex(o => o.isCorrect)`: the first correct option, or -1. */
  function FindIndex(options: seq<AnswerOption>): (k: int)
    ensures -1 <= k < |options|
    ensures k == -1 <==> forall i :: 0 <= i < |options| ==> !options[i].isCorrect
    ensures k != -1 ==> options[k].isCorrect && forall i :: 0 <= i < k ==> !options[i].isCorrect
  {
    if options == [] then -1
    else if options[0].isCorrect then 0
    else
      var k := FindIndex(options[1..]);
      if k == -1 then -1 else k + 1
  }

  /** The state of freshly rendered buttons after the learner picks `chosen`:
      every button is disabled, the pick is marked correct or incorrect, and
      after a wrong pick the first correct option, if any, is marked correct. */
  function Feedback(options: seq<AnswerOption>, chosen: nat): (marks: seq<ButtonState>)
    requires chosen < |options|
    ensures |marks| == |options|
    ensures forall i :: 0 <= i < |marks| ==> marks[i].disabled
    ensures options[chosen].isCorrect ==>
      forall i :: 0 <= i < |marks| ==> (marks[i].correct <==> i == chosen) && !marks[i].incorrect
    ensures !options[chosen].isCorrect ==>
      forall i :: 0 <= i < |marks| ==>
        (marks[i].incorrect <==> i == chosen) &&
        (marks[i].correct <==> options[i].isCorrect && forall j :: 0 <= j < i ==> !options[j].isCorrect)
    ensures (forall i :: 0 <= i < |options| ==> !options[i].isCorrect) ==>
      forall i :: 0 <= i < |marks| ==> !marks[i].correct && (marks[i].incorrect <==> i == chosen)
    ensures forall i :: 0 <= i < |marks| ==> !(marks[i].correct && marks[i].incorrect)
  {
    var right := options[chosen].isCorrect;
    var shown := if right then chosen else FindIndex(options);
    seq(|options|, i requires 0 <= i < |options| =>
      ButtonState(true, i == shown, !right && i == chosen))
  }

  /** `classList.add` for the two marking classes and `disabled = true`:
      flags only ever get switched on. */
  function AddMarks(before: ButtonState, marks: ButtonState): (after: ButtonState)
    ensures (before.disabled ==> after.disabled) && (before.correct ==> after.correct) &&
            (before.incorrect ==> after.incorrect)
    ensures (marks.disabled ==> after.disabled) && (marks.correct ==> after.correct) &&
            (marks.incorrect ==> after.incorrect)
    ensures before == Enabled ==> after == marks
  {
    ButtonState(before.disabled || marks.disabled, before.correct || marks.correct,
                before.incorrect || marks.incorrect)
  }

  /** Disables every button, then adds the marking classes of Feedback to
      the buttons the page reaches through `btn` and `buttons[correctIndex]`. */
  method MarkAnswer(buttons: array<ButtonState>, options: seq<AnswerOption>, chosen: nat)
    requires buttons.Length == |options| && chosen < |options|
    modifies buttons
    ensures forall i :: 0 <= i < buttons.Length ==>
      buttons[i] == AddMarks(old(buttons[i]), Feedback(options, chosen)[i])
  {
    var i := 0;
    while i < buttons.Length
      invariant 0 <= i <= buttons.Length
      invariant forall k :: 0 <= k < i ==> buttons[k] == old(buttons[k]).(disabled := true)
      invariant forall k :: i <= k < buttons.Length ==> buttons[k] == old(buttons[k])
    {
      buttons[i] := buttons[i].(disabled := true);
      i := i + 1;
    }
    if options[chosen].isCorrect {
      buttons[chosen] := buttons[chosen].(correct := true);
    } else {
      buttons[chosen] := buttons[chosen].(incorrect := true);
      var correctIndex := FindIndex(options);
      if correctIndex != -1 {
        buttons[correctIndex] := buttons[correctIndex].(correct := true);
      }
    }
  }
}
