/** The quiz page's progression: which question bank is loaded, which
    question and which step of a step-trace question is on screen, and how
    answering and the "next" button move through them. */
module Quiz {
  import opened Answers

  datatype Option<T> = None | Some(value: T)

  /** One step of a step-trace question: the code line it highlights and
      the options offered for it. */
  datatype Step = Step(line: int, options: seq<AnswerOption>)

  /** A question as the question bank gives it. `kind` is the JSON `type`
      field; `options` is used by result questions, `steps` by step-trace
      questions. */
  datatype Question = Question(kind: string, code: string, options: seq<AnswerOption>, steps: seq<Step>)

  /** The only type tag the page dispatches on. */
  predicate IsStepTrace(q: Question)
  {
    q.kind == "step-trace"
  }

  /** The question bank file startMode fetches for a mode. */
  function DataFile(mode: string): (file: Option<string>)
    ensures file.Some? <==> mode == "result" || mode == "step-trace"
    ensures mode == "result" ==> file == Some("./data/questions_qa.json")
    ensures mode == "step-trace" ==> file == Some("./data/questions_trace.json")
  {
    if mode == "result" then Some("./data/questions_qa.json")
    else if mode == "step-trace" then Some("./data/questions_trace.json")
    else None
  }

  /** What fetching a question bank gave: a failed request (the page shows
      an error panel), a body that parsed to a falsy JSON value such as
      `null`, or a list of questions. */
  datatype FetchResult = FetchFailed | FalsyBody | Fetched(list: seq<Question>)

  /** What the page shows. StepTraceHalted is the step-trace skeleton whose
      question section stays empty because rendering a step-trace question
      without steps raises a TypeError. */
  datatype Screen =
    | ModeSelection
    | LoadError
    | NoQuestions
    | ResultView
    | StepView
    | StepTraceHalted
    | Completed

  /** The button the feedback panel offers after an answer, by its onclick. */
  datatype NextButton = NoButton | ToNextStep | ToNextQuestion

  /** The routing of checkStepAnswer: the last step leads to the next
      question, every other step to the next step. */
  function StepRoute(stepIndex: nat, stepCount: nat): (next: NextButton)
    ensures next != NoButton
    ensures stepIndex < stepCount ==> (next == ToNextStep <==> stepIndex + 1 < stepCount)
    ensures stepIndex < stepCount ==> (next == ToNextQuestion <==> stepIndex + 1 == stepCount)
  {
    if stepIndex == stepCount - 1 then ToNextQuestion else ToNextStep
  }

  /** The view renderQuestion dispatches to for a question. */
  function ScreenFor(q: Question): (s: Screen)
    ensures s == ResultView <==> !IsStepTrace(q)
    ensures s == StepView <==> IsStepTrace(q) && |q.steps| > 0
    ensures s == StepTraceHalted <==> IsStepTrace(q) && |q.steps| == 0
  {
    if !IsStepTrace(q) then ResultView
    else if |q.steps| == 0 then StepTraceHalted
    else StepView
  }

  /** The module-level state of the page: the questions of the current mode,
      the two indices, and the part of the page the model follows: the
      view, the option buttons and the feedback panel's next button. */
  class QuizSession {
    var questions: seq<Question>
    var currentQuestionIndex: nat
    var currentStepIndex: nat
    var screen: Screen
    var buttons: array<ButtonState>
    var nextButton: NextButton

    ghost predicate ShowsQuestion()
      reads this
    {
      screen == ResultView || screen == StepView
    }

    ghost predicate ModeSelectionVisible()
      reads this
    {
      screen == ModeSelection || screen == LoadError
    }

    ghost function CurrentQuestion(): Question
      reads this
      requires currentQuestionIndex < |questions|
    {
      questions[currentQuestionIndex]
    }

    /** The options whose buttons are on screen. */
    ghost function ShownOptions(): seq<AnswerOption>
      reads this
      requires ValidIndices()
      requires ShowsQuestion()
    {
      if screen == ResultView then CurrentQuestion().options
      else CurrentQuestion().steps[currentStepIndex].options
    }

    /** The indices point at the question (and step) on screen. */
    ghost predicate ValidIndices()
      reads this
    {
      && (screen == ResultView ==>
            currentQuestionIndex < |questions| && !IsStepTrace(CurrentQuestion()))
      && (screen == StepView ==>
            currentQuestionIndex < |questions| && IsStepTrace(CurrentQuestion()) &&
            currentStepIndex < |CurrentQuestion().steps|)
      && (screen == StepTraceHalted ==>
            currentQuestionIndex < |questions| && IsStepTrace(CurrentQuestion()) &&
            |CurrentQuestion().steps| == 0)
      && (screen == Completed ==> currentQuestionIndex >= |questions|)
      && (ModeSelectionVisible() || screen == NoQuestions ==> questions == [])
    }

    ghost predicate Valid()
      reads this, buttons
    {
      && ValidIndices()
      && (ShowsQuestion() ==> buttons.Length == |ShownOptions()|)
      // the feedback panel only exists below an answered question
      && (nextButton != NoButton ==> ShowsQuestion())
      && (nextButton == ToNextStep ==>
            screen == StepView && currentStepIndex + 1 < |CurrentQuestion().steps|)
      && (nextButton == ToNextQuestion && screen == StepView ==>
            currentStepIndex + 1 == |CurrentQuestion().steps|)
      // before an answer every button is fresh, after it every one is disabled
      && (ShowsQuestion() && nextButton == NoButton ==>
            forall i :: 0 <= i < buttons.Length ==> buttons[i] == Enabled)
      && (ShowsQuestion() && nextButton != NoButton ==>
            forall i :: 0 <= i < buttons.Length ==> buttons[i].disabled)
    }

    /** The page as loaded: no questions, both indices 0, mode selection shown. */
    constructor ()
      ensures Valid() && fresh(buttons)
      ensures questions == [] && currentQuestionIndex == 0 && currentStepIndex == 0
      ensures screen == ModeSelection && nextButton == NoButton
    {
      questions := [];
      currentQuestionIndex := 0;
      currentStepIndex := 0;
      screen := ModeSelection;
      buttons := new ButtonState[0];
      nextButton := NoButton;
    }

    /** Replaces the option grid (and with it the feedback panel) by fresh
        buttons for `options`. */
    method RenderOptions(options: seq<AnswerOption>)
      modifies this
      ensures fresh(buttons) && buttons.Length == |options|
      ensures forall i :: 0 <= i < buttons.Length ==> buttons[i] == Enabled
      ensures nextButton == NoButton
      ensures questions == old(questions) && screen == old(screen)
      ensures currentQuestionIndex == old(currentQuestionIndex)
      ensures currentStepIndex == old(currentStepIndex)
    {
      buttons := new ButtonState[|options|](_ => Enabled);
      nextButton := NoButton;
    }

    /** startMode(modeType), with the outcome of fetching the mode's data
        file given as `response` (ignored when the mode has no file). */
    method StartMode(mode: string, response: FetchResult)
      requires Valid() && ModeSelectionVisible()
      modifies this
      ensures Valid()
      ensures buttons == old(buttons) || fresh(buttons)
      ensures DataFile(mode).None? ==> unchanged(this)
      ensures DataFile(mode).Some? && response == FetchFailed ==>
        screen == LoadError && questions == old(questions) && nextButton == NoButton &&
        currentQuestionIndex == old(currentQuestionIndex) &&
        currentStepIndex == old(currentStepIndex)
      ensures DataFile(mode).Some? && response == FalsyBody ==> unchanged(this)
      ensures DataFile(mode).Some? && response.Fetched? && response.list == [] ==>
        questions == response.list && unchanged(this)
      ensures DataFile(mode).Some? && response.Fetched? && response.list != [] ==>
        questions == response.list && currentQuestionIndex == 0 && currentStepIndex == 0 &&
        screen == ScreenFor(questions[0]) && nextButton == NoButton
    {
      var file := DataFile(mode);
      if file.None? {
        return;
      }
      if response == FetchFailed {
        screen := LoadError;
        return;
      }
      if response == FalsyBody {
        return;
      }
      questions := response.list;
      if |questions| == 0 {
        return;
      }
      currentQuestionIndex := 0;
      RenderQuestion();
    }

    /** renderQuestion(): resets the step index and dispatches on the
        question's type tag. */
    method RenderQuestion()
      requires |questions| == 0 || currentQuestionIndex < |questions|
      modifies this
      ensures Valid()
      ensures buttons == old(buttons) || fresh(buttons)
      ensures questions == old(questions) && currentQuestionIndex == old(currentQuestionIndex)
      ensures nextButton == NoButton
      ensures |questions| == 0 ==> screen == NoQuestions && currentStepIndex == old(currentStepIndex)
      ensures |questions| > 0 ==> currentStepIndex == 0 && screen == ScreenFor(CurrentQuestion())
    {
      if |questions| == 0 {
        screen := NoQuestions;
        nextButton := NoButton;
        return;
      }
      var question := questions[currentQuestionIndex];
      currentStepIndex := 0;
      if IsStepTrace(question) {
        UpdateStepUI();
      } else {
        RenderOptions(question.options);
        screen := ResultView;
      }
    }

    /** updateStepUI(): shows the current step of a step-trace question. With
        no step at the index, reading the step's line raises a TypeError and
        the question section stays empty. */
    method UpdateStepUI()
      requires currentQuestionIndex < |questions| && IsStepTrace(CurrentQuestion())
      requires currentStepIndex < |CurrentQuestion().steps| || |CurrentQuestion().steps| == 0
      modifies this
      ensures Valid()
      ensures buttons == old(buttons) || fresh(buttons)
      ensures questions == old(questions) && currentQuestionIndex == old(currentQuestionIndex)
      ensures currentStepIndex == old(currentStepIndex) && nextButton == NoButton
      ensures screen == (if |CurrentQuestion().steps| == 0 then StepTraceHalted else StepView)
    {
      var question := questions[currentQuestionIndex];
      if |question.steps| == 0 {
        RenderOptions([]);
        screen := StepTraceHalted;
        return;
      }
      RenderOptions(question.steps[currentStepIndex].options);
      screen := StepView;
    }

    /** nextStep(): reached only through the "next step" button, which
        checkStepAnswer offers when a later step exists. */
    method NextStep()
      requires Valid() && screen == StepView
      requires currentStepIndex + 1 < |CurrentQuestion().steps|
      modifies this
      ensures Valid()
      ensures buttons == old(buttons) || fresh(buttons)
      ensures currentStepIndex == old(currentStepIndex) + 1 && screen == StepView
      ensures questions == old(questions) && currentQuestionIndex == old(currentQuestionIndex)
      ensures nextButton == NoButton
    {
      currentStepIndex := currentStepIndex + 1;
      UpdateStepUI();
    }

    /** nextQuestion(): moves to the next question, or shows the completion
        view when there is none; the step index is then left as it was. */
    method NextQuestion()
      requires Valid()
      modifies this
      ensures Valid()
      ensures buttons == old(buttons) || fresh(buttons)
      ensures questions == old(questions) && currentQuestionIndex == old(currentQuestionIndex) + 1
      ensures nextButton == NoButton
      ensures currentQuestionIndex < |questions| ==>
        currentStepIndex == 0 && screen == ScreenFor(CurrentQuestion())
      ensures currentQuestionIndex >= |questions| ==>
        screen == Completed && currentStepIndex == old(currentStepIndex)
    {
      currentQuestionIndex := currentQuestionIndex + 1;
      if currentQuestionIndex < |questions| {
        RenderQuestion();
      } else {
        RenderOptions([]);
        screen := Completed;
      }
    }

    /** checkAnswer(btn, isCorrect) on a result question, `btn` being the
        button of option `chosen`; a disabled button cannot be clicked. */
    method CheckAnswer(chosen: nat)
      requires Valid() && screen == ResultView
      requires chosen < buttons.Length && !buttons[chosen].disabled
      modifies buttons, this`nextButton
      ensures Valid()
      ensures buttons[..] == Feedback(CurrentQuestion().options, chosen)
      ensures nextButton == ToNextQuestion
    {
      MarkAnswer(buttons, questions[currentQuestionIndex].options, chosen);
      nextButton := ToNextQuestion;
      assert buttons[..] == Feedback(CurrentQuestion().options, chosen);
    }

    /** checkStepAnswer(btn, isCorrect) on the current step; the feedback
        panel then leads to the next question after the last step and to the
        next step otherwise. */
    method CheckStepAnswer(chosen: nat)
      requires Valid() && screen == StepView
      requires chosen < buttons.Length && !buttons[chosen].disabled
      modifies buttons, this`nextButton
      ensures Valid()
      ensures buttons[..] == Feedback(CurrentQuestion().steps[currentStepIndex].options, chosen)
      ensures nextButton == StepRoute(currentStepIndex, |CurrentQuestion().steps|)
      ensures nextButton == ToNextQuestion <==> currentStepIndex == |CurrentQuestion().steps| - 1
    {
      var question := questions[currentQuestionIndex];
      var step := question.steps[currentStepIndex];
      MarkAnswer(buttons, step.options, chosen);
      nextButton := StepRoute(currentStepIndex, |question.steps|);
      assert buttons[..] == Feedback(step.options, chosen);
    }

    /** A click on the feedback panel's button: its onclick runs nextStep()
        or nextQuestion(). Driven this way the step index stays within the
        question's steps and the question index never passes the end. */
    method PressNext()
      requires Valid() && nextButton != NoButton
      modifies this
      ensures Valid()
      ensures buttons == old(buttons) || fresh(buttons)
      ensures questions == old(questions) && nextButton == NoButton
      ensures old(nextButton) == ToNextStep ==>
        currentQuestionIndex == old(currentQuestionIndex) &&
        currentStepIndex == old(currentStepIndex) + 1 && screen == StepView
      ensures old(nextButton) == ToNextQuestion ==>
        currentQuestionIndex == old(currentQuestionIndex) + 1 &&
        currentQuestionIndex <= |questions| &&
        (screen == Completed <==> currentQuestionIndex == |questions|)
      ensures old(nextButton) == ToNextQuestion && currentQuestionIndex < |questions| ==>
        currentStepIndex == 0 && screen == ScreenFor(CurrentQuestion())
      ensures old(nextButton) == ToNextQuestion && currentQuestionIndex == |questions| ==>
        currentStepIndex == old(currentStepIndex)
    {
      if nextButton == ToNextStep {
        NextStep();
      } else {
        NextQuestion();
      }
    }
  }

  /** A whole session with a bank of one step-trace question of one step:
      start the mode, answer the step, follow the feedback button, and the
      completion view is reached. */
  method OneStepQuizRun(q: Question) returns (session: QuizSession)
    requires IsStepTrace(q) && |q.steps| == 1 && |q.steps[0].options| >= 1
    ensures session.screen == Completed
    ensures session.questions == [q] && session.currentQuestionIndex == 1
  {
    session := new QuizSession();
    session.StartMode("step-trace", Fetched([q]));
    session.CheckStepAnswer(0);
    session.PressNext();
  }
}
