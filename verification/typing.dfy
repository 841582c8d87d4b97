/** The typing drill: the meaning of a word is shown and its spelling must be typed.
    The pool is every word of a day range, shuffled; answers are compared after
    trimming and lower-casing; a hint and the full answer can be revealed; the
    drill starts over when the pool is exhausted. */
module Typing {
  import opened Text
  import opened Catalog
  import opened Shuffle
  import opened Progress
  import opened Stats

  /** The drill's session variables. `locked` is the input field's `disabled`
      state, `hint` the letter the hint shows, and `pendingAdvances` the number of
      one-second auto-advance timers started by correct answers and not yet fired.
      `listeners` counts the keypress listeners attached to the input field. */
  datatype Drill = Drill(
    pool: seq<DayWord>,
    index: nat,
    correctCount: nat,
    totalCount: nat,
    answered: bool,
    isCorrect: bool,
    answerRevealed: bool,
    hintRevealed: bool,
    locked: bool,
    hint: string,
    pendingAdvances: nat,
    listeners: nat)

  /** The drill before the mode was first shown. */
  const Idle: Drill := Drill([], 0, 0, 0, false, false, false, false, false, "", 0, 0)

  /** At most as many right answers as answers, and the index on a word of the pool;
      an empty pool has index and counters at 0. */
  predicate Inv(d: Drill) {
    && d.correctCount <= d.totalCount
    && (if |d.pool| == 0 then d.index == 0 && d.totalCount == 0 else d.index < |d.pool|)
  }

  /** The state every new word starts in: nothing answered or revealed, input open. */
  predicate AtNewWord(d: Drill) {
    !d.answered && !d.isCorrect && !d.answerRevealed && !d.hintRevealed && !d.locked && d.hint == ""
  }

  /** The answer flags, reveal flags, input lock and hint of `r` are those of `d`. */
  predicate SameWordState(d: Drill, r: Drill) {
    && r.answered == d.answered && r.isCorrect == d.isCorrect
    && r.answerRevealed == d.answerRevealed && r.hintRevealed == d.hintRevealed
    && r.locked == d.locked && r.hint == d.hint
  }

  /** `showTypingWord`. Past the end of the pool the index and both counters go back
      to 0 (the pool keeps its order). With an empty pool, reading the word throws
      before the per-word state is reset. */
  function ShowWord(d: Drill): (r: Drill)
    ensures r.pool == d.pool && r.pendingAdvances == d.pendingAdvances && r.listeners == d.listeners
    ensures d.index >= |d.pool| ==> r.index == 0 && r.correctCount == 0 && r.totalCount == 0
    ensures d.index < |d.pool| ==> r.index == d.index && r.correctCount == d.correctCount && r.totalCount == d.totalCount
    ensures |d.pool| > 0 ==> AtNewWord(r)
    ensures |d.pool| == 0 ==> SameWordState(d, r)
  {
    var d1 := if d.index >= |d.pool| then d.(index := 0, correctCount := 0, totalCount := 0) else d;
    if |d1.pool| == 0 then d1
    else d1.(answered := false, isCorrect := false, answerRevealed := false, hintRevealed := false,
             locked := false, hint := "")
  }

  /** `nextTypingWord`: the index moves on only once the word was answered; moving
      past the last word starts the same pool over with the counters reset. */
  function NextWord(d: Drill): (r: Drill)
    requires Inv(d)
    ensures r.pool == d.pool && Inv(r)
    ensures r.pendingAdvances == d.pendingAdvances && r.listeners == d.listeners
    ensures |d.pool| > 0 ==> AtNewWord(r)
    ensures !d.answered ==> r.index == d.index && r.correctCount == d.correctCount && r.totalCount == d.totalCount
    ensures d.answered && d.index + 1 < |d.pool| ==>
      r.index == d.index + 1 && r.correctCount == d.correctCount && r.totalCount == d.totalCount
    ensures d.answered && d.index + 1 >= |d.pool| ==> r.index == 0 && r.correctCount == 0 && r.totalCount == 0
  {
    ShowWord(if d.answered then d.(index := d.index + 1) else d)
  }

  /** `checkTypingAnswer` with the text of the input field. */
  function Check(d: Drill, input: string): (r: Drill)
    requires Inv(d)
    ensures Inv(r) && r.pool == d.pool && r.listeners == d.listeners
    ensures d.answered && d.isCorrect ==> r == NextWord(d)
    ensures !(d.answered && d.isCorrect) && (|Trim(input)| == 0 || d.index >= |d.pool|) ==> r == d
    ensures !(d.answered && d.isCorrect) && |Trim(input)| > 0 && d.index < |d.pool| ==>
      && r.answered && r.index == d.index
      && r.hint == d.hint && r.hintRevealed == d.hintRevealed && r.answerRevealed == d.answerRevealed
      && (r.isCorrect <==> Lower(Trim(input)) == Lower(d.pool[d.index].word.spelling))
      && r.totalCount == d.totalCount + 1
      && r.correctCount == (if r.isCorrect then d.correctCount + 1 else d.correctCount)
      && (r.isCorrect ==> r.locked && r.pendingAdvances == d.pendingAdvances + 1)
      && (!r.isCorrect ==> r.locked == d.locked && r.pendingAdvances == d.pendingAdvances)
  {
    if d.answered && d.isCorrect then NextWord(d)
    else
      var answer := Lower(Trim(input));
      if |answer| == 0 || d.index >= |d.pool| then d
      else if answer == Lower(d.pool[d.index].word.spelling) then
        d.(answered := true, isCorrect := true, totalCount := d.totalCount + 1,
           correctCount := d.correctCount + 1, locked := true, pendingAdvances := d.pendingAdvances + 1)
      else
        d.(answered := true, isCorrect := false, totalCount := d.totalCount + 1)
  }

  /** One run of a submit handler: the check button, or one keypress listener on
      Enter. Either calls `checkTypingAnswer` only while the input is not disabled,
      so it counts at most one answer. */
  function Submit(d: Drill, input: string): (r: Drill)
    requires Inv(d)
    ensures Inv(r) && r.pool == d.pool
    ensures d.locked ==> r == d
    ensures !d.locked ==> r == Check(d, input)
    ensures r.totalCount <= d.totalCount + 1 && r.listeners == d.listeners
  {
    if d.locked then d else Check(d, input)
  }

  /** `k` submit handlers running in turn on one event, each testing the input's
      `disabled` state when its turn comes. */
  function SubmitTimes(d: Drill, input: string, k: nat): (r: Drill)
    requires Inv(d)
    ensures Inv(r) && r.pool == d.pool && r.listeners == d.listeners
    ensures k == 0 || d.locked ==> r == d
    decreases k
  {
    if k == 0 then d else Submit(SubmitTimes(d, input, k - 1), input)
  }

  /** The Enter key. Every visit to the mode attaches one more keypress listener to
      the same input field and none is ever removed, so a key press runs the check
      once per visit. */
  function Enter(d: Drill, input: string): (r: Drill)
    requires Inv(d)
    ensures Inv(r) && r.pool == d.pool && r.listeners == d.listeners
    ensures d.listeners == 0 || d.locked ==> r == d
    ensures d.listeners == 1 ==> r == Submit(d, input)
  {
    SubmitTimes(d, input, d.listeners)
  }

  /** The input is open on a word not yet answered right, and `input` is a
      non-blank wrong answer for it. */
  predicate WrongOnOpenInput(d: Drill, input: string) {
    && !d.locked && !(d.answered && d.isCorrect) && d.index < |d.pool|
    && |Trim(input)| > 0 && Lower(Trim(input)) != Lower(d.pool[d.index].word.spelling)
  }

  /** As written, a wrong answer leaves the input enabled, so every further listener
      checks it again: one Enter after `k` visits to the mode counts `k` wrong
      answers. */
  lemma {:induction false} WrongAnswerCountedPerListener(d: Drill, input: string, k: nat)
    requires Inv(d) && WrongOnOpenInput(d, input)
    ensures var r := SubmitTimes(d, input, k);
      && r.totalCount == d.totalCount + k && r.correctCount == d.correctCount && r.index == d.index
      && r.pool == d.pool && Inv(r) && WrongOnOpenInput(r, input)
    decreases k
  {
    if k > 0 {
      WrongAnswerCountedPerListener(d, input, k - 1);
      var r := SubmitTimes(d, input, k - 1);
      WrongAnswerStaysOpen(r, input);
    }
  }

  /** One run of a handler on a wrong answer counts it and leaves the input open. */
  lemma WrongAnswerStaysOpen(d: Drill, input: string)
    requires Inv(d) && WrongOnOpenInput(d, input)
    ensures var d1 := d.(answered := true, isCorrect := false, totalCount := d.totalCount + 1);
      Submit(d, input) == d1 && Inv(d1) && WrongOnOpenInput(d1, input)
  {
  }

  /** A right answer disables the input, so the listeners after the first do nothing. */
  lemma RightAnswerCountedOnce(d: Drill, input: string, k: nat)
    requires Inv(d) && !d.locked && !(d.answered && d.isCorrect) && d.index < |d.pool|
    requires |Trim(input)| > 0 && Lower(Trim(input)) == Lower(d.pool[d.index].word.spelling)
    requires k > 0
    ensures SubmitTimes(d, input, k) == Submit(d, input)
    ensures SubmitTimes(d, input, k).totalCount == d.totalCount + 1
  {
  }

  /** The hint: the first letter of the answer, upper-cased. */
  function HintLetter(spelling: string): (h: string)
    ensures |spelling| == 0 ==> h == ""
    ensures |spelling| > 0 ==> h == [UpperChar(LowerChar(spelling[0]))]
  {
    var lowered := Lower(spelling);
    if |lowered| == 0 then "" else [UpperChar(lowered[0])]
  }

  /** `showTypingHint`: reveals the hint once; later calls change nothing. */
  function ShowHint(d: Drill): (r: Drill)
    ensures d.hintRevealed || d.index >= |d.pool| ==> r == d
    ensures !d.hintRevealed && d.index < |d.pool| ==>
      r == d.(hintRevealed := true, hint := HintLetter(d.pool[d.index].word.spelling))
  {
    if d.hintRevealed || d.index >= |d.pool| then d
    else d.(hint := HintLetter(d.pool[d.index].word.spelling), hintRevealed := true)
  }

  /** `showTypingAnswer`: fills in the answer and disables the input, once. */
  function ShowAnswer(d: Drill): (r: Drill)
    ensures d.answerRevealed || d.index >= |d.pool| ==> r == d
    ensures !d.answerRevealed && d.index < |d.pool| ==> r == d.(answerRevealed := true, locked := true)
  {
    if d.answerRevealed || d.index >= |d.pool| then d
    else d.(locked := true, answerRevealed := true)
  }

  /** The "try again" closure attached to the next button after a wrong answer: the
      same word can be answered again. It leaves `isCorrect` and the counters alone. */
  function Retry(d: Drill): (r: Drill)
    ensures !r.answered && !r.answerRevealed && !r.hintRevealed && !r.locked && r.hint == ""
    ensures r.isCorrect == d.isCorrect && r.index == d.index && r.pool == d.pool
    ensures r.correctCount == d.correctCount && r.totalCount == d.totalCount
    ensures r.pendingAdvances == d.pendingAdvances && r.listeners == d.listeners
  {
    d.(answered := false, answerRevealed := false, hintRevealed := false, locked := false, hint := "")
  }

  /** One of the one-second timers a correct answer starts has fired. */
  function AdvanceTimerFired(d: Drill): (r: Drill)
    requires Inv(d)
    ensures d.pendingAdvances == 0 ==> r == d
    ensures d.pendingAdvances > 0 ==> r == NextWord(d.(pendingAdvances := d.pendingAdvances - 1))
  {
    if d.pendingAdvances == 0 then d else NextWord(d.(pendingAdvances := d.pendingAdvances - 1))
  }

  /** What the user (or a timer) can do to a running drill. `Submitted` is the check
      button, `EnterKey` the Enter key, `NextClick` the next
      button running `nextTypingWord`, `RetryClick` the same button running the
      retry closure. */
  datatype Event =
    | Submitted(input: string)
    | EnterKey(input: string)
    | CheckCalled(input: string)
    | HintClick
    | AnswerClick
    | RetryClick
    | NextClick
    | AdvanceTimer

  function Step(d: Drill, e: Event): Drill
    requires Inv(d)
  {
    match e
    case Submitted(input) => Submit(d, input)
    case EnterKey(input) => Enter(d, input)
    case CheckCalled(input) => Check(d, input)
    case HintClick => ShowHint(d)
    case AnswerClick => ShowAnswer(d)
    case RetryClick => Retry(d)
    case NextClick => NextWord(d)
    case AdvanceTimer => AdvanceTimerFired(d)
  }

  /** No event breaks `correct <= total` or moves the index off the pool. */
  lemma StepKeepsInv(d: Drill, e: Event)
    requires Inv(d)
    ensures Inv(Step(d, e))
    ensures Step(d, e).pool == d.pool
    ensures Step(d, e).listeners == d.listeners
  {
  }

  /** Hint and answer reveal are idempotent. */
  lemma RevealsIdempotent(d: Drill)
    ensures ShowHint(ShowHint(d)) == ShowHint(d)
    ensures ShowAnswer(ShowAnswer(d)) == ShowAnswer(d)
  {
  }

  /** Session and record after `applyTypingRange`. */
  datatype Applied = Applied(progress: Record, drill: Drill)

  /** `applyTypingRange`: the range is remembered in the record (and saved) before
      the pool is built, so even a range without words is kept. The pool is a
      permutation of the range's words; index and counters restart at 0. */
  function ApplyRange(vocab: Vocabulary, p: Record, d: Drill, start: int, end: int, draws: seq<int>): (r: Applied)
    requires ValidDraws(draws, |RangeWords(vocab.days, start, end)|)
    ensures r.progress == p.(lastTypingDayStart := start, lastTypingDayEnd := end)
    ensures multiset(r.drill.pool) == multiset(RangeWords(vocab.days, start, end))
    ensures r.drill.index == 0 && r.drill.correctCount == 0 && r.drill.totalCount == 0
    ensures r.drill.pendingAdvances == d.pendingAdvances && r.drill.listeners == d.listeners
    ensures |r.drill.pool| == 0 ==> SameWordState(d, r.drill)
    ensures |r.drill.pool| > 0 ==> AtNewWord(r.drill)
    ensures Inv(r.drill)
  {
    var p1 := p.(lastTypingDayStart := start, lastTypingDayEnd := end);
    var pool := FisherYates(RangeWords(vocab.days, start, end), draws);
    var d1 := d.(pool := pool, index := 0, correctCount := 0, totalCount := 0);
    if |pool| == 0 then Applied(p1, d1) else Applied(p1, ShowWord(d1))
  }

  /** `initTypingMode`, run each time the mode is shown: the range is applied and
      one more keypress listener is attached to the input field. */
  function OpenTyping(vocab: Vocabulary, p: Record, d: Drill, start: int, end: int, draws: seq<int>): (r: Applied)
    requires ValidDraws(draws, |RangeWords(vocab.days, start, end)|)
    ensures r.drill.listeners == d.listeners + 1
    ensures r.progress == ApplyRange(vocab, p, d, start, end, draws).progress
    ensures r.drill.(listeners := d.listeners) == ApplyRange(vocab, p, d, start, end, draws).drill
    ensures Inv(r.drill)
  {
    var a := ApplyRange(vocab, p, d, start, end, draws);
    a.(drill := a.drill.(listeners := a.drill.listeners + 1))
  }

  /** The accuracy figure: right answers as a rounded share of answers, 0 before the
      first answer. */
  function Accuracy(d: Drill): (r: int)
    ensures d.totalCount == 0 ==> r == 0
    ensures d.totalCount > 0 ==> 2 * d.totalCount * r <= 200 * d.correctCount + d.totalCount < 2 * d.totalCount * (r + 1)
    ensures Inv(d) ==> 0 <= r <= 100
  {
    Percent(d.correctCount, d.totalCount)
  }

  /** A right answer on a fresh word followed by its auto-advance timer: both
      counters rise by one and the next word is shown. */
  lemma RightThenAdvance(d: Drill, input: string)
    requires Inv(d) && AtNewWord(d) && d.pendingAdvances == 0 && d.index + 1 < |d.pool|
    requires Lower(Trim(input)) == Lower(d.pool[d.index].word.spelling) && |Trim(input)| > 0
    ensures var r := AdvanceTimerFired(Submit(d, input));
      && Inv(r) && AtNewWord(r) && r.pool == d.pool && r.pendingAdvances == 0
      && r.index == d.index + 1 && r.correctCount == d.correctCount + 1 && r.totalCount == d.totalCount + 1
  {
    var a := Submit(d, input);
    assert a.answered && a.isCorrect && a.pendingAdvances == 1 && a.index == d.index;
  }

  /** The three words of the worked example below. */
  const CatDogFox: seq<DayWord> := [DayWord(1, Word(1, "cat", "n", "고양이")),
                                    DayWord(1, Word(2, "dog", "n", "개")),
                                    DayWord(1, Word(3, "fox", "n", "여우"))]

  lemma TrimmedAsTyped()
    ensures Trim("cat") == "cat" && Trim("Dog") == "Dog" && Trim("wrong") == "wrong"
  {
    assert Leading("cat") == 0 && Trailing("cat") == 0;
    assert Leading("Dog") == 0 && Trailing("Dog") == 0;
    assert Leading("wrong") == 0 && Trailing("wrong") == 0;
  }

  /** The example drill on a fresh word at `index` with the given counters. */
  function ExampleAt(index: nat, correct: nat, total: nat): Drill {
    Drill(CatDogFox, index, correct, total, false, false, false, false, false, "", 0, 0)
  }

  lemma AnswerCat()
    ensures AdvanceTimerFired(Submit(ShowWord(Idle.(pool := CatDogFox)), "cat")) == ExampleAt(1, 1, 1)
  {
    var d0 := ShowWord(Idle.(pool := CatDogFox));
    assert d0 == ExampleAt(0, 0, 0);
    TrimmedAsTyped();
    assert Lower("cat") == "cat";
    RightThenAdvance(d0, "cat");
  }

  lemma AnswerDog()
    ensures AdvanceTimerFired(Submit(ExampleAt(1, 1, 1), "Dog")) == ExampleAt(2, 2, 2)
  {
    TrimmedAsTyped();
    assert Lower("Dog") == "dog" && Lower("dog") == "dog";
    RightThenAdvance(ExampleAt(1, 1, 1), "Dog");
  }

  lemma AnswerFoxWrongly()
    ensures Submit(ExampleAt(2, 2, 2), "wrong") == ExampleAt(2, 2, 3).(answered := true)
  {
    TrimmedAsTyped();
    assert Lower("wrong")[0] != Lower("fox")[0];
    assert WrongOnOpenInput(ExampleAt(2, 2, 2), "wrong");
  }

  /** Typing "cat", then "Dog" for "dog", then "wrong" for "fox", with the
      auto-advance timers firing in between: two right out of three, 67 per cent. */
  lemma ThreeAnswers()
    ensures var d0 := ShowWord(Idle.(pool := CatDogFox));
      var d1 := AdvanceTimerFired(Submit(d0, "cat"));
      var d2 := AdvanceTimerFired(Submit(d1, "Dog"));
      var d3 := Submit(d2, "wrong");
      d3.correctCount == 2 && d3.totalCount == 3 && Accuracy(d3) == 67
  {
    AnswerCat();
    AnswerDog();
    AnswerFoxWrongly();
    PercentExamples();
  }
}
