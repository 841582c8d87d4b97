/** Daily-word mode: the words of one day shown one at a time, the meaning revealed
    on demand and the answer graded, moving on to the next day when a day is used up. */
module Daily {
  import opened Wrappers
  import opened Catalog
  import opened Progress

  /** `currentDayNumber`, `currentDayWords`, `currentWordIndex`,
      `speedMeaningRevealed`, and the half-second advance timers still to fire. */
  datatype Session = Session(dayNumber: int, words: seq<Word>, index: nat, revealed: bool, pending: nat)

  datatype State = State(progress: Record, session: Session)

  /** The session before the mode is first opened. */
  const Start: Session := Session(1, [], 0, false, 0)

  /** The highest day number; the day after it is day 1. */
  const LastDay: int := 100

  /** Bound on the chain of used-up days one call walks through. Day numbers after
      the first hop lie in 1..100, so a chain longer than this revisits a day and
      never ends. */
  const DailyFuel: nat := 101

  function NextDayNumber(d: int): (n: int)
    ensures d < LastDay ==> n == d + 1
    ensures d >= LastDay ==> n == 1
    ensures d >= 0 ==> 1 <= n <= LastDay
  {
    if d + 1 > LastDay then 1 else d + 1
  }

  /** A word is on screen with its meaning hidden. */
  predicate Showing(s: Session) {
    s.index < |s.words| && !s.revealed
  }

  /** Only `completed` entries are added or written over. */
  predicate OnlyCompletedAdded(before: map<int, DayStatus>, after: map<int, DayStatus>) {
    && (forall d :: d in before ==> d in after)
    && (forall d :: d in before && before[d] == Completed ==> after[d] == Completed)
    && (forall d :: d in after && after[d] != Completed ==> d in before && before[d] == after[d])
  }

  /** What walking past used-up days may change in the record: day statuses (only
      to `completed`), their count and the remembered day. */
  predicate DaysAdvanced(p: Record, r: Record) {
    && r == p.(daysProgress := r.daysProgress, completedDays := r.completedDays, lastDayNumber := r.lastDayNumber)
    && OnlyCompletedAdded(p.daysProgress, r.daysProgress)
    && (r == p || CompletedAgrees(r))
  }

  /** `loadDayWords`. A day the catalog does not have changes nothing; otherwise its
      words are loaded from the start and shown. */
  function LoadDayWords(vocab: Vocabulary, st: State, dayNum: int, fuel: nat): (r: State)
    decreases fuel, 1
    ensures FindDay(vocab.days, dayNum).None? ==> r == st
    ensures DaysAdvanced(st.progress, r.progress)
    ensures r.session.pending == st.session.pending
    ensures FindDay(vocab.days, dayNum).Some? && Showing(r.session) ==>
      FindDay(vocab.days, r.session.dayNumber).Some? && FindDay(vocab.days, r.session.dayNumber).value.words == r.session.words
  {
    match FindDay(vocab.days, dayNum)
    case None => st
    case Some(day) =>
      assert day.number == dayNum;
      ShowSpeedWord(vocab, State(st.progress, st.session.(dayNumber := dayNum, words := day.words, index := 0)), fuel)
  }

  /** `showSpeedWord`. With a word left it is shown with its meaning hidden. With none
      left the day is marked `completed`, `completedDays` recounted, the next day
      (100 wraps to 1) remembered and loaded. */
  function ShowSpeedWord(vocab: Vocabulary, st: State, fuel: nat): (r: State)
    decreases fuel, 0
    ensures st.session.index < |st.session.words| ==>
      r == State(st.progress, st.session.(revealed := false))
    ensures st.session.index >= |st.session.words| && fuel > 0 ==>
      && st.session.dayNumber in r.progress.daysProgress
      && r.progress.daysProgress[st.session.dayNumber] == Completed
      && CompletedAgrees(r.progress)
    ensures st.session.index >= |st.session.words| && fuel > 0
            && FindDay(vocab.days, NextDayNumber(st.session.dayNumber)).None? ==>
      && r.progress.lastDayNumber == NextDayNumber(st.session.dayNumber)
      && r.session == st.session.(dayNumber := NextDayNumber(st.session.dayNumber))
    ensures DaysAdvanced(st.progress, r.progress)
    ensures r.session.pending == st.session.pending
    ensures Showing(r.session) ==>
      || (r.session.words == st.session.words && r.session.dayNumber == st.session.dayNumber)
      || (FindDay(vocab.days, r.session.dayNumber).Some? && FindDay(vocab.days, r.session.dayNumber).value.words == r.session.words)
  {
    if st.session.index < |st.session.words| then
      State(st.progress, st.session.(revealed := false))
    else if fuel == 0 then
      st
    else
      var d := st.session.dayNumber;
      var dp := st.progress.daysProgress[d := Completed];
      var next := NextDayNumber(d);
      var p := st.progress.(daysProgress := dp, completedDays := |CompletedSet(dp)|, lastDayNumber := next);
      LoadDayWords(vocab, State(p, st.session.(dayNumber := next)), next, fuel - 1)
  }

  /** A used-up day hands over to the next day when that day has words: the first of
      them is shown and the next day is remembered. */
  lemma ExhaustedDayMovesOn(vocab: Vocabulary, st: State, fuel: nat)
    requires st.session.index >= |st.session.words| && fuel > 0
    requires var next := FindDay(vocab.days, NextDayNumber(st.session.dayNumber));
      next.Some? && |next.value.words| > 0
    ensures var r := ShowSpeedWord(vocab, st, fuel);
      var n := NextDayNumber(st.session.dayNumber);
      && r.session == Session(n, FindDay(vocab.days, n).value.words, 0, false, st.session.pending)
      && r.progress.lastDayNumber == n
      && r.progress.daysProgress == st.progress.daysProgress[st.session.dayNumber := Completed]
  {
  }

  /** Day 100 used up moves to day 1. */
  lemma LastDayWrapsAround(vocab: Vocabulary, st: State)
    requires st.session.dayNumber == LastDay && st.session.index >= |st.session.words|
    requires FindDay(vocab.days, 1).Some? && |FindDay(vocab.days, 1).value.words| > 0
    ensures ShowSpeedWord(vocab, st, DailyFuel).session.dayNumber == 1
    ensures ShowSpeedWord(vocab, st, DailyFuel).progress.lastDayNumber == 1
  {
    ExhaustedDayMovesOn(vocab, st, DailyFuel);
  }

  /** `revealSpeedMeaning`. */
  function Reveal(s: Session): (r: Session)
    ensures r.revealed && r == s.(revealed := true)
  {
    s.(revealed := true)
  }

  function Grade(isCorrect: bool): Status {
    if isCorrect then Correct else Wrong
  }

  /** `speedAnswer` as written: a first click only reveals the meaning; with the
      meaning shown the word's status is written over and `studiedWords` raised
      unconditionally, and an advance timer started. With no word left (the day
      ran out into a day the catalog lacks) the handler throws before any write. */
  function SpeedAnswer(st: State, isCorrect: bool): (r: State)
    ensures !st.session.revealed ==> r == State(st.progress, Reveal(st.session))
    ensures st.session.revealed && st.session.index >= |st.session.words| ==> r == st
    ensures st.session.revealed && st.session.index < |st.session.words| ==>
      var key := WordKey(st.session.dayNumber, st.session.words[st.session.index].id);
      && r.session == st.session.(pending := st.session.pending + 1)
      && r.progress.wordStatus == st.progress.wordStatus[key := Grade(isCorrect)]
      && r.progress.studiedWords == st.progress.studiedWords + 1
      && r.progress.masteredWords == st.progress.masteredWords
      && OnlyWordsChanged(st.progress, r.progress)
  {
    if !st.session.revealed then
      State(st.progress, Reveal(st.session))
    else if st.session.index >= |st.session.words| then
      st
    else
      var key := WordKey(st.session.dayNumber, st.session.words[st.session.index].id);
      var p := st.progress.(wordStatus := st.progress.wordStatus[key := Grade(isCorrect)],
                            studiedWords := st.progress.studiedWords + 1);
      State(p, st.session.(pending := st.session.pending + 1))
  }

  /** One of the advance timers fires: the index moves on and the next word (or the
      next day) is shown. */
  function SpeedTimerFired(vocab: Vocabulary, st: State): (r: State)
    ensures st.session.pending == 0 ==> r == st
    ensures st.session.pending > 0 ==> r.session.pending == st.session.pending - 1
    ensures st.session.pending > 0 && st.session.index + 1 < |st.session.words| ==>
      r == State(st.progress, st.session.(index := st.session.index + 1, pending := st.session.pending - 1, revealed := false))
    ensures DaysAdvanced(st.progress, r.progress)
  {
    if st.session.pending == 0 then st
    else
      ShowSpeedWord(vocab, State(st.progress, st.session.(index := st.session.index + 1, pending := st.session.pending - 1)), DailyFuel)
  }

  /** `applySpeedDay`: a day number in 1..100 is remembered and loaded; anything else
      (including an unparsable selection) is ignored. The day number is taken over
      even when the catalog lacks that day. */
  function ApplySpeedDay(vocab: Vocabulary, st: State, selected: Option<int>): (r: State)
    ensures selected.None? || !(1 <= selected.value <= LastDay) ==> r == st
    ensures selected.Some? && 1 <= selected.value <= LastDay
            && FindDay(vocab.days, selected.value).Some? && |FindDay(vocab.days, selected.value).value.words| > 0 ==>
      && r.session == Session(selected.value, FindDay(vocab.days, selected.value).value.words, 0, false, st.session.pending)
      && r.progress == st.progress.(lastDayNumber := selected.value)
    ensures selected.Some? && 1 <= selected.value <= LastDay && FindDay(vocab.days, selected.value).None? ==>
      r == State(st.progress.(lastDayNumber := selected.value), st.session.(dayNumber := selected.value))
    ensures selected.Some? && 1 <= selected.value <= LastDay
            && FindDay(vocab.days, selected.value).Some? && |FindDay(vocab.days, selected.value).value.words| == 0 ==>
      var n := NextDayNumber(selected.value);
      && selected.value in r.progress.daysProgress
      && r.progress.daysProgress[selected.value] == Completed
      && CompletedAgrees(r.progress)
      && (FindDay(vocab.days, n).None? ==>
            r.progress.lastDayNumber == n && r.session == st.session.(dayNumber := n, words := [], index := 0))
      && (FindDay(vocab.days, n).Some? && |FindDay(vocab.days, n).value.words| > 0 ==>
            && r.progress.lastDayNumber == n
            && r.progress.daysProgress == st.progress.daysProgress[selected.value := Completed]
            && r.session == Session(n, FindDay(vocab.days, n).value.words, 0, false, st.session.pending))
    ensures && r.progress.wordStatus == st.progress.wordStatus
            && r.progress.studiedWords == st.progress.studiedWords
            && r.progress.masteredWords == st.progress.masteredWords
  {
    match selected
    case None => st
    case Some(day) =>
      if 1 <= day <= LastDay then
        var st1 := State(st.progress.(lastDayNumber := day), st.session.(dayNumber := day));
        EmptyDayMovesOn(vocab, st1, day);
        LoadDayWords(vocab, st1, day, DailyFuel)
      else st
  }

  /** Loading a catalog day without words goes straight through the used-up branch
      of `showSpeedWord`: the day is completed and the next one taken up. */
  lemma EmptyDayMovesOn(vocab: Vocabulary, st: State, day: int)
    ensures FindDay(vocab.days, day).Some? && |FindDay(vocab.days, day).value.words| == 0 ==>
      var r := LoadDayWords(vocab, st, day, DailyFuel);
      var n := NextDayNumber(day);
      && day in r.progress.daysProgress
      && r.progress.daysProgress[day] == Completed
      && CompletedAgrees(r.progress)
      && (FindDay(vocab.days, n).None? ==>
            r.progress.lastDayNumber == n && r.session == st.session.(dayNumber := n, words := [], index := 0))
      && (FindDay(vocab.days, n).Some? && |FindDay(vocab.days, n).value.words| > 0 ==>
            && r.progress.lastDayNumber == n
            && r.progress.daysProgress == st.progress.daysProgress[day := Completed]
            && r.session == Session(n, FindDay(vocab.days, n).value.words, 0, false, st.session.pending))
  {
    if FindDay(vocab.days, day).Some? && |FindDay(vocab.days, day).value.words| == 0 {
      var loaded := State(st.progress, st.session.(dayNumber := day, words := [], index := 0));
      assert FindDay(vocab.days, day).value.words == [];
      assert LoadDayWords(vocab, st, day, DailyFuel) == ShowSpeedWord(vocab, loaded, DailyFuel);
      var n := NextDayNumber(day);
      if FindDay(vocab.days, n).Some? && |FindDay(vocab.days, n).value.words| > 0 {
        ExhaustedDayMovesOn(vocab, loaded, DailyFuel);
      }
    }
  }

  /** The day the mode opens on: `showMode` raises a day number below 1 to 1, and
      `initSpeedMode` prefers the remembered day when it lies in 1..100. */
  function OpeningDay(p: Record, current: int): (d: int)
    ensures d >= 1
    ensures 1 <= p.lastDayNumber <= LastDay ==> d == p.lastDayNumber
    ensures !(1 <= p.lastDayNumber <= LastDay) ==> d == (if current < 1 then 1 else current)
  {
    var c := if current < 1 then 1 else current;
    if p.lastDayNumber != 0 && 1 <= p.lastDayNumber <= LastDay then p.lastDayNumber else c
  }

  /** Opening the mode: `showMode("speed")` followed by `initSpeedMode`. */
  function EnterSpeedMode(vocab: Vocabulary, st: State): (r: State)
    ensures var d := OpeningDay(st.progress, st.session.dayNumber);
      FindDay(vocab.days, d).None? ==> r == State(st.progress, st.session.(dayNumber := d))
    ensures DaysAdvanced(st.progress, r.progress)
  {
    var d := OpeningDay(st.progress, st.session.dayNumber);
    LoadDayWords(vocab, State(st.progress, st.session.(dayNumber := d)), d, DailyFuel)
  }

  /** Grading keeps every graded key counted in `studiedWords`. */
  lemma SpeedAnswerKeepsStudiedCovers(st: State, isCorrect: bool)
    requires StudiedCovers(st.progress)
    ensures StudiedCovers(SpeedAnswer(st, isCorrect).progress)
  {
    var r := SpeedAnswer(st, isCorrect);
    if st.session.revealed && st.session.index < |st.session.words| {
      var key := WordKey(st.session.dayNumber, st.session.words[st.session.index].id);
      assert r.progress.wordStatus.Keys == st.progress.wordStatus.Keys + {key};
      assert |r.progress.wordStatus.Keys| <= |st.progress.wordStatus.Keys| + 1;
    }
  }

  /** As written, grading a mastered word `correct` leaves `masteredWords` counting it,
      and grading the same word twice counts it twice as studied. */
  lemma SpeedAnswerMiscounts()
    ensures var w := Word(1, "cat", "n", "고양이");
      var p := SetStatus(Fresh, WordKey(1, 1), Mastered);
      var st := State(p, Session(1, [w], 0, true, 0));
      && MasteredAgrees(p)
      && !MasteredAgrees(SpeedAnswer(st, true).progress)
    ensures var w := Word(1, "cat", "n", "고양이");
      var st := State(Fresh, Session(1, [w], 0, true, 0));
      var r := SpeedAnswer(SpeedAnswer(st, true), false);
      r.progress.studiedWords == 2 && |r.progress.wordStatus| == 1
  {
    var w := Word(1, "cat", "n", "고양이");
    var p := SetStatus(Fresh, WordKey(1, 1), Mastered);
    assert MasteredKeys(p.wordStatus) == {WordKey(1, 1)};
    var st := State(p, Session(1, [w], 0, true, 0));
    var r := SpeedAnswer(st, true);
    assert r.progress.wordStatus == map[WordKey(1, 1) := Correct];
    assert MasteredKeys(r.progress.wordStatus) == {};
    var st2 := State(Fresh, Session(1, [w], 0, true, 0));
    var r2 := SpeedAnswer(SpeedAnswer(st2, true), false);
    assert r2.progress.wordStatus == map[WordKey(1, 1) := Wrong];
  }

  /** `speedAnswer` writing the grade through the same bookkeeping as the list-mode
      status buttons: `masteredWords` stays equal to the mastered keys and
      `studiedWords` to the keys with a status. */
  function SpeedAnswerFixed(st: State, isCorrect: bool): (r: State)
    ensures !st.session.revealed ==> r == State(st.progress, Reveal(st.session))
    ensures st.session.revealed && st.session.index >= |st.session.words| ==> r == st
    ensures st.session.revealed && st.session.index < |st.session.words| ==>
      var key := WordKey(st.session.dayNumber, st.session.words[st.session.index].id);
      && r.session == st.session.(pending := st.session.pending + 1)
      && r.progress.wordStatus == st.progress.wordStatus[key := Grade(isCorrect)]
    ensures MasteredAgrees(st.progress) ==> MasteredAgrees(r.progress)
    ensures st.progress.studiedWords == |st.progress.wordStatus| ==> r.progress.studiedWords == |r.progress.wordStatus|
  {
    if !st.session.revealed then
      State(st.progress, Reveal(st.session))
    else if st.session.index >= |st.session.words| then
      st
    else
      var key := WordKey(st.session.dayNumber, st.session.words[st.session.index].id);
      SetStatusKeepsCounters(st.progress, key, Grade(isCorrect));
      State(SetStatus(st.progress, key, Grade(isCorrect)), st.session.(pending := st.session.pending + 1))
  }
}
