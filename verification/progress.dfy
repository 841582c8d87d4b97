/** The per-user progress record and the rules that change it: the two branches of
    the list-mode status buttons and the derivation of a day's status from the
    statuses of its words. */
module Progress {
  import opened Wrappers
  import opened Catalog

  datatype Status = Wrong | Correct | Mastered

  datatype DayStatus = NotStarted | InProgress | Completed

  /** The key `${day}-${id}` under which a word's status is stored. */
  datatype WordKey = WordKey(day: int, id: int)

  /** `studyProgress`. Day statuses are keyed by day number (`day-${n}` in the source). */
  datatype Record = Record(
    completedDays: int,
    studiedWords: int,
    masteredWords: int,
    daysProgress: map<int, DayStatus>,
    wordStatus: map<WordKey, Status>,
    lastDayNumber: int,
    lastTypingDayStart: int,
    lastTypingDayEnd: int,
    lastMatchingDayStart: int,
    lastMatchingDayEnd: int)

  /** The record of a user with no saved progress. */
  const Fresh: Record := Record(0, 0, 0, map[], map[], 1, 1, 100, 1, 100)

  predicate IsMastered(ws: map<WordKey, Status>, k: WordKey) {
    k in ws && ws[k] == Mastered
  }

  function MasteredKeys(ws: map<WordKey, Status>): set<WordKey> {
    set k | k in ws && ws[k] == Mastered
  }

  function CompletedSet(dp: map<int, DayStatus>): set<int> {
    set d | d in dp && dp[d] == Completed
  }

  /** `masteredWords` is the number of keys currently `mastered`. */
  predicate MasteredAgrees(p: Record) {
    p.masteredWords == |MasteredKeys(p.wordStatus)|
  }

  /** `completedDays` is the number of days currently `completed`. */
  predicate CompletedAgrees(p: Record) {
    p.completedDays == |CompletedSet(p.daysProgress)|
  }

  /** Every key with a status was counted as studied when it got its first one. */
  predicate StudiedCovers(p: Record) {
    p.studiedWords >= |p.wordStatus|
  }

  /** 1 when the key is currently mastered: the amount the handler takes off
      `masteredWords` before it overwrites or deletes the status. */
  function WasMastered(ws: map<WordKey, Status>, k: WordKey): int {
    if IsMastered(ws, k) then 1 else 0
  }

  lemma MasteredCountAfterSet(ws: map<WordKey, Status>, k: WordKey, s: Status)
    ensures |MasteredKeys(ws[k := s])| == |MasteredKeys(ws)| - WasMastered(ws, k) + (if s == Mastered then 1 else 0)
  {
    var before := MasteredKeys(ws);
    var rest := before - {k};
    var after := MasteredKeys(ws[k := s]);
    forall x
      ensures x in after <==> x in rest || (x == k && s == Mastered)
    {
    }
    if k in before {
      assert before == rest + {k};
      assert |before| == |rest| + 1;
    } else {
      assert before == rest;
    }
    if s == Mastered {
      assert after == rest + {k};
      assert |after| == |rest| + 1;
    } else {
      assert after == rest;
    }
  }

  lemma MasteredCountAfterRemove(ws: map<WordKey, Status>, k: WordKey)
    ensures |MasteredKeys(ws - {k})| == |MasteredKeys(ws)| - WasMastered(ws, k)
  {
    var before := MasteredKeys(ws);
    var rest := before - {k};
    assert MasteredKeys(ws - {k}) == rest;
    if k in before {
      assert before == rest + {k};
    } else {
      assert before == rest;
    }
  }

  /** Everything but the word statuses and the two word counters is as in `p`. */
  predicate OnlyWordsChanged(p: Record, r: Record) {
    r == p.(wordStatus := r.wordStatus, studiedWords := r.studiedWords, masteredWords := r.masteredWords)
  }

  /** The "set" branch of the list-mode status button handler. Every click that can
      happen takes this branch: the handler removes `active` from all three buttons
      before it asks whether the clicked one was active. */
  function SetStatus(p: Record, key: WordKey, s: Status): (r: Record)
    ensures key in r.wordStatus && r.wordStatus[key] == s
    ensures forall k :: k != key ==> (k in r.wordStatus <==> k in p.wordStatus)
    ensures forall k :: k != key && k in p.wordStatus ==> r.wordStatus[k] == p.wordStatus[k]
    ensures OnlyWordsChanged(p, r)
  {
    var mastered := p.masteredWords - WasMastered(p.wordStatus, key) + (if s == Mastered then 1 else 0);
    var studied := if key in p.wordStatus then p.studiedWords else p.studiedWords + 1;
    p.(wordStatus := p.wordStatus[key := s], masteredWords := mastered, studiedWords := studied)
  }

  /** The "clear" branch of the same handler: toggling off the active button. It is
      unreachable through the page (see `SetStatus`) and modelled for completeness. */
  function ClearStatus(p: Record, key: WordKey): (r: Record)
    ensures key !in r.wordStatus
    ensures forall k :: k != key ==> (k in r.wordStatus <==> k in p.wordStatus)
    ensures forall k :: k != key && k in p.wordStatus ==> r.wordStatus[k] == p.wordStatus[k]
    ensures OnlyWordsChanged(p, r)
  {
    p.(masteredWords := p.masteredWords - WasMastered(p.wordStatus, key), wordStatus := p.wordStatus - {key})
  }

  /** Setting a status keeps `masteredWords` in agreement with the map, counts the
      word as studied exactly when it had no status before, and so keeps
      `studiedWords` at least (or exactly) the number of keys with a status. */
  lemma SetStatusKeepsCounters(p: Record, key: WordKey, s: Status)
    ensures MasteredAgrees(p) ==> MasteredAgrees(SetStatus(p, key, s))
    ensures SetStatus(p, key, s).studiedWords == p.studiedWords + 1 <==> key !in p.wordStatus
    ensures SetStatus(p, key, s).studiedWords == p.studiedWords <==> key in p.wordStatus
    ensures StudiedCovers(p) ==> StudiedCovers(SetStatus(p, key, s))
    ensures p.studiedWords == |p.wordStatus| ==> SetStatus(p, key, s).studiedWords == |SetStatus(p, key, s).wordStatus|
  {
    var ws := p.wordStatus[key := s];
    assert SetStatus(p, key, s).wordStatus == ws;
    MasteredCountAfterSet(p.wordStatus, key, s);
    if key !in p.wordStatus {
      assert ws.Keys == p.wordStatus.Keys + {key};
      assert |ws| == |p.wordStatus| + 1;
    } else {
      assert ws.Keys == p.wordStatus.Keys;
      assert |ws| == |p.wordStatus|;
    }
  }

  /** Clearing a status keeps `masteredWords` in agreement, never changes
      `studiedWords`, and so keeps it covering the keys with a status. */
  lemma ClearStatusKeepsCounters(p: Record, key: WordKey)
    ensures MasteredAgrees(p) ==> MasteredAgrees(ClearStatus(p, key))
    ensures ClearStatus(p, key).studiedWords == p.studiedWords
    ensures StudiedCovers(p) ==> StudiedCovers(ClearStatus(p, key))
  {
    MasteredCountAfterRemove(p.wordStatus, key);
    assert (p.wordStatus - {key}).Keys <= p.wordStatus.Keys;
    assert |(p.wordStatus - {key}).Keys| <= |p.wordStatus.Keys|;
  }

  /** Clicking the same button twice is the same as clicking it once: the second
      click re-sets the status rather than clearing it. */
  lemma SetStatusIdempotent(p: Record, key: WordKey, s: Status)
    ensures SetStatus(SetStatus(p, key, s), key, s) == SetStatus(p, key, s)
  {
  }

  /** The number of words of `words` (all of day `day`) that have a status. */
  function StudiedIn(day: int, words: seq<Word>, ws: map<WordKey, Status>): nat {
    if |words| == 0 then 0
    else (if WordKey(day, words[0].id) in ws then 1 else 0) + StudiedIn(day, words[1..], ws)
  }

  /** The number of words of `words` (all of day `day`) that are mastered. */
  function MasteredIn(day: int, words: seq<Word>, ws: map<WordKey, Status>): nat {
    if |words| == 0 then 0
    else (if IsMastered(ws, WordKey(day, words[0].id)) then 1 else 0) + MasteredIn(day, words[1..], ws)
  }

  lemma {:induction false} StudiedInZero(day: int, words: seq<Word>, ws: map<WordKey, Status>)
    ensures StudiedIn(day, words, ws) == 0 <==> forall i :: 0 <= i < |words| ==> WordKey(day, words[i].id) !in ws
  {
    if |words| > 0 {
      StudiedInZero(day, words[1..], ws);
      assert forall i :: 1 <= i < |words| ==> words[i] == words[1..][i - 1];
    }
  }

  lemma {:induction false} MasteredInFull(day: int, words: seq<Word>, ws: map<WordKey, Status>)
    ensures MasteredIn(day, words, ws) <= |words|
    ensures MasteredIn(day, words, ws) == |words| <==> forall i :: 0 <= i < |words| ==> IsMastered(ws, WordKey(day, words[i].id))
  {
    if |words| > 0 {
      MasteredInFull(day, words[1..], ws);
      assert forall i :: 1 <= i < |words| ==> words[i] == words[1..][i - 1];
    }
  }

  /** The status `updateDayProgress` (the helper declared first) gives day `day`. */
  function DayStatusOf(day: int, words: seq<Word>, ws: map<WordKey, Status>): (st: DayStatus)
    ensures st == NotStarted <==> forall i :: 0 <= i < |words| ==> WordKey(day, words[i].id) !in ws
    ensures st == Completed <==> |words| > 0 && forall i :: 0 <= i < |words| ==> IsMastered(ws, WordKey(day, words[i].id))
  {
    StudiedInZero(day, words, ws);
    MasteredInFull(day, words, ws);
    var studied := StudiedIn(day, words, ws);
    var mastered := MasteredIn(day, words, ws);
    if studied == 0 then NotStarted
    else if mastered == |words| && |words| > 0 then Completed
    else InProgress
  }

  /** The body of the `updateDayProgress(dayNum)` declared first. A day number of 0,
      a missing catalog or a day the catalog does not have leaves the record as it
      is; otherwise the day's entry is re-derived and `completedDays` recounted. */
  function DeriveDayStatus(vocab: Option<Vocabulary>, dayNum: int, p: Record): (r: Record)
    ensures dayNum == 0 || vocab.None? || FindDay(vocab.value.days, dayNum).None? ==> r == p
    ensures dayNum != 0 && vocab.Some? && FindDay(vocab.value.days, dayNum).Some? ==>
      && dayNum in r.daysProgress
      && r.daysProgress[dayNum] == DayStatusOf(dayNum, FindDay(vocab.value.days, dayNum).value.words, p.wordStatus)
      && (forall d :: d != dayNum ==> (d in r.daysProgress <==> d in p.daysProgress))
      && (forall d :: d != dayNum && d in p.daysProgress ==> r.daysProgress[d] == p.daysProgress[d])
      && CompletedAgrees(r)
      && r == p.(daysProgress := r.daysProgress, completedDays := r.completedDays)
  {
    if dayNum == 0 || vocab.None? then p
    else match FindDay(vocab.value.days, dayNum)
      case None => p
      case Some(d) =>
        var dp := p.daysProgress[dayNum := DayStatusOf(dayNum, d.words, p.wordStatus)];
        p.(daysProgress := dp, completedDays := |CompletedSet(dp)|)
  }

  /** Setting a status and then re-deriving its day: what the list-mode handler was
      evidently meant to do, had the later one-line `updateDayProgress` not replaced
      the helper it calls. Both counters then agree with their maps, and the word's
      day is `completed` exactly when it has words and every one is mastered. */
  function SetStatusAndDerive(vocab: Vocabulary, p: Record, key: WordKey, s: Status): (r: Record)
    ensures r.wordStatus == SetStatus(p, key, s).wordStatus
    ensures MasteredAgrees(p) ==> MasteredAgrees(r)
    ensures key.day != 0 && FindDay(vocab.days, key.day).Some? ==>
      && CompletedAgrees(r)
      && key.day in r.daysProgress
      && var words := FindDay(vocab.days, key.day).value.words;
         (r.daysProgress[key.day] == Completed <==>
           |words| > 0 && forall i :: 0 <= i < |words| ==> IsMastered(r.wordStatus, WordKey(key.day, words[i].id)))
  {
    SetStatusKeepsCounters(p, key, s);
    DeriveDayStatus(Some(vocab), key.day, SetStatus(p, key, s))
  }

  /** Re-grading one mastered word of a completed day as `correct` demotes the day
      to `in-progress`. */
  lemma CorrectDemotesDay(vocab: Vocabulary, p: Record, key: WordKey, i: int)
    requires key.day != 0 && FindDay(vocab.days, key.day).Some?
    requires var words := FindDay(vocab.days, key.day).value.words;
      0 <= i < |words| && words[i].id == key.id
    ensures SetStatusAndDerive(vocab, p, key, Correct).daysProgress[key.day] == InProgress
  {
    var words := FindDay(vocab.days, key.day).value.words;
    var ws := SetStatus(p, key, Correct).wordStatus;
    assert WordKey(key.day, words[i].id) in ws;
    assert !IsMastered(ws, WordKey(key.day, words[i].id));
  }

  /** The handler as written does not touch `daysProgress`: mastering the only word of
      day 1 leaves day 1 without the `completed` entry the derivation gives it. */
  lemma SetStatusLeavesDayStale()
    ensures var vocab := Vocabulary(1, [Day(1, [Word(1, "cat", "n", "고양이")])]);
      && SetStatus(Fresh, WordKey(1, 1), Mastered).daysProgress == map[]
      && SetStatusAndDerive(vocab, Fresh, WordKey(1, 1), Mastered).daysProgress == map[1 := Completed]
  {
    var vocab := Vocabulary(1, [Day(1, [Word(1, "cat", "n", "고양이")])]);
    var ws := SetStatus(Fresh, WordKey(1, 1), Mastered).wordStatus;
    assert FindDay(vocab.days, 1) == Some(vocab.days[0]);
    assert IsMastered(ws, WordKey(1, 1));
    assert DayStatusOf(1, vocab.days[0].words, ws) == Completed;
  }
}
