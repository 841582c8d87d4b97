/** The vocabulary catalog: an ordered list of numbered days, each holding an
    ordered list of words. It is read-only input to every study mode. */
module Catalog {
  import opened Wrappers

  datatype Word = Word(id: int, spelling: string, pos: string, meaning: string)

  datatype Day = Day(number: int, words: seq<Word>)

  /** `metadata.total_words` and `days` of the loaded data document. */
  datatype Vocabulary = Vocabulary(totalWords: nat, days: seq<Day>)

  /** A word copied out of its day with the day number attached
      (`{...word, day: day.day}`), the element of the drill and game pools. */
  datatype DayWord = DayWord(day: int, word: Word)

  /** `days.find(d => d.day === n)`: the first day numbered `n`. */
  function FindDay(days: seq<Day>, n: int): (r: Option<Day>)
    ensures r.None? <==> forall i :: 0 <= i < |days| ==> days[i].number != n
    ensures r.Some? ==> exists i :: 0 <= i < |days| && days[i] == r.value && IsFirstNumbered(days, n, i)
  {
    if |days| == 0 then None
    else if days[0].number == n then
      assert IsFirstNumbered(days, n, 0);
      Some(days[0])
    else
      var r := FindDay(days[1..], n);
      if r.Some? then
        var i :| 0 <= i < |days| - 1 && days[1..][i] == r.value && IsFirstNumbered(days[1..], n, i);
        assert IsFirstNumbered(days, n, i + 1);
        r
      else
        r
  }

  /** Position `i` holds a day numbered `n` and no earlier day has that number. */
  predicate IsFirstNumbered(days: seq<Day>, n: int, i: int) {
    0 <= i < |days| && days[i].number == n && forall k :: 0 <= k < i ==> days[k].number != n
  }

  /** The words of one day, each tagged with the day number. */
  function Tagged(d: Day): (r: seq<DayWord>)
    ensures |r| == |d.words|
    ensures forall k :: 0 <= k < |r| ==> r[k] == DayWord(d.number, d.words[k])
  {
    seq(|d.words|, k requires 0 <= k < |d.words| => DayWord(d.number, d.words[k]))
  }

  /** The word `x` is a word of some day of `days` whose number lies in `[start, end]`. */
  ghost predicate InRange(days: seq<Day>, start: int, end: int, x: DayWord) {
    exists d :: d in days && start <= d.number <= end && x.day == d.number && x.word in d.words
  }

  /** The pool both the typing drill and the matching game start from: every word of
      every day whose number lies in `[start, end]`, in catalog order. */
  function RangeWords(days: seq<Day>, start: int, end: int): (r: seq<DayWord>)
    ensures forall x :: x in r <==> InRange(days, start, end, x)
  {
    if |days| == 0 then []
    else
      var head := DayPart(days[0], start, end);
      var rest := RangeWords(days[1..], start, end);
      assert forall d :: d in days <==> d == days[0] || d in days[1..];
      assert forall x :: x in head <==> start <= days[0].number <= end && x.day == days[0].number && x.word in days[0].words;
      head + rest
  }

  /** The words one day contributes to a range pool. */
  function DayPart(d: Day, start: int, end: int): seq<DayWord> {
    if start <= d.number <= end then Tagged(d) else []
  }

  /** The pool of a catalog split in two is the pool of its first part followed by
      the pool of its second: days contribute in catalog order, each exactly once. */
  lemma {:induction false} RangeWordsConcat(a: seq<Day>, b: seq<Day>, start: int, end: int)
    ensures RangeWords(a + b, start, end) == RangeWords(a, start, end) + RangeWords(b, start, end)
  {
    if |a| == 0 {
      assert a + b == b;
    } else {
      assert (a + b)[0] == a[0];
      assert (a + b)[1..] == a[1..] + b;
      RangeWordsConcat(a[1..], b, start, end);
    }
  }

  /** The nested `forEach` loops of `applyTypingRange` and `startMatchingGame`:
      every day in turn pushes its tagged words when its number is in range. */
  method CollectRangeWords(days: seq<Day>, start: int, end: int) returns (pool: seq<DayWord>)
    ensures pool == RangeWords(days, start, end)
  {
    pool := [];
    var i := 0;
    while i < |days|
      invariant 0 <= i <= |days|
      invariant pool == RangeWords(days[..i], start, end)
    {
      if start <= days[i].number <= end {
        var k := 0;
        var words := days[i].words;
        while k < |words|
          invariant 0 <= k <= |words|
          invariant pool == RangeWords(days[..i], start, end) + Tagged(days[i])[..k]
        {
          pool := pool + [DayWord(days[i].number, words[k])];
          assert Tagged(days[i])[..k + 1] == Tagged(days[i])[..k] + [DayWord(days[i].number, words[k])];
          k := k + 1;
        }
        assert Tagged(days[i])[..k] == Tagged(days[i]);
      }
      RangeWordsConcat(days[..i], [days[i]], start, end);
      assert RangeWords([days[i]], start, end) == DayPart(days[i], start, end) + RangeWords([], start, end);
      assert days[..i + 1] == days[..i] + [days[i]];
      i := i + 1;
    }
    assert days[..i] == days;
  }

  /** A range holding exactly one day yields that day's words in their catalog order:
      applying `[5, 5]` to a day 5 of ten words gives a pool of those ten words. */
  lemma {:induction false} RangeOfOneDay(days: seq<Day>, n: int, i: int)
    requires 0 <= i < |days| && days[i].number == n
    requires forall k :: 0 <= k < |days| && k != i ==> days[k].number != n
    ensures RangeWords(days, n, n) == Tagged(days[i])
  {
    if i == 0 {
      NoneInRange(days[1..], n, n);
      assert RangeWords(days, n, n) == Tagged(days[0]) + [];
    } else {
      RangeOfOneDay(days[1..], n, i - 1);
    }
  }

  /** A catalog with no day numbered in `[start, end]` yields an empty pool. */
  lemma {:induction false} NoneInRange(days: seq<Day>, start: int, end: int)
    requires forall k :: 0 <= k < |days| ==> !(start <= days[k].number <= end)
    ensures RangeWords(days, start, end) == []
  {
    if |days| > 0 {
      NoneInRange(days[1..], start, end);
    }
  }
}
