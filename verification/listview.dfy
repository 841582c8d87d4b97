/** The word list: which day sections `displayWords` shows for the day selector and
    the search box, and the day the application starts on. */
module ListView {
  import opened Wrappers
  import opened Text
  import opened Catalog
  import opened Progress

  /** A day heading with the word cards under it. */
  datatype Section = Section(day: int, words: seq<Word>)

  /** The search test: the lower-cased term occurs in the lower-cased spelling or,
      as typed, in the meaning (which is not lower-cased). */
  predicate Matches(w: Word, term: string) {
    Includes(Lower(w.spelling), term) || Includes(w.meaning, term)
  }

  /** The words of a day that pass the search test, in catalog order. */
  function FilterWords(words: seq<Word>, term: string): (r: seq<Word>)
    ensures forall w :: w in r <==> w in words && Matches(w, term)
    ensures |r| <= |words|
  {
    if |words| == 0 then []
    else
      var rest := FilterWords(words[1..], term);
      assert forall w :: w in words <==> w == words[0] || w in words[1..];
      if Matches(words[0], term) then [words[0]] + rest else rest
  }

  /** Filtering a list split in two filters each part in turn: the passing words keep
      their catalog order and their multiplicity. */
  lemma {:induction false} FilterWordsConcat(a: seq<Word>, b: seq<Word>, term: string)
    ensures FilterWords(a + b, term) == FilterWords(a, term) + FilterWords(b, term)
  {
    if |a| == 0 {
      assert a + b == b;
    } else {
      assert (a + b)[0] == a[0];
      assert (a + b)[1..] == a[1..] + b;
      FilterWordsConcat(a[1..], b, term);
    }
  }

  /** The days the selector admits: all of them, or the first day with the selected
      number (none if the catalog lacks it). */
  function DaysToShow(days: seq<Day>, selected: Option<int>): (r: seq<Day>)
    ensures selected.None? ==> r == days
    ensures selected.Some? && FindDay(days, selected.value).None? ==> r == []
    ensures selected.Some? && FindDay(days, selected.value).Some? ==> r == [FindDay(days, selected.value).value]
  {
    match selected
    case None => days
    case Some(n) =>
      match FindDay(days, n)
      case None => []
      case Some(d) => [d]
  }

  /** The section of one day: with a search term only its matching words, and no
      section at all when none match. */
  function DaySection(d: Day, term: string): (r: seq<Section>)
    ensures |r| <= 1
    ensures term == [] ==> r == [Section(d.number, d.words)]
    ensures forall j :: 0 <= j < |r| ==> r[j].day == d.number && forall w :: w in r[j].words ==> w in d.words
    ensures term != [] ==> forall j :: 0 <= j < |r| ==> |r[j].words| > 0 && forall w :: w in r[j].words ==> Matches(w, term)
    ensures forall w :: w in d.words && Matches(w, term) ==> |r| == 1 && w in r[0].words
  {
    var words := if term != [] then FilterWords(d.words, term) else d.words;
    if |words| == 0 && term != [] then [] else [Section(d.number, words)]
  }

  /** With a term, a day's section lists exactly its filtered words, in order, and
      is left out exactly when the filter keeps none. */
  lemma DaySectionLists(d: Day, term: string)
    requires term != []
    ensures |DaySection(d, term)| == 0 <==> FilterWords(d.words, term) == []
    ensures |DaySection(d, term)| == 1 ==> DaySection(d, term)[0].words == FilterWords(d.words, term)
  {
  }

  /** `s` heads day `i` of `days` and lists only that day's words. */
  predicate SectionOf(s: Section, days: seq<Day>, i: int) {
    0 <= i < |days| && s.day == days[i].number && forall w :: w in s.words ==> w in days[i].words
  }

  /** `s` heads one of the days of `days`. */
  ghost predicate HasOrigin(s: Section, days: seq<Day>) {
    exists i :: SectionOf(s, days, i)
  }

  /** One section per day; with a search term, only the matching words, and days left
      with none are skipped. */
  function Sections(days: seq<Day>, term: string): (r: seq<Section>)
    ensures |r| <= |days|
    ensures term == [] ==> |r| == |days| && forall i :: 0 <= i < |r| ==> r[i] == Section(days[i].number, days[i].words)
    ensures term != [] ==> forall j :: 0 <= j < |r| ==> |r[j].words| > 0 && forall w :: w in r[j].words ==> Matches(w, term)
    ensures forall j :: 0 <= j < |r| ==> HasOrigin(r[j], days)
  {
    if |days| == 0 then []
    else
      var head := DaySection(days[0], term);
      var rest := Sections(days[1..], term);
      SectionsOfTail(rest, days);
      assert forall j :: 0 <= j < |head| ==> SectionOf(head[j], days, 0) && HasOrigin(head[j], days);
      head + rest
  }

  /** The sections of a day list split in two are those of the first part followed by
      those of the second: sections appear in catalog order of their days. */
  lemma {:induction false} SectionsConcat(a: seq<Day>, b: seq<Day>, term: string)
    ensures Sections(a + b, term) == Sections(a, term) + Sections(b, term)
  {
    if |a| == 0 {
      assert a + b == b;
    } else {
      var ab := a + b;
      assert ab[0] == a[0] && ab[1..] == a[1..] + b;
      SectionsUnfold(ab, term);
      SectionsUnfold(a, term);
      SectionsConcat(a[1..], b, term);
      SeqAssoc(DaySection(a[0], term), Sections(a[1..], term), Sections(b, term));
    }
  }

  /** One step of the definition of `Sections`. */
  lemma SectionsUnfold(days: seq<Day>, term: string)
    requires |days| > 0
    ensures Sections(days, term) == DaySection(days[0], term) + Sections(days[1..], term)
  {
  }

  /** Concatenation is associative. */
  lemma SeqAssoc<T>(x: seq<T>, y: seq<T>, z: seq<T>)
    ensures (x + y) + z == x + (y + z)
  {
  }

  /** Sections of the later days are sections of the whole list. */
  lemma SectionsOfTail(rest: seq<Section>, days: seq<Day>)
    requires |days| > 0
    requires forall j :: 0 <= j < |rest| ==> HasOrigin(rest[j], days[1..])
    ensures forall j :: 0 <= j < |rest| ==> HasOrigin(rest[j], days)
  {
    forall j | 0 <= j < |rest|
      ensures HasOrigin(rest[j], days)
    {
      var i' :| SectionOf(rest[j], days[1..], i');
      assert days[1..][i'] == days[i' + 1];
      assert SectionOf(rest[j], days, i' + 1);
    }
  }

  /** Word `w` is listed under a heading for day `day`. */
  ghost predicate ListedUnder(r: seq<Section>, day: int, w: Word) {
    exists j :: 0 <= j < |r| && r[j].day == day && w in r[j].words
  }

  /** Every matching word of an admitted day appears under a heading for that day. */
  lemma {:induction false} SectionsComplete(days: seq<Day>, term: string, i: int, w: Word)
    requires 0 <= i < |days| && w in days[i].words && Matches(w, term)
    ensures ListedUnder(Sections(days, term), days[i].number, w)
  {
    var head := DaySection(days[0], term);
    var rest := Sections(days[1..], term);
    assert Sections(days, term) == head + rest;
    if i == 0 {
      assert |head| == 1 && w in head[0].words;
      assert (head + rest)[0] == head[0];
    } else {
      assert days[1..][i - 1] == days[i];
      SectionsComplete(days[1..], term, i - 1, w);
      var j :| 0 <= j < |rest| && rest[j].day == days[i].number && w in rest[j].words;
      ListedAfter(head, rest, j, days[i].number, w);
    }
  }

  /** A listing in the later sections is a listing in the whole. */
  lemma ListedAfter(head: seq<Section>, rest: seq<Section>, j: int, day: int, w: Word)
    requires 0 <= j < |rest| && rest[j].day == day && w in rest[j].words
    ensures ListedUnder(head + rest, day, w)
  {
    assert (head + rest)[|head| + j] == rest[j];
  }

  /** `displayWords`: the search box text is lower-cased (not trimmed) and applied to
      the days the selector admits. */
  function VisibleSections(days: seq<Day>, selected: Option<int>, search: string): (r: seq<Section>)
    ensures search == [] ==> |r| == |DaysToShow(days, selected)|
    ensures forall j :: 0 <= j < |r| ==> search == [] || |r[j].words| > 0
    ensures forall j, w :: 0 <= j < |r| && w in r[j].words ==> Matches(w, Lower(search))
  {
    var term := Lower(search);
    assert term == [] <==> search == [];
    var r := Sections(DaysToShow(days, selected), term);
    assert term == [] ==> forall j, w :: 0 <= j < |r| && w in r[j].words ==> Includes(Lower(w.spelling), term) by {
      if term == [] {
        forall j, w | 0 <= j < |r| && w in r[j].words
          ensures Includes(Lower(w.spelling), term)
        {
          assert OccursAt(Lower(w.spelling), term, 0);
        }
      }
    }
    r
  }

  /** A day counts as finished when its stored status is `completed`. */
  predicate IsCompleted(dp: map<int, DayStatus>, d: int) {
    d in dp && dp[d] == Completed
  }

  /** The day `loadData` starts daily mode on: the remembered day when it is set,
      otherwise the first of days 1..100 not completed, otherwise unchanged. A
      loaded record always has a non-zero remembered day (`Persistence.Normal`),
      so after `loadProgress` only the first branch is taken. */
  method StartingDay(p: Record, current: int) returns (d: int)
    ensures p.lastDayNumber != 0 ==> d == p.lastDayNumber
    ensures p.lastDayNumber == 0 && (exists k :: 1 <= k <= 100 && !IsCompleted(p.daysProgress, k)) ==>
      && 1 <= d <= 100 && !IsCompleted(p.daysProgress, d)
      && forall k :: 1 <= k < d ==> IsCompleted(p.daysProgress, k)
    ensures p.lastDayNumber == 0 && (forall k :: 1 <= k <= 100 ==> IsCompleted(p.daysProgress, k)) ==> d == current
  {
    if p.lastDayNumber != 0 {
      return p.lastDayNumber;
    }
    d := current;
    var i := 1;
    while i <= 100
      invariant 1 <= i <= 101
      invariant forall k :: 1 <= k < i ==> IsCompleted(p.daysProgress, k)
      invariant d == current
    {
      if !IsCompleted(p.daysProgress, i) {
        return i;
      }
      i := i + 1;
    }
  }
}
