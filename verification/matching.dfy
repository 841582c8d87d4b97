/** The matching game: up to ten words of a day range are drawn, their spellings
    shuffled into a left column and their meanings into a right column, and the
    player picks cards two at a time. */
module Matching {
  import opened Catalog
  import opened Shuffle
  import opened Progress

  /** `dataset.type` of a card. */
  datatype CardKind = WordCard | MeaningCard

  /** A card element: its `type`, text and `id` data, and its `matched` and
      `selected` classes. */
  datatype Card = Card(kind: CardKind, content: string, id: int, matched: bool, selected: bool)

  datatype Column = Left | Right

  /** Which card element an event or the selection buffer refers to. */
  datatype CardRef = CardRef(column: Column, index: int)

  /** `matchingWords`, the two columns, `selectedCards`, `matchedPairs`, the score
      shown on the page, and the one-second unselect timers of mismatched pairs
      still to fire, oldest first. */
  datatype Game = Game(
    pool: seq<DayWord>,
    left: seq<Card>,
    right: seq<Card>,
    buffer: seq<CardRef>,
    matchedPairs: nat,
    score: int,
    pending: seq<(CardRef, CardRef)>)

  const NoGame: Game := Game([], [], [], [], 0, 0, [])

  /** The largest number of words one game uses. */
  const MaxWords: nat := 10

  function Min(a: int, b: int): int {
    if a <= b then a else b
  }

  function WordCards(pool: seq<DayWord>): (r: seq<Card>)
    ensures |r| == |pool|
    ensures forall i :: 0 <= i < |r| ==> r[i] == Card(WordCard, pool[i].word.spelling, pool[i].word.id, false, false)
  {
    seq(|pool|, i requires 0 <= i < |pool| => Card(WordCard, pool[i].word.spelling, pool[i].word.id, false, false))
  }

  function MeaningCards(pool: seq<DayWord>): (r: seq<Card>)
    ensures |r| == |pool|
    ensures forall i :: 0 <= i < |r| ==> r[i] == Card(MeaningCard, pool[i].word.meaning, pool[i].word.id, false, false)
  {
    seq(|pool|, i requires 0 <= i < |pool| => Card(MeaningCard, pool[i].word.meaning, pool[i].word.id, false, false))
  }

  function ColumnOf(g: Game, c: Column): seq<Card> {
    match c
    case Left => g.left
    case Right => g.right
  }

  predicate ValidRef(g: Game, r: CardRef) {
    0 <= r.index < |ColumnOf(g, r.column)|
  }

  function CardAt(g: Game, r: CardRef): Card
    requires ValidRef(g, r)
  {
    ColumnOf(g, r.column)[r.index]
  }

  function SetCard(g: Game, r: CardRef, c: Card): (g': Game)
    requires ValidRef(g, r)
    ensures |g'.left| == |g.left| && |g'.right| == |g.right|
    ensures g'.pool == g.pool && g'.buffer == g.buffer && g'.matchedPairs == g.matchedPairs
    ensures g'.score == g.score && g'.pending == g.pending
    ensures ValidRef(g', r) && CardAt(g', r) == c
    ensures KeptExcept(g, g', r, r)
  {
    match r.column
    case Left => g.(left := g.left[r.index := c])
    case Right => g.(right := g.right[r.index := c])
  }

  /** Both columns keep their lengths and every card other than `a` and `b` is as
      it was. */
  ghost predicate KeptExcept(g: Game, r: Game, a: CardRef, b: CardRef) {
    && |r.left| == |g.left| && |r.right| == |g.right|
    && forall q :: ValidRef(g, q) && q != a && q != b ==> CardAt(r, q) == CardAt(g, q)
  }

  function MatchedCount(cards: seq<Card>): nat {
    if |cards| == 0 then 0
    else (if cards[0].matched then 1 else 0) + MatchedCount(cards[1..])
  }

  lemma {:induction false} MatchedCountBounds(cards: seq<Card>)
    ensures MatchedCount(cards) <= |cards|
    ensures MatchedCount(cards) == |cards| <==> forall i :: 0 <= i < |cards| ==> cards[i].matched
    ensures MatchedCount(cards) == 0 <==> forall i :: 0 <= i < |cards| ==> !cards[i].matched
  {
    if |cards| > 0 {
      MatchedCountBounds(cards[1..]);
      assert forall i :: 1 <= i < |cards| ==> cards[i] == cards[1..][i - 1];
    }
  }

  lemma {:induction false} MatchedCountUpdate(cards: seq<Card>, i: int, c: Card)
    requires 0 <= i < |cards|
    ensures MatchedCount(cards[i := c]) ==
      MatchedCount(cards) - (if cards[i].matched then 1 else 0) + (if c.matched then 1 else 0)
  {
    if i == 0 {
      assert cards[i := c][1..] == cards[1..];
    } else {
      MatchedCountUpdate(cards[1..], i - 1, c);
      assert cards[i := c][1..] == cards[1..][i - 1 := c];
    }
  }

  /** Two picked cards form a pair: different `type`, same `id`. The day is not
      compared. */
  predicate IsPair(c1: Card, c2: Card) {
    c1.kind != c2.kind && c1.id == c2.id
  }

  /** The board's standing facts: one card per pool word in each column, spellings on
      the left, meanings on the right, as many matched cards in each column as
      matched pairs, and ten points per pair. */
  predicate Board(g: Game) {
    && |g.left| == |g.pool| && |g.right| == |g.pool|
    && (forall i :: 0 <= i < |g.left| ==> g.left[i].kind == WordCard)
    && (forall i :: 0 <= i < |g.right| ==> g.right[i].kind == MeaningCard)
    && g.matchedPairs == MatchedCount(g.left)
    && g.matchedPairs == MatchedCount(g.right)
    && g.score == 10 * g.matchedPairs
  }

  /** Between events at most one card waits in the buffer, and it is not matched. */
  predicate Inv(g: Game) {
    && Board(g)
    && |g.buffer| <= 1
    && forall r :: r in g.buffer ==> ValidRef(g, r) && !CardAt(g, r).matched
  }

  /** Changing a card's `selected` class alone keeps the board's standing facts. */
  lemma SelectionKeepsBoard(g: Game, r: CardRef, sel: bool)
    requires Board(g) && ValidRef(g, r)
    ensures Board(SetCard(g, r, CardAt(g, r).(selected := sel)))
    ensures forall q :: ValidRef(g, q) ==>
      (ValidRef(SetCard(g, r, CardAt(g, r).(selected := sel)), q)
       && CardAt(SetCard(g, r, CardAt(g, r).(selected := sel)), q) == CardAt(g, q).(selected := CardAt(SetCard(g, r, CardAt(g, r).(selected := sel)), q).selected))
  {
    var c := CardAt(g, r).(selected := sel);
    match r.column
    case Left => MatchedCountUpdate(g.left, r.index, c);
    case Right => MatchedCountUpdate(g.right, r.index, c);
  }

  /** The two-card buffer `checkMatching` is called with. */
  predicate PairReady(g: Game) {
    && Board(g)
    && |g.buffer| == 2
    && forall r :: r in g.buffer ==> ValidRef(g, r) && !CardAt(g, r).matched
  }

  /** `checkMatching`. A pair becomes matched (and unselected) and scores; a mismatch
      starts the timer that unselects both. The buffer is emptied either way. */
  function CheckPair(g: Game): (r: Game)
    requires PairReady(g)
    ensures Inv(r) && r.buffer == [] && r.pool == g.pool
    ensures |r.left| == |g.left| && |r.right| == |g.right|
    ensures IsPair(CardAt(g, g.buffer[0]), CardAt(g, g.buffer[1])) ==>
      && r.matchedPairs == g.matchedPairs + 1 && r.pending == g.pending
      && KeptExcept(g, r, g.buffer[0], g.buffer[1])
      && CardAt(r, g.buffer[0]) == CardAt(g, g.buffer[0]).(matched := true, selected := false)
      && CardAt(r, g.buffer[1]) == CardAt(g, g.buffer[1]).(matched := true, selected := false)
    ensures !IsPair(CardAt(g, g.buffer[0]), CardAt(g, g.buffer[1])) ==>
      r == g.(buffer := [], pending := g.pending + [(g.buffer[0], g.buffer[1])])
  {
    var a := g.buffer[0];
    var b := g.buffer[1];
    var c1 := CardAt(g, a);
    var c2 := CardAt(g, b);
    if IsPair(c1, c2) then
      MatchAddsPair(g, a, b);
      var g1 := SetCard(g, a, c1.(matched := true, selected := false));
      var g2 := SetCard(g1, b, CardAt(g1, b).(matched := true, selected := false));
      g2.(matchedPairs := g.matchedPairs + 1, score := g.score + 10, buffer := [])
    else
      g.(buffer := [], pending := g.pending + [(a, b)])
  }

  /** Matching a word card with a meaning card adds one matched card to each column. */
  lemma MatchAddsPair(g: Game, a: CardRef, b: CardRef)
    requires Board(g) && ValidRef(g, a) && ValidRef(g, b)
    requires !CardAt(g, a).matched && !CardAt(g, b).matched
    requires IsPair(CardAt(g, a), CardAt(g, b))
    ensures var g1 := SetCard(g, a, CardAt(g, a).(matched := true, selected := false));
      && ValidRef(g1, b) && CardAt(g1, b) == CardAt(g, b)
      && var g2 := SetCard(g1, b, CardAt(g1, b).(matched := true, selected := false));
         && Board(g2.(matchedPairs := g.matchedPairs + 1, score := g.score + 10, buffer := []))
         && CardAt(g2, a).matched && CardAt(g2, b).matched
  {
    assert a.column != b.column;
    var g1 := SetCard(g, a, CardAt(g, a).(matched := true, selected := false));
    var g2 := SetCard(g1, b, CardAt(g1, b).(matched := true, selected := false));
    match a.column
    case Left =>
      MatchedCountUpdate(g.left, a.index, CardAt(g, a).(matched := true, selected := false));
      MatchedCountUpdate(g.right, b.index, CardAt(g, b).(matched := true, selected := false));
    case Right =>
      MatchedCountUpdate(g.right, a.index, CardAt(g, a).(matched := true, selected := false));
      MatchedCountUpdate(g.left, b.index, CardAt(g, b).(matched := true, selected := false));
  }

  /** `selectMatchingCard`. A matched or already selected card (or no card) is
      ignored; otherwise it is selected and buffered, and the second pick is checked. */
  function Select(g: Game, ref: CardRef): (r: Game)
    requires Inv(g)
    ensures Inv(r) && r.pool == g.pool && |r.left| == |g.left| && |r.right| == |g.right|
    ensures !ValidRef(g, ref) || CardAt(g, ref).matched || CardAt(g, ref).selected ==> r == g
    ensures forall q :: ValidRef(g, q) && CardAt(g, q).matched ==> CardAt(r, q).matched
    ensures ValidRef(g, ref) && !CardAt(g, ref).matched && !CardAt(g, ref).selected && g.buffer == [] ==>
      && r.buffer == [ref] && CardAt(r, ref) == CardAt(g, ref).(selected := true)
      && KeptExcept(g, r, ref, ref)
      && r.matchedPairs == g.matchedPairs && r.pending == g.pending
    ensures ValidRef(g, ref) && !CardAt(g, ref).matched && !CardAt(g, ref).selected && |g.buffer| == 1 ==>
      && r.buffer == []
      && (IsPair(CardAt(g, g.buffer[0]), CardAt(g, ref)) ==>
            && r.matchedPairs == g.matchedPairs + 1
            && KeptExcept(g, r, g.buffer[0], ref)
            && CardAt(r, g.buffer[0]) == CardAt(g, g.buffer[0]).(matched := true, selected := false)
            && CardAt(r, ref) == CardAt(g, ref).(matched := true, selected := false))
      && (!IsPair(CardAt(g, g.buffer[0]), CardAt(g, ref)) ==>
            && r.matchedPairs == g.matchedPairs && r.pending == g.pending + [(g.buffer[0], ref)]
            && KeptExcept(g, r, ref, ref) && CardAt(r, ref) == CardAt(g, ref).(selected := true))
  {
    if !ValidRef(g, ref) || CardAt(g, ref).matched || CardAt(g, ref).selected then g
    else
      var g1 := Pick(g, ref);
      if |g1.buffer| == 2 then
        SecondPick(g, ref);
        CheckPair(g1)
      else g1
  }

  /** The second pick as `checkMatching` leaves it: only the two picked cards change,
      and cards already matched stay matched. */
  lemma SecondPick(g: Game, ref: CardRef)
    requires Inv(g) && ValidRef(g, ref) && !CardAt(g, ref).matched && |g.buffer| == 1
    ensures PairReady(Pick(g, ref))
    ensures var r := CheckPair(Pick(g, ref));
      && (forall q :: ValidRef(g, q) && CardAt(g, q).matched ==> CardAt(r, q).matched)
      && (IsPair(CardAt(g, g.buffer[0]), CardAt(g, ref)) ==>
            && KeptExcept(g, r, g.buffer[0], ref)
            && CardAt(r, g.buffer[0]) == CardAt(g, g.buffer[0]).(matched := true, selected := false)
            && CardAt(r, ref) == CardAt(g, ref).(matched := true, selected := false))
      && (!IsPair(CardAt(g, g.buffer[0]), CardAt(g, ref)) ==>
            KeptExcept(g, r, ref, ref) && CardAt(r, ref) == CardAt(g, ref).(selected := true))
  {
    var a := g.buffer[0];
    var g1 := Pick(g, ref);
    var r := CheckPair(g1);
    assert g1.buffer == [a, ref];
    if IsPair(CardAt(g, a), CardAt(g, ref)) {
      assert a != ref;
      assert CardAt(g1, a) == CardAt(g, a);
      forall q | ValidRef(g, q) && q != a && q != ref
        ensures CardAt(r, q) == CardAt(g, q)
      {
        assert ValidRef(g1, q);
      }
    } else {
      forall q | ValidRef(g, q) && q != ref
        ensures CardAt(r, q) == CardAt(g, q)
      {
        assert ValidRef(g1, q);
      }
    }
  }

  /** A free card gets the `selected` class and joins the buffer. */
  function Pick(g: Game, ref: CardRef): (g1: Game)
    requires Inv(g) && ValidRef(g, ref) && !CardAt(g, ref).matched
    ensures g1.buffer == g.buffer + [ref] && g1.pool == g.pool
    ensures |g1.left| == |g.left| && |g1.right| == |g.right|
    ensures g1.matchedPairs == g.matchedPairs && g1.pending == g.pending
    ensures ValidRef(g1, ref) && CardAt(g1, ref) == CardAt(g, ref).(selected := true)
    ensures KeptExcept(g, g1, ref, ref)
    ensures g.buffer == [] ==> Inv(g1)
    ensures |g.buffer| == 1 ==>
      && PairReady(g1)
      && (IsPair(CardAt(g1, g1.buffer[0]), CardAt(g1, g1.buffer[1])) <==> IsPair(CardAt(g, g.buffer[0]), CardAt(g, ref)))
  {
    SelectionKeepsBoard(g, ref, true);
    var g0 := SetCard(g, ref, CardAt(g, ref).(selected := true));
    var g1 := g0.(buffer := g.buffer + [ref]);
    if |g.buffer| == 1 then
      var a := g.buffer[0];
      assert a in g.buffer;
      assert g1.buffer == [a, ref];
      assert CardAt(g1, a) == CardAt(g, a).(selected := CardAt(g1, a).selected);
      assert CardAt(g1, ref) == CardAt(g, ref).(selected := true);
      g1
    else
      assert g1.buffer == [ref];
      g1
  }

  /** Takes the `selected` class off a card, if the reference names one. */
  function Unselect(g: Game, r: CardRef): (g': Game)
    requires Inv(g)
    ensures Inv(g') && g'.pool == g.pool && g'.matchedPairs == g.matchedPairs && g'.pending == g.pending
    ensures |g'.left| == |g.left| && |g'.right| == |g.right| && g'.buffer == g.buffer
    ensures ValidRef(g, r) ==> CardAt(g', r) == CardAt(g, r).(selected := false) && KeptExcept(g, g', r, r)
    ensures !ValidRef(g, r) ==> g' == g
  {
    if ValidRef(g, r) then
      SelectionKeepsBoard(g, r, false);
      SetCard(g, r, CardAt(g, r).(selected := false))
    else g
  }

  /** The oldest mismatch timer fires and unselects its two cards. */
  function MismatchTimerFired(g: Game): (r: Game)
    requires Inv(g)
    ensures Inv(r) && r.pool == g.pool && r.matchedPairs == g.matchedPairs && r.buffer == g.buffer
    ensures |g.pending| == 0 ==> r == g
    ensures |g.pending| > 0 ==> r.pending == g.pending[1..]
    ensures |g.pending| > 0 ==> UnselectedPair(g, r, g.pending[0].0, g.pending[0].1)
  {
    if |g.pending| == 0 then g
    else
      var (a, b) := g.pending[0];
      UnselectBoth(g, a, b);
      var g2 := Unselect(Unselect(g, a), b);
      g2.(pending := g.pending[1..])
  }

  /** `a` and `b` have lost the `selected` class and every other card is as it was. */
  ghost predicate UnselectedPair(g: Game, r: Game, a: CardRef, b: CardRef) {
    && KeptExcept(g, r, a, b)
    && (ValidRef(g, a) ==> ValidRef(r, a) && CardAt(r, a) == CardAt(g, a).(selected := false))
    && (ValidRef(g, b) ==> ValidRef(r, b) && CardAt(r, b) == CardAt(g, b).(selected := false))
  }

  lemma UnselectBoth(g: Game, a: CardRef, b: CardRef)
    requires Inv(g)
    ensures UnselectedPair(g, Unselect(Unselect(g, a), b), a, b)
  {
    var g1 := Unselect(g, a);
    var g2 := Unselect(g1, b);
    forall q | ValidRef(g, q) && q != a && q != b
      ensures CardAt(g2, q) == CardAt(g, q)
    {
      assert ValidRef(g1, q);
    }
    if ValidRef(g, a) && a != b {
      assert ValidRef(g1, a);
    }
    if ValidRef(g, b) {
      assert ValidRef(g1, b);
    }
  }

  /** Every pair found is a distinct word of the pool, so the score never exceeds ten
      points per word and the game is complete exactly when every card is matched. */
  lemma PairsBounded(g: Game)
    requires Inv(g)
    ensures g.matchedPairs <= |g.pool|
    ensures g.score == 10 * g.matchedPairs
    ensures g.matchedPairs == |g.pool| <==> forall i :: 0 <= i < |g.pool| ==> g.left[i].matched && g.right[i].matched
  {
    MatchedCountBounds(g.left);
    MatchedCountBounds(g.right);
  }

  /** `displayMatchingBoard`: each column a permutation of the pool's cards, score 0.
      Timers of the previous board only touch its discarded elements, so none remain. */
  function DisplayBoard(pool: seq<DayWord>, leftDraws: seq<int>, rightDraws: seq<int>): (r: Game)
    requires ValidDraws(leftDraws, |pool|) && ValidDraws(rightDraws, |pool|)
    ensures Inv(r) && r.pool == pool && r.buffer == [] && r.pending == []
    ensures r.matchedPairs == 0 && r.score == 0
    ensures multiset(r.left) == multiset(WordCards(pool))
    ensures multiset(r.right) == multiset(MeaningCards(pool))
  {
    var left := FisherYates(WordCards(pool), leftDraws);
    var right := FisherYates(MeaningCards(pool), rightDraws);
    FreshColumn(WordCards(pool), left, WordCard);
    FreshColumn(MeaningCards(pool), right, MeaningCard);
    Game(pool, left, right, [], 0, 0, [])
  }

  /** A permutation of fresh cards of one kind is again fresh cards of that kind. */
  lemma FreshColumn(cards: seq<Card>, shuffled: seq<Card>, kind: CardKind)
    requires multiset(shuffled) == multiset(cards)
    requires forall i :: 0 <= i < |cards| ==> cards[i].kind == kind && !cards[i].matched
    ensures forall i :: 0 <= i < |shuffled| ==> shuffled[i].kind == kind && !shuffled[i].matched
    ensures MatchedCount(shuffled) == 0
  {
    forall i | 0 <= i < |shuffled|
      ensures shuffled[i].kind == kind && !shuffled[i].matched
    {
      assert shuffled[i] in multiset(cards);
    }
    MatchedCountBounds(shuffled);
  }

  /** `startMatchingGame` with the draws of its three shuffles. A range without words
      leaves the previous game as it was; otherwise the pool is the first
      `min(10, n)` words of a permutation of the range's `n` words. */
  function StartGame(vocab: Vocabulary, g: Game, start: int, end: int,
                     draws: seq<int>, leftDraws: seq<int>, rightDraws: seq<int>): (r: Game)
    requires var n := |RangeWords(vocab.days, start, end)|;
      ValidDraws(draws, n) && ValidDraws(leftDraws, Min(MaxWords, n)) && ValidDraws(rightDraws, Min(MaxWords, n))
    ensures var all := RangeWords(vocab.days, start, end);
      |all| == 0 ==> r == g
    ensures var all := RangeWords(vocab.days, start, end);
      |all| > 0 ==>
        && Inv(r) && r.buffer == [] && r.matchedPairs == 0 && r.score == 0
        && |r.pool| == Min(MaxWords, |all|)
        && multiset(r.pool) <= multiset(all)
        && (|all| <= MaxWords ==> multiset(r.pool) == multiset(all))
        && multiset(r.left) == multiset(WordCards(r.pool))
        && multiset(r.right) == multiset(MeaningCards(r.pool))
  {
    var all := RangeWords(vocab.days, start, end);
    if |all| == 0 then g
    else
      var shuffled := FisherYates(all, draws);
      var k := Min(MaxWords, |all|);
      PrefixSubMultiset(shuffled, k);
      assert k == |shuffled| ==> shuffled[..k] == shuffled;
      DisplayBoard(shuffled[..k], leftDraws, rightDraws)
  }

  datatype Applied = Applied(progress: Record, game: Game)

  /** `applyMatchingRange`: remember the range in the record (and save it), then start
      a game on it. */
  function ApplyRange(vocab: Vocabulary, p: Record, g: Game, start: int, end: int,
                      draws: seq<int>, leftDraws: seq<int>, rightDraws: seq<int>): (r: Applied)
    requires var n := |RangeWords(vocab.days, start, end)|;
      ValidDraws(draws, n) && ValidDraws(leftDraws, Min(MaxWords, n)) && ValidDraws(rightDraws, Min(MaxWords, n))
    ensures r.progress == p.(lastMatchingDayStart := start, lastMatchingDayEnd := end)
    ensures r.game == StartGame(vocab, g, start, end, draws, leftDraws, rightDraws)
  {
    Applied(p.(lastMatchingDayStart := start, lastMatchingDayEnd := end),
            StartGame(vocab, g, start, end, draws, leftDraws, rightDraws))
  }

  /** Ids are compared without their day: the spelling of word 7 of day 1 and the
      meaning of word 7 of day 2 are accepted as a pair. */
  lemma SameIdAcrossDaysMatches()
    ensures var pool := [DayWord(1, Word(7, "apple", "n", "사과")), DayWord(2, Word(7, "river", "n", "강"))];
      var g := Game(pool, WordCards(pool), MeaningCards(pool), [], 0, 0, []);
      Inv(g) && var g1 := Select(g, CardRef(Left, 0));
      Inv(g1) && Select(g1, CardRef(Right, 1)).matchedPairs == 1
  {
    var pool := [DayWord(1, Word(7, "apple", "n", "사과")), DayWord(2, Word(7, "river", "n", "강"))];
    var g := Game(pool, WordCards(pool), MeaningCards(pool), [], 0, 0, []);
    MatchedCountBounds(g.left);
    MatchedCountBounds(g.right);
    assert Inv(g);
    var g1 := Select(g, CardRef(Left, 0));
    assert g1.buffer == [CardRef(Left, 0)];
    assert CardAt(g1, CardRef(Left, 0)).id == 7 && CardAt(g1, CardRef(Left, 0)).kind == WordCard;
    assert CardAt(g1, CardRef(Right, 1)) == CardAt(g, CardRef(Right, 1));
  }
}
