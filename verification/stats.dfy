/** The rounded percentages shown on the statistics page and by the typing drill. */
module Stats {
  import opened Wrappers
  import opened Catalog
  import opened Progress

  /** `Math.round(part / whole * 100)` for a positive `whole`, in exact arithmetic:
      the nearest integer to `100 * part / whole`, halves rounded up. */
  function RoundedPercent(part: int, whole: int): (r: int)
    requires whole > 0
    ensures 2 * whole * r <= 200 * part + whole < 2 * whole * (r + 1)
    ensures 0 <= part <= whole ==> 0 <= r <= 100
  {
    var q := (200 * part + whole) / (2 * whole);
    QuotientBounds(part, whole, q);
    q
  }

  lemma QuotientBounds(part: int, whole: int, q: int)
    requires whole > 0 && q == (200 * part + whole) / (2 * whole)
    ensures 2 * whole * q <= 200 * part + whole < 2 * whole * (q + 1)
    ensures 0 <= part <= whole ==> 0 <= q <= 100
  {
    var n := 200 * part + whole;
    var m := n % (2 * whole);
    assert n == 2 * whole * q + m && 0 <= m < 2 * whole;
    assert 2 * whole * (q + 1) == 2 * whole * q + 2 * whole;
    if 0 <= part <= whole {
      assert n <= 201 * whole;
    }
  }

  /** The rounding bound admits one value only, so every figure stated by it below
      is the rounded share itself. */
  lemma RoundingBoundUnique(part: int, whole: int, a: int, b: int)
    requires whole > 0
    requires 2 * whole * a <= 200 * part + whole < 2 * whole * (a + 1)
    requires 2 * whole * b <= 200 * part + whole < 2 * whole * (b + 1)
    ensures a == b
  {
    if a < b {
      ScaleMonotone(2 * whole, a + 1, b);
    } else if b < a {
      ScaleMonotone(2 * whole, b + 1, a);
    }
  }

  lemma ScaleMonotone(m: int, x: int, y: int)
    requires m >= 0 && x <= y
    ensures m * x <= m * y
  {
    assert m * y - m * x == m * (y - x);
  }

  /** `whole > 0 ? Math.round(part / whole * 100) : 0`, the guarded form both the
      typing accuracy and the mastery rate use. */
  function Percent(part: int, whole: int): (r: int)
    ensures whole <= 0 ==> r == 0
    ensures whole > 0 ==> 2 * whole * r <= 200 * part + whole < 2 * whole * (r + 1)
    ensures 0 <= part <= whole ==> 0 <= r <= 100
  {
    if whole > 0 then RoundedPercent(part, whole) else 0
  }

  /** Two right out of three is 67 per cent; one out of eight, 12.5, rounds up to 13;
      nothing attempted is 0. */
  lemma PercentExamples()
    ensures Percent(2, 3) == 67
    ensures Percent(1, 2) == 50
    ensures Percent(1, 8) == 13
    ensures Percent(5, 0) == 0
  {
  }

  /** The statistics page's accuracy: mastered words as a share of studied words. */
  function MasteryRate(p: Record): (r: int)
    ensures p.studiedWords <= 0 ==> r == 0
    ensures p.studiedWords > 0 ==>
      2 * p.studiedWords * r <= 200 * p.masteredWords + p.studiedWords < 2 * p.studiedWords * (r + 1)
    ensures 0 <= p.masteredWords <= p.studiedWords ==> 0 <= r <= 100
  {
    Percent(p.masteredWords, p.studiedWords)
  }

  /** The overall progress bar: keys with a status as a share of the catalog's
      `total_words`. The source divides without a guard, so a catalog declaring no
      words yields `NaN` or `Infinity`, here `None`. */
  function OverallPercent(p: Record, vocab: Vocabulary): (r: Option<int>)
    ensures r.None? <==> vocab.totalWords == 0
    ensures r.Some? && |p.wordStatus| <= vocab.totalWords ==> 0 <= r.value <= 100
    ensures r.Some? ==>
      2 * vocab.totalWords * r.value <= 200 * |p.wordStatus| + vocab.totalWords < 2 * vocab.totalWords * (r.value + 1)
  {
    if vocab.totalWords == 0 then None
    else Some(RoundedPercent(|p.wordStatus|, vocab.totalWords))
  }
}
