/** The placeholder pricing rule of the listing page: a fixed base price,
    raised by a fifth above 80% occupancy and lowered by a fifth below 40%. */
module Pricing {
  const BasePrice: int := 100

  /** `calculateSuggestedPrice`. `BasePrice * 1.2` and `BasePrice * 0.8` are
      exactly 120 and 80 in double precision, so the prices are integers. */
  function SuggestedPrice(rate: int): (p: int)
    ensures p == BasePrice * 6 / 5 <==> rate > 80
    ensures p == BasePrice * 4 / 5 <==> rate < 40
    ensures p == BasePrice <==> 40 <= rate <= 80
  {
    if rate > 80 then 120 else if rate < 40 then 80 else BasePrice
  }

  /** A higher occupancy never suggests a lower price. */
  lemma SuggestedPriceMonotone(a: int, b: int)
    requires a <= b
    ensures SuggestedPrice(a) <= SuggestedPrice(b)
  {
  }

  /** The suggestion stays within a fifth of the base price, whatever the
      rate (including rates above 100). */
  lemma SuggestedPriceWithinAFifth(rate: int)
    ensures BasePrice * 4 / 5 <= SuggestedPrice(rate) <= BasePrice * 6 / 5
  {
  }

  /** The rates 85, 35 and 60 suggest 120, 80 and 100. */
  lemma ThresholdExamples()
    ensures SuggestedPrice(85) == 120 && SuggestedPrice(35) == 80 && SuggestedPrice(60) == 100
    ensures SuggestedPrice(80) == 100 && SuggestedPrice(81) == 120
    ensures SuggestedPrice(40) == 100 && SuggestedPrice(39) == 80
  {
  }
}
