/**
 * Quotes, tax and coin redemption, after pricing.service.ts: nights matched to their prices, coins taken off
 * the bill, tax rounded to the nearest rupee, half up. Money is in paise, tax in whole rupees.
 */
module Pricing {
  import opened Basics
  import opened Tables
  import opened Coins

  datatype RatePrice = RatePrice(night: int, basePrice: int)

  const PAISE_PER_RUPEE := 100
  const TAX_PERCENT := 18

  /** Rounds `amount * percent / 100` to whole rupees, halves up. */
  function PercentInRupees(amount: int, percent: int): int {
    (amount * percent + 100 * PAISE_PER_RUPEE / 2) / (100 * PAISE_PER_RUPEE) * PAISE_PER_RUPEE
  }

  function EstimateTaxes(amount: int): int { PercentInRupees(amount, TAX_PERCENT) }

  /** The price row a night is matched with: of several rows for one night the last one counts. */
  function PriceOf(prices: seq<RatePrice>, night: int): Option<RatePrice> {
    if |prices| == 0 then None
    else if prices[|prices| - 1].night == night then Some(prices[|prices| - 1])
    else PriceOf(prices[..|prices| - 1], night)
  }

  predicate HasPrice(prices: seq<RatePrice>, night: int) {
    exists p | 0 <= p < |prices| :: prices[p].night == night
  }

  predicate PricedEveryNight(prices: seq<RatePrice>, nights: seq<int>) {
    forall i | 0 <= i < |nights| :: HasPrice(prices, nights[i])
  }

  /** There are nights, and every one of them has a price row. */
  predicate FullyPriced(prices: seq<RatePrice>, nights: seq<int>) {
    |nights| > 0 && PricedEveryNight(prices, nights)
  }

  lemma {:induction false} PriceOfFinds(prices: seq<RatePrice>, night: int)
    ensures PriceOf(prices, night).Some? <==> HasPrice(prices, night)
    ensures PriceOf(prices, night).Some? ==> PriceOf(prices, night).value in prices && PriceOf(prices, night).value.night == night
  {
    if |prices| > 0 {
      var front := prices[..|prices| - 1];
      PriceOfFinds(front, night);
      assert forall p | 0 <= p < |front| :: front[p] == prices[p];
      assert prices == front + [prices[|prices| - 1]];
    }
  }

  /** The map the rows are loaded into, later rows overwriting earlier ones. */
  method LoadByNight(prices: seq<RatePrice>) returns (byNight: map<int, RatePrice>)
    ensures forall night :: night in byNight <==> PriceOf(prices, night).Some?
    ensures forall night | night in byNight :: byNight[night] == PriceOf(prices, night).value
  {
    byNight := map[];
    for i := 0 to |prices|
      invariant forall night :: night in byNight <==> PriceOf(prices[..i], night).Some?
      invariant forall night | night in byNight :: byNight[night] == PriceOf(prices[..i], night).value
    {
      byNight := byNight[prices[i].night := prices[i]];
      assert prices[..i + 1][..i] == prices[..i];
    }
    assert prices[..|prices|] == prices;
  }

  /** One price row per requested night, if each has one. */
  method MatchNights(prices: seq<RatePrice>, nights: seq<int>) returns (matched: Option<seq<RatePrice>>)
    ensures matched.Some? <==> FullyPriced(prices, nights)
    ensures matched.Some? ==>
              |matched.value| == |nights|
              && forall i | 0 <= i < |nights| :: Some(matched.value[i]) == PriceOf(prices, nights[i])
  {
    if |nights| == 0 {
      return None;
    }
    var byNight := LoadByNight(prices);
    var ordered: seq<RatePrice> := [];
    for i := 0 to |nights|
      invariant |ordered| == i
      invariant forall k | 0 <= k < i :: Some(ordered[k]) == PriceOf(prices, nights[k])
    {
      PriceOfFinds(prices, nights[i]);
      if nights[i] !in byNight {
        return None;
      }
      ordered := ordered + [byNight[nights[i]]];
    }
    forall i | 0 <= i < |nights| ensures HasPrice(prices, nights[i]) {
      PriceOfFinds(prices, nights[i]);
    }
    matched := Some(ordered);
  }

  datatype Quote = Quote(
    nights: int, rooms: int, subtotal: int, taxAmount: int, totalAmount: int,
    coinsEarnable: int, coinsRedeemed: int)

  function PerRoom(prices: seq<RatePrice>): int {
    if |prices| == 0 then 0 else PerRoom(prices[..|prices| - 1]) + prices[|prices| - 1].basePrice
  }

  /** None is a rejected request: no nights, or not a positive number of rooms. */
  function ComputeQuote(prices: seq<RatePrice>, rooms: int, membershipPercent: Option<int>): Option<Quote> {
    if |prices| == 0 || rooms < 1 then None
    else
      var subtotal := PerRoom(prices) * rooms;
      var earnable := if membershipPercent.Some? && membershipPercent.value > 0
                      then PercentInRupees(subtotal, membershipPercent.value) else 0;
      var tax := EstimateTaxes(subtotal);
      Some(Quote(|prices|, rooms, subtotal, tax, subtotal + tax, earnable, 0))
  }

  /** A coin pays one unit of the room price, and what is paid in coins is not taxed. */
  function ApplyCoinRedemption(quote: Quote, coins: int): Option<Quote> {
    if coins < 0 || coins > quote.subtotal then None
    else if coins == 0 then Some(quote.(coinsRedeemed := 0))
    else
      var remaining := quote.subtotal - coins;
      var tax := EstimateTaxes(remaining);
      Some(quote.(taxAmount := tax, totalAmount := remaining + tax, coinsRedeemed := coins))
  }

  // ---- properties

  /** Of several price rows for a night the last one counts. */
  lemma {:induction false} LastPriceCounts(prices: seq<RatePrice>, night: int, p: nat)
    requires p < |prices| && prices[p].night == night && forall q | p < q < |prices| :: prices[q].night != night
    ensures PriceOf(prices, night) == Some(prices[p])
  {
    if p < |prices| - 1 {
      LastPriceCounts(prices[..|prices| - 1], night, p);
    }
  }

  /** The price of one room is the sum of the prices of its nights. */
  lemma {:induction false} PerRoomIsSum(prices: seq<RatePrice>)
    ensures PerRoom(prices) == Sum(seq(|prices|, i requires 0 <= i < |prices| => prices[i].basePrice))
  {
    if |prices| > 0 {
      var front := prices[..|prices| - 1];
      var all := seq(|prices|, i requires 0 <= i < |prices| => prices[i].basePrice);
      PerRoomIsSum(front);
      assert all[..|all| - 1] == seq(|front|, i requires 0 <= i < |front| => front[i].basePrice);
    }
  }

  lemma NearestRupee(amount: int, percent: int)
    ensures PercentInRupees(amount, percent) % 100 == 0
    ensures -5000 < 100 * PercentInRupees(amount, percent) - amount * percent <= 5000
  {
    NearestHundred(amount * percent);
  }

  lemma NearestHundred(x: int)
    ensures var q := (x + 5000) / 10000 * 100; q % 100 == 0 && -5000 < 100 * q - x <= 5000
  {}

  /** A quote is made for at least one night and room; its parts add up, and tax and earnings are the nearest rupees. */
  lemma QuoteAddsUp(prices: seq<RatePrice>, rooms: int, membershipPercent: Option<int>)
    ensures ComputeQuote(prices, rooms, membershipPercent).Some? <==> |prices| > 0 && rooms >= 1
    ensures ComputeQuote(prices, rooms, membershipPercent).Some? ==>
              var q := ComputeQuote(prices, rooms, membershipPercent).value;
              var earning := if membershipPercent.Some? then Max(0, membershipPercent.value) else 0;
              && q.nights == |prices| && q.rooms == rooms && q.coinsRedeemed == 0
              && q.subtotal == PerRoom(prices) * rooms && q.totalAmount == q.subtotal + q.taxAmount
              && q.taxAmount % 100 == 0 && -5000 < 100 * q.taxAmount - q.subtotal * 18 <= 5000
              && q.coinsEarnable % 100 == 0 && -5000 < 100 * q.coinsEarnable - q.subtotal * earning <= 5000
  {
    NearestRupee(PerRoom(prices) * rooms, 18);
    if membershipPercent.Some? {
      NearestRupee(PerRoom(prices) * rooms, membershipPercent.value);
    }
  }

  /** Coins are accepted up to the room price; what they leave of it is the bill, with its own tax. */
  lemma RedeemedQuoteAddsUp(quote: Quote, coins: int)
    ensures ApplyCoinRedemption(quote, coins).Some? <==> 0 <= coins <= quote.subtotal
    ensures ApplyCoinRedemption(quote, coins).Some? ==>
              var q := ApplyCoinRedemption(quote, coins).value;
              && q.coinsRedeemed == coins
              && q == quote.(taxAmount := q.taxAmount, totalAmount := q.totalAmount, coinsRedeemed := coins)
              && (coins == 0 ==> q.totalAmount == quote.totalAmount && q.taxAmount == quote.taxAmount)
              && (coins > 0 ==>
                    && q.totalAmount == quote.subtotal - coins + q.taxAmount
                    && q.taxAmount % 100 == 0 && -5000 < 100 * q.taxAmount - (quote.subtotal - coins) * 18 <= 5000)
  {
    NearestRupee(quote.subtotal - coins, 18);
  }

  /** A booking's subtotal is its rooms times the price of one room that browsing shows. */
  lemma QuoteScalesWithRooms(prices: seq<RatePrice>, rooms: int, membershipPercent: Option<int>)
    requires ComputeQuote(prices, rooms, membershipPercent).Some?
    ensures ComputeQuote(prices, 1, None).Some?
    ensures ComputeQuote(prices, rooms, membershipPercent).value.subtotal
            == rooms * ComputeQuote(prices, 1, None).value.subtotal
  {}

  /** The rounding is to the nearest rupee, half up, for negative amounts too. */
  lemma TaxIsNearestRupee(amount: int)
    ensures EstimateTaxes(amount) % PAISE_PER_RUPEE == 0
    ensures -5000 < 100 * EstimateTaxes(amount) - TAX_PERCENT * amount <= 5000
  {}

  lemma TaxIsMonotone(a: int, b: int)
    requires a <= b
    ensures EstimateTaxes(a) <= EstimateTaxes(b)
  {
    TaxIsNearestRupee(a);
    TaxIsNearestRupee(b);
  }

  /** Every coin redeemed takes at least its face value off the bill, and never more than the room and its tax. */
  lemma RedemptionTakesFaceValue(prices: seq<RatePrice>, rooms: int, membershipPercent: Option<int>, coins: int)
    requires ComputeQuote(prices, rooms, membershipPercent).Some?
    requires ApplyCoinRedemption(ComputeQuote(prices, rooms, membershipPercent).value, coins).Some?
    ensures var full := ComputeQuote(prices, rooms, membershipPercent).value;
            var paid := ApplyCoinRedemption(full, coins).value;
            && coins <= full.totalAmount - paid.totalAmount
            && 100 * (full.totalAmount - paid.totalAmount) < (100 + TAX_PERCENT) * coins + 100 * PAISE_PER_RUPEE
            && paid.totalAmount >= 0
            && paid.subtotal == full.subtotal && paid.coinsRedeemed == coins
  {
    var full := ComputeQuote(prices, rooms, membershipPercent).value;
    TaxIsMonotone(full.subtotal - coins, full.subtotal);
    TaxIsMonotone(0, full.subtotal - coins);
    TaxIsNearestRupee(full.subtotal - coins);
    TaxIsNearestRupee(full.subtotal);
  }

  /** A preview is valid exactly when pricing accepts the coins and the account can pay them. */
  lemma PreviewAgreesWithRedemption(db: Db, user: UserId, reservation: nat, quote: Quote, coins: int)
    requires user in db.balances && quote.subtotal >= 0
    ensures PreviewRedemption(db.balances[user], quote.subtotal, coins).Valid?
            <==> ApplyCoinRedemption(quote, coins).Some? && RedeemForBooking(db, user, reservation, coins).Some?
    ensures PreviewRedemption(db.balances[user], quote.subtotal, coins).Valid? ==>
              PreviewRedemption(db.balances[user], quote.subtotal, coins).applied == coins
  {}
}
