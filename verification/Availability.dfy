/**
 * The read-only availability queries behind search and the room type page, and their agreement with the
 * locked check a booking makes. None of them takes a lock, and search does not look at holds at all.
 */
module AvailabilityQueries {
  import opened Basics
  import opened Tables
  import opened Inventory
  import opened Pricing

  ghost predicate Distinct(nights: seq<int>) {
    forall i, j | 0 <= i < j < |nights| :: nights[i] != nights[j]
  }

  function LoadedNights(db: Db, roomType: nat, nights: seq<int>): set<int> {
    set i | 0 <= i < |nights| && Slot(roomType, nights[i]) in db.inventory :: nights[i]
  }

  /** The least free count over loaded nights. */
  function MinFree(db: Db, roomType: nat, nights: seq<int>, now: Time): int
    requires |nights| > 0 && forall i | 0 <= i < |nights| :: Slot(roomType, nights[i]) in db.inventory
  {
    var last := FreeRooms(db, Slot(roomType, nights[|nights| - 1]), now);
    if |nights| == 1 then last else Min(MinFree(db, roomType, nights[..|nights| - 1], now), last)
  }

  lemma {:induction false} MinFreeIsMinimum(db: Db, roomType: nat, nights: seq<int>, now: Time)
    requires |nights| > 0 && forall i | 0 <= i < |nights| :: Slot(roomType, nights[i]) in db.inventory
    ensures forall i | 0 <= i < |nights| :: MinFree(db, roomType, nights, now) <= FreeRooms(db, Slot(roomType, nights[i]), now)
    ensures exists i | 0 <= i < |nights| :: MinFree(db, roomType, nights, now) == FreeRooms(db, Slot(roomType, nights[i]), now)
  {
    var n := |nights| - 1;
    var last := FreeRooms(db, Slot(roomType, nights[n]), now);
    if n > 0 {
      var front := nights[..n];
      assert forall i | 0 <= i < n :: front[i] == nights[i];
      MinFreeIsMinimum(db, roomType, front, now);
      var i :| 0 <= i < n && MinFree(db, roomType, front, now) == FreeRooms(db, Slot(roomType, front[i]), now);
      assert nights[i] == front[i];
      assert MinFree(db, roomType, nights, now) == FreeRooms(db, Slot(roomType, nights[if last <= MinFree(db, roomType, front, now) then n else i]), now);
    } else {
      assert MinFree(db, roomType, nights, now) == FreeRooms(db, Slot(roomType, nights[0]), now);
    }
  }

  predicate AllLoaded(db: Db, roomType: nat, nights: seq<int>) {
    forall i | 0 <= i < |nights| :: Slot(roomType, nights[i]) in db.inventory
  }

  /** One more night finds one more row exactly when it is loaded and had not been asked for. */
  lemma LoadedSnoc(db: Db, roomType: nat, nights: seq<int>, night: int)
    ensures |LoadedNights(db, roomType, nights + [night])|
            == |LoadedNights(db, roomType, nights)| + if Slot(roomType, night) in db.inventory && night !in nights then 1 else 0
  {
    var all, some := nights + [night], LoadedNights(db, roomType, nights);
    assert forall i | 0 <= i < |nights| :: all[i] == nights[i];
    LoadedMembers(db, roomType, nights);
    LoadedMembers(db, roomType, all);
    assert LoadedNights(db, roomType, all) == if Slot(roomType, night) in db.inventory then some + {night} else some;
    if night in some {
      assert some + {night} == some;
    }
  }

  lemma LoadedMembers(db: Db, roomType: nat, nights: seq<int>)
    ensures forall night :: night in LoadedNights(db, roomType, nights) <==> night in nights && Slot(roomType, night) in db.inventory
  {}

  lemma DistinctSnoc(nights: seq<int>, night: int)
    ensures Distinct(nights + [night]) <==> Distinct(nights) && night !in nights
  {
    var all := nights + [night];
    assert forall i | 0 <= i < |nights| :: all[i] == nights[i];
    if night in nights {
      var i :| 0 <= i < |nights| && nights[i] == night;
      assert all[i] == all[|nights|];
    }
    if !Distinct(nights) {
      var i, j :| 0 <= i < j < |nights| && nights[i] == nights[j];
      assert all[i] == all[j];
    }
  }

  lemma AllLoadedSnoc(db: Db, roomType: nat, nights: seq<int>, night: int)
    ensures AllLoaded(db, roomType, nights + [night]) <==> AllLoaded(db, roomType, nights) && Slot(roomType, night) in db.inventory
  {
    var all := nights + [night];
    assert forall i | 0 <= i < |nights| :: all[i] == nights[i];
    assert all[|nights|] == night;
  }

  /** Distinct nights all loaded give one row each; anything else gives fewer rows than nights. */
  lemma {:induction false} LoadedExactly(db: Db, roomType: nat, nights: seq<int>)
    ensures |LoadedNights(db, roomType, nights)| <= |nights|
    ensures |LoadedNights(db, roomType, nights)| == |nights| <==> Distinct(nights) && AllLoaded(db, roomType, nights)
  {
    if |nights| > 0 {
      var front, last := nights[..|nights| - 1], nights[|nights| - 1];
      assert nights == front + [last];
      LoadedExactly(db, roomType, front);
      LoadedSnoc(db, roomType, front, last);
      DistinctSnoc(front, last);
      AllLoadedSnoc(db, roomType, front, last);
    }
  }

  /** What a guest is told before booking, read without any lock. */
  method ReadAvailability(db: Db, roomType: nat, nights: seq<int>, roomsNeeded: int, now: Time)
    returns (available: bool, remainingRooms: int)
    ensures available <==> remainingRooms >= roomsNeeded && |LoadedNights(db, roomType, nights)| == |nights|
    ensures |LoadedNights(db, roomType, nights)| != |nights| || |nights| == 0 ==> remainingRooms == 0
    ensures |LoadedNights(db, roomType, nights)| == |nights| > 0 ==>
              && (forall i | 0 <= i < |nights| :: Slot(roomType, nights[i]) in db.inventory)
              && remainingRooms == Max(0, MinFree(db, roomType, nights, now))
    ensures (available, remainingRooms) == ReadAnswer(db, roomType, nights, roomsNeeded, now)
  {
    LoadedExactly(db, roomType, nights);
    if |LoadedNights(db, roomType, nights)| != |nights| {
      return false, 0;
    }
    var minFree: Option<int> := None;
    for i := 0 to |nights|
      invariant minFree.None? <==> i == 0
      invariant i > 0 ==> minFree.value == MinFree(db, roomType, nights[..i], now)
    {
      var freeRooms := FreeRooms(db, Slot(roomType, nights[i]), now);
      minFree := Some(if minFree.None? then freeRooms else Min(minFree.value, freeRooms));
      assert nights[..i + 1][..i] == nights[..i];
    }
    assert nights[..|nights|] == nights;
    remainingRooms := if minFree.Some? then Max(0, minFree.value) else 0;
    available := remainingRooms >= roomsNeeded;
  }

  /** What the read answers, as one expression. */
  function ReadAnswer(db: Db, roomType: nat, nights: seq<int>, roomsNeeded: int, now: Time): (bool, int) {
    LoadedExactly(db, roomType, nights);
    if |LoadedNights(db, roomType, nights)| != |nights| then (false, 0)
    else
      var remaining := if |nights| == 0 then 0 else Max(0, MinFree(db, roomType, nights, now));
      (remaining >= roomsNeeded, remaining)
  }

  /**
   * For at least one room, the unlocked read says available exactly when the nights are distinct,
   * there are some, and the locked check would pass on the same rows.
   */
  lemma ReadAgreesWithLockedCheck(db: Db, roomType: nat, nights: seq<int>, roomsNeeded: int, now: Time)
    requires roomsNeeded >= 1
    ensures ReadAnswer(db, roomType, nights, roomsNeeded, now).0
            <==> |nights| > 0 && Distinct(nights) && CheckAvailability(db, roomType, nights, roomsNeeded, now).Available?
    ensures var remaining := ReadAnswer(db, roomType, nights, roomsNeeded, now).1;
            forall needed | 1 <= needed <= remaining ::
              CheckAvailability(db, roomType, nights, needed, now).Available?
  {
    LoadedExactly(db, roomType, nights);
    forall needed ensures CheckAvailability(db, roomType, nights, needed, now).Available?
                          <==> forall i | 0 <= i < |nights| ::
                                 Slot(roomType, nights[i]) in db.inventory && FreeRooms(db, Slot(roomType, nights[i]), now) >= needed {
      CheckAvailabilityExact(db, roomType, nights, needed, now);
    }
    if |nights| > 0 && forall i | 0 <= i < |nights| :: Slot(roomType, nights[i]) in db.inventory {
      MinFreeIsMinimum(db, roomType, nights, now);
    }
  }

  // ---- search

  datatype RoomType = RoomType(id: nat, maxOccupancy: int, ratePlans: seq<seq<RatePrice>>)

  datatype AvailabilityResult = AvailabilityResult(
    minTotalPrice: Option<int>, availableRoomTypeCount: int, available: bool, remainingRooms: Option<int>)

  /** What browsing counts as free: holds are not looked at. */
  function UnheldFree(row: InventoryRow): int { ComputeFreeRooms(row, 0) }

  function CeilDiv(a: int, b: int): int
    requires b >= 1
  {
    (a + b - 1) / b
  }

  predicate FitsGuests(rt: RoomType, guests: int, rooms: int)
    requires rooms >= 1
  {
    rt.maxOccupancy >= CeilDiv(guests, rooms)
  }

  predicate RoomsUnsold(inventory: map<Slot, InventoryRow>, rt: RoomType, nights: seq<int>, rooms: int) {
    forall i | 0 <= i < |nights| :: Slot(rt.id, nights[i]) in inventory && UnheldFree(inventory[Slot(rt.id, nights[i])]) >= rooms
  }

  /** A room type fits exactly when the rooms asked for sleep all the guests. */
  lemma FitsEveryGuest(rt: RoomType, guests: int, rooms: int)
    requires rooms >= 1
    ensures FitsGuests(rt, guests, rooms) <==> rooms * rt.maxOccupancy >= guests
  {
    var least := CeilDiv(guests, rooms);
    RoundedUp(guests, rooms);
    if rt.maxOccupancy >= least {
      TimesMono(rooms, least, rt.maxOccupancy);
    } else {
      TimesMono(rooms, rt.maxOccupancy, least - 1);
    }
  }

  lemma RoundedUp(a: int, b: int)
    requires b >= 1
    ensures b * (CeilDiv(a, b) - 1) < a <= b * CeilDiv(a, b)
  {
    var q, rest := (a + b - 1) / b, (a + b - 1) % b;
    assert a + b - 1 == b * q + rest && 0 <= rest < b;
    assert b * (q - 1) == b * q - b;
  }

  lemma TimesMono(a: int, x: int, y: int)
    requires a >= 0 && x <= y
    ensures a * x <= a * y
  {
    assert a * (y - x) >= 0;
  }

  predicate HasPricedPlan(rt: RoomType, nights: seq<int>) {
    exists p | 0 <= p < |rt.ratePlans| :: FullyPriced(rt.ratePlans[p], nights)
  }

  /** Search shows the room type. */
  predicate Shown(inventory: map<Slot, InventoryRow>, rt: RoomType, nights: seq<int>, guests: int, rooms: int)
    requires rooms >= 1
  {
    FitsGuests(rt, guests, rooms) && RoomsUnsold(inventory, rt, nights, rooms) && HasPricedPlan(rt, nights)
  }

  /** Search shows what sleeps the guests, has that many rooms neither blocked nor sold each night, and one plan with a price for each. */
  lemma ShownExactly(inventory: map<Slot, InventoryRow>, rt: RoomType, nights: seq<int>, guests: int, rooms: int)
    requires rooms >= 1
    ensures Shown(inventory, rt, nights, guests, rooms) <==>
              && rooms * rt.maxOccupancy >= guests
              && (forall i | 0 <= i < |nights| ::
                    Slot(rt.id, nights[i]) in inventory
                    && var row := inventory[Slot(rt.id, nights[i])];
                       row.totalRooms >= row.blockedRooms + row.soldRooms + rooms)
              && |nights| > 0
              && exists p | 0 <= p < |rt.ratePlans| :: PricedEveryNight(rt.ratePlans[p], nights)
  {
    FitsEveryGuest(rt, guests, rooms);
    assert forall p | 0 <= p < |rt.ratePlans| :: FullyPriced(rt.ratePlans[p], nights) <==> |nights| > 0 && PricedEveryNight(rt.ratePlans[p], nights);
  }

  /** Price of one room over the stay; meaningful for a fully priced plan. */
  function StayPrice(prices: seq<RatePrice>, nights: seq<int>): int {
    if |nights| == 0 then 0
    else
      var p := PriceOf(prices, nights[|nights| - 1]);
      StayPrice(prices, nights[..|nights| - 1]) + if p.Some? then p.value.basePrice else 0
  }

  lemma {:induction false} MatchedPrice(prices: seq<RatePrice>, nights: seq<int>, matched: seq<RatePrice>)
    requires |matched| == |nights|
    requires forall i | 0 <= i < |nights| :: Some(matched[i]) == PriceOf(prices, nights[i])
    ensures PerRoom(matched) == StayPrice(prices, nights)
  {
    if |nights| > 0 {
      MatchedPrice(prices, nights[..|nights| - 1], matched[..|nights| - 1]);
      assert Some(matched[|nights| - 1]) == PriceOf(prices, nights[|nights| - 1]);
    }
  }

  function LeastUnheld(inventory: map<Slot, InventoryRow>, roomType: nat, nights: seq<int>): int
    requires |nights| > 0 && forall i | 0 <= i < |nights| :: Slot(roomType, nights[i]) in inventory
  {
    var last := UnheldFree(inventory[Slot(roomType, nights[|nights| - 1])]);
    if |nights| == 1 then last else Min(LeastUnheld(inventory, roomType, nights[..|nights| - 1]), last)
  }

  /** The least count of unsold rooms is a lower bound that some night attains. */
  lemma {:induction false} LeastUnheldIsMinimum(inventory: map<Slot, InventoryRow>, roomType: nat, nights: seq<int>)
    requires |nights| > 0 && forall i | 0 <= i < |nights| :: Slot(roomType, nights[i]) in inventory
    ensures forall i | 0 <= i < |nights| :: LeastUnheld(inventory, roomType, nights) <= UnheldFree(inventory[Slot(roomType, nights[i])])
    ensures exists i | 0 <= i < |nights| :: LeastUnheld(inventory, roomType, nights) == UnheldFree(inventory[Slot(roomType, nights[i])])
  {
    var n := |nights| - 1;
    var last := UnheldFree(inventory[Slot(roomType, nights[n])]);
    if n > 0 {
      var front := nights[..n];
      assert forall i | 0 <= i < n :: front[i] == nights[i];
      LeastUnheldIsMinimum(inventory, roomType, front);
      var i :| 0 <= i < n && LeastUnheld(inventory, roomType, front) == UnheldFree(inventory[Slot(roomType, front[i])]);
      assert nights[i] == front[i];
      assert LeastUnheld(inventory, roomType, nights)
             == UnheldFree(inventory[Slot(roomType, nights[if last <= LeastUnheld(inventory, roomType, front) then n else i])]);
    } else {
      assert LeastUnheld(inventory, roomType, nights) == UnheldFree(inventory[Slot(roomType, nights[0])]);
    }
  }

  method NightsUnsold(inventory: map<Slot, InventoryRow>, rt: RoomType, nights: seq<int>, rooms: int)
    returns (ok: bool, least: int)
    requires |nights| > 0
    ensures ok <==> RoomsUnsold(inventory, rt, nights, rooms)
    ensures ok ==> least == LeastUnheld(inventory, rt.id, nights)
  {
    var nightFree: seq<int> := [];
    for i := 0 to |nights|
      invariant |nightFree| == i
      invariant forall k | 0 <= k < i ::
                  Slot(rt.id, nights[k]) in inventory && nightFree[k] == UnheldFree(inventory[Slot(rt.id, nights[k])]) >= rooms
    {
      if Slot(rt.id, nights[i]) !in inventory {
        return false, 0;
      }
      var unsold := UnheldFree(inventory[Slot(rt.id, nights[i])]);
      if unsold < rooms {
        return false, 0;
      }
      nightFree := nightFree + [unsold];
    }
    ok, least := true, nightFree[0];
    assert nights[..1][0] == nights[0];
    for i := 1 to |nights|
      invariant least == LeastUnheld(inventory, rt.id, nights[..i])
    {
      least := Min(least, nightFree[i]);
      assert nights[..i + 1][..i] == nights[..i];
    }
    assert nights[..|nights|] == nights;
  }

  /** Some fully priced plan of those given costs `price`. */
  ghost predicate PlanOffers(plans: seq<seq<RatePrice>>, nights: seq<int>, price: int) {
    exists p | 0 <= p < |plans| :: FullyPriced(plans[p], nights) && price == StayPrice(plans[p], nights)
  }

  /** `best` is the price of the cheapest fully priced plan, None when there is no such plan. */
  ghost predicate IsBest(best: Option<int>, plans: seq<seq<RatePrice>>, nights: seq<int>) {
    && (best.Some? ==> PlanOffers(plans, nights, best.value))
    && forall price | PlanOffers(plans, nights, price) :: best.Some? && best.value <= price
  }

  lemma PlanOffersSnoc(plans: seq<seq<RatePrice>>, plan: seq<RatePrice>, nights: seq<int>, price: int)
    ensures PlanOffers(plans + [plan], nights, price)
            <==> PlanOffers(plans, nights, price) || (FullyPriced(plan, nights) && price == StayPrice(plan, nights))
  {
    var all := plans + [plan];
    assert all[|plans|] == plan && forall p | 0 <= p < |plans| :: all[p] == plans[p];
    if PlanOffers(all, nights, price) {
      var p :| 0 <= p < |all| && FullyPriced(all[p], nights) && price == StayPrice(all[p], nights);
      assert p < |plans| ==> all[p] == plans[p];
    }
    if PlanOffers(plans, nights, price) {
      var p :| 0 <= p < |plans| && FullyPriced(plans[p], nights) && price == StayPrice(plans[p], nights);
      assert all[p] == plans[p];
    }
  }

  method BestPlan(plans: seq<seq<RatePrice>>, nights: seq<int>) returns (best: Option<int>)
    requires |nights| > 0
    ensures IsBest(best, plans, nights)
  {
    best := None;
    for i := 0 to |plans|
      invariant IsBest(best, plans[..i], nights)
    {
      var matched := MatchNights(plans[i], nights);
      if matched.Some? {
        MatchedPrice(plans[i], nights, matched.value);
        var total := ComputeQuote(matched.value, 1, None).value.subtotal;
        if best.None? || total < best.value {
          best := Some(total);
        }
      }
      forall price { PlanOffersSnoc(plans[..i], plans[i], nights, price); }
      assert plans[..i + 1] == plans[..i] + [plans[i]];
    }
    assert plans[..|plans|] == plans;
  }

  /** One room type's best stay price and least free count, when search shows it. */
  method RoomTypeOffer(inventory: map<Slot, InventoryRow>, rt: RoomType, nights: seq<int>, guests: int, rooms: int)
    returns (best: Option<int>, least: int)
    requires rooms >= 1 && |nights| > 0
    ensures best.Some? <==> Shown(inventory, rt, nights, guests, rooms)
    ensures best.Some? ==> IsBest(best, rt.ratePlans, nights) && least == LeastUnheld(inventory, rt.id, nights)
  {
    if rt.maxOccupancy < CeilDiv(guests, rooms) {
      return None, 0;
    }
    var inventoryOk;
    inventoryOk, least := NightsUnsold(inventory, rt, nights, rooms);
    if !inventoryOk {
      return None, 0;
    }
    best := BestPlan(rt.ratePlans, nights);
    assert forall p | 0 <= p < |rt.ratePlans| && FullyPriced(rt.ratePlans[p], nights) ::
        PlanOffers(rt.ratePlans, nights, StayPrice(rt.ratePlans[p], nights));
  }

  function CountShown(inventory: map<Slot, InventoryRow>, rts: seq<RoomType>, nights: seq<int>, guests: int, rooms: int): nat
    requires rooms >= 1
  {
    if |rts| == 0 then 0
    else CountShown(inventory, rts[..|rts| - 1], nights, guests, rooms)
         + if Shown(inventory, rts[|rts| - 1], nights, guests, rooms) then 1 else 0
  }

  function RemainingShown(inventory: map<Slot, InventoryRow>, rts: seq<RoomType>, nights: seq<int>, guests: int, rooms: int): int
    requires rooms >= 1 && |nights| > 0
  {
    if |rts| == 0 then 0
    else RemainingShown(inventory, rts[..|rts| - 1], nights, guests, rooms)
         + if Shown(inventory, rts[|rts| - 1], nights, guests, rooms) then LeastUnheld(inventory, rts[|rts| - 1].id, nights) else 0
  }

  /** Every room type counted adds at least the rooms asked for, and one that is not shown adds nothing. */
  lemma {:induction false} RemainingCoversCount(inventory: map<Slot, InventoryRow>, rts: seq<RoomType>, nights: seq<int>, guests: int, rooms: int)
    requires rooms >= 1 && |nights| > 0
    ensures RemainingShown(inventory, rts, nights, guests, rooms) >= rooms * CountShown(inventory, rts, nights, guests, rooms)
    ensures CountShown(inventory, rts, nights, guests, rooms) == 0 ==> RemainingShown(inventory, rts, nights, guests, rooms) == 0
    ensures CountShown(inventory, rts, nights, guests, rooms) > 0 <==> exists r | 0 <= r < |rts| :: Shown(inventory, rts[r], nights, guests, rooms)
  {
    if |rts| > 0 {
      var front, rt := rts[..|rts| - 1], rts[|rts| - 1];
      assert forall r | 0 <= r < |front| :: front[r] == rts[r];
      RemainingCoversCount(inventory, front, nights, guests, rooms);
      if Shown(inventory, rt, nights, guests, rooms) {
        LeastUnheldIsMinimum(inventory, rt.id, nights);
        assert LeastUnheld(inventory, rt.id, nights) >= rooms;
        assert rooms * (CountShown(inventory, front, nights, guests, rooms) + 1)
               == rooms * CountShown(inventory, front, nights, guests, rooms) + rooms;
      }
    }
  }

  /** Some shown room type has a fully priced plan costing `price`. */
  ghost predicate Offers(inventory: map<Slot, InventoryRow>, rts: seq<RoomType>, nights: seq<int>, guests: int, rooms: int, price: int)
    requires rooms >= 1
  {
    exists r | 0 <= r < |rts| :: Shown(inventory, rts[r], nights, guests, rooms) && PlanOffers(rts[r].ratePlans, nights, price)
  }

  /** `cheapest` is the least price over all shown room types and their plans, None when nothing is shown. */
  ghost predicate IsCheapest(cheapest: Option<int>, inventory: map<Slot, InventoryRow>, rts: seq<RoomType>, nights: seq<int>, guests: int, rooms: int)
    requires rooms >= 1
  {
    && (cheapest.Some? ==> Offers(inventory, rts, nights, guests, rooms, cheapest.value))
    && forall price | Offers(inventory, rts, nights, guests, rooms, price) :: cheapest.Some? && cheapest.value <= price
  }

  lemma OffersSnoc(inventory: map<Slot, InventoryRow>, rts: seq<RoomType>, rt: RoomType, nights: seq<int>, guests: int, rooms: int, price: int)
    requires rooms >= 1
    ensures Offers(inventory, rts + [rt], nights, guests, rooms, price)
            <==> Offers(inventory, rts, nights, guests, rooms, price)
                 || (Shown(inventory, rt, nights, guests, rooms) && PlanOffers(rt.ratePlans, nights, price))
  {
    var all := rts + [rt];
    assert all[|rts|] == rt && forall r | 0 <= r < |rts| :: all[r] == rts[r];
    if Offers(inventory, all, nights, guests, rooms, price) {
      var r :| 0 <= r < |all| && Shown(inventory, all[r], nights, guests, rooms) && PlanOffers(all[r].ratePlans, nights, price);
      assert r < |rts| ==> all[r] == rts[r];
    }
    if Offers(inventory, rts, nights, guests, rooms, price) {
      var r :| 0 <= r < |rts| && Shown(inventory, rts[r], nights, guests, rooms) && PlanOffers(rts[r].ratePlans, nights, price);
      assert all[r] == rts[r];
    }
  }

  /** What the search loop has established about the room types it has been through. */
  ghost predicate Summarizes(r: AvailabilityResult, inventory: map<Slot, InventoryRow>, rts: seq<RoomType>, nights: seq<int>,
                             guests: int, rooms: int)
    requires rooms >= 1 && |nights| > 0
  {
    && r.availableRoomTypeCount == CountShown(inventory, rts, nights, guests, rooms)
    && r.available == (r.availableRoomTypeCount > 0)
    && IsCheapest(r.minTotalPrice, inventory, rts, nights, guests, rooms)
    && (r.remainingRooms.Some? <==> r.available)
    && (if r.available then r.remainingRooms.value else 0) == RemainingShown(inventory, rts, nights, guests, rooms)
  }

  lemma CheapestSnoc(price: Option<int>, best: Option<int>, inventory: map<Slot, InventoryRow>, rts: seq<RoomType>, rt: RoomType,
                     nights: seq<int>, guests: int, rooms: int)
    requires rooms >= 1 && IsCheapest(price, inventory, rts, nights, guests, rooms)
    requires best.Some? <==> Shown(inventory, rt, nights, guests, rooms)
    requires best.Some? ==> IsBest(best, rt.ratePlans, nights)
    ensures IsCheapest(Cheaper(price, best), inventory, rts + [rt], nights, guests, rooms)
  {
    forall x { OffersSnoc(inventory, rts, rt, nights, guests, rooms, x); }
  }

  function Cheaper(price: Option<int>, best: Option<int>): Option<int> {
    if best.Some? && (price.None? || best.value < price.value) then best else price
  }

  lemma SummarySnoc(r: AvailabilityResult, r': AvailabilityResult, inventory: map<Slot, InventoryRow>, rts: seq<RoomType>, rt: RoomType,
                    nights: seq<int>, guests: int, rooms: int, best: Option<int>, least: int)
    requires rooms >= 1 && |nights| > 0 && Summarizes(r, inventory, rts, nights, guests, rooms)
    requires best.Some? <==> Shown(inventory, rt, nights, guests, rooms)
    requires best.Some? ==> IsBest(best, rt.ratePlans, nights) && least == LeastUnheld(inventory, rt.id, nights)
    requires r' == if best.None? then r
                   else AvailabilityResult(Cheaper(r.minTotalPrice, best), r.availableRoomTypeCount + 1, true,
                                           Some((if r.remainingRooms.Some? then r.remainingRooms.value else 0) + least))
    ensures Summarizes(r', inventory, rts + [rt], nights, guests, rooms)
  {
    CheapestSnoc(r.minTotalPrice, best, inventory, rts, rt, nights, guests, rooms);
    assert (rts + [rt])[..|rts|] == rts;
  }

  /** The availability summary of a search result. */
  method ComputeAvailability(inventory: map<Slot, InventoryRow>, roomTypes: seq<RoomType>, nights: seq<int>, guestCount: int, roomsNeeded: int)
    returns (r: AvailabilityResult)
    requires roomsNeeded >= 1
    ensures |nights| == 0 ==> r == AvailabilityResult(None, |roomTypes|, |roomTypes| > 0, None)
    ensures |nights| > 0 ==> Summarizes(r, inventory, roomTypes, nights, guestCount, roomsNeeded)
  {
    if |nights| == 0 {
      return AvailabilityResult(None, |roomTypes|, |roomTypes| > 0, None);
    }
    var bestPrice: Option<int>, count, remaining: Option<int> := None, 0, None;
    for i := 0 to |roomTypes|
      invariant Summarizes(AvailabilityResult(bestPrice, count, count > 0, remaining), inventory, roomTypes[..i], nights, guestCount, roomsNeeded)
    {
      ghost var before := AvailabilityResult(bestPrice, count, count > 0, remaining);
      var roomTypeBest, least := RoomTypeOffer(inventory, roomTypes[i], nights, guestCount, roomsNeeded);
      if roomTypeBest.Some? {
        count := count + 1;
        remaining := Some(if remaining.None? then least else remaining.value + least);
        if bestPrice.None? || roomTypeBest.value < bestPrice.value {
          bestPrice := roomTypeBest;
        }
      }
      SummarySnoc(before, AvailabilityResult(bestPrice, count, count > 0, remaining), inventory, roomTypes[..i], roomTypes[i],
                  nights, guestCount, roomsNeeded, roomTypeBest, least);
      assert roomTypes[..i + 1] == roomTypes[..i] + [roomTypes[i]];
    }
    assert roomTypes[..|roomTypes|] == roomTypes;
    r := AvailabilityResult(bestPrice, count, count > 0, remaining);
  }

  /** The per-room-type flag of a property page. */
  predicate RoomTypeAvailable(inventory: map<Slot, InventoryRow>, rt: RoomType, nights: seq<int>, guests: int, rooms: int)
    requires rooms >= 1
  {
    if !FitsGuests(rt, guests, rooms) then false
    else if |nights| == 0 then |rt.ratePlans| > 0
    else if !RoomsUnsold(inventory, rt, nights, rooms) then false
    else exists p | 0 <= p < |rt.ratePlans| :: PricedEveryNight(rt.ratePlans[p], nights)
  }

  /** The property page and the search list count the same room types. */
  lemma PageAgreesWithList(inventory: map<Slot, InventoryRow>, rt: RoomType, nights: seq<int>, guests: int, rooms: int)
    requires rooms >= 1
    ensures |nights| > 0 ==>
              (RoomTypeAvailable(inventory, rt, nights, guests, rooms) <==> CountShown(inventory, [rt], nights, guests, rooms) == 1)
    ensures |nights| == 0 ==>
              (RoomTypeAvailable(inventory, rt, nights, guests, rooms) <==> rooms * rt.maxOccupancy >= guests && rt.ratePlans != [])
  {
    FitsEveryGuest(rt, guests, rooms);
    assert [rt][..0] == [] && [rt][|[rt]| - 1] == rt;
    assert forall p | 0 <= p < |rt.ratePlans| && |nights| > 0 ::
        FullyPriced(rt.ratePlans[p], nights) <==> PricedEveryNight(rt.ratePlans[p], nights);
  }

  lemma {:induction false} ActiveHoldsNonNegative(holds: seq<Hold>, rs: seq<Reservation>, slot: Slot, now: Time)
    requires forall i | 0 <= i < |holds| :: holds[i].quantity >= 0
    ensures ActiveHoldQuantity(holds, rs, slot, now) >= 0
  {
    if |holds| > 0 {
      ActiveHoldsNonNegative(holds[..|holds| - 1], rs, slot, now);
    }
  }

  /**
   * Search never hides a room type that could be booked; what it shows can be booked exactly when the
   * held rooms it does not look at leave enough on every night.
   */
  lemma ShownAgainstBookable(db: Db, rt: RoomType, nights: seq<int>, guests: int, rooms: int, now: Time)
    requires rooms >= 1
    requires forall i | 0 <= i < |db.holds| :: db.holds[i].quantity >= 0
    ensures FitsGuests(rt, guests, rooms) && HasPricedPlan(rt, nights)
            && CheckAvailability(db, rt.id, nights, rooms, now).Available? ==>
              Shown(db.inventory, rt, nights, guests, rooms)
    ensures Shown(db.inventory, rt, nights, guests, rooms) ==>
              (CheckAvailability(db, rt.id, nights, rooms, now).Available?
               <==> forall i | 0 <= i < |nights| ::
                      ActiveHoldQuantity(db.holds, db.reservations, Slot(rt.id, nights[i]), now)
                      <= UnheldFree(db.inventory[Slot(rt.id, nights[i])]) - rooms)
  {
    CheckAvailabilityExact(db, rt.id, nights, rooms, now);
    forall i | 0 <= i < |nights| ensures ActiveHoldQuantity(db.holds, db.reservations, Slot(rt.id, nights[i]), now) >= 0 {
      ActiveHoldsNonNegative(db.holds, db.reservations, Slot(rt.id, nights[i]), now);
    }
  }
}
