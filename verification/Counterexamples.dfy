/**
 * A concrete run for each unguarded step that sells or holds one room twice. The hotel has one room
 * for one night and two guests; the first one books and lets the hold lapse, the second one books the
 * room that became free, and then the first booking is extended or accepted all the same. A last
 * lemma has a booking of two items take the last room twice.
 */
module Counterexamples {
  import opened Basics
  import opened Tables
  import opened Inventory
  import opened Transactions
  import opened Invariants

  const MINUTE: Time := 60 * 1000
  const SLOT := Slot(0, 0)
  const SETTINGS := Config(45 * MINUTE, 5 * MINUTE, 10 * MINUTE)

  /** One room for one night, two guests. */
  const HOTEL := Db(0, map[SLOT := InventoryRow(1, 0, 0)], [], [], [], [], map[0 := 0, 1 := 0], [], [])

  function RequestOf(user: UserId): BookingRequest { BookingRequest(user, Item(0, 0, 1, 1), 1000, "INR", 0, 0) }

  function RowOf(id: nat, t: Time): Hold { Hold(id, SLOT, 1, t) }

  function BookingOf(user: UserId, at: Time, expiresAt: Time): Reservation {
    NewReservation(SETTINGS, RequestOf(user), at).(holdExpiresAt := Some(expiresAt))
  }

  /** A lone free room is booked, whoever asks. */
  lemma Books(db: Db, user: UserId)
    requires SLOT in db.inventory && FreeRooms(db, SLOT, db.now) >= 1 && user in db.balances
    ensures Apply(SETTINGS, db, Create(RequestOf(user)))
            == db.(reservations := db.reservations + [BookingOf(user, db.now, db.now + 45 * MINUTE)],
                   holds := db.holds + [RowOf(|db.reservations|, db.now + 45 * MINUTE)])
  {
    var nights := EachNight(0, 1);
    assert nights == [0];
    CheckAvailabilityExact(db, 0, nights, 1, db.now);
    assert BuildHoldRows(|db.reservations|, Item(0, 0, 1, 1), db.now + 45 * MINUTE) == [RowOf(|db.reservations|, db.now + 45 * MINUTE)];
  }

  /** The first guest's hold has lapsed after 46 minutes, and the second guest has booked the room. */
  const TWO_BOOKED := HOTEL.(
    now := 46 * MINUTE,
    reservations := [BookingOf(0, 0, 45 * MINUTE), BookingOf(1, 46 * MINUTE, 91 * MINUTE)],
    holds := [RowOf(0, 45 * MINUTE), RowOf(1, 91 * MINUTE)])

  const BOOK_TWICE: seq<Step> := [Create(RequestOf(0)), Tick(46 * MINUTE), Create(RequestOf(1))]

  lemma TwoHolds(rs: seq<Reservation>, first: Hold, second: Hold, now: Time)
    ensures ActiveHoldQuantity([first], rs, SLOT, now) == if ActiveHold(first, rs, SLOT, now) then first.quantity else 0
    ensures ActiveHoldQuantity([first, second], rs, SLOT, now)
            == ActiveHoldQuantity([first], rs, SLOT, now) + if ActiveHold(second, rs, SLOT, now) then second.quantity else 0
  {
    assert [first][..0] == [] && [first, second][..1] == [first];
  }

  lemma FirstGuestsRows(first: Hold, second: Hold)
    requires first.reservation == 0 && second.reservation == 1
    ensures HoldsOf([first, second], 0) == [first] && ReleaseHolds([first, second], 0) == [second]
  {
    assert [first, second][..1] == [first] && [first][..0] == [];
    assert HoldsOf([first], 0) == [first] && ReleaseHolds([first], 0) == [];
  }

  lemma BookTwice()
    ensures Run(SETTINGS, HOTEL, BOOK_TWICE) == TWO_BOOKED
    ensures NoOversell(TWO_BOOKED)
  {
    RunOne(SETTINGS, HOTEL, Create(RequestOf(0)));
    Books(HOTEL, 0);
    var one := Run(SETTINGS, HOTEL, [Create(RequestOf(0))]);
    RunSnoc(SETTINGS, HOTEL, [Create(RequestOf(0))], Tick(46 * MINUTE));
    var lapsed := one.(now := 46 * MINUTE);
    assert one.holds == [RowOf(0, 45 * MINUTE)] && one.reservations == [BookingOf(0, 0, 45 * MINUTE)];
    TwoHolds(lapsed.reservations, RowOf(0, 45 * MINUTE), RowOf(1, 91 * MINUTE), lapsed.now);
    RunSnoc(SETTINGS, HOTEL, [Create(RequestOf(0)), Tick(46 * MINUTE)], Create(RequestOf(1)));
    Books(lapsed, 1);
    assert BOOK_TWICE == [Create(RequestOf(0)), Tick(46 * MINUTE)] + [Create(RequestOf(1))];
    assert [Create(RequestOf(0)), Tick(46 * MINUTE)] == [Create(RequestOf(0))] + [Tick(46 * MINUTE)];
    TwoHolds(TWO_BOOKED.reservations, RowOf(0, 45 * MINUTE), RowOf(1, 91 * MINUTE), 46 * MINUTE);
  }

  /** Extending the lapsed hold makes the room count as held twice. */
  lemma LapsedExtensionOversells()
    ensures Initial(HOTEL) && NoOversell(Run(SETTINGS, HOTEL, BOOK_TWICE))
    ensures var s := Run(SETTINGS, HOTEL, BOOK_TWICE + [Extend(0, 0)]);
            SLOT in s.inventory && s.now == 46 * MINUTE && FreeRooms(s, SLOT, s.now) == -1
  {
    BookTwice();
    RunSnoc(SETTINGS, HOTEL, BOOK_TWICE, Extend(0, 0));
    var extended := Run(SETTINGS, HOTEL, BOOK_TWICE + [Extend(0, 0)]);
    RestampPointwise(TWO_BOOKED.holds, 0, 60 * MINUTE);
    assert RestampHolds(TWO_BOOKED.holds, 0, 60 * MINUTE) == [RowOf(0, 60 * MINUTE), RowOf(1, 91 * MINUTE)];
    assert extended.holds == [RowOf(0, 60 * MINUTE), RowOf(1, 91 * MINUTE)];
    TwoHolds(extended.reservations, RowOf(0, 60 * MINUTE), RowOf(1, 91 * MINUTE), 46 * MINUTE);
  }

  /** Accepting the lapsed booking sells the room the second guest holds. */
  lemma LapsedAcceptanceOversells()
    ensures Initial(HOTEL) && NoOversell(Run(SETTINGS, HOTEL, BOOK_TWICE))
    ensures var s := Run(SETTINGS, HOTEL, BOOK_TWICE + [Accept(0)]);
            SLOT in s.inventory && s.now == 46 * MINUTE && FreeRooms(s, SLOT, s.now) == -1
  {
    BookTwice();
    RunSnoc(SETTINGS, HOTEL, BOOK_TWICE, Accept(0));
    var first, second := RowOf(0, 45 * MINUTE), RowOf(1, 91 * MINUTE);
    var accepted := Run(SETTINGS, HOTEL, BOOK_TWICE + [Accept(0)]);
    FirstGuestsRows(first, second);
    assert [first][..0] == [];
    assert RowQuantity([first], SLOT) == 1;
    assert accepted.holds == [second];
    TwoHolds(accepted.reservations, second, second, 46 * MINUTE);
  }

  /** Two items on one night pass the late check with a single room left, because each is checked on its own. */
  lemma ItemsShareTheLastRoom()
    ensures var items := [Item(0, 0, 1, 1), Item(0, 0, 1, 1)];
            ItemsAvailable(HOTEL, items) && SLOT in SellItems(HOTEL.inventory, items)
            && SellItems(HOTEL.inventory, items)[SLOT].soldRooms == 2 > HOTEL.inventory[SLOT].totalRooms
  {
    var item := Item(0, 0, 1, 1);
    AvailableIsFits(HOTEL, item, 0);
    assert forall slot :: Covers(item, slot) ==> slot == SLOT;
    SellItemsAddsDemand(HOTEL.inventory, [item, item]);
    DemandSingle(item, SLOT);
    assert [item, item][..1] == [item];
  }
}
