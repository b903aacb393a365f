/**
 * A concrete interleaving in which a confirmation reads its clock while its hold is live, waits for
 * its lock until the hold has lapsed and another guest has booked the room, and confirms nevertheless.
 * It starts from a state that whole transactions reach, and every statement in it is enabled
 * when its turn comes.
 */
module StaleClock {
  import opened Basics
  import opened Tables
  import opened Inventory
  import opened Transactions
  import opened Invariants
  import opened Counterexamples
  import opened Interleaving
  import Runs

  const ROW := InventoryRow(1, 0, 0)
  const STAY := Item(0, 0, 1, 1)

  /** The first guest has booked, and one minute of the hold is left. */
  const BOOKED := HOTEL.(now := 44 * MINUTE, reservations := [BookingOf(0, 0, 45 * MINUTE)], holds := [RowOf(0, 45 * MINUTE)])
  const LAPSED := BOOKED.(now := 46 * MINUTE)

  function Confirmation(item: Item, mode: Mode, phase: Phase, locked: nat, seen: map<Slot, InventoryRow>): Txn {
    Txn(Confirming(0), 44 * MINUTE, item, mode, phase, locked, seen)
  }

  function Rival(phase: Phase, locked: nat, seen: map<Slot, InventoryRow>): Txn {
    Txn(Booking(RequestOf(1)), 46 * MINUTE, STAY, Undecided, phase, locked, seen)
  }

  const WAITING := Confirmation(NO_ITEM, Undecided, AwaitingReservation, 0, map[])

  const BEGUN := Sys(LAPSED, [WAITING, Rival(LockingNights, 0, map[])])
  const RIVAL_LOCKED := Sys(LAPSED, [WAITING, Rival(LockingNights, 1, map[SLOT := ROW])])
  const RIVAL_APPROVED := Sys(LAPSED, [WAITING, Rival(Approved, 1, map[SLOT := ROW])])
  const RIVAL_WRITTEN := Sys(LAPSED, [WAITING, Rival(Written, 1, map[SLOT := ROW])])
  const RIVAL_COMMITTED := Sys(TWO_BOOKED, [WAITING, Rival(Finished, 1, map[SLOT := ROW])])
  const ADMITTED := Sys(TWO_BOOKED, [Confirmation(STAY, FromHolds, LockingNights, 0, map[]), Rival(Finished, 1, map[SLOT := ROW])])
  const NIGHT_LOCKED := Sys(TWO_BOOKED, [Confirmation(STAY, FromHolds, LockingNights, 1, map[SLOT := ROW]), Rival(Finished, 1, map[SLOT := ROW])])

  const BOOK_AND_WAIT: seq<Step> := [Create(RequestOf(0))] + [Step.Tick(44 * MINUTE)]

  lemma BookedIsReached()
    ensures Run(SETTINGS, HOTEL, BOOK_AND_WAIT) == BOOKED
  {
    RunOne(SETTINGS, HOTEL, Create(RequestOf(0)));
    Books(HOTEL, 0);
    RunSnoc(SETTINGS, HOTEL, [Create(RequestOf(0))], Step.Tick(44 * MINUTE));
  }

  lemma BookedFits()
    ensures NoOversell(BOOKED)
  {
    TwoHolds(BOOKED.reservations, RowOf(0, 45 * MINUTE), RowOf(0, 45 * MINUTE), BOOKED.now);
  }

  lemma BookedIsReachable()
    ensures Run(SETTINGS, HOTEL, BOOK_AND_WAIT) == BOOKED
    ensures Invariants.Inv(BOOKED) && NoOversell(BOOKED)
  {
    BookedIsReached();
    BookedFits();
    Runs.RunKeepsInv(SETTINGS, HOTEL, BOOK_AND_WAIT);
  }

  /** `m` leads from `s` to `s'` and keeps the statement-level invariant. */
  ghost predicate Leads(s: Sys, m: Move, s': Sys) {
    Enabled(s, m) && Timely(s, m) && Next(SETTINGS, s, m) == s'
  }

  lemma Opening()
    ensures Leads(Sys(BOOKED, []), BeginConfirm(0), Sys(BOOKED, [WAITING]))
    ensures Leads(Sys(BOOKED, [WAITING]), Move.Tick(2 * MINUTE), Sys(LAPSED, [WAITING]))
    ensures Leads(Sys(LAPSED, [WAITING]), BeginBooking(RequestOf(1)), BEGUN)
  {}

  lemma RivalBooks()
    ensures Leads(BEGUN, LockNight(1), RIVAL_LOCKED)
    ensures Leads(RIVAL_LOCKED, Decide(1), RIVAL_APPROVED)
    ensures Leads(RIVAL_APPROVED, Write(1), RIVAL_WRITTEN)
  {
    TwoHolds(LAPSED.reservations, RowOf(0, 45 * MINUTE), RowOf(0, 45 * MINUTE), LAPSED.now);
    assert EachNight(0, 1) == [0];
    assert CheckPasses(LAPSED, Rival(LockingNights, 1, map[SLOT := ROW]));
    assert BEGUN.txns[1 := RIVAL_LOCKED.txns[1]] == RIVAL_LOCKED.txns;
    assert RIVAL_LOCKED.txns[1 := RIVAL_APPROVED.txns[1]] == RIVAL_APPROVED.txns;
    assert RIVAL_APPROVED.txns[1 := RIVAL_WRITTEN.txns[1]] == RIVAL_WRITTEN.txns;
  }

  lemma RivalCommits()
    ensures Leads(RIVAL_WRITTEN, CommitTxn(1), RIVAL_COMMITTED)
  {
    assert EachNight(0, 1) == [0];
    assert BuildHoldRows(1, STAY, 91 * MINUTE) == [RowOf(1, 91 * MINUTE)];
    assert RIVAL_WRITTEN.txns[1 := RIVAL_COMMITTED.txns[1]] == RIVAL_COMMITTED.txns;
  }

  lemma ConfirmationIsAdmitted()
    ensures Leads(RIVAL_COMMITTED, LockReservation(0), ADMITTED)
  {
    FirstGuestsRows(RowOf(0, 45 * MINUTE), RowOf(1, 91 * MINUTE));
    assert RIVAL_COMMITTED.txns[0 := ADMITTED.txns[0]] == ADMITTED.txns;
  }

  lemma ConfirmationLocksItsNight()
    ensures Leads(ADMITTED, LockNight(0), NIGHT_LOCKED)
  {
    assert ADMITTED.txns[0 := NIGHT_LOCKED.txns[0]] == NIGHT_LOCKED.txns;
  }

  lemma RoomIsHeld()
    ensures SLOT in TWO_BOOKED.inventory && FreeRooms(TWO_BOOKED, SLOT, 46 * MINUTE) == 0
  {
    var first, second := RowOf(0, 45 * MINUTE), RowOf(1, 91 * MINUTE);
    var rs := TWO_BOOKED.reservations;
    TwoHolds(rs, first, second, 46 * MINUTE);
    assert !ActiveHold(first, rs, SLOT, 46 * MINUTE) && ActiveHold(second, rs, SLOT, 46 * MINUTE);
    assert ActiveHoldQuantity([first, second], rs, SLOT, 46 * MINUTE) == 1;
  }

  lemma NoRoomLeft()
    ensures !Fits(TWO_BOOKED, STAY, 46 * MINUTE)
  {
    RoomIsHeld();
    assert Covers(STAY, SLOT);
  }

  lemma ConfirmationIsUntimely()
    ensures Enabled(NIGHT_LOCKED, Decide(0)) && !Timely(NIGHT_LOCKED, Decide(0))
  {
    NoRoomLeft();
    var t := NIGHT_LOCKED.txns[0];
    assert t.mode == FromHolds && t.item == STAY && t.kind.id == 0;
  }

  const PRELUDE: seq<Move> :=
    [] + [BeginConfirm(0)] + [Move.Tick(2 * MINUTE)] + [BeginBooking(RequestOf(1))]
    + [LockNight(1)] + [Decide(1)] + [Write(1)] + [CommitTxn(1)] + [LockReservation(0)] + [LockNight(0)]

  lemma Advance(moves: seq<Move>, m: Move, s: Sys, s': Sys)
    requires Play(SETTINGS, BOOKED, moves) == Some(s) && SysInv(s) && Leads(s, m, s')
    ensures Play(SETTINGS, BOOKED, moves + [m]) == Some(s') && SysInv(s')
  {
    PlaySnoc(SETTINGS, BOOKED, moves, m);
    MoveKeepsSys(SETTINGS, s, m);
  }

  lemma Prelude()
    ensures Play(SETTINGS, BOOKED, PRELUDE) == Some(NIGHT_LOCKED) && SysInv(NIGHT_LOCKED)
  {
    BookedIsReachable();
    Opening();
    RivalBooks();
    RivalCommits();
    ConfirmationIsAdmitted();
    ConfirmationLocksItsNight();
    assert Play(SETTINGS, BOOKED, []) == Some(Sys(BOOKED, []));
    var begin: seq<Move> := [] + [BeginConfirm(0)] + [Move.Tick(2 * MINUTE)];
    Advance([], BeginConfirm(0), Sys(BOOKED, []), Sys(BOOKED, [WAITING]));
    Advance([] + [BeginConfirm(0)], Move.Tick(2 * MINUTE), Sys(BOOKED, [WAITING]), Sys(LAPSED, [WAITING]));
    Advance(begin, BeginBooking(RequestOf(1)), Sys(LAPSED, [WAITING]), BEGUN);
    var rival := begin + [BeginBooking(RequestOf(1))];
    Advance(rival, LockNight(1), BEGUN, RIVAL_LOCKED);
    Advance(rival + [LockNight(1)], Decide(1), RIVAL_LOCKED, RIVAL_APPROVED);
    Advance(rival + [LockNight(1)] + [Decide(1)], Write(1), RIVAL_APPROVED, RIVAL_WRITTEN);
    Advance(rival + [LockNight(1)] + [Decide(1)] + [Write(1)], CommitTxn(1), RIVAL_WRITTEN, RIVAL_COMMITTED);
    var booked := rival + [LockNight(1)] + [Decide(1)] + [Write(1)] + [CommitTxn(1)];
    Advance(booked, LockReservation(0), RIVAL_COMMITTED, ADMITTED);
    Advance(booked + [LockReservation(0)], LockNight(0), ADMITTED, NIGHT_LOCKED);
  }

  lemma StaleEnd() returns (end: Sys)
    ensures Play(SETTINGS, BOOKED, PRELUDE + [Decide(0)] + [Write(0)] + [CommitTxn(0)]) == Some(end)
    ensures !NoOversell(end.db)
  {
    Prelude();
    ConfirmationIsUntimely();
    UntimelyConfirmationOversells(SETTINGS, NIGHT_LOCKED, 0);
    PlaySnoc(SETTINGS, BOOKED, PRELUDE, Decide(0));
    PlaySnoc(SETTINGS, BOOKED, PRELUDE + [Decide(0)], Write(0));
    PlaySnoc(SETTINGS, BOOKED, PRELUDE + [Decide(0)] + [Write(0)], CommitTxn(0));
    end := Next(SETTINGS, Next(SETTINGS, Next(SETTINGS, NIGHT_LOCKED, Decide(0)), Write(0)), CommitTxn(0));
  }

  /** From a reachable state of one room and two guests, the stale clock sells the room twice. */
  lemma StaleClockOversells()
    ensures Initial(HOTEL) && Run(SETTINGS, HOTEL, BOOK_AND_WAIT) == BOOKED && NoOversell(BOOKED)
    ensures var end := Play(SETTINGS, BOOKED, PRELUDE + [Decide(0)] + [Write(0)] + [CommitTxn(0)]);
            end.Some? && !NoOversell(end.value.db)
  {
    BookedIsReachable();
    var end := StaleEnd();
  }
}
