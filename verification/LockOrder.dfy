/**
 * Row locks and deadlock. A transaction acquires the locks of its plan one after the other, waits
 * while another unfinished transaction owns the next one, and lets go of all of them at its end.
 */
module LockOrder {
  import opened Basics
  import opened Tables

  datatype Lock =
    | ReservationRow(id: nat)
    | NightRow(slot: Slot)
    | HoldRows(id: nat)
    | ClaimRow(id: nat)
    | QuoteRow(id: nat)
    | UserRow(id: nat)
    | PaymentRow(id: nat)
    | EventRow(id: nat)

  /** For each reservation where its row comes: before the nights, the hold rows, the claims or the payments. */
  type Places = nat -> nat

  function Class(l: Lock, places: Places): nat {
    match l
    case ReservationRow(id) => if places(id) <= 2 then 2 * places(id) else 8
    case NightRow(_) => 1
    case HoldRows(_) => 3
    case ClaimRow(_) => 5
    case QuoteRow(_) => 6
    case UserRow(_) => 7
    case PaymentRow(_) => 9
    case EventRow(_) => 10
  }

  /** Nights by room type, then by date; payments newest first. */
  predicate Before(a: Lock, b: Lock, places: Places) {
    || Class(a, places) < Class(b, places)
    || (Class(a, places) == Class(b, places)
        && if a.NightRow? then
             a.slot.roomType < b.slot.roomType || (a.slot.roomType == b.slot.roomType && a.slot.night < b.slot.night)
           else if a.PaymentRow? then a.id > b.id
           else a.id < b.id)
  }

  ghost predicate Ordered(plan: seq<Lock>, places: Places) {
    forall i, j | 0 <= i < j < |plan| :: Before(plan[i], plan[j], places)
  }

  /** `taken` locks of the plan are owned; a finished transaction owns none. */
  datatype Txn = Txn(plan: seq<Lock>, taken: nat, finished: bool)

  predicate WellFormed(t: Txn) { t.taken <= |t.plan| }

  predicate Owns(t: Txn, l: Lock)
    requires WellFormed(t)
  {
    !t.finished && l in t.plan[..t.taken]
  }

  predicate Waits(t: Txn)
    requires WellFormed(t)
  {
    !t.finished && t.taken < |t.plan|
  }

  predicate Valid(txns: seq<Txn>) {
    forall i | 0 <= i < |txns| :: WellFormed(txns[i])
  }

  /** Every transaction still open keeps to one order. */
  ghost predicate AllOrdered(txns: seq<Txn>, places: Places) {
    Valid(txns) && forall i | 0 <= i < |txns| && !txns[i].finished :: Ordered(txns[i].plan, places)
  }

  /** Transaction `i` asks for a lock that `j` owns. */
  ghost predicate WaitsFor(txns: seq<Txn>, i: nat, j: nat)
    requires Valid(txns) && i < |txns| && j < |txns|
  {
    i != j && Waits(txns[i]) && Owns(txns[j], txns[i].plan[txns[i].taken])
  }

  /** An unfinished transaction can step: take its next lock, or finish. */
  ghost predicate CanStep(txns: seq<Txn>, i: nat)
    requires Valid(txns) && i < |txns|
  {
    !txns[i].finished && forall j | 0 <= j < |txns| :: !WaitsFor(txns, i, j)
  }

  /** Waiting transactions whose next lock lies above that of `i`. */
  ghost function WaitingAbove(txns: seq<Txn>, places: Places, i: nat): set<nat>
    requires Valid(txns) && i < |txns| && Waits(txns[i])
  {
    set k | 0 <= k < |txns| && Waits(txns[k]) && Before(txns[i].plan[txns[i].taken], txns[k].plan[txns[k].taken], places)
  }

  /** Following who waits for whom climbs the lock order, and ends at a transaction that can step. */
  lemma {:induction false} SomebodySteps(txns: seq<Txn>, places: Places, i: nat) returns (k: nat)
    requires AllOrdered(txns, places) && i < |txns| && !txns[i].finished
    ensures k < |txns| && CanStep(txns, k)
    decreases if Waits(txns[i]) then |WaitingAbove(txns, places, i)| + 1 else 0
  {
    if CanStep(txns, i) {
      k := i;
    } else {
      var j: nat :| j < |txns| && WaitsFor(txns, i, j);
      if Waits(txns[j]) {
        AboveShrinks(txns, places, i, j);
      }
      k := SomebodySteps(txns, places, j);
    }
  }

  lemma AboveShrinks(txns: seq<Txn>, places: Places, i: nat, j: nat)
    requires Valid(txns) && i < |txns| && j < |txns| && Waits(txns[i]) && Waits(txns[j])
    requires Before(txns[i].plan[txns[i].taken], txns[j].plan[txns[j].taken], places)
    ensures |WaitingAbove(txns, places, j)| < |WaitingAbove(txns, places, i)|
  {
    assert j in WaitingAbove(txns, places, i) && j !in WaitingAbove(txns, places, j);
    SmallerSet(WaitingAbove(txns, places, j), WaitingAbove(txns, places, i));
  }

  lemma {:induction false} SmallerSet(a: set<nat>, b: set<nat>)
    requires a < b
    ensures |a| < |b|
  {
    var x :| x in b && x !in a;
    if a != {} {
      var y :| y in a;
      SmallerSet(a - {y}, b - {y});
    }
  }

  /** With every open plan in one order, some unfinished transaction can always step. */
  lemma NoDeadlock(txns: seq<Txn>, places: Places)
    requires AllOrdered(txns, places)
    requires exists i | 0 <= i < |txns| :: !txns[i].finished
    ensures exists k | 0 <= k < |txns| :: CanStep(txns, k)
  {
    var i :| 0 <= i < |txns| && !txns[i].finished;
    var k := SomebodySteps(txns, places, i);
  }

  /** A chain of waits, each transaction waiting for the next. */
  ghost predicate WaitChain(txns: seq<Txn>, chain: seq<nat>)
    requires Valid(txns)
  {
    && (forall i | 0 <= i < |chain| :: chain[i] < |txns| && Waits(txns[chain[i]]))
    && forall i | 0 <= i < |chain| - 1 :: WaitsFor(txns, chain[i], chain[i + 1])
  }

  lemma {:induction false} ChainClimbs(txns: seq<Txn>, places: Places, chain: seq<nat>)
    requires AllOrdered(txns, places) && WaitChain(txns, chain) && |chain| >= 2
    ensures var first, last := chain[0], chain[|chain| - 1];
            Before(txns[first].plan[txns[first].taken], txns[last].plan[txns[last].taken], places)
  {
    var n := |chain|;
    assert WaitsFor(txns, chain[n - 2], chain[n - 2 + 1]);
    if n > 2 {
      ChainClimbs(txns, places, chain[..n - 1]);
    }
  }

  /** The wait-for graph has no cycle. */
  lemma NoWaitCycle(txns: seq<Txn>, places: Places, chain: seq<nat>)
    requires AllOrdered(txns, places) && WaitChain(txns, chain) && |chain| >= 2
    ensures chain[0] != chain[|chain| - 1]
  {
    ChainClimbs(txns, places, chain);
  }

  // ---- steps of the lock table, and the end of every run

  function Remaining(txns: seq<Txn>): nat
    requires Valid(txns)
  {
    if |txns| == 0 then 0
    else
      var t := txns[|txns| - 1];
      assert WellFormed(t);
      Remaining(txns[..|txns| - 1]) + if t.finished then 0 else |t.plan| - t.taken + 1
  }

  function StepTxn(t: Txn): Txn {
    if t.taken < |t.plan| then t.(taken := t.taken + 1) else t.(finished := true)
  }

  /** Each step uses up remaining work, so ordered transactions run to their end. */
  lemma {:induction false} StepShrinksRemaining(txns: seq<Txn>, i: nat)
    requires Valid(txns) && i < |txns| && !txns[i].finished
    ensures Valid(txns[i := StepTxn(txns[i])])
    ensures Remaining(txns[i := StepTxn(txns[i])]) == Remaining(txns) - 1
  {
    var n := |txns| - 1;
    if i < n {
      StepShrinksRemaining(txns[..n], i);
      assert txns[i := StepTxn(txns[i])][..n] == txns[..n][i := StepTxn(txns[i])];
    } else {
      assert txns[i := StepTxn(txns[i])][..n] == txns[..n];
    }
  }

  // ---- plans that contend

  /** Not everything is finished, and nothing can go on. */
  ghost predicate Stuck(txns: seq<Txn>)
    requires Valid(txns)
  {
    && (exists i | 0 <= i < |txns| :: !txns[i].finished)
    && forall k | 0 <= k < |txns| :: !CanStep(txns, k)
  }

  /** Some transactions wait for each other in a circle: nothing but an abort helps any of them. */
  ghost predicate Deadlocked(txns: seq<Txn>)
    requires Valid(txns)
  {
    exists chain :: |chain| >= 2 && WaitChain(txns, chain) && chain[0] == chain[|chain| - 1]
  }

  /** The lock table after the scheduled transactions have stepped in turn; None when one of them could not. */
  ghost function Schedule(txns: seq<Txn>, order: seq<nat>): (r: Option<seq<Txn>>)
    requires Valid(txns)
    ensures r.Some? ==> Valid(r.value) && |r.value| == |txns|
  {
    if |order| == 0 then Some(txns)
    else
      var before := Schedule(txns, order[..|order| - 1]);
      var i := order[|order| - 1];
      if before.Some? && i < |txns| && CanStep(before.value, i)
      then Some(before.value[i := StepTxn(before.value[i])]) else None
  }

  lemma {:induction false} SchedulesKeepPlans(txns: seq<Txn>, order: seq<nat>)
    requires Valid(txns) && Schedule(txns, order).Some?
    ensures forall i | 0 <= i < |txns| :: Schedule(txns, order).value[i].plan == txns[i].plan
  {
    if |order| > 0 {
      SchedulesKeepPlans(txns, order[..|order| - 1]);
    }
  }

  ghost predicate CanDeadlock(txns: seq<Txn>)
    requires Valid(txns)
  {
    exists order :: Schedule(txns, order).Some? && Deadlocked(Schedule(txns, order).value)
  }

  function Times(i: nat, n: nat): (order: seq<nat>)
    ensures |order| == n && forall k | 0 <= k < n :: order[k] == i
  {
    seq(n, _ => i)
  }

  /** All begun, and nothing taken yet. */
  ghost predicate Fresh(txns: seq<Txn>) {
    Valid(txns) && forall i | 0 <= i < |txns| :: txns[i].taken == 0 && !txns[i].finished
  }

  /** Two prefixes of plans that can be owned at the same time. */
  ghost predicate Disjoint(p: seq<Lock>, q: seq<Lock>) {
    forall l | l in p :: l !in q
  }

  /** The first `a` locks of one transaction and the first `b` of another taken, and nothing else. */
  function Contended(txns: seq<Txn>, i: nat, a: nat, j: nat, b: nat): seq<Txn>
    requires i < |txns| && j < |txns|
  {
    txns[i := txns[i].(taken := a)][j := txns[j].(taken := b)]
  }

  lemma {:induction false} FirstTakesAlone(txns: seq<Txn>, i: nat, a: nat)
    requires Fresh(txns) && i < |txns| && a <= |txns[i].plan|
    ensures Schedule(txns, Times(i, a)) == Some(txns[i := txns[i].(taken := a)])
  {
    if a == 0 {
      assert txns[i := txns[i].(taken := 0)] == txns;
    } else {
      FirstTakesAlone(txns, i, a - 1);
      assert Times(i, a)[..a - 1] == Times(i, a - 1);
      var before := txns[i := txns[i].(taken := a - 1)];
      assert CanStep(before, i);
      assert before[i := StepTxn(before[i])] == txns[i := txns[i].(taken := a)];
    }
  }

  /** Step by step two transactions take prefixes that do not meet, whatever else has begun. */
  lemma {:induction false} BothTake(txns: seq<Txn>, i: nat, a: nat, j: nat, b: nat)
    requires Fresh(txns) && i < |txns| && j < |txns| && i != j && a <= |txns[i].plan| && b <= |txns[j].plan|
    requires Disjoint(txns[i].plan[..a], txns[j].plan[..b])
    ensures Schedule(txns, Times(i, a) + Times(j, b)) == Some(Contended(txns, i, a, j, b))
  {
    if b == 0 {
      FirstTakesAlone(txns, i, a);
      assert Times(i, a) + Times(j, 0) == Times(i, a);
      assert Contended(txns, i, a, j, 0) == txns[i := txns[i].(taken := a)];
    } else {
      assert txns[j].plan[..b - 1] <= txns[j].plan[..b];
      BothTake(txns, i, a, j, b - 1);
      assert (Times(i, a) + Times(j, b))[..a + b - 1] == Times(i, a) + Times(j, b - 1);
      NextIsFree(txns, i, a, j, b - 1);
    }
  }

  lemma NextIsFree(txns: seq<Txn>, i: nat, a: nat, j: nat, b: nat)
    requires Fresh(txns) && i < |txns| && j < |txns| && i != j && a <= |txns[i].plan| && b < |txns[j].plan|
    requires txns[j].plan[b] !in txns[i].plan[..a]
    ensures Valid(Contended(txns, i, a, j, b)) && CanStep(Contended(txns, i, a, j, b), j)
    ensures var now := Contended(txns, i, a, j, b); now[j := StepTxn(now[j])] == Contended(txns, i, a, j, b + 1)
  {}

  /** Each of two transactions owns what the other asks for next. */
  ghost predicate Crossed(p: seq<Lock>, a: nat, q: seq<Lock>, b: nat) {
    a < |p| && b < |q| && Disjoint(p[..a], q[..b]) && p[a] in q[..b] && q[b] in p[..a]
  }

  /** Plans that can be crossed can be led there, and then neither goes on. */
  lemma CrossedPlansDeadlock(txns: seq<Txn>, i: nat, a: nat, j: nat, b: nat)
    requires Fresh(txns) && i < |txns| && j < |txns| && i != j && Crossed(txns[i].plan, a, txns[j].plan, b)
    ensures CanDeadlock(txns)
    ensures Schedule(txns, Times(i, a) + Times(j, b)) == Some(Contended(txns, i, a, j, b))
    ensures var end := Contended(txns, i, a, j, b); Valid(end) && !CanStep(end, i) && !CanStep(end, j)
  {
    BothTake(txns, i, a, j, b);
    CrossingsBlock(txns, i, a, j, b);
    LeadsToDeadlock(txns, Times(i, a) + Times(j, b), Contended(txns, i, a, j, b));
  }

  lemma LeadsToDeadlock(txns: seq<Txn>, order: seq<nat>, end: seq<Txn>)
    requires Valid(txns) && Valid(end) && Schedule(txns, order) == Some(end) && Deadlocked(end)
    ensures CanDeadlock(txns)
  {}

  lemma CrossingsBlock(txns: seq<Txn>, i: nat, a: nat, j: nat, b: nat)
    requires Fresh(txns) && i < |txns| && j < |txns| && i != j && Crossed(txns[i].plan, a, txns[j].plan, b)
    ensures var end := Contended(txns, i, a, j, b); Valid(end) && Deadlocked(end) && !CanStep(end, i) && !CanStep(end, j)
  {
    EachWaits(txns, i, a, j, b);
    CircleOfTwo(Contended(txns, i, a, j, b), i, j);
  }

  lemma EachWaits(txns: seq<Txn>, i: nat, a: nat, j: nat, b: nat)
    requires Fresh(txns) && i < |txns| && j < |txns| && i != j && Crossed(txns[i].plan, a, txns[j].plan, b)
    ensures var end := Contended(txns, i, a, j, b); Valid(end) && WaitsFor(end, i, j) && WaitsFor(end, j, i)
  {}

  lemma CircleOfTwo(txns: seq<Txn>, i: nat, j: nat)
    requires Valid(txns) && i < |txns| && j < |txns| && WaitsFor(txns, i, j) && WaitsFor(txns, j, i)
    ensures Deadlocked(txns) && !CanStep(txns, i) && !CanStep(txns, j)
  {
    assert WaitChain(txns, [i, j, i]);
  }

  // ---- the plans of the services

  /** The nights of an item, in the order the locking query takes them. */
  function NightLocks(item: Item): (locks: seq<Lock>)
    ensures |locks| == |EachNight(item.checkIn, item.checkOut)|
  {
    var nights := EachNight(item.checkIn, item.checkOut);
    seq(|nights|, i requires 0 <= i < |nights| => NightRow(Slot(item.roomType, nights[i])))
  }

  function Scanned(scan: seq<Slot>): (locks: seq<Lock>)
    ensures |locks| == |scan|
  {
    seq(|scan|, i requires 0 <= i < |scan| => NightRow(scan[i]))
  }

  function UserLock(user: Option<UserId>): seq<Lock> { if user.Some? then [UserRow(user.value)] else [] }

  function PaymentLocks(payments: seq<nat>): (locks: seq<Lock>)
    ensures |locks| == |payments|
  {
    seq(|payments|, i requires 0 <= i < |payments| => PaymentRow(payments[i]))
  }

  /** `scan` is the order in which an UPDATE without an ordered lock before it meets the nights of a stay. */
  datatype Job =
    | Book(item: Item, claim: nat, quote: nat, redeeming: Option<UserId>)
    | ConfirmPayment(id: nat, item: Item, payment: nat, event: nat)
    | ExpireHold(id: nat, refunded: Option<UserId>)
    | OpenSession(id: nat, payment: nat)
    | AcceptBooking(id: nat, item: Item)
    | CancelPending(id: nat, refunded: Option<UserId>, payments: seq<nat>)
    | CancelConfirmed(id: nat, scan: seq<Slot>, refunded: Option<UserId>, payments: seq<nat>)
    | CreditCoins(id: nat, user: UserId)
    | OneRow(row: Lock)

  /** The row locks in the order the service takes them. `OneRow`: completion, no-show, refund, each write of an extension. */
  function PlanOf(job: Job): seq<Lock> {
    match job
    case Book(item, claim, quote, redeeming) => NightLocks(item) + [ClaimRow(claim), QuoteRow(quote)] + UserLock(redeeming)
    case ConfirmPayment(id, item, payment, event) =>
      [ReservationRow(id)] + NightLocks(item) + [HoldRows(id), PaymentRow(payment), EventRow(event)]
    case ExpireHold(id, refunded) => [ReservationRow(id), HoldRows(id)] + UserLock(refunded)
    case OpenSession(id, payment) => [ReservationRow(id), PaymentRow(payment)]
    case AcceptBooking(id, item) => NightLocks(item) + [HoldRows(id), ReservationRow(id)]
    case CancelPending(id, refunded, payments) => [HoldRows(id), ReservationRow(id)] + UserLock(refunded) + PaymentLocks(payments)
    case CancelConfirmed(id, scan, refunded, payments) =>
      Scanned(scan) + [ReservationRow(id)] + UserLock(refunded) + PaymentLocks(payments)
    case CreditCoins(id, user) => [UserRow(user), ReservationRow(id)]
    case OneRow(row) => [row]
  }

  predicate InDateOrder(scan: seq<Slot>) {
    forall i, j | 0 <= i < j < |scan| ::
      scan[i].roomType < scan[j].roomType || (scan[i].roomType == scan[j].roomType && scan[i].night < scan[j].night)
  }

  predicate NewestFirst(payments: seq<nat>) {
    forall i, j | 0 <= i < j < |payments| :: payments[i] > payments[j]
  }

  /** Several rows of one table are met in the order everybody else takes them in. */
  predicate InOrder(job: Job) {
    && (job.CancelConfirmed? ==> InDateOrder(job.scan))
    && (job.CancelPending? || job.CancelConfirmed? ==> NewestFirst(job.payments))
  }

  predicate TouchesBooking(job: Job) { !job.Book? && !job.OneRow? }

  /** The earliest and the latest place of its reservation row that a plan leaves. */
  function Earliest(job: Job): nat {
    if job.CreditCoins? then 3
    else if job.AcceptBooking? || job.CancelPending? then 2
    else if job.CancelConfirmed? then 1
    else 0
  }

  function Latest(job: Job): nat {
    if job.ConfirmPayment? then 0
    else if job.ExpireHold? then 1
    else if (job.CancelPending? || job.CancelConfirmed?) && job.refunded.Some? then 2
    else 3
  }

  predicate Suits(job: Job, places: Places) {
    TouchesBooking(job) ==> Earliest(job) <= places(job.id) <= Latest(job)
  }

  ghost predicate UpTo(p: seq<Lock>, c: nat, places: Places) { forall i | 0 <= i < |p| :: Class(p[i], places) <= c }

  ghost predicate Above(p: seq<Lock>, c: nat, places: Places) { forall i | 0 <= i < |p| :: Class(p[i], places) > c }

  lemma InSequence(p: seq<Lock>, q: seq<Lock>, c: nat, places: Places)
    requires Ordered(p, places) && Ordered(q, places) && UpTo(p, c, places) && Above(q, c, places)
    ensures Ordered(p + q, places)
  {}

  /** Nights, and then locks that come after all nights. */
  lemma NightsFirst(nights: seq<Slot>, rest: seq<Lock>, places: Places)
    requires InDateOrder(nights) && Ordered(rest, places) && Above(rest, 1, places)
    ensures Ordered(Scanned(nights) + rest, places)
  {
    InSequence(Scanned(nights), rest, 1, places);
  }

  function NightSlots(item: Item): (slots: seq<Slot>)
    ensures Scanned(slots) == NightLocks(item) && InDateOrder(slots)
  {
    var nights := EachNight(item.checkIn, item.checkOut);
    var slots := seq(|nights|, i requires 0 <= i < |nights| => Slot(item.roomType, nights[i]));
    assert Scanned(slots) == NightLocks(item);
    slots
  }

  lemma AccountsLast(first: seq<Lock>, user: Option<UserId>, payments: seq<nat>, c: nat, places: Places)
    requires NewestFirst(payments) && Ordered(first, places) && UpTo(first, c, places) && c < (if user.Some? then 7 else 9)
    ensures Ordered(first + UserLock(user) + PaymentLocks(payments), places)
    ensures c > 0 && Above(first, 1, places) ==> Above(first + UserLock(user) + PaymentLocks(payments), 1, places)
  {
    InSequence(first, UserLock(user), c, places);
    InSequence(first + UserLock(user), PaymentLocks(payments), 8, places);
  }

  lemma CancellationsAreOrdered(job: Job, places: Places)
    requires (job.CancelPending? || job.CancelConfirmed?) && InOrder(job) && Suits(job, places)
    ensures Ordered(PlanOf(job), places)
  {
    var c := Class(ReservationRow(job.id), places);
    if job.CancelPending? {
      AccountsLast([HoldRows(job.id), ReservationRow(job.id)], job.refunded, job.payments, c, places);
    } else {
      AccountsLast([ReservationRow(job.id)], job.refunded, job.payments, c, places);
      var rest := [ReservationRow(job.id)] + UserLock(job.refunded) + PaymentLocks(job.payments);
      NightsFirst(job.scan, rest, places);
      assert PlanOf(job) == Scanned(job.scan) + rest;
    }
  }

  lemma BookingIsOrdered(item: Item, claim: nat, quote: nat, redeeming: Option<UserId>, places: Places)
    ensures Ordered(PlanOf(Book(item, claim, quote, redeeming)), places)
  {
    var rest := [ClaimRow(claim), QuoteRow(quote)] + UserLock(redeeming);
    NightsFirst(NightSlots(item), rest, places);
    assert PlanOf(Book(item, claim, quote, redeeming)) == NightLocks(item) + rest;
  }

  lemma ConfirmationIsOrdered(id: nat, item: Item, payment: nat, event: nat, places: Places)
    requires places(id) == 0
    ensures Ordered(PlanOf(ConfirmPayment(id, item, payment, event)), places)
  {
    var rest := [HoldRows(id), PaymentRow(payment), EventRow(event)];
    NightsFirst(NightSlots(item), rest, places);
    InSequence([ReservationRow(id)], NightLocks(item) + rest, 0, places);
    assert PlanOf(ConfirmPayment(id, item, payment, event)) == [ReservationRow(id)] + (NightLocks(item) + rest);
  }

  /** Every plan is in order wherever its reservation row may be put. */
  lemma PlansAreOrdered(job: Job, places: Places)
    requires InOrder(job) && Suits(job, places)
    ensures Ordered(PlanOf(job), places)
  {
    match job
    case Book(item, claim, quote, redeeming) =>
      BookingIsOrdered(item, claim, quote, redeeming, places);
    case ConfirmPayment(id, item, payment, event) =>
      ConfirmationIsOrdered(id, item, payment, event, places);
    case AcceptBooking(id, item) => NightsFirst(NightSlots(item), [HoldRows(id), ReservationRow(id)], places);
    case CancelPending(_, _, _) => CancellationsAreOrdered(job, places);
    case CancelConfirmed(_, _, _, _) => CancellationsAreOrdered(job, places);
    case _ =>
  }

  /** Some of the locks of a plan, in its order: a transaction that has less to do, or ends early. */
  ghost predicate Within(plan: seq<Lock>, full: seq<Lock>) {
    exists at: seq<nat> ::
      && |at| == |plan|
      && (forall i | 0 <= i < |at| :: at[i] < |full| && plan[i] == full[at[i]])
      && forall i, j | 0 <= i < j < |at| :: at[i] < at[j]
  }

  ghost predicate Running(jobs: seq<Job>, txns: seq<Txn>) {
    |txns| == |jobs| && forall i | 0 <= i < |txns| :: WellFormed(txns[i]) && Within(txns[i].plan, PlanOf(jobs[i]))
  }

  // ---- when they deadlock

  /**
   * Two transactions of one booking, of which the first takes the reservation row before, the second after,
   * another lock they share: the hold rows or the nights of the booking, or the account of its guest.
   */
  predicate AtOdds(a: Job, b: Job) {
    && TouchesBooking(a) && TouchesBooking(b) && a.id == b.id
    && (|| (a.ConfirmPayment? && (b.AcceptBooking? || b.CancelPending? || b.CancelConfirmed?))
        || (a.ExpireHold? && (b.AcceptBooking? || b.CancelPending?))
        || ((a.CancelPending? || a.CancelConfirmed?) && a.refunded.Some? && b.CreditCoins?))
  }

  /**
   * A booking whose coins are credited is completed and never waits or expires again (`StaleWrites.MoveLeavesSettled`),
   * so a confirmation or an expiry of it ends with its first lock.
   */
  predicate Excluded(a: Job, b: Job) {
    (a.ConfirmPayment? || a.ExpireHold?) && b.CreditCoins? && a.id == b.id
  }

  lemma OddsAreGaps(a: Job, b: Job)
    requires TouchesBooking(a) && TouchesBooking(b) && a.id == b.id
    ensures Latest(a) < Earliest(b) <==> AtOdds(a, b) || Excluded(a, b)
  {}

  /** No two open transactions are at odds. */
  ghost predicate Apart(jobs: seq<Job>, txns: seq<Txn>)
    requires |txns| == |jobs|
  {
    forall i, j | 0 <= i < |jobs| && 0 <= j < |jobs| && !txns[i].finished && !txns[j].finished ::
      !AtOdds(jobs[i], jobs[j]) && !Excluded(jobs[i], jobs[j])
  }

  ghost predicate Wants(jobs: seq<Job>, txns: seq<Txn>, id: nat, place: nat)
    requires |txns| == |jobs|
  {
    exists i | 0 <= i < |jobs| :: !txns[i].finished && TouchesBooking(jobs[i]) && jobs[i].id == id && Earliest(jobs[i]) == place
  }

  /** As late as some open transaction of the booking needs its row. */
  ghost function PlaceOf(jobs: seq<Job>, txns: seq<Txn>, id: nat): nat
    requires |txns| == |jobs|
  {
    if Wants(jobs, txns, id, 3) then 3
    else if Wants(jobs, txns, id, 2) then 2
    else if Wants(jobs, txns, id, 1) then 1
    else 0
  }

  lemma PlaceSuits(jobs: seq<Job>, txns: seq<Txn>, i: nat)
    requires |txns| == |jobs| && Apart(jobs, txns) && i < |jobs| && !txns[i].finished && TouchesBooking(jobs[i])
    ensures Earliest(jobs[i]) <= PlaceOf(jobs, txns, jobs[i].id) <= Latest(jobs[i])
  {
    var id := jobs[i].id;
    var place := PlaceOf(jobs, txns, id);
    assert Wants(jobs, txns, id, Earliest(jobs[i]));
    if place > Latest(jobs[i]) {
      var j :| 0 <= j < |jobs| && !txns[j].finished && TouchesBooking(jobs[j]) && jobs[j].id == id && Earliest(jobs[j]) == place;
      OddsAreGaps(jobs[i], jobs[j]);
    }
  }

  lemma ApartIsOrdered(jobs: seq<Job>, txns: seq<Txn>) returns (places: Places)
    requires Running(jobs, txns) && Apart(jobs, txns) && forall i | 0 <= i < |jobs| :: InOrder(jobs[i])
    ensures AllOrdered(txns, places)
  {
    places := id => PlaceOf(jobs, txns, id);
    forall i | 0 <= i < |txns| && !txns[i].finished ensures Ordered(txns[i].plan, places) {
      if TouchesBooking(jobs[i]) {
        PlaceSuits(jobs, txns, i);
      }
      PlansAreOrdered(jobs[i], places);
    }
  }

  /**
   * The transactions of the services, wherever each one stands and whatever part of its plan it needs, can
   * always go on while no two open ones are at odds.
   */
  lemma ServicesNeverDeadlock(jobs: seq<Job>, txns: seq<Txn>)
    requires Running(jobs, txns) && Apart(jobs, txns) && forall i | 0 <= i < |jobs| :: InOrder(jobs[i])
    ensures !Stuck(txns) && !Deadlocked(txns)
  {
    var places := ApartIsOrdered(jobs, txns);
    if exists i | 0 <= i < |txns| :: !txns[i].finished {
      NoDeadlock(txns, places);
    }
    forall chain | |chain| >= 2 && WaitChain(txns, chain) ensures chain[0] != chain[|chain| - 1] {
      NoWaitCycle(txns, places, chain);
    }
  }

  function Start(job: Job): Txn { Txn(PlanOf(job), 0, false) }

  function Starts(jobs: seq<Job>): (txns: seq<Txn>)
    ensures |txns| == |jobs| && forall i | 0 <= i < |jobs| :: txns[i] == Start(jobs[i])
  {
    seq(|jobs|, i requires 0 <= i < |jobs| => Start(jobs[i]))
  }

  datatype Stay = Stay(item: Item, guest: UserId)

  /** What the transactions of one booking agree on: its item, which has nights, and its guest. */
  ghost predicate About(job: Job, stays: map<nat, Stay>) {
    TouchesBooking(job) ==>
      && job.id in stays && stays[job.id].item.checkIn < stays[job.id].item.checkOut
      && (job.ConfirmPayment? || job.AcceptBooking? ==> job.item == stays[job.id].item)
      && (job.ExpireHold? || job.CancelPending? || job.CancelConfirmed? ==> job.refunded in {None, Some(stays[job.id].guest)})
      && (job.CancelConfirmed? ==> forall l | l in NightLocks(stays[job.id].item) :: l.slot in job.scan)
      && (job.CreditCoins? ==> job.user == stays[job.id].guest)
  }

  /** Where two transactions at odds block each other: what the first has taken by then, and what the second has. */
  function CrossingOf(a: Job, b: Job, item: Item): (nat, nat) {
    if a.ConfirmPayment? then
      (if b.CancelPending? then (1 + |NightLocks(item)|, 1)
       else (1, if b.CancelConfirmed? then |b.scan| else |NightLocks(item)| + 1))
    else if a.ExpireHold? then (1, if b.AcceptBooking? then |NightLocks(item)| + 1 else 1)
    else (if a.CancelConfirmed? then |a.scan| + 1 else 2, 1)
  }

  lemma ConfirmationCrosses(a: Job, b: Job, item: Item)
    requires a.ConfirmPayment? && AtOdds(a, b) && a.item == item && item.checkIn < item.checkOut
    requires b.AcceptBooking? ==> b.item == item
    requires b.CancelConfirmed? ==> forall l | l in NightLocks(item) :: l.slot in b.scan
    ensures var (i, j) := CrossingOf(a, b, item); Crossed(PlanOf(a), i, PlanOf(b), j)
  {
    var (i, j) := CrossingOf(a, b, item);
    var nights := NightLocks(item);
    var p, q := PlanOf(a), PlanOf(b);
    if b.CancelPending? {
      assert p[..i] == [ReservationRow(a.id)] + nights && q[..1] == [HoldRows(a.id)];
    } else {
      assert p[..1] == [ReservationRow(a.id)] && p[1] == nights[0];
      if b.AcceptBooking? {
        assert q[..j] == nights + [HoldRows(a.id)];
        assert q[..j][0] == nights[0];
      } else {
        assert q[..j] == Scanned(b.scan);
        var k :| 0 <= k < |b.scan| && b.scan[k] == nights[0].slot;
        assert Scanned(b.scan)[k] == nights[0];
      }
    }
  }

  lemma ExpiryCrosses(a: Job, b: Job, item: Item)
    requires a.ExpireHold? && AtOdds(a, b) && (b.AcceptBooking? ==> b.item == item)
    ensures var (i, j) := CrossingOf(a, b, item); Crossed(PlanOf(a), i, PlanOf(b), j)
  {
    var (i, j) := CrossingOf(a, b, item);
    assert PlanOf(a)[..1] == [ReservationRow(a.id)];
    assert PlanOf(b)[..j] == (if b.AcceptBooking? then NightLocks(item) else []) + [HoldRows(a.id)];
  }

  lemma CancellationCrosses(a: Job, b: Job, item: Item)
    requires b.CreditCoins? && AtOdds(a, b) && a.refunded == Some(b.user)
    ensures var (i, j) := CrossingOf(a, b, item); Crossed(PlanOf(a), i, PlanOf(b), j)
  {
    var (i, j) := CrossingOf(a, b, item);
    assert PlanOf(b)[..1] == [UserRow(b.user)];
    assert PlanOf(a)[..i] == (if a.CancelPending? then [HoldRows(a.id)] else Scanned(a.scan)) + [ReservationRow(a.id)];
  }

  lemma OddsCross(a: Job, b: Job, stays: map<nat, Stay>)
    requires AtOdds(a, b) && About(a, stays) && About(b, stays)
    ensures var (i, j) := CrossingOf(a, b, stays[a.id].item); Crossed(PlanOf(a), i, PlanOf(b), j)
  {
    var item := stays[a.id].item;
    if a.ConfirmPayment? {
      ConfirmationCrosses(a, b, item);
    } else if a.ExpireHold? {
      ExpiryCrosses(a, b, item);
    } else {
      CancellationCrosses(a, b, item);
    }
  }

  /** The jobs agree on their bookings, meet rows in order, and none is of a booking that is already completed. */
  ghost predicate Plausible(jobs: seq<Job>, stays: map<nat, Stay>) {
    && (forall i | 0 <= i < |jobs| :: About(jobs[i], stays) && InOrder(jobs[i]))
    && forall i, j | 0 <= i < |jobs| && 0 <= j < |jobs| :: !Excluded(jobs[i], jobs[j])
  }

  /** Of the transactions of the services, begun together, some can deadlock exactly when two of them are at odds. */
  lemma ServicesDeadlockExactly(jobs: seq<Job>, stays: map<nat, Stay>)
    requires Plausible(jobs, stays)
    ensures CanDeadlock(Starts(jobs)) <==> exists i, j | 0 <= i < |jobs| && 0 <= j < |jobs| :: AtOdds(jobs[i], jobs[j])
  {
    var txns := Starts(jobs);
    if i, j :| 0 <= i < |jobs| && 0 <= j < |jobs| && AtOdds(jobs[i], jobs[j]) {
      OddsCross(jobs[i], jobs[j], stays);
      var (a, b) := CrossingOf(jobs[i], jobs[j], stays[jobs[i].id].item);
      CrossedPlansDeadlock(txns, i, a, j, b);
    } else {
      NobodyAtOdds(jobs);
    }
  }

  lemma WholePlan(job: Job)
    ensures Within(PlanOf(job), PlanOf(job))
  {
    var at := seq(|PlanOf(job)|, i => i);
    assert forall i | 0 <= i < |at| :: at[i] == i;
  }

  lemma StaysRunning(jobs: seq<Job>, order: seq<nat>)
    requires Schedule(Starts(jobs), order).Some?
    ensures Running(jobs, Schedule(Starts(jobs), order).value)
  {
    SchedulesKeepPlans(Starts(jobs), order);
    forall i | 0 <= i < |jobs| { WholePlan(jobs[i]); }
  }

  lemma NeverStuck(jobs: seq<Job>, order: seq<nat>)
    requires forall i | 0 <= i < |jobs| :: InOrder(jobs[i])
    requires forall i, j | 0 <= i < |jobs| && 0 <= j < |jobs| :: !AtOdds(jobs[i], jobs[j]) && !Excluded(jobs[i], jobs[j])
    requires Schedule(Starts(jobs), order).Some?
    ensures var end := Schedule(Starts(jobs), order).value; !Stuck(end) && !Deadlocked(end)
  {
    StaysRunning(jobs, order);
    ServicesNeverDeadlock(jobs, Schedule(Starts(jobs), order).value);
  }

  lemma NobodyAtOdds(jobs: seq<Job>)
    requires forall i | 0 <= i < |jobs| :: InOrder(jobs[i])
    requires forall i, j | 0 <= i < |jobs| && 0 <= j < |jobs| :: !AtOdds(jobs[i], jobs[j]) && !Excluded(jobs[i], jobs[j])
    ensures !CanDeadlock(Starts(jobs))
  {
    forall order | Schedule(Starts(jobs), order).Some? ensures !Deadlocked(Schedule(Starts(jobs), order).value) {
      NeverStuck(jobs, order);
    }
  }

  // ---- an acceptance beside a confirmation or an expiry

  ghost predicate CanGetStuck(txns: seq<Txn>)
    requires Valid(txns)
  {
    exists order :: Schedule(txns, order).Some? && Stuck(Schedule(txns, order).value)
  }

  /**
   * Acceptance takes nights and hold rows before the reservation. Beside a confirmation or an expiry of its
   * own booking it can be led, from the start of both and by steps each of which is free to happen, to where
   * neither can go on.
   */
  lemma AcceptanceCanDeadlock(id: nat, item: Item, other: Job)
    requires item.checkIn < item.checkOut
    requires (other.ConfirmPayment? && other.item == item) || other.ExpireHold?
    requires other.id == id
    ensures var end := Schedule(Starts([other, AcceptBooking(id, item)]), Times(0, 1) + Times(1, |NightLocks(item)| + 1));
            end.Some? && Stuck(end.value)
  {
    if other.ConfirmPayment? {
      ConfirmationCrosses(other, AcceptBooking(id, item), item);
    } else {
      ExpiryCrosses(other, AcceptBooking(id, item), item);
    }
    CrossedPlansDeadlock(Starts([other, AcceptBooking(id, item)]), 0, 1, 1, |NightLocks(item)| + 1);
  }

  /** An acceptance and a confirmation or an expiry, begun together, can get stuck exactly when they are of one booking. */
  lemma AcceptanceDeadlocksExactly(accepted: nat, stay: Item, other: Job)
    requires stay.checkIn < stay.checkOut && (other.ConfirmPayment? || other.ExpireHold?)
    requires other.ConfirmPayment? && other.id == accepted ==> other.item == stay
    ensures CanGetStuck(Starts([other, AcceptBooking(accepted, stay)])) <==> other.id == accepted
  {
    var jobs := [other, AcceptBooking(accepted, stay)];
    if other.id == accepted {
      AcceptanceCanDeadlock(accepted, stay, other);
    } else {
      forall order | Schedule(Starts(jobs), order).Some? ensures !Stuck(Schedule(Starts(jobs), order).value) {
        NeverStuck(jobs, order);
      }
    }
  }

  // ---- nights taken by an update without an ordered lock

  /** The night at which a scan first goes back, and the earliest night taken before that comes after it. */
  lemma FirstStepBack(scan: seq<Slot>) returns (k: nat, y: nat)
    requires !InDateOrder(scan) && forall i, j | 0 <= i < j < |scan| :: scan[i] != scan[j]
    requires forall i, j | 0 <= i < |scan| && 0 <= j < |scan| :: scan[i].roomType == scan[j].roomType
    ensures y < k < |scan| && scan[k].night < scan[y].night
    ensures forall i | 0 <= i < k :: !(scan[k].night <= scan[i].night < scan[y].night)
  {
    var i, j :| 0 <= i < j < |scan| && !(scan[i].night < scan[j].night);
    k, y := j, i;
    var m := 0;
    while m < k
      invariant m <= k && y < k && scan[k].night < scan[y].night
      invariant forall x | 0 <= x < m :: !(scan[k].night <= scan[x].night < scan[y].night)
    {
      if scan[k].night < scan[m].night < scan[y].night {
        y := m;
      }
      m := m + 1;
    }
  }

  /** A booking, of whatever item, beside which the transaction can get into a deadlock. */
  ghost predicate ClashesWithABooking(job: Job) {
    exists booking: Job :: booking.Book? && CanDeadlock(Starts([job, booking]))
  }

  /**
   * Cancelling a confirmed stay gives its rooms back by one UPDATE, which takes the nights in whatever order
   * it meets them. It can deadlock with a booking exactly when that is not the order of dates.
   */
  lemma ScanDeadlocksExactly(id: nat, scan: seq<Slot>, refunded: Option<UserId>, payments: seq<nat>)
    requires NewestFirst(payments) && forall i, j | 0 <= i < j < |scan| :: scan[i] != scan[j]
    requires forall i, j | 0 <= i < |scan| && 0 <= j < |scan| :: scan[i].roomType == scan[j].roomType
    ensures ClashesWithABooking(CancelConfirmed(id, scan, refunded, payments)) <==> !InDateOrder(scan)
  {
    var cancel := CancelConfirmed(id, scan, refunded, payments);
    if InDateOrder(scan) {
      forall booking: Job | booking.Book? ensures !CanDeadlock(Starts([cancel, booking])) {
        NobodyAtOdds([cancel, booking]);
      }
    } else {
      var k, y := FirstStepBack(scan);
      ScanMeetsABooking(id, scan, refunded, payments, k, y);
    }
  }

  lemma ScanMeetsABooking(id: nat, scan: seq<Slot>, refunded: Option<UserId>, payments: seq<nat>, k: nat, y: nat)
    requires y < k < |scan| && scan[k].night < scan[y].night && scan[k].roomType == scan[y].roomType
    requires forall i | 0 <= i < k :: scan[i].roomType == scan[k].roomType && !(scan[k].night <= scan[i].night < scan[y].night)
    ensures ClashesWithABooking(CancelConfirmed(id, scan, refunded, payments))
  {
    var item := Item(scan[k].roomType, scan[k].night, scan[y].night + 1, 1);
    var b: nat := scan[y].night - scan[k].night;
    var cancel, booking := CancelConfirmed(id, scan, refunded, payments), Book(item, 0, 0, None);
    var p, q, nights := PlanOf(cancel), PlanOf(booking), EachNight(item.checkIn, item.checkOut);
    assert p[..k] == Scanned(scan)[..k] && p[k] == NightRow(scan[k]);
    assert q[..b] == NightLocks(item)[..b] && q[b] == NightRow(scan[y]) && q[..b][0] == NightRow(scan[k]);
    assert p[..k][y] == NightRow(scan[y]);
    CrossedPlansDeadlock(Starts([cancel, booking]), 0, k, 1, b);
  }
}
