/** Negotiation, agreement and purchase order: three tables linked by guards, every service call
    one atomic step. */
module Negotiation {
  import opened Options

  datatype Status = Active | CounterProposed | Accepted | Rejected | Cancelled | Expired

  datatype AgreementStatus = Open | Signed | Completed | Withdrawn | Disputed

  datatype OrderStatus = Issued | Confirmed | Fulfilled | Revoked

  datatype Side = Buyer | Supplier

  datatype Offer = Offer(round: int, side: Side, unitPrice: real, totalPrice: real)

  datatype Nego = Nego(buyer: string, supplier: string, status: Status, counters: int, maxCounters: int,
                       latest: Option<Offer>, expiresAt: int)

  datatype Deal = Deal(product: string, quantity: string, unitPrice: string, totalPrice: string)

  datatype Agreement = Agreement(nego: nat, buyer: string, supplier: string, deal: Deal, status: AgreementStatus)

  datatype Order = Order(agreement: nat, deal: Deal, status: OrderStatus)

  /** Identifiers come from the database and are never reused. */
  datatype State = State(negos: map<nat, Nego>, agreements: map<nat, Agreement>, orders: map<nat, Order>, next: nat)

  const EMPTY := State(map[], map[], map[], 0)

  datatype Event =
    | StartNegotiation(buyer: string, supplier: string, maxCounters: int, expiresAt: int)
    | TransitionNegotiation(id: nat, target: Status)
    | RecordCounter(id: nat, offer: Offer)
    | AcceptCounter(id: nat)
    | RejectCounter(id: nat)
    | ExpireStale(now: int)
    | CreateAgreement(nego: nat, buyer: string, supplier: string, deal: Deal)
    | SignAgreement(id: nat, signer: string)
    | TransitionAgreement(id: nat, agreementTarget: AgreementStatus)
    | CreateOrder(agreement: nat, deal: Deal)
    | TransitionOrder(id: nat, orderTarget: OrderStatus)

  // ---- the guards ---------------------------------------------------------------------------

  predicate MayRecord(n: Nego) {
    n.status == Active && n.counters < n.maxCounters
  }

  /** The update statement of a counter offer, which names no expected status. */
  function Countered(n: Nego, offer: Offer): Nego {
    n.(status := CounterProposed, counters := n.counters + 1, latest := Some(offer))
  }

  predicate IsStale(n: Nego, now: int) {
    n.status == Active && n.expiresAt < now
  }

  function ExpiredRow(n: Nego, now: int): Nego {
    if IsStale(n, now) then n.(status := Expired) else n
  }

  predicate AgreementMove(from: AgreementStatus, to: AgreementStatus) {
    (from == Open || from == Signed) && (to == Completed || to == Withdrawn || to == Disputed)
  }

  predicate OrderMove(from: OrderStatus, to: OrderStatus) {
    || (from == Issued && (to == Confirmed || to == Revoked))
    || (from == Confirmed && to == Fulfilled)
  }

  /** A blank field of an order is taken over from the agreement. */
  function FillIn(given: Deal, agreed: Deal): Deal {
    Deal(if given.product == "" then agreed.product else given.product,
         if given.quantity == "" then agreed.quantity else given.quantity,
         if given.unitPrice == "" then agreed.unitPrice else given.unitPrice,
         if given.totalPrice == "" then agreed.totalPrice else given.totalPrice)
  }

  predicate Allowed(s: State, e: Event) {
    match e
    case StartNegotiation(_, _, _, _) => true
    case TransitionNegotiation(id, target) =>
      id in s.negos && s.negos[id].status == Active && (target == Accepted || target == Rejected || target == Cancelled)
    case RecordCounter(id, _) => id in s.negos && MayRecord(s.negos[id])
    case AcceptCounter(id) => id in s.negos && s.negos[id].status == CounterProposed
    case RejectCounter(id) => id in s.negos && s.negos[id].status == CounterProposed
    case ExpireStale(_) => true
    case CreateAgreement(nego, _, _, _) => nego in s.negos && s.negos[nego].status == Accepted
    case SignAgreement(id, signer) =>
      id in s.agreements && s.agreements[id].status == Open
      && (signer == s.agreements[id].buyer || signer == s.agreements[id].supplier)
    case TransitionAgreement(id, target) => id in s.agreements && AgreementMove(s.agreements[id].status, target)
    case CreateOrder(id, _) =>
      id in s.agreements && (s.agreements[id].status == Open || s.agreements[id].status == Signed)
    case TransitionOrder(id, target) => id in s.orders && OrderMove(s.orders[id].status, target)
  }

  function SetStatus(s: State, id: nat, status: Status): State
    requires id in s.negos
  {
    s.(negos := s.negos[id := s.negos[id].(status := status)])
  }

  function Perform(s: State, e: Event): State
    requires Allowed(s, e)
  {
    match e
    case StartNegotiation(b, p, max, expires) =>
      s.(negos := s.negos[s.next := Nego(b, p, Active, 0, max, None, expires)], next := s.next + 1)
    case TransitionNegotiation(id, target) => SetStatus(s, id, target)
    case RecordCounter(id, offer) => s.(negos := s.negos[id := Countered(s.negos[id], offer)])
    case AcceptCounter(id) => SetStatus(s, id, Accepted)
    case RejectCounter(id) => SetStatus(s, id, Active)
    case ExpireStale(now) => s.(negos := map id | id in s.negos :: ExpiredRow(s.negos[id], now))
    case CreateAgreement(nego, b, p, deal) =>
      SetStatus(s, nego, Accepted).(agreements := s.agreements[s.next := Agreement(nego, b, p, deal, Open)],
                                    next := s.next + 1)
    case SignAgreement(id, _) => s.(agreements := s.agreements[id := s.agreements[id].(status := Signed)])
    case TransitionAgreement(id, target) => s.(agreements := s.agreements[id := s.agreements[id].(status := target)])
    case CreateOrder(id, deal) =>
      s.(orders := s.orders[s.next := Order(id, FillIn(deal, s.agreements[id].deal), Issued)], next := s.next + 1)
    case TransitionOrder(id, target) => s.(orders := s.orders[id := s.orders[id].(status := target)])
  }

  /** A refused call changes nothing. */
  function Apply(s: State, e: Event): State {
    if Allowed(s, e) then Perform(s, e) else s
  }

  function Run(s: State, es: seq<Event>): State
    decreases |es|
  {
    if es == [] then s else Run(Apply(s, es[0]), es[1..])
  }

  // ---- what every step keeps -------------------------------------------------------------------

  function Limit(n: Nego): nat {
    if n.maxCounters > 0 then n.maxCounters else 0
  }

  predicate RowOk(n: Nego) {
    0 <= n.counters <= Limit(n) && (n.status == CounterProposed ==> n.counters >= 1)
  }

  predicate Known(s: State) {
    && (forall id :: id in s.negos ==> id < s.next)
    && (forall id :: id in s.agreements ==> id < s.next)
    && (forall id :: id in s.orders ==> id < s.next)
  }

  /** Every order has its agreement, and every agreement a negotiation that is accepted now. */
  predicate Traced(s: State) {
    && (forall id :: id in s.agreements ==>
          s.agreements[id].nego in s.negos && s.negos[s.agreements[id].nego].status == Accepted)
    && (forall id :: id in s.orders ==> s.orders[id].agreement in s.agreements)
  }

  predicate Inv(s: State) {
    Known(s) && Traced(s) && forall id :: id in s.negos ==> RowOk(s.negos[id])
  }

  predicate Final(st: Status) {
    st != Active && st != CounterProposed
  }

  /** How many more status changes a negotiation can make. */
  function Moves(n: Nego): int {
    if n.status == Active then 2 * (Limit(n) - n.counters) + 1
    else if n.status == CounterProposed then 2 * (Limit(n) - n.counters) + 2
    else 0
  }

  predicate Edge(from: Status, to: Status) {
    || (from == Active && to == CounterProposed)
    || (from == CounterProposed && to == Active)
    || (!Final(from) && to == Accepted)
    || (from == Active && Final(to))
  }

  /** What one step may do to one negotiation. */
  predicate RowStep(n: Nego, m: Nego) {
    && m.buyer == n.buyer && m.supplier == n.supplier && m.maxCounters == n.maxCounters && m.expiresAt == n.expiresAt
    && n.counters <= m.counters <= n.counters + 1
    && (m.counters > n.counters <==> n.status == Active && m.status == CounterProposed)
    && (m.counters > n.counters ==> n.counters < n.maxCounters)
    && (m.counters == n.counters ==> m.latest == n.latest)
    && (n.status != m.status ==> Edge(n.status, m.status) && Moves(m) < Moves(n))
  }

  lemma StepRows(s: State, e: Event, id: nat)
    requires Inv(s) && id in s.negos
    ensures id in Apply(s, e).negos && RowStep(s.negos[id], Apply(s, e).negos[id])
    ensures Apply(s, e).negos[id].counters > s.negos[id].counters ==>
              e.RecordCounter? && e.id == id && Apply(s, e).negos[id].latest == Some(e.offer)
  {
    hide Traced, FillIn, AgreementMove, OrderMove;
    var n := s.negos[id];
    if Allowed(s, e) && e.RecordCounter? && e.id == id {
      assert Apply(s, e).negos[id] == Countered(n, e.offer);
    } else if Allowed(s, e) && e.ExpireStale? {
      assert Apply(s, e).negos[id] == ExpiredRow(n, e.now);
    }
  }

  predicate AgreementStep(a: Agreement, b: Agreement) {
    b == a.(status := b.status)
    && (a.status != b.status ==> AgreementMove(a.status, b.status) || (a.status == Open && b.status == Signed))
  }

  predicate OrderStep(a: Order, b: Order) {
    b == a.(status := b.status) && (a.status != b.status ==> OrderMove(a.status, b.status))
  }

  lemma StepAgreements(s: State, e: Event)
    requires Inv(s)
    ensures forall id :: id in s.agreements ==>
              id in Apply(s, e).agreements && AgreementStep(s.agreements[id], Apply(s, e).agreements[id])
    ensures forall id :: id in Apply(s, e).agreements && id !in s.agreements ==>
              && id == s.next && e.CreateAgreement?
              && Apply(s, e).agreements[id] == Agreement(e.nego, e.buyer, e.supplier, e.deal, Open)
              && e.nego in s.negos && s.negos[e.nego].status == Accepted
  {
    hide Traced, RowOk, FillIn, OrderMove;
  }

  /** Only a party signs. */
  lemma OnlyPartiesSign(s: State, e: Event, id: nat)
    requires Inv(s) && id in s.agreements && s.agreements[id].status == Open
    ensures id in Apply(s, e).agreements
    ensures Apply(s, e).agreements[id].status == Signed
            <==> e.SignAgreement? && e.id == id && e.signer in {s.agreements[id].buyer, s.agreements[id].supplier}
  {
    hide Traced, RowOk, FillIn, OrderMove;
  }

  /** A row expires exactly when it is stale at an expiry run. */
  lemma ExpiresExactlyWhenStale(s: State, e: Event, id: nat)
    requires Inv(s) && id in s.negos && s.negos[id].status != Expired
    ensures id in Apply(s, e).negos
    ensures Apply(s, e).negos[id].status == Expired
            <==> e.ExpireStale? && s.negos[id].status == Active && s.negos[id].expiresAt < e.now
  {
    hide Traced, RowOk, FillIn, AgreementMove, OrderMove;
  }

  /** A fresh order on an agreement: each field as given, or as agreed when it was left blank. */
  predicate Ordered(o: Order, agreement: nat, given: Deal, agreed: Deal) {
    && o.agreement == agreement && o.status == Issued
    && (given.product != "" ==> o.deal.product == given.product)
    && (given.product == "" ==> o.deal.product == agreed.product)
    && (given.quantity != "" ==> o.deal.quantity == given.quantity)
    && (given.quantity == "" ==> o.deal.quantity == agreed.quantity)
    && (given.unitPrice != "" ==> o.deal.unitPrice == given.unitPrice)
    && (given.unitPrice == "" ==> o.deal.unitPrice == agreed.unitPrice)
    && (given.totalPrice != "" ==> o.deal.totalPrice == given.totalPrice)
    && (given.totalPrice == "" ==> o.deal.totalPrice == agreed.totalPrice)
  }

  lemma StepOrders(s: State, e: Event)
    requires Inv(s)
    ensures forall id :: id in s.orders ==>
              id in Apply(s, e).orders && OrderStep(s.orders[id], Apply(s, e).orders[id])
    ensures forall id :: id in Apply(s, e).orders && id !in s.orders ==>
              && id == s.next && e.CreateOrder? && e.agreement in s.agreements
              && s.agreements[e.agreement].status in {Open, Signed}
              && Ordered(Apply(s, e).orders[id], e.agreement, e.deal, s.agreements[e.agreement].deal)
  {
    hide Traced, RowOk;
  }

  lemma StepNewRows(s: State, e: Event)
    requires Inv(s)
    ensures forall id :: id in Apply(s, e).negos && id !in s.negos ==>
              && id == s.next && e.StartNegotiation?
              && Apply(s, e).negos[id] == Nego(e.buyer, e.supplier, Active, 0, e.maxCounters, None, e.expiresAt)
    ensures s.next <= Apply(s, e).next
    ensures Known(Apply(s, e))
  {
  }

  lemma AgreementsStayTraced(s: State, e: Event, id: nat)
    requires Inv(s) && id in Apply(s, e).agreements
    ensures var t := Apply(s, e);
            t.agreements[id].nego in t.negos && t.negos[t.agreements[id].nego].status == Accepted
  {
    hide Apply, RowOk, Moves;
    StepAgreements(s, e);
    if id in s.agreements {
      assert AgreementStep(s.agreements[id], Apply(s, e).agreements[id]);
    }
    StepRows(s, e, Apply(s, e).agreements[id].nego);
  }

  lemma OrdersStayTraced(s: State, e: Event, id: nat)
    requires Inv(s) && id in Apply(s, e).orders
    ensures Apply(s, e).orders[id].agreement in Apply(s, e).agreements
  {
    hide Apply, RowOk;
    StepAgreements(s, e);
    StepOrders(s, e);
    if id in s.orders {
      assert OrderStep(s.orders[id], Apply(s, e).orders[id]);
    }
  }

  lemma StepKeeps(s: State, e: Event)
    requires Inv(s)
    ensures Inv(Apply(s, e))
  {
    hide Apply;
    var t := Apply(s, e);
    StepNewRows(s, e);
    forall id | id in t.negos ensures RowOk(t.negos[id]) {
      if id in s.negos {
        StepRows(s, e, id);
        RowStaysOk(s.negos[id], t.negos[id]);
      }
    }
    forall id | id in t.agreements
      ensures t.agreements[id].nego in t.negos && t.negos[t.agreements[id].nego].status == Accepted
    {
      AgreementsStayTraced(s, e, id);
    }
    forall id | id in t.orders ensures t.orders[id].agreement in t.agreements {
      OrdersStayTraced(s, e, id);
    }
  }

  lemma RowStaysOk(n: Nego, m: Nego)
    requires RowOk(n) && RowStep(n, m)
    ensures RowOk(m)
  {
  }

  /** In every run, from the empty store on: counts stay within their limits, and every order
      traces through its agreement to a negotiation that is still accepted. */
  lemma {:induction false} RunKeeps(s: State, es: seq<Event>)
    requires Inv(s)
    ensures Inv(Run(s, es))
    decreases |es|
  {
    if es != [] {
      StepKeeps(s, es[0]);
      RunKeeps(Apply(s, es[0]), es[1..]);
    }
  }

  lemma OrdersTraceToAccepted(es: seq<Event>, order: nat)
    requires order in Run(EMPTY, es).orders
    ensures var s := Run(EMPTY, es);
            && s.orders[order].agreement in s.agreements
            && s.agreements[s.orders[order].agreement].nego in s.negos
            && s.negos[s.agreements[s.orders[order].agreement].nego].status == Accepted
  {
    RunKeeps(EMPTY, es);
  }

  /** Accepted, rejected, cancelled and expired are never left, and the row itself is frozen. */
  lemma {:induction false} FinalForever(s: State, es: seq<Event>, id: nat)
    requires Inv(s) && id in s.negos && Final(s.negos[id].status)
    ensures id in Run(s, es).negos && Run(s, es).negos[id].status == s.negos[id].status
    ensures Run(s, es).negos[id].counters == s.negos[id].counters && Run(s, es).negos[id].latest == s.negos[id].latest
    decreases |es|
  {
    if es != [] {
      StepKeeps(s, es[0]);
      StepRows(s, es[0], id);
      FinalForever(Apply(s, es[0]), es[1..], id);
    }
  }

  // ---- how often a status can change --------------------------------------------------------------

  function Changed(s: State, t: State, id: nat): nat {
    if id in s.negos && id in t.negos && s.negos[id].status != t.negos[id].status then 1 else 0
  }

  function Changes(s: State, es: seq<Event>, id: nat): nat
    decreases |es|
  {
    if es == [] then 0 else Changed(s, Apply(s, es[0]), id) + Changes(Apply(s, es[0]), es[1..], id)
  }

  lemma {:induction false} ChangesSpendMoves(s: State, es: seq<Event>, id: nat)
    requires Inv(s) && id in s.negos
    ensures id in Run(s, es).negos && Run(s, es).negos[id].maxCounters == s.negos[id].maxCounters
    ensures Changes(s, es, id) + Moves(Run(s, es).negos[id]) <= Moves(s.negos[id])
    decreases |es|
  {
    if es != [] {
      StepKeeps(s, es[0]);
      StepRows(s, es[0], id);
      ChangesSpendMoves(Apply(s, es[0]), es[1..], id);
    }
  }

  lemma {:induction false} MovesAreCounted(s: State, es: seq<Event>, id: nat)
    requires Inv(s) && id !in s.negos && id in Run(s, es).negos
    ensures Changes(s, es, id) <= 2 * Limit(Run(s, es).negos[id]) + 1
    decreases |es|
  {
    if es != [] {
      StepKeeps(s, es[0]);
      StepNewRows(s, es[0]);
      if id in Apply(s, es[0]).negos {
        ChangesSpendMoves(Apply(s, es[0]), es[1..], id);
        RunKeeps(Apply(s, es[0]), es[1..]);
      } else {
        MovesAreCounted(Apply(s, es[0]), es[1..], id);
      }
    }
  }

  /** In any run of the service at most 2 * limit + 1 steps change the status of a negotiation. */
  lemma AtMostTwiceTheLimit(es: seq<Event>, id: nat)
    requires id in Run(EMPTY, es).negos
    ensures Changes(EMPTY, es, id) <= 2 * Limit(Run(EMPTY, es).negos[id]) + 1
  {
    MovesAreCounted(EMPTY, es, id);
  }

  /** Counter and reject until the limit, then accept. */
  function Haggle(id: nat, offer: Offer, rounds: nat): seq<Event> {
    if rounds == 0 then [TransitionNegotiation(id, Accepted)]
    else [RecordCounter(id, offer), RejectCounter(id)] + Haggle(id, offer, rounds - 1)
  }

  /** The bound is reached, so it cannot be made smaller. */
  lemma {:induction false} BoundIsReached(s: State, id: nat, offer: Offer, rounds: nat)
    requires id in s.negos && s.negos[id].status == Active && s.negos[id].counters == s.negos[id].maxCounters - rounds
    ensures Changes(s, Haggle(id, offer, rounds), id) == 2 * rounds + 1
    decreases rounds
  {
    if rounds == 0 {
      assert Haggle(id, offer, 0)[1..] == [];
    } else {
      var es := Haggle(id, offer, rounds);
      var s1 := Apply(s, es[0]);
      var s2 := Apply(s1, es[1]);
      assert es[1..] == [RejectCounter(id)] + Haggle(id, offer, rounds - 1);
      assert es[1..][1..] == Haggle(id, offer, rounds - 1);
      BoundIsReached(s2, id, offer, rounds - 1);
    }
  }

  /** The counter update names no status. Run late, after other calls, it keeps the limit and the
      final statuses exactly when the row is not final and still below its limit. */
  lemma LateCounterIsSafeExactly(n: Nego, offer: Offer)
    requires RowOk(n)
    ensures (RowOk(Countered(n, offer)) && (Final(n.status) ==> Countered(n, offer).status == n.status))
            <==> (!Final(n.status) && n.counters < n.maxCounters)
  {
  }

  /** Two overlapping calls that both read before either writes pass the limit. */
  lemma OverlappingCountersPassTheLimit(n: Nego, offer: Offer)
    requires RowOk(n) && MayRecord(n) && n.counters == n.maxCounters - 1
    ensures !RowOk(Countered(Countered(n, offer), offer))
  {
  }

  /** A counter offer that read its row before another call accepted it, and writes after an
      agreement was made, leaves the agreement without an accepted negotiation. */
  lemma LateCounterStrandsAgreement(s: State, nego: nat, offer: Offer, deal: Deal)
    requires Inv(s) && nego in s.negos && MayRecord(s.negos[nego])
    ensures var t := Run(s, [TransitionNegotiation(nego, Accepted), CreateAgreement(nego, "b", "s", deal)]);
            nego in t.negos && !Traced(t.(negos := t.negos[nego := Countered(t.negos[nego], offer)]))
  {
    var es := [TransitionNegotiation(nego, Accepted), CreateAgreement(nego, "b", "s", deal)];
    var s1 := Apply(s, es[0]);
    var t := Apply(s1, es[1]);
    assert es[1..][1..] == [] && es[1..][0] == es[1];
    assert Run(s1, es[1..]) == Run(t, []);
    assert t == Run(s, es);
    assert s.next in t.agreements && t.agreements[s.next].nego == nego;
  }

  // ---- agreements and orders over runs --------------------------------------------------------------

  function AgreementRank(st: AgreementStatus): nat {
    match st
    case Open => 0
    case Signed => 1
    case _ => 2
  }

  function OrderRank(st: OrderStatus): nat {
    match st
    case Issued => 0
    case Confirmed => 1
    case _ => 2
  }

  /** What a blank order says, then and after any further calls, is what was agreed. */
  lemma BlankOrderSaysWhatWasAgreed(s: State, agreement: nat, es: seq<Event>)
    requires Inv(s) && Allowed(s, CreateOrder(agreement, Deal("", "", "", "")))
    ensures var t := Run(Apply(s, CreateOrder(agreement, Deal("", "", "", ""))), es);
            && agreement in t.agreements && s.next in t.orders
            && t.orders[s.next].agreement == agreement
            && t.orders[s.next].deal == t.agreements[agreement].deal == s.agreements[agreement].deal
  {
    var e := CreateOrder(agreement, Deal("", "", "", ""));
    StepKeeps(s, e);
    StepAgreements(s, e);
    PapersOnlyMoveForward(Apply(s, e), es, agreement);
    PapersOnlyMoveForward(Apply(s, e), es, s.next);
  }

  predicate AgreementForward(a: Agreement, b: Agreement) {
    b == a.(status := b.status) && (a == b || AgreementRank(b.status) > AgreementRank(a.status))
  }

  predicate OrderForward(a: Order, b: Order) {
    b == a.(status := b.status) && (a == b || OrderRank(b.status) > OrderRank(a.status))
  }

  /** Agreements and orders only move forward, so at most twice, and never change what was agreed
      or ordered. */
  lemma {:induction false} PapersOnlyMoveForward(s: State, es: seq<Event>, id: nat)
    requires Inv(s)
    ensures id in s.agreements ==>
              id in Run(s, es).agreements && AgreementForward(s.agreements[id], Run(s, es).agreements[id])
    ensures id in s.orders ==>
              id in Run(s, es).orders && OrderForward(s.orders[id], Run(s, es).orders[id])
    decreases |es|
  {
    hide Apply, Ordered, Inv;
    if es != [] {
      StepKeeps(s, es[0]);
      StepAgreements(s, es[0]);
      StepOrders(s, es[0]);
      PapersOnlyMoveForward(Apply(s, es[0]), es[1..], id);
    }
  }
}
