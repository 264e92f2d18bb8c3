/** The service calls on the negotiation tables, and the automatic negotiation built from them. */
module NegotiationService {
  import opened Options
  import opened Negotiation

  const MARKUP: map<string, real> := map[
    "阀门" := 1.15, "管道" := 1.12, "法兰" := 1.10, "仪表" := 1.20, "泵" := 1.18,
    "电缆" := 1.10, "标准件" := 1.08, "钢材" := 1.05, "其他" := 1.10
  ]

  function Concession(round: int): real {
    if round == 1 then 0.0 else if round == 2 then 0.03 else if round == 3 then 0.05 else 0.06
  }

  /** Prices are exact here; the service rounds them to cents. */
  function QuotePrice(base: real, category: string, round: int): real {
    base * (if category in MARKUP then MARKUP[category] else 1.10) * (1.0 - Concession(round))
  }

  function BuyerBid(target: real, round: int): real {
    target * (if round == 1 then 0.90 else if round == 2 then 0.93 else if round == 3 then 0.95
              else if round == 4 then 0.97 else 0.98)
  }

  /** Over the rounds the two sides only move towards each other: quotes never rise, bids never
      fall and never pass the target. */
  lemma OffersConverge(base: real, target: real, category: string, i: int, j: int)
    requires 1 <= i <= j && base >= 0.0 && target >= 0.0
    ensures QuotePrice(base, category, j) <= QuotePrice(base, category, i)
    ensures BuyerBid(target, i) <= BuyerBid(target, j) <= target
  {
    var marked := base * (if category in MARKUP then MARKUP[category] else 1.10);
    assert marked >= 0.0;
    assert Concession(i) <= Concession(j);
    Scaled(marked, 1.0 - Concession(j), 1.0 - Concession(i));
  }

  lemma Scaled(x: real, a: real, b: real)
    requires x >= 0.0 && a <= b
    ensures x * a <= x * b
  {
  }

  function TotalPrice(price: real, quantity: real): real {
    price * quantity
  }

  function MakeOffer(round: int, side: Side, price: real, quantity: real): Offer {
    Offer(round, side, price, TotalPrice(price, quantity))
  }

  /** The prices of the rounds, in per cent of the target price, and of the base price of a pump. */
  lemma PricesOfRounds(round: int)
    requires round >= 5
    ensures BuyerBid(100.0, 1) == 90.0 && BuyerBid(100.0, 2) == 93.0 && BuyerBid(100.0, 3) == 95.0
    ensures BuyerBid(100.0, 4) == 97.0 && BuyerBid(100.0, round) == 98.0
    ensures QuotePrice(100.0, "泵", 1) == 118.0 && QuotePrice(100.0, "泵", 2) == 114.46
    ensures QuotePrice(100.0, "泵", 3) == 112.1 && QuotePrice(100.0, "泵", round) == 110.92
  {
  }

  /** The first quotes, in per cent of the base price; a category that is not listed gets ten. */
  lemma QuotesOfCategories(category: string)
    requires category !in {"阀门", "管道", "法兰", "仪表", "泵", "电缆", "标准件", "钢材", "其他"}
    ensures QuotePrice(100.0, "阀门", 1) == 115.0 && QuotePrice(100.0, "管道", 1) == 112.0
    ensures QuotePrice(100.0, "法兰", 1) == 110.0 && QuotePrice(100.0, "仪表", 1) == 120.0
    ensures QuotePrice(100.0, "电缆", 1) == 110.0 && QuotePrice(100.0, "标准件", 1) == 108.0
    ensures QuotePrice(100.0, "钢材", 1) == 105.0 && QuotePrice(100.0, "其他", 1) == 110.0
    ensures QuotePrice(100.0, category, 1) == 110.0
  {
    assert MARKUP.Keys == {"阀门", "管道", "法兰", "仪表", "泵", "电缆", "标准件", "钢材", "其他"};
    assert "阀门" in MARKUP && "管道" in MARKUP && "法兰" in MARKUP && "仪表" in MARKUP;
    assert "电缆" in MARKUP && "标准件" in MARKUP && "钢材" in MARKUP && "其他" in MARKUP;
  }

  lemma FirstOffer(target: real, quantity: real)
    ensures MakeOffer(1, Buyer, BuyerBid(target, 1), quantity)
            == Offer(1, Buyer, target * 0.90, target * 0.90 * quantity)
    ensures TotalPrice(target * 0.90, quantity) == target * 0.90 * quantity
  {
  }

  datatype Outcome = Outcome(id: nat, rounds: seq<Offer>, finalPrice: real, finalTotal: Option<real>, status: Status)

  class Store {
    var negos: map<nat, Nego>
    var agreements: map<nat, Agreement>
    var orders: map<nat, Order>
    var next: nat

    function Model(): State
      reads this
    {
      State(negos, agreements, orders, next)
    }

    constructor ()
      ensures Model() == EMPTY
    {
      negos, agreements, orders, next := map[], map[], map[], 0;
    }

    method StartNegotiation(buyer: string, supplier: string, maxCounters: int, expiresAt: int) returns (id: nat)
      modifies this
      ensures id == old(next)
      ensures Model() == Apply(old(Model()), Event.StartNegotiation(buyer, supplier, maxCounters, expiresAt))
      ensures negos == old(negos)[id := Nego(buyer, supplier, Active, 0, maxCounters, None, expiresAt)]
      ensures agreements == old(agreements) && orders == old(orders) && next == old(next) + 1
    {
      id := next;
      negos := negos[id := Nego(buyer, supplier, Active, 0, maxCounters, None, expiresAt)];
      next := next + 1;
    }

    method TransitionNegotiation(id: nat, target: Status) returns (ok: bool)
      modifies this
      ensures ok == Allowed(old(Model()), Event.TransitionNegotiation(id, target))
      ensures Model() == Apply(old(Model()), Event.TransitionNegotiation(id, target))
      ensures ok <==> id in old(negos) && old(negos)[id].status == Active && target in {Accepted, Rejected, Cancelled}
      ensures negos == if ok then old(negos)[id := old(negos)[id].(status := target)] else old(negos)
      ensures agreements == old(agreements) && orders == old(orders) && next == old(next)
    {
      var allowedFrom := if target == Accepted || target == Rejected || target == Cancelled then {Active} else {};
      ok := id in negos && negos[id].status in allowedFrom;
      if ok {
        negos := negos[id := negos[id].(status := target)];
      }
    }

    method RecordCounter(id: nat, offer: Offer) returns (ok: bool)
      modifies this
      ensures ok == Allowed(old(Model()), Event.RecordCounter(id, offer))
      ensures Model() == Apply(old(Model()), Event.RecordCounter(id, offer))
      ensures ok <==> && id in old(negos) && old(negos)[id].status == Active
                      && old(negos)[id].counters < old(negos)[id].maxCounters
      ensures ok ==> negos == old(negos)[id := old(negos)[id].(status := CounterProposed, latest := Some(offer),
                                                                counters := old(negos)[id].counters + 1)]
      ensures !ok ==> negos == old(negos)
      ensures agreements == old(agreements) && orders == old(orders) && next == old(next)
    {
      if id !in negos {
        return false;
      }
      var nego := negos[id];
      if nego.status != Active {
        return false;
      }
      if nego.counters >= nego.maxCounters {
        return false;
      }
      negos := negos[id := nego.(counters := nego.counters + 1, latest := Some(offer), status := CounterProposed)];
      return true;
    }

    method AcceptCounter(id: nat) returns (ok: bool)
      modifies this
      ensures ok == Allowed(old(Model()), Event.AcceptCounter(id))
      ensures Model() == Apply(old(Model()), Event.AcceptCounter(id))
      ensures ok <==> id in old(negos) && old(negos)[id].status == CounterProposed
      ensures negos == if ok then old(negos)[id := old(negos)[id].(status := Accepted)] else old(negos)
      ensures agreements == old(agreements) && orders == old(orders) && next == old(next)
    {
      if id !in negos || negos[id].status != CounterProposed {
        return false;
      }
      negos := negos[id := negos[id].(status := Accepted)];
      return true;
    }

    method RejectCounter(id: nat) returns (ok: bool)
      modifies this
      ensures ok == Allowed(old(Model()), Event.RejectCounter(id))
      ensures Model() == Apply(old(Model()), Event.RejectCounter(id))
      ensures ok <==> id in old(negos) && old(negos)[id].status == CounterProposed
      ensures negos == if ok then old(negos)[id := old(negos)[id].(status := Active)] else old(negos)
      ensures agreements == old(agreements) && orders == old(orders) && next == old(next)
    {
      if id !in negos || negos[id].status != CounterProposed {
        return false;
      }
      negos := negos[id := negos[id].(status := Active)];
      return true;
    }

    method ExpireStale(now: int) returns (count: nat)
      modifies this
      ensures count == |set id | id in old(negos) && IsStale(old(negos)[id], now)|
      ensures Model() == Apply(old(Model()), Event.ExpireStale(now))
      ensures negos.Keys == old(negos).Keys
      ensures forall id :: id in negos ==>
                negos[id] == if old(negos)[id].status == Active && old(negos)[id].expiresAt < now
                             then old(negos)[id].(status := Expired) else old(negos)[id]
      ensures agreements == old(agreements) && orders == old(orders) && next == old(next)
    {
      count := |set id | id in negos && IsStale(negos[id], now)|;
      negos := map id | id in negos :: if IsStale(negos[id], now) then negos[id].(status := Expired) else negos[id];
    }

    method CreateAgreement(nego: nat, buyer: string, supplier: string, deal: Deal) returns (id: Option<nat>)
      modifies this
      ensures var allowed := Allowed(old(Model()), Event.CreateAgreement(nego, buyer, supplier, deal));
              id == if allowed then Some(old(next)) else None
      ensures Model() == Apply(old(Model()), Event.CreateAgreement(nego, buyer, supplier, deal))
      ensures id.Some? <==> nego in old(negos) && old(negos)[nego].status == Accepted
      ensures agreements == if id.None? then old(agreements)
                            else old(agreements)[old(next) := Agreement(nego, buyer, supplier, deal, Open)]
      ensures negos == old(negos) && orders == old(orders)
      ensures next == old(next) + if id.Some? then 1 else 0
    {
      if nego !in negos || negos[nego].status != Accepted {
        return None;
      }
      id := Some(next);
      agreements := agreements[next := Agreement(nego, buyer, supplier, deal, Open)];
      negos := negos[nego := negos[nego].(status := Accepted)];
      next := next + 1;
    }

    method SignAgreement(id: nat, signer: string) returns (ok: bool)
      modifies this
      ensures ok == Allowed(old(Model()), Event.SignAgreement(id, signer))
      ensures Model() == Apply(old(Model()), Event.SignAgreement(id, signer))
      ensures ok <==> && id in old(agreements) && old(agreements)[id].status == Open
                      && signer in {old(agreements)[id].buyer, old(agreements)[id].supplier}
      ensures agreements == if ok then old(agreements)[id := old(agreements)[id].(status := Signed)]
                            else old(agreements)
      ensures negos == old(negos) && orders == old(orders) && next == old(next)
    {
      if id !in agreements || agreements[id].status != Open {
        return false;
      }
      if signer != agreements[id].buyer && signer != agreements[id].supplier {
        return false;
      }
      agreements := agreements[id := agreements[id].(status := Signed)];
      return true;
    }

    method TransitionAgreement(id: nat, target: AgreementStatus) returns (ok: bool)
      modifies this
      ensures ok == Allowed(old(Model()), Event.TransitionAgreement(id, target))
      ensures Model() == Apply(old(Model()), Event.TransitionAgreement(id, target))
      ensures ok <==> && id in old(agreements) && old(agreements)[id].status in {Open, Signed}
                      && target in {Completed, Withdrawn, Disputed}
      ensures agreements == if ok then old(agreements)[id := old(agreements)[id].(status := target)]
                            else old(agreements)
      ensures negos == old(negos) && orders == old(orders) && next == old(next)
    {
      var ends := target == Completed || target == Withdrawn || target == Disputed;
      var allowedFrom := if ends then {Open, Signed} else {};
      ok := id in agreements && agreements[id].status in allowedFrom;
      if ok {
        agreements := agreements[id := agreements[id].(status := target)];
      }
    }

    method CreateOrder(agreement: nat, deal: Deal) returns (id: Option<nat>)
      modifies this
      ensures id == if Allowed(old(Model()), Event.CreateOrder(agreement, deal)) then Some(old(next)) else None
      ensures Model() == Apply(old(Model()), Event.CreateOrder(agreement, deal))
      ensures id.Some? <==> agreement in old(agreements) && old(agreements)[agreement].status in {Open, Signed}
      ensures id.None? ==> orders == old(orders) && next == old(next)
      ensures id.Some? ==>
                && id.value in orders && orders == old(orders)[id.value := orders[id.value]] && next == old(next) + 1
                && Ordered(orders[id.value], agreement, deal, old(agreements)[agreement].deal)
      ensures negos == old(negos) && agreements == old(agreements)
    {
      if agreement !in agreements || agreements[agreement].status !in {Open, Signed} {
        return None;
      }
      id := Some(next);
      orders := orders[next := Order(agreement, FillIn(deal, agreements[agreement].deal), Issued)];
      next := next + 1;
    }

    method TransitionOrder(id: nat, target: OrderStatus) returns (ok: bool)
      modifies this
      ensures ok == Allowed(old(Model()), Event.TransitionOrder(id, target))
      ensures Model() == Apply(old(Model()), Event.TransitionOrder(id, target))
      ensures ok <==> && id in old(orders)
                      && (old(orders)[id].status, target) in
                         {(Issued, OrderStatus.Confirmed), (Issued, Revoked), (OrderStatus.Confirmed, Fulfilled)}
      ensures orders == if ok then old(orders)[id := old(orders)[id].(status := target)] else old(orders)
      ensures negos == old(negos) && agreements == old(agreements) && next == old(next)
    {
      var allowedFrom :=
        if target == Confirmed then {Issued}
        else if target == Fulfilled then {OrderStatus.Confirmed}
        else if target == Revoked then {Issued}
        else {};
      ok := id in orders && orders[id].status in allowedFrom;
      if ok {
        orders := orders[id := orders[id].(status := target)];
      }
    }

    /** The rounds of offers on a fresh negotiation. The supplier's turn always fails, because the
        buyer's offer has left the row in another status than active. */
    method PlayRounds(id: nat, category: string, base: real, target: real, maxRounds: int, quantity: real)
      returns (rounds: seq<Offer>)
      requires id in negos && negos[id].status == Active && negos[id].counters == 0
      requires negos[id].maxCounters == maxRounds * 2
      modifies this
      ensures agreements == old(agreements) && orders == old(orders) && next == old(next)
      ensures maxRounds <= 0 ==> rounds == [] && negos == old(negos)
      ensures maxRounds >= 1 ==>
                && rounds == [Offer(1, Buyer, target * 0.90, target * 0.90 * quantity)]
                && id in negos && negos[id].latest == Some(rounds[0]) && negos[id].counters == 1
                && negos[id].status == (if maxRounds == 1 then Accepted else CounterProposed)
                && negos == old(negos)[id := old(negos)[id].(status := negos[id].status, counters := 1,
                                                             latest := Some(rounds[0]))]
    {
      rounds := [];
      for round := 1 to if maxRounds >= 1 then maxRounds + 1 else 1
        invariant round == 1 && rounds == []
        invariant Model() == old(Model())
      {
        var buyerOffer := MakeOffer(round, Buyer, BuyerBid(target, round), quantity);
        var counter1 := RecordCounter(id, buyerOffer);
        FirstOffer(target, quantity);
        if !counter1 {
          break;
        }
        rounds := rounds + [buyerOffer];
        if round == maxRounds {
          if id in negos && negos[id].status == CounterProposed {
            var _ := AcceptCounter(id);
          }
          break;
        }
        var sellerOffer := MakeOffer(round + 1, Supplier, QuotePrice(base, category, round), quantity);
        var counter2 := RecordCounter(id, sellerOffer);
        if !counter2 {
          break;
        }
        rounds := rounds + [sellerOffer];
      }
    }

    /** Automatic negotiation, with nobody else touching the row. Whatever the number of rounds
        asked for, exactly one offer is recorded, the buyer's first-round bid, and that bid is
        accepted. With no rounds nothing is offered and the negotiation stays open. */
    method AutoNegotiate(buyer: string, supplier: string, category: string, base: real, target: real,
                         maxRounds: int, quantity: real, expiresAt: int)
      returns (out: Outcome)
      requires Inv(Model())
      modifies this
      ensures out.id == old(next) && out.id in negos && out.status == negos[out.id].status
      ensures agreements == old(agreements) && orders == old(orders) && next == old(next) + 1
      ensures negos == old(negos)[out.id := negos[out.id]] && negos[out.id].maxCounters == 2 * maxRounds
      ensures maxRounds >= 1 ==>
                && out.status == Accepted
                && out.rounds == [Offer(1, Buyer, target * 0.90, target * 0.90 * quantity)]
                && negos[out.id] == Nego(buyer, supplier, Accepted, 1, 2 * maxRounds, Some(out.rounds[0]), expiresAt)
                && out.finalPrice == target * 0.90
                && out.finalTotal == if maxRounds == 1 then Some(target * 0.90 * quantity) else None
      ensures maxRounds <= 0 ==>
                && out.status == Active && out.rounds == []
                && negos[out.id] == Nego(buyer, supplier, Active, 0, 2 * maxRounds, None, expiresAt)
                && out.finalPrice == 0.0 && out.finalTotal == None
    {
      var id := StartNegotiation(buyer, supplier, maxRounds * 2, expiresAt);
      var rounds := PlayRounds(id, category, base, target, maxRounds, quantity);
      var finalPrice := if rounds != [] then rounds[|rounds| - 1].unitPrice else 0.0;
      var status := negos[id].status;
      FirstOffer(target, quantity);
      if status == Accepted {
        return Outcome(id, rounds, finalPrice, Some(TotalPrice(finalPrice, quantity)), Accepted);
      }
      var accepted := AcceptCounter(id);
      return Outcome(id, rounds, finalPrice, None, if accepted then Accepted else status);
    }
  }
}
