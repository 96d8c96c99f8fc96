/** Order matching of x/anteil/keeper/economic_engine.go on two price-sorted lists: the greedy
    crossing and what it achieves. Amounts and prices are 6-decimal fixed point, as integers. */
module Matching {
  import opened Arithmetic

  datatype Side = Buy | Sell

  datatype Status = Open | Filled | Cancelled

  datatype Order = Order(
    id: string,
    owner: string,
    side: Side,
    price: int,
    amount: int,
    status: Status,
    identityHash: string)

  datatype Trade = Trade(buyId: string, sellId: string, buyer: string, seller: string, qty: int, price: int)

  /** Final orders keep the places they had in the sorted lists. */
  datatype Outcome = Outcome(trades: seq<Trade>, buys: seq<Order>, sells: seq<Order>)

  function Quantity(b: Order, s: Order): int {
    if s.amount < b.amount then s.amount else b.amount
  }

  /** executeTrade records the seller's price. */
  function TradeOf(b: Order, s: Order): Trade {
    Trade(b.id, s.id, b.owner, s.owner, Quantity(b, s), s.price)
  }

  function Reduce(o: Order, q: int): Order {
    o.(amount := o.amount - q, status := if o.amount - q == 0 then Filled else o.status)
  }

  predicate Crossing(bs: seq<Order>, ss: seq<Order>) {
    bs != [] && ss != [] && bs[0].price >= ss[0].price
  }

  /** The list after its head traded q: filled orders leave it. */
  function Next(os: seq<Order>, q: int): seq<Order>
    requires os != []
  {
    var o := Reduce(os[0], q);
    if o.status == Filled then os[1..] else [o] + os[1..]
  }

  function IfFilled(o: Order): seq<Order> {
    if o.status == Filled then [o] else []
  }

  /** executeMatching: trade the two heads while they cross. */
  function Match(bs: seq<Order>, ss: seq<Order>): Outcome
    decreases |bs| + |ss|
  {
    if !Crossing(bs, ss) then Outcome([], bs, ss)
    else
      var q := Quantity(bs[0], ss[0]);
      var rest := Match(Next(bs, q), Next(ss, q));
      Outcome([TradeOf(bs[0], ss[0])] + rest.trades,
              IfFilled(Reduce(bs[0], q)) + rest.buys,
              IfFilled(Reduce(ss[0], q)) + rest.sells)
  }

  // ---------- Order books ----------

  /** sort.Slice on the buy side: higher prices first, ties in any order. */
  ghost predicate Descending(os: seq<Order>) {
    forall i, j :: 0 <= i < j < |os| ==> os[i].price >= os[j].price
  }

  ghost predicate Ascending(os: seq<Order>) {
    forall i, j :: 0 <= i < j < |os| ==> os[i].price <= os[j].price
  }

  ghost predicate AllOpen(os: seq<Order>) {
    forall o :: o in os ==> o.status == Open
  }

  ghost predicate NonNegative(os: seq<Order>) {
    forall o :: o in os ==> o.amount >= 0
  }

  ghost predicate Book(bs: seq<Order>, ss: seq<Order>) {
    Descending(bs) && Ascending(ss) && AllOpen(bs) && AllOpen(ss)
  }

  /** After one trade the list has lost its head, or has it with a smaller amount. */
  lemma NextEntries(os: seq<Order>, q: int)
    requires os != [] && AllOpen(os)
    ensures var n := Next(os, q);
      var d := |os| - |n|;
      && d == (if os[0].amount == q then 1 else 0)
      && (forall i :: 0 <= i < |n| ==> n[i] == if i + d == 0 then Reduce(os[0], q) else os[i + d])
      && AllOpen(n)
  {
    assert os[0] in os;
    assert forall o :: o in os[1..] ==> o in os;
  }

  lemma NextKeepsOpen(os: seq<Order>, q: int)
    requires os != [] && AllOpen(os)
    ensures AllOpen(Next(os, q)) && |Next(os, q)| == |os| - if os[0].amount == q then 1 else 0
  {
    NextEntries(os, q);
  }

  /** One trade leaves two sorted lists of open orders, one of them shorter. */
  lemma NextKeepsBook(bs: seq<Order>, ss: seq<Order>)
    requires Book(bs, ss) && Crossing(bs, ss)
    ensures var q := Quantity(bs[0], ss[0]);
      Book(Next(bs, q), Next(ss, q)) && |Next(bs, q)| + |Next(ss, q)| < |bs| + |ss|
  {
    var q := Quantity(bs[0], ss[0]);
    NextKeepsOpen(bs, q);
    NextKeepsOpen(ss, q);
    NextKeepsOrder(bs, q);
    NextKeepsOrder(ss, q);
  }

  lemma NextKeepsOrder(os: seq<Order>, q: int)
    requires os != []
    ensures Descending(os) ==> Descending(Next(os, q))
    ensures Ascending(os) ==> Ascending(Next(os, q))
  {
    var n := Next(os, q);
    forall i, j | 0 <= i < j < |n|
      ensures Descending(os) ==> n[i].price >= n[j].price
      ensures Ascending(os) ==> n[i].price <= n[j].price
    {
      var a, b := NextOrigin(os, q, i), NextOrigin(os, q, j);
      assert a < b;
    }
  }

  lemma NextKeepsNonNegative(os: seq<Order>, q: int)
    requires os != [] && AllOpen(os) && NonNegative(os) && q <= os[0].amount
    ensures NonNegative(Next(os, q))
  {
    NextEntries(os, q);
    assert os[0] in os;
  }

  lemma QuantityNonNegative(bs: seq<Order>, ss: seq<Order>)
    requires bs != [] && ss != [] && NonNegative(bs) && NonNegative(ss)
    ensures 0 <= Quantity(bs[0], ss[0])
  {
    assert bs[0] in bs && ss[0] in ss;
  }

  // ---------- Optimality ----------

  /** Total amount of buy orders with limit at least p. */
  function Demand(bs: seq<Order>, p: int): int {
    if bs == [] then 0 else (if bs[0].price >= p then bs[0].amount else 0) + Demand(bs[1..], p)
  }

  /** Total amount of sell orders with limit at most p. */
  function Supply(ss: seq<Order>, p: int): int {
    if ss == [] then 0 else (if ss[0].price <= p then ss[0].amount else 0) + Supply(ss[1..], p)
  }

  function Volume(ts: seq<Trade>): int {
    if ts == [] then 0 else ts[0].qty + Volume(ts[1..])
  }

  lemma NextDemand(bs: seq<Order>, q: int, p: int)
    requires bs != [] && bs[0].status == Open
    ensures Demand(Next(bs, q), p) == Demand(bs, p) - (if bs[0].price >= p then q else 0)
  {
    var o := Reduce(bs[0], q);
    assert ([o] + bs[1..])[1..] == bs[1..];
  }

  lemma NextSupply(ss: seq<Order>, q: int, p: int)
    requires ss != [] && ss[0].status == Open
    ensures Supply(Next(ss, q), p) == Supply(ss, p) - (if ss[0].price <= p then q else 0)
  {
    var o := Reduce(ss[0], q);
    assert ([o] + ss[1..])[1..] == ss[1..];
  }

  lemma {:induction false} NoDemandAbove(bs: seq<Order>, p: int)
    requires forall o :: o in bs ==> o.price < p
    ensures Demand(bs, p) == 0
  {
    if bs != [] {
      NoDemandAbove(bs[1..], p);
    }
  }

  lemma {:induction false} NoSupplyBelow(ss: seq<Order>, p: int)
    requires forall o :: o in ss ==> p < o.price
    ensures Supply(ss, p) == 0
  {
    if ss != [] {
      NoSupplyBelow(ss[1..], p);
    }
  }

  lemma {:induction false} DemandNonNegative(bs: seq<Order>, p: int)
    requires NonNegative(bs)
    ensures Demand(bs, p) >= 0
  {
    if bs != [] {
      DemandNonNegative(bs[1..], p);
    }
  }

  lemma {:induction false} SupplyNonNegative(ss: seq<Order>, p: int)
    requires NonNegative(ss)
    ensures Supply(ss, p) >= 0
  {
    if ss != [] {
      SupplyNonNegative(ss[1..], p);
    }
  }

  /** No single price could clear more than the matching did. */
  lemma {:induction false} ClearsAtLeast(bs: seq<Order>, ss: seq<Order>, p: int)
    requires Book(bs, ss) && NonNegative(bs) && NonNegative(ss)
    ensures Min(Demand(bs, p), Supply(ss, p)) <= Volume(Match(bs, ss).trades)
    decreases |bs| + |ss|
  {
    if Crossing(bs, ss) {
      NextKeepsBook(bs, ss);
      var q := Quantity(bs[0], ss[0]);
      QuantityNonNegative(bs, ss);
      NextKeepsNonNegative(bs, q);
      NextKeepsNonNegative(ss, q);
      assert bs[0] in bs && ss[0] in ss;
      NextDemand(bs, q, p);
      NextSupply(ss, q, p);
      ClearsAtLeast(Next(bs, q), Next(ss, q), p);
      var rest := Match(Next(bs, q), Next(ss, q)).trades;
      assert ([TradeOf(bs[0], ss[0])] + rest)[1..] == rest;
    } else if bs != [] && ss != [] {
      if p > bs[0].price {
        NoDemandAbove(bs, p);
      } else {
        NoSupplyBelow(ss, p);
      }
    }
  }

  /** The seller's limit of the last trade: the price at which the whole volume clears. */
  function ClearingPrice(bs: seq<Order>, ss: seq<Order>): int
    decreases |bs| + |ss|
  {
    if !Crossing(bs, ss) then 0
    else
      var q := Quantity(bs[0], ss[0]);
      if Crossing(Next(bs, q), Next(ss, q)) then ClearingPrice(Next(bs, q), Next(ss, q)) else ss[0].price
  }

  lemma {:induction false} ClearsAtOnePrice(bs: seq<Order>, ss: seq<Order>)
    requires Book(bs, ss) && NonNegative(bs) && NonNegative(ss)
    ensures var p := ClearingPrice(bs, ss);
      && Volume(Match(bs, ss).trades) <= Demand(bs, p)
      && Volume(Match(bs, ss).trades) <= Supply(ss, p)
      && (Crossing(bs, ss) ==> ss[0].price <= p <= bs[0].price)
    decreases |bs| + |ss|
  {
    var p := ClearingPrice(bs, ss);
    DemandNonNegative(bs, p);
    SupplyNonNegative(ss, p);
    if Crossing(bs, ss) {
      NextKeepsBook(bs, ss);
      var q := Quantity(bs[0], ss[0]);
      QuantityNonNegative(bs, ss);
      NextKeepsNonNegative(bs, q);
      NextKeepsNonNegative(ss, q);
      assert bs[0] in bs && ss[0] in ss;
      NextDemand(bs, q, p);
      NextSupply(ss, q, p);
      ClearsAtOnePrice(Next(bs, q), Next(ss, q));
      DemandNonNegative(Next(bs, q), p);
      SupplyNonNegative(Next(ss, q), p);
      var rest := Match(Next(bs, q), Next(ss, q)).trades;
      assert ([TradeOf(bs[0], ss[0])] + rest)[1..] == rest;
    }
  }

  /** The traded volume is the maximum, over all prices, of what that single price could clear. */
  lemma ClearsMaximum(bs: seq<Order>, ss: seq<Order>)
    requires Book(bs, ss) && NonNegative(bs) && NonNegative(ss)
    ensures forall p :: Min(Demand(bs, p), Supply(ss, p)) <= Volume(Match(bs, ss).trades)
    ensures exists p :: Min(Demand(bs, p), Supply(ss, p)) == Volume(Match(bs, ss).trades)
  {
    forall p ensures Min(Demand(bs, p), Supply(ss, p)) <= Volume(Match(bs, ss).trades) {
      ClearsAtLeast(bs, ss, p);
    }
    ClearsAtOnePrice(bs, ss);
    assert Min(Demand(bs, ClearingPrice(bs, ss)), Supply(ss, ClearingPrice(bs, ss))) == Volume(Match(bs, ss).trades);
  }

  /** The traded volume is the largest any single price could clear. */
  ghost predicate Maximal(bs: seq<Order>, ss: seq<Order>) {
    && (forall p :: Min(Demand(bs, p), Supply(ss, p)) <= Volume(Match(bs, ss).trades))
    && (exists p :: Min(Demand(bs, p), Supply(ss, p)) == Volume(Match(bs, ss).trades))
  }

  ghost predicate AtLeast(os: seq<Order>, k: int) {
    forall o :: o in os ==> o.amount >= k
  }

  ghost predicate AlwaysMaximal(k: int) {
    forall bs, ss :: Book(bs, ss) && AtLeast(bs, k) && AtLeast(ss, k) ==> Maximal(bs, ss)
  }

  /** Refusing orders below k makes every match maximal if and only if k is not negative. The code
      has no such guard. */
  lemma MaximalExactly(k: int)
    ensures AlwaysMaximal(k) <==> k >= 0
  {
    if k >= 0 {
      forall bs, ss | Book(bs, ss) && AtLeast(bs, k) && AtLeast(ss, k) ensures Maximal(bs, ss) {
        ClearsMaximum(bs, ss);
      }
    } else {
      var b, s := Order("b", "o", Buy, 10, k, Open, "h"), Order("s", "o", Sell, 10, 3, Open, "h");
      NegativeAmountMissesMaximum(b, s);
      assert Book([b], [s]) && AtLeast([b], k) && AtLeast([s], k);
    }
  }

  /** A negative buy order trades its negative amount with any sell order it crosses; the volume 0 that
      clears at a price above both limits is already more. */
  lemma NegativeAmountMissesMaximum(b: Order, s: Order)
    requires b.status == Open && s.status == Open && b.price >= s.price && b.amount < 0 <= s.amount
    ensures Volume(Match([b], [s]).trades) == b.amount
    ensures !Maximal([b], [s])
  {
    var q := b.amount;
    assert Next([b], q) == [] && Next([s], q) == [Reduce(s, q)];
    assert Match([], [Reduce(s, q)]).trades == [];
    var ts := Match([b], [s]).trades;
    assert ts == [TradeOf(b, s)];
    assert ts[1..] == [] && [b][1..] == [] && [s][1..] == [];
    var p := b.price + 1;
    assert Demand([], p) == 0 && Supply([], p) == 0;
    assert Min(Demand([b], p), Supply([s], p)) == 0;
  }

  // ---------- Shape of the outcome ----------

  /** At most one trade fewer than there are orders. */
  lemma {:induction false} FewTrades(bs: seq<Order>, ss: seq<Order>)
    ensures bs == [] || ss == [] ==> Match(bs, ss).trades == []
    ensures bs != [] && ss != [] ==> |Match(bs, ss).trades| <= |bs| + |ss| - 1
    decreases |bs| + |ss|
  {
    if Crossing(bs, ss) {
      var q := Quantity(bs[0], ss[0]);
      FewTrades(Next(bs, q), Next(ss, q));
    }
  }

  /** A side is filled as a prefix of its price order: the first k orders completely, the next one
      at most in part, the rest not at all. */
  ghost predicate FilledPrefix(before: seq<Order>, after: seq<Order>, k: nat)
    decreases k
  {
    && |after| == |before| && k <= |before|
    && if k == 0 then
         before != [] ==> after[0] == before[0].(amount := after[0].amount) && after[1..] == before[1..]
       else
         after[0] == before[0].(amount := 0, status := Filled) && FilledPrefix(before[1..], after[1..], k - 1)
  }

  lemma {:induction false} FilledPrefixAt(before: seq<Order>, after: seq<Order>, k: nat, i: nat)
    requires FilledPrefix(before, after, k) && i < |before|
    ensures i < k ==> after[i] == before[i].(amount := 0, status := Filled)
    ensures i == k ==> after[i] == before[i].(amount := after[i].amount)
    ensures i > k ==> after[i] == before[i]
    decreases k
  {
    if k == 0 && i > 0 {
      assert after[1..][i - 1] == before[1..][i - 1];
    } else if k > 0 && i > 0 {
      FilledPrefixAt(before[1..], after[1..], k - 1, i - 1);
    }
  }

  ghost predicate Untouched(before: seq<Order>, after: seq<Order>, k: nat) {
    k < |before| && k < |after| ==> after[k] == before[k]
  }

  /** At most one side ends with a partly filled order: a side whose first order was never filled
      has filled the other side's orders one after the other. */
  ghost predicate OnePartial(bs: seq<Order>, ss: seq<Order>, r: Outcome, kb: nat, ks: nat) {
    && (Untouched(bs, r.buys, kb) || Untouched(ss, r.sells, ks))
    && (ks == 0 ==> Untouched(bs, r.buys, kb))
    && (kb == 0 ==> Untouched(ss, r.sells, ks))
  }

  /** How the two sides end: prefixes filled, at most one partly filled order, and no crossing
      between what is left. */
  ghost predicate Settled(bs: seq<Order>, ss: seq<Order>, r: Outcome, kb: nat, ks: nat) {
    && FilledPrefix(bs, r.buys, kb) && FilledPrefix(ss, r.sells, ks)
    && OnePartial(bs, ss, r, kb, ks)
    && (kb < |r.buys| && ks < |r.sells| ==> r.buys[kb].price < r.sells[ks].price)
  }

  /** Prepending the head of one side: the filled prefix grows with it, what is left stays. */
  lemma PrependHead(before: seq<Order>, after: seq<Order>, q: int, k: nat)
    requires before != [] && AllOpen(before)
    requires FilledPrefix(Next(before, q), after, k)
    ensures FilledPrefix(before, IfFilled(Reduce(before[0], q)) + after, k + |before| - |Next(before, q)|)
  {
    var o, os := before[0], before[1..];
    assert before == [o] + os && o in before;
    if o.amount == q {
      assert Reduce(o, q) == o.(amount := 0, status := Filled);
      PrependFilled(o, os, after, k);
    } else {
      PrependPartial(o, Reduce(o, q), os, after, k);
      assert [] + after == after;
    }
  }

  lemma PrependFilled(o: Order, os: seq<Order>, after: seq<Order>, k: nat)
    requires FilledPrefix(os, after, k)
    ensures FilledPrefix([o] + os, [o.(amount := 0, status := Filled)] + after, k + 1)
  {
    assert ([o] + os)[1..] == os;
    assert ([o.(amount := 0, status := Filled)] + after)[1..] == after;
  }

  lemma PrependPartial(o: Order, r: Order, os: seq<Order>, after: seq<Order>, k: nat)
    requires FilledPrefix([r] + os, after, k) && r == o.(amount := r.amount)
    ensures FilledPrefix([o] + os, after, k)
  {
    assert ([o] + os)[1..] == os && ([r] + os)[1..] == os;
  }

  lemma PrependLeft(before: seq<Order>, after: seq<Order>, q: int, k: nat)
    requires before != [] && AllOpen(before) && k < |after|
    ensures var d := |before| - |Next(before, q)|;
      var all := IfFilled(Reduce(before[0], q)) + after;
      d >= 0 && k + d < |all| && all[k + d] == after[k]
  {
    NextEntries(before, q);
    assert before[0] in before;
  }

  lemma PrependUntouched(before: seq<Order>, after: seq<Order>, q: int, k: nat)
    requires before != [] && AllOpen(before)
    requires |after| == |Next(before, q)| && k <= |after|
    requires k + |before| - |Next(before, q)| > 0 && Untouched(Next(before, q), after, k)
    ensures Untouched(before, IfFilled(Reduce(before[0], q)) + after, k + |before| - |Next(before, q)|)
  {
    NextEntries(before, q);
    assert before[0] in before;
  }

  lemma PrependBothUntouched(bs: seq<Order>, ss: seq<Order>, rest: Outcome, q: int, kb: nat, ks: nat)
    requires bs != [] && ss != [] && AllOpen(bs) && AllOpen(ss)
    requires |rest.buys| == |Next(bs, q)| && kb <= |rest.buys|
    requires |rest.sells| == |Next(ss, q)| && ks <= |rest.sells|
    ensures var kb' := kb + |bs| - |Next(bs, q)|;
      kb' > 0 && Untouched(Next(bs, q), rest.buys, kb) ==>
        Untouched(bs, IfFilled(Reduce(bs[0], q)) + rest.buys, kb')
    ensures var ks' := ks + |ss| - |Next(ss, q)|;
      ks' > 0 && Untouched(Next(ss, q), rest.sells, ks) ==>
        Untouched(ss, IfFilled(Reduce(ss[0], q)) + rest.sells, ks')
  {
    if kb + |bs| - |Next(bs, q)| > 0 && Untouched(Next(bs, q), rest.buys, kb) {
      PrependUntouched(bs, rest.buys, q, kb);
    }
    if ks + |ss| - |Next(ss, q)| > 0 && Untouched(Next(ss, q), rest.sells, ks) {
      PrependUntouched(ss, rest.sells, q, ks);
    }
  }

  /** One trade before a settled rest: it fills the head of at least one side. */
  lemma SettledStep(bs: seq<Order>, ss: seq<Order>, rest: Outcome, r: Outcome, q: int, kb: nat, ks: nat,
      kb': nat, ks': nat)
    requires Crossing(bs, ss) && AllOpen(bs) && AllOpen(ss) && q == Quantity(bs[0], ss[0])
    requires Settled(Next(bs, q), Next(ss, q), rest, kb, ks)
    requires kb' == kb + |bs| - |Next(bs, q)| && ks' == ks + |ss| - |Next(ss, q)|
    requires r.buys == IfFilled(Reduce(bs[0], q)) + rest.buys
    requires r.sells == IfFilled(Reduce(ss[0], q)) + rest.sells
    ensures Settled(bs, ss, r, kb', ks')
  {
    PrependHead(bs, rest.buys, q, kb);
    PrependHead(ss, rest.sells, q, ks);
    if kb < |rest.buys| { PrependLeft(bs, rest.buys, q, kb); }
    if ks < |rest.sells| { PrependLeft(ss, rest.sells, q, ks); }
    PrependOnePartial(bs, ss, rest, r, q, kb, ks);
  }

  lemma PrependOnePartial(bs: seq<Order>, ss: seq<Order>, rest: Outcome, r: Outcome, q: int, kb: nat, ks: nat)
    requires Crossing(bs, ss) && AllOpen(bs) && AllOpen(ss) && q == Quantity(bs[0], ss[0])
    requires FilledPrefix(Next(bs, q), rest.buys, kb) && FilledPrefix(Next(ss, q), rest.sells, ks)
    requires OnePartial(Next(bs, q), Next(ss, q), rest, kb, ks)
    requires r.buys == IfFilled(Reduce(bs[0], q)) + rest.buys
    requires r.sells == IfFilled(Reduce(ss[0], q)) + rest.sells
    ensures OnePartial(bs, ss, r, kb + |bs| - |Next(bs, q)|, ks + |ss| - |Next(ss, q)|)
  {
    PrependBothUntouched(bs, ss, rest, q, kb, ks);
    NextEntries(bs, q);
    NextEntries(ss, q);
  }

  lemma {:induction false} MatchSettles(bs: seq<Order>, ss: seq<Order>) returns (kb: nat, ks: nat)
    requires AllOpen(bs) && AllOpen(ss)
    ensures Settled(bs, ss, Match(bs, ss), kb, ks)
    decreases |bs| + |ss|
  {
    if Crossing(bs, ss) {
      var q := Quantity(bs[0], ss[0]);
      NextKeepsOpen(bs, q);
      NextKeepsOpen(ss, q);
      var kb0, ks0 := MatchSettles(Next(bs, q), Next(ss, q));
      kb := kb0 + |bs| - |Next(bs, q)|;
      ks := ks0 + |ss| - |Next(ss, q)|;
      SettledStep(bs, ss, Match(Next(bs, q), Next(ss, q)), Match(bs, ss), q, kb0, ks0, kb, ks);
    } else {
      kb, ks := 0, 0;
      SettledAlready(bs, ss, Match(bs, ss));
    }
  }

  lemma SettledAlready(bs: seq<Order>, ss: seq<Order>, r: Outcome)
    requires !Crossing(bs, ss) && r.buys == bs && r.sells == ss
    ensures Settled(bs, ss, r, 0, 0)
  {
  }

  /** After matching, no open buy order reaches the limit of any open sell order. */
  lemma NothingLeftCrosses(bs: seq<Order>, ss: seq<Order>, i: nat, j: nat)
    requires Book(bs, ss)
    requires i < |Match(bs, ss).buys| && j < |Match(bs, ss).sells|
    requires Match(bs, ss).buys[i].status == Open && Match(bs, ss).sells[j].status == Open
    ensures Match(bs, ss).buys[i].price < Match(bs, ss).sells[j].price
  {
    var kb, ks := MatchSettles(bs, ss);
    OpenPricesApart(bs, ss, Match(bs, ss), kb, ks, i, j);
  }

  lemma OpenPricesApart(bs: seq<Order>, ss: seq<Order>, r: Outcome, kb: nat, ks: nat, i: nat, j: nat)
    requires Descending(bs) && Ascending(ss) && Settled(bs, ss, r, kb, ks)
    requires i < |r.buys| && j < |r.sells| && r.buys[i].status == Open && r.sells[j].status == Open
    ensures r.buys[i].price < r.sells[j].price
  {
    LeftAreOpen(bs, r.buys, kb, i);
    LeftAreOpen(ss, r.sells, ks, j);
  }

  /** What is still open lies beyond the filled prefix, with the prices it came with. */
  lemma LeftAreOpen(before: seq<Order>, after: seq<Order>, k: nat, i: nat)
    requires FilledPrefix(before, after, k) && i < |after| && after[i].status == Open
    ensures k <= i && after[i].price == before[i].price && after[k].price == before[k].price
  {
    FilledPrefixAt(before, after, k, i);
    FilledPrefixAt(before, after, k, k);
  }

  /** A trade between these two orders respects both limits and takes the seller's price. */
  ghost predicate FairTrade(t: Trade, b: Order, s: Order) {
    && t.buyId == b.id && t.sellId == s.id && t.buyer == b.owner && t.seller == s.owner
    && t.price == s.price <= b.price
  }

  ghost predicate FairWithin(t: Trade, bs: seq<Order>, ss: seq<Order>) {
    exists i, j :: 0 <= i < |bs| && 0 <= j < |ss| && FairTrade(t, bs[i], ss[j])
  }

  lemma FairFromNext(t: Trade, bs: seq<Order>, ss: seq<Order>, q: int)
    requires bs != [] && ss != [] && AllOpen(bs) && AllOpen(ss)
    requires FairWithin(t, Next(bs, q), Next(ss, q))
    ensures FairWithin(t, bs, ss)
  {
    var i, j :| 0 <= i < |Next(bs, q)| && 0 <= j < |Next(ss, q)| && FairTrade(t, Next(bs, q)[i], Next(ss, q)[j]);
    var b, s := NextOrigin(bs, q, i), NextOrigin(ss, q, j);
    assert FairTrade(t, bs[b], ss[s]);
  }

  /** Where an order of the next list comes from; only its amount and status can differ. */
  function NextOrigin(os: seq<Order>, q: int, i: nat): (j: nat)
    requires os != [] && i < |Next(os, q)|
    ensures j < |os| && Next(os, q)[i] == os[j].(amount := Next(os, q)[i].amount, status := Next(os, q)[i].status)
  {
    if Reduce(os[0], q).status == Filled then i + 1 else i
  }

  /** No trade is above its buyer's or below its seller's limit. */
  lemma {:induction false} TradesAreFair(bs: seq<Order>, ss: seq<Order>)
    requires Book(bs, ss)
    ensures forall t :: t in Match(bs, ss).trades ==> FairWithin(t, bs, ss)
    decreases |bs| + |ss|
  {
    if Crossing(bs, ss) {
      NextKeepsBook(bs, ss);
      var q := Quantity(bs[0], ss[0]);
      TradesAreFair(Next(bs, q), Next(ss, q));
      var rest := Match(Next(bs, q), Next(ss, q)).trades;
      forall t | t in Match(bs, ss).trades ensures FairWithin(t, bs, ss) {
        if t in rest {
          FairFromNext(t, bs, ss, q);
        } else {
          assert FairTrade(t, bs[0], ss[0]);
        }
      }
    }
  }

  // ---------- Conservation ----------

  function BoughtBy(ts: seq<Trade>, id: string): int {
    if ts == [] then 0 else (if ts[0].buyId == id then ts[0].qty else 0) + BoughtBy(ts[1..], id)
  }

  function SoldBy(ts: seq<Trade>, id: string): int {
    if ts == [] then 0 else (if ts[0].sellId == id then ts[0].qty else 0) + SoldBy(ts[1..], id)
  }

  ghost predicate DistinctIds(os: seq<Order>) {
    forall i, j :: 0 <= i < j < |os| ==> os[i].id != os[j].id
  }

  ghost predicate HasId(os: seq<Order>, id: string) {
    exists i :: 0 <= i < |os| && os[i].id == id
  }

  lemma NextIds(os: seq<Order>, q: int, id: string)
    requires os != [] && AllOpen(os)
    ensures HasId(Next(os, q), id) ==> HasId(os, id)
    ensures DistinctIds(os) ==> DistinctIds(Next(os, q))
    ensures DistinctIds(os) && |Next(os, q)| < |os| ==> !HasId(Next(os, q), os[0].id)
  {
    NextEntries(os, q);
    var n := Next(os, q);
    if HasId(n, id) {
      var i :| 0 <= i < |n| && n[i].id == id;
      assert os[i + |os| - |n|].id == id;
    }
  }

  lemma {:induction false} OnlyListedTrade(bs: seq<Order>, ss: seq<Order>, id: string)
    requires Book(bs, ss)
    ensures !HasId(bs, id) ==> BoughtBy(Match(bs, ss).trades, id) == 0
    ensures !HasId(ss, id) ==> SoldBy(Match(bs, ss).trades, id) == 0
    decreases |bs| + |ss|
  {
    if Crossing(bs, ss) {
      NextKeepsBook(bs, ss);
      var q := Quantity(bs[0], ss[0]);
      OnlyListedTrade(Next(bs, q), Next(ss, q), id);
      NextIds(bs, q, id);
      NextIds(ss, q, id);
      var rest := Match(Next(bs, q), Next(ss, q)).trades;
      assert ([TradeOf(bs[0], ss[0])] + rest)[1..] == rest;
    }
  }

  /** Every initial amount is the final amount plus what the order with that id traded. */
  ghost predicate Conserved(before: seq<Order>, after: seq<Order>, traded: string -> int) {
    && |after| == |before|
    && forall i :: 0 <= i < |before| ==>
      after[i].id == before[i].id && before[i].amount == after[i].amount + traded(before[i].id)
  }

  lemma PrependConserved(before: seq<Order>, after: seq<Order>, q: int, rest: string -> int, all: string -> int)
    requires before != [] && AllOpen(before) && DistinctIds(before)
    requires Conserved(Next(before, q), after, rest)
    requires !HasId(Next(before, q), before[0].id) ==> rest(before[0].id) == 0
    requires forall id :: all(id) == rest(id) + if id == before[0].id then q else 0
    ensures Conserved(before, IfFilled(Reduce(before[0], q)) + after, all)
  {
    NextIds(before, q, before[0].id);
    assert before[0] in before;
    var n := Next(before, q);
    var finals := IfFilled(Reduce(before[0], q)) + after;
    if before[0].amount == q {
      assert n == before[1..];
      forall i | 0 < i < |before|
        ensures finals[i].id == before[i].id && before[i].amount == finals[i].amount + rest(before[i].id)
      {
        assert n[i - 1] == before[i] && finals[i] == after[i - 1];
      }
    } else {
      assert finals == after && n[0] == Reduce(before[0], q);
      forall i | 0 < i < |before|
        ensures finals[i].id == before[i].id && before[i].amount == finals[i].amount + rest(before[i].id)
      {
        assert n[i] == before[i];
      }
    }
  }

  ghost function Bought(ts: seq<Trade>): string -> int {
    (id: string) => BoughtBy(ts, id)
  }

  ghost function Sold(ts: seq<Trade>): string -> int {
    (id: string) => SoldBy(ts, id)
  }

  /** Every order's initial amount is what it still asks for plus what it traded. */
  lemma OrdersConserved(bs: seq<Order>, ss: seq<Order>)
    requires Book(bs, ss) && DistinctIds(bs) && DistinctIds(ss)
    ensures Conserved(bs, Match(bs, ss).buys, Bought(Match(bs, ss).trades))
    ensures Conserved(ss, Match(bs, ss).sells, Sold(Match(bs, ss).trades))
  {
    BuysConserved(bs, ss);
    SellsConserved(bs, ss);
  }

  lemma {:induction false} BuysConserved(bs: seq<Order>, ss: seq<Order>)
    requires Book(bs, ss) && DistinctIds(bs)
    ensures Conserved(bs, Match(bs, ss).buys, Bought(Match(bs, ss).trades))
    decreases |bs| + |ss|
  {
    if Crossing(bs, ss) {
      NextKeepsBook(bs, ss);
      var q := Quantity(bs[0], ss[0]);
      NextIds(bs, q, bs[0].id);
      BuysConserved(Next(bs, q), Next(ss, q));
      OnlyListedTrade(Next(bs, q), Next(ss, q), bs[0].id);
      var rest := Match(Next(bs, q), Next(ss, q));
      var all := Match(bs, ss).trades;
      assert all[1..] == rest.trades;
      PrependConserved(bs, rest.buys, q, Bought(rest.trades), Bought(all));
    }
  }

  lemma {:induction false} SellsConserved(bs: seq<Order>, ss: seq<Order>)
    requires Book(bs, ss) && DistinctIds(ss)
    ensures Conserved(ss, Match(bs, ss).sells, Sold(Match(bs, ss).trades))
    decreases |bs| + |ss|
  {
    if Crossing(bs, ss) {
      NextKeepsBook(bs, ss);
      var q := Quantity(bs[0], ss[0]);
      NextIds(ss, q, ss[0].id);
      SellsConserved(Next(bs, q), Next(ss, q));
      OnlyListedTrade(Next(bs, q), Next(ss, q), ss[0].id);
      var rest := Match(Next(bs, q), Next(ss, q));
      var all := Match(bs, ss).trades;
      assert all[1..] == rest.trades;
      PrependConserved(ss, rest.sells, q, Sold(rest.trades), Sold(all));
    }
  }
}
