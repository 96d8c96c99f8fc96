/** The ANT order store over whole runs: placing, cancelling and matching, block after block. */
module Market {
  import opened Wrappers
  import opened Decimal
  import opened Sums
  import opened Matching

  datatype Store = Store(orders: map<string, Order>, trades: map<string, Trade>)

  function TradeId(buyId: string, sellId: string): string {
    "trade_" + buyId + "_" + sellId
  }

  /** The store part of executeTrade. Both orders are written before the trade record is refused. */
  function Execute(m: Store, b: Order, s: Order): (Store, bool) {
    var q := Quantity(b, s);
    var written := m.(orders := m.orders[b.id := Reduce(b, q)][s.id := Reduce(s, q)]);
    var tid := TradeId(b.id, s.id);
    if tid in m.trades then (written, false)
    else (written.(trades := m.trades[tid := TradeOf(b, s)]), true)
  }

  /** executeMatching on the store; an error stops it where it is, without undoing anything. */
  function Cross(m: Store, bs: seq<Order>, ss: seq<Order>): (Store, bool)
    decreases |bs| + |ss|
  {
    if !Crossing(bs, ss) then (m, true)
    else
      var q := Quantity(bs[0], ss[0]);
      var (m', ok) := Execute(m, bs[0], ss[0]);
      if !ok then (m', false) else Cross(m', Next(bs, q), Next(ss, q))
  }

  // ---------- What the store keeps ----------

  /** The list entries are what the store holds under their ids. */
  ghost predicate Synced(m: Store, os: seq<Order>, side: Side) {
    forall i :: 0 <= i < |os| ==>
      os[i].id in m.orders && m.orders[os[i].id] == os[i] && os[i].side == side
  }

  /** Orders sit under their own id, and a recorded pair is never open on both sides again. */
  ghost predicate Consistent(m: Store) {
    && (forall id :: id in m.orders ==> m.orders[id].id == id)
    && (forall tid :: tid in m.trades ==>
          var t := m.trades[tid];
          && tid == TradeId(t.buyId, t.sellId)
          && t.buyId in m.orders && m.orders[t.buyId].side == Buy
          && t.sellId in m.orders && m.orders[t.sellId].side == Sell
          && (m.orders[t.buyId].status != Open || m.orders[t.sellId].status != Open))
  }

  /** Trade ids tell the pairs of buy and sell ids apart: the joining underscore is never ambiguous. */
  ghost predicate PairsApart(buys: set<string>, sells: set<string>) {
    forall b1, s1, b2, s2 ::
      (b1 in buys && s1 in sells && b2 in buys && s2 in sells && TradeId(b1, s1) == TradeId(b2, s2)) ==>
      b1 == b2 && s1 == s2
  }

  /** Buy orders have their ids in one set, sell orders in the other. */
  ghost predicate Within(m: Store, buys: set<string>, sells: set<string>) {
    forall id :: id in m.orders ==> if m.orders[id].side == Buy then id in buys else id in sells
  }

  ghost predicate Separable(m: Store) {
    exists buys, sells :: PairsApart(buys, sells) && Within(m, buys, sells)
  }

  ghost predicate SameSides(m: Store, m': Store) {
    m'.orders.Keys == m.orders.Keys && forall id :: id in m.orders ==> m'.orders[id].side == m.orders[id].side
  }

  lemma SameSidesSeparable(m: Store, m': Store)
    requires Separable(m) && SameSides(m, m')
    ensures Separable(m')
  {
    var buys, sells :| PairsApart(buys, sells) && Within(m, buys, sells);
    assert Within(m', buys, sells);
  }

  ghost function QtyFor(id: string): Trade -> int {
    (t: Trade) => if t.buyId == id || t.sellId == id then t.qty else 0
  }

  ghost function TradedBy(m: Store, id: string): int {
    TotalBy(m.trades, QtyFor(id))
  }

  /** Every order's placed amount is what it still asks for plus all its recorded trades. */
  ghost predicate Accounted(m: Store, placed: map<string, int>) {
    && placed.Keys == m.orders.Keys
    && forall id :: id in placed ==> placed[id] == m.orders[id].amount + TradedBy(m, id)
  }

  ghost predicate Ready(m: Store, bs: seq<Order>, ss: seq<Order>) {
    && Consistent(m) && Separable(m)
    && Book(bs, ss) && DistinctIds(bs) && DistinctIds(ss)
    && Synced(m, bs, Buy) && Synced(m, ss, Sell)
  }

  /** A pair that is open on both sides has not traded, so its record is new. */
  lemma OpenPairIsNew(m: Store, b: Order, s: Order)
    requires Consistent(m) && Separable(m)
    requires b.id in m.orders && m.orders[b.id] == b && b.status == Open && b.side == Buy
    requires s.id in m.orders && m.orders[s.id] == s && s.status == Open && s.side == Sell
    ensures Execute(m, b, s).1
    ensures b.id != s.id
    ensures SameSides(m, Execute(m, b, s).0)
  {
    var buys, sells :| PairsApart(buys, sells) && Within(m, buys, sells);
  }

  lemma ExecuteKeepsConsistent(m: Store, b: Order, s: Order)
    requires Consistent(m) && Separable(m)
    requires b.id in m.orders && m.orders[b.id] == b && b.status == Open && b.side == Buy
    requires s.id in m.orders && m.orders[s.id] == s && s.status == Open && s.side == Sell
    ensures Consistent(Execute(m, b, s).0)
  {
    OpenPairIsNew(m, b, s);
    var m' := Execute(m, b, s).0;
    forall tid | tid in m'.trades
      ensures var t := m'.trades[tid];
        && tid == TradeId(t.buyId, t.sellId)
        && t.buyId in m'.orders && m'.orders[t.buyId].side == Buy
        && t.sellId in m'.orders && m'.orders[t.sellId].side == Sell
        && (m'.orders[t.buyId].status != Open || m'.orders[t.sellId].status != Open)
    {
      if tid in m.trades {
        var t := m.trades[tid];
        assert m'.trades[tid] == t;
        assert m.orders[t.buyId].side == Buy && m.orders[t.sellId].side == Sell;
      }
    }
  }

  lemma ExecuteKeepsAccounts(m: Store, b: Order, s: Order, placed: map<string, int>)
    requires Consistent(m) && Separable(m) && Accounted(m, placed)
    requires b.id in m.orders && m.orders[b.id] == b && b.status == Open && b.side == Buy
    requires s.id in m.orders && m.orders[s.id] == s && s.status == Open && s.side == Sell
    ensures Accounted(Execute(m, b, s).0, placed)
  {
    OpenPairIsNew(m, b, s);
    var m' := Execute(m, b, s).0;
    forall id | id in placed ensures placed[id] == m'.orders[id].amount + TradedBy(m', id) {
      assert placed[id] == m.orders[id].amount + TradedBy(m, id);
      ExecuteBooks(m, b, s, id);
    }
  }

  /** One trade moves its quantity from what an order asks for to what it has traded. */
  lemma ExecuteBooks(m: Store, b: Order, s: Order, id: string)
    requires Execute(m, b, s).1 && b.id != s.id
    requires b.id in m.orders && m.orders[b.id] == b
    requires s.id in m.orders && m.orders[s.id] == s
    requires id in m.orders
    ensures var m' := Execute(m, b, s).0;
      m'.orders[id].amount + TradedBy(m', id) == m.orders[id].amount + TradedBy(m, id)
  {
    TotalByInsert(m.trades, QtyFor(id), TradeId(b.id, s.id), TradeOf(b, s));
  }

  lemma ExecuteKeepsSync(m: Store, bs: seq<Order>, ss: seq<Order>)
    requires Ready(m, bs, ss) && Crossing(bs, ss)
    ensures var q := Quantity(bs[0], ss[0]);
      Ready(Execute(m, bs[0], ss[0]).0, Next(bs, q), Next(ss, q))
  {
    var q := Quantity(bs[0], ss[0]);
    assert bs[0] in bs && ss[0] in ss;
    OpenPairIsNew(m, bs[0], ss[0]);
    ExecuteKeepsConsistent(m, bs[0], ss[0]);
    NextKeepsBook(bs, ss);
    NextIds(bs, q, bs[0].id);
    NextIds(ss, q, ss[0].id);
    var m' := Execute(m, bs[0], ss[0]).0;
    assert m'.orders == m.orders[bs[0].id := Reduce(bs[0], q)][ss[0].id := Reduce(ss[0], q)];
    assert m'.orders == m.orders[ss[0].id := Reduce(ss[0], q)][bs[0].id := Reduce(bs[0], q)];
    NextSynced(m, m', bs, ss[0], q, Buy);
    NextSynced(m, m', ss, bs[0], q, Sell);
    SameSidesSeparable(m, m');
  }

  lemma NextSynced(m: Store, m': Store, os: seq<Order>, other: Order, q: int, side: Side)
    requires os != [] && AllOpen(os) && DistinctIds(os) && Synced(m, os, side)
    requires other.id in m.orders && m.orders[other.id] == other && other.side != side
    requires m'.orders == m.orders[os[0].id := Reduce(os[0], q)][other.id := Reduce(other, q)]
    ensures Synced(m', Next(os, q), side)
  {
    forall i | 0 < i < |os| ensures os[i].id in m'.orders && m'.orders[os[i].id] == os[i] && os[i].side == side {
      assert m.orders[os[i].id] == os[i];
    }
    assert m.orders[os[0].id] == os[0];
    var head := Reduce(os[0], q);
    if head.status == Filled {
      assert Synced(m', os[1..], side);
    } else {
      SyncedCons(m', head, os[1..], side);
    }
  }

  lemma SyncedCons(m: Store, o: Order, os: seq<Order>, side: Side)
    requires o.id in m.orders && m.orders[o.id] == o && o.side == side && Synced(m, os, side)
    ensures Synced(m, [o] + os, side)
  {
  }

  /** With separable ids matching never fails, and it keeps the store consistent and every order
      accounted for. */
  lemma {:induction false} CrossKeepsAccounts(m: Store, bs: seq<Order>, ss: seq<Order>, placed: map<string, int>)
    requires Ready(m, bs, ss) && Accounted(m, placed)
    ensures Cross(m, bs, ss).1
    ensures Consistent(Cross(m, bs, ss).0) && Accounted(Cross(m, bs, ss).0, placed)
    ensures SameSides(m, Cross(m, bs, ss).0)
    decreases |bs| + |ss|
  {
    if Crossing(bs, ss) {
      assert bs[0] in bs && ss[0] in ss;
      OpenPairIsNew(m, bs[0], ss[0]);
      ExecuteKeepsSync(m, bs, ss);
      ExecuteKeepsAccounts(m, bs[0], ss[0], placed);
      NextKeepsBook(bs, ss);
      var q := Quantity(bs[0], ss[0]);
      CrossKeepsAccounts(Execute(m, bs[0], ss[0]).0, Next(bs, q), Next(ss, q), placed);
    }
  }

  function QtyOf(t: Trade): int {
    t.qty
  }

  ghost predicate HoldsFinals(m: Store, os: seq<Order>) {
    forall i :: 0 <= i < |os| ==> os[i].id in m.orders && m.orders[os[i].id] == os[i]
  }

  lemma {:induction false} CrossFrame(m: Store, bs: seq<Order>, ss: seq<Order>, id: string)
    requires Ready(m, bs, ss) && !HasId(bs, id) && !HasId(ss, id) && id in m.orders
    ensures id in Cross(m, bs, ss).0.orders && Cross(m, bs, ss).0.orders[id] == m.orders[id]
    decreases |bs| + |ss|
  {
    if Crossing(bs, ss) {
      assert bs[0] in bs && ss[0] in ss;
      OpenPairIsNew(m, bs[0], ss[0]);
      ExecuteKeepsSync(m, bs, ss);
      NextKeepsBook(bs, ss);
      var q := Quantity(bs[0], ss[0]);
      NextIds(bs, q, id);
      NextIds(ss, q, id);
      assert bs[0].id != id && ss[0].id != id;
      CrossFrame(Execute(m, bs[0], ss[0]).0, Next(bs, q), Next(ss, q), id);
    }
  }

  /** The traded volume on record grows by exactly the volume of the match. */
  lemma {:induction false} CrossVolume(m: Store, bs: seq<Order>, ss: seq<Order>)
    requires Ready(m, bs, ss)
    ensures TotalBy(Cross(m, bs, ss).0.trades, QtyOf) == TotalBy(m.trades, QtyOf) + Volume(Match(bs, ss).trades)
    decreases |bs| + |ss|
  {
    if Crossing(bs, ss) {
      assert bs[0] in bs && ss[0] in ss;
      OpenPairIsNew(m, bs[0], ss[0]);
      ExecuteKeepsSync(m, bs, ss);
      NextKeepsBook(bs, ss);
      var q := Quantity(bs[0], ss[0]);
      CrossVolume(Execute(m, bs[0], ss[0]).0, Next(bs, q), Next(ss, q));
      TotalByInsert(m.trades, QtyOf, TradeId(bs[0].id, ss[0].id), TradeOf(bs[0], ss[0]));
      var rest := Match(Next(bs, q), Next(ss, q)).trades;
      assert ([TradeOf(bs[0], ss[0])] + rest)[1..] == rest;
    }
  }

  /** A filled head has left its list, so nothing later writes its stored copy. */
  lemma FilledHeadStays(m: Store, bs: seq<Order>, ss: seq<Order>)
    requires Ready(m, bs, ss) && Crossing(bs, ss)
    ensures var q := Quantity(bs[0], ss[0]);
      var m' := Cross(m, bs, ss).0;
      && HoldsFinals(m', IfFilled(Reduce(bs[0], q)))
      && HoldsFinals(m', IfFilled(Reduce(ss[0], q)))
  {
    var q := Quantity(bs[0], ss[0]);
    assert bs[0] in bs && ss[0] in ss;
    OpenPairIsNew(m, bs[0], ss[0]);
    ExecuteKeepsSync(m, bs, ss);
    var m1 := Execute(m, bs[0], ss[0]).0;
    NextIds(bs, q, bs[0].id);
    NextIds(ss, q, ss[0].id);
    NotAcross(m1, Next(bs, q), Next(ss, q), bs[0].id, ss[0].id);
    if Reduce(bs[0], q).status == Filled {
      CrossFrame(m1, Next(bs, q), Next(ss, q), bs[0].id);
    }
    if Reduce(ss[0], q).status == Filled {
      CrossFrame(m1, Next(bs, q), Next(ss, q), ss[0].id);
    }
  }

  /** Buy orders are not on the sell list, nor sell orders on the buy list. */
  lemma NotAcross(m: Store, bs: seq<Order>, ss: seq<Order>, buyId: string, sellId: string)
    requires Synced(m, bs, Buy) && Synced(m, ss, Sell)
    requires buyId in m.orders && m.orders[buyId].side == Buy
    requires sellId in m.orders && m.orders[sellId].side == Sell
    ensures !HasId(ss, buyId) && !HasId(bs, sellId)
  {
  }

  /** What matching leaves in the store is the outcome proved optimal for the two lists: every
      listed order with its final amount and status. */
  lemma {:induction false} CrossIsMatch(m: Store, bs: seq<Order>, ss: seq<Order>)
    requires Ready(m, bs, ss)
    ensures HoldsFinals(Cross(m, bs, ss).0, Match(bs, ss).buys)
    ensures HoldsFinals(Cross(m, bs, ss).0, Match(bs, ss).sells)
    decreases |bs| + |ss|
  {
    if Crossing(bs, ss) {
      assert bs[0] in bs && ss[0] in ss;
      OpenPairIsNew(m, bs[0], ss[0]);
      ExecuteKeepsSync(m, bs, ss);
      NextKeepsBook(bs, ss);
      var q := Quantity(bs[0], ss[0]);
      CrossIsMatch(Execute(m, bs[0], ss[0]).0, Next(bs, q), Next(ss, q));
      FilledHeadStays(m, bs, ss);
      var m' := Cross(m, bs, ss).0;
      var rest := Match(Next(bs, q), Next(ss, q));
      FinalsConcat(m', IfFilled(Reduce(bs[0], q)), rest.buys);
      FinalsConcat(m', IfFilled(Reduce(ss[0], q)), rest.sells);
    }
  }

  lemma FinalsConcat(m: Store, a: seq<Order>, b: seq<Order>)
    requires HoldsFinals(m, a) && HoldsFinals(m, b)
    ensures HoldsFinals(m, a + b)
  {
  }

  // ---------- Runs over blocks ----------

  /** The lists ProcessOrderMatching builds: all open orders of each side, sorted by price, ties in
      any order. */
  ghost predicate IsBook(m: Store, bs: seq<Order>, ss: seq<Order>) {
    && Book(bs, ss) && DistinctIds(bs) && DistinctIds(ss)
    && Synced(m, bs, Buy) && Synced(m, ss, Sell)
    && (forall id :: id in m.orders && m.orders[id].status == Open ==>
          if m.orders[id].side == Buy then m.orders[id] in bs else m.orders[id] in ss)
  }

  datatype Step =
    | Place(order: Order)
    | Cancel(id: string)
    | MatchBlock(bs: seq<Order>, ss: seq<Order>)

  /** SetOrder through PlaceOrder: a new, open, valid order under an unused id. */
  predicate Placeable(m: Store, o: Order) {
    o.owner != "" && o.identityHash != "" && o.id !in m.orders && o.status == Open
  }

  function Apply(m: Store, step: Step): Store {
    match step
    case Place(o) => if Placeable(m, o) then m.(orders := m.orders[o.id := o]) else m
    case Cancel(id) =>
      if id in m.orders then m.(orders := m.orders[id := m.orders[id].(status := Cancelled)]) else m
    case MatchBlock(bs, ss) => Cross(m, bs, ss).0
  }

  function Run(steps: seq<Step>): Store {
    if steps == [] then Store(map[], map[])
    else Apply(Run(steps[..|steps| - 1]), steps[|steps| - 1])
  }

  /** The amount each accepted order was placed with. */
  function Placed(steps: seq<Step>): map<string, int> {
    if steps == [] then map[]
    else
      var before := Placed(steps[..|steps| - 1]);
      match steps[|steps| - 1]
      case Place(o) =>
        if Placeable(Run(steps[..|steps| - 1]), o) then before[o.id := o.amount] else before
      case _ => before
  }

  /** Every matching step matches the book its block starts with. */
  ghost predicate BooksMatch(steps: seq<Step>) {
    steps != [] ==>
      && BooksMatch(steps[..|steps| - 1])
      && (steps[|steps| - 1].MatchBlock? ==>
            IsBook(Run(steps[..|steps| - 1]), steps[|steps| - 1].bs, steps[|steps| - 1].ss))
  }

  lemma PlaceKeepsAccounts(m: Store, o: Order, placed: map<string, int>)
    requires Consistent(m) && Accounted(m, placed) && Placeable(m, o)
    ensures Consistent(Apply(m, Place(o))) && Accounted(Apply(m, Place(o)), placed[o.id := o.amount])
  {
    var m' := Apply(m, Place(o));
    TotalByZero(m.trades, QtyFor(o.id));
    forall id | id in placed ensures m'.orders[id] == m.orders[id] && TradedBy(m', id) == TradedBy(m, id) {
    }
  }

  lemma CancelKeepsAccounts(m: Store, id: string, placed: map<string, int>)
    requires Consistent(m) && Accounted(m, placed)
    ensures Consistent(Apply(m, Cancel(id))) && Accounted(Apply(m, Cancel(id)), placed)
  {
    var m' := Apply(m, Cancel(id));
    forall k | k in placed ensures m'.orders[k].amount == m.orders[k].amount && TradedBy(m', k) == TradedBy(m, k) {
    }
  }

  /** Every order placed has its id in the set of its side. */
  ghost predicate PlacesWithin(steps: seq<Step>, buys: set<string>, sells: set<string>) {
    forall i :: 0 <= i < |steps| && steps[i].Place? ==>
      if steps[i].order.side == Buy then steps[i].order.id in buys else steps[i].order.id in sells
  }

  /** Over any run of placing, cancelling and matching, with ids whose pairs the trade ids tell apart:
      every order's placed amount is what it still asks for plus the sum of its trades, and matching
      never fails. */
  lemma {:induction false} RunAccounted(steps: seq<Step>, buys: set<string>, sells: set<string>)
    requires BooksMatch(steps)
    requires PlacesWithin(steps, buys, sells) && PairsApart(buys, sells)
    ensures Consistent(Run(steps)) && Accounted(Run(steps), Placed(steps)) && Within(Run(steps), buys, sells)
    ensures steps != [] && steps[|steps| - 1].MatchBlock? ==>
      Cross(Run(steps[..|steps| - 1]), steps[|steps| - 1].bs, steps[|steps| - 1].ss).1
  {
    if steps != [] {
      var init := steps[..|steps| - 1];
      var m := Run(init);
      RunAccounted(init, buys, sells);
      assert Separable(m);
      match steps[|steps| - 1] {
        case Place(o) =>
          if Placeable(m, o) {
            PlaceKeepsAccounts(m, o, Placed(init));
          }
        case Cancel(id) => CancelKeepsAccounts(m, id, Placed(init));
        case MatchBlock(bs, ss) => CrossKeepsAccounts(m, bs, ss, Placed(init));
      }
    }
  }

  /** On such a run no matching step ever fails on a trade that already exists: a pair of orders
      trades at most once, however many blocks pass. */
  lemma MatchingNeverRepeats(steps: seq<Step>, i: nat, buys: set<string>, sells: set<string>)
    requires BooksMatch(steps)
    requires PlacesWithin(steps, buys, sells) && PairsApart(buys, sells)
    requires i < |steps| && steps[i].MatchBlock?
    ensures Cross(Run(steps[..i]), steps[i].bs, steps[i].ss).1
  {
    PrefixOfRun(steps, i + 1);
    RunAccounted(steps[..i + 1], buys, sells);
    assert steps[..i + 1][..i] == steps[..i];
  }

  lemma {:induction false} PrefixOfRun(steps: seq<Step>, i: nat)
    requires i <= |steps| && BooksMatch(steps)
    ensures BooksMatch(steps[..i])
  {
    if i == |steps| {
      assert steps[..i] == steps;
    } else {
      PrefixOfRun(steps[..|steps| - 1], i);
      assert steps[..|steps| - 1][..i] == steps[..i];
    }
  }

  // ---------- Exactly which ids are safe ----------

  /** Every run over these ids accounts for every order. */
  ghost predicate AlwaysAccounted(buys: set<string>, sells: set<string>) {
    forall steps :: BooksMatch(steps) && PlacesWithin(steps, buys, sells) ==> Accounted(Run(steps), Placed(steps))
  }

  /** Runs over given buy ids and sell ids account for every order if and only if no two pairs of them
      share a trade id. */
  lemma AccountedExactly(buys: set<string>, sells: set<string>)
    requires buys !! sells
    ensures AlwaysAccounted(buys, sells) <==> PairsApart(buys, sells)
  {
    if PairsApart(buys, sells) {
      forall steps | BooksMatch(steps) && PlacesWithin(steps, buys, sells)
        ensures Accounted(Run(steps), Placed(steps))
      {
        RunAccounted(steps, buys, sells);
      }
    } else {
      var b1, s1, b2, s2 :|
        b1 in buys && s1 in sells && b2 in buys && s2 in sells && TradeId(b1, s1) == TradeId(b2, s2)
        && !(b1 == b2 && s1 == s2);
      TradeIdCancels(b1, s1, b2, s2);
      SharedTradeIdLosesTrade(b1, s1, b2, s2);
      assert PlacesWithin(Colliding(b1, s1, b2, s2), buys, sells);
    }
  }

  lemma TradeIdCancels(b1: string, s1: string, b2: string, s2: string)
    requires TradeId(b1, s1) == TradeId(b2, s2)
    ensures b1 == b2 ==> s1 == s2
    ensures s1 == s2 ==> b1 == b2
  {
    if b1 == b2 {
      DropHead("trade_" + b1 + "_", s1, s2);
    } else if s1 == s2 {
      var tail := "_" + s1;
      assert TradeId(b1, s1) == ("trade_" + b1) + tail && TradeId(b2, s2) == ("trade_" + b2) + tail;
      var x, y := "trade_" + b1, "trade_" + b2;
      assert x == (x + tail)[..|x|] && y == (y + tail)[..|y|];
      DropHead("trade_", b1, b2);
    }
  }

  function Offer(id: string, side: Side): Order {
    Order(id, "o", side, 1, 5, Open, "h")
  }

  /** Two pairs placed and matched one after the other. */
  function Colliding(b1: string, s1: string, b2: string, s2: string): seq<Step> {
    OnePair(b1, s1) + [Place(Offer(b2, Buy))] + [Place(Offer(s2, Sell))]
    + [MatchBlock([Offer(b2, Buy)], [Offer(s2, Sell)])]
  }

  function OnePair(b1: string, s1: string): seq<Step> {
    [] + [Place(Offer(b1, Buy))] + [Place(Offer(s1, Sell))] + [MatchBlock([Offer(b1, Buy)], [Offer(s1, Sell)])]
  }

  /** With a shared trade id the second pair is filled without a trade on record. */
  lemma SharedTradeIdLosesTrade(b1: string, s1: string, b2: string, s2: string)
    requires TradeId(b1, s1) == TradeId(b2, s2)
    requires b1 != b2 && s1 != s2 && b1 != s1 && b1 != s2 && b2 != s1 && b2 != s2
    ensures var steps := Colliding(b1, s1, b2, s2);
      && BooksMatch(steps) && !Accounted(Run(steps), Placed(steps))
      && b2 in Run(steps).orders && Run(steps).orders[b2].status == Filled && TradedBy(Run(steps), b2) == 0
  {
    var first, steps := OnePair(b1, s1), Colliding(b1, s1, b2, s2);
    PairTrades([], Store(map[], map[]), b1, s1);
    var m := Run(first);
    PairTrades(first, m, b2, s2);
    TotalByZero(m.trades, QtyFor(b2));
    assert Placed(steps)[b2] == 5;
  }

  /** A pair placed into a store without open orders is a book and is filled, whether or not its trade
      can be recorded. */
  lemma PairTrades(before: seq<Step>, m: Store, b: string, s: string)
    requires Run(before) == m && BooksMatch(before)
    requires forall id :: id in m.orders ==> m.orders[id].id == id && m.orders[id].status != Open
    requires b !in m.orders && s !in m.orders && b != s
    ensures var steps := before + [Place(Offer(b, Buy))] + [Place(Offer(s, Sell))]
        + [MatchBlock([Offer(b, Buy)], [Offer(s, Sell)])];
      && BooksMatch(steps)
      && Run(steps).orders == m.orders[b := Offer(b, Buy).(amount := 0, status := Filled)]
                                      [s := Offer(s, Sell).(amount := 0, status := Filled)]
      && Run(steps).trades == (if TradeId(b, s) in m.trades then m.trades
                               else m.trades[TradeId(b, s) := TradeOf(Offer(b, Buy), Offer(s, Sell))])
      && b in Placed(steps) && Placed(steps)[b] == 5
  {
    var x, y := Offer(b, Buy), Offer(s, Sell);
    var two := before + [Place(x)] + [Place(y)];
    PairPlaced(before, m, b, s);
    RunSnoc(two, MatchBlock([x], [y]));
    PairIsBook(Run(two), b, s);
    PairCrosses(Run(two), x, y);
  }

  lemma PairPlaced(before: seq<Step>, m: Store, b: string, s: string)
    requires Run(before) == m && BooksMatch(before)
    requires b !in m.orders && s !in m.orders && b != s
    ensures var two := before + [Place(Offer(b, Buy))] + [Place(Offer(s, Sell))];
      && BooksMatch(two) && Run(two) == m.(orders := m.orders[b := Offer(b, Buy)][s := Offer(s, Sell)])
      && b in Placed(two) && Placed(two)[b] == 5
  {
    RunSnoc(before, Place(Offer(b, Buy)));
    RunSnoc(before + [Place(Offer(b, Buy))], Place(Offer(s, Sell)));
  }

  lemma RunSnoc(steps: seq<Step>, step: Step)
    ensures Run(steps + [step]) == Apply(Run(steps), step)
    ensures BooksMatch(steps + [step]) <==>
      BooksMatch(steps) && (step.MatchBlock? ==> IsBook(Run(steps), step.bs, step.ss))
    ensures Placed(steps + [step])
      == if step.Place? && Placeable(Run(steps), step.order) then Placed(steps)[step.order.id := step.order.amount]
         else Placed(steps)
  {
    assert (steps + [step])[..|steps|] == steps;
  }

  lemma PairIsBook(m: Store, b: string, s: string)
    requires b in m.orders && s in m.orders && m.orders[b] == Offer(b, Buy) && m.orders[s] == Offer(s, Sell)
    requires forall id :: id in m.orders && m.orders[id].status == Open ==> id == b || id == s
    ensures IsBook(m, [Offer(b, Buy)], [Offer(s, Sell)])
  {
  }

  lemma PairCrosses(m: Store, x: Order, y: Order)
    requires x.status == Open && y.status == Open && x.price >= y.price && x.amount == y.amount
    ensures Cross(m, [x], [y]) == Execute(m, x, y)
  {
    assert Next([x], x.amount) == [] && Next([y], x.amount) == [];
  }

  // ---------- Which ids are separable ----------

  predicate NoUnderscore(s: string) {
    forall i :: 0 <= i < |s| ==> s[i] != '_'
  }

  /** generateOrderID: owner and creation second. */
  function OrderId(owner: string, second: nat): string {
    "order_" + owner + "_" + FormatUint(second)
  }

  ghost predicate Generated(id: string) {
    exists owner, second: nat :: NoUnderscore(owner) && id == OrderId(owner, second)
  }

  lemma SplitAtUnderscore(a: string, x: string, b: string, y: string)
    requires NoUnderscore(a) && NoUnderscore(b)
    requires a + "_" + x == b + "_" + y
    ensures a == b && x == y
  {
    var s := a + "_" + x;
    assert s[|a|] == '_' && s[|b|] == '_';
    assert forall k :: 0 <= k < |a| ==> s[k] == a[k];
    assert forall k :: 0 <= k < |b| ==> s[k] == b[k];
    assert a == s[..|a|] && b == s[..|b|];
    assert x == s[|a| + 1..] && y == s[|b| + 1..];
  }

  lemma TradeIdForm(owner: string, second: nat, sellId: string)
    ensures TradeId(OrderId(owner, second), sellId)
      == "trade_order_" + (owner + "_" + (FormatUint(second) + "_" + sellId))
  {
    var f := FormatUint(second);
    assert "trade_" + "order_" == "trade_order_";
    assert TradeId(OrderId(owner, second), sellId) == "trade_" + "order_" + owner + "_" + f + "_" + sellId;
  }

  lemma GeneratedPairs(o1: string, t1: nat, s1: string, o2: string, t2: nat, s2: string)
    requires NoUnderscore(o1) && NoUnderscore(o2)
    requires TradeId(OrderId(o1, t1), s1) == TradeId(OrderId(o2, t2), s2)
    ensures OrderId(o1, t1) == OrderId(o2, t2) && s1 == s2
  {
    var f1, f2 := FormatUint(t1), FormatUint(t2);
    FormatUintValue(t1);
    FormatUintValue(t2);
    TradeIdForm(o1, t1, s1);
    TradeIdForm(o2, t2, s2);
    var x1, x2 := o1 + "_" + (f1 + "_" + s1), o2 + "_" + (f2 + "_" + s2);
    DropHead("trade_order_", x1, x2);
    SplitAtUnderscore(o1, f1 + "_" + s1, o2, f2 + "_" + s2);
    SplitAtUnderscore(f1, s1, f2, s2);
  }

  lemma DropHead(head: string, x: string, y: string)
    requires head + x == head + y
    ensures x == y
  {
    assert (head + x)[|head|..] == x && (head + y)[|head|..] == y;
  }

  /** Ids generated from owners without an underscore (addresses) are safe. */
  lemma GeneratedIdsSeparable(buys: set<string>, sells: set<string>)
    requires forall id :: id in buys ==> Generated(id)
    ensures PairsApart(buys, sells)
  {
    forall b1, s1, b2, s2 |
      b1 in buys && s1 in sells && b2 in buys && s2 in sells && TradeId(b1, s1) == TradeId(b2, s2)
      ensures b1 == b2 && s1 == s2
    {
      assert Generated(b1) && Generated(b2);
      var o1, t1: nat :| NoUnderscore(o1) && b1 == OrderId(o1, t1);
      var o2, t2: nat :| NoUnderscore(o2) && b2 == OrderId(o2, t2);
      GeneratedPairs(o1, t1, s1, o2, t2, s2);
    }
  }

  /** Other ids need not be: "a" with "b_c" and "a_b" with "c" share a trade id. */
  lemma UnderscoresCollide()
    ensures !PairsApart({"a", "a_b"}, {"c", "b_c"})
    ensures !AlwaysAccounted({"a", "a_b"}, {"c", "b_c"})
  {
    assert TradeId("a", "b_c") == "trade_a_b_c" && TradeId("a_b", "c") == "trade_a_b_c";
    assert |"a"| == 1 && |"a_b"| == 3 && |"c"| == 1 && |"b_c"| == 3;
    assert "a"[0] != "c"[0] && "a_b"[0] != "b_c"[0];
    AccountedExactly({"a", "a_b"}, {"c", "b_c"});
  }
}
