/** The matching engine in the form of the source: order objects loaded from the store, two lists of
    them sorted and re-sliced, amounts and statuses overwritten trade by trade. */
module EconomicEngine {
  import opened Matching
  import opened Market

  /** A loaded order; the fields matching overwrites are mutable. */
  class OrderRef {
    const id: string
    const owner: string
    const side: Side
    const price: int
    const identityHash: string
    var amount: int
    var status: Status

    constructor (o: Order)
      ensures Current() == o
    {
      id, owner, side, price, identityHash := o.id, o.owner, o.side, o.price, o.identityHash;
      amount, status := o.amount, o.status;
    }

    function Current(): Order
      reads this
    {
      Order(id, owner, side, price, amount, status, identityHash)
    }
  }

  ghost function Values(os: seq<OrderRef>): (vs: seq<Order>)
    reads os
    ensures |vs| == |os|
  {
    seq(|os|, i requires 0 <= i < |os| reads os => os[i].Current())
  }

  ghost predicate Distinct(os: seq<OrderRef>) {
    forall i, j :: 0 <= i < j < |os| ==> os[i] != os[j]
  }

  ghost predicate Apart(bs: seq<OrderRef>, ss: seq<OrderRef>) {
    Distinct(bs) && Distinct(ss) && forall i, j :: 0 <= i < |bs| && 0 <= j < |ss| ==> bs[i] != ss[j]
  }

  predicate Before(a: OrderRef, b: OrderRef, descending: bool) {
    if descending then a.price > b.price else a.price < b.price
  }

  ghost predicate SortedBy(os: seq<OrderRef>, descending: bool) {
    forall i, j :: 0 <= i < j < |os| ==> !Before(os[j], os[i], descending)
  }

  /** One of the orders sort.Slice may produce; ties may come out in any order. */
  method Sort(os: seq<OrderRef>, descending: bool) returns (sorted: seq<OrderRef>)
    requires Distinct(os)
    ensures SortedBy(sorted, descending) && Distinct(sorted)
    ensures forall o :: o in sorted <==> o in os
  {
    sorted := [];
    for i := 0 to |os|
      invariant SortedBy(sorted, descending) && Distinct(sorted)
      invariant forall o :: o in sorted <==> o in os[..i]
    {
      var o := os[i];
      var k := 0;
      while k < |sorted| && !Before(o, sorted[k], descending)
        invariant 0 <= k <= |sorted|
        invariant forall j :: 0 <= j < k ==> !Before(o, sorted[j], descending)
      {
        k := k + 1;
      }
      assert o !in os[..i];
      assert os[..i + 1] == os[..i] + [o];
      sorted := sorted[..k] + [o] + sorted[k..];
    }
    assert os[..|os|] == os;
  }

  /** The object holds what the store has under its id. */
  ghost predicate IsStored(m: Store, o: OrderRef)
    reads o
  {
    o.id in m.orders && o.Current() == m.orders[o.id]
  }

  ghost predicate HasRef(os: seq<OrderRef>, id: string) {
    exists i :: 0 <= i < |os| && os[i].id == id
  }

  /** Exactly the stored orders, each loaded once. */
  ghost predicate Loaded(m: Store, orders: seq<OrderRef>)
    reads orders
  {
    && (forall i :: 0 <= i < |orders| ==> IsStored(m, orders[i]))
    && (forall i, j :: 0 <= i < j < |orders| ==> orders[i].id != orders[j].id)
    && (forall id :: id in m.orders ==> HasRef(orders, id))
  }

  class MatchingEngine {
    var buyOrders: seq<OrderRef>
    var sellOrders: seq<OrderRef>

    constructor ()
      ensures buyOrders == [] && sellOrders == []
    {
      buyOrders, sellOrders := [], [];
    }
  }

  class EconomicEngine {
    var store: Store

    constructor ()
      ensures store == Store(map[], map[])
    {
      store := Store(map[], map[]);
    }

    /** The order part of executeTrade. */
    method ExecuteTrade(buy: OrderRef, sell: OrderRef) returns (ok: bool)
      requires buy != sell
      modifies this, buy, sell
      ensures (store, ok) == Execute(old(store), old(buy.Current()), old(sell.Current()))
      ensures buy.Current() == Reduce(old(buy.Current()), Quantity(old(buy.Current()), old(sell.Current())))
      ensures sell.Current() == Reduce(old(sell.Current()), Quantity(old(buy.Current()), old(sell.Current())))
    {
      var quantity := buy.amount;
      if sell.amount < buy.amount {
        quantity := sell.amount;
      }
      var trade := Trade(buy.id, sell.id, buy.owner, sell.owner, quantity, sell.price);
      var newBuy, newSell := buy.amount - quantity, sell.amount - quantity;
      buy.amount := newBuy;
      sell.amount := newSell;
      if newBuy == 0 {
        buy.status := Filled;
      }
      if newSell == 0 {
        sell.status := Filled;
      }
      store := store.(orders := store.orders[buy.id := buy.Current()]);
      store := store.(orders := store.orders[sell.id := sell.Current()]);
      var tid := TradeId(buy.id, sell.id);
      if tid in store.trades {
        return false;
      }
      store := store.(trades := store.trades[tid := trade]);
      return true;
    }

    /** One trade of the two list heads; filled orders are cut off their list. */
    method TradeHeads(engine: MatchingEngine) returns (ok: bool)
      requires Apart(engine.buyOrders, engine.sellOrders)
      requires engine.buyOrders != [] && engine.sellOrders != []
      modifies this, engine, engine.buyOrders[0], engine.sellOrders[0]
      ensures (store, ok)
        == Execute(old(store), old(engine.buyOrders[0].Current()), old(engine.sellOrders[0].Current()))
      ensures var q := Quantity(old(engine.buyOrders[0].Current()), old(engine.sellOrders[0].Current()));
        ok ==>
        && Values(engine.buyOrders) == Next(old(Values(engine.buyOrders)), q)
        && Values(engine.sellOrders) == Next(old(Values(engine.sellOrders)), q)
      ensures engine.buyOrders == old(engine.buyOrders) || engine.buyOrders == old(engine.buyOrders)[1..]
      ensures engine.sellOrders == old(engine.sellOrders) || engine.sellOrders == old(engine.sellOrders)[1..]
    {
      var bs, ss := engine.buyOrders, engine.sellOrders;
      var buy, sell := bs[0], ss[0];
      ghost var q := Quantity(buy.Current(), sell.Current());
      ok := ExecuteTrade(buy, sell);
      if !ok {
        return;
      }
      assert forall i :: 0 < i < |bs| ==> bs[i] != buy && bs[i] != sell;
      assert forall i :: 0 < i < |ss| ==> ss[i] != buy && ss[i] != sell;
      if buy.status == Filled {
        engine.buyOrders := engine.buyOrders[1..];
      }
      if sell.status == Filled {
        engine.sellOrders := engine.sellOrders[1..];
      }
      assert Values(engine.buyOrders) == Next(old(Values(engine.buyOrders)), q);
      assert Values(engine.sellOrders) == Next(old(Values(engine.sellOrders)), q);
    }

    method ExecuteMatching(engine: MatchingEngine) returns (ok: bool)
      requires Apart(engine.buyOrders, engine.sellOrders)
      modifies this, engine, engine.buyOrders, engine.sellOrders
      ensures (store, ok) == Cross(old(store), old(Values(engine.buyOrders)), old(Values(engine.sellOrders)))
    {
      ghost var all := engine.buyOrders + engine.sellOrders;
      ghost var result := Cross(store, Values(engine.buyOrders), Values(engine.sellOrders));
      while |engine.buyOrders| > 0 && |engine.sellOrders| > 0
        modifies this, engine, all
        invariant Apart(engine.buyOrders, engine.sellOrders)
        invariant forall o :: o in engine.buyOrders || o in engine.sellOrders ==> o in all
        invariant Cross(store, Values(engine.buyOrders), Values(engine.sellOrders)) == result
        decreases |Values(engine.buyOrders)| + |Values(engine.sellOrders)|
      {
        ghost var bvs, svs := Values(engine.buyOrders), Values(engine.sellOrders);
        assert engine.buyOrders[0] in engine.buyOrders && engine.sellOrders[0] in engine.sellOrders;
        if engine.buyOrders[0].price < engine.sellOrders[0].price {
          break;
        }
        assert Crossing(bvs, svs);
        var traded := TradeHeads(engine);
        if !traded {
          return false;
        }
      }
      return true;
    }

    /** GetAllOrders: every stored order as a fresh object, in whatever order the store iterates. */
    method GetAllOrders() returns (orders: seq<OrderRef>)
      requires Consistent(store)
      ensures fresh(orders) && Loaded(store, orders)
    {
      orders := [];
      var rest := store.orders.Keys;
      while rest != {}
        invariant rest <= store.orders.Keys
        invariant fresh(orders)
        invariant forall i :: 0 <= i < |orders| ==> IsStored(store, orders[i]) && orders[i].id !in rest
        invariant forall i, j :: 0 <= i < j < |orders| ==> orders[i].id != orders[j].id
        invariant forall id :: id in store.orders ==> id in rest || HasRef(orders, id)
        decreases rest
      {
        var id :| id in rest;
        var o := new OrderRef(store.orders[id]);
        ghost var was := orders;
        orders := orders + [o];
        rest := rest - {id};
        assert orders[|was|] == o && o.id == id;
        forall k | k in store.orders ensures k in rest || HasRef(orders, k) {
          if k != id && HasRef(was, k) {
            var i :| 0 <= i < |was| && was[i].id == k;
            assert orders[i].id == k;
          }
        }
      }
    }

    /** The two sorted lists of open orders. */
    method LoadBook(orders: seq<OrderRef>, engine: MatchingEngine)
      requires Loaded(store, orders) && engine.buyOrders == [] && engine.sellOrders == []
      modifies engine
      ensures Apart(engine.buyOrders, engine.sellOrders)
      ensures forall o :: o in engine.buyOrders || o in engine.sellOrders ==> o in orders
      ensures IsBook(store, Values(engine.buyOrders), Values(engine.sellOrders))
    {
      Separate(orders, engine);
      var bs := Sort(engine.buyOrders, true);
      var ss := Sort(engine.sellOrders, false);
      SideReordered(orders, engine.buyOrders, bs, Buy);
      SideReordered(orders, engine.sellOrders, ss, Sell);
      BookOfRefs(store, orders, bs, ss);
      engine.buyOrders, engine.sellOrders := bs, ss;
    }

    method Separate(orders: seq<OrderRef>, engine: MatchingEngine)
      requires Distinct(orders) && engine.buyOrders == [] && engine.sellOrders == []
      modifies engine
      ensures SideOf(orders, engine.buyOrders, Buy) && SideOf(orders, engine.sellOrders, Sell)
    {
      for k := 0 to |orders|
        invariant SideOf(orders[..k], engine.buyOrders, Buy)
        invariant SideOf(orders[..k], engine.sellOrders, Sell)
      {
        var order := orders[k];
        assert order !in orders[..k] && orders[..k + 1] == orders[..k] + [order];
        if order.status == Open {
          match order.side
          case Buy => engine.buyOrders := engine.buyOrders + [order];
          case Sell => engine.sellOrders := engine.sellOrders + [order];
        }
      }
      assert orders[..|orders|] == orders;
    }

    method ProcessOrderMatching() returns (ok: bool)
      requires Consistent(store)
      modifies this
      ensures exists bs, ss :: IsBook(old(store), bs, ss) && (store, ok) == Cross(old(store), bs, ss)
    {
      var orders := GetAllOrders();
      var engine := new MatchingEngine();
      LoadBook(orders, engine);
      assert forall i :: 0 <= i < |engine.buyOrders| ==> engine.buyOrders[i] in engine.buyOrders;
      assert forall i :: 0 <= i < |engine.sellOrders| ==> engine.sellOrders[i] in engine.sellOrders;
      ghost var bs, ss := Values(engine.buyOrders), Values(engine.sellOrders);
      ok := ExecuteMatching(engine);
      assert IsBook(old(store), bs, ss) && (store, ok) == Cross(old(store), bs, ss);
    }
  }

  /** One side of the loaded open orders, each once. */
  ghost predicate SideOf(orders: seq<OrderRef>, os: seq<OrderRef>, side: Side)
    reads orders, os
  {
    && Distinct(os)
    && (forall o :: o in os ==> o in orders && o.status == Open && o.side == side)
    && (forall o :: o in orders ==> o.status == Open && o.side == side ==> o in os)
  }

  lemma SideReordered(orders: seq<OrderRef>, os: seq<OrderRef>, sorted: seq<OrderRef>, side: Side)
    requires SideOf(orders, os, side) && Distinct(sorted)
    requires forall o :: o in sorted <==> o in os
    ensures SideOf(orders, sorted, side)
  {
  }

  lemma SideIsSynced(m: Store, orders: seq<OrderRef>, os: seq<OrderRef>, side: Side)
    requires Loaded(m, orders) && SideOf(orders, os, side)
    ensures Synced(m, Values(os), side) && AllOpen(Values(os)) && DistinctIds(Values(os))
  {
    forall i | 0 <= i < |os| ensures IsStored(m, os[i]) && os[i].side == side && os[i].status == Open {
      assert os[i] in os;
      var k :| 0 <= k < |orders| && orders[k] == os[i];
    }
    forall i, j | 0 <= i < j < |os| ensures os[i].id != os[j].id {
      assert os[i] in os && os[j] in os;
      var a :| 0 <= a < |orders| && orders[a] == os[i];
      var b :| 0 <= b < |orders| && orders[b] == os[j];
      assert a != b;
    }
  }

  lemma SideIsComplete(m: Store, orders: seq<OrderRef>, os: seq<OrderRef>, side: Side, id: string)
    requires Loaded(m, orders) && SideOf(orders, os, side)
    requires id in m.orders && m.orders[id].status == Open && m.orders[id].side == side
    ensures m.orders[id] in Values(os)
  {
    var i :| 0 <= i < |orders| && orders[i].id == id;
    assert IsStored(m, orders[i]);
    assert orders[i] in orders && orders[i] in os;
    var k :| 0 <= k < |os| && os[k] == orders[i];
    assert Values(os)[k] == m.orders[id];
  }

  /** The sorted lists of loaded open orders are a book of the store. */
  lemma BookOfRefs(m: Store, orders: seq<OrderRef>, bs: seq<OrderRef>, ss: seq<OrderRef>)
    requires Loaded(m, orders)
    requires SortedBy(bs, true) && SideOf(orders, bs, Buy)
    requires SortedBy(ss, false) && SideOf(orders, ss, Sell)
    ensures IsBook(m, Values(bs), Values(ss)) && Apart(bs, ss)
  {
    SideIsSynced(m, orders, bs, Buy);
    SideIsSynced(m, orders, ss, Sell);
    assert forall i, j :: 0 <= i < j < |bs| ==> !Before(bs[j], bs[i], true);
    assert forall i, j :: 0 <= i < j < |ss| ==> !Before(ss[j], ss[i], false);
    forall id | id in m.orders && m.orders[id].status == Open
      ensures if m.orders[id].side == Buy then m.orders[id] in Values(bs) else m.orders[id] in Values(ss)
    {
      if m.orders[id].side == Buy {
        SideIsComplete(m, orders, bs, Buy, id);
      } else {
        SideIsComplete(m, orders, ss, Sell, id);
      }
    }
    forall i, j | 0 <= i < |bs| && 0 <= j < |ss| ensures bs[i] != ss[j] {
      assert bs[i] in bs && ss[j] in ss;
    }
  }
}
