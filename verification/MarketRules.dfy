/** What placing and cancelling orders does, and what a cancelled order is safe from. */
module MarketRules {
  import opened Wrappers
  import opened Sums
  import opened Matching
  import opened Market

  /** An order is stored if and only if its id is new, owner and identity are given, and it is open; the
      store is otherwise untouched. */
  lemma PlaceExactly(m: Store, o: Order)
    ensures Apply(m, Place(o)).trades == m.trades
    ensures Apply(m, Place(o)).orders ==
      if o.id !in m.orders && o.owner != "" && o.identityHash != "" && o.status == Open then m.orders[o.id := o]
      else m.orders
  {
  }

  /** Cancelling closes the stored order, whatever its state, and touches nothing else. */
  lemma CancelExactly(m: Store, id: string, k: string)
    ensures Apply(m, Cancel(id)).trades == m.trades && Apply(m, Cancel(id)).orders.Keys == m.orders.Keys
    ensures k in m.orders ==>
      Apply(m, Cancel(id)).orders[k] == if k == id then m.orders[k].(status := Cancelled) else m.orders[k]
  {
  }

  /** Matching leaves an order alone that is on neither list, even when it stops on an error. */
  lemma {:induction false} CrossLeaves(m: Store, bs: seq<Order>, ss: seq<Order>, id: string)
    requires AllOpen(bs) && AllOpen(ss) && !HasId(bs, id) && !HasId(ss, id) && id in m.orders
    ensures id in Cross(m, bs, ss).0.orders && Cross(m, bs, ss).0.orders[id] == m.orders[id]
    ensures TradedBy(Cross(m, bs, ss).0, id) == TradedBy(m, id)
    decreases |bs| + |ss|
  {
    if Crossing(bs, ss) {
      var q := Quantity(bs[0], ss[0]);
      assert bs[0].id != id && ss[0].id != id;
      ExecuteLeaves(m, bs[0], ss[0], id);
      if Execute(m, bs[0], ss[0]).1 {
        NextKeepsOpen(bs, q);
        NextKeepsOpen(ss, q);
        NextIds(bs, q, id);
        NextIds(ss, q, id);
        CrossLeaves(Execute(m, bs[0], ss[0]).0, Next(bs, q), Next(ss, q), id);
      }
    }
  }

  lemma ExecuteLeaves(m: Store, b: Order, s: Order, id: string)
    requires b.id != id && s.id != id && id in m.orders
    ensures id in Execute(m, b, s).0.orders && Execute(m, b, s).0.orders[id] == m.orders[id]
    ensures TradedBy(Execute(m, b, s).0, id) == TradedBy(m, id)
  {
    if TradeId(b.id, s.id) !in m.trades {
      TotalByInsert(m.trades, QtyFor(id), TradeId(b.id, s.id), TradeOf(b, s));
    }
  }

  /** No book lists an order that is not open. */
  lemma ClosedIsUnlisted(m: Store, bs: seq<Order>, ss: seq<Order>, id: string)
    requires IsBook(m, bs, ss) && id in m.orders && m.orders[id].status != Open
    ensures !HasId(bs, id) && !HasId(ss, id)
  {
    forall i | 0 <= i < |bs| ensures bs[i].id != id {
      assert bs[i] in bs;
    }
    forall i | 0 <= i < |ss| ensures ss[i].id != id {
      assert ss[i] in ss;
    }
  }

  /** Once cancelled an order never trades again: on every later run its amount and its trades stay as they
      were, and nobody can place another under its id. */
  lemma {:induction false} CancelledStays(steps: seq<Step>, i: nat, id: string)
    requires BooksMatch(steps) && i < |steps| && steps[i] == Cancel(id) && id in Run(steps[..i]).orders
    ensures id in Run(steps).orders
    ensures Run(steps).orders[id] == Run(steps[..i]).orders[id].(status := Cancelled)
    ensures TradedBy(Run(steps), id) == TradedBy(Run(steps[..i]), id)
  {
    var init := steps[..|steps| - 1];
    var m := Run(init);
    if i == |steps| - 1 {
      CancelExactly(m, id, id);
    } else {
      assert init[..i] == steps[..i] && init[i] == steps[i];
      CancelledStays(init, i, id);
      match steps[|steps| - 1] {
        case Place(o) => PlaceExactly(m, o);
        case Cancel(k) => CancelExactly(m, k, id);
        case MatchBlock(bs, ss) =>
          ClosedIsUnlisted(m, bs, ss, id);
          CrossLeaves(m, bs, ss, id);
      }
    }
  }
}
