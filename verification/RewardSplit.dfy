/** Distribution of one block subsidy over the activated LZN: integer shares in uint64, cut by the
    MOA penalty, the rest going to the first fully compliant validator. */
module RewardSplit {
  import opened Arithmetic
  import opened Wrappers
  import opened Decimal
  import opened Sums

  /** MOA thresholds as parsed, zero standing for the built-in defaults; compliance is a ratio. */
  datatype Thresholds = Thresholds(high: real, warning: real, medium: real, low: real)
  {
    function WithDefaults(): Thresholds {
      Thresholds(if high == 0.0 then 1.0 else high, if warning == 0.0 then 0.9 else warning,
                 if medium == 0.0 then 0.7 else medium, if low == 0.0 then 0.5 else low)
    }
  }

  /** The penalty multiplier in quarters: 1.0, 0.75, 0.5 or 0.0. */
  function Quarters(parsed: Thresholds, compliance: real): (q: nat) {
    var t := parsed.WithDefaults();
    if compliance >= t.high then 4
    else if compliance >= t.warning then 4
    else if compliance >= t.medium then 3
    else if compliance >= t.low then 2
    else 0
  }

  datatype Input = Input(
    reward: nat,
    lzn: map<string, nat>,
    moa: map<string, real>,
    thresholds: Thresholds)
  {
    /** Full compliance is assumed where the LZN module reports none. */
    function Compliance(v: string): real {
      if v in moa then moa[v] else 1.0
    }

    predicate Compliant(v: string) {
      Compliance(v) >= 1.0
    }

    /** activated * reward / total, where the uint64 product wraps. */
    function Share(v: string, total: nat): nat
      requires v in lzn && total > 0
    {
      reward * lzn[v] % U64 / total
    }

    function Cut(v: string, total: nat): nat
      requires v in lzn && total > 0
    {
      Share(v, total) * Quarters(thresholds, Compliance(v)) / 4
    }
  }

  datatype Reward = Reward(validator: string, base: nat, final: nat)

  datatype Error = NoValidators | ZeroTotal

  /** Order lists every key once: Go ranges over a map in an arbitrary order. */
  ghost predicate IsOrder(order: seq<string>, lzn: map<string, nat>) {
    && (forall v :: v in order <==> v in lzn)
    && (forall i, j :: 0 <= i < j < |order| ==> order[i] != order[j])
  }

  function Amount(n: nat): int {
    n
  }

  ghost function TotalLzn(lzn: map<string, nat>): int {
    TotalBy(lzn, Amount)
  }

  /** The rewards before the remainder, in the order of iteration; zero activations are skipped. */
  function Listed(x: Input, total: nat, order: seq<string>): seq<Reward>
    requires total > 0
    requires forall v :: v in order ==> v in x.lzn
  {
    if order == [] then []
    else
      var v := order[|order| - 1];
      var before := Listed(x, total, order[..|order| - 1]);
      if x.lzn[v] == 0 then before else before + [Reward(v, x.Share(v, total), x.Cut(v, total))]
  }

  function Finals(rs: seq<Reward>): (fs: seq<int>)
    ensures |fs| == |rs|
  {
    seq(|rs|, i requires 0 <= i < |rs| => rs[i].final)
  }

  ghost predicate FirstCompliant(x: Input, rs: seq<Reward>, i: nat) {
    && i < |rs| && x.Compliant(rs[i].validator)
    && forall j :: 0 <= j < i ==> !x.Compliant(rs[j].validator)
  }

  ghost predicate HasCompliant(x: Input, rs: seq<Reward>) {
    exists i: nat :: FirstCompliant(x, rs, i)
  }

  function Topped(rs: seq<Reward>, i: nat, extra: nat): seq<Reward>
    requires i < |rs|
  {
    rs[i := rs[i].(final := (rs[i].final + extra) % U64)]
  }

  /** The remainder goes to the first compliant entry, if there is one. The distributed total it is
      taken from is a uint64. */
  ghost predicate RemainderPlaced(x: Input, before: seq<Reward>, after: seq<Reward>) {
    var sum := Sum(Finals(before)) % U64;
    if sum < x.reward && HasCompliant(x, before) then
      exists i: nat :: FirstCompliant(x, before, i) && after == Topped(before, i, x.reward - sum)
    else after == before
  }

  /** CalculateRewardDistribution. `order` is the iteration order of the reward loop; the loop that
      adds up the total may visit the map in yet another order. */
  method CalculateRewardDistribution(x: Input, order: seq<string>)
    returns (r: Result<(seq<Reward>, nat), Error>)
    requires x.reward < U64
    requires IsOrder(order, x.lzn)
    ensures r == Err(NoValidators) <==> x.lzn == map[]
    ensures r == Err(ZeroTotal) <==> x.lzn != map[] && TotalLzn(x.lzn) % U64 == 0
    ensures r.Ok? ==> TotalLzn(x.lzn) % U64 > 0
    ensures r.Ok? ==> RemainderPlaced(x, Listed(x, TotalLzn(x.lzn) % U64, order), r.value.0)
    ensures r.Ok? ==> r.value.1 == Sum(Finals(r.value.0)) % U64
  {
    if |x.lzn| == 0 {
      return Err(NoValidators);
    }
    var total := AddUp(x.lzn);
    if total == 0 {
      return Err(ZeroTotal);
    }
    var rewards, distributed := ListRewards(x, total, order);
    rewards, distributed := PlaceRemainder(x, rewards, distributed);
    return Ok((rewards, distributed));
  }

  /** The loop that computes each validator's share and penalty. */
  method ListRewards(x: Input, total: nat, order: seq<string>) returns (rewards: seq<Reward>, distributed: nat)
    requires total > 0
    requires forall v :: v in order ==> v in x.lzn
    ensures rewards == Listed(x, total, order)
    ensures distributed == Sum(Finals(rewards)) % U64
  {
    rewards := [];
    distributed := 0;
    for i := 0 to |order|
      invariant rewards == Listed(x, total, order[..i])
      invariant distributed == Sum(Finals(rewards)) % U64
    {
      var v := order[i];
      assert order[..i + 1][..i] == order[..i];
      if x.lzn[v] != 0 {
        var reward := Reward(v, x.Share(v, total), x.Cut(v, total));
        FinalsAppend(rewards, reward);
        WrapStep(Sum(Finals(rewards)), 0, reward.final);
        rewards := rewards + [reward];
        distributed := (distributed + reward.final) % U64;
      }
    }
    assert order[..|order|] == order;
  }

  /** The remainder rule at the end of CalculateRewardDistribution. */
  method PlaceRemainder(x: Input, rewards: seq<Reward>, distributed: nat) returns (after: seq<Reward>, total: nat)
    requires x.reward < U64
    requires distributed == Sum(Finals(rewards)) % U64
    ensures RemainderPlaced(x, rewards, after)
    ensures total == Sum(Finals(after)) % U64
  {
    after, total := rewards, distributed;
    if distributed < x.reward {
      var remainder := x.reward - distributed;
      for i := 0 to |rewards|
        invariant forall j :: 0 <= j < i ==> !x.Compliant(rewards[j].validator)
      {
        if x.Compliant(rewards[i].validator) {
          FinalsUpdate(rewards, i, remainder);
          assert FirstCompliant(x, rewards, i);
          return Topped(rewards, i, remainder), (distributed + remainder) % U64;
        }
      }
    }
  }

  /** The total in uint64, over an arbitrary iteration order. */
  method AddUp(lzn: map<string, nat>) returns (total: nat)
    ensures total == TotalLzn(lzn) % U64
  {
    total := 0;
    var rest := lzn.Keys;
    assert lzn == map v | v in rest :: lzn[v];
    while rest != {}
      invariant rest <= lzn.Keys
      invariant (total + TotalBy(map v | v in rest :: lzn[v], Amount)) % U64 == TotalLzn(lzn) % U64
      invariant total < U64
      decreases rest
    {
      var v :| v in rest;
      ghost var now := map u | u in rest :: lzn[u];
      TotalByPick(now, Amount, v);
      assert now - {v} == map u | u in rest - {v} :: lzn[u];
      WrapStep(total, lzn[v], TotalBy(now - {v}, Amount));
      total := (total + lzn[v]) % U64;
      rest := rest - {v};
    }
  }

  lemma WrapStep(a: int, b: int, c: int)
    ensures ((a + b) % U64 + c) % U64 == (a + (b + c)) % U64
  {
  }

  lemma FinalsAppend(rs: seq<Reward>, r: Reward)
    ensures Sum(Finals(rs + [r])) == Sum(Finals(rs)) + r.final
  {
    assert Finals(rs + [r]) == Finals(rs) + [r.final];
    assert Finals(rs + [r])[..|rs|] == Finals(rs);
  }

  lemma FinalsUpdate(rs: seq<Reward>, i: nat, d: nat)
    requires i < |rs|
    ensures Sum(Finals(Topped(rs, i, d))) % U64 == (Sum(Finals(rs)) + d) % U64
    ensures rs[i].final + d < U64 ==> Sum(Finals(Topped(rs, i, d))) == Sum(Finals(rs)) + d
  {
    var fs := Finals(rs);
    var gs := Finals(Topped(rs, i, d));
    var v := (rs[i].final + d) % U64;
    SumUpdate(fs, i, v);
    assert gs == fs[i := v];
    WrapStep(fs[i], d, Sum(fs) - fs[i]);
  }

  lemma {:induction false} TermAtMostSum(s: seq<int>, i: nat)
    requires i < |s|
    requires forall j :: 0 <= j < |s| ==> s[j] >= 0
    ensures s[i] <= Sum(s)
  {
    if i == |s| - 1 {
      SumNonNegative(s[..i]);
    } else {
      TermAtMostSum(s[..|s| - 1], i);
    }
  }

  lemma {:induction false} SumUpdate(s: seq<int>, i: nat, v: int)
    requires i < |s|
    ensures Sum(s[i := v]) == Sum(s) - s[i] + v
  {
    if i == |s| - 1 {
      assert s[i := v][..i] == s[..i];
    } else {
      SumUpdate(s[..|s| - 1], i, v);
      assert s[i := v][..|s| - 1] == s[..|s| - 1][i := v];
    }
  }

  // ---------- What the split promises ----------

  ghost function OrderedLzn(x: Input, order: seq<string>): int
    requires forall v :: v in order ==> v in x.lzn
  {
    if order == [] then 0
    else OrderedLzn(x, order[..|order| - 1]) + x.lzn[order[|order| - 1]]
  }

  /** Any iteration order adds up the same activated total. */
  lemma {:induction false} OrderedIsTotal(x: Input, order: seq<string>, lzn: map<string, nat>)
    requires IsOrder(order, lzn)
    requires forall v :: v in lzn ==> v in x.lzn && x.lzn[v] == lzn[v]
    ensures OrderedLzn(x, order) == TotalLzn(lzn)
  {
    if order == [] {
      assert lzn == map[];
    } else {
      var v := order[|order| - 1];
      OrderWithoutLast(order, lzn);
      TotalByPick(lzn, Amount, v);
      OrderedIsTotal(x, order[..|order| - 1], lzn - {v});
    }
  }

  lemma OrderWithoutLast(order: seq<string>, lzn: map<string, nat>)
    requires IsOrder(order, lzn) && order != []
    ensures order[|order| - 1] in lzn
    ensures IsOrder(order[..|order| - 1], lzn - {order[|order| - 1]})
  {
    var n := |order| - 1;
    assert order == order[..n] + [order[n]];
    forall v | v in order[..n] ensures v != order[n] {
      var i :| 0 <= i < n && order[..n][i] == v;
      assert order[i] != order[n];
    }
  }

  /** Scaled by the total, the shares never exceed reward times activation. */
  lemma {:induction false} SharesBounded(x: Input, total: nat, order: seq<string>)
    requires total > 0
    requires forall v :: v in order ==> v in x.lzn
    ensures 0 <= total * Sum(Finals(Listed(x, total, order))) <= x.reward * OrderedLzn(x, order)
  {
    if order == [] {
    } else {
      var v := order[|order| - 1];
      var before := Listed(x, total, order[..|order| - 1]);
      SharesBounded(x, total, order[..|order| - 1]);
      var r := Reward(v, x.Share(v, total), x.Cut(v, total));
      FinalsAppend(before, r);
      CutBounded(x, v, total);
      Distribute(total, Sum(Finals(before)), r.final);
      Distribute(x.reward, OrderedLzn(x, order[..|order| - 1]), x.lzn[v]);
    }
  }

  lemma CutBounded(x: Input, v: string, total: nat)
    requires total > 0 && v in x.lzn
    ensures 0 <= total * x.Cut(v, total) <= x.reward * x.lzn[v]
    ensures x.Cut(v, total) <= x.Share(v, total)
  {
    var p := x.reward * x.lzn[v];
    var q := p % U64;
    assert q <= p;
    QuotientTimes(q, total);
    var s := x.Share(v, total);
    assert x.Cut(v, total) <= s;
    TimesMonotone(total, x.Cut(v, total), s);
  }

  /** Before the remainder rule at most the block reward is assigned. */
  lemma ListedWithinReward(x: Input, order: seq<string>)
    requires IsOrder(order, x.lzn) && TotalLzn(x.lzn) > 0
    ensures Sum(Finals(Listed(x, TotalLzn(x.lzn), order))) <= x.reward
  {
    var total := TotalLzn(x.lzn);
    OrderedIsTotal(x, order, x.lzn);
    SharesBounded(x, total, order);
    var sum := Sum(Finals(Listed(x, total, order)));
    SumNonNegative(Finals(Listed(x, total, order)));
    assert total * sum <= total * x.reward;
    TimesCancel(total, sum, x.reward);
  }

  ghost predicate SomeCompliant(x: Input) {
    exists v :: v in x.lzn && x.lzn[v] > 0 && x.Compliant(v)
  }

  lemma {:induction false} ListedMembers(x: Input, total: nat, order: seq<string>)
    requires total > 0
    requires forall v :: v in order ==> v in x.lzn
    ensures forall r :: r in Listed(x, total, order) ==>
      && r.validator in order && x.lzn[r.validator] > 0
      && r == Reward(r.validator, x.Share(r.validator, total), x.Cut(r.validator, total))
    ensures forall v :: v in order && x.lzn[v] > 0 ==>
      Reward(v, x.Share(v, total), x.Cut(v, total)) in Listed(x, total, order)
  {
    if order != [] {
      ListedMembers(x, total, order[..|order| - 1]);
      assert order == order[..|order| - 1] + [order[|order| - 1]];
    }
  }

  lemma {:induction false} FirstCompliantExists(x: Input, rs: seq<Reward>, k: nat)
    requires k < |rs| && x.Compliant(rs[k].validator)
    ensures HasCompliant(x, rs)
  {
    if j: nat :| j < k && x.Compliant(rs[j].validator) {
      FirstCompliantExists(x, rs, j);
    } else {
      assert FirstCompliant(x, rs, k);
    }
  }

  lemma CompliantIsListed(x: Input, order: seq<string>)
    requires IsOrder(order, x.lzn) && TotalLzn(x.lzn) > 0
    ensures SomeCompliant(x) <==> HasCompliant(x, Listed(x, TotalLzn(x.lzn), order))
  {
    var total := TotalLzn(x.lzn);
    var rs := Listed(x, total, order);
    ListedMembers(x, total, order);
    if SomeCompliant(x) {
      var v :| v in x.lzn && x.lzn[v] > 0 && x.Compliant(v);
      var r := Reward(v, x.Share(v, total), x.Cut(v, total));
      assert r in rs;
      var k :| 0 <= k < |rs| && rs[k] == r;
      FirstCompliantExists(x, rs, k);
    }
    if HasCompliant(x, rs) {
      var i: nat :| FirstCompliant(x, rs, i);
      assert rs[i] in rs;
    }
  }

  /** While the activated total fits 64 bits, the final rewards sum to at most the block reward, and
      to exactly the block reward when some validator with activated LZN is fully compliant. */
  lemma DistributedTotal(x: Input, order: seq<string>, after: seq<Reward>)
    requires x.reward < U64
    requires IsOrder(order, x.lzn) && 0 < TotalLzn(x.lzn) < U64
    requires RemainderPlaced(x, Listed(x, TotalLzn(x.lzn), order), after)
    ensures Sum(Finals(after)) <= x.reward
    ensures SomeCompliant(x) ==> Sum(Finals(after)) == x.reward
    ensures !SomeCompliant(x) ==> after == Listed(x, TotalLzn(x.lzn), order)
  {
    ListedWithinReward(x, order);
    CompliantIsListed(x, order);
    PlacedTotal(x, Listed(x, TotalLzn(x.lzn), order), after);
  }

  lemma PlacedTotal(x: Input, before: seq<Reward>, after: seq<Reward>)
    requires x.reward < U64 && Sum(Finals(before)) <= x.reward
    requires RemainderPlaced(x, before, after)
    ensures Sum(Finals(after)) <= x.reward
    ensures HasCompliant(x, before) ==> Sum(Finals(after)) == x.reward
    ensures !HasCompliant(x, before) ==> after == before
  {
    var sum := Sum(Finals(before));
    SumNonNegative(Finals(before));
    if sum < x.reward && HasCompliant(x, before) {
      var i: nat :| FirstCompliant(x, before, i) && after == Topped(before, i, x.reward - sum);
      ToppedUp(before, i, x.reward);
    }
  }

  lemma ToppedUp(rs: seq<Reward>, i: nat, reward: nat)
    requires i < |rs| && 0 <= Sum(Finals(rs)) <= reward < U64
    ensures Sum(Finals(Topped(rs, i, reward - Sum(Finals(rs))))) == reward
  {
    TermAtMostSum(Finals(rs), i);
    FinalsUpdate(rs, i, reward - Sum(Finals(rs)));
  }

  /** Everybody's cut, before the remainder. */
  ghost function Cuts(x: Input, total: nat, vs: set<string>): map<string, nat>
    requires total > 0
    requires forall v :: v in vs ==> v in x.lzn
  {
    map v | v in vs :: x.Cut(v, total)
  }

  lemma {:induction false} ListedSum(x: Input, total: nat, order: seq<string>, vs: set<string>)
    requires total > 0
    requires forall v :: v in order <==> v in vs
    requires forall i, j :: 0 <= i < j < |order| ==> order[i] != order[j]
    requires forall v :: v in vs ==> v in x.lzn
    ensures Sum(Finals(Listed(x, total, order))) == TotalBy(Cuts(x, total, vs), Amount)
  {
    if order == [] {
      assert Cuts(x, total, vs) == map[];
    } else {
      var v := order[|order| - 1];
      var rest := order[..|order| - 1];
      assert order == rest + [v];
      TotalByPick(Cuts(x, total, vs), Amount, v);
      assert Cuts(x, total, vs) - {v} == Cuts(x, total, vs - {v});
      ListedSum(x, total, rest, vs - {v});
      FinalsAppend(Listed(x, total, rest), Reward(v, x.Share(v, total), x.Cut(v, total)));
      if x.lzn[v] == 0 {
        NothingForNothing(x, v, total);
      }
    }
  }

  lemma NothingForNothing(x: Input, v: string, total: nat)
    requires total > 0 && v in x.lzn && x.lzn[v] == 0
    ensures x.Cut(v, total) == 0
  {
  }

  /** Two iteration orders distribute the same total; only who receives the remainder may differ. */
  lemma TotalIgnoresOrder(x: Input, o1: seq<string>, o2: seq<string>, a1: seq<Reward>, a2: seq<Reward>)
    requires x.reward < U64
    requires IsOrder(o1, x.lzn) && IsOrder(o2, x.lzn) && 0 < TotalLzn(x.lzn) < U64
    requires RemainderPlaced(x, Listed(x, TotalLzn(x.lzn), o1), a1)
    requires RemainderPlaced(x, Listed(x, TotalLzn(x.lzn), o2), a2)
    ensures Sum(Finals(a1)) == Sum(Finals(a2))
  {
    DistributedTotal(x, o1, a1);
    DistributedTotal(x, o2, a2);
    ListedSum(x, TotalLzn(x.lzn), o1, x.lzn.Keys);
    ListedSum(x, TotalLzn(x.lzn), o2, x.lzn.Keys);
  }

  // ---------- Rounding and wrap-around ----------

  /** A share is the exact rounded-down proportion if and only if its 64-bit product does not wrap. */
  lemma ShareExactly(x: Input, v: string, total: nat)
    requires v in x.lzn && 0 < total < U64
    ensures x.Share(v, total) == x.reward * x.lzn[v] / total <==> x.reward * x.lzn[v] < U64
  {
    var p := x.reward * x.lzn[v];
    if p >= U64 {
      var q := p % U64;
      assert q + U64 <= p;
      QuotientTimes(q, total);
      QuotientTimes(p, total);
      if p / total <= q / total {
        TimesMonotone(total, p / total, q / total);
      }
    }
  }

  ghost predicate Unpenalised(x: Input) {
    forall v :: v in x.lzn ==> Quarters(x.thresholds, x.Compliance(v)) == 4
  }

  ghost predicate NoProductWraps(x: Input) {
    forall v :: v in x.lzn ==> x.reward * x.lzn[v] < U64
  }

  lemma {:induction false} SharesFromBelow(x: Input, total: nat, order: seq<string>)
    requires total > 0
    requires forall v :: v in order ==> v in x.lzn
    requires Unpenalised(x) && NoProductWraps(x)
    ensures var rs := Listed(x, total, order);
      && x.reward * OrderedLzn(x, order) <= total * (Sum(Finals(rs)) + |rs|)
      && (rs != [] ==> x.reward * OrderedLzn(x, order) < total * (Sum(Finals(rs)) + |rs|))
  {
    if order != [] {
      var v := order[|order| - 1];
      var init := order[..|order| - 1];
      var before := Listed(x, total, init);
      SharesFromBelow(x, total, init);
      Distribute(x.reward, OrderedLzn(x, init), x.lzn[v]);
      if x.lzn[v] != 0 {
        var r := Reward(v, x.Share(v, total), x.Cut(v, total));
        FinalsAppend(before, r);
        QuotientTimes(x.reward * x.lzn[v], total);
        assert r.final == x.reward * x.lzn[v] / total;
        Distribute(total, r.final, 1);
        AddShare(total, x.reward * OrderedLzn(x, init), Sum(Finals(before)) + |before|,
          x.reward * x.lzn[v], r.final + 1);
      }
    }
  }

  lemma AddShare(d: int, a: int, b: int, p: int, q: int)
    requires a <= d * b && p < d * q
    ensures a + p < d * (b + q)
  {
  }

  /** Without penalties and without wrap-around, the rounding remainder is smaller than the number
      of rewarded validators. */
  lemma RemainderBelowCount(x: Input, order: seq<string>)
    requires IsOrder(order, x.lzn) && 0 < TotalLzn(x.lzn) < U64
    requires Unpenalised(x) && NoProductWraps(x)
    ensures var rs := Listed(x, TotalLzn(x.lzn), order);
      x.reward - Sum(Finals(rs)) < |rs|
  {
    var total := TotalLzn(x.lzn);
    var rs := Listed(x, total, order);
    OrderedIsTotal(x, order, x.lzn);
    SharesFromBelow(x, total, order);
    if rs == [] {
      ListedMembers(x, total, order);
      TotalByZero(x.lzn, Amount);
    } else {
      StrictCancel(total, x.reward, Sum(Finals(rs)) + |rs|);
    }
  }

  ghost predicate ProductsUpTo(x: Input, k: nat) {
    forall v :: v in x.lzn ==> x.reward * x.lzn[v] <= k
  }

  ghost predicate SmallRemainder(x: Input, order: seq<string>)
    requires 0 < TotalLzn(x.lzn)
    requires IsOrder(order, x.lzn)
  {
    var rs := Listed(x, TotalLzn(x.lzn), order);
    x.reward - Sum(Finals(rs)) < |rs|
  }

  /** Bounding the products by k makes every unpenalised remainder small if and only if k is below
      2^64. */
  lemma RemainderHoldsExactly(k: nat)
    ensures (forall x: Input, order: seq<string> ::
      IsOrder(order, x.lzn) && 0 < TotalLzn(x.lzn) < U64 && Unpenalised(x) && ProductsUpTo(x, k) ==>
      SmallRemainder(x, order)) <==> k < U64
  {
    if k < U64 {
      forall x: Input, order: seq<string> |
        IsOrder(order, x.lzn) && 0 < TotalLzn(x.lzn) < U64 && Unpenalised(x) && ProductsUpTo(x, k)
        ensures SmallRemainder(x, order)
      {
        RemainderBelowCount(x, order);
      }
    } else {
      var x := Input(0x400_0000, map["a" := 0x40_0000_0000], map[], Thresholds(1.0, 0.9, 0.7, 0.5));
      OneValidator(x, "a");
      assert x.Share("a", 0x40_0000_0000) == 0;
      assert ProductsUpTo(x, k);
      assert !SmallRemainder(x, ["a"]);
    }
  }

  lemma OneValidator(x: Input, v: string)
    requires x.lzn.Keys == {v} && x.lzn[v] > 0
    ensures IsOrder([v], x.lzn) && TotalLzn(x.lzn) == x.lzn[v]
    ensures forall total: nat :: total > 0 ==>
      Listed(x, total, [v]) == [Reward(v, x.Share(v, total), x.Cut(v, total))]
    ensures forall r: Reward :: Sum(Finals([r])) == r.final
  {
    TotalByPick(x.lzn, Amount, v);
    assert x.lzn - {v} == map[];
    forall r: Reward ensures Sum(Finals([r])) == r.final {
      FinalsAppend([], r);
      assert [] + [r] == [r];
    }
    assert [v][..0] == [];
  }

  /** What one call distributes is within the subsidy, for the wrapped total it divides by. */
  ghost predicate WithinSubsidy(x: Input, order: seq<string>, after: seq<Reward>)
    requires IsOrder(order, x.lzn) && TotalLzn(x.lzn) % U64 > 0
  {
    RemainderPlaced(x, Listed(x, TotalLzn(x.lzn) % U64, order), after) ==> Sum(Finals(after)) <= x.reward
  }

  ghost predicate Activated64(lzn: map<string, nat>) {
    forall v :: v in lzn ==> lzn[v] < U64
  }

  /** No call on a total up to k distributes more than its subsidy. */
  ghost predicate SubsidyBound(k: nat) {
    forall x: Input, order: seq<string>, after: seq<Reward> ::
      Splittable(x, order) && TotalLzn(x.lzn) <= k ==> WithinSubsidy(x, order, after)
  }

  /** The inputs the split accepts: 64-bit amounts whose wrapped total is not zero. */
  ghost predicate Splittable(x: Input, order: seq<string>) {
    x.reward < U64 && Activated64(x.lzn) && IsOrder(order, x.lzn) && TotalLzn(x.lzn) % U64 > 0
  }

  /** Bounding the activated total by k keeps every distribution within its subsidy if and only if
      k is at most 2^64: beyond, totals wrap to something other than zero. */
  lemma SubsidyHoldsExactly(k: nat)
    ensures SubsidyBound(k) <==> k <= U64
  {
    if k <= U64 {
      forall x: Input, order: seq<string>, after: seq<Reward> |
        Splittable(x, order) && TotalLzn(x.lzn) <= k
        ensures WithinSubsidy(x, order, after)
      {
        SplitWithin(x, order, after);
      }
    } else {
      var after := WrappedTotal();
      var x := Input(50_000_000, WRAPPING, map[], Thresholds(1.0, 0.9, 0.7, 0.5));
      assert Splittable(x, ["a", "b"]) && !WithinSubsidy(x, ["a", "b"], after);
    }
  }

  lemma SplitWithin(x: Input, order: seq<string>, after: seq<Reward>)
    requires Splittable(x, order) && TotalLzn(x.lzn) <= U64
    ensures WithinSubsidy(x, order, after)
  {
    TotalByNonNegative(x.lzn, Amount);
    if RemainderPlaced(x, Listed(x, TotalLzn(x.lzn) % U64, order), after) {
      DistributedTotal(x, order, after);
    }
  }

  const WRAPPING: map<string, nat> := map["a" := 0xffff_ffff_ffff_ffff, "b" := 2]

  /** A total of 2^64 + 1 wraps to 1, and one validator alone is then assigned almost 2^64. */
  lemma WrappedTotal() returns (after: seq<Reward>)
    ensures var x := Input(50_000_000, WRAPPING, map[], Thresholds(1.0, 0.9, 0.7, 0.5));
      && IsOrder(["a", "b"], WRAPPING) && Activated64(WRAPPING)
      && TotalLzn(WRAPPING) == U64 + 1
      && RemainderPlaced(x, Listed(x, 1, ["a", "b"]), after)
      && Sum(Finals(after)) == U64 + x.reward
  {
    var x := Input(50_000_000, WRAPPING, map[], Thresholds(1.0, 0.9, 0.7, 0.5));
    TotalOfPair(WRAPPING, "a", "b");
    WrappedCuts(x);
    ListedPair(x, 1, "a", "b");
    after := Listed(x, 1, ["a", "b"]);
  }

  lemma WrappedCuts(x: Input)
    requires x == Input(50_000_000, WRAPPING, map[], Thresholds(1.0, 0.9, 0.7, 0.5))
    ensures x.Cut("a", 1) == U64 - 50_000_000 && x.Cut("b", 1) == 100_000_000
  {
    var total: nat := 1;
    assert x.Cut("a", total) == U64 - 50_000_000 && x.Cut("b", total) == 100_000_000;
  }

  lemma TotalOfPair(lzn: map<string, nat>, v: string, w: string)
    requires lzn.Keys == {v, w} && v != w
    ensures TotalLzn(lzn) == lzn[v] + lzn[w]
  {
    TotalByPick(lzn, Amount, v);
    TotalByPick(lzn - {v}, Amount, w);
    assert lzn - {v} - {w} == map[];
  }

  lemma ListedPair(x: Input, total: nat, v: string, w: string)
    requires total > 0 && v in x.lzn && w in x.lzn && x.lzn[v] > 0 && x.lzn[w] > 0
    ensures Sum(Finals(Listed(x, total, [v, w]))) == x.Cut(v, total) + x.Cut(w, total)
  {
    var a, b := Reward(v, x.Share(v, total), x.Cut(v, total)), Reward(w, x.Share(w, total), x.Cut(w, total));
    assert [v, w][..1] == [v] && [v][..0] == [];
    assert Listed(x, total, [v]) == [] + [a];
    assert Listed(x, total, [v, w]) == [a] + [b];
    FinalsAppend([], a);
    FinalsAppend([a], b);
  }

  /** With the default subsidy a product does wrap: two validators with 2^39 micro LZN each, fully
      compliant, are left with a remainder of more than half the subsidy. */
  lemma WrappedRemainder()
    ensures var x := Input(50_000_000, map["a" := 0x80_0000_0000, "b" := 0x80_0000_0000], map[],
        Thresholds(1.0, 0.9, 0.7, 0.5));
      && IsOrder(["a", "b"], x.lzn) && TotalLzn(x.lzn) == 0x100_0000_0000
      && Unpenalised(x) && !NoProductWraps(x)
      && x.reward - Sum(Finals(Listed(x, 0x100_0000_0000, ["a", "b"]))) > 25_000_000
  {
    var lzn := map["a" := 0x80_0000_0000, "b" := 0x80_0000_0000];
    var x := Input(50_000_000, lzn, map[], Thresholds(1.0, 0.9, 0.7, 0.5));
    TotalOfPair(lzn, "a", "b");
    var total := 0x100_0000_0000;
    assert x.reward * lzn["a"] >= U64;
    ListedPair(x, total, "a", "b");
  }
}
