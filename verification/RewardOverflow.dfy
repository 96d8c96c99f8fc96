/** What a negative minimum licence does to the emission. Negative licences bring the activated total
    back to zero, where the share rule is not asked; the rewards skip them and add up the rest. */
module RewardOverflow {
  import opened Arithmetic
  import opened Wrappers
  import opened Decimal
  import opened Sums
  import opened Emission
  import opened RewardSplit
  import opened RewardKeeper
  import opened Lizenz

  // ---------- Runs back to a zero total ----------

  /** A run whose licences total t and are read as the given amounts. */
  ghost predicate Reaches(steps: seq<Step>, k: int, t: int, read: map<string, nat>) {
    LimitsFrom(steps, k) && Total(Lizenz.Run(steps)) == t && AmountsOf(Lizenz.Run(steps)) == read
  }

  lemma OneMore(steps: seq<Step>, k: int, step: Step)
    requires LimitsFrom(steps, k) && (step.Activate? ==> step.lim.min >= k)
    ensures LimitsFrom(steps + [step], k)
    ensures Lizenz.Run(steps + [step]) == Lizenz.Apply(Lizenz.Run(steps), step)
  {
    assert (steps + [step])[..|steps|] == steps;
  }

  lemma ZeroAccepts(lim: Limits, s: Store, v: string, l: Licence)
    requires v !in s && lim.min <= l.amount <= lim.max && Total(s) == 0
    ensures Set(lim, s, v, l).0 == s[v := l] && Total(s[v := l]) == l.amount
  {
    TotalByInsert(s, AmountIn, v, l);
  }

  lemma AmountsInsert(s: Store, v: string, l: Licence)
    requires v !in s
    ensures AmountsOf(s[v := l]) == if l.amount >= 0 then AmountsOf(s)[v := l.amount] else AmountsOf(s)
  {
  }

  /** At a zero total any amount is activated. */
  lemma Charge(steps: seq<Step>, k: int, read: map<string, nat>, v: string, amount: nat) returns (more: seq<Step>)
    requires Reaches(steps, k, 0, read) && k < 0
    requires v !in Lizenz.Run(steps) && amount <= MAX_INT64
    ensures Reaches(more, k, amount, read[v := amount])
    ensures Lizenz.Run(more).Keys == Lizenz.Run(steps).Keys + {v} && |more| == |steps| + 1
  {
    var l := Licence(amount, "");
    var step := Activate(Limits(0, MAX_INT64), v, l, true);
    var s := Lizenz.Run(steps);
    OneMore(steps, k, step);
    ZeroAccepts(step.lim, s, v, l);
    AmountsInsert(s, v, l);
    more := steps + [step];
  }

  /** One negative licence under an unused name takes as much off the total as the minimum allows. */
  lemma Lower(steps: seq<Step>, k: int, t: nat, read: map<string, nat>, v: string) returns (more: seq<Step>)
    requires Reaches(steps, k, t, read) && k < 0 && 0 < t <= MAX_INT64
    requires v !in Lizenz.Run(steps)
    ensures Reaches(more, k, t - Min(t, -k), read)
    ensures Lizenz.Run(more).Keys == Lizenz.Run(steps).Keys + {v} && |more| == |steps| + 1
  {
    var down := Min(t, -k);
    var l := Licence(-down, "");
    var step := Activate(Limits(-down, MAX_INT64), v, l, true);
    var s := Lizenz.Run(steps);
    OneMore(steps, k, step);
    NegativeAccepted(step.lim, s, v, l);
    AmountsInsert(s, v, l);
    more := steps + [step];
  }

  lemma {:induction false} LengthBound(used: set<string>) returns (n: nat)
    ensures forall v :: v in used ==> |v| < n
  {
    if v :| v in used {
      var m := LengthBound(used - {v});
      n := if |v| < m then m else |v| + 1;
      assert used == (used - {v}) + {v};
    } else {
      n := 0;
    }
  }

  lemma UnusedName(used: set<string>) returns (v: string)
    ensures v !in used
  {
    var n := LengthBound(used);
    v := seq(n, i => 'x');
  }

  /** The total comes back to zero, without touching the names kept for later. */
  lemma {:induction false} Drain(steps: seq<Step>, k: int, t: nat, read: map<string, nat>, kept: set<string>)
    returns (more: seq<Step>)
    requires Reaches(steps, k, t, read) && k < 0 && t <= MAX_INT64
    requires kept !! Lizenz.Run(steps).Keys
    ensures Reaches(more, k, 0, read) && kept !! Lizenz.Run(more).Keys
    ensures t == 0 ==> more == steps
    ensures 0 < t <= -k ==> |more| == |steps| + 1
    decreases t
  {
    if t == 0 {
      more := steps;
    } else {
      var v := UnusedName(Lizenz.Run(steps).Keys + kept);
      var lower := Lower(steps, k, t, read, v);
      more := Drain(lower, k, t - Min(t, -k), read, kept);
    }
  }

  // ---------- Two full int64 licences at once ----------

  const OVERFLOWING: map<string, nat> := map["a" := MAX_INT64, "c" := MAX_INT64, "e" := 3]

  /** With any negative minimum the licences read can be two of 2^63 - 1 and one of 3; with a minimum of
      -(2^63 - 1) it takes five activations. */
  lemma ReachOverflow(k: int) returns (steps: seq<Step>)
    requires k < 0
    ensures LimitsFrom(steps, k) && AmountsOf(Lizenz.Run(steps)) == OVERFLOWING
    ensures k <= -MAX_INT64 ==> |steps| == 5
  {
    assert Reaches([], k, 0, map[]);
    var one := Charge([], k, map[], "a", MAX_INT64);
    NamesApart();
    var two := Drain(one, k, MAX_INT64, map["a" := MAX_INT64], {"c", "e"});
    var three := Charge(two, k, map["a" := MAX_INT64], "c", MAX_INT64);
    var four := Drain(three, k, MAX_INT64, map["a" := MAX_INT64, "c" := MAX_INT64], {"e"});
    steps := Charge(four, k, map["a" := MAX_INT64, "c" := MAX_INT64], "e", 3);
  }

  lemma NamesApart()
    ensures "a" != "c" && "a" != "e" && "c" != "e"
  {
    assert "a"[0] == 'a' && "c"[0] == 'c' && "e"[0] == 'e';
  }

  lemma OverflowingTotal()
    ensures TotalLzn(OVERFLOWING) == U64 + 1
  {
    NamesApart();
    TotalByPick(OVERFLOWING, Amount, "a");
    TotalOfPair(OVERFLOWING - {"a"}, "c", "e");
  }

  /** The amounts the rewards read add up to less than 2^64 in every state the licence keeper can reach
      if and only if governance never sets a negative minimum. */
  lemma ReadTotalsFitExactly(k: int)
    ensures (forall steps :: LimitsFrom(steps, k) ==> TotalLzn(AmountsOf(Lizenz.Run(steps))) < U64) <==> k >= 0
  {
    if k >= 0 {
      forall steps | LimitsFrom(steps, k) ensures TotalLzn(AmountsOf(Lizenz.Run(steps))) < U64 {
        RunFits(steps);
        AmountsAddUp(Lizenz.Run(steps));
      }
    } else {
      var steps := ReachOverflow(k);
      OverflowingTotal();
    }
  }

  // ---------- The block that mints too much ----------

  /** The default subsidy over those licences, all fully compliant, with a bank that mints and sends. */
  function OverflowBlock(): Block {
    Block(1, OVERFLOWING, map[], Thresholds(1.0, 0.9, 0.7, 0.5), ["a", "c", "e"], {"a", "c", "e"}, {"a", "c", "e"})
  }

  function OverflowInput(): Input {
    Input(DEFAULT_BASE, OVERFLOWING, map[], Thresholds(1.0, 0.9, 0.7, 0.5))
  }

  /** Divided by a total that wrapped to 1, the wrapped products are the shares. */
  lemma OverflowCuts(x: Input, total: nat)
    requires x == OverflowInput() && total == 1
    ensures x.Cut("a", total) == U64 - 50_000_000 && x.Cut("c", total) == U64 - 50_000_000
    ensures x.Cut("e", total) == 150_000_000
  {
    FullCut(x, "a", total);
    FullCut(x, "c", total);
    FullCut(x, "e", total);
    assert x.Share("a", total) == U64 - 50_000_000 && x.Share("c", total) == U64 - 50_000_000;
  }

  lemma FullCut(x: Input, v: string, total: nat)
    requires x.moa == map[] && x.thresholds.high == 1.0 && total > 0 && v in x.lzn
    ensures x.Cut(v, total) == x.Share(v, total)
  {
  }

  lemma ListedThree(x: Input, total: nat, u: string, v: string, w: string)
    requires total > 0 && {u, v, w} <= x.lzn.Keys && x.lzn[u] > 0 && x.lzn[v] > 0 && x.lzn[w] > 0
    ensures Sum(Finals(Listed(x, total, [u, v, w]))) == x.Cut(u, total) + x.Cut(v, total) + x.Cut(w, total)
  {
    assert [u, v, w][..2] == [u, v];
    ListedPair(x, total, u, v);
    FinalsAppend(Listed(x, total, [u, v]), Reward(w, x.Share(w, total), x.Cut(w, total)));
  }

  lemma OverflowSum(x: Input, total: nat)
    requires x == OverflowInput() && total == 1
    ensures Sum(Finals(Listed(x, total, ["a", "c", "e"]))) == 2 * U64 + DEFAULT_BASE
  {
    OverflowCuts(x, total);
    ListedThree(x, total, "a", "c", "e");
  }

  /** The sum modulo 2^64 is the subsidy itself, so nothing looks wrong to the remainder rule. */
  lemma OverflowPlaced(x: Input, rs: seq<Reward>)
    requires x == OverflowInput() && Sum(Finals(rs)) == 2 * U64 + DEFAULT_BASE
    ensures RemainderPlaced(x, rs, rs)
  {
  }

  lemma FirstSubsidy(height: nat)
    requires height == 1
    ensures BaseReward(DEFAULT_BASE, height) == DEFAULT_BASE
  {
    RewardIsDivision(DEFAULT_BASE, height);
  }

  /** The rewards this block assigns. */
  lemma OverflowAssigned(b: Block) returns (rs: seq<Reward>)
    requires b == OverflowBlock()
    ensures b.Ordered() && Assigned(DEFAULT_BASE, b, rs)
    ensures rs == Listed(OverflowInput(), 1, ["a", "c", "e"])
    ensures Sum(Finals(rs)) == 2 * U64 + DEFAULT_BASE
  {
    NamesApart();
    OverflowingTotal();
    FirstSubsidy(b.height);
    rs := Listed(OverflowInput(), 1, ["a", "c", "e"]);
    OverflowSum(OverflowInput(), 1);
    OverflowPlaced(OverflowInput(), rs);
  }

  /** The block assigns, and mints, 2^65 more than its subsidy. */
  lemma OverflowMints(bank: Bank) returns (rs: seq<Reward>)
    ensures OverflowBlock().Ordered() && Assigned(DEFAULT_BASE, OverflowBlock(), rs)
    ensures PayAll(bank, rs, OverflowBlock().mints, OverflowBlock().sends).minted
         == bank.minted + 2 * U64 + BaseReward(DEFAULT_BASE, OverflowBlock().height)
  {
    var b := OverflowBlock();
    FirstSubsidy(b.height);
    rs := OverflowAssigned(b);
    AllMinted(rs, b.mints);
    PayAllMintsAll(bank, rs, b.mints, b.sends);
  }

  lemma AllMinted(rs: seq<Reward>, mints: set<string>)
    requires rs == Listed(OverflowInput(), 1, ["a", "c", "e"]) && mints == {"a", "c", "e"}
    ensures forall r :: r in rs ==> r.validator in mints
  {
    ListedMembers(OverflowInput(), 1, ["a", "c", "e"]);
  }

  /** No run over distinct heights mints more than twice the base for 210000 heights, plus one a height. */
  ghost predicate EmissionBounded(k: int) {
    forall base: nat, blocks: seq<Block>, rewards: seq<seq<Reward>>, top: nat ::
      base < U64 && ValidRun(base, k, blocks, rewards) && DistinctHeights(blocks, top) ==>
      RunBank(blocks, rewards).minted <= 2 * base * 210_000 + top
  }

  /** The emission bound holds on all runs if and only if governance never sets a negative minimum: below
      zero a single block breaks it. */
  lemma EmissionBoundedExactly(k: int)
    ensures EmissionBounded(k) <==> k >= 0
  {
    if k >= 0 {
      forall base: nat, blocks: seq<Block>, rewards: seq<seq<Reward>>, top: nat |
        base < U64 && ValidRun(base, k, blocks, rewards) && DistinctHeights(blocks, top)
        ensures RunBank(blocks, rewards).minted <= 2 * base * 210_000 + top
      {
        LicensedFromZero(base, k, blocks, rewards);
        RunEmissionBounded(base, blocks, rewards, top);
      }
    } else {
      var rewards := OverflowRun(k);
      assert DistinctHeights([OverflowBlock()], 1);
    }
  }

  lemma LicensedFromZero(base: nat, k: int, blocks: seq<Block>, rewards: seq<seq<Reward>>)
    requires k >= 0 && ValidRun(base, k, blocks, rewards)
    ensures ValidRun(base, 0, blocks, rewards)
  {
    forall i | 0 <= i < |blocks| ensures ValidBlock(base, 0, blocks[i], rewards[i]) {
      assert ValidBlock(base, k, blocks[i], rewards[i]);
      var steps :| LimitsFrom(steps, k) && ReadFrom(blocks[i].lzn, Lizenz.Run(steps));
      assert LimitsFrom(steps, 0);
    }
  }

  lemma OverflowRun(k: int) returns (rewards: seq<seq<Reward>>)
    requires k < 0
    ensures ValidRun(DEFAULT_BASE, k, [OverflowBlock()], rewards)
    ensures RunBank([OverflowBlock()], rewards).minted == 2 * U64 + DEFAULT_BASE
  {
    var steps := ReachOverflow(k);
    assert ReadFrom(OVERFLOWING, Lizenz.Run(steps));
    assert Licensed(OVERFLOWING, k);
    var rs := OverflowMints(Bank(0, 0, map[]));
    FirstSubsidy(1);
    rewards := [rs];
    assert [OverflowBlock()][..0] == [] && rewards[..0] == [];
  }
}
