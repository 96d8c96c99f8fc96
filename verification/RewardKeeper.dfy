/** DistributeBaseRewards against a bank that may refuse to mint or to send, and the emission of
    whole runs of it. */
module RewardKeeper {
  import opened Wrappers
  import opened Decimal
  import opened Sums
  import opened Emission
  import opened RewardSplit
  import Lizenz

  /** The WRT side of the bank: everything minted so far, what is stuck in the module account, and
      what the validators received. */
  datatype Bank = Bank(minted: nat, stuck: nat, paid: map<string, nat>)

  function PaidTo(bank: Bank, v: string): nat {
    if v in bank.paid then bank.paid[v] else 0
  }

  /** One reward: minted if the bank mints for this validator, delivered if it also sends. Coins
      minted but not sent stay in the module account. */
  function Pay(bank: Bank, r: Reward, mints: set<string>, sends: set<string>): Bank {
    if r.validator !in mints then bank
    else if r.validator !in sends then bank.(minted := bank.minted + r.final, stuck := bank.stuck + r.final)
    else bank.(minted := bank.minted + r.final,
               paid := bank.paid[r.validator := PaidTo(bank, r.validator) + r.final])
  }

  function PayAll(bank: Bank, rs: seq<Reward>, mints: set<string>, sends: set<string>): Bank {
    if rs == [] then bank
    else Pay(PayAll(bank, rs[..|rs| - 1], mints, sends), rs[|rs| - 1], mints, sends)
  }

  /** What one block's distribution depends on. */
  datatype Block = Block(
    height: nat,
    lzn: map<string, nat>,
    moa: map<string, real>,
    thresholds: Thresholds,
    order: seq<string>,
    mints: set<string>,
    sends: set<string>)
  {
    function Split(base: nat): Input {
      Input(BaseReward(base, height), lzn, moa, thresholds)
    }

    ghost predicate Ordered() {
      IsOrder(order, lzn)
    }
  }

  /** The rewards the split assigns for this block. */
  ghost predicate Assigned(base: nat, b: Block, rs: seq<Reward>)
    requires b.Ordered()
  {
    if b.lzn == map[] || TotalLzn(b.lzn) % U64 == 0 then rs == []
    else
      assert TotalLzn(b.lzn) % U64 > 0;
      RemainderPlaced(b.Split(base), Listed(b.Split(base), TotalLzn(b.lzn) % U64, b.order), rs)
  }

  class Keeper {
    const base: nat
    var bank: Bank

    constructor (base: nat)
      ensures this.base == base && bank == Bank(0, 0, map[])
    {
      this.base := base;
      bank := Bank(0, 0, map[]);
    }

    method DistributeBaseRewards(b: Block) returns (rewards: seq<Reward>)
      requires base < U64 && b.Ordered()
      modifies this
      ensures Assigned(base, b, rewards)
      ensures bank == PayAll(old(bank), rewards, b.mints, b.sends)
    {
      rewards := AssignRewards(b);
      PayRewards(rewards, b.mints, b.sends);
    }

    method AssignRewards(b: Block) returns (rewards: seq<Reward>)
      requires base < U64 && b.Ordered()
      ensures Assigned(base, b, rewards)
    {
      var reward := CalculateBaseReward(base, b.height);
      RewardAtMostBase(base, b.height);
      if |b.lzn| == 0 {
        return [];
      }
      var split := CalculateRewardDistribution(b.Split(base).(reward := reward), b.order);
      match split
      case Err(e) =>
        assert e == NoValidators || e == ZeroTotal;
        return [];
      case Ok((rs, _)) =>
        return rs;
    }

    method PayRewards(rewards: seq<Reward>, mints: set<string>, sends: set<string>)
      modifies this
      ensures bank == PayAll(old(bank), rewards, mints, sends)
    {
      for i := 0 to |rewards|
        invariant bank == PayAll(old(bank), rewards[..i], mints, sends)
      {
        assert rewards[..i + 1][..i] == rewards[..i];
        var r := rewards[i];
        if r.validator in mints {
          bank := bank.(minted := bank.minted + r.final);
          if r.validator in sends {
            bank := bank.(paid := bank.paid[r.validator := PaidTo(bank, r.validator) + r.final]);
          } else {
            bank := bank.(stuck := bank.stuck + r.final);
          }
        }
      }
      assert rewards[..|rewards|] == rewards;
    }
  }

  lemma {:induction false} HalvedAtMostBase(base: nat, n: nat)
    ensures HalvedTimes(base, n) <= base
  {
    if n > 0 {
      HalvedAtMostBase(base, n - 1);
    }
  }

  lemma RewardAtMostBase(base: nat, height: nat)
    requires base < U64
    ensures BaseReward(base, height) < U64
  {
    HalvedAtMostBase(base, height / 210_000);
  }

  /** Minted coins are exactly those delivered plus those stuck, after any payments. */
  ghost predicate Balanced(bank: Bank) {
    bank.minted == bank.stuck + TotalBy(bank.paid, Amount)
  }

  lemma {:induction false} PayAllBalanced(bank: Bank, rs: seq<Reward>, mints: set<string>, sends: set<string>)
    requires Balanced(bank)
    ensures Balanced(PayAll(bank, rs, mints, sends))
  {
    if rs != [] {
      PayAllBalanced(bank, rs[..|rs| - 1], mints, sends);
      var b := PayAll(bank, rs[..|rs| - 1], mints, sends);
      var r := rs[|rs| - 1];
      var holds: nat := PaidTo(b, r.validator) + r.final;
      if r.validator in b.paid {
        TotalByUpdate(b.paid, Amount, r.validator, holds);
      } else {
        TotalByInsert(b.paid, Amount, r.validator, holds);
      }
    }
  }

  lemma {:induction false} PayAllMintsAll(bank: Bank, rs: seq<Reward>, mints: set<string>, sends: set<string>)
    requires forall r :: r in rs ==> r.validator in mints
    ensures PayAll(bank, rs, mints, sends).minted == bank.minted + Sum(Finals(rs))
  {
    if rs != [] {
      PayAllMintsAll(bank, rs[..|rs| - 1], mints, sends);
      FinalsAppend(rs[..|rs| - 1], rs[|rs| - 1]);
      assert rs == rs[..|rs| - 1] + [rs[|rs| - 1]];
    } else {
      assert Finals(rs) == [];
    }
  }

  lemma {:induction false} PayAllMints(bank: Bank, rs: seq<Reward>, mints: set<string>, sends: set<string>)
    ensures bank.minted <= PayAll(bank, rs, mints, sends).minted <= bank.minted + Sum(Finals(rs))
  {
    if rs != [] {
      PayAllMints(bank, rs[..|rs| - 1], mints, sends);
      FinalsAppend(rs[..|rs| - 1], rs[|rs| - 1]);
      assert rs == rs[..|rs| - 1] + [rs[|rs| - 1]];
    } else {
      assert Finals(rs) == [];
    }
  }

  // ---------- The licences the rewards are split over ----------

  /** The amounts read from the licence store, as unsigned numbers. */
  function AmountsOf(s: Lizenz.Store): map<string, nat> {
    map v | v in s && s[v].amount >= 0 :: s[v].amount
  }

  /** The amounts the keeper read, which can be fewer than those stored: ParseUint refuses a plus sign
      that ParseInt took. */
  ghost predicate ReadFrom(lzn: map<string, nat>, s: Lizenz.Store) {
    forall v :: v in lzn ==> v in AmountsOf(s) && lzn[v] == AmountsOf(s)[v]
  }

  /** Amounts read in some state the licence keeper can be in, while every minimum set by governance is
      at least k. */
  ghost predicate Licensed(lzn: map<string, nat>, k: int) {
    exists steps :: Lizenz.LimitsFrom(steps, k) && ReadFrom(lzn, Lizenz.Run(steps))
  }

  lemma {:induction false} AmountsAddUp(s: Lizenz.Store)
    requires forall v :: v in s ==> s[v].amount >= 0
    ensures TotalLzn(AmountsOf(s)) == Lizenz.Total(s)
    decreases |s|
  {
    if v :| v in s {
      TotalByPick(s, Lizenz.AmountIn, v);
      TotalByPick(AmountsOf(s), Amount, v);
      assert AmountsOf(s) - {v} == AmountsOf(s - {v});
      AmountsAddUp(s - {v});
    } else {
      assert s == map[] && AmountsOf(s) == map[];
    }
  }

  lemma {:induction false} FewerAddUpToLess(lzn: map<string, nat>, all: map<string, nat>)
    requires forall v :: v in lzn ==> v in all && lzn[v] == all[v]
    ensures TotalLzn(lzn) <= TotalLzn(all)
    decreases |lzn|
  {
    if v :| v in lzn {
      TotalByPick(lzn, Amount, v);
      TotalByPick(all, Amount, v);
      FewerAddUpToLess(lzn - {v}, all - {v});
    } else {
      assert lzn == map[];
      TotalByNonNegative(all, Amount);
    }
  }

  /** Without negative minima the amounts read never add up to more than int64, so the uint64 total does
      not wrap. */
  lemma LicensedFits(lzn: map<string, nat>)
    requires Licensed(lzn, 0)
    ensures TotalLzn(lzn) < U64
  {
    var steps :| Lizenz.LimitsFrom(steps, 0) && ReadFrom(lzn, Lizenz.Run(steps));
    Lizenz.RunFits(steps);
    AmountsAddUp(Lizenz.Run(steps));
    FewerAddUpToLess(lzn, AmountsOf(Lizenz.Run(steps)));
  }

  /** One block mints at most its subsidy. */
  lemma BlockMintsWithinSubsidy(base: nat, b: Block, rs: seq<Reward>, bank: Bank)
    requires base < U64 && b.Ordered() && Licensed(b.lzn, 0)
    requires Assigned(base, b, rs)
    ensures PayAll(bank, rs, b.mints, b.sends).minted <= bank.minted + BaseReward(base, b.height)
  {
    LicensedFits(b.lzn);
    PayAllMints(bank, rs, b.mints, b.sends);
    AssignedWithinSubsidy(base, b, rs);
  }

  lemma AssignedWithinSubsidy(base: nat, b: Block, rs: seq<Reward>)
    requires base < U64 && b.Ordered() && TotalLzn(b.lzn) < U64
    requires Assigned(base, b, rs)
    ensures Sum(Finals(rs)) <= BaseReward(base, b.height)
  {
    TotalByNonNegative(b.lzn, Amount);
    RewardAtMostBase(base, b.height);
    if rs == [] {
      assert Finals(rs) == [];
    } else {
      DistributedTotal(b.Split(base), b.order, rs);
    }
  }

  // ---------- Runs ----------

  /** A run of distributions, each over licences the licence keeper can hold, with the rewards each
      assigned. */
  ghost predicate ValidRun(base: nat, k: int, blocks: seq<Block>, rewards: seq<seq<Reward>>) {
    && |rewards| == |blocks|
    && forall i :: 0 <= i < |blocks| ==> ValidBlock(base, k, blocks[i], rewards[i])
  }

  ghost predicate ValidBlock(base: nat, k: int, b: Block, rs: seq<Reward>) {
    b.Ordered() && Licensed(b.lzn, k) && Assigned(base, b, rs)
  }

  function RunBank(blocks: seq<Block>, rewards: seq<seq<Reward>>): Bank
    requires |rewards| == |blocks|
  {
    if blocks == [] then Bank(0, 0, map[])
    else
      var n := |blocks| - 1;
      PayAll(RunBank(blocks[..n], rewards[..n]), rewards[n], blocks[n].mints, blocks[n].sends)
  }

  function Subsidies(base: nat, blocks: seq<Block>): seq<int> {
    seq(|blocks|, i requires 0 <= i < |blocks| => BaseReward(base, blocks[i].height))
  }

  lemma {:induction false} RunMintsSubsidies(base: nat, blocks: seq<Block>, rewards: seq<seq<Reward>>)
    requires base < U64 && ValidRun(base, 0, blocks, rewards)
    ensures RunBank(blocks, rewards).minted <= Sum(Subsidies(base, blocks))
    ensures Balanced(RunBank(blocks, rewards))
  {
    if blocks != [] {
      var n := |blocks| - 1;
      RunMintsSubsidies(base, blocks[..n], rewards[..n]);
      BlockMintsWithinSubsidy(base, blocks[n], rewards[n], RunBank(blocks[..n], rewards[..n]));
      PayAllBalanced(RunBank(blocks[..n], rewards[..n]), rewards[n], blocks[n].mints, blocks[n].sends);
      assert Subsidies(base, blocks)[..n] == Subsidies(base, blocks[..n]);
    }
  }

  ghost predicate DistinctHeights(blocks: seq<Block>, top: nat) {
    && (forall i :: 0 <= i < |blocks| ==> 1 <= blocks[i].height <= top)
    && (forall i, j :: 0 <= i < j < |blocks| ==> blocks[i].height != blocks[j].height)
  }

  lemma RemoveSubsidy(base: nat, blocks: seq<Block>, i: nat)
    requires i < |blocks|
    ensures Sum(Subsidies(base, blocks))
      == Sum(Subsidies(base, blocks[..i] + blocks[i + 1..])) + BaseReward(base, blocks[i].height)
  {
    var all := Subsidies(base, blocks);
    assert Subsidies(base, blocks[..i] + blocks[i + 1..]) == all[..i] + all[i + 1..];
    SumConcat(all[..i], all[i + 1..]);
    SumConcat(all[..i], all[i..]);
    assert all == all[..i] + all[i..];
    SumHead(all[i..]);
    assert all[i..][1..] == all[i + 1..];
  }

  lemma RemoveHeight(blocks: seq<Block>, i: nat, top: nat)
    requires DistinctHeights(blocks, top) && i < |blocks| && blocks[i].height == top
    ensures DistinctHeights(blocks[..i] + blocks[i + 1..], top - 1)
  {
    var rest := blocks[..i] + blocks[i + 1..];
    forall k | 0 <= k < |rest| ensures 1 <= rest[k].height <= top - 1 {
      assert rest[k] == blocks[if k < i then k else k + 1];
    }
  }

  lemma SomeHeight(blocks: seq<Block>, top: nat)
    requires DistinctHeights(blocks, top) && blocks != []
    ensures top >= 1
  {
    assert 1 <= blocks[0].height <= top;
  }

  /** Blocks at distinct heights up to the top cannot ask for more than all heights together. */
  lemma {:induction false} DistinctSubsidies(base: nat, blocks: seq<Block>, top: nat)
    requires DistinctHeights(blocks, top)
    ensures Sum(Subsidies(base, blocks)) <= Minted(base, top)
    decreases top
  {
    if blocks == [] {
      assert Subsidies(base, blocks) == [];
    } else {
      SomeHeight(blocks, top);
      if i :| 0 <= i < |blocks| && blocks[i].height == top {
        var rest := blocks[..i] + blocks[i + 1..];
        RemoveSubsidy(base, blocks, i);
        RemoveHeight(blocks, i, top);
        DistinctSubsidies(base, rest, top - 1);
      } else {
        DistinctSubsidies(base, blocks, top - 1);
      }
    }
  }

  /** Whatever the bank refuses and whoever is listed, a run over distinct heights up to `top` mints
      at most 2 * base * 210000 + top, and everything minted is delivered or stuck. */
  lemma RunEmissionBounded(base: nat, blocks: seq<Block>, rewards: seq<seq<Reward>>, top: nat)
    requires base < U64 && ValidRun(base, 0, blocks, rewards)
    requires DistinctHeights(blocks, top)
    ensures RunBank(blocks, rewards).minted <= 2 * base * 210_000 + top
    ensures Balanced(RunBank(blocks, rewards))
  {
    RunMintsSubsidies(base, blocks, rewards);
    DistinctSubsidies(base, blocks, top);
    MintedBound(base, top);
  }

  /** With the default base no run up to height 57979999 mints more than the total supply. */
  lemma RunWithinSupply(base: nat, blocks: seq<Block>, rewards: seq<seq<Reward>>, top: nat)
    requires base == DEFAULT_BASE && ValidRun(base, 0, blocks, rewards)
    requires DistinctHeights(blocks, top) && top <= LAST_HEIGHT_WITHIN_SUPPLY
    ensures RunBank(blocks, rewards).minted <= TOTAL_WRT_SUPPLY
  {
    RunMintsSubsidies(base, blocks, rewards);
    DistinctSubsidies(base, blocks, top);
    SupplyCapHoldsExactly(base, top);
  }

  // ---------- The full schedule is minted ----------

  const ONE: map<string, nat> := map["v" := 1]

  /** A height at which one fully compliant validator holds the only licence and the bank mints. */
  function FullBlock(height: nat): Block {
    Block(height, ONE, map[], Thresholds(1.0, 0.9, 0.7, 0.5), ["v"], {"v"}, {"v"})
  }

  function FullReward(base: nat, height: nat): seq<Reward> {
    [Reward("v", BaseReward(base, height), BaseReward(base, height))]
  }

  lemma FullBlockAssigned(base: nat, height: nat, b: Block, rs: seq<Reward>)
    requires base < U64 && b == FullBlock(height) && rs == FullReward(base, height)
    ensures b.Ordered() && Licensed(b.lzn, 0) && Assigned(base, b, rs)
  {
    RewardAtMostBase(base, height);
    OneValidator(b.Split(base), "v");
    OneLicence();
    FullShare(b.Split(base));
  }

  /** Alone and fully compliant, a validator is listed with the whole subsidy and nothing remains. */
  lemma FullShare(x: Input)
    requires x.lzn == ONE && x.moa == map[] && x.thresholds == Thresholds(1.0, 0.9, 0.7, 0.5) && x.reward < U64
    ensures RemainderPlaced(x, Listed(x, 1, ["v"]), [Reward("v", x.reward, x.reward)])
  {
    OneValidator(x, "v");
    var total: nat := 1;
    assert x.Share("v", total) == x.reward && x.Cut("v", total) == x.reward;
  }

  lemma OneLicence()
    ensures Licensed(ONE, 0)
  {
    var steps := [Lizenz.Activate(Lizenz.Limits(1, 1), "v", Lizenz.Licence(1, ""), true)];
    assert steps[..0] == [];
    assert Lizenz.Run(steps) == map["v" := Lizenz.Licence(1, "")];
    assert Lizenz.LimitsFrom(steps, 0) && ReadFrom(ONE, Lizenz.Run(steps));
  }

  function FullBlocks(top: nat): seq<Block> {
    seq(top, i requires 0 <= i < top => FullBlock(i + 1))
  }

  function FullRewards(base: nat, top: nat): seq<seq<Reward>> {
    seq(top, i requires 0 <= i < top => FullReward(base, i + 1))
  }

  lemma {:induction false} FullRunMints(base: nat, top: nat)
    ensures RunBank(FullBlocks(top), FullRewards(base, top)).minted == Minted(base, top)
  {
    if top > 0 {
      var n := top - 1;
      FullRunMints(base, n);
      assert FullBlocks(top)[..n] == FullBlocks(n) && FullRewards(base, top)[..n] == FullRewards(base, n);
      FullBlockPays(RunBank(FullBlocks(n), FullRewards(base, n)), base, top);
    }
  }

  lemma FullBlockPays(bank: Bank, base: nat, height: nat)
    ensures PayAll(bank, FullReward(base, height), {"v"}, {"v"}).minted == bank.minted + BaseReward(base, height)
  {
    var rs := FullReward(base, height);
    PayAllMintsAll(bank, rs, {"v"}, {"v"});
    assert rs == [] + [rs[0]] && Finals([]) == [];
    FinalsAppend([], rs[0]);
  }

  lemma FullRunIsValid(base: nat, top: nat)
    requires base < U64
    ensures ValidRun(base, 0, FullBlocks(top), FullRewards(base, top)) && DistinctHeights(FullBlocks(top), top)
  {
    var blocks, rewards := FullBlocks(top), FullRewards(base, top);
    forall i | 0 <= i < top ensures ValidBlock(base, 0, blocks[i], rewards[i]) {
      FullBlockAssigned(base, i + 1, blocks[i], rewards[i]);
    }
    FullHeights(top);
  }

  lemma FullHeights(top: nat)
    ensures DistinctHeights(FullBlocks(top), top)
  {
  }

  /** No run mints more than TotalWRTSupply. */
  ghost predicate WithinSupply(base: nat, top: nat) {
    forall blocks: seq<Block>, rewards: seq<seq<Reward>> ::
      ValidRun(base, 0, blocks, rewards) && DistinctHeights(blocks, top) ==>
      RunBank(blocks, rewards).minted <= TOTAL_WRT_SUPPLY
  }

  /** With the default base the supply cap holds of all runs over distinct heights up to `top` if and
      only if `top` is at most 57979999. */
  lemma RunSupplyExactly(base: nat, top: nat)
    requires base == DEFAULT_BASE
    ensures WithinSupply(base, top) <==> top <= LAST_HEIGHT_WITHIN_SUPPLY
  {
    if top <= LAST_HEIGHT_WITHIN_SUPPLY {
      forall blocks: seq<Block>, rewards: seq<seq<Reward>> |
        ValidRun(base, 0, blocks, rewards) && DistinctHeights(blocks, top)
        ensures RunBank(blocks, rewards).minted <= TOTAL_WRT_SUPPLY
      {
        RunWithinSupply(base, blocks, rewards, top);
      }
    } else {
      FullRunMints(base, top);
      FullRunIsValid(base, top);
      SupplyCapHoldsExactly(base, top);
    }
  }
}
