/** When the rapid-bid limiter limits at all: runs of the auction that outbid a limit longer than the
    stored history. */
module AuctionBursts {
  import opened Wrappers
  import opened Decimal
  import opened Auction
  import opened AuctionLedger
  import opened RateLimit

  /** Whatever happens, no window of 100 seconds holds more accepted reveals than the limit. */
  ghost predicate RapidLimitHolds(cfg: Config) {
    forall s: State, steps: seq<Step>, v: string, from: int ::
      HistoryOf(s, v) == [] && TimesOrdered(steps) ==>
      InWindow(Log(cfg, s, steps, v), from) <= cfg.params.RapidLimit()
  }

  /** Commitments are 64 characters long, and a bid of 1 is not above the maximum. */
  ghost predicate Biddable(cfg: Config) {
    (forall x :: |cfg.hash(x)| == 64) && (cfg.params.maxBid.Some? ==> cfg.params.maxBid.value >= 1)
  }

  function Commit(cfg: Config, k: nat): Step {
    CommitStep("v", HashCommit(cfg, "n", "1"), k)
  }

  /** One commit and its reveal in the same second, at each of n heights. */
  function Script(cfg: Config, n: nat): seq<Step> {
    if n == 0 then []
    else
      Script(cfg, n - 1) + [Commit(cfg, n - 1)] + [TransitionStep(n - 1)] + [RevealStep("v", "n", "1", n - 1, 0)]
  }

  lemma OneIsReadable()
    ensures ParseUint("1") == Some(1)
  {
    assert FormatUint(1) == "1";
    ParseFormat(1);
  }

  /** At a fresh height commit, transition and reveal all succeed while the limiter lets the bid by. */
  lemma HeightAccepts(cfg: Config, s: State, k: nat)
    requires Biddable(cfg) && k !in s.auctions
    requires "v" in s.balances && s.balances["v"] == "1"
    requires Recent(Timestamps(HistoryOf(s, "v")), 0) < cfg.params.RapidLimit()
    ensures var s1 := Apply(cfg, s, Commit(cfg, k));
      var s2 := Apply(cfg, s1, TransitionStep(k));
      var s3 := Apply(cfg, s2, RevealStep("v", "n", "1", k, 0));
      && RevealError(cfg, s2, "v", "n", "1", k, 0).None?
      && s3.auctions.Keys == s.auctions.Keys + {k} && s3.balances == s.balances
  {
    var c := EncryptedBid("v", HashCommit(cfg, "n", "1"));
    var s1 := Apply(cfg, s, Commit(cfg, k));
    assert s1.auctions[k] == Fresh(k).(commits := [] + [c]);
    var s2 := Apply(cfg, s1, TransitionStep(k));
    assert s2.auctions[k] == Fresh(k).(phase := Revealing, commits := [c]);
    assert s2.history == s.history && s2.balances == s.balances;
    OneIsReadable();
    assert BidError(cfg, s2, "v", "1", 0).None?;
    assert CommitOf([c], "v") == Some(c);
  }

  lemma StepAppends(cfg: Config, s: State, steps: seq<Step>, step: Step, v: string)
    ensures Run(cfg, s, steps + [step]) == Apply(cfg, Run(cfg, s, steps), step)
    ensures Log(cfg, s, steps + [step], v)
      == if Accepts(cfg, Run(cfg, s, steps), step, v) then Log(cfg, s, steps, v) + [step.now]
         else Log(cfg, s, steps, v)
  {
    assert (steps + [step])[..|steps|] == steps;
  }

  const START: State := State(map[], map[], map["v" := "1"])

  /** n bids were accepted, all at time 0, at heights below n. */
  ghost predicate AllAccepted(cfg: Config, steps: seq<Step>, n: nat) {
    && Log(cfg, START, steps, "v") == Burst(n)
    && (forall h :: h in Run(cfg, START, steps).auctions ==> h < n)
    && Run(cfg, START, steps).balances == START.balances
  }

  lemma OneMoreAccepted(cfg: Config, steps: seq<Step>, k: nat)
    requires Biddable(cfg) && cfg.params.HistoryCap() < cfg.params.RapidLimit()
    requires AllAccepted(cfg, steps, k)
    ensures AllAccepted(cfg, steps + [Commit(cfg, k)] + [TransitionStep(k)] + [RevealStep("v", "n", "1", k, 0)], k + 1)
  {
    HistoryIsNewestLog(cfg, START, steps, "v");
    RecentAtMost(Newest(Burst(k), cfg.params.HistoryCap()), 0);
    HeightAccepts(cfg, Run(cfg, START, steps), k);
    StepAppends(cfg, START, steps, Commit(cfg, k), "v");
    StepAppends(cfg, START, steps + [Commit(cfg, k)], TransitionStep(k), "v");
    StepAppends(cfg, START, steps + [Commit(cfg, k)] + [TransitionStep(k)], RevealStep("v", "n", "1", k, 0), "v");
    assert Burst(k) + [0] == Burst(k + 1);
  }

  /** With a history shorter than the limit every bid of the script is accepted. */
  lemma {:induction false} ScriptAccepted(cfg: Config, n: nat)
    requires Biddable(cfg) && cfg.params.HistoryCap() < cfg.params.RapidLimit()
    ensures AllAccepted(cfg, Script(cfg, n), n)
  {
    if n == 0 {
      assert Burst(0) == [];
    } else {
      ScriptAccepted(cfg, n - 1);
      OneMoreAccepted(cfg, Script(cfg, n - 1), n - 1);
    }
  }

  lemma {:induction false} ScriptOrdered(cfg: Config, n: nat)
    ensures TimesOrdered(Script(cfg, n)) && NoLaterThan(Script(cfg, n), 0)
  {
    if n > 0 {
      var k: nat, before := n - 1, Script(cfg, n - 1);
      ScriptOrdered(cfg, k);
      StaysOrdered(before, Commit(cfg, k));
      StaysOrdered(before + [Commit(cfg, k)], TransitionStep(k));
      StaysOrdered(before + [Commit(cfg, k)] + [TransitionStep(k)], RevealStep("v", "n", "1", k, 0));
    }
  }

  lemma StaysOrdered(steps: seq<Step>, step: Step)
    requires TimesOrdered(steps) && NoLaterThan(steps, 0) && (step.RevealStep? ==> step.now == 0)
    ensures TimesOrdered(steps + [step]) && NoLaterThan(steps + [step], 0)
  {
    var all := steps + [step];
    forall i | 0 <= i < |all| && all[i].RevealStep? ensures NoLaterThan(all[..i], all[i].now) {
      assert all[..i] == steps[..i];
      if i < |steps| {
        assert steps[i].RevealStep?;
      }
    }
  }

  /** On runs of the auction the rapid-bid limit holds if and only if the stored history is at least as
      long as the limit. */
  lemma RapidLimitExactly(cfg: Config)
    requires Biddable(cfg)
    ensures RapidLimitHolds(cfg) <==> cfg.params.RapidLimit() <= cfg.params.HistoryCap()
  {
    var limit := cfg.params.RapidLimit();
    if limit <= cfg.params.HistoryCap() {
      forall s: State, steps: seq<Step>, v: string, from: int |
        HistoryOf(s, v) == [] && TimesOrdered(steps)
        ensures InWindow(Log(cfg, s, steps, v), from) <= limit
      {
        RapidBidsBounded(cfg, s, steps, v, from);
      }
    } else {
      ScriptAccepted(cfg, limit + 1);
      ScriptOrdered(cfg, limit + 1);
      ShortHistoryAcceptsAll(limit, cfg.params.HistoryCap(), limit + 1);
      assert InWindow(Log(cfg, START, Script(cfg, limit + 1), "v"), 0) == limit + 1;
    }
  }
}
