/** Runs of the blind auction, continued: what completing an auction burns, and how many bids a
    validator can get past the rapid-bid limiter. */
module AuctionLedger {
  import opened Wrappers
  import opened Decimal
  import opened Lottery
  import opened Sums
  import opened Auction
  import opened AuctionSafety
  import opened RateLimit

  // ---------- Burning ----------

  function Held(balance: string): int {
    AmountOf(balance)
  }

  ghost function TotalAnt(s: State): int {
    TotalBy(s.balances, Held)
  }

  /** The reveal a step selects as the winner, if it completes an auction. */
  ghost function WinnerOf(s: State, step: Step): Option<BidReveal> {
    match step
    case SelectStep(h, draw) => SelectedAt(s, h, draw)
    case EndBlockStep(h, draw) => SelectedAt(s, h, draw)
    case _ => None
  }

  ghost function SelectedAt(s: State, h: nat, draw: nat): Option<BidReveal> {
    if SelectError(s, h).Some? then None
    else Some(s.auctions[h].revealed[WinnerIndex(s.auctions[h], draw)])
  }

  ghost function BurnedBy(cfg: Config, s: State, step: Step): nat {
    match WinnerOf(s, step)
    case Some(r) => BurnAmount(cfg, s, r)
    case None => 0
  }

  ghost function TotalBurned(cfg: Config, s: State, steps: seq<Step>): nat {
    if steps == [] then 0
    else
      var before := steps[..|steps| - 1];
      TotalBurned(cfg, s, before) + BurnedBy(cfg, Run(cfg, s, before), steps[|steps| - 1])
  }

  /** Settling with the winner: a covered bid is burned in full, an uncovered one not at all, the
      winner's balance falls by exactly the burned amount, and nobody else's balance moves. */
  lemma BurnIsExact(cfg: Config, s: State, r: BidReveal)
    ensures forall v :: v != r.validator ==>
      (v in Burn(cfg, s, r) <==> v in s.balances) && (v in s.balances ==> Burn(cfg, s, r)[v] == s.balances[v])
    ensures r.validator !in s.balances ==> Burn(cfg, s, r) == s.balances && BurnAmount(cfg, s, r) == 0
    ensures r.validator in s.balances ==>
      var held := AmountOf(s.balances[r.validator]);
      && r.validator in Burn(cfg, s, r)
      && AmountOf(Burn(cfg, s, r)[r.validator]) == held - BurnAmount(cfg, s, r)
      && (cfg.antWired && ParseUint(s.balances[r.validator]).Some? ==>
          BurnAmount(cfg, s, r) == if held >= AmountOf(r.bidAmount) then AmountOf(r.bidAmount) else 0)
      && (!cfg.antWired || ParseUint(s.balances[r.validator]).None? ==> BurnAmount(cfg, s, r) == 0)
  {
    if r.validator in s.balances {
      match (ParseUint(s.balances[r.validator]), ParseUint(r.bidAmount)) {
        case (Some(balance), Some(bid)) =>
          if balance >= bid {
            ParseFormat(balance - bid);
          }
        case _ =>
      }
    }
  }

  lemma BurnMovesTotal(cfg: Config, s: State, r: BidReveal)
    ensures TotalBy(Burn(cfg, s, r), Held) == TotalAnt(s) - BurnAmount(cfg, s, r)
  {
    BurnIsExact(cfg, s, r);
    if r.validator in s.balances {
      var after := Burn(cfg, s, r)[r.validator];
      assert Burn(cfg, s, r) == s.balances[r.validator := after];
      TotalByUpdate(s.balances, Held, r.validator, after);
    }
  }

  /** What another module's write adds to the ANT balances, or takes from them. */
  function WrittenBy(s: State, step: Step): int {
    match step
    case BalanceStep(v, balance) => Held(balance) - if v in s.balances then Held(s.balances[v]) else 0
    case _ => 0
  }

  ghost function TotalWritten(cfg: Config, s: State, steps: seq<Step>): int {
    if steps == [] then 0
    else
      var before := steps[..|steps| - 1];
      TotalWritten(cfg, s, before) + WrittenBy(Run(cfg, s, before), steps[|steps| - 1])
  }

  lemma StepConserves(cfg: Config, s: State, step: Step)
    ensures TotalAnt(Apply(cfg, s, step)) + BurnedBy(cfg, s, step) == TotalAnt(s) + WrittenBy(s, step)
  {
    if step.BalanceStep? {
      if step.validator in s.balances {
        TotalByUpdate(s.balances, Held, step.validator, step.balance);
      } else {
        TotalByInsert(s.balances, Held, step.validator, step.balance);
      }
    } else {
      match WinnerOf(s, step)
      case Some(r) => BurnMovesTotal(cfg, s, r);
      case None =>
    }
  }

  /** On every run the ANT balances plus everything burned change only by what other modules write: the
      auction itself neither creates ANT nor loses any. */
  lemma {:induction false} RunConserves(cfg: Config, s: State, steps: seq<Step>)
    ensures TotalAnt(Run(cfg, s, steps)) + TotalBurned(cfg, s, steps) == TotalAnt(s) + TotalWritten(cfg, s, steps)
    ensures (forall i :: 0 <= i < |steps| ==> !steps[i].BalanceStep?) ==>
      TotalAnt(Run(cfg, s, steps)) + TotalBurned(cfg, s, steps) == TotalAnt(s)
  {
    if steps != [] {
      RunConserves(cfg, s, steps[..|steps| - 1]);
      StepConserves(cfg, Run(cfg, s, steps[..|steps| - 1]), steps[|steps| - 1]);
    }
  }

  /** Step i of the run completes the auction at `height`. */
  ghost predicate CompletesAt(cfg: Config, s: State, steps: seq<Step>, height: nat, i: nat)
    requires i < |steps|
  {
    && WinnerOf(At(cfg, s, steps, i), steps[i]).Some?
    && steps[i].height == height
  }

  /** A completing step finds the auction revealing and leaves it complete, with the reveal it
      burned from as winner. */
  lemma CompletionIsRecorded(cfg: Config, s: State, step: Step)
    requires WinnerOf(s, step).Some?
    ensures step.height in s.auctions && s.auctions[step.height].phase == Revealing
    ensures WinnerOf(s, step).value in s.auctions[step.height].revealed
    ensures var s' := Apply(cfg, s, step);
      && step.height in s'.auctions
      && s'.auctions[step.height].phase == Complete
      && WonBy(s'.auctions[step.height], WinnerOf(s, step).value)
  {
  }

  /** An auction is completed, and so burned for, at most once between creation and deletion. */
  lemma CompletesAtMostOnce(cfg: Config, s: State, steps: seq<Step>, height: nat, i: nat, j: nat)
    requires Inv(cfg, s)
    requires i < j < |steps|
    requires CompletesAt(cfg, s, steps, height, i) && CompletesAt(cfg, s, steps, height, j)
    ensures !StoredThroughout(cfg, s, steps, height, i + 1, j)
  {
    CompletionIsRecorded(cfg, At(cfg, s, steps, i), steps[i]);
    CompletionIsRecorded(cfg, At(cfg, s, steps, j), steps[j]);
    AtStep(cfg, s, steps, i);
    if StoredThroughout(cfg, s, steps, height, i + 1, j) {
      RunDevelops(cfg, s, steps, height, i + 1, j);
    }
  }

  // ---------- Rapid bids ----------

  /** The block times at which a validator's reveals were accepted and recorded. */
  ghost function Log(cfg: Config, s: State, steps: seq<Step>, v: string): seq<int> {
    if steps == [] then []
    else
      var before := steps[..|steps| - 1];
      var log := Log(cfg, s, before, v);
      var step := steps[|steps| - 1];
      if Accepts(cfg, Run(cfg, s, before), step, v) then log + [step.now] else log
  }

  ghost predicate NoLaterThan(steps: seq<Step>, t: int) {
    forall i :: 0 <= i < |steps| && steps[i].RevealStep? ==> steps[i].now <= t
  }

  /** Block times never go back. */
  ghost predicate TimesOrdered(steps: seq<Step>) {
    forall i :: 0 <= i < |steps| && steps[i].RevealStep? ==> NoLaterThan(steps[..i], steps[i].now)
  }

  lemma TimesOrderedPrefix(steps: seq<Step>)
    requires steps != [] && TimesOrdered(steps)
    ensures TimesOrdered(steps[..|steps| - 1])
  {
    var before := steps[..|steps| - 1];
    forall i | 0 <= i < |before| && before[i].RevealStep? ensures NoLaterThan(before[..i], before[i].now) {
      assert before[..i] == steps[..i];
    }
  }

  lemma {:induction false} LogNoLater(cfg: Config, s: State, steps: seq<Step>, v: string, t: int)
    requires NoLaterThan(steps, t)
    ensures forall i :: 0 <= i < |Log(cfg, s, steps, v)| ==> Log(cfg, s, steps, v)[i] <= t
  {
    if steps != [] {
      LogNoLater(cfg, s, steps[..|steps| - 1], v, t);
    }
  }

  /** Only an accepted reveal of v touches v's history. */
  lemma HistoryFrame(cfg: Config, s: State, step: Step, v: string)
    requires !(step.RevealStep? && step.validator == v)
    ensures HistoryOf(Apply(cfg, s, step), v) == HistoryOf(s, v)
  {
  }

  lemma RecordKeepsNewest(cfg: Config, s: State, v: string, bid: string, now: int, log: seq<int>)
    requires Timestamps(HistoryOf(s, v)) == Newest(log, cfg.params.HistoryCap())
    ensures Timestamps(HistoryOf(Record(cfg, s, v, bid, now), v)) == Newest(log + [now], cfg.params.HistoryCap())
  {
    var entries := HistoryOf(s, v) + [BidEntry(bid, now)];
    assert Timestamps(entries) == Timestamps(HistoryOf(s, v)) + [now];
    assert HistoryOf(Record(cfg, s, v, bid, now), v) == Newest(entries, cfg.params.HistoryCap());
  }

  /** What is stored is always the newest part of the full log, although the rest is forgotten. */
  lemma {:induction false} HistoryIsNewestLog(cfg: Config, s: State, steps: seq<Step>, v: string)
    requires HistoryOf(s, v) == []
    ensures Timestamps(HistoryOf(Run(cfg, s, steps), v)) == Newest(Log(cfg, s, steps, v), cfg.params.HistoryCap())
  {
    if steps != [] {
      var before := steps[..|steps| - 1];
      HistoryIsNewestLog(cfg, s, before, v);
      StepKeepsNewest(cfg, Run(cfg, s, before), steps[|steps| - 1], v, Log(cfg, s, before, v));
    }
  }

  /** Whether a step is an accepted reveal of v. */
  ghost predicate Accepts(cfg: Config, s: State, step: Step, v: string) {
    && step.RevealStep? && step.validator == v
    && RevealError(cfg, s, step.validator, step.nonce, step.bidAmount, step.height, step.now).None?
  }

  lemma StepKeepsNewest(cfg: Config, s: State, step: Step, v: string, log: seq<int>)
    requires Timestamps(HistoryOf(s, v)) == Newest(log, cfg.params.HistoryCap())
    ensures Timestamps(HistoryOf(Apply(cfg, s, step), v))
      == Newest(if Accepts(cfg, s, step, v) then log + [step.now] else log, cfg.params.HistoryCap())
  {
    if Accepts(cfg, s, step, v) {
      RecordKeepsNewest(cfg, s, v, step.bidAmount, step.now, log);
    } else if step.RevealStep? && step.validator == v {
      assert Apply(cfg, s, step) == s;
    } else {
      HistoryFrame(cfg, s, step, v);
    }
  }

  lemma AcceptedWasNotRapid(cfg: Config, s: State, step: Step, v: string)
    requires Accepts(cfg, s, step, v)
    ensures Recent(Timestamps(HistoryOf(s, v)), step.now) < cfg.params.RapidLimit()
  {
    assert BidError(cfg, s, v, step.bidAmount, step.now).None?;
  }

  lemma {:induction false} LogIsSpaced(cfg: Config, s: State, steps: seq<Step>, v: string)
    requires HistoryOf(s, v) == []
    requires TimesOrdered(steps)
    requires cfg.params.RapidLimit() <= cfg.params.HistoryCap()
    ensures Ordered(Log(cfg, s, steps, v))
    ensures Spaced(Log(cfg, s, steps, v), cfg.params.RapidLimit())
  {
    if steps != [] {
      var before := steps[..|steps| - 1];
      var step := steps[|steps| - 1];
      TimesOrderedPrefix(steps);
      LogIsSpaced(cfg, s, before, v);
      if step.RevealStep? {
        LogNoLater(cfg, s, before, v, step.now);
        HistoryIsNewestLog(cfg, s, before, v);
        NextLogIsSpaced(cfg, Run(cfg, s, before), step, v, Log(cfg, s, before, v));
      }
    }
  }

  lemma NextLogIsSpaced(cfg: Config, s: State, step: Step, v: string, log: seq<int>)
    requires step.RevealStep?
    requires cfg.params.RapidLimit() <= cfg.params.HistoryCap()
    requires Timestamps(HistoryOf(s, v)) == Newest(log, cfg.params.HistoryCap())
    requires Ordered(log) && Spaced(log, cfg.params.RapidLimit())
    requires forall i :: 0 <= i < |log| ==> log[i] <= step.now
    ensures Accepts(cfg, s, step, v) ==>
      Ordered(log + [step.now]) && Spaced(log + [step.now], cfg.params.RapidLimit())
  {
    if Accepts(cfg, s, step, v) {
      AcceptedWasNotRapid(cfg, s, step, v);
      AcceptKeepsSpacing(log, step.now, cfg.params.RapidLimit(), cfg.params.HistoryCap());
    }
  }

  /** On every run with non-decreasing block times, no window of 100 seconds holds more accepted
      reveals of one validator than the limit, provided the stored history is no shorter. */
  lemma RapidBidsBounded(cfg: Config, s: State, steps: seq<Step>, v: string, from: int)
    requires HistoryOf(s, v) == []
    requires TimesOrdered(steps)
    requires cfg.params.RapidLimit() <= cfg.params.HistoryCap()
    ensures InWindow(Log(cfg, s, steps, v), from) <= cfg.params.RapidLimit()
  {
    LogIsSpaced(cfg, s, steps, v);
    SpacedBoundsWindow(Log(cfg, s, steps, v), cfg.params.RapidLimit(), from);
  }
}
