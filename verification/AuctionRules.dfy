/** What each auction message asks for and does, read off the state alone. */
module AuctionRules {
  import opened Wrappers
  import opened Decimal
  import opened Auction
  import opened AuctionLedger
  import opened RateLimit
  import opened Sums

  // ---------- Reveals ----------

  /** The validator's first commit in the list holds this hash. */
  ghost predicate CommittedTo(commits: seq<EncryptedBid>, validator: string, hash: string) {
    exists i :: 0 <= i < |commits| && commits[i].validator == validator && commits[i].commitHash == hash
      && forall j :: 0 <= j < i ==> commits[j].validator != validator
  }

  /** The bid is a positive number the validator can pay and the maximum allows. */
  ghost predicate Payable(cfg: Config, s: State, validator: string, bidAmount: string) {
    && ParseUint(bidAmount).Some? && ParseUint(bidAmount).value > 0
    && (cfg.antWired ==>
          && validator in s.balances && ParseUint(s.balances[validator]).Some?
          && ParseUint(bidAmount).value <= ParseUint(s.balances[validator]).value)
    && (cfg.params.maxBid.Some? ==> ParseUint(bidAmount).value <= cfg.params.maxBid.value)
  }

  ghost function StoredBids(s: State, validator: string): seq<BidEntry> {
    if validator in s.history then s.history[validator] else []
  }

  /** The stored bids younger than 100 seconds. */
  ghost function YoungBids(s: State, validator: string, now: int): set<int> {
    set i: int | 0 <= i < |StoredBids(s, validator)| && now - StoredBids(s, validator)[i].timestamp < 100
  }

  /** Everything a reveal needs. */
  ghost predicate Revealable(cfg: Config, s: State, validator: string, nonce: string, bidAmount: string,
      height: nat, now: int) {
    && height in s.auctions && s.auctions[height].phase == Revealing
    && CommittedTo(s.auctions[height].commits, validator, cfg.hash(nonce + ":" + bidAmount))
    && (forall i :: 0 <= i < |s.auctions[height].revealed| ==> s.auctions[height].revealed[i].validator != validator)
    && Payable(cfg, s, validator, bidAmount)
    && |YoungBids(s, validator, now)| < (if cfg.params.rapidBidLimit == 0 then 5 else cfg.params.rapidBidLimit)
  }

  lemma {:induction false} FirstCommitExactly(commits: seq<EncryptedBid>, validator: string, hash: string)
    ensures CommittedTo(commits, validator, hash) <==>
      CommitOf(commits, validator).Some? && CommitOf(commits, validator).value.commitHash == hash
    decreases |commits|
  {
    if commits != [] && commits[0].validator != validator {
      FirstCommitExactly(commits[1..], validator, hash);
      if CommittedTo(commits, validator, hash) {
        var i :| 0 <= i < |commits| && commits[i].validator == validator && commits[i].commitHash == hash
          && forall j :: 0 <= j < i ==> commits[j].validator != validator;
        assert commits[1..][i - 1] == commits[i];
      }
      if CommittedTo(commits[1..], validator, hash) {
        var i :| 0 <= i < |commits| - 1 && commits[1..][i].validator == validator
          && commits[1..][i].commitHash == hash && forall j :: 0 <= j < i ==> commits[1..][j].validator != validator;
        assert commits[i + 1] == commits[1..][i];
        forall j | 0 <= j < i + 1 ensures commits[j].validator != validator {
          assert j > 0 ==> commits[j] == commits[1..][j - 1];
        }
      }
    }
  }

  /** The limiter's counter is the number of stored bids younger than 100 seconds. */
  lemma {:induction false} RecentCounts(history: seq<BidEntry>, now: int)
    ensures Recent(Timestamps(history), now) == |set i: int | 0 <= i < |history| && now - history[i].timestamp < 100|
  {
    var all := set i: int | 0 <= i < |history| && now - history[i].timestamp < 100;
    if history == [] {
      assert all == {};
    } else {
      var n := |history| - 1;
      RecentCounts(history[..n], now);
      var young := set i: int | 0 <= i < n && now - history[..n][i].timestamp < 100;
      assert Timestamps(history)[..n] == Timestamps(history[..n]);
      assert all == if now - history[n].timestamp < 100 then young + {n} else young;
    }
  }

  /** A reveal is accepted if and only if the auction is revealing, the validator's own commit has the
      hash and is not yet opened, the bid is positive, covered by the validator's balance and within the
      maximum, and fewer than the limit of its stored bids are younger than 100 seconds. */
  lemma RevealAcceptedExactly(cfg: Config, s: State, validator: string, nonce: string, bidAmount: string,
      height: nat, now: int)
    ensures RevealBid(cfg, s, validator, nonce, bidAmount, height, now).1.None?
      <==> Revealable(cfg, s, validator, nonce, bidAmount, height, now)
  {
    RecentCounts(StoredBids(s, validator), now);
    if height in s.auctions {
      FirstCommitExactly(s.auctions[height].commits, validator, cfg.hash(nonce + ":" + bidAmount));
    }
  }

  /** What each refusal of a reveal says. */
  ghost predicate RevealReason(cfg: Config, s: State, validator: string, nonce: string, bidAmount: string,
      height: nat, now: int, e: Error) {
    match e
    case AuctionNotFound => height !in s.auctions
    case NotInRevealPhase => height in s.auctions && s.auctions[height].phase != Revealing
    case NotCommitted =>
      height in s.auctions
      && forall i :: 0 <= i < |s.auctions[height].commits| ==> s.auctions[height].commits[i].validator != validator
    case AlreadyRevealed =>
      height in s.auctions
      && exists i :: 0 <= i < |s.auctions[height].revealed| && s.auctions[height].revealed[i].validator == validator
    case HashMismatch =>
      height in s.auctions
      && !CommittedTo(s.auctions[height].commits, validator, cfg.hash(nonce + ":" + bidAmount))
    case InvalidBid => ParseUint(bidAmount) == None || ParseUint(bidAmount) == Some(0)
    case NoPosition => cfg.antWired && validator !in s.balances
    case InvalidBalance => cfg.antWired && validator in s.balances && ParseUint(s.balances[validator]).None?
    case InsufficientBalance =>
      cfg.antWired && validator in s.balances && ParseUint(s.balances[validator]).Some?
      && ParseUint(bidAmount).Some? && ParseUint(s.balances[validator]).value < ParseUint(bidAmount).value
    case ExceedsMaximum =>
      cfg.params.maxBid.Some? && ParseUint(bidAmount).Some? && ParseUint(bidAmount).value > cfg.params.maxBid.value
    case TooManyRapidBids =>
      |YoungBids(s, validator, now)| >= (if cfg.params.rapidBidLimit == 0 then 5 else cfg.params.rapidBidLimit)
    case _ => false
  }

  /** A refusal names a requirement that is really not met. */
  lemma RevealRefusedRightly(cfg: Config, s: State, validator: string, nonce: string, bidAmount: string,
      height: nat, now: int)
    requires RevealBid(cfg, s, validator, nonce, bidAmount, height, now).1.Some?
    ensures RevealReason(cfg, s, validator, nonce, bidAmount, height, now,
                         RevealBid(cfg, s, validator, nonce, bidAmount, height, now).1.value)
  {
    RecentCounts(StoredBids(s, validator), now);
    if height in s.auctions {
      FirstCommitExactly(s.auctions[height].commits, validator, cfg.hash(nonce + ":" + bidAmount));
      NoCommit(s.auctions[height].commits, validator);
    }
  }

  lemma {:induction false} NoCommit(commits: seq<EncryptedBid>, validator: string)
    ensures CommitOf(commits, validator).None? ==>
      forall i :: 0 <= i < |commits| ==> commits[i].validator != validator
  {
    if commits != [] {
      NoCommit(commits[1..], validator);
      assert forall i :: 0 < i < |commits| ==> commits[i] == commits[1..][i - 1];
    }
  }

  /** An accepted reveal adds itself to the auction and to the validator's history, which keeps its
      newest entries, and touches nothing else; a refused one touches nothing. */
  lemma RevealRecords(cfg: Config, s: State, validator: string, nonce: string, bidAmount: string, height: nat,
      now: int)
    ensures var s' := RevealBid(cfg, s, validator, nonce, bidAmount, height, now).0;
      if !Revealable(cfg, s, validator, nonce, bidAmount, height, now) then s' == s
      else
        && s'.auctions.Keys == s.auctions.Keys && s'.balances == s.balances
        && s'.auctions[height]
           == s.auctions[height].(revealed := s.auctions[height].revealed + [BidReveal(validator, nonce, bidAmount)])
        && (forall h :: h in s.auctions && h != height ==> s'.auctions[h] == s.auctions[h])
        && (forall u :: u != validator ==> StoredBids(s', u) == StoredBids(s, u))
        && IsNewest(StoredBids(s', validator), StoredBids(s, validator) + [BidEntry(bidAmount, now)],
                    if cfg.params.bidHistoryLimit == 0 then 100 else cfg.params.bidHistoryLimit)
  {
    RevealAcceptedExactly(cfg, s, validator, nonce, bidAmount, height, now);
  }

  /** The end of the whole list, as long as the limit allows. */
  ghost predicate IsNewest(kept: seq<BidEntry>, whole: seq<BidEntry>, limit: nat) {
    && |kept| == (if |whole| <= limit then |whole| else limit)
    && kept == whole[|whole| - |kept|..]
  }

  /** Every entry of the whole log was a reveal its validator's balance covered when it was made. */
  lemma {:induction false} LogCovered(cfg: Config, s: State, steps: seq<Step>, v: string, k: nat) returns (i: nat)
    requires k < |Log(cfg, s, steps, v)|
    ensures i < |steps| && steps[i].RevealStep? && steps[i].validator == v && steps[i].now == Log(cfg, s, steps, v)[k]
    ensures Revealable(cfg, At(cfg, s, steps, i), v, steps[i].nonce, steps[i].bidAmount, steps[i].height, steps[i].now)
  {
    var n := |steps| - 1;
    var init := steps[..n];
    if k < |Log(cfg, s, init, v)| {
      i := LogCovered(cfg, s, init, v, k);
      assert init[..i] == steps[..i];
    } else {
      i := n;
      var step := steps[n];
      RevealAcceptedExactly(cfg, Run(cfg, s, init), v, step.nonce, step.bidAmount, step.height, step.now);
    }
  }

  // ---------- Commits ----------

  /** A commit is accepted if and only if no auction at the height is past its commit phase, the
      validator has not committed, and the hash has 64 characters. */
  lemma CommitAcceptedExactly(s: State, validator: string, commitHash: string, height: nat)
    ensures CommitBid(s, validator, commitHash, height).1.None? <==>
      && |commitHash| == 64
      && (height in s.auctions ==>
            && s.auctions[height].phase == Committing
            && forall i :: 0 <= i < |s.auctions[height].commits| ==>
                 s.auctions[height].commits[i].validator != validator)
  {
  }

  /** A refusal names a requirement that is really not met. */
  lemma CommitRefusedRightly(s: State, validator: string, commitHash: string, height: nat)
    ensures match CommitBid(s, validator, commitHash, height).1
      case None => true
      case Some(NotInCommitPhase) => height in s.auctions && s.auctions[height].phase != Committing
      case Some(AlreadyCommitted) =>
        height in s.auctions
        && exists i :: 0 <= i < |s.auctions[height].commits| && s.auctions[height].commits[i].validator == validator
      case Some(InvalidCommitHash) => |commitHash| != 64
      case Some(_) => false
  {
  }

  /** Either way an auction is stored at the height afterwards, an accepted commit is its last one, and
      nothing else changes. */
  lemma CommitRecords(s: State, validator: string, commitHash: string, height: nat)
    ensures var (s', e) := CommitBid(s, validator, commitHash, height);
      && s'.auctions.Keys == s.auctions.Keys + {height}
      && s'.history == s.history && s'.balances == s.balances
      && (forall h :: h in s.auctions && h != height ==> s'.auctions[h] == s.auctions[h])
    ensures var (s', e) := CommitBid(s, validator, commitHash, height);
      var was := if height in s.auctions then s.auctions[height] else BlindAuction(height, Committing, [], [], "", "0");
      s'.auctions[height]
        == if e.Some? then was else was.(commits := was.commits + [EncryptedBid(validator, commitHash)])
  {
  }

  // ---------- Phases ----------

  /** A transition opens the reveals of a committing auction and does nothing else; it fails only where
      nothing is stored. */
  lemma TransitionExactly(s: State, height: nat)
    ensures Transition(s, height).1.None? <==> height in s.auctions
    ensures var s' := Transition(s, height).0;
      && s'.auctions.Keys == s.auctions.Keys && s'.history == s.history && s'.balances == s.balances
      && forall h :: h in s.auctions ==>
           s'.auctions[h] == if h == height && s.auctions[h].phase == Committing then s.auctions[h].(phase := Revealing)
                             else s.auctions[h]
  {
  }

  /** The revealed amounts, unreadable ones counting as nothing. */
  ghost function RevealedTotal(revealed: seq<BidReveal>): nat {
    if revealed == [] then 0
    else
      RevealedTotal(revealed[..|revealed| - 1])
      + match ParseUint(revealed[|revealed| - 1].bidAmount)
        case Some(b) => b
        case None => 0
  }

  lemma {:induction false} WeightsTotal(revealed: seq<BidReveal>)
    ensures Sum(Weights(revealed)) == RevealedTotal(revealed)
  {
    if revealed != [] {
      WeightsTotal(revealed[..|revealed| - 1]);
      assert Weights(revealed)[..|revealed| - 1] == Weights(revealed[..|revealed| - 1]);
    }
  }

  /** A winner is selected if and only if the auction is revealing and its revealed amounts add up, in 64
      bits, to something other than zero. */
  lemma SelectSucceedsExactly(cfg: Config, s: State, height: nat, draw: nat)
    ensures Select(cfg, s, height, draw).1.None? <==>
      height in s.auctions && s.auctions[height].phase == Revealing
      && RevealedTotal(s.auctions[height].revealed) % U64 != 0
  {
    if height in s.auctions {
      var w := Weights(s.auctions[height].revealed);
      WeightsTotal(s.auctions[height].revealed);
      assert w[..|w|] == w;
    }
  }

  /** A refusal names a requirement that is really not met. */
  lemma SelectRefusedRightly(cfg: Config, s: State, height: nat, draw: nat)
    ensures match Select(cfg, s, height, draw).1
      case None => true
      case Some(AuctionNotFound) => height !in s.auctions
      case Some(NotInRevealPhase) => height in s.auctions && s.auctions[height].phase != Revealing
      case Some(NoReveals) => height in s.auctions && s.auctions[height].revealed == []
      case Some(ZeroTotal) => height in s.auctions && RevealedTotal(s.auctions[height].revealed) % U64 == 0
      case Some(_) => false
  {
    SelectSucceedsExactly(cfg, s, height, draw);
  }

  /** A selection completes this auction with one of its reveals and pays from that validator's balance
      only; without one nothing changes. */
  lemma SelectRecordsWinner(cfg: Config, s: State, height: nat, draw: nat)
    ensures var (s', e) := Select(cfg, s, height, draw);
      && s'.auctions.Keys == s.auctions.Keys && s'.history == s.history
      && (forall h :: h in s.auctions && h != height ==> s'.auctions[h] == s.auctions[h])
      && (e.Some? ==> s' == s)
      && (e.None? ==>
            && s'.auctions[height].phase == Complete
            && s'.auctions[height].commits == s.auctions[height].commits
            && s'.auctions[height].revealed == s.auctions[height].revealed
            && exists r :: r in s.auctions[height].revealed && s'.auctions[height].winner == r.validator
                 && s'.auctions[height].winningBid == r.bidAmount
                 && forall u :: u != r.validator ==>
                      (u in s'.balances <==> u in s.balances) && (u in s.balances ==> s'.balances[u] == s.balances[u]))
  {
    if SelectError(s, height).None? {
      var a := s.auctions[height];
      var r := a.revealed[WinnerIndex(a, draw)];
      assert r in a.revealed;
      BurnIsExact(cfg, s, r);
    }
  }

  // ---------- Cleanup and EndBlocker ----------

  /** A cleanup deletes an auction if and only if it is complete, above height 0, and more than the kept
      number of blocks (100 unless set) below the current height. What stays is untouched. */
  lemma CleanupExactly(cfg: Config, s: State, current: nat, h: nat)
    requires h in s.auctions
    ensures var keep := if cfg.params.auctionHistoryBlocks == 0 then 100 else cfg.params.auctionHistoryBlocks;
      h !in Cleanup(cfg, s, current).auctions <==> s.auctions[h].phase == Complete && h >= 1 && h + keep < current
    ensures h in Cleanup(cfg, s, current).auctions ==> Cleanup(cfg, s, current).auctions[h] == s.auctions[h]
  {
  }

  lemma CleanupTouchesAuctionsOnly(cfg: Config, s: State, current: nat)
    ensures Cleanup(cfg, s, current).auctions.Keys <= s.auctions.Keys
    ensures Cleanup(cfg, s, current).history == s.history && Cleanup(cfg, s, current).balances == s.balances
  {
  }

  /** What EndBlocker makes of the auction at its own height. */
  lemma EndBlockMoves(cfg: Config, s: State, height: nat, draw: nat)
    requires height in s.auctions
    ensures var a := s.auctions[height];
      var s' := EndBlock(cfg, s, height, draw);
      && height in s'.auctions
      && (a.phase == Committing ==>
            s'.auctions[height] == (if a.commits == [] then a else a.(phase := Revealing)) && s'.balances == s.balances)
      && (a.phase == Revealing ==> (s'.auctions[height].phase == Complete <==> RevealedTotal(a.revealed) % U64 != 0))
      && (a.phase == Revealing && s'.auctions[height].phase != Complete ==> s'.auctions[height] == a)
      && (a.phase == Complete ==> s'.auctions[height] == a && s'.balances == s.balances)
  {
    SelectSucceedsExactly(cfg, s, height, draw);
    SelectRecordsWinner(cfg, s, height, draw);
  }

  /** And of everything else: the next auction exists, old complete ones are gone, the rest stays. */
  lemma EndBlockKeepsOthers(cfg: Config, s: State, height: nat, draw: nat, h: nat)
    requires h != height
    ensures var s' := EndBlock(cfg, s, height, draw);
      var keep := if cfg.params.auctionHistoryBlocks == 0 then 100 else cfg.params.auctionHistoryBlocks;
      && s'.history == s.history
      && (h in s'.auctions <==>
            || h == height + 1
            || (h in s.auctions && !(s.auctions[h].phase == Complete && h >= 1 && h + keep < height)))
      && (h in s'.auctions ==>
            s'.auctions[h] == if h in s.auctions then s.auctions[h] else BlindAuction(h, Committing, [], [], "", "0"))
  {
    SelectRecordsWinner(cfg, s, height, draw);
  }

  // ---------- The rate limit, counted ----------

  lemma {:induction false} WindowCounts(log: seq<int>, from: int)
    ensures InWindow(log, from) == |set i: int | 0 <= i < |log| && from <= log[i] < from + 100|
  {
    var all := set i: int | 0 <= i < |log| && from <= log[i] < from + 100;
    if log == [] {
      assert all == {};
    } else {
      var n := |log| - 1;
      WindowCounts(log[..n], from);
      var inside := set i: int | 0 <= i < n && from <= log[..n][i] < from + 100;
      assert all == if from <= log[n] < from + 100 then inside + {n} else inside;
    }
  }

  /** On every run with non-decreasing block times and a history no shorter than the limit, any 100
      consecutive seconds hold at most the limit of one validator's accepted reveals, 5 unless set. */
  lemma RevealsCounted(cfg: Config, s: State, steps: seq<Step>, v: string, from: int)
    requires HistoryOf(s, v) == [] && TimesOrdered(steps)
    requires cfg.params.rapidBidLimit > 0 && cfg.params.bidHistoryLimit > 0 ==>
      cfg.params.rapidBidLimit <= cfg.params.bidHistoryLimit
    requires cfg.params.rapidBidLimit == 0 && cfg.params.bidHistoryLimit > 0 ==> cfg.params.bidHistoryLimit >= 5
    requires cfg.params.bidHistoryLimit == 0 ==> cfg.params.rapidBidLimit <= 100
    ensures var log := Log(cfg, s, steps, v);
      |set i: int | 0 <= i < |log| && from <= log[i] < from + 100|
        <= if cfg.params.rapidBidLimit == 0 then 5 else cfg.params.rapidBidLimit
  {
    RapidBidsBounded(cfg, s, steps, v, from);
    WindowCounts(Log(cfg, s, steps, v), from);
  }
}
