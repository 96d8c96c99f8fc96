/** The auction methods of the consensus keeper, in the form of the source: store entries are
    loaded, changed and stored back. Each is proved to do exactly what `Auction` specifies. */
module ConsensusKeeper {
  import opened Wrappers
  import opened Decimal
  import opened Auction
  import opened AuctionSafety
  import opened Lottery
  import Sums
  import RateLimit

  class Keeper {
    const cfg: Config
    var auctions: map<nat, BlindAuction>
    var history: map<string, seq<BidEntry>>
    var balances: map<string, string>

    constructor (cfg: Config)
      ensures this.cfg == cfg && Contents() == State(map[], map[], map[])
    {
      this.cfg := cfg;
      auctions, history, balances := map[], map[], map[];
    }

    ghost function Contents(): State
      reads this
    {
      State(auctions, history, balances)
    }

    method CreateBlindAuction(height: nat) returns (auction: BlindAuction)
      modifies this
      ensures Contents() == Create(old(Contents()), height)
      ensures height in auctions && auction == auctions[height]
    {
      if height !in auctions {
        auctions := auctions[height := Fresh(height)];
      }
      auction := auctions[height];
    }

    method CommitBid(validator: string, commitHash: string, height: nat) returns (e: Option<Error>)
      modifies this
      ensures (Contents(), e) == Auction.CommitBid(old(Contents()), validator, commitHash, height)
    {
      var auction := CreateBlindAuction(height);
      if auction.phase != Committing {
        return Some(NotInCommitPhase);
      }
      for i := 0 to |auction.commits|
        invariant Contents() == Create(old(Contents()), height) && auction == auctions[height]
        invariant forall j :: 0 <= j < i ==> auction.commits[j].validator != validator
      {
        if auction.commits[i].validator == validator {
          return Some(AlreadyCommitted);
        }
      }
      if commitHash == "" || |commitHash| != 64 {
        return Some(InvalidCommitHash);
      }
      auction := auction.(commits := auction.commits + [EncryptedBid(validator, commitHash)]);
      auctions := auctions[height := auction];
      return None;
    }

    method ValidateAuctionBid(validator: string, bidAmount: string, now: int) returns (e: Option<Error>)
      ensures e == BidError(cfg, Contents(), validator, bidAmount, now)
    {
      var parsed := ParseUint(bidAmount);
      if parsed.None? || parsed.value == 0 {
        return Some(InvalidBid);
      }
      if cfg.antWired {
        if validator !in balances {
          return Some(NoPosition);
        }
        var balance := ParseUint(balances[validator]);
        if balance.None? {
          return Some(InvalidBalance);
        }
        if balance.value < parsed.value {
          return Some(InsufficientBalance);
        }
      }
      if cfg.params.maxBid.Some? && parsed.value > cfg.params.maxBid.value {
        return Some(ExceedsMaximum);
      }
      if validator in history {
        var recent := CountRecent(history[validator], now);
        if recent >= cfg.params.RapidLimit() {
          return Some(TooManyRapidBids);
        }
      }
      return None;
    }

    method CountRecent(entries: seq<BidEntry>, now: int) returns (recent: nat)
      ensures recent == RateLimit.Recent(Timestamps(entries), now)
    {
      recent := 0;
      for i := 0 to |entries|
        invariant recent == RateLimit.Recent(Timestamps(entries)[..i], now)
      {
        assert Timestamps(entries)[..i + 1][..i] == Timestamps(entries)[..i];
        if now - entries[i].timestamp < RateLimit.WINDOW {
          recent := recent + 1;
        }
      }
      assert Timestamps(entries)[..|entries|] == Timestamps(entries);
    }

    method RecordBidHistory(validator: string, bidAmount: string, now: int)
      modifies this
      ensures Contents() == Record(cfg, old(Contents()), validator, bidAmount, now)
    {
      var entries := if validator in history then history[validator] else [];
      entries := entries + [BidEntry(bidAmount, now)];
      var limit := cfg.params.HistoryCap();
      if |entries| > limit {
        entries := entries[|entries| - limit..];
      }
      history := history[validator := entries];
    }

    method FindCommit(commits: seq<EncryptedBid>, validator: string) returns (commit: Option<EncryptedBid>)
      ensures commit == CommitOf(commits, validator)
    {
      for i := 0 to |commits|
        invariant CommitOf(commits, validator) == CommitOf(commits[i..], validator)
      {
        if commits[i].validator == validator {
          return Some(commits[i]);
        }
      }
      return None;
    }

    method RevealBid(validator: string, nonce: string, bidAmount: string, height: nat, now: int)
      returns (e: Option<Error>)
      modifies this
      ensures (Contents(), e) == Auction.RevealBid(cfg, old(Contents()), validator, nonce, bidAmount, height, now)
    {
      if height !in auctions {
        return Some(AuctionNotFound);
      }
      var auction := auctions[height];
      if auction.phase != Revealing {
        return Some(NotInRevealPhase);
      }
      var commit := FindCommit(auction.commits, validator);
      if commit.None? {
        return Some(NotCommitted);
      }
      for i := 0 to |auction.revealed|
        invariant forall j :: 0 <= j < i ==> auction.revealed[j].validator != validator
      {
        if auction.revealed[i].validator == validator {
          return Some(AlreadyRevealed);
        }
      }
      if HashCommit(cfg, nonce, bidAmount) != commit.value.commitHash {
        return Some(HashMismatch);
      }
      e := ValidateAuctionBid(validator, bidAmount, now);
      if e.Some? {
        return;
      }
      RecordBidHistory(validator, bidAmount, now);
      auction := auction.(revealed := auction.revealed + [BidReveal(validator, nonce, bidAmount)]);
      auctions := auctions[height := auction];
    }

    method BurnFrom(winner: BidReveal)
      modifies this`balances
      ensures balances == Burn(cfg, old(Contents()), winner)
    {
      if cfg.antWired && winner.validator in balances {
        var balance := ParseUint(balances[winner.validator]);
        if balance.Some? {
          var bid := ParseUint(winner.bidAmount);
          if bid.Some? && balance.value >= bid.value {
            balances := balances[winner.validator := FormatUint(balance.value - bid.value)];
          }
        }
      }
    }

    method SelectAuctionWinner(height: nat, draw: nat) returns (e: Option<Error>)
      modifies this
      ensures (Contents(), e) == Select(cfg, old(Contents()), height, draw)
    {
      if height !in auctions {
        return Some(AuctionNotFound);
      }
      var auction := auctions[height];
      if auction.phase != Revealing {
        return Some(NotInRevealPhase);
      }
      if |auction.revealed| == 0 {
        return Some(NoReveals);
      }
      var amounts: seq<nat> := [];
      for i := 0 to |auction.revealed|
        invariant amounts == Weights(auction.revealed)[..i]
      {
        amounts := amounts + [AmountOf(auction.revealed[i].bidAmount)];
      }
      assert amounts == Weights(auction.revealed);
      var choice := Draw(amounts, draw);
      if choice.None? {
        return Some(ZeroTotal);
      }
      var winner := auction.revealed[choice.value];
      PickUnique(amounts, draw % Running(amounts, |amounts|), choice.value, WinnerIndex(auction, draw));
      BurnFrom(winner);
      auction := auction.(winner := winner.validator, winningBid := winner.bidAmount, phase := Complete);
      auctions := auctions[height := auction];
      return None;
    }

    method TransitionAuctionPhase(height: nat) returns (e: Option<Error>)
      modifies this
      ensures (Contents(), e) == Transition(old(Contents()), height)
    {
      if height !in auctions {
        return Some(AuctionNotFound);
      }
      var auction := auctions[height];
      if auction.phase == Committing {
        auction := auction.(phase := Revealing);
        auctions := auctions[height := auction];
      }
      return None;
    }

    method CleanupOldAuctions(current: nat)
      modifies this
      ensures Contents() == Cleanup(cfg, old(Contents()), current)
    {
      var keep := cfg.params.KeepBlocks();
      if current <= keep {
        return;
      }
      var oldestKept := current - keep;
      var height := 1;
      while height < oldestKept
        invariant 1 <= height <= oldestKept
        invariant history == old(history) && balances == old(balances)
        invariant auctions == map h | h in old(auctions) && !Expired(old(auctions)[h], h, height) :: old(auctions)[h]
      {
        if height in auctions && auctions[height].phase == Complete {
          auctions := auctions - {height};
        }
        height := height + 1;
      }
    }

    /** The auction part of EndBlocker. */
    method EndBlocker(height: nat, draw: nat)
      modifies this
      ensures Contents() == EndBlock(cfg, old(Contents()), height, draw)
    {
      if height in auctions {
        var auction := auctions[height];
        if auction.phase == Committing && |auction.commits| > 0 {
          var _ := TransitionAuctionPhase(height);
        }
        if auction.phase == Revealing && |auction.revealed| > 0 {
          var _ := SelectAuctionWinner(height, draw);
        }
      }
      var _ := CreateBlindAuction(height + 1);
      CleanupOldAuctions(height);
    }
  }

  // ---------- Block creator ----------

  datatype Validator = Validator(address: string, antBalance: string, activityScore: string)

  datatype BlockCreator = BlockCreator(validator: string, burnAmount: string)

  /** ANT balance plus activity score plus activated LZN, in uint64. */
  function CreatorWeight(v: Validator, activated: map<string, nat>): nat {
    (AmountOf(v.antBalance) + AmountOf(v.activityScore)
     + (if v.address in activated then activated[v.address] else 0)) % U64
  }

  function CreatorWeights(vs: seq<Validator>, activated: map<string, nat>): (w: seq<nat>) {
    seq(|vs|, i requires 0 <= i < |vs| => CreatorWeight(vs[i], activated))
  }

  ghost predicate IsValidator(vs: seq<Validator>, address: string) {
    exists i :: 0 <= i < |vs| && vs[i].address == address
  }

  ghost predicate HasWinner(auction: Option<BlindAuction>, vs: seq<Validator>) {
    auction.Some? && auction.value.phase == Complete && auction.value.winner != ""
    && IsValidator(vs, auction.value.winner)
  }

  /** Who creates the block: the completed auction's winner if he is still a validator, otherwise the
      weighted draw's pick, otherwise (all weights zero) the validator at the uniform draw. */
  ghost predicate Creates(vs: seq<Validator>, activated: map<string, nat>, auction: Option<BlindAuction>,
      draw: nat, uniform: nat, creator: BlockCreator)
    requires uniform < |vs|
  {
    if HasWinner(auction, vs) then creator == BlockCreator(auction.value.winner, auction.value.winningBid)
    else
      var w := CreatorWeights(vs, activated);
      var total := Running(w, |w|);
      creator.burnAmount == "0" &&
      if total == 0 then creator.validator == vs[uniform].address
      else exists i: nat :: Picks(w, draw % total, i) && creator.validator == vs[i].address
  }

  method SelectBlockCreator(vs: seq<Validator>, activated: map<string, nat>, auction: Option<BlindAuction>,
      draw: nat, uniform: nat) returns (creator: Option<BlockCreator>)
    requires uniform < |vs| || vs == []
    ensures creator.None? <==> vs == []
    ensures creator.Some? ==> Creates(vs, activated, auction, draw, uniform, creator.value)
  {
    if |vs| == 0 {
      return None;
    }
    if auction.Some? && auction.value.phase == Complete && auction.value.winner != "" {
      for i := 0 to |vs|
        invariant forall j :: 0 <= j < i ==> vs[j].address != auction.value.winner
      {
        if vs[i].address == auction.value.winner {
          return Some(BlockCreator(auction.value.winner, auction.value.winningBid));
        }
      }
    }
    var weights: seq<nat> := [];
    for i := 0 to |vs|
      invariant weights == CreatorWeights(vs, activated)[..i]
    {
      weights := weights + [CreatorWeight(vs[i], activated)];
    }
    assert weights == CreatorWeights(vs, activated);
    var choice := Draw(weights, draw);
    match choice
    case None => return Some(BlockCreator(vs[uniform].address, "0"));
    case Some(i) => return Some(BlockCreator(vs[i].address, "0"));
  }

  /** What a validator puts into the draw: its ANT, its activity score and its activated LZN. */
  ghost function Stake(v: Validator, activated: map<string, nat>): nat {
    var ant := match ParseUint(v.antBalance) case Some(n) => n case None => 0;
    var activity := match ParseUint(v.activityScore) case Some(n) => n case None => 0;
    var lzn := if v.address in activated then activated[v.address] else 0;
    ant + activity + lzn
  }

  ghost function TotalStake(vs: seq<Validator>, activated: map<string, nat>): nat {
    if vs == [] then 0 else TotalStake(vs[..|vs| - 1], activated) + Stake(vs[|vs| - 1], activated)
  }

  /** The draws below the total stake on which the block goes to this address. */
  ghost function CreatingDraws(vs: seq<Validator>, activated: map<string, nat>, auction: Option<BlindAuction>,
      uniform: nat, address: string): set<int>
    requires uniform < |vs|
  {
    set r: int | 0 <= r < TotalStake(vs, activated)
      && Creates(vs, activated, auction, r, uniform, BlockCreator(address, "0"))
  }

  lemma {:induction false} StakeWithin(vs: seq<Validator>, activated: map<string, nat>, i: nat)
    requires i < |vs|
    ensures Stake(vs[i], activated) <= TotalStake(vs, activated)
  {
    if i < |vs| - 1 {
      StakeWithin(vs[..|vs| - 1], activated, i);
    }
  }

  lemma WeightIsStake(v: Validator, activated: map<string, nat>)
    requires Stake(v, activated) < U64
    ensures CreatorWeight(v, activated) == Stake(v, activated)
  {
  }

  /** While all stakes together fit in 64 bits, no weight wraps and they are the stakes. */
  lemma WeightsAreStakes(vs: seq<Validator>, activated: map<string, nat>)
    requires TotalStake(vs, activated) < U64
    ensures Sums.Sum(CreatorWeights(vs, activated)) == TotalStake(vs, activated)
    ensures forall i :: 0 <= i < |vs| ==> CreatorWeights(vs, activated)[i] == Stake(vs[i], activated)
  {
    forall i | 0 <= i < |vs| ensures CreatorWeights(vs, activated)[i] == Stake(vs[i], activated) {
      StakeWithin(vs, activated, i);
      WeightIsStake(vs[i], activated);
    }
    WeightsAddUp(vs, activated);
  }

  lemma {:induction false} WeightsAddUp(vs: seq<Validator>, activated: map<string, nat>)
    requires TotalStake(vs, activated) < U64
    ensures Sums.Sum(CreatorWeights(vs, activated)) == TotalStake(vs, activated)
  {
    if vs != [] {
      var n := |vs| - 1;
      WeightsAddUp(vs[..n], activated);
      StakeWithin(vs, activated, n);
      WeightIsStake(vs[n], activated);
      assert CreatorWeights(vs, activated)[..n] == CreatorWeights(vs[..n], activated);
    }
  }

  /** The block goes to this address, whatever it burns. */
  ghost predicate GoesTo(vs: seq<Validator>, activated: map<string, nat>, auction: Option<BlindAuction>, draw: nat,
      uniform: nat, address: string)
    requires uniform < |vs|
  {
    exists burn :: Creates(vs, activated, auction, draw, uniform, BlockCreator(address, burn))
  }

  /** A completed auction whose winner is still a validator decides, and nothing else is asked. */
  lemma WinnerCreates(vs: seq<Validator>, activated: map<string, nat>, auction: Option<BlindAuction>, draw: nat,
      uniform: nat, address: string)
    requires uniform < |vs| && auction.Some? && auction.value.phase == Complete && auction.value.winner != ""
    requires exists i :: 0 <= i < |vs| && vs[i].address == auction.value.winner
    ensures GoesTo(vs, activated, auction, draw, uniform, address) <==> address == auction.value.winner
  {
    assert HasWinner(auction, vs);
    if address == auction.value.winner {
      assert Creates(vs, activated, auction, draw, uniform, BlockCreator(address, auction.value.winningBid));
    }
  }

  /** When nobody has any stake the uniform draw decides. */
  lemma UniformCreates(vs: seq<Validator>, activated: map<string, nat>, auction: Option<BlindAuction>, draw: nat,
      uniform: nat)
    requires uniform < |vs| && TotalStake(vs, activated) == 0
    requires auction.None? || auction.value.phase != Complete || auction.value.winner == ""
      || forall i :: 0 <= i < |vs| ==> vs[i].address != auction.value.winner
    ensures Creates(vs, activated, auction, draw, uniform, BlockCreator(vs[uniform].address, "0"))
  {
    WeightsAreStakes(vs, activated);
    var w := CreatorWeights(vs, activated);
    assert w[..|w|] == w;
  }

  /** Without a completed auction won by a validator, and while the stakes fit in 64 bits, each validator
      creates the block on exactly as many draws (modulo the total) as its ANT balance, activity score
      and activated LZN together. */
  lemma CreatorOdds(vs: seq<Validator>, activated: map<string, nat>, auction: Option<BlindAuction>, uniform: nat,
      i: nat)
    requires i < |vs| && uniform < |vs|
    requires auction.None? || auction.value.phase != Complete || auction.value.winner == ""
      || forall j :: 0 <= j < |vs| ==> vs[j].address != auction.value.winner
    requires forall j, k :: 0 <= j < k < |vs| ==> vs[j].address != vs[k].address
    requires TotalStake(vs, activated) < U64
    ensures |CreatingDraws(vs, activated, auction, uniform, vs[i].address)|
      == AmountOf(vs[i].antBalance) + AmountOf(vs[i].activityScore)
         + if vs[i].address in activated then activated[vs[i].address] else 0
  {
    WeightsAreStakes(vs, activated);
    var w := CreatorWeights(vs, activated);
    var total := Running(w, |w|);
    assert w[..|w|] == w && total == TotalStake(vs, activated);
    forall r: int | 0 <= r < total
      ensures Creates(vs, activated, auction, r, uniform, BlockCreator(vs[i].address, "0")) <==> Picks(w, r, i)
    {
      CreatesExactly(vs, activated, auction, r, uniform, i);
    }
    assert CreatingDraws(vs, activated, auction, uniform, vs[i].address) == Residues(w, i);
    ExactlyProportional(w);
  }

  lemma CreatesExactly(vs: seq<Validator>, activated: map<string, nat>, auction: Option<BlindAuction>, draw: nat,
      uniform: nat, i: nat)
    requires i < |vs| && uniform < |vs| && !HasWinner(auction, vs)
    requires forall j, k :: 0 <= j < k < |vs| ==> vs[j].address != vs[k].address
    requires draw < Running(CreatorWeights(vs, activated), |CreatorWeights(vs, activated)|)
    ensures Creates(vs, activated, auction, draw, uniform, BlockCreator(vs[i].address, "0"))
      <==> Picks(CreatorWeights(vs, activated), draw, i)
  {
    var w := CreatorWeights(vs, activated);
    Remainder(draw, Running(w, |w|));
  }

  lemma Remainder(r: nat, total: nat)
    requires r < total
    ensures r % total == r
  {
  }

  /** The draws, up to the total, on which selection records this reveal as the winner. */
  ghost function WinningDraws(cfg: Config, s: State, height: nat, r: BidReveal): set<int>
    requires SelectError(s, height).None?
  {
    var w := Weights(s.auctions[height].revealed);
    set d: int | 0 <= d < Running(w, |w|) && RecordsWinner(cfg, s, height, d, r)
  }

  ghost predicate RecordsWinner(cfg: Config, s: State, height: nat, draw: nat, r: BidReveal) {
    var s' := Select(cfg, s, height, draw).0;
    height in s'.auctions && s'.auctions[height].phase == Complete
    && s'.auctions[height].winner == r.validator && s'.auctions[height].winningBid == r.bidAmount
  }

  /** While the revealed amounts fit in 64 bits, selection records each reveal on exactly as many draws
      (modulo the total) as it bid. */
  lemma WinnerOdds(cfg: Config, s: State, height: nat, i: nat)
    requires Inv(cfg, s) && SelectError(s, height).None?
    requires i < |s.auctions[height].revealed|
    requires Sums.Sum(Weights(s.auctions[height].revealed)) < U64
    ensures |WinningDraws(cfg, s, height, s.auctions[height].revealed[i])|
      == AmountOf(s.auctions[height].revealed[i].bidAmount)
  {
    var a := s.auctions[height];
    var w := Weights(a.revealed);
    forall d: int | 0 <= d < Running(w, |w|)
      ensures RecordsWinner(cfg, s, height, d, a.revealed[i]) <==> Picks(w, d, i)
    {
      RecordsExactly(cfg, s, height, d, i);
    }
    assert WinningDraws(cfg, s, height, a.revealed[i]) == Residues(w, i);
    ExactlyProportional(w);
  }

  lemma RecordsExactly(cfg: Config, s: State, height: nat, draw: nat, i: nat)
    requires Inv(cfg, s) && SelectError(s, height).None?
    requires i < |s.auctions[height].revealed|
    requires draw < Running(Weights(s.auctions[height].revealed), |s.auctions[height].revealed|)
    ensures RecordsWinner(cfg, s, height, draw, s.auctions[height].revealed[i])
      <==> Picks(Weights(s.auctions[height].revealed), draw, i)
  {
    var a := s.auctions[height];
    assert Good(cfg, height, a);
    SelectRecords(cfg, s, height, draw, a.revealed[i]);
    IndexPicked(a, draw, i);
  }

  lemma SelectRecords(cfg: Config, s: State, height: nat, draw: nat, r: BidReveal)
    requires SelectError(s, height).None?
    ensures var winner := s.auctions[height].revealed[WinnerIndex(s.auctions[height], draw)];
      RecordsWinner(cfg, s, height, draw, r) <==> winner.validator == r.validator && winner.bidAmount == r.bidAmount
  {
  }

  lemma IndexPicked(a: BlindAuction, draw: nat, i: nat)
    requires DistinctRevealers(a) && i < |a.revealed|
    requires draw < Running(Weights(a.revealed), |a.revealed|)
    ensures a.revealed[WinnerIndex(a, draw)].validator == a.revealed[i].validator
      <==> Picks(Weights(a.revealed), draw, i)
    ensures Picks(Weights(a.revealed), draw, i) ==> WinnerIndex(a, draw) == i
  {
    var w, k := Weights(a.revealed), WinnerIndex(a, draw);
    Remainder(draw, Running(w, |w|));
    if Picks(w, draw, i) {
      PickUnique(w, draw, i, k);
    } else {
      assert k != i;
    }
  }
}
