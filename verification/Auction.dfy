/** The blind auction of x/consensus/keeper/keeper.go as a state machine: one commit /
    reveal / complete protocol per block height, over plain maps. These functions are the
    specification of `ConsensusKeeper.Keeper`; `AuctionSafety` proves what every run keeps. */
module Auction {
  import opened Wrappers
  import opened Decimal
  import opened Lottery
  import RateLimit

  datatype Phase = Committing | Revealing | Complete

  datatype EncryptedBid = EncryptedBid(validator: string, commitHash: string)

  datatype BidReveal = BidReveal(validator: string, nonce: string, bidAmount: string)

  datatype BlindAuction = BlindAuction(
    height: nat,
    phase: Phase,
    commits: seq<EncryptedBid>,
    revealed: seq<BidReveal>,
    winner: string,
    winningBid: string)

  datatype BidEntry = BidEntry(bidAmount: string, timestamp: int)

  /** Module parameters after parsing; zero limits stand for the built-in defaults. */
  datatype Params = Params(
    maxBid: Option<nat>,
    rapidBidLimit: nat,
    bidHistoryLimit: nat,
    auctionHistoryBlocks: nat)
  {
    function RapidLimit(): nat {
      if rapidBidLimit == 0 then 5 else rapidBidLimit
    }

    function HistoryCap(): nat {
      if bidHistoryLimit == 0 then 100 else bidHistoryLimit
    }

    function KeepBlocks(): nat {
      if auctionHistoryBlocks == 0 then 100 else auctionHistoryBlocks
    }
  }

  /** What a run does not change: the hash function (hex SHA-256), the parameters, and
      whether the keeper was wired to the ANT module. */
  datatype Config = Config(hash: string -> string, params: Params, antWired: bool)

  datatype State = State(
    auctions: map<nat, BlindAuction>,
    history: map<string, seq<BidEntry>>,
    balances: map<string, string>)

  datatype Error =
    | AuctionNotFound
    | NotInCommitPhase
    | AlreadyCommitted
    | InvalidCommitHash
    | NotInRevealPhase
    | NotCommitted
    | AlreadyRevealed
    | HashMismatch
    | InvalidBid
    | NoPosition
    | InvalidBalance
    | InsufficientBalance
    | ExceedsMaximum
    | TooManyRapidBids
    | NoReveals
    | ZeroTotal

  // ---------- Commit ----------

  function Fresh(height: nat): BlindAuction {
    BlindAuction(height, Committing, [], [], "", "0")
  }

  /** CreateBlindAuction: an existing auction is returned untouched. */
  function Create(s: State, height: nat): State {
    if height in s.auctions then s else s.(auctions := s.auctions[height := Fresh(height)])
  }

  predicate HasCommitted(a: BlindAuction, validator: string) {
    exists i :: 0 <= i < |a.commits| && a.commits[i].validator == validator
  }

  predicate HasRevealed(a: BlindAuction, validator: string) {
    exists i :: 0 <= i < |a.revealed| && a.revealed[i].validator == validator
  }

  function CommitError(a: BlindAuction, validator: string, commitHash: string): Option<Error> {
    if a.phase != Committing then Some(NotInCommitPhase)
    else if HasCommitted(a, validator) then Some(AlreadyCommitted)
    else if |commitHash| != 64 then Some(InvalidCommitHash)
    else None
  }

  /** CommitBid. The auction is created on demand, and stays created when the commit is refused. */
  function CommitBid(s: State, validator: string, commitHash: string, height: nat): (State, Option<Error>) {
    var s1 := Create(s, height);
    var a := s1.auctions[height];
    var e := CommitError(a, validator, commitHash);
    if e.Some? then (s1, e)
    else
      var a' := a.(commits := a.commits + [EncryptedBid(validator, commitHash)]);
      (s1.(auctions := s1.auctions[height := a']), None)
  }

  // ---------- Reveal ----------

  function HashInput(nonce: string, bidAmount: string): string {
    nonce + ":" + bidAmount
  }

  /** HashCommit: the hash of nonce and bid amount, joined by a colon. */
  function HashCommit(cfg: Config, nonce: string, bidAmount: string): string {
    cfg.hash(HashInput(nonce, bidAmount))
  }

  function Timestamps(history: seq<BidEntry>): (ts: seq<int>)
    ensures |ts| == |history|
  {
    seq(|history|, i requires 0 <= i < |history| => history[i].timestamp)
  }

  function HistoryOf(s: State, validator: string): seq<BidEntry> {
    if validator in s.history then s.history[validator] else []
  }

  /** The ANT-balance part of ValidateAuctionBid. */
  function BalanceError(cfg: Config, s: State, validator: string, bid: nat): Option<Error> {
    if !cfg.antWired then None
    else if validator !in s.balances then Some(NoPosition)
    else match ParseUint(s.balances[validator])
      case None => Some(InvalidBalance)
      case Some(balance) => if balance < bid then Some(InsufficientBalance) else None
  }

  /** ValidateAuctionBid at block time `now`. */
  function BidError(cfg: Config, s: State, validator: string, bidAmount: string, now: int): Option<Error> {
    match ParseUint(bidAmount)
    case None => Some(InvalidBid)
    case Some(bid) =>
      if bid == 0 then Some(InvalidBid)
      else if BalanceError(cfg, s, validator, bid).Some? then BalanceError(cfg, s, validator, bid)
      else if cfg.params.maxBid.Some? && bid > cfg.params.maxBid.value then Some(ExceedsMaximum)
      else if RateLimit.Recent(Timestamps(HistoryOf(s, validator)), now) >= cfg.params.RapidLimit() then
        Some(TooManyRapidBids)
      else None
  }

  /** RecordBidHistory: append and keep the newest entries. */
  function Record(cfg: Config, s: State, validator: string, bidAmount: string, now: int): State {
    var entries := HistoryOf(s, validator) + [BidEntry(bidAmount, now)];
    s.(history := s.history[validator := RateLimit.Newest(entries, cfg.params.HistoryCap())])
  }

  /** The first commit of a validator, which is the one the reveal is checked against. */
  function CommitOf(commits: seq<EncryptedBid>, validator: string): Option<EncryptedBid> {
    if commits == [] then None
    else if commits[0].validator == validator then Some(commits[0])
    else CommitOf(commits[1..], validator)
  }

  /** Everything RevealBid checks before it writes. */
  function RevealError(cfg: Config, s: State, validator: string, nonce: string, bidAmount: string, height: nat,
      now: int): Option<Error> {
    if height !in s.auctions then Some(AuctionNotFound)
    else
      var a := s.auctions[height];
      if a.phase != Revealing then Some(NotInRevealPhase)
      else match CommitOf(a.commits, validator)
        case None => Some(NotCommitted)
        case Some(c) =>
          if HasRevealed(a, validator) then Some(AlreadyRevealed)
          else if HashCommit(cfg, nonce, bidAmount) != c.commitHash then Some(HashMismatch)
          else BidError(cfg, s, validator, bidAmount, now)
  }

  function RevealBid(cfg: Config, s: State, validator: string, nonce: string, bidAmount: string, height: nat,
      now: int): (State, Option<Error>) {
    var e := RevealError(cfg, s, validator, nonce, bidAmount, height, now);
    if e.Some? then (s, e)
    else
      var a := s.auctions[height];
      var a' := a.(revealed := a.revealed + [BidReveal(validator, nonce, bidAmount)]);
      (Record(cfg, s, validator, bidAmount, now).(auctions := s.auctions[height := a']), None)
  }

  // ---------- Completion ----------

  /** TransitionAuctionPhase: commit to reveal; any other phase is left alone. */
  function Transition(s: State, height: nat): (State, Option<Error>) {
    if height !in s.auctions then (s, Some(AuctionNotFound))
    else if s.auctions[height].phase == Committing then
      (s.(auctions := s.auctions[height := s.auctions[height].(phase := Revealing)]), None)
    else (s, None)
  }

  /** The lottery weights: the revealed amounts, unreadable ones counting as zero. */
  function Weights(revealed: seq<BidReveal>): (w: seq<nat>)
    ensures |w| == |revealed|
  {
    seq(|revealed|, i requires 0 <= i < |revealed| => AmountOf(revealed[i].bidAmount))
  }

  function SelectError(s: State, height: nat): Option<Error> {
    if height !in s.auctions then Some(AuctionNotFound)
    else
      var a := s.auctions[height];
      if a.phase != Revealing then Some(NotInRevealPhase)
      else if a.revealed == [] then Some(NoReveals)
      else
        var w := Weights(a.revealed);
        if Running(w, |w|) == 0 then Some(ZeroTotal) else None
  }

  /** The reveal the draw selects. */
  ghost function WinnerIndex(a: BlindAuction, draw: nat): (i: nat)
    requires Running(Weights(a.revealed), |a.revealed|) != 0
    ensures i < |a.revealed|
    ensures Picks(Weights(a.revealed), draw % Running(Weights(a.revealed), |a.revealed|), i)
  {
    var w := Weights(a.revealed);
    var r := draw % Running(w, |w|);
    FallbackUnreachable(w, r);
    var i: nat :| Picks(w, r, i);
    i
  }

  /** The amount burned from the winner: the bid, or nothing when the balance does not cover it. */
  function BurnAmount(cfg: Config, s: State, winner: BidReveal): nat {
    if !cfg.antWired || winner.validator !in s.balances then 0
    else match (ParseUint(s.balances[winner.validator]), ParseUint(winner.bidAmount))
      case (Some(balance), Some(bid)) => if balance >= bid then bid else 0
      case _ => 0
  }

  /** The balances after the winner paid. */
  function Burn(cfg: Config, s: State, winner: BidReveal): map<string, string> {
    if !cfg.antWired || winner.validator !in s.balances then s.balances
    else match (ParseUint(s.balances[winner.validator]), ParseUint(winner.bidAmount))
      case (Some(balance), Some(bid)) =>
        if balance >= bid then s.balances[winner.validator := FormatUint(balance - bid)] else s.balances
      case _ => s.balances
  }

  /** SelectAuctionWinner with the 64-bit random draw as an argument. */
  ghost function Select(cfg: Config, s: State, height: nat, draw: nat): (State, Option<Error>) {
    var e := SelectError(s, height);
    if e.Some? then (s, e)
    else
      var a := s.auctions[height];
      var winner := a.revealed[WinnerIndex(a, draw)];
      var a' := a.(winner := winner.validator, winningBid := winner.bidAmount, phase := Complete);
      (s.(auctions := s.auctions[height := a'], balances := Burn(cfg, s, winner)), None)
  }

  /** CleanupOldAuctions: completed auctions below the kept range are deleted. */
  function Cleanup(cfg: Config, s: State, current: nat): State {
    var keep := cfg.params.KeepBlocks();
    if current <= keep then s
    else s.(auctions := map h | h in s.auctions && !Expired(s.auctions[h], h, current - keep) :: s.auctions[h])
  }

  predicate Expired(a: BlindAuction, height: nat, oldestKept: nat) {
    1 <= height < oldestKept && a.phase == Complete
  }

  /** The auction part of EndBlocker. The phase is tested on the copy loaded before the
      transition, so one call never both opens the reveals and completes the auction. */
  ghost function EndBlock(cfg: Config, s: State, height: nat, draw: nat): State {
    var s1 :=
      if height in s.auctions && s.auctions[height].phase == Committing && s.auctions[height].commits != [] then
        Transition(s, height).0
      else s;
    var s2 :=
      if height in s.auctions && s.auctions[height].phase == Revealing && s.auctions[height].revealed != [] then
        Select(cfg, s1, height, draw).0
      else s1;
    Cleanup(cfg, Create(s2, height + 1), height)
  }

  // ---------- Runs ----------

  /** BalanceStep is another module writing an ANT balance between two auction steps. */
  datatype Step =
    | CommitStep(validator: string, commitHash: string, height: nat)
    | RevealStep(validator: string, nonce: string, bidAmount: string, height: nat, now: int)
    | TransitionStep(height: nat)
    | SelectStep(height: nat, draw: nat)
    | CreateStep(height: nat)
    | CleanupStep(height: nat)
    | EndBlockStep(height: nat, draw: nat)
    | BalanceStep(validator: string, balance: string)

  ghost function Apply(cfg: Config, s: State, step: Step): State {
    match step
    case CommitStep(v, hash, h) => CommitBid(s, v, hash, h).0
    case RevealStep(v, nonce, bid, h, now) => RevealBid(cfg, s, v, nonce, bid, h, now).0
    case TransitionStep(h) => Transition(s, h).0
    case SelectStep(h, draw) => Select(cfg, s, h, draw).0
    case CreateStep(h) => Create(s, h)
    case CleanupStep(h) => Cleanup(cfg, s, h)
    case EndBlockStep(h, draw) => EndBlock(cfg, s, h, draw)
    case BalanceStep(v, balance) => s.(balances := s.balances[v := balance])
  }

  ghost function Run(cfg: Config, s: State, steps: seq<Step>): State {
    if steps == [] then s
    else Apply(cfg, Run(cfg, s, steps[..|steps| - 1]), steps[|steps| - 1])
  }

  /** The state before step i of a run. */
  ghost function At(cfg: Config, s: State, steps: seq<Step>, i: nat): State
    requires i <= |steps|
  {
    Run(cfg, s, steps[..i])
  }

  lemma AtStep(cfg: Config, s: State, steps: seq<Step>, i: nat)
    requires i < |steps|
    ensures At(cfg, s, steps, i + 1) == Apply(cfg, At(cfg, s, steps, i), steps[i])
  {
    assert steps[..i + 1][..i] == steps[..i];
  }
}
