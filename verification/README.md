# Volnix protocol model

A Dafny model of the state machines at the heart of the Volnix chain and of two of its codecs, with
proofs of what every run of them keeps. Block time, block height, random draws, bank failures and
the hash function are arguments of the steps, so every statement holds for all of their values.

The keepers are classes whose methods load, change and store back what the Go methods do. Each
method is proved equal to a specification function on plain maps, and the theorems are about runs of
those functions:

- **PoVB auction** (`Auction`, `ConsensusKeeper`, `AuctionSafety`, `AuctionLedger`, `AuctionBursts`,
  `RateLimit`, `Lottery`). Commit, reveal and complete per height, the truncated bid log that limits rapid bids, the
  weighted draw of a winner and of a block creator, and the burn of the winning bid. Selection and
  transition are free steps on any height, because `EndBlocker` alone never completes an auction
  (`LiveChainNeverCompletes`). Claims about one auction hold from its creation to its deletion, since a
  deleted height can be created again.
- **Emission** (`Halving`, `Emission`, `RewardSplit`, `RewardKeeper`, `RewardOverflow`). The halving schedule as
  stored state and as closed form, its sum, the integer split of a block's subsidy with penalties and remainder,
  and minting through a bank that may fail, over whatever licences the licence keeper can hold.
- **Order matching** (`Matching`, `Market`, `EconomicEngine`). The greedy crossing of two sorted lists of
  aliased order objects, its optimality, and the order and trade stores over runs of blocks. Amounts and
  prices are integers in units of 10^-6.
- **ANT accrual** (`Accrual`), **LZN licences** (`Lizenz`) and the **identity index** (`Identity`).
- **Governance** (`GovernableParams`, `Governance`, `GovernanceKeeper`, `GovernanceRuns`). Handlers are
  atomic: an error restores the store. A vote tallies at once.
- **Codecs**: `Snapshot` (chunking into a content-addressed store) and `Wire` / `MsgChangeRole` (the
  wallet's protobuf encoder and decoder; the Writer and Reader primitives follow the Protocol Buffers
  Encoding guide, sections "Base 128 Varints", "Length-Delimited Records", "Submessages", "Groups" and
  "Last One Wins").

What each operation asks for and does is also stated without the functions the methods are proved against, read
off the state alone: `AuctionRules`, `RewardRules`, `MarketRules`, `LizenzRules`, `IdentityRules` and
`GovernanceRules`.

`Wrappers`, `Decimal` (unsigned decimal text, as read by ParseUint and written by FormatUint), `Sums` and
`Arithmetic` are shared helpers.

## Where the code differs from its documentation

The code is followed; each difference below is a theorem or a concrete counterexample.

- On a live chain no auction completes, so no winner is ever chosen: `AuctionSafety.LiveChainNeverCompletes`.
- With the 1-uwrt floor the emission passes the 21M supply: the cap holds exactly up to height 57979999:
  `Emission.SupplyCapHoldsExactly`.
- The draw is proportional exactly while the weights sum to less than 2^64: `Lottery.ExactlyProportional`.
- The rapid-bid limit acts only if it does not exceed the history length: `AuctionBursts.RapidLimitExactly`,
  `RateLimit.LimitHoldsExactly`.
- A reward share wraps as soon as subsidy times licence reaches 2^64, which can leave most of the subsidy as
  remainder: `RewardSplit.ShareExactly`, `RewardSplit.RemainderHoldsExactly`, `RewardSplit.WrappedRemainder`.
- The reward split exceeds its subsidy once the activated total wraps: `RewardSplit.SubsidyHoldsExactly`. Governance
  writes the minimum licence amount unchecked; a negative one, and only that, lets the total wrap and a block mint
  2^65 too much: `RewardOverflow.ReadTotalsFitExactly`, `RewardOverflow.OverflowMints`,
  `RewardOverflow.EmissionBoundedExactly`.
- Stored halving state falls behind once a whole interval is skipped: `Halving.AgreesThroughoutExactly`.
- Matching reaches the maximum volume exactly when amounts are not negative, which the code does not check:
  `Matching.MaximalExactly`.
- Trade ids join two order ids with an underscore and can collide; exactly then can an order be filled without a
  trade on record: `Market.AccountedExactly`, `Market.SharedTradeIdLosesTrade`, and
  `Market.GeneratedIdsSeparable` for ids that cannot.
- A trade writes its quantity as a decimal balance, which counts as zero at the next accrual:
  `Accrual.DecimalBalanceRestarts`.
- The 33% rule does not bind the first validator, which then cannot be updated unless it is alone or has
  been diluted: `Lizenz.TouchSucceedsExactly`. Deletion can push others above it, and `Lizenz.DilutedExactly`
  says when; so can a negative minimum, and only that: `Lizenz.FitsExactly`, `Lizenz.DilutionHoldsExactly`.
  Activation and deletion go on when the bank fails to lock or return the tokens: `Lizenz.EscrowBalances`.
- A snapshot's own hash covers half of each chunk hash: `Snapshot.MetadataExactly`.
- An accrual wraps exactly when limit and rate together exceed 2^64: `Accrual.ClosedFormExactly`.
- The first accepted vote closes a proposal: `GovernanceRuns.FirstVoteDecides`.
- A deleted account's identity hash stays taken until its address is registered again and moved off it:
  `Identity.DeletedHashStaysTaken`, `Identity.DeletedHashReturns`. A migration that fails after releasing the
  hash loses the index entry: `Identity.FailedMigrationKeepsExactly`. Updates of a migrated account can break the
  index: `Identity.UpdateKeepsExactly`, `Identity.UpdatesBreak`.
- The wallet's decoder replaces a repeated fee where protobuf asks for a merge:
  `MsgChangeRole.StandardMergeExactly`.

## Model

| member | source | states |
|---|---|---|
| `ConsensusKeeper.Keeper.CreateBlindAuction` | x/consensus/keeper/keeper.go:972-996 | an auction is created in the commit phase once; an existing one is returned untouched |
| `ConsensusKeeper.Keeper.CommitBid` | x/consensus/keeper/keeper.go:999-1053 | the whole new state and the error: creation on demand (kept when the commit is refused), phase, one commit per validator, 64-character hash |
| `ConsensusKeeper.Keeper.ValidateAuctionBid` | x/consensus/keeper/keeper.go:1057-1135 | which error a bid meets, in the source's order: unreadable or zero, no or unreadable or too small balance, above the maximum, too many recent bids |
| `ConsensusKeeper.Keeper.CountRecent` | x/consensus/keeper/keeper.go:1111-1120 | the loop counts exactly the entries less than 100 seconds old |
| `ConsensusKeeper.Keeper.RecordBidHistory` | x/consensus/keeper/keeper.go:1138-1173 | the bid is appended and only the newest entries are kept |
| `ConsensusKeeper.Keeper.FindCommit` | x/consensus/keeper/keeper.go:1188-1200 | the loop finds the validator's first commit |
| `ConsensusKeeper.Keeper.RevealBid` | x/consensus/keeper/keeper.go:1176-1275 | the whole new state and the error: a reveal opens the validator's own commit once, in the reveal phase, with a valid bid, and is logged |
| `ConsensusKeeper.Keeper.BurnFrom` | x/consensus/keeper/keeper.go:1323-1358 | the winner's new balance; every other balance unchanged |
| `ConsensusKeeper.Keeper.SelectAuctionWinner` | x/consensus/keeper/keeper.go:1279-1448 | the winner is the reveal the weighted draw picks, the auction completes and the winner pays; otherwise an error and no change |
| `ConsensusKeeper.Keeper.TransitionAuctionPhase` | x/consensus/keeper/keeper.go:1451-1463 | commit becomes reveal, every other phase stays |
| `ConsensusKeeper.Keeper.CleanupOldAuctions` | x/consensus/keeper/keeper.go:1468-1511 | exactly the completed auctions below the kept range are removed |
| `ConsensusKeeper.Keeper.EndBlocker` | x/consensus/keeper/keeper.go:784-812 | transition, selection tested on the copy loaded before it, creation of the next auction, cleanup |
| `ConsensusKeeper.SelectBlockCreator` | x/consensus/keeper/keeper.go:125-280 | the creator is the auction's winner when it is a validator, else the weighted draw's pick, else the uniform draw's; none only without validators |
| `ConsensusKeeper.CreatorOdds` | x/consensus/keeper/keeper.go:173-252 | without a completed auction won by a validator, and while all stakes fit 64 bits, the draws below their total on which the block goes to a validator number its ANT balance plus its activity score plus its activated LZN |
| `ConsensusKeeper.WinnerCreates` | x/consensus/keeper/keeper.go:128-155 | a completed auction's winner that is still a validator creates the block, whatever the draw |
| `ConsensusKeeper.UniformCreates` | x/consensus/keeper/keeper.go:173-225 | when nobody has any stake the uniform draw decides |
| `ConsensusKeeper.WinnerOdds` | x/consensus/keeper/keeper.go:1296-1388 | the draws below the total on which SelectAuctionWinner records a reveal as the winner number exactly its bid |
| `Lottery.Draw` | x/consensus/keeper/keeper.go:1296-1321 | the loop over running totals picks the index whose interval holds the drawn residue, and none only when the total is zero |
| `Lottery.FallbackUnreachable` | x/consensus/keeper/keeper.go:1392-1446 | for every residue below the (wrapped) total some index is picked, so the first-entry fallback never runs |
| `Lottery.PickUnique` | x/consensus/keeper/keeper.go:1312-1321 | a residue picks one index only |
| `Lottery.ZeroNeverPicked` | x/consensus/keeper/keeper.go:1296-1321 | an entry of weight zero is never picked, even when the totals wrap |
| `Lottery.ResiduesAreInterval` | x/consensus/keeper/keeper.go:1312-1321 | the residues of an index are the interval between two running totals |
| `Lottery.SharesAddUp` | x/consensus/keeper/keeper.go:1296-1321 | the residues picked before index k number the sum of the shares before k |
| `Lottery.ExactlyProportional` | x/consensus/keeper/keeper.go:1296-1321 | every index has exactly its weight in residues if and only if the weights sum to less than 2^64 |
| `AuctionSafety.CommitKeepsInv` | x/consensus/keeper/keeper.go:999-1053 | a commit keeps the auction invariant: committers unique, revealers unique, each reveal opening its validator's commit, a complete auction won by a reveal |
| `AuctionSafety.RevealKeepsInv` | x/consensus/keeper/keeper.go:1176-1275 | a reveal keeps it |
| `AuctionSafety.SelectKeepsInv` | x/consensus/keeper/keeper.go:1279-1448 | selection keeps it, and moves only this auction from reveal to complete |
| `AuctionSafety.TransitionKeepsInv` | x/consensus/keeper/keeper.go:1451-1463 | a transition keeps it |
| `AuctionSafety.CleanupKeepsInv` | x/consensus/keeper/keeper.go:1468-1511 | cleanup keeps it and changes no auction it keeps |
| `AuctionSafety.EndBlockKeepsInv` | x/consensus/keeper/keeper.go:755-837 | EndBlocker keeps it and moves an auction at most one phase |
| `AuctionSafety.StepKeepsInv` | x/consensus/keeper/keeper.go:971-1463 | every step keeps the invariant; an auction stored before and after moves at most one phase, its commits are fixed once revealing and everything is fixed once complete |
| `AuctionSafety.RunKeepsInv` | x/consensus/keeper/keeper.go:971-1463 | so does every run, with selection and transition as free steps on any height |
| `AuctionSafety.RunDevelops` | x/consensus/keeper/keeper.go:971-1463 | between any two points of a run at which an auction stayed stored, its phase only advances, its commits and reveals only grow, and a complete auction has not changed at all |
| `AuctionSafety.WinnerOpenedItsCommit` | x/consensus/keeper/keeper.go:1176-1448 | an auction complete at j and past its commit phase at i was won by a reveal that opens a commit already stored at i |
| `AuctionSafety.CommitBinds` | x/consensus/keeper/keeper.go:927-931 | one commitment opens to one nonce and numeric bid only, or two hash inputs collide; the colon makes the inputs distinct |
| `AuctionSafety.LiveChainNeverCompletes` | x/consensus/keeper/keeper.go:784-812 | with messages and one EndBlocker per height no auction ever completes |
| `AuctionLedger.BurnIsExact` | x/consensus/keeper/keeper.go:1323-1358 | only the winner's balance changes, by the winning bid, or by nothing when it no longer covers the bid |
| `AuctionLedger.StepConserves` | x/consensus/keeper/keeper.go:1323-1358 | one step: ANT held afterwards plus ANT burned is ANT held before plus what another module wrote |
| `AuctionLedger.RunConserves` | x/consensus/keeper/keeper.go:1279-1448 | over any run, with other modules writing balances in between, ANT held plus burned changes only by those writes; without them it is constant |
| `AuctionLedger.CompletionIsRecorded` | x/consensus/keeper/keeper.go:1279-1448 | a selecting step names one of the stored reveals and records it as winner of the completed auction |
| `AuctionLedger.CompletesAtMostOnce` | x/consensus/keeper/keeper.go:1279-1511 | an auction completes twice only if it was deleted in between |
| `AuctionLedger.HistoryIsNewestLog` | x/consensus/keeper/keeper.go:1138-1173 | on every run the stored history is the newest part of the full log of accepted reveals |
| `AuctionLedger.AcceptedWasNotRapid` | x/consensus/keeper/keeper.go:1100-1132 | an accepted reveal saw fewer recent bids than the limit |
| `AuctionLedger.LogIsSpaced` | x/consensus/keeper/keeper.go:1100-1173 | in the full log, entries a limit apart are at least 100 seconds apart |
| `AuctionLedger.RapidBidsBounded` | x/consensus/keeper/keeper.go:1100-1173 | every window of 100 seconds holds at most the rapid-bid limit of one validator's accepted reveals, though the history is truncated |
| `AuctionRules.RevealAcceptedExactly` | x/consensus/keeper/keeper.go:1176-1275 | a reveal is accepted if and only if the auction is revealing, the validator's own first commit has the hash and is not opened yet, the bid is a positive number within the validator's readable ANT balance (when ANT is wired) and the maximum, and fewer than the limit (5 unless set) of its stored bids are younger than 100 seconds |
| `AuctionRules.RevealRefusedRightly` | x/consensus/keeper/keeper.go:1176-1275 | a refused reveal names a requirement that is really not met, for each of its eleven errors |
| `AuctionRules.RevealRecords` | x/consensus/keeper/keeper.go:1138-1275 | an accepted reveal is appended to the auction and to the history's newest entries (100 unless set); a refused one, and everything else, changes nothing |
| `AuctionRules.LogCovered` | x/consensus/keeper/keeper.go:1057-1135 | over any run, every logged reveal met all of that, its bid covered by the balance at that step |
| `AuctionRules.RevealsCounted` | x/consensus/keeper/keeper.go:1100-1173 | the rate limit over runs, with the window's entries counted |
| `AuctionRules.RecentCounts` | x/consensus/keeper/keeper.go:1111-1120 | the limiter's loop counts the stored bids younger than 100 seconds |
| `AuctionRules.CommitAcceptedExactly` | x/consensus/keeper/keeper.go:999-1053 | a commit is accepted if and only if no stored auction is past its commit phase, the validator has not committed, and the hash has 64 characters |
| `AuctionRules.CommitRefusedRightly` | x/consensus/keeper/keeper.go:999-1053 | a refused commit names a requirement that is really not met |
| `AuctionRules.CommitRecords` | x/consensus/keeper/keeper.go:971-1053 | either way an auction is stored afterwards; an accepted commit is its last one and nothing else changes |
| `AuctionRules.TransitionExactly` | x/consensus/keeper/keeper.go:1451-1463 | a transition opens a committing auction's reveals and nothing else |
| `AuctionRules.SelectSucceedsExactly` | x/consensus/keeper/keeper.go:1279-1310 | a winner is selected if and only if the auction is revealing and its readable bids add up, in 64 bits, to something other than zero |
| `AuctionRules.SelectRefusedRightly` | x/consensus/keeper/keeper.go:1279-1310 | a refused selection names a requirement that is really not met |
| `AuctionRules.SelectRecordsWinner` | x/consensus/keeper/keeper.go:1279-1448 | the winner is one of the reveals, only its balance changes, and every other auction stays |
| `AuctionRules.CleanupExactly` | x/consensus/keeper/keeper.go:1468-1511 | an auction is deleted if and only if it is complete, above height 0 and more than the kept number of blocks (100 unless set) old; an unfinished one never |
| `AuctionRules.EndBlockMoves` | x/consensus/keeper/keeper.go:784-812 | what EndBlocker makes of the auction at its height, by phase: commits open, reveals complete exactly when their total is not zero, the rest stays |
| `AuctionRules.EndBlockKeepsOthers` | x/consensus/keeper/keeper.go:784-812 | and of the others: the next height's auction exists, old complete ones are gone, everything else is untouched |
| `RateLimit.AcceptKeepsSpacing` | x/consensus/keeper/keeper.go:1100-1173 | judging by the truncated history is as good as judging by the whole log |
| `RateLimit.SpacedBoundsWindow` | x/consensus/keeper/keeper.go:1100-1132 | spacing bounds every window |
| `RateLimit.AcceptedIsSpaced` | x/consensus/keeper/keeper.go:1100-1173 | the limiter alone, on any ordered attempts, accepts a spaced log |
| `RateLimit.ShortHistoryAcceptsAll` | x/consensus/keeper/keeper.go:1158-1167 | with a history shorter than the limit every attempt is accepted, so the limit never acts |
| `RateLimit.LimitHoldsExactly` | x/consensus/keeper/keeper.go:1100-1173 | the window limit holds for all ordered attempts if and only if the limit does not exceed the history length |
| `AuctionBursts.RapidLimitExactly` | x/consensus/keeper/keeper.go:1100-1173 | on runs of the auction itself the rapid-bid limit holds in every window if and only if it does not exceed the history length; otherwise commits and reveals at many heights in one second outbid it |
| `AuctionBursts.ScriptAccepted` | x/consensus/keeper/keeper.go:999-1275 | with a history shorter than the limit that run's every reveal is accepted, however long it is |
| `Halving.HalvingKeeper.ProcessHalving` | x/consensus/keeper/keeper.go:439-510 | the stored schedule advances at most one interval per call, whatever the average block time |
| `Halving.AgreesNextExactly` | x/consensus/keeper/keeper.go:439-510 | stored state that matches the closed form still matches at a later height if and only if no whole interval was skipped, and then last <= height < next |
| `Halving.SameHeightIdempotent` | x/consensus/keeper/keeper.go:439-510 | a second call at the same height changes nothing |
| `Halving.AgreesThroughoutExactly` | x/consensus/keeper/keeper.go:439-510 | over any rising heights the state matches GetHalvingCount after each if and only if no interval is skipped |
| `Halving.ConsecutiveHeightsAgree` | x/consensus/keeper/keeper.go:745-749 | from genesis on consecutive heights last is 210000 * (h / 210000) and next is last + 210000 |
| `Halving.ConsecutiveHeightsInNumbers` | x/consensus/keeper/keeper.go:1519-1522 | the same with 210000 written out, and next above the height |
| `Emission.HalvingIsDivision` | x/consensus/keeper/keeper.go:1549-1557 | halving n times is integer division by 2^n |
| `Emission.RewardIsDivision` | x/consensus/keeper/keeper.go:1525-1565 | the block reward is base / 2^(height / 210000), with a floor of 1 |
| `Emission.CalculateBaseReward` | x/consensus/keeper/keeper.go:1525-1565 | the halving loop, with its early exit and floor, computes the specified reward |
| `Emission.UnflooredBelowDouble` | x/consensus/keeper/keeper.go:1525-1565 | without the floor, the rewards of all heights up to h sum to less than 2 * base * 210000 |
| `Emission.FloorAddsAtMostOne` | x/consensus/keeper/keeper.go:1559-1562 | the floor adds at most 1 per height |
| `Emission.MintedBound` | x/consensus/keeper/keeper.go:1525-1565 | with the floor they sum to at most 2 * base * 210000 + h |
| `Emission.DefaultBoundIsSupply` | x/governance/keeper/keeper.go:27 | for the default base that bound is TotalWRTSupply |
| `Emission.MintedByEras` | x/consensus/keeper/keeper.go:1525-1565 | the emission up to the end of an era is the sum over its halvings |
| `Emission.SupplyCapHoldsExactly` | x/consensus/keeper/keeper.go:1525-1565 | the default schedule stays within TotalWRTSupply exactly up to height 57979999; the floor exceeds it from 57980000 on |
| `RewardSplit.CalculateRewardDistribution` | x/consensus/keeper/keeper.go:1671-1744 | when it fails, which rewards it lists for an iteration order, where the remainder goes and what it reports as distributed, with uint64 wrap-around |
| `RewardSplit.ListRewards` | x/consensus/keeper/keeper.go:1686-1728 | the loop lists one reward per validator with LZN, in iteration order |
| `RewardSplit.PlaceRemainder` | x/consensus/keeper/keeper.go:1730-1741 | a positive remainder goes to the first fully compliant validator, if there is one |
| `RewardSplit.AddUp` | x/consensus/keeper/keeper.go:1676-1680 | the total LZN, modulo 2^64, whatever the iteration order |
| `RewardSplit.DistributedTotal` | x/consensus/keeper/keeper.go:1671-1744 | while the activated total is below 2^64, final rewards sum to at most the subsidy, and to exactly it when some listed validator is fully compliant; otherwise nothing is topped up |
| `RewardSplit.SubsidyHoldsExactly` | x/consensus/keeper/keeper.go:1676-1741 | bounding the activated total by k keeps every distribution within its subsidy if and only if k is at most 2^64 (a total of exactly 2^64 is refused as zero) |
| `RewardSplit.WrappedTotal` | x/consensus/keeper/keeper.go:1676-1741 | a total of 2^64 + 1 wraps to 1 and the split assigns 2^64 more than the subsidy |
| `RewardSplit.TotalIgnoresOrder` | x/consensus/keeper/keeper.go:1671-1744 | while the activated total is below 2^64, two iteration orders distribute the same total |
| `RewardRules.EntriesExactly` | x/consensus/keeper/keeper.go:1620-1728 | one entry for each validator with a licence and none for others: its share in 64 bits, paid in full from the high or warning threshold on, three quarters from medium, half from low, nothing below; thresholds of zero are 1.0, 0.9, 0.7 and 0.5, missing compliance is 1.0 |
| `RewardRules.ReturnedExactly` | x/consensus/keeper/keeper.go:1730-1741 | the entries returned are those, except that what is left of the subsidy goes to the first with a compliance of at least 1.0 |
| `RewardRules.RaisedCompliance` | x/consensus/keeper/keeper.go:1623-1655 | with ordered thresholds, raising one validator's compliance never lowers its entry and leaves all others |
| `RewardRules.PaidExactly` | x/consensus/keeper/keeper.go:1798-1851 | a validator receives what its entries add up to if the bank mints and sends for it, and nothing otherwise |
| `RewardRules.BlockPaysExactly` | x/consensus/keeper/keeper.go:1671-1851 | from licence to account: what one block pays a validator |
| `RewardSplit.ShareExactly` | x/consensus/keeper/keeper.go:1698-1700 | a share is the rounded-down proportion if and only if its product fits 64 bits |
| `RewardSplit.RemainderBelowCount` | x/consensus/keeper/keeper.go:1698-1741 | without penalties, products and total below 2^64, the remainder is smaller than the number of rewarded validators |
| `RewardSplit.RemainderHoldsExactly` | x/consensus/keeper/keeper.go:1698-1741 | bounding the products by k keeps every unpenalised remainder that small if and only if k is below 2^64 |
| `RewardSplit.WrappedRemainder` | x/consensus/keeper/keeper.go:1698-1741 | a concrete pair of validators whose product wraps and leaves more than half of the subsidy as remainder |
| `RewardKeeper.Keeper.DistributeBaseRewards` | x/consensus/keeper/keeper.go:1749-1881 | the rewards assigned and the bank after minting and sending them, for any failing mints and sends |
| `RewardKeeper.Keeper.AssignRewards` | x/consensus/keeper/keeper.go:1749-1796 | the rewards are those of the split for this height's subsidy |
| `RewardKeeper.Keeper.PayRewards` | x/consensus/keeper/keeper.go:1798-1851 | each reward is minted and sent, a failed mint skips the send, a failed send leaves the coins in the module account |
| `RewardKeeper.PayAllBalanced` | x/consensus/keeper/keeper.go:1798-1851 | minted coins are in the module account or with a validator, whichever mints and sends fail |
| `RewardKeeper.LicensedFits` | x/consensus/keeper/keeper.go:1763-1791 | while governance sets no negative minimum, the amounts read in any state the licence keeper can reach add up to less than 2^64 |
| `RewardKeeper.BlockMintsWithinSubsidy` | x/consensus/keeper/keeper.go:1749-1851 | over licences reachable without a negative minimum one block mints at most its subsidy |
| `RewardKeeper.RunMintsSubsidies` | x/consensus/keeper/keeper.go:1749-1851 | a run, each block over such licences, mints at most the sum of its subsidies and stays balanced |
| `RewardKeeper.RunEmissionBounded` | x/consensus/keeper/keeper.go:1749-1851 | over distinct heights up to H such a run mints at most 2 * base * 210000 + H |
| `RewardKeeper.RunWithinSupply` | x/consensus/keeper/keeper.go:1749-1851 | with the default base and heights up to 57979999 such a run mints at most TotalWRTSupply |
| `RewardKeeper.RunSupplyExactly` | x/consensus/keeper/keeper.go:1749-1851 | all such runs over distinct heights up to H stay within TotalWRTSupply if and only if H is at most 57979999 |
| `RewardKeeper.FullRunMints` | x/consensus/keeper/keeper.go:1749-1851 | a single fully compliant validator with a bank that always mints receives the whole schedule |
| `RewardOverflow.ReadTotalsFitExactly` | x/governance/keeper/parameter_applier.go:56-62 | keeping the minimum licence at k or above keeps the amounts the rewards read below 2^64 in every reachable state if and only if k is not negative |
| `RewardOverflow.ReachOverflow` | x/lizenz/keeper/keeper.go:384-452 | with a negative minimum, negative licences bring the activated total back to zero and two licences of 2^63 - 1 stand side by side; with a minimum of -(2^63 - 1) after five activations |
| `RewardOverflow.OverflowMints` | x/consensus/keeper/keeper.go:1749-1851 | over those licences one block mints 2^65 more than its subsidy |
| `RewardOverflow.EmissionBoundedExactly` | x/consensus/keeper/keeper.go:1749-1851 | the bound 2 * base * 210000 + H holds of all runs over distinct heights up to H if and only if no minimum is negative |
| `EconomicEngine.Sort` | x/anteil/keeper/economic_engine.go:61-72 | sorts either side by price and keeps exactly its orders |
| `EconomicEngine.EconomicEngine.ExecuteTrade` | x/anteil/keeper/economic_engine.go:111-183 | both order objects lose the traded quantity and the store gets both orders and the trade, or fails as specified |
| `EconomicEngine.EconomicEngine.TradeHeads` | x/anteil/keeper/economic_engine.go:80-105 | one pass of the loop: the heads trade and filled orders leave their lists |
| `EconomicEngine.EconomicEngine.ExecuteMatching` | x/anteil/keeper/economic_engine.go:79-108 | the loop over two aliased order lists equals the recursive crossing of their values, and terminates |
| `EconomicEngine.EconomicEngine.GetAllOrders` | x/anteil/keeper/keeper.go:167-190 | a fresh object for every stored order, each once |
| `EconomicEngine.EconomicEngine.Separate` | x/anteil/keeper/economic_engine.go:49-59 | open orders of each side, in any order, each once |
| `EconomicEngine.EconomicEngine.LoadBook` | x/anteil/keeper/economic_engine.go:41-72 | the two sorted lists are a book of exactly the stored open orders |
| `EconomicEngine.EconomicEngine.ProcessOrderMatching` | x/anteil/keeper/economic_engine.go:39-76 | the store afterwards is the crossing of some sorted book of its open orders |
| `Matching.ClearsAtOnePrice` | x/anteil/keeper/economic_engine.go:79-108 | there is one price, between the two best limits, at which the traded volume is within demand and supply |
| `Matching.ClearsMaximum` | x/anteil/keeper/economic_engine.go:79-108 | for non-negative amounts the traded volume is the maximum over all prices of min(demand, supply), attained and never exceeded |
| `Matching.MaximalExactly` | x/anteil/keeper/economic_engine.go:79-123 | refusing orders below k makes every match maximal if and only if k is not negative; the code refuses none |
| `Matching.NegativeAmountMissesMaximum` | x/anteil/keeper/economic_engine.go:115-123 | any negative buy order that crosses a sell order trades its negative amount, below what a higher price clears |
| `Matching.FewTrades` | x/anteil/keeper/economic_engine.go:79-108 | at most one trade fewer than there are orders |
| `Matching.MatchSettles` | x/anteil/keeper/economic_engine.go:79-108 | each side is filled as a prefix of its price order, at most one order is left partly filled, and the best remaining orders do not cross |
| `Matching.NothingLeftCrosses` | x/anteil/keeper/economic_engine.go:84-104 | no open buy order reaches the limit of any open sell order |
| `Matching.TradesAreFair` | x/anteil/keeper/economic_engine.go:115-133 | every trade is between two listed orders, within both limits, at the seller's price |
| `Matching.OrdersConserved` | x/anteil/keeper/economic_engine.go:135-148 | each order's initial amount is what it still asks for plus what it traded, on both sides |
| `Market.CrossKeepsAccounts` | x/anteil/keeper/economic_engine.go:79-183 | while trade ids tell buy and sell pairs apart, matching never fails and every order stays accounted for by the stored trades |
| `Market.CrossFrame` | x/anteil/keeper/economic_engine.go:79-183 | orders outside the book are untouched |
| `Market.CrossVolume` | x/anteil/keeper/economic_engine.go:79-183 | the stored trades grow by exactly the matched volume |
| `Market.CrossIsMatch` | x/anteil/keeper/economic_engine.go:79-183 | the store ends with the orders of the pure matching |
| `Market.RunAccounted` | x/anteil/keeper/economic_engine.go:39-183 | over any run of placing, cancelling and matching over ids whose trade ids tell the pairs apart, each order's placed quantity is its remaining quantity plus its stored trades |
| `Market.MatchingNeverRepeats` | x/anteil/keeper/economic_engine.go:39-183 | over any such run no buy and sell pair meets a trade id already stored |
| `Market.AccountedExactly` | x/anteil/keeper/economic_engine.go:79-183 | for disjoint buy and sell ids, every run over them accounts for every order if and only if no two pairs share a trade id |
| `Market.GeneratedIdsSeparable` | x/anteil/types/types.go:192-194 | buy ids as generated for owners without underscores never share a trade id, whatever the sell ids |
| `Market.UnderscoresCollide` | x/anteil/keeper/economic_engine.go:125 | ids with underscores can: a concrete pair of id sets on which accounting fails |
| `Market.SharedTradeIdLosesTrade` | x/anteil/keeper/economic_engine.go:115-160 | any two pairs with one trade id give a run, from the empty store, that fills the second pair without a trade on record |
| `MarketRules.PlaceExactly` | x/anteil/keeper/keeper.go:71-97 | an order is stored if and only if its id is new, owner and identity are given and it is open |
| `MarketRules.CancelExactly` | x/anteil/keeper/keeper.go:142-151 | cancelling closes the stored order and touches nothing else |
| `MarketRules.CancelledStays` | x/anteil/keeper/keeper.go:142-151 | over every later run a cancelled order keeps its amount and its trades |
| `Accrual.Keeper.DistributeAntToCitizens` | x/anteil/keeper/keeper.go:787-895 | every position after one distribution; nothing on unreadable parameters |
| `Accrual.Keeper.BeginBlocker` | x/anteil/keeper/keeper.go:500-531 | the time gate, the distribution and the stored time |
| `Accrual.RewardExactly` | x/anteil/keeper/keeper.go:846-861 | one reward is min(limit, held + rate) if and only if the sum fits 64 bits |
| `Accrual.AccrualClosedForm` | x/anteil/keeper/keeper.go:787-895 | an active citizen or validator in every block, changed only by n distributions, holds min(limit, b0 + n * rate), or what it held when already at the limit |
| `Accrual.ClosedFormExactly` | x/anteil/keeper/keeper.go:787-895 | the closed form holds of all runs, citizens and starting balances if and only if limit + rate is at most 2^64 |
| `Accrual.Spacing` | x/anteil/keeper/keeper.go:506-528 | distributions are at least a period apart, on any run with ordered block times |
| `Accrual.DistributionsBounded` | x/anteil/keeper/keeper.go:506-528 | at most (t - t0) / period + 1 distributions by time t |
| `Accrual.DistributionExactly` | x/anteil/keeper/keeper.go:819-886 | one distribution: an active citizen or validator below the limit receives the rate up to the limit; the position of a guest, of an inactive account, of an address without account and of anyone at or above the limit stays as it is |
| `Accrual.OthersUntouched` | x/anteil/keeper/keeper.go:819-886 | over a run: whoever is never an active citizen or validator keeps its position |
| `Accrual.BlockDistributesExactly` | x/anteil/keeper/keeper.go:506-528 | a block distributes if and only if nothing was distributed before or a whole period has passed, and the parameters read as numbers |
| `Accrual.NeverOverdue` | x/anteil/keeper/keeper.go:506-528 | after every block of a run the last distribution is less than a period old |
| `Accrual.FixedTextUnreadable` | x/anteil/keeper/economic_engine.go:186-197 | the six-decimal text a trade writes as a balance, signed or not, is not readable as an unsigned number |
| `Accrual.DecimalBalanceRestarts` | x/anteil/keeper/keeper.go:846-865 | so a balance a trade wrote restarts from zero at the next distribution, whatever was bought or sold |
| `Lizenz.Keeper.GetTotalActivatedLizenz` | x/lizenz/keeper/keeper.go:363-380 | the loop computes the sum of all amounts in int64 |
| `Lizenz.Keeper.ValidateMaxLznActivationLimit` | x/lizenz/keeper/keeper.go:384-452 | which amounts pass the 33% rule |
| `Lizenz.Keeper.SetActivatedLizenz` | x/lizenz/keeper/keeper.go:112-215 | identity and role check, limits and share; the new store or the error, and the tokens locked if the bank locks them |
| `Lizenz.Keeper.UpdateActivatedLizenz` | x/lizenz/keeper/keeper.go:240-266 | the new store or the error |
| `Lizenz.Keeper.DeleteActivatedLizenz` | x/lizenz/keeper/keeper.go:269-333 | the new store or the error, and the tokens sent back if the bank sends them and the account holds them |
| `Lizenz.ActivationFits` | x/lizenz/keeper/keeper.go:363-452 | with a minimum of zero or more, no accepted activation takes the total out of int64: the wrapped total turns negative and the share check refuses |
| `Lizenz.RunFits` | x/lizenz/keeper/keeper.go:112-333 | over every run of activations with such minima, amount-keeping updates and deletions the total the checks compute is the true one |
| `Lizenz.FitsExactly` | x/governance/keeper/parameter_applier.go:56-62 | keeping the minimum amount at k or above keeps every run within int64 and free of negative licences if and only if k is not negative; governance sets it unchecked |
| `Lizenz.ActivationWithinShare` | x/lizenz/keeper/keeper.go:384-452 | with a minimum of zero or more, an activation into a non-empty system leaves the newcomer at or below 33/100 of the total |
| `Lizenz.ActivateKeepsShares` | x/lizenz/keeper/keeper.go:112-215 | and keeps everybody else's share within 33/100 |
| `Lizenz.NonFoundersDiluted` | x/lizenz/keeper/keeper.go:112-266 | on runs without deletion, with amount-keeping updates and no negative minimum, everyone except the validator activated into the empty system stays within 33/100 |
| `Lizenz.DilutionHoldsExactly` | x/lizenz/keeper/keeper.go:112-266 | keeping the minimum at k or above keeps that rule on all runs without deletion if and only if k is not negative |
| `Lizenz.DilutedExactly` | x/lizenz/keeper/keeper.go:112-333 | on runs with deletions and no negative minimum the rule holds for all non-founders in every state if and only if each deletion leaves every other non-founder within 33/100 of what remains |
| `Lizenz.DeletionKeepsExactly` | x/lizenz/keeper/keeper.go:269-333 | after one deletion a holder is within its share exactly when it fits what is left |
| `Lizenz.OneFounder` | x/lizenz/keeper/keeper.go:422-437 | with positive minima there is at most one such validator at any time, and exactly one while nobody has left |
| `Lizenz.OneFounderExactly` | x/lizenz/keeper/keeper.go:422-437 | keeping the minimum at k or above leaves at most one on all runs if and only if k is positive |
| `Lizenz.TouchSucceedsExactly` | x/lizenz/keeper/keeper.go:240-266 | an amount-keeping update is accepted if and only if the amount is within 33/100 or is the whole total |
| `Lizenz.DeletionConcentrates` | x/lizenz/keeper/keeper.go:269-333 | a three-step run on which a deletion pushes the remaining validator above 33/100 |
| `Lizenz.EscrowBalances` | x/lizenz/keeper/keeper.go:137-157 | over any run, whatever the limits, the module account holds the coins of the stored licences, short of those whose lock failed and over by those never returned, and is never negative; without negative minima those coins are the activated total |
| `LizenzRules.ActivationAcceptedExactly` | x/lizenz/keeper/keeper.go:112-452 | an activation is accepted if and only if the validator is in good standing and holds no licence, the amount is within the limits, and it is the first or stays within int64 and 33 parts in 100 of the new total |
| `LizenzRules.ActivationAcceptedWrapped` | x/lizenz/keeper/keeper.go:112-452 | the same for any limits and amounts, with totals as int64 wraps them |
| `LizenzRules.ActivationRefusedRightly` | x/lizenz/keeper/keeper.go:112-452 | a refused activation names a requirement that is really not met |
| `LizenzRules.ActivationRecords` | x/lizenz/keeper/keeper.go:112-215 | it stores this licence, and a refused one nothing |
| `LizenzRules.UpdateAcceptedExactly` | x/lizenz/keeper/keeper.go:240-266 | an update is accepted if and only if its holder is alone or the new amount is within 33 parts in 100 of the new total; it stores it |
| `LizenzRules.UpdateAcceptedWrapped` | x/lizenz/keeper/keeper.go:240-266 | the same for any amounts, negative ones included, with totals as int64 wraps them |
| `LizenzRules.DeletionExactly` | x/lizenz/keeper/keeper.go:269-333 | a deletion takes away that licence only |
| `GovernableParams.GovernableExactly` | x/governance/types/governable_params.go:63-78 | a parameter is governable exactly when it is in the governable table: the constitutional check excludes none of it |
| `GovernableParams.TablesDisjoint` | x/governance/types/governable_params.go:18-60 | no governable entry has a constitutional key |
| `GovernableParams.LookupFindsListed` | x/governance/types/governable_params.go:81-88 | the lookup finds an entry of the table with that module and parameter, exactly when there is one |
| `GovernanceKeeper.MsgServer.SubmitProposal` | x/governance/keeper/msg_server.go:29-111 | the new proposal with type, times, periods and changes, or the error with the store restored |
| `GovernanceKeeper.MsgServer.SumVotes` | x/governance/keeper/keeper.go:287-303 | the loop over all stored votes computes the per-option totals |
| `GovernanceKeeper.MsgServer.TallyVotes` | x/governance/keeper/keeper.go:274-324 | totals, status and execution time are written to this proposal only |
| `GovernanceKeeper.MsgServer.Vote` | x/governance/keeper/msg_server.go:115-194 | vote and tally in one step, or the error with the store restored |
| `GovernanceKeeper.MsgServer.ApplyLizenzParameterChange` | x/governance/keeper/parameter_applier.go:47-89 | the one field it overwrites, or the error |
| `GovernanceKeeper.MsgServer.ApplyAnteilParameterChange` | x/governance/keeper/parameter_applier.go:92-127 | the one field it overwrites, or the error, including the parameter store's refusal of a zero max_open_orders |
| `GovernanceKeeper.MsgServer.ApplyConsensusParameterChange` | x/governance/keeper/parameter_applier.go:130-175 | the one field it overwrites, or the error |
| `GovernanceKeeper.MsgServer.ApplyGovernanceParameterChange` | x/governance/keeper/parameter_applier.go:178-247 | the one field it overwrites, or the error |
| `GovernanceKeeper.MsgServer.ApplyParameterChange` | x/governance/keeper/parameter_applier.go:25-44 | validation, then the module's applier |
| `GovernanceKeeper.MsgServer.ExecuteProposal` | x/governance/keeper/msg_server.go:197-256 | all changes and the executed status together, or the error with the store restored |
| `GovernanceRuns.ApplyAllFrame` | x/governance/keeper/parameter_applier.go:25-247 | changes touch governable fields only, and no proposal or vote |
| `GovernanceRuns.UngovernedParamsFixed` | x/governance/keeper/parameter_applier.go:250-301 | on every run a parameter outside the governable table never changes |
| `GovernanceRuns.AppliersCoverTable` | x/governance/keeper/parameter_applier.go:47-247 | every governable entry is known to its module's applier |
| `GovernanceRuns.SoleVoteTally` | x/governance/keeper/keeper.go:287-303 | the totals of a proposal with a single vote |
| `GovernanceRuns.FirstVoteDecides` | x/governance/keeper/msg_server.go:115-194 | the first accepted vote alone closes the proposal: passed exactly when this vote meets quorum and threshold |
| `GovernanceRuns.StepKeepsInv` | x/governance/keeper/msg_server.go:29-256 | every message keeps every stored proposal's totals equal to the uint64 sums over its stored votes, at most one vote a proposal, and statuses moving only forward |
| `GovernanceRuns.RunKeepsInv` | x/governance/keeper/msg_server.go:29-256 | so does every run from genesis: in each state the totals are the per-option sums of stored voting power |
| `GovernanceRuns.RunDevelops` | x/governance/keeper/msg_server.go:29-256 | a proposal is never lost, its changes never change, and its status only goes submitted to passed or rejected and passed to executed |
| `GovernanceRuns.PassedByVote` | x/governance/keeper/keeper.go:274-324 | a passed proposal was passed by one vote, and its execution time is that block time plus the timelock read then |
| `GovernanceRuns.ExecutedAfterTimelock` | x/governance/keeper/keeper.go:355-375 | execution happens no earlier than the passing vote plus the timelock read at the tally |
| `GovernanceRuns.ExecutedAtMostOnce` | x/governance/keeper/msg_server.go:197-256 | a proposal is executed at most once, with governable changes only |
| `GovernanceRules.ExecuteTakesEffect` | x/governance/keeper/parameter_applier.go:25-247 | after a successful execution every field a change names, the five governance fields included, holds what the text of the last change naming it reads as; every field no change names, every vote and every other proposal is as before |
| `GovernanceRules.ExecuteSucceedsExactly` | x/governance/keeper/msg_server.go:197-256 | an execution succeeds if and only if the proposal is stored and passed, its execution time has come and all of its changes are acceptable |
| `GovernanceRules.ExecuteRefusedRightly` | x/governance/keeper/msg_server.go:197-256 | a refused execution names a requirement that is really not met |
| `GovernanceRules.ChangeAcceptedExactly` | x/governance/keeper/parameter_applier.go:25-301 | a change is acceptable if and only if it names one of the parameters, its module's keeper is wired, and its text is not empty and reads as that parameter needs |
| `GovernanceRules.GovernableNames` | x/governance/types/governable_params.go:18-78 | the seventeen parameters a proposal may name, and no other |
| `GovernanceRules.SubmitAcceptedExactly` | x/governance/keeper/msg_server.go:29-93 | a submission is accepted if and only if its fields are given, the deposit reaches the minimum and every change names one of them |
| `GovernanceRules.SubmitRefusedRightly` | x/governance/keeper/msg_server.go:29-93 | a refused proposal names a requirement that is really not met |
| `GovernanceRules.SubmitRecords` | x/governance/keeper/msg_server.go:63-96 | it is stored under the next number with voting an hour away, the day's periods and no votes; nothing else changes |
| `GovernanceRules.VoteAcceptedExactly` | x/governance/keeper/msg_server.go:115-176 | which votes are accepted |
| `GovernanceRules.VoteRefusedRightly` | x/governance/keeper/msg_server.go:115-176 | a refused vote names a requirement that is really not met |
| `GovernanceRules.TallyPassesExactly` | x/governance/keeper/keeper.go:274-352 | a tally passes a proposal if and only if the stored votes reach the quorum's part of the supply, the yes votes exceed the threshold's part of the votes, and exceed the no votes; its totals are the stored powers |
| `GovernanceRules.FirstVotePassesExactly` | x/governance/keeper/keeper.go:327-352 | on runs: the first vote passes a proposal if and only if it is a yes whose positive power reaches the quorum's part of the supply and exceeds the threshold's part of itself |
| `Identity.Keeper.SetVerifiedAccount` | x/ident/keeper/keeper.go:111-155 | account and index entry stored together, or the error |
| `Identity.Keeper.UpdateVerifiedAccount` | x/ident/keeper/keeper.go:324-368 | the account, and the index entry when the hash changed, or the error |
| `Identity.Keeper.DeleteVerifiedAccount` | x/ident/keeper/keeper.go:371-381 | the account goes, its index entry stays |
| `Identity.Keeper.ChangeAccountRole` | x/ident/keeper/keeper.go:488-508 | the role changes and nothing else |
| `Identity.Keeper.UpdateAccountActivity` | x/ident/keeper/keeper.go:284-303 | the loop touches every account's activity time and nothing else |
| `Identity.Keeper.ExecuteRoleMigration` | x/ident/keeper/keeper.go:632-683 | the index and both accounts after a migration, successful or not |
| `Identity.StepKeepsInv` | x/ident/keeper/keeper.go:111-508 | set, update, role change, activity update and delete keep every stored account's hash mapped to its own address |
| `Identity.RunKeepsInv` | x/ident/keeper/keeper.go:111-508 | so does every run of them |
| `Identity.HashesUnique` | x/ident/keeper/keeper.go:111-155 | no two stored accounts share a hash |
| `IdentityRules.SetAcceptedExactly` | x/ident/keeper/keeper.go:111-155 | a registration is accepted if and only if address, hash and role are given, the address is new, the hash is nobody's and, for limits below 10000, there is room for the role; it stores account and index entry |
| `IdentityRules.UpdateAcceptedExactly` | x/ident/keeper/keeper.go:324-368 | an update is accepted if and only if it is complete, the account is stored and a new hash is not somebody else's; it stores the account and moves its entry |
| `IdentityRules.RefusedRightly` | x/ident/keeper/keeper.go:111-368 | a refused registration or update names a requirement that is really not met |
| `IdentityRules.DeleteExactly` | x/ident/keeper/keeper.go:371-381 | a deletion takes the account away and leaves the index |
| `IdentityRules.RoleChangeExactly` | x/ident/keeper/keeper.go:488-535 | a role change is accepted if and only if the account is stored and there is room for the new role, citizen or validator; it changes this account's role and activity time only |
| `IdentityRules.RoleChangeRefusedRightly` | x/ident/keeper/keeper.go:488-535 | a refused role change names a requirement that is really not met |
| `IdentityRules.TouchExactly` | x/ident/keeper/keeper.go:284-303 | the end of a block sets every activity time and changes nothing else |
| `IdentityRules.MigrationSucceedsExactly` | x/ident/keeper/keeper.go:632-683 | what a migration needs, as an if and only if |
| `IdentityRules.MigrationRefusedRightly` | x/ident/keeper/keeper.go:632-683 | a refused migration names the request, the source or the target as what is wrong, rightly |
| `IdentityRules.MigrationRecords` | x/ident/keeper/keeper.go:632-683 | the target has the source's role, the hash and its index entry, the source is inactive, the rest stays |
| `Identity.DeletedHashStaysTaken` | x/ident/keeper/keeper.go:324-381 | on every run in which the deleted address is not registered again its hash stays taken: nobody holds it and nobody can register it |
| `Identity.TakenExactly` | x/ident/keeper/keeper.go:111-381 | a registered hash stays taken throughout a run if and only if no update moves an account off it |
| `Identity.DeletedHashReturns` | x/ident/keeper/keeper.go:111-381 | registering the deleted address again lets it take the old hash and free it: a six-step run after which another account holds it |
| `Identity.MigrationKeepsExactly` | x/ident/keeper/keeper.go:632-683 | a successful migration keeps the index right for active accounts if and only if the source's hash differs from the migrated one or no other account holds it |
| `Identity.ActiveSourceKeeps` | x/ident/keeper/keeper.go:632-683 | a migration from an active source keeps it |
| `Identity.FailedMigrationKeepsExactly` | x/ident/keeper/keeper.go:632-683 | exactly when a migration that fails halfway leaves the index right for active accounts |
| `Identity.AttemptKeepsExactly` | x/ident/keeper/keeper.go:260-281 | the same for an attempt without rollback, whether it succeeds, fails at once or fails halfway |
| `Identity.UpdateKeepsExactly` | x/ident/keeper/keeper.go:324-368 | an accepted update keeps the index right for active accounts if and only if, keeping its hash, it activates only the account the index names, or, changing it, it takes it from no other active holder |
| `Identity.MovesKeepExactly` | x/ident/keeper/keeper.go:111-683 | over any run, half-failed retries of BeginBlocker included, the index is right for all active accounts in every state if and only if every update and every migration attempt meets its own condition |
| `Identity.QuietUpdateKeepsActive` | x/ident/keeper/keeper.go:324-368 | an update that keeps the hash and reactivates nobody keeps it |
| `Identity.MovesKeepActive` | x/ident/keeper/keeper.go:111-683 | over any run of such updates and migrations from active sources the index is right for all active accounts |
| `Identity.UpdatesBreak` | x/ident/keeper/keeper.go:324-368 | two runs on which an update breaks it after a migration: reactivating the source, and moving the inactive source to another hash |
| `Snapshot.Manager.SplitIntoChunks` | app/snapshot.go:113-133 | the chunks concatenate to the data, all full but the last, ceil(length / size) of them, with their hashes |
| `Snapshot.Manager.CreateSnapshot` | app/snapshot.go:49-91 | a height is snapshotted once: height, format, count, hash and chunk hashes stored with the chunks, the rest unchanged |
| `Snapshot.MetadataExactly` | app/snapshot.go:136-151 | two snapshots hash the same bytes if and only if height and count agree and each chunk hash agrees in its first 32 characters, half of it |
| `Snapshot.MetadataBytes` | app/snapshot.go:136-151 | the place of every byte that is hashed: 8 of the height, the format version, 4 of the count, 32 characters of each chunk hash |
| `Snapshot.Manager.ApplyChunk` | app/snapshot.go:185-199 | a chunk is stored exactly when it has the announced hash |
| `Snapshot.Manager.CompleteSnapshot` | app/snapshot.go:202-223 | the concatenation of the chunks found by hash, or nothing when one is missing |
| `Snapshot.WellCutLength` | app/snapshot.go:113-133 | a well-cut sequence has ceil(length / size) chunks |
| `Snapshot.RunAddressed` | app/snapshot.go:185-199 | on every run each stored chunk sits under its own hash and none is lost |
| `Snapshot.FetchRebuilds` | app/snapshot.go:202-240 | fetching all hashes rebuilds the bytes, or a collision is stored |
| `Snapshot.RebuildExactly` | app/snapshot.go:202-240 | a snapshot is rebuilt if and only if all its hashes are stored, and then from the stored chunks in order |
| `Snapshot.SnapshotRecoverable` | app/snapshot.go:49-240 | after any later snapshots and chunks the stored hashes still rebuild the state, or a collision has been stored |
| `MsgChangeRole.EncodeMsgChangeRole` | frontend/wallet-ui/src/types/volnix-messages.ts:20-56 | the writer's bytes grow by exactly the encoding, pending forks are untouched |
| `MsgChangeRole.EncodeFee` | frontend/wallet-ui/src/types/volnix-messages.ts:43-53 | the nested fee is written through fork and ldelim as one length-delimited field |
| `MsgChangeRole.DecodeMsgChangeRole` | frontend/wallet-ui/src/types/volnix-messages.ts:59-107 | the outer loop computes the specified decoding of the whole buffer or of a given length, or fails with it |
| `MsgChangeRole.DecodeFeeLoop` | frontend/wallet-ui/src/types/volnix-messages.ts:82-99 | the inner loop computes the specified fee |
| `MsgChangeRole.FeeReads` | frontend/wallet-ui/src/types/volnix-messages.ts:80-99 | a written fee is read back whole, up to its length prefix |
| `MsgChangeRole.ItemReads` | frontend/wallet-ui/src/types/volnix-messages.ts:70-105 | one pass of the loop over any well-formed field merges it and stops behind it |
| `MsgChangeRole.ItemsRead` | frontend/wallet-ui/src/types/volnix-messages.ts:70-105 | any well-formed list of fields, anywhere in a buffer, decodes to its last-one-wins merge |
| `MsgChangeRole.EncodeIsItems` | frontend/wallet-ui/src/types/volnix-messages.ts:20-56 | the encoder writes one well-formed field per present property, in order |
| `MsgChangeRole.EncodingExample` | frontend/wallet-ui/src/types/volnix-messages.ts:20-56 | one full message byte by byte: the field numbers and wire types on the wire |
| `MsgChangeRole.EmptiesOmitted` | frontend/wallet-ui/src/types/volnix-messages.ts:20-56 | empty strings are not written, at either level |
| `MsgChangeRole.RoundTrip` | frontend/wallet-ui/src/types/volnix-messages.ts:20-107 | decoding an encoded message gives it back, up to omitted empty strings, negative roles and the nested fee included |
| `MsgChangeRole.RoundTripProperties` | frontend/wallet-ui/src/types/volnix-messages.ts:20-107 | the same property by property: which spelling wins, what empty strings and absent properties come back as |
| `MsgChangeRole.EncodingDeterminesMessage` | frontend/wallet-ui/src/types/volnix-messages.ts:20-56 | equal encodings come from messages equal up to omitted empties and spelling |
| `MsgChangeRole.LastOneWins` | frontend/wallet-ui/src/types/volnix-messages.ts:59-107 | two encodings in a row decode as the second put over the first |
| `MsgChangeRole.StandardMergeExactly` | frontend/wallet-ui/src/types/volnix-messages.ts:80-99 | that is protobuf's merge rule for the repeated fee if and only if the second fee gives every property the first one gave |
| `MsgChangeRole.RepeatedFeeDropsDenom` | frontend/wallet-ui/src/types/volnix-messages.ts:84 | otherwise a property is lost: a second fee with only an amount drops the denomination |
| `MsgChangeRole.UnknownFieldsIgnored` | frontend/wallet-ui/src/types/volnix-messages.ts:96-104 | well-formed unknown fields, groups included, anywhere between the fields or inside the fee, change nothing |
| `Wire.Uint32Reads` | frontend/wallet-ui/src/types/volnix-messages.ts:74 | uint32 reads back what uint32 wrote |
| `Wire.Int32Reads` | frontend/wallet-ui/src/types/volnix-messages.ts:79 | int32 reads back what int32 wrote, sign extension included |
| `Wire.StrReads` | frontend/wallet-ui/src/types/volnix-messages.ts:76 | a length-delimited string is read back |
| `Wire.FieldSkips` | frontend/wallet-ui/src/types/volnix-messages.ts:102 | skipType jumps over exactly the body of any well-formed field, nested groups included |
| `Wire.WireExamples` | frontend/wallet-ui/src/types/volnix-messages.ts:26-50 | the varint, int32, tag and string bytes of the Encoding guide's examples |
| `Wire.SkipExamples` | frontend/wallet-ui/src/types/volnix-messages.ts:96-104 | eight bytes for wire type 1, four for 5, failure for 4, 6 and 7 and at the end of the buffer |
| `Wire.LongStringFails` | frontend/wallet-ui/src/types/volnix-messages.ts:73 | a string that runs past the buffer fails |
| `Wire.OverlongFails` | frontend/wallet-ui/src/types/volnix-messages.ts:69 | a varint of more than ten bytes fails |

## Left out

- Servers, start-up, configuration, REST, CLI, UI, scripts, monitoring, upgrades and x/integration: plumbing.
- Bank, auth, params subspaces, KV iterators, protobuf and JSON store encodings and their errors: stores are maps; the bank is a ledger whose mints and sends may fail.
- SHA-256, zero-knowledge proofs and provider accreditation: the hash is an arbitrary function and claims read "or a collision exists".
- Floating point: penalty multipliers are exact quarters, 0.33 is 33/100, quorum and threshold are rationals rounded down, orders are fixed point with six decimals. Rounding of float64 itself is not modelled.
- Parameters stored as text are taken after parsing where a failed parse falls back to a default; time.ParseDuration and strconv.ParseFloat are arbitrary functions of the text, the latter with NaN and infinities among its results.
- Heights, limits and supplies are unbounded naturals where the source has uint64 and no operation on them can wrap; sums and products that can wrap are modelled modulo 2^64.
- Events, logging and wall-clock timestamps, except a proposal's submit time.
- Orders of unspecified side, which matching never lists: every order here buys or sells.
- The casts int(RapidBidLimit) and int(BidHistoryLimit), which turn limits of 2^63 or more negative.
- RevealBid's second ANT-balance check repeats the one in ValidateAuctionBid and cannot fail after it; the two are one check here.
- Average block time, validator weights, consensus state, calculateTotalBurnedTokens and CalculateBlockTime: bookkeeping beside the auction.
- The setters SetBlindAuction and SetHalvingInfo as steps of their own: only their callers keep the invariants.
- User positions in matching (UpdateUserPosition replaces the balance, so ANT is not conserved there), anteil auctions (their bid list is a stub) and market making.
- Order expiry and the re-validation inside UpdateOrder and SetTrade beyond a duplicate trade id: stored orders already passed it.
- Registering validators in the consensus module, MOA tracking and deactivation around a licence, and message-level checks for empty fields.
- ReleaseIdentityHash and checkAccountActivity: the account keeps a hash whose entry is gone, so the index claim does not apply to them.
- Snapshot listing and ApplySnapshotChunk in app/app.go, which passes the hex of a chunk instead of its hash.
- UTF-8 conversion: a string of the wallet message is its UTF-8 bytes, shorter than 2^31. The Reader's handling of over-long varints follows the Encoding guide rather than the library.
- EconomicEngine.EconomicEngine.ExecuteTrade: the user positions written between the orders and the trade record are not part of the store; see above.
- Matching.ClearsMaximum: stated for non-negative amounts, exactly where it is true (`MaximalExactly`).
- Matching.ClearsAtOnePrice: stated for non-negative amounts, as its corollary `ClearsMaximum`.
- RewardSplit.DistributedTotal: stated for activated totals below 2^64, exactly where it is true (`SubsidyHoldsExactly`); `RewardOverflow.ReadTotalsFitExactly` says when totals stay there.
- RewardSplit.TotalIgnoresOrder: stated for activated totals below 2^64.
- RewardKeeper.LicensedFits: stated without negative minima, exactly where it is true (`RewardOverflow.ReadTotalsFitExactly`).
- RewardKeeper.BlockMintsWithinSubsidy: stated over licences reachable without negative minima (`RewardOverflow.OverflowMints` shows why).
- RewardKeeper.RunMintsSubsidies: stated over licences reachable without negative minima.
- RewardKeeper.RunEmissionBounded: stated without negative minima, exactly where it is true (`RewardOverflow.EmissionBoundedExactly`).
- RewardKeeper.RunWithinSupply: stated without negative minima; for those `RunSupplyExactly` is exact in the height.
- Lizenz.ActivationWithinShare: stated for minima of zero or more, as are ActivateKeepsShares, NonFoundersDiluted and DilutedExactly (`DilutionHoldsExactly` shows this is exact).
- Lizenz.OneFounder: stated for positive minima, exactly where it is true (`OneFounderExactly`).
- Accrual.AccrualClosedForm: stated for limit + rate of at most 2^64, exactly where it is true (`ClosedFormExactly`), and for parameters that parse.
- RewardSplit.RemainderBelowCount: stated for products and totals below 2^64; `RemainderHoldsExactly` shows the bound is exact.
- Lizenz.Keeper.SetActivatedLizenz: the registration in the consensus module, whose failure is only logged, is not modelled.
- GovernanceKeeper.MsgServer.ApplyGovernanceParameterChange: accepts NaN as the code does; what the platform makes of NaN times a supply as a uint64 is an arbitrary function (`Env.outOfRange`).
- MsgChangeRole.LastOneWins: stated for the encoder's own output; for any well-formed list of fields, see `ItemsRead`.
