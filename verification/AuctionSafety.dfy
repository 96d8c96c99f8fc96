/** What every run of the blind auction keeps: the protocol order, the binding of reveals to
    commits, the finality of the winner, the burn ledger and the rapid-bid limit. */
module AuctionSafety {
  import opened Wrappers
  import opened Decimal
  import opened Auction

  // ---------- One auction ----------

  ghost predicate DistinctCommitters(a: BlindAuction) {
    forall i, j :: 0 <= i < j < |a.commits| ==> a.commits[i].validator != a.commits[j].validator
  }

  ghost predicate DistinctRevealers(a: BlindAuction) {
    forall i, j :: 0 <= i < j < |a.revealed| ==> a.revealed[i].validator != a.revealed[j].validator
  }

  /** The reveal opens a commit of the same validator, and its amount is a positive number. */
  ghost predicate Opens(cfg: Config, a: BlindAuction, r: BidReveal) {
    && EncryptedBid(r.validator, HashCommit(cfg, r.nonce, r.bidAmount)) in a.commits
    && ParseUint(r.bidAmount).Some?
    && ParseUint(r.bidAmount).value > 0
  }

  ghost predicate WonBy(a: BlindAuction, r: BidReveal) {
    a.winner == r.validator && a.winningBid == r.bidAmount
  }

  ghost predicate Good(cfg: Config, height: nat, a: BlindAuction) {
    && a.height == height
    && DistinctCommitters(a)
    && DistinctRevealers(a)
    && (a.phase == Committing ==> a.revealed == [])
    && (forall r :: r in a.revealed ==> Opens(cfg, a, r))
    && (if a.phase == Complete then exists r :: r in a.revealed && WonBy(a, r)
        else a.winner == "" && a.winningBid == "0")
  }

  ghost predicate Inv(cfg: Config, s: State) {
    forall h :: h in s.auctions ==> Good(cfg, h, s.auctions[h])
  }

  function Rank(p: Phase): nat {
    match p
    case Committing => 0
    case Revealing => 1
    case Complete => 2
  }

  /** How a stored auction may develop: phases only move forward, commits are only added while
      committing, reveals only added while revealing, and a complete auction never changes. */
  ghost predicate Develops(a: BlindAuction, b: BlindAuction) {
    && a.height == b.height
    && Rank(a.phase) <= Rank(b.phase)
    && a.commits <= b.commits
    && a.revealed <= b.revealed
    && (a.phase != Committing ==> a.commits == b.commits)
    && (b.phase == Committing ==> a.revealed == b.revealed)
    && (a.phase == Complete ==> a == b)
  }

  /** Every auction stored before and after develops, by at most one phase. */
  ghost predicate StepDevelops(s: State, s': State) {
    forall h :: h in s.auctions && h in s'.auctions ==>
      Develops(s.auctions[h], s'.auctions[h])
      && Rank(s'.auctions[h].phase) <= Rank(s.auctions[h].phase) + 1
  }

  lemma {:induction false} CommitOfIsStored(commits: seq<EncryptedBid>, validator: string)
    ensures CommitOf(commits, validator).Some? ==>
      CommitOf(commits, validator).value in commits && CommitOf(commits, validator).value.validator == validator
    ensures CommitOf(commits, validator).None? ==>
      forall i :: 0 <= i < |commits| ==> commits[i].validator != validator
  {
    if commits != [] {
      CommitOfIsStored(commits[1..], validator);
      assert commits == [commits[0]] + commits[1..];
    }
  }

  /** Writing back one auction that is good and developed keeps the whole store good. */
  lemma PutKeepsInv(cfg: Config, s: State, s': State, h: nat, a: BlindAuction)
    requires Inv(cfg, s)
    requires s'.auctions == s.auctions[h := a]
    requires Good(cfg, h, a)
    requires h in s.auctions ==> Develops(s.auctions[h], a) && Rank(a.phase) <= Rank(s.auctions[h].phase) + 1
    ensures Inv(cfg, s') && StepDevelops(s, s')
  {
  }

  lemma CreateKeepsInv(cfg: Config, s: State, h: nat)
    requires Inv(cfg, s)
    ensures Inv(cfg, Create(s, h)) && StepDevelops(s, Create(s, h))
  {
    if h !in s.auctions {
      PutKeepsInv(cfg, s, Create(s, h), h, Fresh(h));
    }
  }

  lemma CommitKeepsInv(cfg: Config, s: State, v: string, hash: string, h: nat)
    requires Inv(cfg, s)
    ensures Inv(cfg, CommitBid(s, v, hash, h).0) && StepDevelops(s, CommitBid(s, v, hash, h).0)
  {
    CreateKeepsInv(cfg, s, h);
    var s1 := Create(s, h);
    var a := s1.auctions[h];
    if CommitError(a, v, hash).None? {
      assert Good(cfg, h, a);
      PutKeepsInv(cfg, s1, CommitBid(s, v, hash, h).0, h, a.(commits := a.commits + [EncryptedBid(v, hash)]));
    }
  }

  lemma RevealKeepsInv(cfg: Config, s: State, v: string, nonce: string, bid: string, h: nat, now: int)
    requires Inv(cfg, s)
    ensures Inv(cfg, RevealBid(cfg, s, v, nonce, bid, h, now).0)
    ensures StepDevelops(s, RevealBid(cfg, s, v, nonce, bid, h, now).0)
  {
    if RevealError(cfg, s, v, nonce, bid, h, now).None? {
      var a := s.auctions[h];
      assert Good(cfg, h, a);
      CommitOfIsStored(a.commits, v);
      var r := BidReveal(v, nonce, bid);
      assert Opens(cfg, a, r);
      var a' := a.(revealed := a.revealed + [r]);
      forall q | q in a'.revealed ensures Opens(cfg, a', q) {
        assert q in a.revealed || q == r;
        assert Opens(cfg, a, q);
      }
      PutKeepsInv(cfg, s, RevealBid(cfg, s, v, nonce, bid, h, now).0, h, a');
    }
  }

  lemma TransitionKeepsInv(cfg: Config, s: State, h: nat)
    requires Inv(cfg, s)
    ensures Inv(cfg, Transition(s, h).0) && StepDevelops(s, Transition(s, h).0)
  {
    if h in s.auctions && s.auctions[h].phase == Committing {
      assert Good(cfg, h, s.auctions[h]);
      PutKeepsInv(cfg, s, Transition(s, h).0, h, s.auctions[h].(phase := Revealing));
    }
  }

  lemma SelectKeepsInv(cfg: Config, s: State, h: nat, draw: nat)
    requires Inv(cfg, s)
    ensures Inv(cfg, Select(cfg, s, h, draw).0) && StepDevelops(s, Select(cfg, s, h, draw).0)
  {
    if SelectError(s, h).None? {
      var a := s.auctions[h];
      assert Good(cfg, h, a);
      var r := a.revealed[WinnerIndex(a, draw)];
      var a' := a.(winner := r.validator, winningBid := r.bidAmount, phase := Complete);
      assert r in a'.revealed && WonBy(a', r);
      forall q | q in a'.revealed ensures Opens(cfg, a', q) {
        assert Opens(cfg, a, q);
      }
      PutKeepsInv(cfg, s, Select(cfg, s, h, draw).0, h, a');
    }
  }

  lemma CleanupKeepsInv(cfg: Config, s: State, current: nat)
    requires Inv(cfg, s)
    ensures Inv(cfg, Cleanup(cfg, s, current)) && StepDevelops(s, Cleanup(cfg, s, current))
  {
  }

  /** Creating and deleting other auctions leaves a stored one exactly as it was. */
  lemma TailLeavesAuctions(cfg: Config, s: State, h: nat, k: nat)
    requires k in s.auctions && k in Cleanup(cfg, Create(s, h + 1), h).auctions
    ensures Cleanup(cfg, Create(s, h + 1), h).auctions[k] == s.auctions[k]
  {
  }

  /** Opening the reveals or completing the auction of this height. */
  lemma CoreKeepsInv(cfg: Config, s: State, h: nat, draw: nat)
    requires Inv(cfg, s)
    ensures var s2 := EndBlockCore(cfg, s, h, draw);
      Inv(cfg, s2) && StepDevelops(s, s2) && s.auctions.Keys == s2.auctions.Keys
  {
    TransitionKeepsInv(cfg, s, h);
    SelectKeepsInv(cfg, s, h, draw);
  }

  lemma EndBlockKeepsInv(cfg: Config, s: State, h: nat, draw: nat)
    requires Inv(cfg, s)
    ensures Inv(cfg, EndBlock(cfg, s, h, draw)) && StepDevelops(s, EndBlock(cfg, s, h, draw))
  {
    var s2 := EndBlockCore(cfg, s, h, draw);
    CoreKeepsInv(cfg, s, h, draw);
    CreateKeepsInv(cfg, s2, h + 1);
    CleanupKeepsInv(cfg, Create(s2, h + 1), h);
    forall k | k in s.auctions && k in EndBlock(cfg, s, h, draw).auctions
      ensures EndBlock(cfg, s, h, draw).auctions[k] == s2.auctions[k]
    {
      TailLeavesAuctions(cfg, s2, h, k);
    }
  }

  /** Every step keeps the invariant and moves each auction at most one phase; for EndBlocker
      this is because it tests the copy loaded before its own transition. */
  lemma StepKeepsInv(cfg: Config, s: State, step: Step)
    requires Inv(cfg, s)
    ensures Inv(cfg, Apply(cfg, s, step)) && StepDevelops(s, Apply(cfg, s, step))
  {
    match step
    case CommitStep(v, hash, h) => CommitKeepsInv(cfg, s, v, hash, h);
    case RevealStep(v, nonce, bid, h, now) => RevealKeepsInv(cfg, s, v, nonce, bid, h, now);
    case TransitionStep(h) => TransitionKeepsInv(cfg, s, h);
    case SelectStep(h, draw) => SelectKeepsInv(cfg, s, h, draw);
    case CreateStep(h) => CreateKeepsInv(cfg, s, h);
    case CleanupStep(h) =>
    case BalanceStep(_, _) =>
    case EndBlockStep(h, draw) => EndBlockKeepsInv(cfg, s, h, draw);
  }

  /** EndBlocker before it creates the next auction and cleans up: one transition, or one
      selection, or nothing. */
  ghost function EndBlockCore(cfg: Config, s: State, h: nat, draw: nat): (s2: State)
    ensures EndBlock(cfg, s, h, draw) == Cleanup(cfg, Create(s2, h + 1), h)
    ensures s2 == s || s2 == Apply(cfg, s, TransitionStep(h)) || s2 == Apply(cfg, s, SelectStep(h, draw))
  {
    if h !in s.auctions then s
    else if s.auctions[h].phase == Committing && s.auctions[h].commits != [] then Transition(s, h).0
    else if s.auctions[h].phase == Revealing && s.auctions[h].revealed != [] then Select(cfg, s, h, draw).0
    else s
  }

  // ---------- Runs ----------

  /** Every state of a run satisfies the auction invariant. */
  lemma {:induction false} RunKeepsInv(cfg: Config, s: State, steps: seq<Step>)
    requires Inv(cfg, s)
    ensures Inv(cfg, Run(cfg, s, steps))
  {
    if steps != [] {
      RunKeepsInv(cfg, s, steps[..|steps| - 1]);
      StepKeepsInv(cfg, Run(cfg, s, steps[..|steps| - 1]), steps[|steps| - 1]);
    }
  }

  /** The auction at `height` is stored in every state from i to j: it was neither deleted nor
      re-created in between. */
  ghost predicate StoredThroughout(cfg: Config, s: State, steps: seq<Step>, height: nat, i: nat, j: nat)
    requires i <= j <= |steps|
  {
    forall k :: i <= k <= j ==> height in At(cfg, s, steps, k).auctions
  }

  /** On every run, between its creation and its deletion an auction only develops: the phase
      goes COMMIT, REVEAL, COMPLETE, commits freeze when reveals open, and a complete auction's
      winner and winning bid never change. */
  lemma {:induction false} RunDevelops(cfg: Config, s: State, steps: seq<Step>, height: nat, i: nat, j: nat)
    requires Inv(cfg, s)
    requires i <= j <= |steps|
    requires StoredThroughout(cfg, s, steps, height, i, j)
    ensures Develops(At(cfg, s, steps, i).auctions[height], At(cfg, s, steps, j).auctions[height])
  {
    if i < j {
      RunDevelops(cfg, s, steps, height, i, j - 1);
      RunStepDevelops(cfg, s, steps, height, j - 1);
      DevelopsFurther(At(cfg, s, steps, i).auctions[height], At(cfg, s, steps, j - 1).auctions[height],
        At(cfg, s, steps, j).auctions[height]);
    }
  }

  lemma RunStepDevelops(cfg: Config, s: State, steps: seq<Step>, height: nat, j: nat)
    requires Inv(cfg, s) && j < |steps|
    requires height in At(cfg, s, steps, j).auctions && height in At(cfg, s, steps, j + 1).auctions
    ensures Develops(At(cfg, s, steps, j).auctions[height], At(cfg, s, steps, j + 1).auctions[height])
  {
    RunKeepsInv(cfg, s, steps[..j]);
    AtStep(cfg, s, steps, j);
    StepKeepsInv(cfg, At(cfg, s, steps, j), steps[j]);
  }

  lemma DevelopsFurther(a: BlindAuction, b: BlindAuction, c: BlindAuction)
    requires Develops(a, b) && Develops(b, c)
    ensures Develops(a, c)
  {
  }

  /** The winner of b is one of b's reveals, and that reveal opens a commit of a. */
  ghost predicate WonByOpening(cfg: Config, a: BlindAuction, b: BlindAuction) {
    exists r :: r in b.revealed && WonBy(b, r) && Opens(cfg, a, r)
  }

  /** A completed auction's winner is one of its reveals, that reveal opens a commit of the same
      validator, and the commit was stored before the reveals opened. */
  lemma WinnerOpenedItsCommit(cfg: Config, s: State, steps: seq<Step>, height: nat, i: nat, j: nat)
    requires Inv(cfg, s)
    requires i <= j <= |steps|
    requires StoredThroughout(cfg, s, steps, height, i, j)
    requires At(cfg, s, steps, i).auctions[height].phase != Committing
    requires At(cfg, s, steps, j).auctions[height].phase == Complete
    ensures WonByOpening(cfg, At(cfg, s, steps, i).auctions[height], At(cfg, s, steps, j).auctions[height])
  {
    RunDevelops(cfg, s, steps, height, i, j);
    RunKeepsInv(cfg, s, steps[..j]);
    var a := At(cfg, s, steps, j).auctions[height];
    assert Good(cfg, height, a);
    var r :| r in a.revealed && WonBy(a, r);
    assert Opens(cfg, a, r);
    assert Opens(cfg, At(cfg, s, steps, i).auctions[height], r);
  }

  // ---------- Binding ----------

  ghost predicate Collision(cfg: Config, x: string, y: string) {
    x != y && cfg.hash(x) == cfg.hash(y)
  }

  /** A commit binds nonce and bid: two openings of the same commit with numeric bids agree, or
      they are a collision of the hash function. The colon cannot move, as bids hold digits only. */
  lemma CommitBinds(cfg: Config, n1: string, b1: string, n2: string, b2: string)
    requires ParseUint(b1).Some? && ParseUint(b2).Some?
    requires HashCommit(cfg, n1, b1) == HashCommit(cfg, n2, b2)
    ensures (n1 == n2 && b1 == b2) || Collision(cfg, HashInput(n1, b1), HashInput(n2, b2))
  {
    if HashInput(n1, b1) == HashInput(n2, b2) {
      ColonIsLast(n1, b1, n2, b2);
    }
  }

  lemma ColonIsLast(n1: string, b1: string, n2: string, b2: string)
    requires AllDigits(b1) && AllDigits(b2)
    requires HashInput(n1, b1) == HashInput(n2, b2)
    ensures n1 == n2 && b1 == b2
  {
    var x := HashInput(n1, b1);
    assert x[|n1|] == ':' && x[|n2|] == ':';
    assert forall k :: |n1| < k < |x| ==> x[k] == b1[k - |n1| - 1];
    assert forall k :: |n2| < k < |x| ==> x[k] == b2[k - |n2| - 1];
    assert n1 == x[..|n1|] && n2 == x[..|n2|];
    assert b1 == x[|n1| + 1..] && b2 == x[|n2| + 1..];
  }

  // ---------- Messages and one EndBlocker per height ----------

  /** The schedule of a live chain: messages, other modules' writes, and EndBlocker at strictly rising heights. */
  ghost predicate ChainSchedule(steps: seq<Step>, last: int) {
    steps == [] ||
    (var step := steps[|steps| - 1];
     match step
     case CommitStep(_, _, _) => ChainSchedule(steps[..|steps| - 1], last)
     case RevealStep(_, _, _, _, _) => ChainSchedule(steps[..|steps| - 1], last)
     case BalanceStep(_, _) => ChainSchedule(steps[..|steps| - 1], last)
     case EndBlockStep(h, _) => h <= last && ChainSchedule(steps[..|steps| - 1], h - 1)
     case _ => false)
  }

  ghost predicate NoneOpenedYet(s: State, last: int) {
    forall h :: h in s.auctions ==>
      s.auctions[h].phase != Complete && (h > last ==> s.auctions[h].phase == Committing)
  }

  /** On a live chain no auction ever completes: EndBlocker opens the reveals of the height it
      closes and never returns to that height. Winners exist only when SelectAuctionWinner or
      TransitionAuctionPhase is called from elsewhere. */
  lemma {:induction false} LiveChainNeverCompletes(cfg: Config, steps: seq<Step>, last: int)
    requires ChainSchedule(steps, last)
    ensures NoneOpenedYet(Run(cfg, State(map[], map[], map[]), steps), last)
  {
    if steps != [] {
      var before := Run(cfg, State(map[], map[], map[]), steps[..|steps| - 1]);
      var step := steps[|steps| - 1];
      if step.EndBlockStep? {
        LiveChainNeverCompletes(cfg, steps[..|steps| - 1], step.height - 1);
        EndBlockOpensOnly(cfg, before, step.height, step.draw);
      } else {
        LiveChainNeverCompletes(cfg, steps[..|steps| - 1], last);
        MessageOpensNothing(cfg, before, step, last);
      }
    }
  }

  lemma EndBlockOpensOnly(cfg: Config, s: State, height: nat, draw: nat)
    requires NoneOpenedYet(s, height - 1)
    ensures NoneOpenedYet(EndBlock(cfg, s, height, draw), height)
  {
    var s2 := EndBlockCore(cfg, s, height, draw);
    assert s2 == s || s2 == Transition(s, height).0;
    assert NoneOpenedYet(s2, height);
    assert NoneOpenedYet(Create(s2, height + 1), height);
  }

  lemma MessageOpensNothing(cfg: Config, s: State, step: Step, last: int)
    requires step.CommitStep? || step.RevealStep? || step.BalanceStep?
    requires NoneOpenedYet(s, last)
    ensures NoneOpenedYet(Apply(cfg, s, step), last)
  {
  }
}
