/** The governance message server in the form of the source, proved against `Governance`. A handler
    works on the store and an error restores what it had when the message began. */
module GovernanceKeeper {
  import opened Wrappers
  import opened Decimal
  import opened Sums
  import opened GovernableParams
  import opened Governance
  import opened GovernanceRuns

  class MsgServer {
    const env: Env
    var nextId: nat
    var proposals: map<nat, Proposal>
    var votes: map<(nat, string), Vote>
    var gov: GovParams
    var params: ModuleParams

    constructor (env: Env, gov: GovParams, params: ModuleParams)
      ensures this.env == env && Contents() == Genesis(gov, params)
    {
      this.env := env;
      nextId, proposals, votes := 1, map[], map[];
      this.gov, this.params := gov, params;
    }

    function Contents(): State
      reads this
    {
      State(nextId, proposals, votes, gov, params)
    }

    method Restore(s: State)
      modifies this
      ensures Contents() == s
    {
      nextId, proposals, votes, gov, params := s.nextId, s.proposals, s.votes, s.gov, s.params;
    }

    method SubmitProposal(m: Submission, now: int, clock: int) returns (e: Option<Error>)
      modifies this
      ensures Reports(Submit(old(Contents()), m, now, clock), old(Contents()), Contents(), e)
    {
      var begin := Contents();
      if m.proposer == "" {
        return Some(EmptyProposer);
      }
      if m.title == "" {
        return Some(EmptyTitle);
      }
      if m.description == "" {
        return Some(EmptyDescription);
      }
      var id := nextId;
      nextId := nextId + 1;
      e := DepositError(m.deposit);
      if e.Some? {
        Restore(begin);
        return;
      }
      var p := Proposal(id, m.proposer, m.kind, m.title, m.description, Submitted, clock, now + HOUR,
                        gov.votingPeriod, now + gov.votingPeriod, gov.timelockPeriod, None, m.changes, 0, 0, 0, 0);
      for i := 0 to |m.changes|
        invariant Contents() == begin.(nextId := id + 1)
        invariant forall j :: 0 <= j < i ==> IsGovernable(m.changes[j].mod, m.changes[j].parameter)
      {
        if !IsGovernable(m.changes[i].mod, m.changes[i].parameter) {
          Restore(begin);
          return Some(ConstitutionalParameter);
        }
      }
      proposals := proposals[id := p];
      return None;
    }

    method DepositError(deposit: string) returns (e: Option<Error>)
      ensures e == if ParseUint(deposit).None? then Some(InvalidDeposit)
        else if ParseUint(gov.minDeposit).None? then Some(InvalidMinDeposit)
        else if ParseUint(deposit).value < ParseUint(gov.minDeposit).value then Some(InsufficientDeposit)
        else None
    {
      var paid := ParseUint(deposit);
      if paid.None? {
        return Some(InvalidDeposit);
      }
      var minimum := ParseUint(gov.minDeposit);
      if minimum.None? {
        return Some(InvalidMinDeposit);
      }
      if paid.value < minimum.value {
        return Some(InsufficientDeposit);
      }
      return None;
    }

    /** The three running totals over all stored votes, visited in any order. */
    method SumVotes(id: nat) returns (yes: nat, no: nat, abstain: nat)
      ensures yes == Tallied(votes, id, Yes)
      ensures no == Tallied(votes, id, No)
      ensures abstain == Tallied(votes, id, Abstain)
    {
      yes, no, abstain := 0, 0, 0;
      var rest := votes.Keys;
      NothingSummed(votes, id);
      while rest != {}
        invariant rest <= votes.Keys
        invariant Pending(votes, rest, id, Yes, yes)
        invariant Pending(votes, rest, id, No, no)
        invariant Pending(votes, rest, id, Abstain, abstain)
        decreases rest
      {
        var k :| k in rest;
        SumOne(votes, rest, k, id, Yes, yes);
        SumOne(votes, rest, k, id, No, no);
        SumOne(votes, rest, k, id, Abstain, abstain);
        yes, no, abstain := CountVote(votes[k], id, yes, no, abstain);
        rest := rest - {k};
      }
      AllSummed(votes, id, Yes, yes);
      AllSummed(votes, id, No, no);
      AllSummed(votes, id, Abstain, abstain);
    }

    /** The switch over the vote's option. */
    method CountVote(vote: Vote, id: nat, yes0: nat, no0: nat, abstain0: nat)
      returns (yes: nat, no: nat, abstain: nat)
      ensures yes == Added(yes0, vote, id, Yes)
      ensures no == Added(no0, vote, id, No)
      ensures abstain == Added(abstain0, vote, id, Abstain)
    {
      yes, no, abstain := yes0, no0, abstain0;
      if vote.proposalId == id {
        match vote.option
        case Yes => yes := (yes + vote.power) % U64;
        case No => no := (no + vote.power) % U64;
        case Abstain => abstain := (abstain + vote.power) % U64;
        case Unspecified =>
      }
    }

    method TallyVotes(id: nat, now: int, supply: nat)
      requires id in proposals && proposals[id].id == id
      modifies this`proposals
      ensures proposals == old(proposals)[id := Tally(env, votes, gov, old(proposals)[id], now, supply)]
    {
      var proposal := proposals[id];
      var yes, no, abstain := SumVotes(id);
      var total := (yes + no + abstain) % U64;
      proposal := proposal.(yes := yes, no := no, abstain := abstain, total := total);
      if IsPassed(env, gov, yes, no, total, supply) {
        proposal := proposal.(status := Passed, executionTime := Some(now + gov.timelockPeriod));
      } else {
        proposal := proposal.(status := Rejected);
      }
      proposals := proposals[id := proposal];
    }

    method Vote(id: nat, voter: string, option: VoteOption, now: int, power: Option<nat>, supply: nat)
      returns (e: Option<Error>)
      requires forall k :: k in proposals ==> proposals[k].id == k
      modifies this
      ensures Reports(CastVote(env, old(Contents()), id, voter, option, now, power, supply),
        old(Contents()), Contents(), e)
    {
      var begin := Contents();
      if id == 0 {
        return Some(ZeroId);
      }
      if voter == "" {
        return Some(EmptyVoter);
      }
      if id !in proposals {
        return Some(ProposalNotFound);
      }
      var open := OpenVoting(id, now);
      if !open {
        return Some(NotInVotingPeriod);
      }
      e := VoteWhileOpen(begin, id, voter, option, now, power, supply);
    }

    /** The rest of the handler, with voting opened; an error goes back to where it began. */
    method VoteWhileOpen(begin: State, id: nat, voter: string, option: VoteOption, now: int, power: Option<nat>,
        supply: nat) returns (e: Option<Error>)
      requires id in begin.proposals && begin.proposals[id].id == id
      requires Contents() == begin.(proposals := begin.proposals[id := begin.proposals[id].(status := Voting)])
      modifies this
      ensures e == VoteError(begin, id, voter, power)
      ensures e.Some? ==> Contents() == begin
      ensures e.None? ==>
        var stored := begin.votes[(id, voter) := Governance.Vote(id, voter, option, power.value)];
        Contents() == begin.(votes := stored, proposals := begin.proposals[
          id := Tally(env, stored, begin.gov, begin.proposals[id].(status := Voting), now, supply)])
    {
      if (id, voter) in votes {
        Restore(begin);
        return Some(VoteAlreadyExists);
      }
      if power.None? {
        Restore(begin);
        return Some(InvalidVoter);
      }
      StoreAndTally(Governance.Vote(id, voter, option, power.value), now, supply);
      return None;
    }

    /** A submitted proposal enters the voting status once its start time has passed. */
    method OpenVoting(id: nat, now: int) returns (open: bool)
      requires id in proposals
      modifies this`proposals
      ensures open == VotingOpen(old(proposals)[id], now)
      ensures proposals == if open then old(proposals)[id := old(proposals)[id].(status := Voting)] else old(proposals)
    {
      var proposal := proposals[id];
      if proposal.status == Voting {
        assert proposals == proposals[id := proposal.(status := Voting)];
        return true;
      }
      if proposal.status == Submitted && now > proposal.votingStart {
        proposals := proposals[id := proposal.(status := Voting)];
        return true;
      }
      return false;
    }

    method StoreAndTally(vote: Vote, now: int, supply: nat)
      requires vote.proposalId in proposals && proposals[vote.proposalId].id == vote.proposalId
      modifies this
      ensures var id := vote.proposalId;
        var stored := old(votes)[(id, vote.voter) := vote];
        Contents() == old(Contents()).(votes := stored, proposals := old(proposals)[
          id := Tally(env, stored, old(gov), old(proposals)[id], now, supply)])
    {
      votes := votes[(vote.proposalId, vote.voter) := vote];
      TallyVotes(vote.proposalId, now, supply);
    }

    method ApplyLizenzParameterChange(c: Change) returns (e: Option<Error>)
      modifies this
      ensures Reports(ApplyLizenz(env, old(Contents()), c), old(Contents()), Contents(), e)
    {
      if "lizenz" !in env.wired {
        return Some(KeeperNotSet);
      }
      if c.parameter == "activity_coefficient" || c.parameter == "min_lzn_amount" || c.parameter == "max_lzn_amount" {
        params := params[(c.mod, c.parameter) := Text(c.newValue)];
      } else if c.parameter == "inactivity_period" || c.parameter == "deactivation_period" {
        var duration := env.parseDuration(c.newValue);
        if duration.None? {
          return Some(InvalidValue);
        }
        params := params[(c.mod, c.parameter) := Span(duration.value)];
      } else {
        return Some(UnknownParameter);
      }
      return None;
    }

    method ApplyAnteilParameterChange(c: Change) returns (e: Option<Error>)
      modifies this
      ensures Reports(ApplyAnteil(env, old(Contents()), c), old(Contents()), Contents(), e)
    {
      if "anteil" !in env.wired {
        return Some(KeeperNotSet);
      }
      if c.parameter == "min_ant_amount" || c.parameter == "max_ant_amount" || c.parameter == "trading_fee_rate" {
        params := params[(c.mod, c.parameter) := Text(c.newValue)];
      } else if c.parameter == "max_open_orders" {
        var value := ParseUint(c.newValue);
        if value.None? || value.value >= 0x1_0000_0000 {
          return Some(InvalidValue);
        }
        if value.value == 0 {
          return Some(ParamStorePanic);
        }
        params := params[(c.mod, c.parameter) := Number(value.value)];
      } else {
        return Some(UnknownParameter);
      }
      return None;
    }

    method ApplyConsensusParameterChange(c: Change) returns (e: Option<Error>)
      modifies this
      ensures Reports(ApplyConsensus(env, old(Contents()), c), old(Contents()), Contents(), e)
    {
      if "consensus" !in env.wired {
        return Some(KeeperNotSet);
      }
      if c.parameter == "base_block_time" {
        if env.parseDuration(c.newValue).None? {
          return Some(InvalidValue);
        }
        params := params[(c.mod, c.parameter) := Text(c.newValue)];
      } else if c.parameter == "high_activity_threshold" || c.parameter == "low_activity_threshold" {
        var value := ParseUint(c.newValue);
        if value.None? {
          return Some(InvalidValue);
        }
        params := params[(c.mod, c.parameter) := Number(value.value)];
      } else {
        return Some(UnknownParameter);
      }
      return None;
    }

    method ApplyGovernanceParameterChange(c: Change) returns (e: Option<Error>)
      modifies this
      ensures Reports(ApplyGovernance(env, old(Contents()), c), old(Contents()), Contents(), e)
    {
      if c.parameter == "voting_period" || c.parameter == "timelock_period" {
        var duration := env.parseDuration(c.newValue);
        if duration.None? || duration.value <= 0 {
          return Some(InvalidValue);
        }
        if c.parameter == "voting_period" {
          gov := gov.(votingPeriod := duration.value);
        } else {
          gov := gov.(timelockPeriod := duration.value);
        }
      } else if c.parameter == "min_deposit" {
        if ParseUint(c.newValue).None? {
          return Some(InvalidValue);
        }
        gov := gov.(minDeposit := c.newValue);
      } else if c.parameter == "quorum" || c.parameter == "threshold" {
        var (decimal, ok) := env.parseFloat(c.newValue);
        if !ok || Below(decimal, 0.0) || Above(decimal, 1.0) {
          return Some(InvalidValue);
        }
        if c.parameter == "quorum" {
          gov := gov.(quorum := c.newValue);
        } else {
          gov := gov.(threshold := c.newValue);
        }
      } else {
        return Some(UnknownParameter);
      }
      return None;
    }

    method ApplyParameterChange(c: Change) returns (e: Option<Error>)
      modifies this
      ensures Reports(ApplyChange(env, old(Contents()), c), old(Contents()), Contents(), e)
    {
      if !IsGovernable(c.mod, c.parameter) {
        return Some(ConstitutionalParameter);
      }
      if c.mod == "lizenz" {
        e := ApplyLizenzParameterChange(c);
      } else if c.mod == "anteil" {
        e := ApplyAnteilParameterChange(c);
      } else if c.mod == "consensus" {
        e := ApplyConsensusParameterChange(c);
      } else if c.mod == "governance" {
        e := ApplyGovernanceParameterChange(c);
      } else {
        e := Some(UnknownParameter);
      }
    }

    method ExecuteProposal(id: nat, now: int) returns (e: Option<Error>)
      modifies this
      ensures Reports(Execute(env, old(Contents()), id, now), old(Contents()), Contents(), e)
    {
      var begin := Contents();
      e := ExecuteError(Contents(), id, now);
      if e.Some? {
        return;
      }
      var proposal := proposals[id];
      e := ApplyChanges(proposal.changes);
      if e.Some? {
        return;
      }
      ApplyAllFrame(env, begin, proposal.changes);
      proposals := proposals[id := proposal.(status := Executed)];
    }

    /** The loop over the proposal's changes. */
    method ApplyChanges(changes: seq<Change>) returns (e: Option<Error>)
      modifies this
      ensures Reports(ApplyAll(env, old(Contents()), changes), old(Contents()), Contents(), e)
    {
      var begin := Contents();
      for i := 0 to |changes|
        invariant ApplyAll(env, begin, changes[..i]) == Ok(Contents())
      {
        var c := changes[i];
        assert changes[..i + 1][..i] == changes[..i];
        e := ChangeError(env, c);
        if e.None? {
          e := ApplyParameterChange(c);
        }
        if e.Some? {
          assert ApplyAll(env, begin, changes[..i + 1]) == Err(e.value);
          ErrorStays(env, begin, changes, i + 1);
          Restore(begin);
          return;
        }
      }
      assert changes[..|changes|] == changes;
      return None;
    }
  }

  /** One vote per voter, and the voter's address must be valid. */
  function VoteError(s: State, id: nat, voter: string, power: Option<nat>): Option<Error> {
    if (id, voter) in s.votes then Some(VoteAlreadyExists) else if power.None? then Some(InvalidVoter) else None
  }

  /** The comparisons of float64: with NaN they are false. */
  predicate Below(x: Float, bound: real) {
    match x
    case Finite(value) => value < bound
    case Infinite(negative) => negative
    case NaN => false
  }

  predicate Above(x: Float, bound: real) {
    match x
    case Finite(value) => value > bound
    case Infinite(negative) => !negative
    case NaN => false
  }

  /** A handler either moved to the specified state or reported the error and changed nothing. */
  ghost predicate Reports(r: Result<State, Error>, before: State, after: State, e: Option<Error>) {
    match r
    case Ok(s) => e == None && after == s
    case Err(err) => e == Some(err) && after == before
  }

  ghost function Part(votes: map<(nat, string), Vote>, keys: set<(nat, string)>): map<(nat, string), Vote>
    requires keys <= votes.Keys
  {
    map k | k in keys :: votes[k]
  }

  /** The sum so far and the votes still to visit make up the tally. */
  ghost predicate Pending(votes: map<(nat, string), Vote>, rest: set<(nat, string)>, id: nat, option: VoteOption,
      sum: nat)
    requires rest <= votes.Keys
  {
    sum < U64 && (sum + TotalBy(Part(votes, rest), PowerFor(id, option))) % U64 == Tallied(votes, id, option)
  }

  function Added(sum: nat, v: Vote, id: nat, option: VoteOption): nat {
    if v.proposalId == id && v.option == option then (sum + v.power) % U64 else sum
  }

  lemma NothingSummed(votes: map<(nat, string), Vote>, id: nat)
    ensures forall option :: Pending(votes, votes.Keys, id, option, 0)
  {
    assert Part(votes, votes.Keys) == votes;
  }

  lemma AllSummed(votes: map<(nat, string), Vote>, id: nat, option: VoteOption, sum: nat)
    requires Pending(votes, {}, id, option, sum)
    ensures sum == Tallied(votes, id, option)
  {
    assert Part(votes, {}) == map[];
  }

  /** Visiting one vote moves its power into the sum. */
  lemma SumOne(votes: map<(nat, string), Vote>, rest: set<(nat, string)>, k: (nat, string), id: nat,
      option: VoteOption, sum: nat)
    requires rest <= votes.Keys && k in rest
    requires Pending(votes, rest, id, option, sum)
    ensures Pending(votes, rest - {k}, id, option, Added(sum, votes[k], id, option))
  {
    TotalByPick(Part(votes, rest), PowerFor(id, option), k);
    assert Part(votes, rest) - {k} == Part(votes, rest - {k});
  }

  /** Once a change fails, so does the whole list. */
  lemma {:induction false} ErrorStays(env: Env, s: State, changes: seq<Change>, n: nat)
    requires n <= |changes|
    ensures ApplyAll(env, s, changes[..n]).Err? ==> ApplyAll(env, s, changes) == ApplyAll(env, s, changes[..n])
  {
    if n == |changes| {
      assert changes[..n] == changes;
    } else {
      ErrorStays(env, s, changes[..|changes| - 1], n);
      assert changes[..|changes| - 1][..n] == changes[..n];
    }
  }
}
