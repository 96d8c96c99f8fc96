/** What every governance run keeps: the order of statuses, one vote per proposal, the timelock, and
    the parameters no proposal can reach. */
module GovernanceRuns {
  import opened Wrappers
  import opened Decimal
  import opened Sums
  import opened GovernableParams
  import opened Governance

  // ---------- Parameter frame ----------

  ghost predicate SameField(p: ModuleParams, q: ModuleParams, k: (string, string)) {
    (k in p <==> k in q) && (k in p ==> q[k] == p[k])
  }

  /** Executing changes rewrites governance parameters and governable fields, nothing else. */
  ghost predicate OnlyGovernable(s: State, s': State) {
    && s'.nextId == s.nextId && s'.proposals == s.proposals && s'.votes == s.votes
    && forall k: (string, string) :: !IsGovernable(k.0, k.1) ==> SameField(s.params, s'.params, k)
  }

  /** At most the named field, or the governance module's own record, is rewritten. */
  ghost predicate Rewrites(s: State, r: Result<State, Error>, c: Change) {
    r.Ok? ==>
      var s' := r.value;
      && s'.nextId == s.nextId && s'.proposals == s.proposals && s'.votes == s.votes
      && forall k: (string, string) :: k != (c.mod, c.parameter) ==> SameField(s.params, s'.params, k)
  }

  lemma SetFieldRewrites(s: State, c: Change, v: Value)
    ensures Rewrites(s, SetField(s, c, v), c)
  {
  }

  lemma ModuleAppliersRewrite(env: Env, s: State, c: Change)
    ensures Rewrites(s, ApplyLizenz(env, s, c), c)
    ensures Rewrites(s, ApplyAnteil(env, s, c), c)
    ensures Rewrites(s, ApplyConsensus(env, s, c), c)
  {
    forall v: Value ensures Rewrites(s, SetField(s, c, v), c) {
      SetFieldRewrites(s, c, v);
    }
  }

  lemma GovernanceApplierRewrites(env: Env, s: State, c: Change)
    ensures Rewrites(s, ApplyGovernance(env, s, c), c)
  {
  }

  lemma ApplyChangeFrame(env: Env, s: State, c: Change)
    requires ApplyChange(env, s, c).Ok?
    ensures OnlyGovernable(s, ApplyChange(env, s, c).value)
  {
    ModuleAppliersRewrite(env, s, c);
    GovernanceApplierRewrites(env, s, c);
    assert Rewrites(s, ApplyChange(env, s, c), c);
    assert IsGovernable(c.mod, c.parameter);
  }

  lemma {:induction false} ApplyAllFrame(env: Env, s: State, changes: seq<Change>)
    requires ApplyAll(env, s, changes).Ok?
    ensures OnlyGovernable(s, ApplyAll(env, s, changes).value)
  {
    if changes != [] {
      var init := changes[..|changes| - 1];
      ApplyAllFrame(env, s, init);
      ApplyChangeFrame(env, ApplyAll(env, s, init).value, changes[|changes| - 1]);
    }
  }

  /** Parameters outside the governable table never change, on any run. */
  lemma {:induction false} UngovernedParamsFixed(env: Env, s: State, steps: seq<Step>, mod: string, parameter: string)
    requires !Listed(GOVERNABLE, mod, parameter)
    ensures SameField(s.params, Run(env, s, steps).params, (mod, parameter))
  {
    GovernableExactly(mod, parameter);
    if steps != [] {
      var s1 := Run(env, s, steps[..|steps| - 1]);
      UngovernedParamsFixed(env, s, steps[..|steps| - 1], mod, parameter);
      match steps[|steps| - 1] {
        case ExecuteStep(id, now) =>
          if Execute(env, s1, id, now).Ok? {
            ApplyAllFrame(env, s1, s1.proposals[id].changes);
            assert !IsGovernable((mod, parameter).0, (mod, parameter).1);
          }
        case _ =>
      }
    }
  }

  /** Every listed parameter has an applier: a governable change never fails as unknown. */
  lemma AppliersCoverTable(env: Env, s: State, c: Change)
    requires Listed(GOVERNABLE, c.mod, c.parameter)
    ensures ApplyChange(env, s, c) != Err(UnknownParameter)
    ensures ApplyChange(env, s, c) != Err(ConstitutionalParameter)
  {
    GovernableExactly(c.mod, c.parameter);
    var i :| 0 <= i < |GOVERNABLE| && GOVERNABLE[i].mod == c.mod && GOVERNABLE[i].parameter == c.parameter;
    var g := GOVERNABLE[i];
    ModuleOf(g);
    ModulesCover(env, s, c, g);
  }

  lemma ModuleOf(g: GovernableParameter)
    requires g in GOVERNABLE
    ensures g.mod == "lizenz" ==> g in LIZENZ_PARAMETERS
    ensures g.mod == "anteil" ==> g in ANTEIL_PARAMETERS
    ensures g.mod == "consensus" ==> g in CONSENSUS_PARAMETERS
    ensures g.mod == "governance" ==> g in GOVERNANCE_PARAMETERS
    ensures g.mod in {"lizenz", "anteil", "consensus", "governance"}
  {
    assert |"lizenz"| == 6 && |"anteil"| == 6 && |"consensus"| == 9 && |"governance"| == 10;
    assert "lizenz"[0] != "anteil"[0];
  }

  /** The parameter has an applier, even if its value is refused. */
  predicate Known(r: Result<State, Error>) {
    r != Err(UnknownParameter) && r != Err(ConstitutionalParameter)
  }

  lemma ModulesCover(env: Env, s: State, c: Change, g: GovernableParameter)
    requires g.mod == c.mod && g.parameter == c.parameter
    ensures g in LIZENZ_PARAMETERS ==> Known(ApplyLizenz(env, s, c))
    ensures g in ANTEIL_PARAMETERS ==> Known(ApplyAnteil(env, s, c))
    ensures g in CONSENSUS_PARAMETERS ==> Known(ApplyConsensus(env, s, c))
    ensures g in GOVERNANCE_PARAMETERS ==> Known(ApplyGovernance(env, s, c))
  {
  }

  // ---------- The lifecycle ----------

  ghost predicate GoodProposal(s: State, id: nat, p: Proposal) {
    && p.id == id && 1 <= id < s.nextId
    && p.status != Voting
    && (p.status == Passed || p.status == Executed ==> p.executionTime.Some?)
    && AllGovernable(p.changes)
  }

  /** A stored vote sits under its own key and has already closed its proposal. */
  ghost predicate GoodVote(s: State, k: (nat, string), v: Vote) {
    && v.proposalId == k.0 && v.voter == k.1
    && k.0 in s.proposals && s.proposals[k.0].status != Submitted
  }

  ghost predicate GoodProposals(s: State) {
    forall id :: id in s.proposals ==> GoodProposal(s, id, s.proposals[id])
  }

  ghost predicate GoodVotes(s: State) {
    forall k :: k in s.votes ==> GoodVote(s, k, s.votes[k])
  }

  ghost predicate OneVoteEach(s: State) {
    forall j, k :: j in s.votes && k in s.votes && j.0 == k.0 ==> j == k
  }

  /** The proposal's totals are the uint64 sums over the stored votes for it. */
  ghost predicate Counted(votes: map<(nat, string), Vote>, id: nat, p: Proposal) {
    && p.yes == Tallied(votes, id, Yes)
    && p.no == Tallied(votes, id, No)
    && p.abstain == Tallied(votes, id, Abstain)
    && p.total == (p.yes + p.no + p.abstain) % U64
  }

  ghost predicate TotalsMatch(s: State) {
    forall id :: id in s.proposals ==> Counted(s.votes, id, s.proposals[id])
  }

  /** What holds between messages: no proposal rests in the voting status, a proposal has at most one
      vote, which has already decided it, and its totals are those of the stored votes. */
  ghost predicate Inv(s: State) {
    && s.nextId >= 1
    && GoodProposals(s) && GoodVotes(s) && OneVoteEach(s) && TotalsMatch(s)
  }

  /** How a stored proposal may develop in one message. */
  ghost predicate Develops(p: Proposal, q: Proposal) {
    && q.id == p.id && q.changes == p.changes && q.proposer == p.proposer
    && (|| q == p
        || (p.status == Submitted && (q.status == Passed || q.status == Rejected))
        || (p.status == Passed && q == p.(status := Executed)))
  }

  ghost predicate StepDevelops(s: State, s': State) {
    forall id :: id in s.proposals ==> id in s'.proposals && Develops(s.proposals[id], s'.proposals[id])
  }

  /** With its first vote the only one stored, the tally counts exactly that vote. */
  lemma SoleVoteTally(votes: map<(nat, string), Vote>, v: Vote, option: VoteOption)
    requires v.power < U64
    requires forall k :: k in votes ==> votes[k].proposalId != v.proposalId
    requires (v.proposalId, v.voter) !in votes
    ensures Tallied(votes[(v.proposalId, v.voter) := v], v.proposalId, option)
      == if v.option == option then v.power else 0
  {
    var f := PowerFor(v.proposalId, option);
    TotalByInsert(votes, f, (v.proposalId, v.voter), v);
    TotalByZero(votes, f);
  }

  ghost predicate CountsOnly(p: Proposal, option: VoteOption, power: nat) {
    && p.yes == (if option == Yes then power else 0)
    && p.no == (if option == No then power else 0)
    && p.abstain == (if option == Abstain then power else 0)
    && p.total == (if option == Unspecified then 0 else power)
  }

  lemma FirstTally(env: Env, s: State, p: Proposal, v: Vote, now: int, supply: nat)
    requires v.power < U64 && p.id == v.proposalId
    requires forall k :: k in s.votes ==> s.votes[k].proposalId != v.proposalId
    requires (v.proposalId, v.voter) !in s.votes
    ensures CountsOnly(Tally(env, s.votes[(v.proposalId, v.voter) := v], s.gov, p, now, supply), v.option, v.power)
  {
    SoleVoteTally(s.votes, v, Yes);
    SoleVoteTally(s.votes, v, No);
    SoleVoteTally(s.votes, v, Abstain);
  }

  /** A single yes is above its own threshold, meets the quorum by itself, and is not zero. */
  ghost predicate DecidesAlone(env: Env, gov: GovParams, option: VoteOption, power: nat, supply: nat) {
    && option == Yes && power > 0
    && power >= PartOf(env, supply, Fraction(env, gov.quorum))
    && power > PartOf(env, power, Fraction(env, gov.threshold))
  }

  /** The first vote decides: its power alone is the tally, and the proposal passes exactly when it
      is a yes above the threshold of itself whose power alone meets the quorum of the whole supply. */
  lemma FirstVoteDecides(env: Env, s: State, id: nat, voter: string, option: VoteOption, now: int,
      power: nat, supply: nat)
    requires Inv(s) && power < U64
    requires CastVote(env, s, id, voter, option, now, Some(power), supply).Ok?
    ensures s.proposals[id].status == Submitted && now > s.proposals[id].votingStart
    ensures var p := CastVote(env, s, id, voter, option, now, Some(power), supply).value.proposals[id];
      && CountsOnly(p, option, power)
      && (p.status == Passed <==> DecidesAlone(env, s.gov, option, power, supply))
      && (p.status == Passed || p.status == Rejected)
      && (p.status == Passed ==> p.executionTime == Some(now + s.gov.timelockPeriod))
  {
    var v := Vote(id, voter, option, power);
    assert forall k :: k in s.votes ==> s.votes[k].proposalId != id;
    FirstTally(env, s, s.proposals[id].(status := Voting), v, now, supply);
  }

  // ---------- Submitting ----------

  lemma SubmitKeepsInv(env: Env, s: State, step: Step)
    requires Inv(s) && step.SubmitStep?
    ensures Inv(Apply(env, s, step)) && StepDevelops(s, Apply(env, s, step))
  {
    var s' := Apply(env, s, step);
    if s' != s {
      var p := s'.proposals[s.nextId];
      assert s' == WithProposal(s, p);
      AddedIsGood(s, p);
      AddedKeepsVotes(s, p);
      AddedIsCounted(s, p);
    }
  }

  /** The state with a new proposal under the next id. */
  function WithProposal(s: State, p: Proposal): State {
    s.(nextId := s.nextId + 1, proposals := s.proposals[s.nextId := p])
  }

  lemma AddedIsGood(s: State, p: Proposal)
    requires Inv(s) && p.id == s.nextId && p.status == Submitted && AllGovernable(p.changes)
    ensures GoodProposals(WithProposal(s, p)) && StepDevelops(s, WithProposal(s, p))
  {
    var s' := WithProposal(s, p);
    forall id | id in s.proposals ensures id != s.nextId && GoodProposal(s', id, s'.proposals[id]) {
      assert GoodProposal(s, id, s.proposals[id]);
    }
  }

  lemma AddedKeepsVotes(s: State, p: Proposal)
    requires Inv(s)
    ensures GoodVotes(WithProposal(s, p)) && OneVoteEach(WithProposal(s, p))
  {
    var s' := WithProposal(s, p);
    forall k | k in s'.votes ensures GoodVote(s', k, s'.votes[k]) {
      assert GoodVote(s, k, s.votes[k]);
      assert GoodProposal(s, k.0, s.proposals[k.0]);
    }
  }

  lemma AddedIsCounted(s: State, p: Proposal)
    requires Inv(s) && p.yes == 0 && p.no == 0 && p.abstain == 0 && p.total == 0
    ensures TotalsMatch(WithProposal(s, p))
  {
    forall k | k in s.votes ensures s.votes[k].proposalId != s.nextId {
      assert GoodVote(s, k, s.votes[k]);
      assert GoodProposal(s, k.0, s.proposals[k.0]);
    }
    NoVotesNoPower(s.votes, s.nextId, Yes);
    NoVotesNoPower(s.votes, s.nextId, No);
    NoVotesNoPower(s.votes, s.nextId, Abstain);
    assert Counted(s.votes, s.nextId, p);
  }

  lemma NoVotesNoPower(votes: map<(nat, string), Vote>, id: nat, option: VoteOption)
    requires forall k :: k in votes ==> votes[k].proposalId != id
    ensures Tallied(votes, id, option) == 0
  {
    TotalByZero(votes, PowerFor(id, option));
  }

  // ---------- Voting ----------

  lemma VoteKeepsInv(env: Env, s: State, step: Step)
    requires Inv(s) && step.VoteStep?
    ensures Inv(Apply(env, s, step)) && StepDevelops(s, Apply(env, s, step))
  {
    if Outcome(env, s, step).Ok? {
      var s' := Apply(env, s, step);
      FirstVoteDecides(env, s, step.id, step.voter, step.option, step.now, step.power.value, step.supply);
      CastVoteShape(env, s, step.id, step.voter, step.option, step.now, step.power.value, step.supply);
      var v := Vote(step.id, step.voter, step.option, step.power.value);
      DecidedIsGood(s, v, s'.proposals[step.id]);
      DecidedVotes(s, v, s'.proposals[step.id]);
      DecidedIsCounted(s, v, s'.proposals[step.id]);
    }
  }

  /** The state with the first vote on a proposal stored, and the decision. */
  ghost function Decided(s: State, v: Vote, p: Proposal): State {
    s.(votes := s.votes[(v.proposalId, v.voter) := v], proposals := s.proposals[v.proposalId := p])
  }

  ghost predicate Decision(s: State, v: Vote, p: Proposal) {
    && v.proposalId in s.proposals && s.proposals[v.proposalId].status == Submitted
    && (var was := s.proposals[v.proposalId];
        p.id == was.id && p.changes == was.changes && p.proposer == was.proposer)
    && (p.status == Rejected || (p.status == Passed && p.executionTime.Some?))
  }

  lemma DecidedIsGood(s: State, v: Vote, p: Proposal)
    requires Inv(s) && Decision(s, v, p)
    ensures GoodProposals(Decided(s, v, p)) && StepDevelops(s, Decided(s, v, p))
  {
    var s' := Decided(s, v, p);
    assert GoodProposal(s, v.proposalId, s.proposals[v.proposalId]);
    forall id | id in s'.proposals ensures GoodProposal(s', id, s'.proposals[id]) {
      assert GoodProposal(s, id, s.proposals[id]);
    }
  }

  lemma DecidedVotes(s: State, v: Vote, p: Proposal)
    requires Inv(s) && Decision(s, v, p)
    ensures GoodVotes(Decided(s, v, p)) && OneVoteEach(Decided(s, v, p))
  {
    NotYetVoted(s, v.proposalId);
    DecidedVotesGood(s, v, p);
  }

  lemma DecidedVotesGood(s: State, v: Vote, p: Proposal)
    requires GoodVotes(s) && Decision(s, v, p)
    ensures GoodVotes(Decided(s, v, p))
  {
    var s' := Decided(s, v, p);
    forall k | k in s'.votes ensures GoodVote(s', k, s'.votes[k]) {
      if k != (v.proposalId, v.voter) {
        assert GoodVote(s, k, s.votes[k]);
      }
    }
  }

  /** Only decided proposals have votes. */
  lemma NotYetVoted(s: State, id: nat)
    requires GoodVotes(s) && id in s.proposals && s.proposals[id].status == Submitted
    ensures forall k :: k in s.votes ==> k.0 != id && s.votes[k].proposalId != id
  {
    forall k | k in s.votes ensures k.0 != id && s.votes[k].proposalId != id {
      assert GoodVote(s, k, s.votes[k]);
    }
  }

  lemma DecidedIsCounted(s: State, v: Vote, p: Proposal)
    requires Inv(s) && Decision(s, v, p) && Counted(Decided(s, v, p).votes, v.proposalId, p)
    ensures TotalsMatch(Decided(s, v, p))
  {
    var s' := Decided(s, v, p);
    NotYetVoted(s, v.proposalId);
    forall id | id in s'.proposals ensures Counted(s'.votes, id, s'.proposals[id]) {
      if id != v.proposalId {
        assert Counted(s.votes, id, s.proposals[id]);
        VoteElsewhere(s.votes, v, id, Yes);
        VoteElsewhere(s.votes, v, id, No);
        VoteElsewhere(s.votes, v, id, Abstain);
      }
    }
  }

  lemma VoteElsewhere(votes: map<(nat, string), Vote>, v: Vote, id: nat, option: VoteOption)
    requires (v.proposalId, v.voter) !in votes && id != v.proposalId
    ensures Tallied(votes[(v.proposalId, v.voter) := v], id, option) == Tallied(votes, id, option)
  {
    TotalByInsert(votes, PowerFor(id, option), (v.proposalId, v.voter), v);
  }

  /** A stored vote adds one vote record and rewrites one proposal, whose terms stay and whose totals
      are those of the votes stored then. */
  lemma CastVoteShape(env: Env, s: State, id: nat, voter: string, option: VoteOption, now: int,
      power: nat, supply: nat)
    requires CastVote(env, s, id, voter, option, now, Some(power), supply).Ok?
    requires id in s.proposals && s.proposals[id].id == id
    ensures var s' := CastVote(env, s, id, voter, option, now, Some(power), supply).value;
      var v := Vote(id, voter, option, power);
      && (id, voter) !in s.votes && id in s'.proposals
      && s' == Decided(s, v, s'.proposals[id])
      && s'.proposals[id].id == id && s'.proposals[id].changes == s.proposals[id].changes
      && s'.proposals[id].proposer == s.proposals[id].proposer
      && Counted(s'.votes, id, s'.proposals[id])
  {
  }

  // ---------- Executing ----------

  lemma ExecuteKeepsInv(env: Env, s: State, step: Step)
    requires Inv(s) && step.ExecuteStep?
    ensures Inv(Apply(env, s, step)) && StepDevelops(s, Apply(env, s, step))
  {
    if Outcome(env, s, step).Ok? {
      var s' := Apply(env, s, step);
      ApplyAllFrame(env, s, s.proposals[step.id].changes);
      assert s'.proposals == s.proposals[step.id := s.proposals[step.id].(status := Executed)];
      ExecutedIsGood(s, s', step.id);
    }
  }

  lemma ExecutedIsGood(s: State, s': State, id: nat)
    requires Inv(s) && id in s.proposals && s.proposals[id].status == Passed
    requires s'.nextId == s.nextId && s'.votes == s.votes
    requires s'.proposals == s.proposals[id := s.proposals[id].(status := Executed)]
    ensures Inv(s') && StepDevelops(s, s')
  {
    ExecutedProposals(s, s', id);
    ExecutedVotes(s, s', id);
    ExecutedTotals(s, s', id);
  }

  lemma ExecutedTotals(s: State, s': State, id: nat)
    requires TotalsMatch(s) && id in s.proposals && s'.votes == s.votes
    requires s'.proposals == s.proposals[id := s.proposals[id].(status := Executed)]
    ensures TotalsMatch(s')
  {
    forall k | k in s'.proposals ensures Counted(s'.votes, k, s'.proposals[k]) {
      assert Counted(s.votes, k, s.proposals[k]);
    }
  }

  lemma ExecutedProposals(s: State, s': State, id: nat)
    requires GoodProposals(s) && id in s.proposals && s.proposals[id].status == Passed
    requires s'.nextId == s.nextId
    requires s'.proposals == s.proposals[id := s.proposals[id].(status := Executed)]
    ensures GoodProposals(s') && StepDevelops(s, s')
  {
    forall k | k in s'.proposals ensures GoodProposal(s', k, s'.proposals[k]) {
      assert GoodProposal(s, k, s.proposals[k]);
    }
  }

  lemma ExecutedVotes(s: State, s': State, id: nat)
    requires GoodVotes(s) && id in s.proposals
    requires s'.votes == s.votes
    requires s'.proposals == s.proposals[id := s.proposals[id].(status := Executed)]
    ensures GoodVotes(s')
  {
    forall k | k in s'.votes ensures GoodVote(s', k, s'.votes[k]) {
      assert GoodVote(s, k, s.votes[k]);
    }
  }

  lemma StepKeepsInv(env: Env, s: State, step: Step)
    requires Inv(s)
    ensures Inv(Apply(env, s, step)) && StepDevelops(s, Apply(env, s, step))
  {
    match step
    case SubmitStep(_, _, _) => SubmitKeepsInv(env, s, step);
    case VoteStep(_, _, _, _, _, _) => VoteKeepsInv(env, s, step);
    case ExecuteStep(_, _) => ExecuteKeepsInv(env, s, step);
  }

  /** Every run from genesis keeps the invariant: in particular a second vote on the same proposal
      is never stored, and every proposal's totals are the sums over the votes stored for it. */
  lemma {:induction false} RunKeepsInv(env: Env, gov: GovParams, params: ModuleParams, steps: seq<Step>)
    ensures Inv(Run(env, Genesis(gov, params), steps))
  {
    if steps != [] {
      RunKeepsInv(env, gov, params, steps[..|steps| - 1]);
      StepKeepsInv(env, Run(env, Genesis(gov, params), steps[..|steps| - 1]), steps[|steps| - 1]);
    }
  }

  /** Over any stretch of a run a stored proposal stays stored, keeps its changes, and its status
      only follows SUBMITTED to PASSED or REJECTED and PASSED to EXECUTED. */
  lemma {:induction false} RunDevelops(env: Env, gov: GovParams, params: ModuleParams, steps: seq<Step>,
      id: nat, i: nat, j: nat)
    requires i <= j <= |steps|
    requires id in At(env, Genesis(gov, params), steps, i).proposals
    ensures id in At(env, Genesis(gov, params), steps, j).proposals
    ensures var p := At(env, Genesis(gov, params), steps, i).proposals[id];
      var q := At(env, Genesis(gov, params), steps, j).proposals[id];
      && q.changes == p.changes
      && (q.status == p.status || p.status == Submitted || (p.status == Passed && q.status == Executed))
      && (p.status != Submitted ==> q == p.(status := q.status))
  {
    if i < j {
      RunDevelops(env, gov, params, steps, id, i, j - 1);
      RunKeepsInv(env, gov, params, steps[..j - 1]);
      AtStep(env, Genesis(gov, params), steps, j - 1);
      StepKeepsInv(env, At(env, Genesis(gov, params), steps, j - 1), steps[j - 1]);
    }
  }

  // ---------- Timelock and execution ----------

  /** Step j is the vote that passed the proposal. */
  ghost predicate PassedAt(env: Env, s: State, steps: seq<Step>, id: nat, j: nat)
    requires j < |steps|
  {
    && steps[j].VoteStep? && steps[j].id == id
    && id in At(env, s, steps, j).proposals && At(env, s, steps, j).proposals[id].status == Submitted
    && id in At(env, s, steps, j + 1).proposals && At(env, s, steps, j + 1).proposals[id].status == Passed
  }

  /** Step i executed the proposal. */
  ghost predicate ExecutedAt(env: Env, s: State, steps: seq<Step>, id: nat, i: nat)
    requires i < |steps|
  {
    && steps[i].ExecuteStep? && steps[i].id == id
    && Outcome(env, At(env, s, steps, i), steps[i]).Ok?
  }

  lemma {:induction false} PassedByVote(env: Env, gov: GovParams, params: ModuleParams, steps: seq<Step>,
      id: nat, i: nat) returns (j: nat)
    requires i <= |steps|
    requires id in At(env, Genesis(gov, params), steps, i).proposals
    requires At(env, Genesis(gov, params), steps, i).proposals[id].status == Passed
    ensures j < i && PassedAt(env, Genesis(gov, params), steps, id, j)
    ensures At(env, Genesis(gov, params), steps, i).proposals[id].executionTime
      == Some(steps[j].now + At(env, Genesis(gov, params), steps, j).gov.timelockPeriod)
    decreases i
  {
    NotAtGenesis(env, gov, params, steps, id, i);
    PassingStep(env, gov, params, steps, id, i - 1);
    if PassedAt(env, Genesis(gov, params), steps, id, i - 1) {
      j := i - 1;
    } else {
      j := PassedByVote(env, gov, params, steps, id, i - 1);
    }
  }

  lemma NotAtGenesis(env: Env, gov: GovParams, params: ModuleParams, steps: seq<Step>, id: nat, i: nat)
    requires i <= |steps| && id in At(env, Genesis(gov, params), steps, i).proposals
    ensures i > 0
  {
  }

  lemma PassingStep(env: Env, gov: GovParams, params: ModuleParams, steps: seq<Step>, id: nat, i: nat)
    requires i < |steps|
    requires id in At(env, Genesis(gov, params), steps, i + 1).proposals
    requires At(env, Genesis(gov, params), steps, i + 1).proposals[id].status == Passed
    ensures id in At(env, Genesis(gov, params), steps, i).proposals
    ensures var s, s' := At(env, Genesis(gov, params), steps, i), At(env, Genesis(gov, params), steps, i + 1);
      if PassedAt(env, Genesis(gov, params), steps, id, i) then
        s'.proposals[id].executionTime == Some(steps[i].now + s.gov.timelockPeriod)
      else s.proposals[id] == s'.proposals[id]
  {
    var g := Genesis(gov, params);
    AtStep(env, g, steps, i);
    RunKeepsInv(env, gov, params, steps[..i]);
    PassedOrPasses(env, At(env, g, steps, i), steps[i], id);
  }

  /** A passed proposal had passed before the message, unchanged, or the message is the vote that
      passed it. */
  lemma PassedOrPasses(env: Env, s: State, step: Step, id: nat)
    requires Inv(s)
    requires id in Apply(env, s, step).proposals && Apply(env, s, step).proposals[id].status == Passed
    ensures id in s.proposals
    ensures s.proposals[id] == Apply(env, s, step).proposals[id]
      || (&& step.VoteStep? && step.id == id && s.proposals[id].status == Submitted
          && Apply(env, s, step).proposals[id].executionTime == Some(step.now + s.gov.timelockPeriod))
  {
    if Outcome(env, s, step).Ok? {
      match step
      case SubmitStep(_, _, _) =>
      case VoteStep(k, voter, option, now, power, supply) =>
        VotePassesOne(env, s, k, voter, option, now, power.value, supply, id);
      case ExecuteStep(k, now) => ExecutionPassesNothing(env, s, k, now, id);
    }
  }

  lemma VotePassesOne(env: Env, s: State, k: nat, voter: string, option: VoteOption, now: int, power: Uint64,
      supply: nat, id: nat)
    requires Inv(s) && CastVote(env, s, k, voter, option, now, Some(power), supply).Ok?
    requires id in CastVote(env, s, k, voter, option, now, Some(power), supply).value.proposals
    requires CastVote(env, s, k, voter, option, now, Some(power), supply).value.proposals[id].status == Passed
    ensures id in s.proposals
    ensures var p := CastVote(env, s, k, voter, option, now, Some(power), supply).value.proposals[id];
      if id == k then s.proposals[id].status == Submitted && p.executionTime == Some(now + s.gov.timelockPeriod)
      else s.proposals[id] == p
  {
    FirstVoteDecides(env, s, k, voter, option, now, power, supply);
  }

  lemma ExecutionPassesNothing(env: Env, s: State, k: nat, now: int, id: nat)
    requires Execute(env, s, k, now).Ok?
    requires id in Execute(env, s, k, now).value.proposals
    requires Execute(env, s, k, now).value.proposals[id].status == Passed
    ensures id in s.proposals && s.proposals[id] == Execute(env, s, k, now).value.proposals[id]
  {
    ApplyAllFrame(env, s, s.proposals[k].changes);
  }

  /** A proposal's changes are applied only at a block time no earlier than the passing vote plus the
      timelock period in force when that vote was tallied. */
  lemma ExecutedAfterTimelock(env: Env, gov: GovParams, params: ModuleParams, steps: seq<Step>, id: nat, i: nat)
    returns (j: nat)
    requires i < |steps|
    requires ExecutedAt(env, Genesis(gov, params), steps, id, i)
    ensures j < i && PassedAt(env, Genesis(gov, params), steps, id, j)
    ensures steps[i].now >= steps[j].now + At(env, Genesis(gov, params), steps, j).gov.timelockPeriod
  {
    j := PassedByVote(env, gov, params, steps, id, i);
  }

  /** A proposal's changes are applied at most once, and only those of a proposal whose every change
      was governable when submitted. */
  lemma ExecutedAtMostOnce(env: Env, gov: GovParams, params: ModuleParams, steps: seq<Step>, id: nat, i: nat, k: nat)
    requires i < |steps| && k < |steps|
    requires ExecutedAt(env, Genesis(gov, params), steps, id, i)
    requires ExecutedAt(env, Genesis(gov, params), steps, id, k)
    ensures i == k
    ensures AllGovernable(At(env, Genesis(gov, params), steps, i).proposals[id].changes)
  {
    var g := Genesis(gov, params);
    RunKeepsInv(env, gov, params, steps[..i]);
    AtStep(env, g, steps, i);
    AtStep(env, g, steps, k);
    if i < k {
      RunDevelops(env, gov, params, steps, id, i + 1, k);
    } else if k < i {
      RunDevelops(env, gov, params, steps, id, k + 1, i);
    }
  }
}
