/** The proposal lifecycle of x/governance/keeper as a state machine: submit, vote with an immediate
    tally, execute after the timelock. Message handlers are atomic: an error rolls everything back. */
module Governance {
  import opened Wrappers
  import opened Decimal
  import opened Sums
  import opened GovernableParams

  datatype Status = Submitted | Voting | Passed | Executed | Rejected

  datatype VoteOption = Unspecified | Yes | No | Abstain

  datatype Change = Change(mod: string, parameter: string, newValue: string)

  datatype Proposal = Proposal(
    id: nat,
    proposer: string,
    kind: int,
    title: string,
    description: string,
    status: Status,
    submitTime: int,
    votingStart: int,
    votingPeriod: int,
    votingEnd: int,
    timelockPeriod: int,
    executionTime: Option<int>,
    changes: seq<Change>,
    yes: nat,
    no: nat,
    abstain: nat,
    total: nat)

  /** MsgSubmitProposal; `kind` is the proposal type. */
  datatype Submission = Submission(
    proposer: string,
    kind: int,
    title: string,
    description: string,
    deposit: string,
    changes: seq<Change>)

  datatype Vote = Vote(proposalId: nat, voter: string, option: VoteOption, power: nat)

  /** The parameters of the governance module itself. */
  datatype GovParams = GovParams(
    votingPeriod: int,
    timelockPeriod: int,
    minDeposit: string,
    quorum: string,
    threshold: string)

  datatype Value = Text(text: string) | Span(span: int) | Number(number: nat)

  /** The other modules' parameters, by module and field name. */
  type ModuleParams = map<(string, string), Value>

  datatype State = State(
    nextId: nat,
    proposals: map<nat, Proposal>,
    votes: map<(nat, string), Vote>,
    gov: GovParams,
    params: ModuleParams)

  /** A float64, without its rounding. */
  datatype Float = Finite(value: real) | Infinite(negative: bool) | NaN

  /** Foreign text parsers, the platform's conversion of a float64 that is no uint64, and the modules
      whose keepers are wired. ParseFloat yields a value next to its error. */
  datatype Env = Env(
    parseDuration: string -> Option<int>,
    parseFloat: string -> (Float, bool),
    outOfRange: Float -> nat,
    wired: set<string>)

  datatype Error =
    | EmptyProposer
    | EmptyTitle
    | EmptyDescription
    | EmptyVoter
    | InvalidDeposit
    | InvalidMinDeposit
    | InsufficientDeposit
    | ConstitutionalParameter
    | ZeroId
    | ProposalNotFound
    | NotInVotingPeriod
    | VoteAlreadyExists
    | InvalidVoter
    | NotPassed
    | NoExecutionTime
    | NotExecutable
    | EmptyValue
    | InvalidValue
    | KeeperNotSet
    | ParamStorePanic
    | UnknownParameter

  const HOUR: int := 3_600_000_000_000

  // ---------- Submit ----------

  predicate AllGovernable(changes: seq<Change>) {
    forall i :: 0 <= i < |changes| ==> IsGovernable(changes[i].mod, changes[i].parameter)
  }

  /** Voting starts in an hour; period, end and timelock are copied from the parameters. The time of
      submission is the node's own clock. */
  function NewProposal(s: State, m: Submission, now: int, clock: int): Proposal {
    Proposal(s.nextId, m.proposer, m.kind, m.title, m.description, Submitted, clock, now + HOUR, s.gov.votingPeriod,
             now + s.gov.votingPeriod, s.gov.timelockPeriod, None, m.changes, 0, 0, 0, 0)
  }

  function SubmissionError(m: Submission): Option<Error> {
    if m.proposer == "" then Some(EmptyProposer)
    else if m.title == "" then Some(EmptyTitle)
    else if m.description == "" then Some(EmptyDescription)
    else None
  }

  function Submit(s: State, m: Submission, now: int, clock: int): Result<State, Error> {
    if SubmissionError(m).Some? then Err(SubmissionError(m).value)
    else if ParseUint(m.deposit).None? then Err(InvalidDeposit)
    else if ParseUint(s.gov.minDeposit).None? then Err(InvalidMinDeposit)
    else if ParseUint(m.deposit).value < ParseUint(s.gov.minDeposit).value then Err(InsufficientDeposit)
    else if !AllGovernable(m.changes) then Err(ConstitutionalParameter)
    else
      var p := NewProposal(s, m, now, clock);
      Ok(s.(nextId := s.nextId + 1, proposals := s.proposals[s.nextId := p]))
  }

  // ---------- Vote and tally ----------

  /** The voting power a stored vote gives to one option of one proposal. */
  ghost function PowerFor(id: nat, option: VoteOption): Vote -> int {
    (v: Vote) => if v.proposalId == id && v.option == option then v.power else 0
  }

  /** The uint64 sum over all stored votes of the proposal. */
  ghost function Tallied(votes: map<(nat, string), Vote>, id: nat, option: VoteOption): nat {
    TotalBy(votes, PowerFor(id, option)) % U64
  }

  /** The error of ParseFloat is ignored. */
  function Fraction(env: Env, text: string): Float {
    env.parseFloat(text).0
  }

  function Times(n: nat, fraction: Float): Float {
    match fraction
    case Finite(x) => Finite(n as real * x)
    case Infinite(negative) => if n == 0 then NaN else fraction
    case NaN => NaN
  }

  /** uint64(float64(n) * fraction): rounded down where the product is in range. */
  function PartOf(env: Env, n: nat, fraction: Float): nat {
    var product := Times(n, fraction);
    if product.Finite? && 0.0 <= product.value < U64 as real then product.value.Floor else env.outOfRange(product)
  }

  /** isProposalPassed: quorum of the supply, more yes than the threshold of all votes, more yes than no. */
  predicate IsPassed(env: Env, gov: GovParams, yes: nat, no: nat, total: nat, supply: nat) {
    && total >= PartOf(env, supply, Fraction(env, gov.quorum))
    && yes > PartOf(env, total, Fraction(env, gov.threshold))
    && yes > no
  }

  /** TallyVotes: the totals, and the decision; a passed proposal gets its execution time. */
  ghost function Tally(env: Env, votes: map<(nat, string), Vote>, gov: GovParams, p: Proposal, now: int,
      supply: nat): Proposal {
    Decide(env, gov, p, Tallied(votes, p.id, Yes), Tallied(votes, p.id, No), Tallied(votes, p.id, Abstain), now, supply)
  }

  function Decide(env: Env, gov: GovParams, p: Proposal, yes: nat, no: nat, abstain: nat, now: int, supply: nat)
    : Proposal
  {
    var total := (yes + no + abstain) % U64;
    var counted := p.(yes := yes, no := no, abstain := abstain, total := total);
    if IsPassed(env, gov, yes, no, total, supply) then
      counted.(status := Passed, executionTime := Some(now + gov.timelockPeriod))
    else counted.(status := Rejected)
  }

  /** Voting is open, or opens with this message once the start time has passed. */
  predicate VotingOpen(p: Proposal, now: int) {
    p.status == Voting || (p.status == Submitted && now > p.votingStart)
  }

  /** Vote: `power` is the voter's WRT balance, absent for an invalid address. The tally runs at once. */
  ghost function CastVote(env: Env, s: State, id: nat, voter: string, option: VoteOption, now: int,
      power: Option<nat>, supply: nat): Result<State, Error> {
    if id == 0 then Err(ZeroId)
    else if voter == "" then Err(EmptyVoter)
    else if id !in s.proposals then Err(ProposalNotFound)
    else if !VotingOpen(s.proposals[id], now) then Err(NotInVotingPeriod)
    else if (id, voter) in s.votes then Err(VoteAlreadyExists)
    else if power.None? then Err(InvalidVoter)
    else
      var votes := s.votes[(id, voter) := Vote(id, voter, option, power.value)];
      var p := Tally(env, votes, s.gov, s.proposals[id].(status := Voting), now, supply);
      Ok(s.(votes := votes, proposals := s.proposals[id := p]))
  }

  // ---------- Parameter changes ----------

  /** ValidateParameterChange. */
  function ChangeError(env: Env, c: Change): Option<Error> {
    if !IsGovernable(c.mod, c.parameter) then Some(ConstitutionalParameter)
    else if c.mod == "" || c.parameter == "" || c.newValue == "" then Some(EmptyValue)
    else match GetGovernableParameter(c.mod, c.parameter)
      case None => None
      case Some(g) =>
        match g.kind
        case TextParam => None
        case Uint32Param => if ParseUint(c.newValue).None? then Some(InvalidValue) else None
        case Uint64Param => if ParseUint(c.newValue).None? then Some(InvalidValue) else None
        case DurationParam =>
          match env.parseDuration(c.newValue)
          case None => Some(InvalidValue)
          case Some(d) => if d <= 0 then Some(InvalidValue) else None
  }

  function SetField(s: State, c: Change, v: Value): Result<State, Error> {
    Ok(s.(params := s.params[(c.mod, c.parameter) := v]))
  }

  function SetSpan(env: Env, s: State, c: Change): Result<State, Error> {
    match env.parseDuration(c.newValue)
    case None => Err(InvalidValue)
    case Some(d) => SetField(s, c, Span(d))
  }

  function SetNumber(s: State, c: Change, bound: nat): Result<State, Error> {
    match ParseUint(c.newValue)
    case None => Err(InvalidValue)
    case Some(n) => if n >= bound then Err(InvalidValue) else SetField(s, c, Number(n))
  }

  function ApplyLizenz(env: Env, s: State, c: Change): Result<State, Error> {
    if "lizenz" !in env.wired then Err(KeeperNotSet)
    else if c.parameter == "activity_coefficient" || c.parameter == "min_lzn_amount" || c.parameter == "max_lzn_amount"
      then SetField(s, c, Text(c.newValue))
    else if c.parameter == "inactivity_period" || c.parameter == "deactivation_period" then SetSpan(env, s, c)
    else Err(UnknownParameter)
  }

  /** The anteil parameter store panics on a zero max_open_orders, which undoes the message. */
  function ApplyAnteil(env: Env, s: State, c: Change): Result<State, Error> {
    if "anteil" !in env.wired then Err(KeeperNotSet)
    else if c.parameter == "min_ant_amount" || c.parameter == "max_ant_amount" || c.parameter == "trading_fee_rate"
      then SetField(s, c, Text(c.newValue))
    else if c.parameter == "max_open_orders" then
      (if ParseUint(c.newValue) == Some(0) then Err(ParamStorePanic) else SetNumber(s, c, 0x1_0000_0000))
    else Err(UnknownParameter)
  }

  function ApplyConsensus(env: Env, s: State, c: Change): Result<State, Error> {
    if "consensus" !in env.wired then Err(KeeperNotSet)
    else if c.parameter == "base_block_time" then
      (match env.parseDuration(c.newValue)
       case None => Err(InvalidValue)
       case Some(_) => SetField(s, c, Text(c.newValue)))
    else if c.parameter == "high_activity_threshold" || c.parameter == "low_activity_threshold" then
      SetNumber(s, c, U64)
    else Err(UnknownParameter)
  }

  function PositiveDuration(env: Env, text: string): Option<int> {
    match env.parseDuration(text)
    case None => None
    case Some(d) => if d <= 0 then None else Some(d)
  }

  /** Not below zero and not above one, which NaN is neither. */
  predicate IsUnitDecimal(env: Env, text: string) {
    var (x, ok) := env.parseFloat(text);
    ok && (x.NaN? || (x.Finite? && 0.0 <= x.value <= 1.0))
  }

  function ApplyGovernance(env: Env, s: State, c: Change): Result<State, Error> {
    if c.parameter == "voting_period" then
      (match PositiveDuration(env, c.newValue)
       case None => Err(InvalidValue)
       case Some(d) => Ok(s.(gov := s.gov.(votingPeriod := d))))
    else if c.parameter == "timelock_period" then
      (match PositiveDuration(env, c.newValue)
       case None => Err(InvalidValue)
       case Some(d) => Ok(s.(gov := s.gov.(timelockPeriod := d))))
    else if c.parameter == "min_deposit" then
      (if ParseUint(c.newValue).None? then Err(InvalidValue)
       else Ok(s.(gov := s.gov.(minDeposit := c.newValue))))
    else if c.parameter == "quorum" then
      (if !IsUnitDecimal(env, c.newValue) then Err(InvalidValue) else Ok(s.(gov := s.gov.(quorum := c.newValue))))
    else if c.parameter == "threshold" then
      (if !IsUnitDecimal(env, c.newValue) then Err(InvalidValue) else Ok(s.(gov := s.gov.(threshold := c.newValue))))
    else Err(UnknownParameter)
  }

  /** ApplyParameterChange. */
  function ApplyChange(env: Env, s: State, c: Change): Result<State, Error> {
    if !IsGovernable(c.mod, c.parameter) then Err(ConstitutionalParameter)
    else if c.mod == "lizenz" then ApplyLizenz(env, s, c)
    else if c.mod == "anteil" then ApplyAnteil(env, s, c)
    else if c.mod == "consensus" then ApplyConsensus(env, s, c)
    else if c.mod == "governance" then ApplyGovernance(env, s, c)
    else Err(UnknownParameter)
  }

  /** The loop of ExecuteProposal: validate and apply each change in turn. */
  function ApplyAll(env: Env, s: State, changes: seq<Change>): Result<State, Error> {
    if changes == [] then Ok(s)
    else match ApplyAll(env, s, changes[..|changes| - 1])
      case Err(e) => Err(e)
      case Ok(s1) =>
        var c := changes[|changes| - 1];
        if ChangeError(env, c).Some? then Err(ChangeError(env, c).value) else ApplyChange(env, s1, c)
  }

  // ---------- Execute ----------

  /** CanExecuteProposal. */
  function ExecuteError(s: State, id: nat, now: int): Option<Error> {
    if id == 0 then Some(ZeroId)
    else if id !in s.proposals then Some(ProposalNotFound)
    else if s.proposals[id].status != Passed then Some(NotPassed)
    else match s.proposals[id].executionTime
      case None => Some(NoExecutionTime)
      case Some(t) => if now < t then Some(NotExecutable) else None
  }

  function Execute(env: Env, s: State, id: nat, now: int): Result<State, Error> {
    if ExecuteError(s, id, now).Some? then Err(ExecuteError(s, id, now).value)
    else match ApplyAll(env, s, s.proposals[id].changes)
      case Err(e) => Err(e)
      case Ok(s1) => Ok(s1.(proposals := s.proposals[id := s.proposals[id].(status := Executed)]))
  }

  // ---------- Runs ----------

  /** A balance as the bank module reports it. */
  type Uint64 = n: nat | n < U64

  datatype Step =
    | SubmitStep(submission: Submission, now: int, clock: int)
    | VoteStep(id: nat, voter: string, option: VoteOption, now: int, power: Option<Uint64>, supply: nat)
    | ExecuteStep(id: nat, now: int)

  ghost function Outcome(env: Env, s: State, step: Step): Result<State, Error> {
    match step
    case SubmitStep(m, now, clock) => Submit(s, m, now, clock)
    case VoteStep(id, voter, option, now, power, supply) => CastVote(env, s, id, voter, option, now, power, supply)
    case ExecuteStep(id, now) => Execute(env, s, id, now)
  }

  ghost function Apply(env: Env, s: State, step: Step): State {
    match Outcome(env, s, step)
    case Ok(s') => s'
    case Err(_) => s
  }

  ghost function Genesis(gov: GovParams, params: ModuleParams): State {
    State(1, map[], map[], gov, params)
  }

  ghost function Run(env: Env, s: State, steps: seq<Step>): State {
    if steps == [] then s else Apply(env, Run(env, s, steps[..|steps| - 1]), steps[|steps| - 1])
  }

  /** The state before step i. */
  ghost function At(env: Env, s: State, steps: seq<Step>, i: nat): State
    requires i <= |steps|
  {
    Run(env, s, steps[..i])
  }

  lemma AtStep(env: Env, s: State, steps: seq<Step>, i: nat)
    requires i < |steps|
    ensures At(env, s, steps, i + 1) == Apply(env, At(env, s, steps, i), steps[i])
  {
    assert steps[..i + 1][..i] == steps[..i];
  }
}
