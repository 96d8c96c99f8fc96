/** What governance messages ask for and do, read off the state alone: which proposals are stored, which
    votes count, when a proposal passes, and what executing it changes. */
module GovernanceRules {
  import opened Wrappers
  import opened Decimal
  import opened Sums
  import opened GovernableParams
  import opened Governance
  import opened GovernanceRuns

  // ---------- Executed changes ----------

  /** The names tell the five governance fields, and the four modules, apart. */
  lemma NamesApart()
    ensures |"voting_period"| == 13 && |"timelock_period"| == 15 && |"min_deposit"| == 11
    ensures |"quorum"| == 6 && |"threshold"| == 9
    ensures |"lizenz"| == 6 && |"anteil"| == 6 && |"consensus"| == 9 && |"governance"| == 10
    ensures "lizenz" != "anteil"
  {
    assert "lizenz"[0] != "anteil"[0];
  }

  /** A parameter as stored: one of the five governance fields, or a module's field. */
  ghost function FieldOf(s: State, mod: string, parameter: string): Option<Value> {
    if mod == "governance" && parameter == "voting_period" then Some(Span(s.gov.votingPeriod))
    else if mod == "governance" && parameter == "timelock_period" then Some(Span(s.gov.timelockPeriod))
    else if mod == "governance" && parameter == "min_deposit" then Some(Text(s.gov.minDeposit))
    else if mod == "governance" && parameter == "quorum" then Some(Text(s.gov.quorum))
    else if mod == "governance" && parameter == "threshold" then Some(Text(s.gov.threshold))
    else if (mod, parameter) in s.params then Some(s.params[(mod, parameter)])
    else None
  }

  const DURATIONS: set<string> := {"inactivity_period", "deactivation_period", "voting_period", "timelock_period"}
  const NUMBERS: set<string> := {"max_open_orders", "high_activity_threshold", "low_activity_threshold"}

  /** The value a text reads as: a duration, a number, or itself. */
  ghost function ReadAs(env: Env, parameter: string, text: string): Option<Value> {
    if parameter in DURATIONS then
      (match env.parseDuration(text)
       case Some(d) => Some(Span(d))
       case None => None)
    else if parameter in NUMBERS then
      (match ParseUint(text)
       case Some(n) => Some(Number(n))
       case None => None)
    else Some(Text(text))
  }

  /** One change: its field holds what the text reads as, and every other field is as before. */
  ghost predicate TakesEffect(env: Env, s: State, s': State, c: Change) {
    && ReadAs(env, c.parameter, c.newValue).Some?
    && FieldOf(s', c.mod, c.parameter) == ReadAs(env, c.parameter, c.newValue)
    && forall mod, parameter :: !(mod == c.mod && parameter == c.parameter) ==>
         FieldOf(s', mod, parameter) == FieldOf(s, mod, parameter)
  }

  lemma ParametersApart()
    ensures |"activity_coefficient"| == 20 && |"min_lzn_amount"| == 14 && |"max_lzn_amount"| == 14
    ensures |"inactivity_period"| == 17 && |"deactivation_period"| == 19
    ensures |"min_ant_amount"| == 14 && |"max_ant_amount"| == 14 && |"trading_fee_rate"| == 16
    ensures |"max_open_orders"| == 15 && |"base_block_time"| == 15
    ensures |"high_activity_threshold"| == 23 && |"low_activity_threshold"| == 22
    ensures "max_open_orders" != "timelock_period" && "base_block_time" != "timelock_period"
    ensures "max_open_orders" != "base_block_time"
  {
    assert "max_open_orders"[0] != "timelock_period"[0] && "base_block_time"[0] != "timelock_period"[0];
    assert "max_open_orders"[0] != "base_block_time"[0];
  }

  lemma LizenzTakesEffect(env: Env, s: State, c: Change)
    requires c.mod == "lizenz" && ApplyLizenz(env, s, c).Ok?
    ensures TakesEffect(env, s, ApplyLizenz(env, s, c).value, c)
  {
    NamesApart();
    ParametersApart();
  }

  lemma AnteilTakesEffect(env: Env, s: State, c: Change)
    requires c.mod == "anteil" && ApplyAnteil(env, s, c).Ok?
    ensures TakesEffect(env, s, ApplyAnteil(env, s, c).value, c)
  {
    NamesApart();
    ParametersApart();
  }

  lemma ConsensusTakesEffect(env: Env, s: State, c: Change)
    requires c.mod == "consensus" && ApplyConsensus(env, s, c).Ok?
    ensures TakesEffect(env, s, ApplyConsensus(env, s, c).value, c)
  {
    NamesApart();
    ParametersApart();
  }

  lemma GovernanceTakesEffect(env: Env, s: State, c: Change)
    requires c.mod == "governance" && ApplyGovernance(env, s, c).Ok?
    ensures TakesEffect(env, s, ApplyGovernance(env, s, c).value, c)
  {
    NamesApart();
    ParametersApart();
    var s' := ApplyGovernance(env, s, c).value;
    GovernanceHolds(env, s, c);
    forall mod, parameter | !(mod == c.mod && parameter == c.parameter)
      ensures FieldOf(s', mod, parameter) == FieldOf(s, mod, parameter)
    {
      GovernanceOthers(env, s, c, mod, parameter);
    }
  }

  lemma GovernanceHolds(env: Env, s: State, c: Change)
    requires c.mod == "governance" && ApplyGovernance(env, s, c).Ok?
    ensures ReadAs(env, c.parameter, c.newValue).Some?
    ensures FieldOf(ApplyGovernance(env, s, c).value, c.mod, c.parameter) == ReadAs(env, c.parameter, c.newValue)
  {
    NamesApart();
    ParametersApart();
  }

  lemma GovernanceOthers(env: Env, s: State, c: Change, mod: string, parameter: string)
    requires c.mod == "governance" && ApplyGovernance(env, s, c).Ok?
    requires !(mod == c.mod && parameter == c.parameter)
    ensures FieldOf(ApplyGovernance(env, s, c).value, mod, parameter) == FieldOf(s, mod, parameter)
  {
    NamesApart();
    ParametersApart();
  }

  lemma ChangeTakesEffect(env: Env, s: State, c: Change)
    requires ApplyChange(env, s, c).Ok?
    ensures TakesEffect(env, s, ApplyChange(env, s, c).value, c)
  {
    NamesApart();
    if c.mod == "lizenz" {
      LizenzTakesEffect(env, s, c);
    } else if c.mod == "anteil" {
      AnteilTakesEffect(env, s, c);
    } else if c.mod == "consensus" {
      ConsensusTakesEffect(env, s, c);
    } else {
      GovernanceTakesEffect(env, s, c);
    }
  }

  ghost predicate Names(c: Change, mod: string, parameter: string) {
    c.mod == mod && c.parameter == parameter
  }

  /** Every field named by a change holds what the last change naming it reads as; every field no change
      names is as before. */
  ghost predicate Applied(env: Env, s: State, s': State, changes: seq<Change>) {
    && (forall i :: 0 <= i < |changes| && IsLast(changes, i) ==>
          && ReadAs(env, changes[i].parameter, changes[i].newValue).Some?
          && FieldOf(s', changes[i].mod, changes[i].parameter)
             == ReadAs(env, changes[i].parameter, changes[i].newValue))
    && forall mod, parameter :: !Named(changes, mod, parameter) ==>
         FieldOf(s', mod, parameter) == FieldOf(s, mod, parameter)
  }

  ghost predicate IsLast(changes: seq<Change>, i: nat)
    requires i < |changes|
  {
    forall j :: i < j < |changes| ==> !Names(changes[j], changes[i].mod, changes[i].parameter)
  }

  ghost predicate Named(changes: seq<Change>, mod: string, parameter: string) {
    exists i :: 0 <= i < |changes| && Names(changes[i], mod, parameter)
  }

  lemma {:induction false} ChangesApplied(env: Env, s: State, changes: seq<Change>)
    requires ApplyAll(env, s, changes).Ok?
    ensures Applied(env, s, ApplyAll(env, s, changes).value, changes)
  {
    if changes != [] {
      var init, c := changes[..|changes| - 1], changes[|changes| - 1];
      ChangesApplied(env, s, init);
      var s1 := ApplyAll(env, s, init).value;
      ChangeTakesEffect(env, s1, c);
      OneMoreApplied(env, s, s1, ApplyChange(env, s1, c).value, changes);
    }
  }

  lemma OneMoreApplied(env: Env, s: State, s1: State, s2: State, changes: seq<Change>)
    requires changes != [] && Applied(env, s, s1, changes[..|changes| - 1])
    requires TakesEffect(env, s1, s2, changes[|changes| - 1])
    ensures Applied(env, s, s2, changes)
  {
    var n := |changes| - 1;
    var init, c := changes[..n], changes[n];
    forall i | 0 <= i < |changes| && IsLast(changes, i)
      ensures ReadAs(env, changes[i].parameter, changes[i].newValue).Some?
      ensures FieldOf(s2, changes[i].mod, changes[i].parameter)
        == ReadAs(env, changes[i].parameter, changes[i].newValue)
    {
      if i < n {
        assert !Names(changes[n], changes[i].mod, changes[i].parameter);
        assert init[i] == changes[i] && IsLast(init, i);
      }
    }
    forall mod, parameter | !Named(changes, mod, parameter)
      ensures FieldOf(s2, mod, parameter) == FieldOf(s, mod, parameter)
    {
      assert !Names(changes[n], mod, parameter);
      NamedMore(changes, mod, parameter);
    }
  }

  lemma NamedMore(changes: seq<Change>, mod: string, parameter: string)
    requires changes != []
    ensures Named(changes[..|changes| - 1], mod, parameter) ==> Named(changes, mod, parameter)
  {
    var init := changes[..|changes| - 1];
    if Named(init, mod, parameter) {
      var i :| 0 <= i < |init| && Names(init[i], mod, parameter);
      assert Names(changes[i], mod, parameter);
    }
  }

  /** A successful execution applies the proposal's changes, marks it executed, and leaves every vote, every
      other proposal and every field it does not name as it was. */
  lemma ExecuteTakesEffect(env: Env, s: State, id: nat, now: int)
    requires Execute(env, s, id, now).Ok?
    ensures var s' := Execute(env, s, id, now).value;
      && id in s.proposals && Applied(env, s, s', s.proposals[id].changes)
      && s'.proposals == s.proposals[id := s.proposals[id].(status := Executed)]
      && s'.votes == s.votes && s'.nextId == s.nextId
  {
    ChangesApplied(env, s, s.proposals[id].changes);
    ApplyAllFrame(env, s, s.proposals[id].changes);
    var s1 := ApplyAll(env, s, s.proposals[id].changes).value;
    var s' := Execute(env, s, id, now).value;
    forall mod, parameter ensures FieldOf(s', mod, parameter) == FieldOf(s1, mod, parameter) {
    }
  }

  // ---------- Which changes are accepted ----------

  ghost predicate PositiveSpan(env: Env, text: string) {
    env.parseDuration(text).Some? && env.parseDuration(text).value > 0
  }

  /** A number from 0 to 1 as ParseFloat reads it; NaN passes too. */
  ghost predicate UnitText(env: Env, text: string) {
    var (x, ok) := env.parseFloat(text);
    ok && (x == NaN || exists q :: x == Finite(q) && 0.0 <= q <= 1.0)
  }

  ghost predicate LizenzChange(env: Env, c: Change) {
    && c.mod == "lizenz" && "lizenz" in env.wired
    && (|| c.parameter in {"activity_coefficient", "min_lzn_amount", "max_lzn_amount"}
        || (c.parameter in {"inactivity_period", "deactivation_period"} && PositiveSpan(env, c.newValue)))
  }

  ghost predicate AnteilChange(env: Env, c: Change) {
    && c.mod == "anteil" && "anteil" in env.wired
    && (|| c.parameter in {"min_ant_amount", "max_ant_amount", "trading_fee_rate"}
        || (c.parameter == "max_open_orders"
            && ParseUint(c.newValue).Some? && 0 < ParseUint(c.newValue).value < 0x1_0000_0000))
  }

  ghost predicate ConsensusChange(env: Env, c: Change) {
    && c.mod == "consensus" && "consensus" in env.wired
    && (|| (c.parameter == "base_block_time" && PositiveSpan(env, c.newValue))
        || (c.parameter in {"high_activity_threshold", "low_activity_threshold"} && ParseUint(c.newValue).Some?))
  }

  ghost predicate GovernanceChange(env: Env, c: Change) {
    && c.mod == "governance"
    && (|| (c.parameter in {"voting_period", "timelock_period"} && PositiveSpan(env, c.newValue))
        || (c.parameter == "min_deposit" && ParseUint(c.newValue).Some?)
        || (c.parameter in {"quorum", "threshold"} && UnitText(env, c.newValue)))
  }

  /** Everything one change needs. */
  ghost predicate Acceptable(env: Env, c: Change) {
    && c.newValue != ""
    && (LizenzChange(env, c) || AnteilChange(env, c) || ConsensusChange(env, c) || GovernanceChange(env, c))
  }

  /** The seventeen parameters a proposal may name. */
  ghost predicate MayName(mod: string, parameter: string) {
    || (mod == "lizenz" && parameter in {"activity_coefficient", "min_lzn_amount", "max_lzn_amount",
                                         "inactivity_period", "deactivation_period"})
    || (mod == "anteil" && parameter in {"min_ant_amount", "max_ant_amount", "trading_fee_rate", "max_open_orders"})
    || (mod == "consensus" && parameter in {"base_block_time", "high_activity_threshold", "low_activity_threshold"})
    || (mod == "governance" && parameter in {"voting_period", "timelock_period", "min_deposit", "quorum", "threshold"})
  }

  lemma EntryNames(g: GovernableParameter)
    requires g in GOVERNABLE
    ensures MayName(g.mod, g.parameter)
  {
  }

  lemma NamesEntry(mod: string, parameter: string) returns (g: GovernableParameter)
    requires MayName(mod, parameter)
    ensures g in GOVERNABLE && g.mod == mod && g.parameter == parameter
  {
    g :| g in LIZENZ_PARAMETERS + ANTEIL_PARAMETERS + CONSENSUS_PARAMETERS + GOVERNANCE_PARAMETERS
      && g.mod == mod && g.parameter == parameter;
  }

  /** A proposal may name exactly these parameters. */
  lemma GovernableNames(mod: string, parameter: string)
    ensures IsGovernable(mod, parameter) <==> MayName(mod, parameter)
  {
    GovernableExactly(mod, parameter);
    if Listed(GOVERNABLE, mod, parameter) {
      var i :| 0 <= i < |GOVERNABLE| && GOVERNABLE[i].mod == mod && GOVERNABLE[i].parameter == parameter;
      EntryNames(GOVERNABLE[i]);
    }
    if MayName(mod, parameter) {
      var g := NamesEntry(mod, parameter);
    }
  }

  /** The kind checked first agrees with what the applier reads. */
  lemma EntryKind(g: GovernableParameter)
    requires g in GOVERNABLE
    ensures RightKind(g)
  {
    if g in LIZENZ_PARAMETERS {
      LizenzKind(g);
    } else if g in ANTEIL_PARAMETERS {
      AnteilKind(g);
    } else if g in CONSENSUS_PARAMETERS {
      ConsensusKind(g);
    } else {
      GovernanceKind(g);
    }
  }

  ghost predicate RightKind(g: GovernableParameter) {
    && (g.kind == DurationParam <==> g.parameter in DURATIONS || g.parameter == "base_block_time")
    && (g.kind == Uint32Param || g.kind == Uint64Param <==> g.parameter in NUMBERS)
  }

  lemma LizenzKind(g: GovernableParameter)
    requires g in LIZENZ_PARAMETERS
    ensures RightKind(g)
  {
    NamesApart();
    ParametersApart();
  }

  lemma AnteilKind(g: GovernableParameter)
    requires g in ANTEIL_PARAMETERS
    ensures RightKind(g)
  {
    NamesApart();
    ParametersApart();
  }

  lemma ConsensusKind(g: GovernableParameter)
    requires g in CONSENSUS_PARAMETERS
    ensures RightKind(g)
  {
    NamesApart();
    ParametersApart();
  }

  lemma GovernanceKind(g: GovernableParameter)
    requires g in GOVERNANCE_PARAMETERS
    ensures RightKind(g)
  {
    NamesApart();
    ParametersApart();
  }

  lemma FirstCheck(env: Env, c: Change)
    requires MayName(c.mod, c.parameter)
    ensures ChangeError(env, c).None? <==>
      && c.newValue != ""
      && (c.parameter in DURATIONS || c.parameter == "base_block_time" ==> PositiveSpan(env, c.newValue))
      && (c.parameter in NUMBERS ==> ParseUint(c.newValue).Some?)
  {
    GovernableNames(c.mod, c.parameter);
    GovernableExactly(c.mod, c.parameter);
    LookupFindsListed(GOVERNABLE, c.mod, c.parameter);
    EntryKind(GetGovernableParameter(c.mod, c.parameter).value);
    NamesNotEmpty(c.mod, c.parameter);
  }

  lemma NamesNotEmpty(mod: string, parameter: string)
    requires MayName(mod, parameter)
    ensures mod != "" && parameter != ""
  {
    NamesApart();
    ParametersApart();
  }

  lemma LizenzAccepted(env: Env, s: State, c: Change)
    requires c.mod == "lizenz" && MayName(c.mod, c.parameter)
    ensures ChangeError(env, c).None? && ApplyLizenz(env, s, c).Ok? <==> c.newValue != "" && LizenzChange(env, c)
  {
    FirstCheck(env, c);
    NamesApart();
    ParametersApart();
  }

  lemma AnteilAccepted(env: Env, s: State, c: Change)
    requires c.mod == "anteil" && MayName(c.mod, c.parameter)
    ensures ChangeError(env, c).None? && ApplyAnteil(env, s, c).Ok? <==> c.newValue != "" && AnteilChange(env, c)
  {
    FirstCheck(env, c);
    NamesApart();
    ParametersApart();
  }

  lemma ConsensusAccepted(env: Env, s: State, c: Change)
    requires c.mod == "consensus" && MayName(c.mod, c.parameter)
    ensures ChangeError(env, c).None? && ApplyConsensus(env, s, c).Ok?
      <==> c.newValue != "" && ConsensusChange(env, c)
  {
    FirstCheck(env, c);
    NamesApart();
    ParametersApart();
    ParseBelow(c.newValue);
  }

  lemma ParseBelow(text: string)
    ensures ParseUint(text).Some? ==> ParseUint(text).value < U64
  {
  }

  lemma GovernanceAccepted(env: Env, s: State, c: Change)
    requires c.mod == "governance" && MayName(c.mod, c.parameter)
    ensures ChangeError(env, c).None? && ApplyGovernance(env, s, c).Ok?
      <==> c.newValue != "" && GovernanceChange(env, c)
  {
    FirstCheck(env, c);
    NamesApart();
    ParametersApart();
    UnitTextExactly(env, c.newValue);
  }

  lemma UnitTextExactly(env: Env, text: string)
    ensures UnitText(env, text) <==> IsUnitDecimal(env, text)
  {
  }

  /** A change is applied if and only if it names one of the parameters, its module's keeper is wired, and
      its text is not empty and reads as that parameter needs. */
  lemma ChangeAcceptedExactly(env: Env, s: State, c: Change)
    ensures ChangeError(env, c).None? && ApplyChange(env, s, c).Ok? <==> Acceptable(env, c)
  {
    GovernableNames(c.mod, c.parameter);
    NamesApart();
    if MayName(c.mod, c.parameter) {
      if c.mod == "lizenz" {
        LizenzAccepted(env, s, c);
      } else if c.mod == "anteil" {
        AnteilAccepted(env, s, c);
      } else if c.mod == "consensus" {
        ConsensusAccepted(env, s, c);
      } else {
        GovernanceAccepted(env, s, c);
      }
    }
  }

  lemma {:induction false} ChangesAcceptedExactly(env: Env, s: State, changes: seq<Change>)
    ensures ApplyAll(env, s, changes).Ok? <==> forall i :: 0 <= i < |changes| ==> Acceptable(env, changes[i])
  {
    if changes != [] {
      var init := changes[..|changes| - 1];
      ChangesAcceptedExactly(env, s, init);
      if ApplyAll(env, s, init).Ok? {
        ChangeAcceptedExactly(env, ApplyAll(env, s, init).value, changes[|changes| - 1]);
      }
      assert changes == init + [changes[|changes| - 1]];
    }
  }

  /** An execution succeeds if and only if the proposal is stored and passed, its execution time has come,
      and every one of its changes is acceptable. */
  lemma ExecuteSucceedsExactly(env: Env, s: State, id: nat, now: int)
    ensures Execute(env, s, id, now).Ok? <==>
      && id != 0 && id in s.proposals && s.proposals[id].status == Passed
      && s.proposals[id].executionTime.Some? && now >= s.proposals[id].executionTime.value
      && forall i :: 0 <= i < |s.proposals[id].changes| ==> Acceptable(env, s.proposals[id].changes[i])
  {
    if id in s.proposals {
      ChangesAcceptedExactly(env, s, s.proposals[id].changes);
    }
  }

  /** A refusal names a requirement that is really not met; the other errors are those of a change. */
  lemma ExecuteRefusedRightly(env: Env, s: State, id: nat, now: int)
    requires Execute(env, s, id, now).Err?
    ensures match Execute(env, s, id, now).error
      case ZeroId => id == 0
      case ProposalNotFound => id !in s.proposals
      case NotPassed => id in s.proposals && s.proposals[id].status != Passed
      case NoExecutionTime => id in s.proposals && s.proposals[id].executionTime.None?
      case NotExecutable =>
        id in s.proposals && s.proposals[id].executionTime.Some? && now < s.proposals[id].executionTime.value
      case e =>
        id in s.proposals && s.proposals[id].status == Passed
        && exists i :: 0 <= i < |s.proposals[id].changes| && !Acceptable(env, s.proposals[id].changes[i])
  {
    if ExecuteError(s, id, now).None? {
      ChangesAcceptedExactly(env, s, s.proposals[id].changes);
      ChangesRefused(env, s, s.proposals[id].changes);
    }
  }

  /** A change is never refused with an error of the proposal. */
  lemma {:induction false} ChangesRefused(env: Env, s: State, changes: seq<Change>)
    ensures ApplyAll(env, s, changes).Err? ==>
      ApplyAll(env, s, changes).error !in {ZeroId, ProposalNotFound, NotPassed, NoExecutionTime, NotExecutable}
  {
    if changes != [] {
      ChangesRefused(env, s, changes[..|changes| - 1]);
    }
  }

  // ---------- Submitting ----------

  /** A proposal is accepted if and only if proposer, title and description are not empty, the deposit
      reaches the minimum, and every change names a governable parameter. */
  lemma SubmitAcceptedExactly(s: State, m: Submission, now: int, clock: int)
    ensures Submit(s, m, now, clock).Ok? <==>
      && m.proposer != "" && m.title != "" && m.description != ""
      && ParseUint(m.deposit).Some? && ParseUint(s.gov.minDeposit).Some?
      && ParseUint(m.deposit).value >= ParseUint(s.gov.minDeposit).value
      && forall i :: 0 <= i < |m.changes| ==> MayName(m.changes[i].mod, m.changes[i].parameter)
  {
    forall i | 0 <= i < |m.changes|
      ensures IsGovernable(m.changes[i].mod, m.changes[i].parameter)
        <==> MayName(m.changes[i].mod, m.changes[i].parameter)
    {
      GovernableNames(m.changes[i].mod, m.changes[i].parameter);
    }
  }

  /** A refusal names a requirement that is really not met. */
  lemma SubmitRefusedRightly(s: State, m: Submission, now: int, clock: int)
    requires Submit(s, m, now, clock).Err?
    ensures match Submit(s, m, now, clock).error
      case EmptyProposer => m.proposer == ""
      case EmptyTitle => m.title == ""
      case EmptyDescription => m.description == ""
      case InvalidDeposit => ParseUint(m.deposit).None?
      case InvalidMinDeposit => ParseUint(s.gov.minDeposit).None?
      case InsufficientDeposit =>
        ParseUint(m.deposit).Some? && ParseUint(s.gov.minDeposit).Some?
        && ParseUint(m.deposit).value < ParseUint(s.gov.minDeposit).value
      case ConstitutionalParameter =>
        exists i :: 0 <= i < |m.changes| && !MayName(m.changes[i].mod, m.changes[i].parameter)
      case _ => false
  {
    SubmitAcceptedExactly(s, m, now, clock);
  }

  /** It is stored under the next number, submitted, without votes; voting starts an hour later and ends
      after the voting period of the day, and nothing else changes. */
  lemma SubmitRecords(s: State, m: Submission, now: int, clock: int)
    requires Submit(s, m, now, clock).Ok?
    ensures var s' := Submit(s, m, now, clock).value;
      && s'.nextId == s.nextId + 1 && s'.votes == s.votes && s'.gov == s.gov && s'.params == s.params
      && s'.proposals.Keys == s.proposals.Keys + {s.nextId}
      && (forall k :: k in s.proposals && k != s.nextId ==> s'.proposals[k] == s.proposals[k])
    ensures var p := Submit(s, m, now, clock).value.proposals[s.nextId];
      && p.id == s.nextId && p.status == Submitted && p.executionTime.None?
      && p.proposer == m.proposer && p.kind == m.kind && p.title == m.title && p.description == m.description
      && p.changes == m.changes && p.submitTime == clock
      && p.votingStart - now == 60 * 60 * 1_000_000_000 && p.votingEnd - now == s.gov.votingPeriod
      && p.votingPeriod == s.gov.votingPeriod && p.timelockPeriod == s.gov.timelockPeriod
      && p.yes == 0 && p.no == 0 && p.abstain == 0 && p.total == 0
  {
  }

  // ---------- Voting ----------

  /** A vote is accepted if and only if voter and proposal are named, the proposal is stored and voting is
      open or opens now, the voter has not voted on it, and its address has a balance. */
  lemma VoteAcceptedExactly(env: Env, s: State, id: nat, voter: string, option: VoteOption, now: int,
      power: Option<nat>, supply: nat)
    ensures CastVote(env, s, id, voter, option, now, power, supply).Ok? <==>
      && id != 0 && voter != "" && id in s.proposals && (id, voter) !in s.votes && power.Some?
      && (|| s.proposals[id].status == Voting
          || (s.proposals[id].status == Submitted && now > s.proposals[id].votingStart))
  {
  }

  /** A refusal names a requirement that is really not met. */
  lemma VoteRefusedRightly(env: Env, s: State, id: nat, voter: string, option: VoteOption, now: int,
      power: Option<nat>, supply: nat)
    requires CastVote(env, s, id, voter, option, now, power, supply).Err?
    ensures match CastVote(env, s, id, voter, option, now, power, supply).error
      case ZeroId => id == 0
      case EmptyVoter => voter == ""
      case ProposalNotFound => id !in s.proposals
      case NotInVotingPeriod =>
        id in s.proposals && s.proposals[id].status != Voting
        && (s.proposals[id].status == Submitted ==> now <= s.proposals[id].votingStart)
      case VoteAlreadyExists => (id, voter) in s.votes
      case InvalidVoter => power.None?
      case _ => false
  {
  }

  /** The power stored for one option of one proposal, in 64 bits. */
  ghost function PowerOf(votes: map<(nat, string), Vote>, id: nat, option: VoteOption): nat {
    TotalBy(votes, (v: Vote) => if v.proposalId == id && v.option == option then v.power else 0) % U64
  }

  lemma PowerIsTally(votes: map<(nat, string), Vote>, id: nat, option: VoteOption)
    ensures PowerOf(votes, id, option) == Tallied(votes, id, option)
  {
    SamePower(votes, id, option);
  }

  lemma {:induction false} SamePower(votes: map<(nat, string), Vote>, id: nat, option: VoteOption)
    ensures TotalBy(votes, (v: Vote) => if v.proposalId == id && v.option == option then v.power else 0)
      == TotalBy(votes, PowerFor(id, option))
    decreases |votes|
  {
    if k :| k in votes {
      TotalByPick(votes, (v: Vote) => if v.proposalId == id && v.option == option then v.power else 0, k);
      TotalByPick(votes, PowerFor(id, option), k);
      SamePower(votes - {k}, id, option);
    } else {
      assert votes == map[];
    }
  }

  /** A proposal passes in a tally if and only if the votes reach the quorum's part of the supply, the yes
      votes exceed the threshold's part of the votes, and exceed the no votes; parts are rounded down.
      Otherwise it is rejected. Quorum and threshold are numbers from 0 to 1. */
  lemma TallyPassesExactly(env: Env, votes: map<(nat, string), Vote>, gov: GovParams, p: Proposal, now: int,
      supply: nat, q: real, t: real)
    requires env.parseFloat(gov.quorum).0 == Finite(q) && 0.0 <= q <= 1.0 && supply < U64
    requires env.parseFloat(gov.threshold).0 == Finite(t) && 0.0 <= t <= 1.0
    ensures var yes, no, abstain := PowerOf(votes, p.id, Yes), PowerOf(votes, p.id, No), PowerOf(votes, p.id, Abstain);
      var total := (yes + no + abstain) % U64;
      var p' := Tally(env, votes, gov, p, now, supply);
      && (p'.status == Passed <==>
            total >= (supply as real * q).Floor && yes > (total as real * t).Floor && yes > no)
      && (p'.status != Passed ==> p'.status == Rejected && p'.executionTime == p.executionTime)
      && (p'.status == Passed ==> p'.executionTime == Some(now + gov.timelockPeriod))
      && p'.yes == yes && p'.no == no && p'.abstain == abstain && p'.total == total
  {
    PowerIsTally(votes, p.id, Yes);
    PowerIsTally(votes, p.id, No);
    PowerIsTally(votes, p.id, Abstain);
    PartIsFloor(env, supply, q);
    PartIsFloor(env, (Tallied(votes, p.id, Yes) + Tallied(votes, p.id, No) + Tallied(votes, p.id, Abstain)) % U64, t);
  }

  lemma PartIsFloor(env: Env, n: nat, x: real)
    requires 0.0 <= x <= 1.0 && n < U64
    ensures PartOf(env, n, Finite(x)) == (n as real * x).Floor
  {
    PartBelow(n, x);
  }

  lemma PartBelow(n: nat, x: real)
    requires 0.0 <= x <= 1.0 && n < U64
    ensures 0.0 <= n as real * x < U64 as real
  {
    assert 0.0 <= n as real * x <= n as real;
    assert n as real < U64 as real;
  }

  /** On a run the first vote closes a proposal: it passes if and only if that vote is a yes whose power is
      positive, reaches the quorum's part of the supply and exceeds the threshold's part of itself. */
  lemma FirstVotePassesExactly(env: Env, s: State, id: nat, voter: string, option: VoteOption, now: int, power: nat,
      supply: nat, q: real, t: real)
    requires Inv(s) && power < U64 && supply < U64
    requires env.parseFloat(s.gov.quorum).0 == Finite(q) && 0.0 <= q <= 1.0
    requires env.parseFloat(s.gov.threshold).0 == Finite(t) && 0.0 <= t <= 1.0
    requires CastVote(env, s, id, voter, option, now, Some(power), supply).Ok?
    ensures CastVote(env, s, id, voter, option, now, Some(power), supply).value.proposals[id].status == Passed <==>
      option == Yes && power > 0 && power >= (supply as real * q).Floor && power > (power as real * t).Floor
  {
    FirstVoteDecides(env, s, id, voter, option, now, power, supply);
    PartIsFloor(env, supply, q);
    PartIsFloor(env, power, t);
  }
}
