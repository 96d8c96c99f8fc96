/** The two tables of x/governance/types/governable_params.go: what a proposal may change and what
    the constitution forbids. */
module GovernableParams {
  import opened Wrappers

  datatype ParamType = TextParam | Uint32Param | Uint64Param | DurationParam

  datatype GovernableParameter = GovernableParameter(mod: string, parameter: string, kind: ParamType)

  const CONSTITUTIONAL: set<string> := {
    "wrt_total_supply", "wrt_halving_interval", "wrt_base_reward",
    "lzn_total_supply", "lzn_denom",
    "ident_zkp_requirement", "ident_role_choice", "lizenz_max_validator_share"
  }

  const LIZENZ_PARAMETERS: seq<GovernableParameter> := [
    GovernableParameter("lizenz", "activity_coefficient", TextParam),
    GovernableParameter("lizenz", "min_lzn_amount", TextParam),
    GovernableParameter("lizenz", "max_lzn_amount", TextParam),
    GovernableParameter("lizenz", "inactivity_period", DurationParam),
    GovernableParameter("lizenz", "deactivation_period", DurationParam)
  ]

  const ANTEIL_PARAMETERS: seq<GovernableParameter> := [
    GovernableParameter("anteil", "min_ant_amount", TextParam),
    GovernableParameter("anteil", "max_ant_amount", TextParam),
    GovernableParameter("anteil", "trading_fee_rate", TextParam),
    GovernableParameter("anteil", "max_open_orders", Uint32Param)
  ]

  const CONSENSUS_PARAMETERS: seq<GovernableParameter> := [
    GovernableParameter("consensus", "base_block_time", DurationParam),
    GovernableParameter("consensus", "high_activity_threshold", Uint64Param),
    GovernableParameter("consensus", "low_activity_threshold", Uint64Param)
  ]

  const GOVERNANCE_PARAMETERS: seq<GovernableParameter> := [
    GovernableParameter("governance", "voting_period", DurationParam),
    GovernableParameter("governance", "timelock_period", DurationParam),
    GovernableParameter("governance", "min_deposit", TextParam),
    GovernableParameter("governance", "quorum", TextParam),
    GovernableParameter("governance", "threshold", TextParam)
  ]

  const GOVERNABLE: seq<GovernableParameter> :=
    LIZENZ_PARAMETERS + ANTEIL_PARAMETERS + CONSENSUS_PARAMETERS + GOVERNANCE_PARAMETERS

  function Lookup(table: seq<GovernableParameter>, mod: string, parameter: string): Option<GovernableParameter> {
    if table == [] then None
    else if table[0].mod == mod && table[0].parameter == parameter then Some(table[0])
    else Lookup(table[1..], mod, parameter)
  }

  /** GetGovernableParameter. */
  function GetGovernableParameter(mod: string, parameter: string): Option<GovernableParameter> {
    Lookup(GOVERNABLE, mod, parameter)
  }

  predicate IsGovernable(mod: string, parameter: string) {
    mod + "_" + parameter !in CONSTITUTIONAL && GetGovernableParameter(mod, parameter).Some?
  }

  ghost predicate Listed(table: seq<GovernableParameter>, mod: string, parameter: string) {
    exists i :: 0 <= i < |table| && table[i].mod == mod && table[i].parameter == parameter
  }

  lemma {:induction false} LookupFindsListed(table: seq<GovernableParameter>, mod: string, parameter: string)
    ensures Lookup(table, mod, parameter).Some? <==> Listed(table, mod, parameter)
    ensures Lookup(table, mod, parameter).Some? ==>
      Lookup(table, mod, parameter).value in table
      && Lookup(table, mod, parameter).value.mod == mod && Lookup(table, mod, parameter).value.parameter == parameter
  {
    if table != [] {
      LookupFindsListed(table[1..], mod, parameter);
      assert table == [table[0]] + table[1..];
      if Listed(table, mod, parameter) && !(table[0].mod == mod && table[0].parameter == parameter) {
        var i :| 0 <= i < |table| && table[i].mod == mod && table[i].parameter == parameter;
        assert table[1..][i - 1] == table[i];
      }
    }
  }

  lemma ConstitutionalShape(key: string)
    requires key in CONSTITUTIONAL
    ensures |key| >= 9
    ensures key[0] == 'w' || key[0] == 'i' || (key[0] == 'l' && key[1] == 'z') || (|key| == 26 && key[7] == 'm')
  {
  }

  lemma GovernableShape(g: GovernableParameter)
    requires g in GOVERNABLE
    ensures |g.mod| >= 6 && |g.parameter| >= 6
    ensures g.mod[0] != 'w' && g.mod[0] != 'i' && g.mod[1] != 'z'
    ensures |g.mod| + 1 + |g.parameter| == 26 ==>
      (|g.mod| == 6 && g.parameter[0] == 'd') || (|g.mod| == 9 && g.mod[7] == 'u') || (|g.mod| == 10 && g.mod[7] == 'n')
  {
  }

  /** The key of every governable entry differs from every constitutional key. */
  lemma TablesDisjoint(g: GovernableParameter)
    requires g in GOVERNABLE
    ensures g.mod + "_" + g.parameter !in CONSTITUTIONAL
  {
    var key := g.mod + "_" + g.parameter;
    GovernableShape(g);
    assert key[0] == g.mod[0] && key[1] == g.mod[1];
    assert |key| == |g.mod| + 1 + |g.parameter|;
    assert |key| == 26 && |g.mod| == 6 ==> key[7] == g.parameter[0];
    assert |key| == 26 && |g.mod| > 7 ==> key[7] == g.mod[7];
    if key in CONSTITUTIONAL {
      ConstitutionalShape(key);
    }
  }

  /** A parameter is governable exactly when the table lists it: the constitutional check never
      overrules an entry. */
  lemma GovernableExactly(mod: string, parameter: string)
    ensures IsGovernable(mod, parameter) <==> Listed(GOVERNABLE, mod, parameter)
  {
    LookupFindsListed(GOVERNABLE, mod, parameter);
    if Listed(GOVERNABLE, mod, parameter) {
      TablesDisjoint(GetGovernableParameter(mod, parameter).value);
    }
  }
}
