/** ANT accrual of x/anteil/keeper/keeper.go: once per period every active citizen and validator
    receives the reward rate, up to the accumulation limit. */
module Accrual {
  import opened Arithmetic
  import opened Wrappers
  import opened Decimal

  datatype Role = Guest | Citizen | Validator

  datatype Account = Account(role: Role, isActive: bool)

  /** Parameters as stored: the two amounts are text. */
  datatype Params = Params(rate: string, limit: string, period: int)

  datatype State = State(balances: map<string, string>, last: Option<int>)

  predicate Eligible(a: Account) {
    a.role != Guest && a.isActive
  }

  /** A missing position counts as zero, and so does a balance that is not a 64-bit number. */
  function Held(balances: map<string, string>, v: string): nat {
    if v in balances then AmountOf(balances[v]) else 0
  }

  /** One reward in uint64, capped. */
  function Rewarded(held: nat, rate: nat, limit: nat): nat {
    var sum := (held + rate) % U64;
    if sum > limit then limit else sum
  }

  predicate Receives(balances: map<string, string>, accounts: map<string, Account>, v: string, limit: nat) {
    v in accounts && Eligible(accounts[v]) && Held(balances, v) < limit
  }

  /** The balances after one distribution with readable parameters. */
  function Distributed(balances: map<string, string>, accounts: map<string, Account>, rate: nat, limit: nat)
    : map<string, string>
  {
    map v | v in balances.Keys + accounts.Keys && (v in balances || Receives(balances, accounts, v, limit)) ::
      if Receives(balances, accounts, v, limit) then FormatUint(Rewarded(Held(balances, v), rate, limit))
      else balances[v]
  }

  ghost predicate SameAt(a: map<string, string>, b: map<string, string>, v: string) {
    (v in a <==> v in b) && (v in a ==> a[v] == b[v])
  }

  lemma DistributedAt(balances: map<string, string>, accounts: map<string, Account>, rate: nat, limit: nat,
      v: string)
    ensures SameAt(Distributed(balances, accounts, rate, limit),
      if Receives(balances, accounts, v, limit)
      then balances[v := FormatUint(Rewarded(Held(balances, v), rate, limit))]
      else balances, v)
  {
  }

  /** The addresses in `done` have what they will have, the others what they had. */
  ghost predicate Partly(now: map<string, string>, was: map<string, string>, target: map<string, string>,
      done: set<string>)
  {
    forall v :: SameAt(now, if v in done then target else was, v)
  }

  lemma PartlyStep(now: map<string, string>, next: map<string, string>, was: map<string, string>,
      target: map<string, string>, done: set<string>, v: string)
    requires Partly(now, was, target, done) && SameAt(next, target, v)
    requires next == now || (v in next && next == now[v := next[v]])
    ensures Partly(next, was, target, done + {v})
  {
    forall u ensures SameAt(next, if u in done + {v} then target else was, u) {
      assert SameAt(now, if u in done then target else was, u);
    }
  }

  lemma AllDistributed(now: map<string, string>, was: map<string, string>, accounts: map<string, Account>,
      rate: nat, limit: nat)
    requires Partly(now, was, Distributed(was, accounts, rate, limit), accounts.Keys)
    ensures now == Distributed(was, accounts, rate, limit)
  {
    var target := Distributed(was, accounts, rate, limit);
    forall v ensures SameAt(now, target, v) {
      assert SameAt(now, if v in accounts.Keys then target else was, v);
      DistributedAt(was, accounts, rate, limit, v);
    }
    assert forall v :: SameAt(now, target, v) ==> (v in now <==> v in target);
  }

  /** The time gate of BeginBlocker. */
  predicate Due(last: Option<int>, now: int, period: int) {
    last.None? || now - last.value >= period
  }

  predicate Readable(p: Params) {
    ParseUint(p.rate).Some? && ParseUint(p.limit).Some?
  }

  /** BeginBlocker. Unreadable parameters make the distribution fail and leave the clock alone. */
  function BeginBlock(p: Params, s: State, accounts: map<string, Account>, now: int): State {
    if Due(s.last, now, p.period) && Readable(p) then
      State(Distributed(s.balances, accounts, ParseUint(p.rate).value, ParseUint(p.limit).value), Some(now))
    else s
  }

  class Keeper {
    const params: Params
    var balances: map<string, string>
    var last: Option<int>

    constructor (params: Params)
      ensures this.params == params && Contents() == State(map[], None)
    {
      this.params := params;
      balances, last := map[], None;
    }

    ghost function Contents(): State
      reads this
    {
      State(balances, last)
    }

    method DistributeAntToCitizens(accounts: map<string, Account>) returns (ok: bool)
      modifies this`balances
      ensures ok == Readable(params)
      ensures balances == if ok
        then Distributed(old(balances), accounts, ParseUint(params.rate).value, ParseUint(params.limit).value)
        else old(balances)
    {
      var rate := ParseUint(params.rate);
      if rate.None? {
        return false;
      }
      var limit := ParseUint(params.limit);
      if limit.None? {
        return false;
      }
      ghost var target := Distributed(balances, accounts, rate.value, limit.value);
      var rest := accounts.Keys;
      while rest != {}
        invariant rest <= accounts.Keys
        invariant Partly(balances, old(balances), target, accounts.Keys - rest)
        decreases rest
      {
        var v :| v in rest;
        ghost var before, done := balances, accounts.Keys - rest;
        rest := rest - {v};
        assert accounts.Keys - rest == done + {v};
        assert SameAt(before, old(balances), v);
        DistributedAt(old(balances), accounts, rate.value, limit.value, v);
        if Eligible(accounts[v]) {
          var held := if v in balances then AmountOf(balances[v]) else 0;
          if held < limit.value {
            var sum := (held + rate.value) % U64;
            if sum > limit.value {
              sum := limit.value;
            }
            balances := balances[v := FormatUint(sum)];
          }
        }
        PartlyStep(before, balances, old(balances), target, done, v);
      }
      assert accounts.Keys - rest == accounts.Keys;
      AllDistributed(balances, old(balances), accounts, rate.value, limit.value);
      return true;
    }

    method BeginBlocker(accounts: map<string, Account>, now: int)
      modifies this
      ensures Contents() == BeginBlock(params, old(Contents()), accounts, now)
    {
      if last.None? || now - last.value >= params.period {
        var ok := DistributeAntToCitizens(accounts);
        if ok {
          last := Some(now);
        }
      }
    }
  }

  // ---------- One reward ----------

  /** Below the limit a reward adds the rate up to the limit if and only if the 64-bit sum does not
      wrap. */
  lemma RewardExactly(held: nat, rate: nat, limit: nat)
    requires held < limit < U64 && rate < U64
    ensures Rewarded(held, rate, limit) == Min(limit, held + rate) <==> held + rate < U64
  {
  }

  // ---------- Runs ----------

  /** One block: what else changed in the position store before it, the accounts, and its time. */
  datatype Block = Block(others: map<string, string>, accounts: map<string, Account>, now: int)

  function Run(p: Params, s: State, blocks: seq<Block>): State {
    if blocks == [] then s
    else
      var s1 := Run(p, s, blocks[..|blocks| - 1]);
      var b := blocks[|blocks| - 1];
      BeginBlock(p, s1.(balances := s1.balances + b.others), b.accounts, b.now)
  }

  /** How many of the blocks distributed. */
  function Count(p: Params, s: State, blocks: seq<Block>): nat {
    if blocks == [] then 0
    else
      var s1 := Run(p, s, blocks[..|blocks| - 1]);
      Count(p, s, blocks[..|blocks| - 1])
        + (if Due(s1.last, blocks[|blocks| - 1].now, p.period) && Readable(p) then 1 else 0)
  }

  /** An active citizen or validator. */
  ghost predicate Entitled(accounts: map<string, Account>, v: string) {
    v in accounts && accounts[v].isActive && (accounts[v].role == Citizen || accounts[v].role == Validator)
  }

  /** An active citizen or validator in every block, whose position nobody else writes. */
  ghost predicate Continuously(v: string, blocks: seq<Block>) {
    forall i :: 0 <= i < |blocks| ==>
      Entitled(blocks[i].accounts, v) && v !in blocks[i].others
  }

  function Accrued(start: nat, n: nat, rate: nat, limit: nat): nat {
    if start >= limit then start else Min(limit, start + n * rate)
  }

  lemma AccruedStep(start: nat, n: nat, rate: nat, limit: nat)
    requires limit + rate <= U64
    ensures var held := Accrued(start, n, rate, limit);
      Accrued(start, n + 1, rate, limit) == if held < limit then Rewarded(held, rate, limit) else held
    ensures start < U64 ==> Accrued(start, n, rate, limit) < U64
  {
    assert (n + 1) * rate == n * rate + rate;
  }

  /** After n distributions a continuously eligible citizen who started with b0 holds
      min(limit, b0 + n * rate), or still b0 when that was above the limit. */
  lemma {:induction false} AccrualClosedForm(p: Params, s: State, blocks: seq<Block>, v: string)
    requires Readable(p)
    requires ParseUint(p.limit).value + ParseUint(p.rate).value <= U64
    requires Continuously(v, blocks)
    ensures Held(Run(p, s, blocks).balances, v)
      == Accrued(Held(s.balances, v), Count(p, s, blocks), ParseUint(p.rate).value, ParseUint(p.limit).value)
  {
    var rate, limit := ParseUint(p.rate).value, ParseUint(p.limit).value;
    if blocks == [] {
      assert 0 * rate == 0;
    } else {
      var init := blocks[..|blocks| - 1];
      var b := blocks[|blocks| - 1];
      AccrualClosedForm(p, s, init, v);
      OneBlock(p, Run(p, s, init), b, v);
      AccruedStep(Held(s.balances, v), Count(p, s, init), rate, limit);
    }
  }

  lemma OneBlock(p: Params, s: State, b: Block, v: string)
    requires Readable(p)
    requires Entitled(b.accounts, v) && v !in b.others
    ensures var rate, limit := ParseUint(p.rate).value, ParseUint(p.limit).value;
      Held(BeginBlock(p, s.(balances := s.balances + b.others), b.accounts, b.now).balances, v)
      == if Due(s.last, b.now, p.period) && Held(s.balances, v) < limit then Rewarded(Held(s.balances, v), rate, limit)
         else Held(s.balances, v)
  {
    var rate, limit := ParseUint(p.rate).value, ParseUint(p.limit).value;
    var merged := s.balances + b.others;
    assert Held(merged, v) == Held(s.balances, v);
    if Due(s.last, b.now, p.period) && Held(merged, v) < limit {
      assert Receives(merged, b.accounts, v, limit);
      ParseFormat(Rewarded(Held(merged, v), rate, limit));
    }
  }

  /** Every run gives every continuously eligible citizen min(limit, b0 + n * rate), or b0 above the
      limit. */
  ghost predicate ClosedFormHolds(p: Params)
    requires Readable(p)
  {
    forall s: State, blocks: seq<Block>, v: string :: Continuously(v, blocks) ==>
      Held(Run(p, s, blocks).balances, v)
      == Accrued(Held(s.balances, v), Count(p, s, blocks), ParseUint(p.rate).value, ParseUint(p.limit).value)
  }

  /** The closed form holds on all runs if and only if limit and rate together are at most 2^64:
      otherwise a balance just below the limit wraps at its next reward. */
  lemma ClosedFormExactly(p: Params)
    requires Readable(p)
    ensures ClosedFormHolds(p) <==> ParseUint(p.limit).value + ParseUint(p.rate).value <= U64
  {
    if ParseUint(p.limit).value + ParseUint(p.rate).value <= U64 {
      forall s: State, blocks: seq<Block>, v: string | Continuously(v, blocks)
        ensures Held(Run(p, s, blocks).balances, v)
          == Accrued(Held(s.balances, v), Count(p, s, blocks), ParseUint(p.rate).value, ParseUint(p.limit).value)
      {
        AccrualClosedForm(p, s, blocks, v);
      }
    } else {
      WrappedReward(p);
    }
  }

  lemma WrappedReward(p: Params)
    requires Readable(p) && ParseUint(p.limit).value + ParseUint(p.rate).value > U64
    ensures !ClosedFormHolds(p)
  {
    var rate, limit := ParseUint(p.rate).value, ParseUint(p.limit).value;
    var s := State(map["v" := FormatUint(limit - 1)], None);
    var b := Block(map[], map["v" := Account(Citizen, true)], 0);
    ParseFormat(limit - 1);
    OneBlock(p, s, b, "v");
    assert s.balances + b.others == s.balances;
    OnlyBlock(p, s, b);
    AccruedOnce(limit, rate);
    assert Held(Run(p, s, [b]).balances, "v") == limit - 1 + rate - U64;
    assert Continuously("v", [b]);
  }

  lemma OnlyBlock(p: Params, s: State, b: Block)
    requires Readable(p) && s.last.None? && b.others == map[]
    ensures Run(p, s, [b]) == BeginBlock(p, s, b.accounts, b.now) && Count(p, s, [b]) == 1
  {
    assert [b][..0] == [];
    assert s.balances + b.others == s.balances;
  }

  lemma AccruedOnce(limit: nat, rate: nat)
    requires limit >= 1 && rate >= 1
    ensures Accrued(limit - 1, 1, rate, limit) == limit
  {
    assert 1 * rate == rate;
  }

  ghost predicate NoEarlierThan(blocks: seq<Block>, t: int) {
    forall i :: 0 <= i < |blocks| ==> t <= blocks[i].now
  }

  ghost predicate BlocksOrdered(blocks: seq<Block>) {
    forall i, j :: 0 <= i < j < |blocks| ==> blocks[i].now <= blocks[j].now
  }

  lemma OnePeriodMore(n: nat, period: int, last: Option<int>, now: int, t0: int)
    requires n > 0 ==> last.Some? && (n - 1) * period <= last.value - t0 && now - last.value >= period
    requires now >= t0
    ensures n * period <= now - t0
  {
    if n > 0 {
      assert (n - 1) * period + period == n * period;
    }
  }

  /** Distributions keep at least one period between them. */
  lemma {:induction false} Spacing(p: Params, s: State, blocks: seq<Block>, t0: int)
    requires p.period > 0 && s.last.None?
    requires BlocksOrdered(blocks) && NoEarlierThan(blocks, t0)
    ensures var n := Count(p, s, blocks);
      var last := Run(p, s, blocks).last;
      && (n == 0 <==> last.None?)
      && (n > 0 ==> (n - 1) * p.period <= last.value - t0)
      && (n > 0 ==> blocks != [] && last.value <= blocks[|blocks| - 1].now)
  {
    if blocks != [] {
      var init := blocks[..|blocks| - 1];
      Spacing(p, s, init, t0);
      var n := Count(p, s, init);
      var s1 := Run(p, s, init);
      var b := blocks[|blocks| - 1];
      if Due(s1.last, b.now, p.period) && Readable(p) {
        OnePeriodMore(n, p.period, s1.last, b.now, t0);
      } else if n > 0 {
        assert init[|init| - 1].now <= b.now;
      }
    }
  }

  /** By time t at most (t - t0) / period + 1 distributions have happened, t0 being the time of the
      first block. */
  lemma DistributionsBounded(p: Params, s: State, blocks: seq<Block>)
    requires p.period > 0 && s.last.None?
    requires blocks != [] && BlocksOrdered(blocks)
    ensures var t0, t := blocks[0].now, blocks[|blocks| - 1].now;
      t >= t0 && Count(p, s, blocks) <= (t - t0) / p.period + 1
  {
    var t0, t := blocks[0].now, blocks[|blocks| - 1].now;
    Spacing(p, s, blocks, t0);
    var n := Count(p, s, blocks);
    if n > 0 {
      QuotientAtLeast(t - t0, p.period, n - 1);
    } else {
      QuotientAtLeast(t - t0, p.period, 0);
    }
  }

  // ---------- Who receives, and when ----------

  /** One distribution: an active citizen or validator below the limit receives the rate, up to the limit;
      the stored position of a guest, of an inactive account, of an address without account and of anyone
      at or above the limit stays as it is, or absent. */
  lemma DistributionExactly(balances: map<string, string>, accounts: map<string, Account>, rate: nat, limit: nat,
      v: string)
    requires rate < U64 && limit < U64
    ensures var held := if v in balances && ParseUint(balances[v]).Some? then ParseUint(balances[v]).value else 0;
      var after := Distributed(balances, accounts, rate, limit);
      if Entitled(accounts, v) && held < limit then
        v in after && ParseUint(after[v]) == Some(Min(limit, (held + rate) % U64))
      else (v in after <==> v in balances) && (v in balances ==> after[v] == balances[v])
  {
    var held := Held(balances, v);
    if Entitled(accounts, v) && held < limit {
      assert Receives(balances, accounts, v, limit);
      ParseFormat(Rewarded(held, rate, limit));
    }
  }

  /** Over a run: whoever is never an active citizen or validator, and whose position nobody else writes,
      ends with the position it began with. */
  lemma {:induction false} OthersUntouched(p: Params, s: State, blocks: seq<Block>, v: string)
    requires forall i :: 0 <= i < |blocks| ==> !Entitled(blocks[i].accounts, v) && v !in blocks[i].others
    ensures var after := Run(p, s, blocks).balances;
      (v in after <==> v in s.balances) && (v in s.balances ==> after[v] == s.balances[v])
  {
    if blocks != [] {
      var init, b := blocks[..|blocks| - 1], blocks[|blocks| - 1];
      OthersUntouched(p, s, init, v);
      var s1 := Run(p, s, init);
      if Readable(p) {
        DistributionExactly(s1.balances + b.others, b.accounts, ParseUint(p.rate).value, ParseUint(p.limit).value, v);
      }
    }
  }

  /** A block distributes if and only if nothing was distributed before or a whole period has passed since,
      and the parameters read as numbers; then the block's time is remembered, otherwise nothing moves. */
  lemma BlockDistributesExactly(p: Params, s: State, accounts: map<string, Account>, now: int)
    ensures var s' := BeginBlock(p, s, accounts, now);
      if (s.last.None? || now >= s.last.value + p.period) && ParseUint(p.rate).Some? && ParseUint(p.limit).Some? then
        s'.last == Some(now)
        && s'.balances == Distributed(s.balances, accounts, ParseUint(p.rate).value, ParseUint(p.limit).value)
      else s' == s
  {
  }

  /** With readable parameters no distribution is ever overdue: after every block the last one is less than
      a period old. */
  lemma NeverOverdue(p: Params, s: State, blocks: seq<Block>)
    requires Readable(p) && p.period > 0 && blocks != []
    ensures var last := Run(p, s, blocks).last;
      last.Some? && blocks[|blocks| - 1].now < last.value + p.period
  {
  }

  // ---------- Balances written by trades ----------

  /** The last k decimal digits of n, with leading zeros. */
  function Padded(n: nat, k: nat): string {
    if k == 0 then "" else Padded(n / 10, k - 1) + [DigitChar(n % 10)]
  }

  /** `%.6f` of a number of millionths. A trade writes its quantity into the buyer's position and the
      negated quantity into the seller's. */
  function FixedText(negative: bool, millionths: nat): string {
    (if negative then "-" else "") + FormatUint(millionths / 1_000_000) + "." + Padded(millionths % 1_000_000, 6)
  }

  lemma FixedTextUnreadable(negative: bool, millionths: nat)
    ensures ParseUint(FixedText(negative, millionths)).None?
  {
    var head := (if negative then "-" else "") + FormatUint(millionths / 1_000_000);
    assert FixedText(negative, millionths)[|head|] == '.';
  }

  /** A balance a trade wrote is not a 64-bit number: the next distribution replaces it by one reward,
      whatever was bought or sold. */
  lemma DecimalBalanceRestarts(balances: map<string, string>, accounts: map<string, Account>, v: string,
      negative: bool, millionths: nat, rate: nat, limit: nat)
    requires v in balances && balances[v] == FixedText(negative, millionths)
    requires Entitled(accounts, v) && 0 < limit < U64 && rate < U64
    ensures Held(Distributed(balances, accounts, rate, limit), v) == Min(limit, rate)
  {
    FixedTextUnreadable(negative, millionths);
    assert Receives(balances, accounts, v, limit);
    ParseFormat(Rewarded(0, rate, limit));
  }
}
