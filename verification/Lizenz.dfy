/** Activated LZN licences of x/lizenz/keeper/keeper.go and the 33% rule, which is checked when a
    licence is set or updated and skipped for the first activation. Amounts are int64. */
module Lizenz {
  import opened Wrappers
  import opened Sums

  const MAX_INT64: int := 0x7fff_ffff_ffff_ffff
  const TWO64: int := 0x1_0000_0000_0000_0000

  /** Go's int64 arithmetic wraps around. */
  function Wrap(n: int): int {
    (n + MAX_INT64 + 1) % TWO64 - MAX_INT64 - 1
  }

  /** A licence; `note` stands for the fields the rule does not look at. */
  datatype Licence = Licence(amount: int, note: string)

  type Int64 = n: int | -MAX_INT64 - 1 <= n <= MAX_INT64

  /** The two limits, read from parameters that governance writes as unchecked text: ParseInt is all
      that is asked of them, so either may be negative. */
  datatype Limits = Limits(min: Int64, max: Int64)

  datatype Error =
    | NotVerified
    | NotValidator
    | AlreadyExists
    | NotFound
    | BelowMin
    | AboveMax
    | ExceedsShare

  type Store = map<string, Licence>

  function AmountIn(l: Licence): int {
    l.amount
  }

  /** The sum of all amounts, before int64 wraps it. */
  ghost function Total(s: Store): int {
    TotalBy(s, AmountIn)
  }

  /** GetTotalActivatedLizenz. */
  ghost function Activated(s: Store): int {
    Wrap(Total(s))
  }

  function Current(s: Store, v: string): int {
    if v in s then s[v].amount else 0
  }

  /** int64(float64(total) * 0.33), with 0.33 as 33/100 and truncation towards zero. */
  function MaxAllowed(total: int): int {
    if total >= 0 then total * 33 / 100 else -(-total * 33 / 100)
  }

  /** ValidateMaxLznActivationLimit on an activated total. */
  predicate ShareOk(activated: int, current: int, amount: int) {
    || (activated == 0 && current == 0)
    || (current > 0 && activated == current)
    || amount <= MaxAllowed(Wrap(activated - current + amount))
  }

  ghost function SetError(lim: Limits, s: Store, v: string, l: Licence): Option<Error> {
    if v in s then Some(AlreadyExists)
    else if l.amount < lim.min then Some(BelowMin)
    else if l.amount > lim.max then Some(AboveMax)
    else if !ShareOk(Activated(s), Current(s, v), l.amount) then Some(ExceedsShare)
    else None
  }

  /** SetActivatedLizenz. */
  ghost function Set(lim: Limits, s: Store, v: string, l: Licence): (Store, Option<Error>) {
    if SetError(lim, s, v, l).Some? then (s, SetError(lim, s, v, l)) else (s[v := l], None)
  }

  /** What the identity module says of the validator, if it is wired. */
  datatype Standing = NotWired | Unknown | Known(isActive: bool, isValidator: bool)

  /** validateIdentityAndRole. */
  function StandingError(st: Standing): Option<Error> {
    match st
    case NotWired => None
    case Unknown => Some(NotVerified)
    case Known(isActive, isValidator) =>
      if !isActive then Some(NotVerified) else if !isValidator then Some(NotValidator) else None
  }

  /** The identity check comes first. */
  ghost function CheckedSet(lim: Limits, s: Store, v: string, l: Licence, st: Standing): (Store, Option<Error>) {
    if StandingError(st).Some? then (s, StandingError(st)) else Set(lim, s, v, l)
  }

  ghost function UpdateError(s: Store, v: string, l: Licence): Option<Error> {
    if v !in s then Some(NotFound)
    else if !ShareOk(Activated(s), Current(s, v), l.amount) then Some(ExceedsShare)
    else None
  }

  /** UpdateActivatedLizenz: the amount limits are not checked again, the share is. */
  ghost function Update(s: Store, v: string, l: Licence): (Store, Option<Error>) {
    if UpdateError(s, v, l).Some? then (s, UpdateError(s, v, l)) else (s[v := l], None)
  }

  /** DeleteActivatedLizenz. */
  function Delete(s: Store, v: string): (Store, Option<Error>) {
    if v !in s then (s, Some(NotFound)) else (s - {v}, None)
  }

  /** The tokens of an activated licence enter the module account if the bank locks them. A negative
      amount is not an amount of coins: ParseUint refuses it and nothing moves. */
  function Locked(escrow: int, amount: int, locks: bool): int {
    if locks && amount >= 0 then escrow + amount else escrow
  }

  /** The tokens of a deleted licence leave it if the bank sends them, which it cannot when the account
      holds less. Activation and deletion go on either way. */
  function Unlocked(escrow: int, amount: int, sends: bool): int {
    if sends && amount >= 0 && escrow >= amount then escrow - amount else escrow
  }

  class Keeper {
    var limits: Limits
    var licences: Store
    var escrow: int

    constructor (limits: Limits)
      ensures this.limits == limits && licences == map[] && escrow == 0
    {
      this.limits := limits;
      licences, escrow := map[], 0;
    }

    method GetTotalActivatedLizenz() returns (total: int)
      ensures total == Activated(licences)
    {
      total := 0;
      var rest := licences.Keys;
      assert licences == map v | v in rest :: licences[v];
      while rest != {}
        invariant rest <= licences.Keys
        invariant Wrap(total) == total
        invariant Wrap(total + TotalBy(map v | v in rest :: licences[v], AmountIn)) == Activated(licences)
        decreases rest
      {
        var v :| v in rest;
        ghost var now := map u | u in rest :: licences[u];
        TotalByPick(now, AmountIn, v);
        assert now - {v} == map u | u in rest - {v} :: licences[u];
        WrapStep(total, licences[v].amount, TotalBy(now - {v}, AmountIn));
        total := Wrap(total + licences[v].amount);
        rest := rest - {v};
      }
    }

    method ValidateMaxLznActivationLimit(v: string, amount: int) returns (ok: bool)
      ensures ok == ShareOk(Activated(licences), Current(licences, v), amount)
    {
      var total := GetTotalActivatedLizenz();
      var current := 0;
      if v in licences {
        current := licences[v].amount;
      }
      var newTotal := Wrap(total - current + amount);
      if total == 0 && current == 0 {
        return true;
      }
      if current > 0 && total == current {
        return true;
      }
      return amount <= MaxAllowed(newTotal);
    }

    method SetActivatedLizenz(v: string, l: Licence, st: Standing, locks: bool) returns (e: Option<Error>)
      modifies this`licences, this`escrow
      ensures (licences, e) == CheckedSet(limits, old(licences), v, l, st)
      ensures escrow == if e.None? then Locked(old(escrow), l.amount, locks) else old(escrow)
    {
      e := StandingError(st);
      if e.Some? {
        return;
      }
      if v in licences {
        return Some(AlreadyExists);
      }
      if l.amount < limits.min {
        return Some(BelowMin);
      }
      if l.amount > limits.max {
        return Some(AboveMax);
      }
      var ok := ValidateMaxLznActivationLimit(v, l.amount);
      if !ok {
        return Some(ExceedsShare);
      }
      if locks && l.amount >= 0 {
        escrow := escrow + l.amount;
      }
      licences := licences[v := l];
      return None;
    }

    method UpdateActivatedLizenz(v: string, l: Licence) returns (e: Option<Error>)
      modifies this`licences
      ensures (licences, e) == Update(old(licences), v, l)
    {
      if v !in licences {
        return Some(NotFound);
      }
      var ok := ValidateMaxLznActivationLimit(v, l.amount);
      if !ok {
        return Some(ExceedsShare);
      }
      licences := licences[v := l];
      return None;
    }

    method DeleteActivatedLizenz(v: string, sends: bool) returns (e: Option<Error>)
      modifies this`licences, this`escrow
      ensures (licences, e) == Delete(old(licences), v)
      ensures escrow == if e.None? then Unlocked(old(escrow), old(licences)[v].amount, sends) else old(escrow)
    {
      if v !in licences {
        return Some(NotFound);
      }
      var amount := licences[v].amount;
      if sends && amount >= 0 && escrow >= amount {
        escrow := escrow - amount;
      }
      licences := licences - {v};
      return None;
    }
  }

  lemma WrapStep(a: int, b: int, c: int)
    ensures Wrap(Wrap(a + b) + c) == Wrap(a + (b + c))
    ensures Wrap(Wrap(a + b)) == Wrap(a + b)
  {
  }

  // ---------- Dilution ----------

  ghost predicate Fits(s: Store) {
    Total(s) <= MAX_INT64 && forall v :: v in s ==> s[v].amount >= 0
  }

  lemma FitsUnwrapped(s: Store)
    requires Fits(s)
    ensures Activated(s) == Total(s) && 0 <= Total(s)
  {
    TotalByNonNegative(s, AmountIn);
  }

  /** At most 33/100 of the activated total. */
  ghost predicate WithinShare(s: Store, v: string) {
    v in s ==> s[v].amount * 100 <= Total(s) * 33
  }

  /** The wrapped total turns negative as soon as it leaves int64, and then the share check refuses:
      no activation ever overflows. */
  lemma ActivationFits(lim: Limits, s: Store, v: string, l: Licence)
    requires lim.min >= 0 && Fits(s)
    requires SetError(lim, s, v, l).None?
    ensures v !in s && Fits(s[v := l])
  {
    FitsUnwrapped(s);
    TotalByInsert(s, AmountIn, v, l);
    assert Total(s[v := l]) == Total(s) + l.amount;
  }

  /** A licence activated while others are active starts within its share. */
  lemma ActivationWithinShare(lim: Limits, s: Store, v: string, l: Licence)
    requires lim.min >= 0 && Fits(s)
    requires SetError(lim, s, v, l).None? && Total(s) != 0
    ensures WithinShare(s[v := l], v)
  {
    ActivationFits(lim, s, v, l);
    FitsUnwrapped(s);
    FitsUnwrapped(s[v := l]);
    TotalByInsert(s, AmountIn, v, l);
    var t := Total(s) + l.amount;
    assert l.amount <= t * 33 / 100;
  }

  /** What a validator would hold after v is gone, measured against what would be left. */
  ghost predicate FitsWithout(s: Store, v: string, u: string)
    requires v in s
  {
    u in s && u != v ==> s[u].amount * 100 <= (Total(s) - s[v].amount) * 33
  }

  /** After a deletion a validator is within its share exactly when it fits what is left. */
  lemma DeletionKeepsExactly(s: Store, v: string, u: string)
    requires v in s
    ensures WithinShare(Delete(s, v).0, u) <==> FitsWithout(s, v, u)
  {
    TotalByPick(s, AmountIn, v);
  }

  lemma DeletionFits(s: Store, v: string)
    requires Fits(s) && v in s
    ensures Fits(Delete(s, v).0)
  {
    TotalByPick(s, AmountIn, v);
  }

  datatype Step =
    | Activate(lim: Limits, v: string, licence: Licence, locks: bool)
    | Touch(v: string, note: string)
    | Remove(v: string, sends: bool)

  /** Governance may change the limits between activations; k bounds every minimum it sets. */
  ghost predicate LimitsFrom(steps: seq<Step>, k: int) {
    forall i :: 0 <= i < |steps| && steps[i].Activate? ==> steps[i].lim.min >= k
  }

  /** Updates keep the amount: every caller writes back the licence it loaded, with other fields
      changed. */
  ghost function Apply(s: Store, step: Step): Store {
    match step
    case Activate(lim, v, l, _) => Set(lim, s, v, l).0
    case Touch(v, note) => if v in s then Update(s, v, s[v].(note := note)).0 else s
    case Remove(v, _) => Delete(s, v).0
  }

  ghost function Run(steps: seq<Step>): Store {
    if steps == [] then map[] else Apply(Run(steps[..|steps| - 1]), steps[|steps| - 1])
  }

  /** The licences still active that were activated while the activated total was zero. */
  ghost function Founders(steps: seq<Step>): set<string> {
    if steps == [] then {}
    else
      var before := steps[..|steps| - 1];
      var s := Run(before);
      match steps[|steps| - 1]
      case Activate(lim, v, l, _) =>
        if SetError(lim, s, v, l).None? && Total(s) == 0 then Founders(before) + {v} else Founders(before)
      case Touch(v, note) => Founders(before)
      case Remove(v, _) => Founders(before) - {v}
  }

  /** Unless a minimum is negative every run stays within int64, so the wrapped total the checks use is the true one. */
  lemma {:induction false} RunFits(steps: seq<Step>)
    requires LimitsFrom(steps, 0)
    ensures Fits(Run(steps)) && Activated(Run(steps)) == Total(Run(steps))
  {
    if steps != [] {
      var s := Run(steps[..|steps| - 1]);
      RunFits(steps[..|steps| - 1]);
      match steps[|steps| - 1] {
        case Activate(lim, v, l, _) =>
          if SetError(lim, s, v, l).None? {
            ActivationFits(lim, s, v, l);
          }
        case Touch(v, note) =>
          if v in s {
            TouchKeepsAmounts(s, v, note);
          }
        case Remove(v, _) =>
          if v in s {
            DeletionFits(s, v);
          }
      }
    }
    FitsUnwrapped(Run(steps));
  }

  /** Keeping the minimum at k or above keeps every run within int64 and free of negative licences if and
      only if k is not negative. Governance writes the minimum without looking at it. */
  lemma FitsExactly(k: int)
    ensures (forall steps :: LimitsFrom(steps, k) ==> Fits(Run(steps))) <==> k >= 0
  {
    if k >= 0 {
      forall steps | LimitsFrom(steps, k) ensures Fits(Run(steps)) {
        RunFits(steps);
      }
    } else {
      var steps := [Activate(Limits(-1, 1), "v", Licence(-1, ""), true)];
      assert steps[..0] == [];
      assert Run(steps) == map["v" := Licence(-1, "")];
      assert LimitsFrom(steps, k) && Run(steps)["v"].amount < 0;
    }
  }

  lemma TouchKeepsAmounts(s: Store, v: string, note: string)
    requires v in s
    ensures var s' := Update(s, v, s[v].(note := note)).0;
      && s'.Keys == s.Keys && Total(s') == Total(s)
      && forall u :: u in s ==> s'[u].amount == s[u].amount
  {
    if UpdateError(s, v, s[v].(note := note)).None? {
      TotalByUpdate(s, AmountIn, v, s[v].(note := note));
    }
  }

  lemma ActivateKeepsShares(lim: Limits, s: Store, v: string, l: Licence, u: string)
    requires lim.min >= 0 && Fits(s)
    requires SetError(lim, s, v, l).None?
    requires WithinShare(s, u)
    requires v != u || Total(s) != 0
    ensures WithinShare(s[v := l], u)
  {
    if v == u {
      ActivationWithinShare(lim, s, v, l);
    } else {
      TotalByInsert(s, AmountIn, v, l);
    }
  }

  /** The condition of one step on one validator: a deletion must leave enough behind. */
  ghost predicate KeptWithin(steps: seq<Step>, u: string)
    requires steps != []
  {
    var s := Run(steps[..|steps| - 1]);
    steps[|steps| - 1].Remove? && steps[|steps| - 1].v in s ==> FitsWithout(s, steps[|steps| - 1].v, u)
  }

  /** Every deletion leaves everybody but the founders within the share of what is left. */
  ghost predicate CarefulRemovals(steps: seq<Step>) {
    steps != [] ==>
      && CarefulRemovals(steps[..|steps| - 1])
      && forall u :: u !in Founders(steps) ==> KeptWithin(steps, u)
  }

  ghost predicate NonFoundersWithin(steps: seq<Step>) {
    forall u: string :: u !in Founders(steps) ==> WithinShare(Run(steps), u)
  }

  /** In every state of the run everybody but the founders is within the share. */
  ghost predicate DilutedThroughout(steps: seq<Step>) {
    && (steps != [] ==> DilutedThroughout(steps[..|steps| - 1]))
    && NonFoundersWithin(steps)
  }

  /** The 33% rule holds for everybody but the founders, in every state of a run, if and only if no
      deletion leaves too little behind. */
  lemma {:induction false} DilutedExactly(steps: seq<Step>)
    requires LimitsFrom(steps, 0)
    ensures DilutedThroughout(steps) <==> CarefulRemovals(steps)
  {
    if steps != [] {
      var before := steps[..|steps| - 1];
      DilutedExactly(before);
      if CarefulRemovals(before) {
        forall u | u !in Founders(steps)
          ensures WithinShare(Run(steps), u) <==> KeptWithin(steps, u)
        {
          StepKeepsShare(steps, u);
        }
      }
    }
  }

  lemma StepKeepsShare(steps: seq<Step>, u: string)
    requires LimitsFrom(steps, 0) && steps != []
    requires NonFoundersWithin(steps[..|steps| - 1])
    requires u !in Founders(steps)
    ensures WithinShare(Run(steps), u) <==> KeptWithin(steps, u)
  {
    var before := steps[..|steps| - 1];
    var s := Run(before);
    RunFits(before);
    match steps[|steps| - 1] {
      case Activate(lim, v, l, _) =>
        if SetError(lim, s, v, l).None? {
          ActivateKeepsShares(lim, s, v, l, u);
        }
      case Touch(v, note) =>
        if v in s {
          TouchKeepsAmounts(s, v, note);
        }
      case Remove(v, _) =>
        if v in s {
          DeletionKeepsExactly(s, v, u);
        }
    }
  }

  ghost predicate NoRemovals(steps: seq<Step>) {
    forall i :: 0 <= i < |steps| ==> !steps[i].Remove?
  }

  /** On every run without deletion, in every state everybody except the founder holds at most
      33/100 of the activated total. */
  lemma NonFoundersDiluted(steps: seq<Step>, u: string)
    requires LimitsFrom(steps, 0) && NoRemovals(steps)
    requires u !in Founders(steps)
    ensures WithinShare(Run(steps), u)
  {
    NoRemovalsAreCareful(steps);
    DilutedExactly(steps);
  }

  /** Keeping every minimum at k or above keeps all non-founders within the share on all runs without
      deletion if and only if k is not negative: one negative licence shrinks the total under those
      that were just within it. */
  lemma DilutionHoldsExactly(k: int)
    ensures (forall steps :: LimitsFrom(steps, k) && NoRemovals(steps) ==> DilutedThroughout(steps)) <==> k >= 0
  {
    if k >= 0 {
      forall steps | LimitsFrom(steps, k) && NoRemovals(steps) ensures DilutedThroughout(steps) {
        NoRemovalsAreCareful(steps);
        DilutedExactly(steps);
      }
    } else {
      var steps := NegativeShrinks();
      assert LimitsFrom(steps, k);
    }
  }

  lemma NegativeShrinks() returns (steps: seq<Step>)
    ensures LimitsFrom(steps, -1) && NoRemovals(steps) && !DilutedThroughout(steps)
  {
    var a, b, c := Licence(67, ""), Licence(33, ""), Licence(-1, "");
    var lim, low := Limits(0, 100), Limits(-1, 100);
    var two := [Activate(lim, "a", a, true), Activate(lim, "b", b, true)];
    steps := two + [Activate(low, "c", c, true)];
    SecondActive(lim, "a", a, "b", b);
    PairTotal("a", a, "b", b);
    assert steps[..2] == two;
    NegativeAccepted(low, map["a" := a, "b" := b], "c", c);
    assert "b" !in Founders(steps) && !WithinShare(Run(steps), "b");
  }

  lemma PairTotal(v: string, l: Licence, w: string, k: Licence)
    requires v != w
    ensures Total(map[v := l, w := k]) == l.amount + k.amount
  {
    TotalByPick(map[v := l, w := k], AmountIn, w);
    assert map[v := l, w := k] - {w} == map[v := l];
    TotalByPick(map[v := l], AmountIn, v);
    assert map[v := l] - {v} == map[];
  }

  /** A negative licence that leaves the total at zero or above is always accepted. */
  lemma NegativeAccepted(lim: Limits, s: Store, v: string, l: Licence)
    requires v !in s && lim.min <= l.amount <= lim.max
    requires l.amount < 0 <= Total(s) + l.amount && Total(s) <= MAX_INT64
    ensures Set(lim, s, v, l).0 == s[v := l]
    ensures Total(s[v := l]) == Total(s) + l.amount
  {
    TotalByInsert(s, AmountIn, v, l);
    assert Activated(s) == Total(s) && Wrap(Total(s) + l.amount) == Total(s) + l.amount;
  }

  lemma {:induction false} NoRemovalsAreCareful(steps: seq<Step>)
    requires NoRemovals(steps)
    ensures CarefulRemovals(steps)
  {
    if steps != [] {
      NoRemovalsAreCareful(steps[..|steps| - 1]);
    }
  }

  ghost predicate AllPositive(s: Store) {
    forall v :: v in s ==> s[v].amount > 0
  }

  lemma {:induction false} AmountsPositive(steps: seq<Step>)
    requires LimitsFrom(steps, 1)
    ensures AllPositive(Run(steps))
    ensures Run(steps) == map[] <==> Total(Run(steps)) == 0
  {
    if steps != [] {
      var s := Run(steps[..|steps| - 1]);
      AmountsPositive(steps[..|steps| - 1]);
      match steps[|steps| - 1] {
        case Touch(v, note) =>
          if v in s {
            TouchKeepsAmounts(s, v, note);
          }
        case _ =>
      }
    }
    PositiveTotal(Run(steps));
  }

  lemma PositiveTotal(s: Store)
    requires AllPositive(s)
    ensures s == map[] <==> Total(s) == 0
  {
    if v :| v in s {
      TotalByAtLeast(s, AmountIn, v);
    }
  }

  /** There is at most one founder at any time, and exactly one while nobody has left. */
  lemma {:induction false} OneFounder(steps: seq<Step>)
    requires LimitsFrom(steps, 1)
    ensures |Founders(steps)| <= 1 && Founders(steps) <= Run(steps).Keys
    ensures NoRemovals(steps) ==> (Run(steps) == map[] <==> Founders(steps) == {})
  {
    if steps != [] {
      OneFounder(steps[..|steps| - 1]);
      AmountsPositive(steps[..|steps| - 1]);
      match steps[|steps| - 1] {
        case Activate(lim, v, l, _) => FounderEnters(steps, v, l);
        case Touch(v, note) => FounderStays(steps, v, note);
        case Remove(v, _) => FounderLeaves(Founders(steps[..|steps| - 1]), v);
      }
    }
  }

  /** Keeping every minimum at k or above leaves at most one founder on all runs if and only if k is
      positive: with a minimum of zero two empty licences both find the total at zero. */
  lemma OneFounderExactly(k: int)
    ensures (forall steps :: LimitsFrom(steps, k) ==> |Founders(steps)| <= 1) <==> k >= 1
  {
    if k >= 1 {
      forall steps | LimitsFrom(steps, k) ensures |Founders(steps)| <= 1 {
        OneFounder(steps);
      }
    } else {
      var zero, lim := Licence(0, ""), Limits(0, 0);
      var steps := [Activate(lim, "a", zero, true), Activate(lim, "b", zero, true)];
      FirstActive(lim, "a", zero);
      assert steps[..1] == [Activate(lim, "a", zero, true)];
      assert Founders(steps) == {"a"} + {"b"};
      assert LimitsFrom(steps, k) && |Founders(steps)| == 2;
    }
  }

  lemma FounderEnters(steps: seq<Step>, v: string, l: Licence)
    requires steps != [] && steps[|steps| - 1].Activate? && steps[|steps| - 1].v == v && steps[|steps| - 1].licence == l
    requires var before := steps[..|steps| - 1];
      && |Founders(before)| <= 1 && Founders(before) <= Run(before).Keys
      && (Total(Run(before)) == 0 ==> Run(before) == map[])
    ensures |Founders(steps)| <= 1 && Founders(steps) <= Run(steps).Keys
    ensures var before := steps[..|steps| - 1];
      (Run(before) == map[] <==> Founders(before) == {}) ==>
      (Run(steps) == map[] <==> Founders(steps) == {})
  {
    var before := steps[..|steps| - 1];
    if SetError(steps[|steps| - 1].lim, Run(before), v, l).None? && Total(Run(before)) == 0 {
      assert Founders(before) == {};
      assert Founders(steps) == {v};
    }
  }

  lemma FounderStays(steps: seq<Step>, v: string, note: string)
    requires steps != [] && steps[|steps| - 1] == Touch(v, note)
    ensures Founders(steps) == Founders(steps[..|steps| - 1])
    ensures Run(steps).Keys == Run(steps[..|steps| - 1]).Keys
    ensures Run(steps) == map[] <==> Run(steps[..|steps| - 1]) == map[]
  {
    var s, s' := Run(steps[..|steps| - 1]), Run(steps);
    assert s'.Keys == s.Keys;
    assert s == map[] <==> s.Keys == {};
    assert s' == map[] <==> s'.Keys == {};
  }

  lemma FounderLeaves(founders: set<string>, v: string)
    requires |founders| <= 1
    ensures |founders - {v}| <= 1
  {
    if v in founders {
      assert |founders - {v}| == |founders| - 1;
    } else {
      assert founders - {v} == founders;
    }
  }

  /** Writing back a licence unchanged in amount succeeds exactly when its holder is within the
      truncated 33% or is alone: the founder's reward statistics and activity can no longer be
      updated once others are active and he holds more. */
  lemma TouchSucceedsExactly(s: Store, v: string, note: string)
    requires Fits(s) && v in s && s[v].amount > 0
    ensures UpdateError(s, v, s[v].(note := note)).None? <==>
      s[v].amount <= Total(s) * 33 / 100 || Total(s) == s[v].amount
  {
    FitsUnwrapped(s);
  }

  /** With deletions the share rule does not survive: 400 of 1400 is within 33%, and is everything
      once the founder deletes. */
  lemma DeletionConcentrates()
    ensures var a, b, lim := Licence(1000, ""), Licence(400, ""), Limits(1, 5000);
      var steps := [Activate(lim, "a", a, true), Activate(lim, "b", b, true), Remove("a", true)];
      && DilutedThroughout(steps[..2]) && "b" !in Founders(steps)
      && "b" in Run(steps) && !WithinShare(Run(steps), "b")
  {
    var a, b := Licence(1000, ""), Licence(400, "");
    var lim := Limits(1, 5000);
    var steps := [Activate(lim, "a", a, true), Activate(lim, "b", b, true), Remove("a", true)];
    assert steps[..2] == [Activate(lim, "a", a, true), Activate(lim, "b", b, true)];
    FirstActive(lim, "a", a);
    SecondActive(lim, "a", a, "b", b);
    NoRemovalsAreCareful(steps[..2]);
    DilutedExactly(steps[..2]);
    assert Run(steps) == map["b" := b];
    TotalByInsert(map[], AmountIn, "b", b);
  }

  lemma FirstActive(lim: Limits, v: string, l: Licence)
    requires 0 <= lim.min <= l.amount <= lim.max
    ensures Run([Activate(lim, v, l, true)]) == map[v := l] && Founders([Activate(lim, v, l, true)]) == {v}
    ensures Total(map[v := l]) == l.amount
  {
    assert [Activate(lim, v, l, true)][..0] == [];
    assert map[][v := l] == map[v := l];
    TotalByInsert(map[], AmountIn, v, l);
  }

  lemma Accepted(lim: Limits, s: Store, w: string, k: Licence)
    requires Fits(s) && w !in s && lim.min <= k.amount <= lim.max
    requires 0 <= k.amount && Total(s) + k.amount <= MAX_INT64
    requires k.amount <= (Total(s) + k.amount) * 33 / 100
    ensures SetError(lim, s, w, k).None?
  {
    FitsUnwrapped(s);
  }

  lemma SecondActive(lim: Limits, v: string, l: Licence, w: string, k: Licence)
    requires 0 <= lim.min <= l.amount <= lim.max && lim.min <= k.amount <= lim.max
    requires v != w && l.amount > 0
    requires l.amount + k.amount <= MAX_INT64 && k.amount <= (l.amount + k.amount) * 33 / 100
    ensures var steps := [Activate(lim, v, l, true), Activate(lim, w, k, true)];
      Run(steps) == map[v := l, w := k] && Founders(steps) == {v}
  {
    var steps := [Activate(lim, v, l, true), Activate(lim, w, k, true)];
    FirstActive(lim, v, l);
    assert steps[..1] == [Activate(lim, v, l, true)];
    var s := map[v := l];
    Accepted(lim, s, w, k);
    assert s[w := k] == map[v := l, w := k];
  }

  // ---------- Locked tokens ----------

  /** The coins a licence stands for. */
  function Coins(l: Licence): int {
    if l.amount >= 0 then l.amount else 0
  }

  /** What the module account holds: activations whose lock succeeded, less what was sent back. */
  ghost function Escrow(steps: seq<Step>): int {
    if steps == [] then 0
    else
      var before := steps[..|steps| - 1];
      var s := Run(before);
      match steps[|steps| - 1]
      case Activate(lim, v, l, locks) =>
        if SetError(lim, s, v, l).None? then Locked(Escrow(before), l.amount, locks) else Escrow(before)
      case Touch(_, _) => Escrow(before)
      case Remove(v, sends) =>
        if v in s then Unlocked(Escrow(before), s[v].amount, sends) else Escrow(before)
  }

  /** The coins of activations that went on although the bank did not lock them. */
  ghost function Unbacked(steps: seq<Step>): int {
    if steps == [] then 0
    else
      var before := steps[..|steps| - 1];
      match steps[|steps| - 1]
      case Activate(lim, v, l, locks) =>
        Unbacked(before) + if SetError(lim, Run(before), v, l).None? && !locks then Coins(l) else 0
      case _ => Unbacked(before)
  }

  /** The coins of deletions that went on although they were not sent back. */
  ghost function Unreturned(steps: seq<Step>): int {
    if steps == [] then 0
    else
      var before := steps[..|steps| - 1];
      var s := Run(before);
      match steps[|steps| - 1]
      case Remove(v, sends) =>
        Unreturned(before)
        + if v in s && !(sends && Escrow(before) >= s[v].amount) then Coins(s[v]) else 0
      case _ => Unreturned(before)
  }

  /** On every run, whatever the limits, the module account never goes negative, and holds the coins of
      the stored licences, short of what was not locked and over by what was not returned. */
  lemma {:induction false} EscrowBalances(steps: seq<Step>)
    ensures Escrow(steps) == TotalBy(Run(steps), Coins) - Unbacked(steps) + Unreturned(steps)
    ensures Escrow(steps) >= 0
    ensures LimitsFrom(steps, 0) ==> TotalBy(Run(steps), Coins) == Total(Run(steps))
  {
    if steps != [] {
      EscrowBalances(steps[..|steps| - 1]);
      EscrowStep(steps);
    }
    if LimitsFrom(steps, 0) {
      RunFits(steps);
      CoinsAreAmounts(Run(steps));
    }
  }

  lemma EscrowStep(steps: seq<Step>)
    requires steps != []
    ensures Escrow(steps) - Escrow(steps[..|steps| - 1])
      == TotalBy(Run(steps), Coins) - TotalBy(Run(steps[..|steps| - 1]), Coins)
         - (Unbacked(steps) - Unbacked(steps[..|steps| - 1]))
         + (Unreturned(steps) - Unreturned(steps[..|steps| - 1]))
    ensures Escrow(steps[..|steps| - 1]) >= 0 ==> Escrow(steps) >= 0
  {
    var s := Run(steps[..|steps| - 1]);
    match steps[|steps| - 1] {
      case Activate(lim, v, l, _) =>
        if SetError(lim, s, v, l).None? {
          TotalByInsert(s, Coins, v, l);
        }
      case Touch(v, note) =>
        if v in s && UpdateError(s, v, s[v].(note := note)).None? {
          TotalByUpdate(s, Coins, v, s[v].(note := note));
        }
      case Remove(v, _) =>
        if v in s {
          TotalByPick(s, Coins, v);
        }
    }
  }

  lemma {:induction false} CoinsAreAmounts(s: Store)
    requires forall v :: v in s ==> s[v].amount >= 0
    ensures TotalBy(s, Coins) == Total(s)
    decreases |s|
  {
    if v :| v in s {
      TotalByPick(s, Coins, v);
      TotalByPick(s, AmountIn, v);
      CoinsAreAmounts(s - {v});
    }
  }
}
