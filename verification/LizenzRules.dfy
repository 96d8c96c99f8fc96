/** Which licences are activated, updated and deleted, read off the store alone. */
module LizenzRules {
  import opened Wrappers
  import opened Sums
  import opened Lizenz

  /** The identity module is not wired, or knows the validator as an active one. */
  ghost predicate InGoodStanding(st: Standing) {
    st == NotWired || st == Known(true, true)
  }

  /** With a minimum of zero or more, an activation is accepted if and only if the validator is in good
      standing and holds no licence, the amount is within the limits, and it is the first one or leaves
      the total within int64 and the amount within 33 parts in 100 of it. */
  lemma ActivationAcceptedExactly(lim: Limits, s: Store, v: string, l: Licence, st: Standing)
    requires Fits(s) && lim.min >= 0
    ensures CheckedSet(lim, s, v, l, st).1.None? <==>
      && InGoodStanding(st) && v !in s && lim.min <= l.amount <= lim.max
      && (Total(s) == 0 || (Total(s) + l.amount <= MAX_INT64 && 100 * l.amount <= 33 * (Total(s) + l.amount)))
  {
    FitsUnwrapped(s);
    if v !in s && lim.min <= l.amount <= lim.max && Total(s) != 0 {
      ShareExactly(Total(s), 0, l.amount);
    }
  }

  /** The share check on true totals. */
  lemma ShareExactly(total: int, current: int, amount: int)
    requires 0 <= current <= total <= MAX_INT64 && 0 <= amount <= MAX_INT64 && total != 0
    requires !(current > 0 && total == current)
    ensures ShareOk(total, current, amount) <==>
      total - current + amount <= MAX_INT64 && 100 * amount <= 33 * (total - current + amount)
  {
    var sum := total - current + amount;
    if sum <= MAX_INT64 {
      assert Wrap(sum) == sum;
    } else {
      assert Wrap(sum) == sum - TWO64 && MaxAllowed(Wrap(sum)) <= 0;
    }
  }

  /** The same for any limits, with both totals as int64 wraps them. */
  lemma ActivationAcceptedWrapped(lim: Limits, s: Store, v: string, l: Licence, st: Standing)
    ensures CheckedSet(lim, s, v, l, st).1.None? <==>
      && InGoodStanding(st) && v !in s && lim.min <= l.amount <= lim.max
      && (Wrap(Total(s)) == 0 || WithinThird(l.amount, Wrap(Wrap(Total(s)) + l.amount)))
  {
    assert Wrap(Total(s)) - 0 + l.amount == Wrap(Total(s)) + l.amount;
  }

  /** At most 33 parts in 100, rounded towards zero. */
  ghost predicate WithinThird(amount: int, total: int) {
    if total >= 0 then 100 * amount <= 33 * total else 100 * amount < 33 * total + 100
  }

  /** A refusal names a requirement that is really not met. */
  lemma ActivationRefusedRightly(lim: Limits, s: Store, v: string, l: Licence, st: Standing)
    ensures match CheckedSet(lim, s, v, l, st).1
      case None => true
      case Some(NotVerified) => st == Unknown || (st.Known? && !st.isActive)
      case Some(NotValidator) => st == Known(true, false)
      case Some(AlreadyExists) => v in s
      case Some(BelowMin) => l.amount < lim.min
      case Some(AboveMax) => l.amount > lim.max
      case Some(ExceedsShare) => !WithinThird(l.amount, Wrap(Wrap(Total(s)) + l.amount))
      case Some(NotFound) => false
  {
    ActivationAcceptedWrapped(lim, s, v, l, st);
  }

  /** An accepted activation stores this licence; a refused one stores nothing. */
  lemma ActivationRecords(lim: Limits, s: Store, v: string, l: Licence, st: Standing)
    ensures var (s', e) := CheckedSet(lim, s, v, l, st);
      if e.Some? then s' == s else s' == s[v := l] && v !in s
  {
  }

  /** An update of a stored licence is accepted if and only if its holder is alone (or everybody holds
      nothing), or the new amount is within 33 parts in 100 of the new total. */
  lemma UpdateAcceptedExactly(s: Store, v: string, l: Licence)
    requires Fits(s) && 0 <= l.amount <= MAX_INT64
    ensures Update(s, v, l).1.None? <==>
      && v in s
      && (|| Total(s) == s[v].amount
          || (Total(s) - s[v].amount + l.amount <= MAX_INT64
              && 100 * l.amount <= 33 * (Total(s) - s[v].amount + l.amount)))
    ensures Update(s, v, l).0 == if Update(s, v, l).1.None? then s[v := l] else s
  {
    FitsUnwrapped(s);
    if v in s {
      TotalByPick(s, AmountIn, v);
      TotalByNonNegative(s - {v}, AmountIn);
      if Total(s) != s[v].amount {
        ShareExactly(Total(s), s[v].amount, l.amount);
      }
    }
  }

  /** The same for any amounts, negative ones included, with both totals as int64 wraps them. */
  lemma UpdateAcceptedWrapped(s: Store, v: string, l: Licence)
    ensures Update(s, v, l).1.None? <==>
      && v in s
      && (var total := Wrap(Total(s));
          || (total == s[v].amount && total >= 0)
          || WithinThird(l.amount, Wrap(total - s[v].amount + l.amount)))
    ensures Update(s, v, l).1.Some? ==> (Update(s, v, l).1.value == NotFound <==> v !in s)
  {
  }

  /** A deletion succeeds where a licence is stored and takes that one away. */
  lemma DeletionExactly(s: Store, v: string, u: string)
    ensures Delete(s, v).1.None? <==> v in s
    ensures u in Delete(s, v).0 <==> u in s && u != v
    ensures u in s && u != v ==> Delete(s, v).0[u] == s[u]
  {
  }
}
