/** What each validator gets from the split, read off its compliance and its licence. */
module RewardRules {
  import opened Arithmetic
  import opened Decimal
  import opened Sums
  import opened RewardSplit
  import opened RewardKeeper

  /** Compliance as reported, or full where none is. */
  ghost function MoaOf(x: Input, v: string): real {
    if v in x.moa then x.moa[v] else 1.0
  }

  /** All of the base reward from the high or the warning threshold on, three quarters from the medium one,
      half from the low one, nothing below. */
  ghost predicate PaidFor(t: Thresholds, compliance: real, base: nat, final: nat) {
    var high := if t.high == 0.0 then 1.0 else t.high;
    var warning := if t.warning == 0.0 then 0.9 else t.warning;
    var medium := if t.medium == 0.0 then 0.7 else t.medium;
    var low := if t.low == 0.0 then 0.5 else t.low;
    && (compliance >= high || compliance >= warning ==> final == base)
    && (medium <= compliance < high && compliance < warning ==> final == base * 3 / 4)
    && (low <= compliance < high && compliance < warning && compliance < medium ==> final == base / 2)
    && (compliance < high && compliance < warning && compliance < medium && compliance < low ==> final == 0)
  }

  /** Thresholds in their order, none left to its default. */
  ghost predicate Ascending(t: Thresholds) {
    0.0 < t.low <= t.medium <= t.warning <= t.high
  }

  /** One validator's entry before any remainder: its share of the subsidy, in 64 bits, penalised. */
  ghost predicate PlainEntry(x: Input, total: nat, r: Reward)
    requires total > 0
  {
    && r.validator in x.lzn && x.lzn[r.validator] > 0
    && r.base == x.reward * x.lzn[r.validator] % U64 / total
    && PaidFor(x.thresholds, MoaOf(x, r.validator), r.base, r.final)
  }

  lemma CutIsPaid(x: Input, total: nat, v: string)
    requires total > 0 && v in x.lzn && x.lzn[v] > 0
    ensures PlainEntry(x, total, Reward(v, x.Share(v, total), x.Cut(v, total)))
  {
    var base := x.Share(v, total);
    assert base * 4 / 4 == base && base * 2 / 4 == base / 2;
  }

  /** The list has one plain entry for each validator with a licence, and none for the others. */
  lemma EntriesExactly(x: Input, total: nat, order: seq<string>)
    requires total > 0 && IsOrder(order, x.lzn)
    ensures var rs := Listed(x, total, order);
      && (forall i :: 0 <= i < |rs| ==> PlainEntry(x, total, rs[i]))
      && OneEntryEach(rs)
      && (forall v :: v in x.lzn && x.lzn[v] > 0 ==> exists i :: 0 <= i < |rs| && rs[i].validator == v)
  {
    var rs := Listed(x, total, order);
    ListedMembers(x, total, order);
    forall i | 0 <= i < |rs| ensures PlainEntry(x, total, rs[i]) {
      assert rs[i] in rs;
      CutIsPaid(x, total, rs[i].validator);
    }
    EntriesDistinct(x, total, order);
    forall v | v in x.lzn && x.lzn[v] > 0 ensures exists i :: 0 <= i < |rs| && rs[i].validator == v {
      assert Reward(v, x.Share(v, total), x.Cut(v, total)) in rs;
    }
  }

  ghost predicate OneEntryEach(rs: seq<Reward>) {
    forall i, j :: 0 <= i < j < |rs| ==> rs[i].validator != rs[j].validator
  }

  lemma {:induction false} EntriesDistinct(x: Input, total: nat, order: seq<string>)
    requires total > 0
    requires forall v :: v in order ==> v in x.lzn
    requires forall i, j :: 0 <= i < j < |order| ==> order[i] != order[j]
    ensures OneEntryEach(Listed(x, total, order))
  {
    if order != [] {
      var init := order[..|order| - 1];
      EntriesDistinct(x, total, init);
      ListedMembers(x, total, init);
      var before := Listed(x, total, init);
      forall i | 0 <= i < |before| ensures before[i].validator != order[|order| - 1] {
        assert before[i] in before;
        var j :| 0 <= j < |init| && init[j] == before[i].validator;
        assert order[j] != order[|order| - 1];
      }
    }
  }

  /** This entry is the first with a compliance of at least 1.0. */
  ghost predicate TakesRemainder(x: Input, rs: seq<Reward>, i: nat) {
    && i < |rs| && MoaOf(x, rs[i].validator) >= 1.0
    && forall j :: 0 <= j < i ==> MoaOf(x, rs[j].validator) < 1.0
  }

  lemma TakesExactly(x: Input, rs: seq<Reward>, i: nat)
    ensures TakesRemainder(x, rs, i) <==> FirstCompliant(x, rs, i)
  {
  }

  /** Every entry the split returns is as listed, except that what is left of the subsidy goes to the first
      entry whose compliance is at least 1.0, if there is one. */
  lemma ReturnedExactly(x: Input, total: nat, order: seq<string>, after: seq<Reward>, i: nat)
    requires total > 0 && IsOrder(order, x.lzn)
    requires RemainderPlaced(x, Listed(x, total, order), after)
    requires i < |Listed(x, total, order)|
    ensures |after| == |Listed(x, total, order)|
    ensures var rs := Listed(x, total, order);
      var sum := Sum(Finals(rs)) % U64;
      after[i] == if sum < x.reward && TakesRemainder(x, rs, i)
                  then rs[i].(final := (rs[i].final + (x.reward - sum)) % U64) else rs[i]
  {
    PlacedExactly(x, Listed(x, total, order), after, i);
  }

  lemma PlacedExactly(x: Input, rs: seq<Reward>, after: seq<Reward>, i: nat)
    requires RemainderPlaced(x, rs, after) && i < |rs|
    ensures |after| == |rs|
    ensures var sum := Sum(Finals(rs)) % U64;
      after[i] == if sum < x.reward && TakesRemainder(x, rs, i)
                  then rs[i].(final := (rs[i].final + (x.reward - sum)) % U64) else rs[i]
  {
    var sum := Sum(Finals(rs)) % U64;
    TakesExactly(x, rs, i);
    if sum < x.reward && HasCompliant(x, rs) {
      var k: nat :| FirstCompliant(x, rs, k) && after == Topped(rs, k, x.reward - sum);
      OneFirst(x, rs, i, k);
    } else if FirstCompliant(x, rs, i) {
      assert HasCompliant(x, rs);
    }
  }

  lemma OneFirst(x: Input, rs: seq<Reward>, i: nat, k: nat)
    requires FirstCompliant(x, rs, k)
    ensures FirstCompliant(x, rs, i) <==> i == k
  {
  }

  /** With ordered thresholds, more compliance never earns less. */
  lemma MoreComplianceEarnsNoLess(t: Thresholds, c: real, d: real, base: nat, final: nat, final': nat)
    requires Ascending(t) && c <= d
    requires PaidFor(t, c, base, final) && PaidFor(t, d, base, final')
    ensures final <= final' <= base
  {
  }

  /** So raising one validator's reported compliance raises its entry, and leaves everybody else's. */
  lemma RaisedCompliance(x: Input, v: string, c: real, total: nat, order: seq<string>, i: nat)
    requires total > 0 && IsOrder(order, x.lzn) && v in x.lzn && MoaOf(x, v) <= c
    requires Ascending(x.thresholds)
    requires i < |Listed(x, total, order)|
    ensures var rs, rs' := Listed(x, total, order), Listed(x.(moa := x.moa[v := c]), total, order);
      && |rs'| == |rs| && rs'[i].validator == rs[i].validator && rs'[i].base == rs[i].base
      && rs[i].final <= rs'[i].final && (rs[i].validator != v ==> rs'[i] == rs[i])
  {
    var y := x.(moa := x.moa[v := c]);
    SameEntries(x, y, total, order);
    EntriesExactly(x, total, order);
    EntriesExactly(y, total, order);
    var r, r' := Listed(x, total, order)[i], Listed(y, total, order)[i];
    assert PlainEntry(x, total, r) && PlainEntry(y, total, r');
    if r.validator == v {
      MoreComplianceEarnsNoLess(x.thresholds, MoaOf(x, v), c, r.base, r.final, r'.final);
    }
  }

  lemma {:induction false} SameEntries(x: Input, y: Input, total: nat, order: seq<string>)
    requires total > 0 && x.lzn == y.lzn
    requires forall v :: v in order ==> v in x.lzn
    ensures |Listed(x, total, order)| == |Listed(y, total, order)|
    ensures forall i :: 0 <= i < |Listed(x, total, order)| ==>
      Listed(x, total, order)[i].validator == Listed(y, total, order)[i].validator
  {
    if order != [] {
      SameEntries(x, y, total, order[..|order| - 1]);
    }
  }

  // ---------- Who is paid ----------

  /** What the entries of one validator add up to. */
  ghost function Earned(rs: seq<Reward>, v: string): nat {
    if rs == [] then 0
    else Earned(rs[..|rs| - 1], v) + if rs[|rs| - 1].validator == v then rs[|rs| - 1].final else 0
  }

  /** A validator receives what it earned if the bank both mints and sends for it, and nothing otherwise. */
  lemma {:induction false} PaidExactly(bank: Bank, rs: seq<Reward>, mints: set<string>, sends: set<string>, v: string)
    ensures PaidTo(PayAll(bank, rs, mints, sends), v)
      == PaidTo(bank, v) + if v in mints && v in sends then Earned(rs, v) else 0
  {
    if rs != [] {
      PaidExactly(bank, rs[..|rs| - 1], mints, sends, v);
    }
  }

  /** With one entry each, what a validator earned is its entry. */
  lemma {:induction false} EarnedIsEntry(rs: seq<Reward>, i: nat)
    requires OneEntryEach(rs) && i < |rs|
    ensures Earned(rs, rs[i].validator) == rs[i].final
  {
    var n := |rs| - 1;
    if i == n {
      NothingEarned(rs[..n], rs[n].validator);
    } else {
      EarnedIsEntry(rs[..n], i);
      assert rs[..n][i] == rs[i];
    }
  }

  lemma {:induction false} NothingEarned(rs: seq<Reward>, v: string)
    requires forall i :: 0 <= i < |rs| ==> rs[i].validator != v
    ensures Earned(rs, v) == 0
  {
    if rs != [] {
      NothingEarned(rs[..|rs| - 1], v);
    }
  }

  /** One block's distribution, from licence to account: a validator whose coins are minted and sent
      receives its share of the subsidy, penalised, and what is left of the subsidy if it is the first
      fully compliant one. The total divided by is the 64-bit one. */
  lemma BlockPaysExactly(base: nat, b: Block, rs: seq<Reward>, bank: Bank, v: string) returns (i: nat)
    requires base < U64 && b.Ordered() && TotalLzn(b.lzn) % U64 > 0
    requires Assigned(base, b, rs) && v in b.lzn && b.lzn[v] > 0
    requires v in b.mints && v in b.sends
    ensures var x, total := b.Split(base), TotalLzn(b.lzn) % U64;
      var listed := Listed(x, total, b.order);
      && i < |listed| && listed[i].validator == v && PlainEntry(x, total, listed[i])
      && PaidTo(PayAll(bank, rs, b.mints, b.sends), v) == PaidTo(bank, v) + WithRemainder(x, listed, i)
  {
    var x, total := b.Split(base), TotalLzn(b.lzn) % U64;
    i := EntryOf(x, total, b.order, v);
    EntryPaid(x, total, b.order, rs, i);
    PaidExactly(bank, rs, b.mints, b.sends, v);
  }

  /** An entry and, for the first fully compliant one, what is left of the subsidy. */
  ghost function WithRemainder(x: Input, listed: seq<Reward>, i: nat): nat
    requires i < |listed|
  {
    var sum := Sum(Finals(listed)) % U64;
    if sum < x.reward && TakesRemainder(x, listed, i) then (listed[i].final + (x.reward - sum)) % U64
    else listed[i].final
  }

  lemma EntryOf(x: Input, total: nat, order: seq<string>, v: string) returns (i: nat)
    requires total > 0 && IsOrder(order, x.lzn) && v in x.lzn && x.lzn[v] > 0
    ensures i < |Listed(x, total, order)| && Listed(x, total, order)[i].validator == v
    ensures PlainEntry(x, total, Listed(x, total, order)[i])
  {
    EntriesExactly(x, total, order);
    i :| 0 <= i < |Listed(x, total, order)| && Listed(x, total, order)[i].validator == v;
  }

  lemma EntryPaid(x: Input, total: nat, order: seq<string>, rs: seq<Reward>, i: nat)
    requires total > 0 && IsOrder(order, x.lzn) && i < |Listed(x, total, order)|
    requires RemainderPlaced(x, Listed(x, total, order), rs)
    ensures Earned(rs, Listed(x, total, order)[i].validator) == WithRemainder(x, Listed(x, total, order), i)
  {
    ReturnedEach(x, total, order, rs);
    ReturnedExactly(x, total, order, rs, i);
    EarnedIsEntry(rs, i);
  }

  lemma ReturnedEach(x: Input, total: nat, order: seq<string>, rs: seq<Reward>)
    requires total > 0 && IsOrder(order, x.lzn)
    requires RemainderPlaced(x, Listed(x, total, order), rs)
    ensures |rs| == |Listed(x, total, order)| && OneEntryEach(rs)
    ensures forall i :: 0 <= i < |rs| ==> rs[i].validator == Listed(x, total, order)[i].validator
  {
    EntriesDistinct(x, total, order);
    var listed := Listed(x, total, order);
    if listed != [] {
      ReturnedExactly(x, total, order, rs, 0);
    }
    forall i | 0 <= i < |listed| ensures rs[i].validator == listed[i].validator {
      ReturnedExactly(x, total, order, rs, i);
    }
  }
}
