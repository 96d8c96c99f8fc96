/** Verified accounts and the identity-hash index of x/ident/keeper/keeper.go: a secondary index that
    must agree with the account table through updates, deletions and migrations. */
module Identity {
  import opened Wrappers

  datatype Role = Unspecified | Guest | Citizen | Validator

  /** `activity` stands for the time stamps and the provider. */
  datatype Account = Account(address: string, role: Role, isActive: bool, hash: string, activity: int)

  datatype Migration = Migration(hash: string, completed: bool)

  datatype State = State(
    accounts: map<string, Account>,
    index: map<string, string>,
    migrations: map<string, Migration>)

  datatype Error =
    | EmptyAddress
    | EmptyHash
    | InvalidRole
    | AlreadyExists
    | NotFound
    | DuplicateHash
    | LimitExceeded
    | DowngradeRefused
    | MigrationNotFound
    | AlreadyCompleted

  /** ValidateAccount. */
  function AccountError(a: Account): Option<Error> {
    if a.address == "" then Some(EmptyAddress)
    else if a.hash == "" then Some(EmptyHash)
    else if a.role == Unspecified then Some(InvalidRole)
    else None
  }

  function CountRole(accounts: map<string, Account>, role: Role): nat {
    |set a | a in accounts && accounts[a].role == role|
  }

  /** checkAccountLimits: only citizens and validators have a limit; other roles are refused. */
  function LimitError(accounts: map<string, Account>, role: Role, limit: nat): Option<Error> {
    if role != Citizen && role != Validator then Some(InvalidRole)
    else if CountRole(accounts, role) >= limit then Some(LimitExceeded)
    else None
  }

  function SetError(limit: nat, s: State, a: Account): Option<Error> {
    if AccountError(a).Some? then AccountError(a)
    else if a.address in s.accounts then Some(AlreadyExists)
    else if a.hash in s.index then Some(DuplicateHash)
    else if limit < 10000 then LimitError(s.accounts, a.role, limit)
    else None
  }

  /** SetVerifiedAccount. */
  function Set(limit: nat, s: State, a: Account): (State, Option<Error>) {
    if SetError(limit, s, a).Some? then (s, SetError(limit, s, a))
    else (s.(accounts := s.accounts[a.address := a], index := s.index[a.hash := a.address]), None)
  }

  function UpdateError(s: State, a: Account): Option<Error> {
    if AccountError(a).Some? then AccountError(a)
    else if a.address !in s.accounts then Some(NotFound)
    else if s.accounts[a.address].hash != a.hash && a.hash in s.index && s.index[a.hash] != a.address then
      Some(DuplicateHash)
    else None
  }

  /** UpdateVerifiedAccount: a changed hash moves the index entry. */
  function Update(s: State, a: Account): (State, Option<Error>) {
    if UpdateError(s, a).Some? then (s, UpdateError(s, a))
    else
      var was := s.accounts[a.address];
      var index := if was.hash != a.hash then (s.index - {was.hash})[a.hash := a.address] else s.index;
      (s.(accounts := s.accounts[a.address := a], index := index), None)
  }

  /** DeleteVerifiedAccount: the index entry stays. */
  function Delete(s: State, address: string): (State, Option<Error>) {
    if address !in s.accounts then (s, Some(NotFound))
    else (s.(accounts := s.accounts - {address}), None)
  }

  /** validateRoleChange. */
  function RoleChangeError(was: Role, role: Role): Option<Error> {
    if role == Unspecified then Some(InvalidRole)
    else if was == role then None
    else if role == Guest && (was == Validator || was == Citizen) then Some(DowngradeRefused)
    else None
  }

  /** ChangeAccountRole at wall-clock time `now`. */
  function ChangeRole(limit: nat, s: State, address: string, role: Role, now: int): (State, Option<Error>) {
    if address !in s.accounts then (s, Some(NotFound))
    else
      var a := s.accounts[address];
      if RoleChangeError(a.role, role).Some? then (s, RoleChangeError(a.role, role))
      else if LimitError(s.accounts, role, limit).Some? then (s, LimitError(s.accounts, role, limit))
      else Update(s, a.(role := role, activity := now))
  }

  /** updateAccountActivity in EndBlocker, over a table of valid accounts. */
  function TouchAll(s: State, now: int): State {
    s.(accounts := map a | a in s.accounts :: s.accounts[a].(activity := now))
  }

  function MigrationKey(from: string, to: string): string {
    from + "_" + to
  }

  function MigrationError(s: State, from: string, to: string): Option<Error> {
    if MigrationKey(from, to) !in s.migrations then Some(MigrationNotFound)
    else if s.migrations[MigrationKey(from, to)].completed then Some(AlreadyCompleted)
    else if from !in s.accounts then Some(NotFound)
    else None
  }

  /** The state in which ExecuteRoleMigration creates the target: the source's index entry is
      removed first when the migration reuses its hash. */
  function Released(s: State, from: string, to: string): State
    requires MigrationError(s, from, to).None?
  {
    var src := s.accounts[from];
    if src.hash == s.migrations[MigrationKey(from, to)].hash then s.(index := s.index - {src.hash}) else s
  }

  function Target(s: State, from: string, to: string, now: int): Account
    requires MigrationError(s, from, to).None?
  {
    Account(to, s.accounts[from].role, true, s.migrations[MigrationKey(from, to)].hash, now)
  }

  /** ExecuteRoleMigration. Nothing is undone on an error; only a message handler rolls back. */
  function Migrate(limit: nat, s: State, from: string, to: string, now: int): (State, Option<Error>) {
    if MigrationError(s, from, to).Some? then (s, MigrationError(s, from, to))
    else
      var s1 := Released(s, from, to);
      var (s2, e2) := Set(limit, s1, Target(s, from, to, now));
      if e2.Some? then (s1, e2)
      else
        var (s3, e3) := Update(s2, s.accounts[from].(isActive := false));
        if e3.Some? then (s3, e3)
        else
          var key := MigrationKey(from, to);
          (s3.(migrations := s3.migrations[key := s3.migrations[key].(completed := true)]), None)
  }

  class Keeper {
    const limit: nat
    var accounts: map<string, Account>
    var index: map<string, string>
    var migrations: map<string, Migration>

    constructor (limit: nat)
      ensures this.limit == limit && Contents() == State(map[], map[], map[])
    {
      this.limit := limit;
      accounts, index, migrations := map[], map[], map[];
    }

    function Contents(): State
      reads this
    {
      State(accounts, index, migrations)
    }

    method SetVerifiedAccount(a: Account) returns (e: Option<Error>)
      modifies this
      ensures (Contents(), e) == Set(limit, old(Contents()), a)
    {
      e := AccountError(a);
      if e.Some? {
        return;
      }
      if a.address in accounts {
        return Some(AlreadyExists);
      }
      if a.hash in index {
        return Some(DuplicateHash);
      }
      if limit < 10000 {
        e := LimitError(accounts, a.role, limit);
        if e.Some? {
          return;
        }
      }
      accounts := accounts[a.address := a];
      index := index[a.hash := a.address];
    }

    method UpdateVerifiedAccount(a: Account) returns (e: Option<Error>)
      modifies this
      ensures (Contents(), e) == Update(old(Contents()), a)
    {
      e := AccountError(a);
      if e.Some? {
        return;
      }
      if a.address !in accounts {
        return Some(NotFound);
      }
      var existing := accounts[a.address];
      if existing.hash != a.hash {
        if a.hash in index && index[a.hash] != a.address {
          return Some(DuplicateHash);
        }
        index := index - {existing.hash};
        index := index[a.hash := a.address];
      }
      accounts := accounts[a.address := a];
    }

    method DeleteVerifiedAccount(address: string) returns (e: Option<Error>)
      modifies this
      ensures (Contents(), e) == Delete(old(Contents()), address)
    {
      if address !in accounts {
        return Some(NotFound);
      }
      accounts := accounts - {address};
      return None;
    }

    method ChangeAccountRole(address: string, role: Role, now: int) returns (e: Option<Error>)
      modifies this
      ensures (Contents(), e) == ChangeRole(limit, old(Contents()), address, role, now)
    {
      if address !in accounts {
        return Some(NotFound);
      }
      var a := accounts[address];
      e := RoleChangeError(a.role, role);
      if e.Some? {
        return;
      }
      e := LimitError(accounts, role, limit);
      if e.Some? {
        return;
      }
      e := UpdateVerifiedAccount(a.(role := role, activity := now));
    }

    method UpdateAccountActivity(now: int)
      requires forall a :: a in accounts ==> accounts[a].address == a && AccountError(accounts[a]).None?
      modifies this
      ensures Contents() == TouchAll(old(Contents()), now)
    {
      var rest := accounts.Keys;
      while rest != {}
        invariant rest <= accounts.Keys == old(accounts).Keys
        invariant index == old(index) && migrations == old(migrations)
        invariant forall a :: a in accounts ==>
          accounts[a] == if a in rest then old(accounts)[a] else old(accounts)[a].(activity := now)
        decreases rest
      {
        var a :| a in rest;
        var e := UpdateVerifiedAccount(accounts[a].(activity := now));
        rest := rest - {a};
      }
    }

    method ExecuteRoleMigration(from: string, to: string, now: int) returns (e: Option<Error>)
      modifies this
      ensures (Contents(), e) == Migrate(limit, old(Contents()), from, to, now)
    {
      var key := MigrationKey(from, to);
      if key !in migrations {
        return Some(MigrationNotFound);
      }
      var migration := migrations[key];
      if migration.completed {
        return Some(AlreadyCompleted);
      }
      if from !in accounts {
        return Some(NotFound);
      }
      var source := accounts[from];
      if source.hash == migration.hash {
        index := index - {source.hash};
      }
      e := SetVerifiedAccount(Account(to, source.role, true, migration.hash, now));
      if e.Some? {
        return;
      }
      e := UpdateVerifiedAccount(source.(isActive := false));
      if e.Some? {
        return;
      }
      migrations := migrations[key := migration.(completed := true)];
    }
  }

  // ---------- The index over runs without migrations ----------

  ghost predicate ValidAccounts(s: State) {
    forall a :: a in s.accounts ==> s.accounts[a].address == a && AccountError(s.accounts[a]).None?
  }

  ghost predicate Indexed(s: State, a: string)
    requires a in s.accounts
  {
    s.accounts[a].hash in s.index && s.index[s.accounts[a].hash] == a
  }

  /** Every stored account's hash maps to its own address. */
  ghost predicate Inv(s: State) {
    ValidAccounts(s) && forall a :: a in s.accounts ==> Indexed(s, a)
  }

  datatype Step =
    | SetStep(account: Account)
    | UpdateStep(account: Account)
    | RoleStep(address: string, role: Role, now: int)
    | TouchStep(now: int)
    | DeleteStep(address: string)

  function Apply(limit: nat, s: State, step: Step): State {
    match step
    case SetStep(a) => Set(limit, s, a).0
    case UpdateStep(a) => Update(s, a).0
    case RoleStep(address, role, now) => ChangeRole(limit, s, address, role, now).0
    case TouchStep(now) => TouchAll(s, now)
    case DeleteStep(address) => Delete(s, address).0
  }

  function Run(limit: nat, steps: seq<Step>): State {
    if steps == [] then State(map[], map[], map[])
    else Apply(limit, Run(limit, steps[..|steps| - 1]), steps[|steps| - 1])
  }

  lemma UpdateKeepsInv(s: State, a: Account)
    requires Inv(s)
    ensures Inv(Update(s, a).0)
  {
    if UpdateError(s, a).None? {
      assert Indexed(s, a.address);
      var s' := Update(s, a).0;
      forall b | b in s'.accounts ensures Indexed(s', b) {
        if b != a.address {
          assert Indexed(s, b);
        }
      }
    }
  }

  lemma StepKeepsInv(limit: nat, s: State, step: Step)
    requires Inv(s)
    ensures Inv(Apply(limit, s, step))
  {
    match step
    case SetStep(a) =>
      var s' := Set(limit, s, a).0;
      forall b | b in s'.accounts ensures Indexed(s', b) {
        if b in s.accounts {
          assert Indexed(s, b);
        }
      }
    case UpdateStep(a) => UpdateKeepsInv(s, a);
    case RoleStep(address, role, now) =>
      if address in s.accounts {
        UpdateKeepsInv(s, s.accounts[address].(role := role, activity := now));
      }
    case TouchStep(now) =>
      forall b | b in s.accounts ensures Indexed(TouchAll(s, now), b) {
        assert Indexed(s, b);
      }
    case DeleteStep(address) =>
      forall b | b in s.accounts && b != address ensures Indexed(Delete(s, address).0, b) {
        assert Indexed(s, b);
      }
  }

  /** On every run of set, update, role change, activity update and delete the index agrees with the
      account table. */
  lemma {:induction false} RunKeepsInv(limit: nat, steps: seq<Step>)
    ensures Inv(Run(limit, steps))
  {
    if steps != [] {
      RunKeepsInv(limit, steps[..|steps| - 1]);
      StepKeepsInv(limit, Run(limit, steps[..|steps| - 1]), steps[|steps| - 1]);
    }
  }

  /** So no two accounts share an identity hash, although deletions leave index entries behind. */
  lemma HashesUnique(limit: nat, steps: seq<Step>, a: string, b: string)
    requires a in Run(limit, steps).accounts && b in Run(limit, steps).accounts
    requires Run(limit, steps).accounts[a].hash == Run(limit, steps).accounts[b].hash
    ensures a == b
  {
    RunKeepsInv(limit, steps);
    assert Indexed(Run(limit, steps), a) && Indexed(Run(limit, steps), b);
  }

  // ---------- Deleted hashes ----------

  /** The only step that takes a hash out of the index: an update that moves its account to another
      hash. */
  predicate Frees(s: State, step: Step, hash: string) {
    && step.UpdateStep? && UpdateError(s, step.account).None?
    && s.accounts[step.account.address].hash == hash && step.account.hash != hash
  }

  lemma StepTakenExactly(limit: nat, s: State, step: Step, hash: string)
    requires ValidAccounts(s) && hash in s.index
    ensures hash in Apply(limit, s, step).index <==> !Frees(s, step, hash)
  {
  }

  /** From state i on the hash is in the index of every state. */
  ghost predicate TakenThroughout(limit: nat, steps: seq<Step>, i: nat, hash: string)
    requires i <= |steps|
  {
    forall k :: i <= k <= |steps| ==> hash in Run(limit, steps[..k]).index
  }

  ghost predicate NeverFreed(limit: nat, steps: seq<Step>, i: nat, hash: string)
    requires i <= |steps|
  {
    forall k :: i <= k < |steps| ==> !Frees(Run(limit, steps[..k]), steps[k], hash)
  }

  /** A registered hash stays taken, whatever is deleted, if and only if no later update moves an
      account off it. */
  lemma {:induction false} TakenExactly(limit: nat, steps: seq<Step>, i: nat, hash: string)
    requires i <= |steps| && hash in Run(limit, steps[..i]).index
    ensures TakenThroughout(limit, steps, i, hash) <==> NeverFreed(limit, steps, i, hash)
    decreases |steps|
  {
    if i == |steps| {
      assert steps[..i] == steps;
    } else {
      var init := steps[..|steps| - 1];
      assert forall k :: 0 <= k <= |init| ==> init[..k] == steps[..k];
      assert steps[..|steps|] == steps;
      TakenExactly(limit, init, i, hash);
      if TakenThroughout(limit, init, i, hash) {
        RunKeepsInv(limit, init);
        StepTakenExactly(limit, Run(limit, init), steps[|steps| - 1], hash);
        LastState(limit, steps, i, hash);
      } else {
        var k :| i <= k <= |init| && hash !in Run(limit, init[..k]).index;
        assert hash !in Run(limit, steps[..k]).index;
        var m :| i <= m < |init| && Frees(Run(limit, init[..m]), init[m], hash);
        assert Frees(Run(limit, steps[..m]), steps[m], hash);
      }
    }
  }

  lemma LastState(limit: nat, steps: seq<Step>, i: nat, hash: string)
    requires i < |steps| && steps[..|steps|] == steps
    requires TakenThroughout(limit, steps[..|steps| - 1], i, hash)
    requires NeverFreed(limit, steps[..|steps| - 1], i, hash)
    ensures TakenThroughout(limit, steps, i, hash) <==> hash in Run(limit, steps).index
    ensures NeverFreed(limit, steps, i, hash)
      <==> !Frees(Run(limit, steps[..|steps| - 1]), steps[|steps| - 1], hash)
  {
    var init := steps[..|steps| - 1];
    forall k | i <= k < |steps| ensures hash in Run(limit, steps[..k]).index {
      assert init[..k] == steps[..k];
    }
    forall k | i <= k < |steps| - 1 ensures !Frees(Run(limit, steps[..k]), steps[k], hash) {
      assert init[..k] == steps[..k] && init[k] == steps[k];
    }
  }

  /** The entry of an account that is gone. */
  ghost predicate Orphaned(s: State, address: string, hash: string) {
    address !in s.accounts && hash in s.index && s.index[hash] == address
  }

  /** No new account can register the hash. */
  ghost predicate Refuses(limit: nat, s: State, hash: string) {
    forall again: Account | again.hash == hash && AccountError(again).None? && again.address !in s.accounts ::
      SetError(limit, s, again) == Some(DuplicateHash)
  }

  lemma OrphanStays(limit: nat, s: State, step: Step, address: string, hash: string)
    requires Inv(s) && Orphaned(s, address, hash)
    requires step.SetStep? ==> step.account.address != address
    ensures Orphaned(Apply(limit, s, step), address, hash)
  {
    if step.UpdateStep? && step.account.address in s.accounts {
      assert Indexed(s, step.account.address);
    }
  }

  /** Over every later run that does not register the deleted address again, its hash stays taken:
      nobody holds it and nobody can register it. */
  lemma {:induction false} DeletedHashStaysTaken(limit: nat, steps: seq<Step>, i: nat, address: string, hash: string)
    requires i < |steps| && steps[i] == DeleteStep(address)
    requires address in Run(limit, steps[..i]).accounts && hash == Run(limit, steps[..i]).accounts[address].hash
    requires forall k :: i < k < |steps| && steps[k].SetStep? ==> steps[k].account.address != address
    ensures Orphaned(Run(limit, steps), address, hash)
    ensures forall a :: a in Run(limit, steps).accounts ==> Run(limit, steps).accounts[a].hash != hash
    ensures Refuses(limit, Run(limit, steps), hash)
    decreases |steps|
  {
    var init := steps[..|steps| - 1];
    RunKeepsInv(limit, init);
    RunKeepsInv(limit, steps);
    if i == |steps| - 1 {
      assert Indexed(Run(limit, init), address);
    } else {
      assert init[..i] == steps[..i];
      DeletedHashStaysTaken(limit, init, i, address, hash);
      OrphanStays(limit, Run(limit, init), steps[|steps| - 1], address, hash);
    }
    forall a | a in Run(limit, steps).accounts ensures Run(limit, steps).accounts[a].hash != hash {
      assert Indexed(Run(limit, steps), a);
    }
  }

  /** Registering the address again opens a way back: the stale entry lets it take its old hash, and
      the next update away from it frees the hash for anybody. */
  lemma DeletedHashReturns(d: Account, e: Account, k: Account)
    requires AccountError(d).None? && AccountError(e).None? && AccountError(k).None?
    requires e.address != d.address && e.hash == d.hash
    requires k.address == d.address && k.hash != d.hash
    ensures var gone := [SetStep(d), DeleteStep(d.address)];
      var steps := gone + [SetStep(k)] + [UpdateStep(d)] + [UpdateStep(k)] + [SetStep(e)];
      && Orphaned(Run(10000, gone), d.address, d.hash)
      && Run(10000, steps).accounts == map[k.address := k, e.address := e]
  {
    var gone := [SetStep(d), DeleteStep(d.address)];
    assert gone == [] + [SetStep(d)] + [DeleteStep(d.address)];
    RunSnoc(10000, [], SetStep(d));
    FirstAccount(d, map[]);
    RunSnoc(10000, [] + [SetStep(d)], DeleteStep(d.address));
    OnlyEntry(d);
    RunSnoc(10000, gone, SetStep(k));
    FirstAccount(k, map[d.hash := d.address]);
    RunSnoc(10000, gone + [SetStep(k)], UpdateStep(d));
    Rehash(k, d, map[d.hash := d.address, k.hash := d.address]);
    RunSnoc(10000, gone + [SetStep(k)] + [UpdateStep(d)], UpdateStep(k));
    Rehash(d, k, map[d.hash := d.address]);
    RunSnoc(10000, gone + [SetStep(k)] + [UpdateStep(d)] + [UpdateStep(k)], SetStep(e));
    SecondAccount(k, e);
  }

  lemma RunSnoc(limit: nat, steps: seq<Step>, step: Step)
    ensures Run(limit, steps + [step]) == Apply(limit, Run(limit, steps), step)
  {
    assert (steps + [step])[..|steps|] == steps;
  }

  lemma OnlyEntry(d: Account)
    ensures Apply(10000, State(map[d.address := d], map[d.hash := d.address], map[]), DeleteStep(d.address))
      == State(map[], map[d.hash := d.address], map[])
  {
    assert map[d.address := d] - {d.address} == map[];
  }

  lemma SecondAccount(k: Account, e: Account)
    requires AccountError(e).None? && e.address != k.address && e.hash != k.hash
    ensures Apply(10000, State(map[k.address := k], map[k.hash := k.address], map[]), SetStep(e)).accounts
      == map[k.address := k, e.address := e]
  {
  }

  lemma FirstAccount(a: Account, index: map<string, string>)
    requires AccountError(a).None? && a.hash !in index
    ensures Apply(10000, State(map[], index, map[]), SetStep(a))
      == State(map[a.address := a], index[a.hash := a.address], map[])
  {
  }

  lemma Rehash(a: Account, b: Account, index: map<string, string>)
    requires AccountError(b).None? && a.address == b.address && a.hash != b.hash
    requires index.Keys <= {a.hash, b.hash} && forall h :: h in index ==> index[h] == a.address
    ensures Apply(10000, State(map[a.address := a], index, map[]), UpdateStep(b))
      == State(map[a.address := b], map[b.hash := a.address], map[])
  {
    assert (index - {a.hash})[b.hash := a.address] == map[b.hash := a.address];
  }

  // ---------- Migrations ----------

  /** The index agrees for every account that is active. */
  ghost predicate ActiveInv(s: State) {
    ValidAccounts(s) && forall a :: a in s.accounts && s.accounts[a].isActive ==> Indexed(s, a)
  }

  /** The hash is held by an active account other than `from`, as one look at the index shows. */
  predicate HeldByOther(s: State, hash: string, from: string) {
    && hash in s.index && s.index[hash] != from && s.index[hash] in s.accounts
    && s.accounts[s.index[hash]].isActive && s.accounts[s.index[hash]].hash == hash
  }

  lemma MigratedState(limit: nat, s: State, from: string, to: string, now: int)
    requires ValidAccounts(s) && Migrate(limit, s, from, to, now).1.None?
    ensures MigrationError(s, from, to).None? && to !in s.accounts && from != to
    ensures var s' := Migrate(limit, s, from, to, now).0;
      var target := Target(s, from, to, now);
      && s'.accounts == s.accounts[to := target][from := s.accounts[from].(isActive := false)]
      && s'.index == Released(s, from, to).index[target.hash := to]
      && target.hash !in Released(s, from, to).index
      && AccountError(target).None?
  {
  }

  /** A successful migration keeps the index right for active accounts exactly when it does not
      take the source's hash away from another active account that holds it. */
  lemma MigrationKeepsExactly(limit: nat, s: State, from: string, to: string, now: int)
    requires ActiveInv(s) && Migrate(limit, s, from, to, now).1.None?
    ensures MigrationError(s, from, to).None?
    ensures ActiveInv(Migrate(limit, s, from, to, now).0) <==>
      s.accounts[from].hash != s.migrations[MigrationKey(from, to)].hash
      || !HeldByOther(s, s.accounts[from].hash, from)
  {
    MigratedState(limit, s, from, to, now);
    var s' := Migrate(limit, s, from, to, now).0;
    var src := s.accounts[from];
    var hash := Target(s, from, to, now).hash;
    if src.hash == hash && HeldByOther(s, src.hash, from) {
      var other := s.index[hash];
      assert s'.accounts[other] == s.accounts[other];
      assert !Indexed(s', other);
    } else {
      forall a | a in s'.accounts && s'.accounts[a].isActive ensures Indexed(s', a) {
        if a != to {
          assert a != from && s'.accounts[a] == s.accounts[a];
          assert Indexed(s, a);
        }
      }
    }
  }

  /** An active source is always safe to migrate from. */
  lemma ActiveSourceKeeps(limit: nat, s: State, from: string, to: string, now: int)
    requires ActiveInv(s) && Migrate(limit, s, from, to, now).1.None?
    requires from in s.accounts && s.accounts[from].isActive
    ensures ActiveInv(Migrate(limit, s, from, to, now).0)
  {
    assert Indexed(s, from);
    MigrationKeepsExactly(limit, s, from, to, now);
  }

  /** A migration that fails while creating the target, without rollback, leaves the index right
      exactly when it had not released a hash that some active account holds. BeginBlocker retries
      stored migrations this way. */
  lemma FailedMigrationKeepsExactly(limit: nat, s: State, from: string, to: string, now: int)
    requires ActiveInv(s) && MigrationError(s, from, to).None?
    requires SetError(limit, Released(s, from, to), Target(s, from, to, now)).Some?
    ensures var src := s.accounts[from];
      ActiveInv(Migrate(limit, s, from, to, now).0) <==>
      src.hash != s.migrations[MigrationKey(from, to)].hash || !(src.isActive || HeldByOther(s, src.hash, from))
  {
    var src := s.accounts[from];
    var s' := Migrate(limit, s, from, to, now).0;
    assert s' == Released(s, from, to);
    if src.hash == s.migrations[MigrationKey(from, to)].hash {
      if src.isActive {
        assert !Indexed(s', from);
      } else if HeldByOther(s, src.hash, from) {
        assert !Indexed(s', s.index[src.hash]);
      } else {
        forall a | a in s'.accounts && s'.accounts[a].isActive ensures Indexed(s', a) {
          assert Indexed(s, a);
        }
      }
    }
  }

  datatype MoveStep =
    | Plain(step: Step)
    | RequestMigration(from: string, to: string, hash: string)
    | MigrateStep(from: string, to: string, now: int)
    | RetryStep(from: string, to: string, now: int)

  /** A migration as a message rolls back on an error; BeginBlocker retries pending migrations and keeps
      whatever a failed one did. */
  function ApplyMove(limit: nat, s: State, move: MoveStep): State {
    match move
    case Plain(step) => Apply(limit, s, step)
    case RequestMigration(from, to, hash) =>
      s.(migrations := s.migrations[MigrationKey(from, to) := Migration(hash, false)])
    case MigrateStep(from, to, now) =>
      var (s', e) := Migrate(limit, s, from, to, now);
      if e.Some? then s else s'
    case RetryStep(from, to, now) => Migrate(limit, s, from, to, now).0
  }

  function RunMoves(limit: nat, moves: seq<MoveStep>): State {
    if moves == [] then State(map[], map[], map[])
    else ApplyMove(limit, RunMoves(limit, moves[..|moves| - 1]), moves[|moves| - 1])
  }

  /** An update keeps the index right for active accounts exactly when, keeping its hash, it
      activates only an account the index names, and, changing its hash, it does not take the old one
      away from an active account that holds it. */
  predicate UpdateKeeps(s: State, a: Account)
    requires a.address in s.accounts
  {
    var was := s.accounts[a.address];
    if a.hash == was.hash then a.isActive ==> a.hash in s.index && s.index[a.hash] == a.address
    else !HeldByOther(s, was.hash, a.address)
  }

  lemma UpdateKeepsExactly(s: State, a: Account)
    requires ActiveInv(s) && UpdateError(s, a).None?
    ensures ActiveInv(Update(s, a).0) <==> UpdateKeeps(s, a)
  {
    var s' := Update(s, a).0;
    var was := s.accounts[a.address];
    if UpdateKeeps(s, a) {
      forall b | b in s'.accounts && s'.accounts[b].isActive ensures Indexed(s', b) {
        if b != a.address {
          assert Indexed(s, b);
        }
      }
    } else if a.hash == was.hash {
      assert !Indexed(s', a.address);
    } else {
      var other := s.index[was.hash];
      assert s'.accounts[other] == s.accounts[other] && !Indexed(s', other);
    }
  }

  /** So an update that keeps the hash and reactivates nobody always keeps it. */
  lemma QuietUpdateKeepsActive(s: State, a: Account)
    requires ActiveInv(s)
    requires a.address in s.accounts ==>
      a.hash == s.accounts[a.address].hash && (a.isActive ==> s.accounts[a.address].isActive)
    ensures ActiveInv(Update(s, a).0)
    ensures a.address in s.accounts ==> UpdateKeeps(s, a)
  {
    if a.address in s.accounts {
      if a.isActive {
        assert Indexed(s, a.address);
      }
      if UpdateError(s, a).None? {
        UpdateKeepsExactly(s, a);
      }
    }
  }

  /** The condition under which a successful migration keeps it. */
  predicate MigrationKeeps(s: State, from: string, to: string)
    requires MigrationError(s, from, to).None?
  {
    s.accounts[from].hash != s.migrations[MigrationKey(from, to)].hash
    || !HeldByOther(s, s.accounts[from].hash, from)
  }

  /** The condition under which one that failed while creating its target keeps it. */
  predicate FailureKeeps(s: State, from: string, to: string)
    requires MigrationError(s, from, to).None?
  {
    var src := s.accounts[from];
    src.hash != s.migrations[MigrationKey(from, to)].hash || !(src.isActive || HeldByOther(s, src.hash, from))
  }

  /** An attempted migration, half-failed or not. */
  predicate AttemptKeeps(limit: nat, s: State, from: string, to: string, now: int) {
    MigrationError(s, from, to).None? ==>
      if Migrate(limit, s, from, to, now).1.None? then MigrationKeeps(s, from, to) else FailureKeeps(s, from, to)
  }

  lemma AttemptKeepsExactly(limit: nat, s: State, from: string, to: string, now: int)
    requires ActiveInv(s)
    ensures ActiveInv(Migrate(limit, s, from, to, now).0) <==> AttemptKeeps(limit, s, from, to, now)
  {
    if MigrationError(s, from, to).None? {
      if Migrate(limit, s, from, to, now).1.None? {
        MigrationKeepsExactly(limit, s, from, to, now);
      } else {
        FailsAtTarget(limit, s, from, to, now);
        FailedMigrationKeepsExactly(limit, s, from, to, now);
      }
    }
  }

  /** Once the target is stored, writing the source back cannot fail: a migration fails at its target. */
  lemma FailsAtTarget(limit: nat, s: State, from: string, to: string, now: int)
    requires ValidAccounts(s) && MigrationError(s, from, to).None?
    requires Migrate(limit, s, from, to, now).1.Some?
    ensures SetError(limit, Released(s, from, to), Target(s, from, to, now)).Some?
  {
  }

  /** Everything but updates and migrations keeps it unconditionally. */
  ghost predicate MoveKeeps(limit: nat, s: State, move: MoveStep) {
    match move
    case Plain(UpdateStep(a)) => UpdateError(s, a).None? ==> UpdateKeeps(s, a)
    case MigrateStep(from, to, now) => Migrate(limit, s, from, to, now).1.None? ==> MigrationKeeps(s, from, to)
    case RetryStep(from, to, now) => AttemptKeeps(limit, s, from, to, now)
    case _ => true
  }

  lemma MoveKeepsExactly(limit: nat, s: State, move: MoveStep)
    requires ActiveInv(s)
    ensures ActiveInv(ApplyMove(limit, s, move)) <==> MoveKeeps(limit, s, move)
  {
    match move
    case Plain(UpdateStep(a)) =>
      if UpdateError(s, a).None? {
        UpdateKeepsExactly(s, a);
      }
    case Plain(step) => OtherStepsKeep(limit, s, step);
    case RequestMigration(from, to, hash) =>
      forall b | b in s.accounts && s.accounts[b].isActive ensures Indexed(ApplyMove(limit, s, move), b) {
        assert Indexed(s, b);
      }
    case MigrateStep(from, to, now) =>
      if Migrate(limit, s, from, to, now).1.None? {
        MigrationKeepsExactly(limit, s, from, to, now);
      }
    case RetryStep(from, to, now) => AttemptKeepsExactly(limit, s, from, to, now);
  }

  lemma OtherStepsKeep(limit: nat, s: State, step: Step)
    requires ActiveInv(s) && !step.UpdateStep?
    ensures ActiveInv(Apply(limit, s, step))
  {
    var s' := Apply(limit, s, step);
    match step
    case SetStep(a) =>
      forall b | b in s'.accounts && s'.accounts[b].isActive ensures Indexed(s', b) {
        if b in s.accounts {
          assert Indexed(s, b);
        }
      }
    case RoleStep(address, role, now) =>
      if address in s.accounts {
        QuietUpdateKeepsActive(s, s.accounts[address].(role := role, activity := now));
      }
    case TouchStep(now) =>
      forall b | b in s'.accounts && s'.accounts[b].isActive ensures Indexed(s', b) {
        assert Indexed(s, b);
      }
    case DeleteStep(address) =>
      forall b | b in s'.accounts && s'.accounts[b].isActive ensures Indexed(s', b) {
        assert Indexed(s, b);
      }
  }

  ghost predicate ActiveThroughout(limit: nat, moves: seq<MoveStep>) {
    ActiveInv(RunMoves(limit, moves)) && (moves != [] ==> ActiveThroughout(limit, moves[..|moves| - 1]))
  }

  ghost predicate EveryMoveKeeps(limit: nat, moves: seq<MoveStep>) {
    moves != [] ==>
      && EveryMoveKeeps(limit, moves[..|moves| - 1])
      && MoveKeeps(limit, RunMoves(limit, moves[..|moves| - 1]), moves[|moves| - 1])
  }

  /** On any run of moves the index is right for all active accounts in every state if and only if
      every update and every migration meets its own condition. */
  lemma {:induction false} MovesKeepExactly(limit: nat, moves: seq<MoveStep>)
    ensures ActiveThroughout(limit, moves) <==> EveryMoveKeeps(limit, moves)
  {
    if moves != [] {
      MovesKeepExactly(limit, moves[..|moves| - 1]);
      if ActiveThroughout(limit, moves[..|moves| - 1]) {
        MoveKeepsExactly(limit, RunMoves(limit, moves[..|moves| - 1]), moves[|moves| - 1]);
      }
    }
  }

  /** Updates keep the hash and reactivate nobody; migrations that succeed start from an active
      source; none fails halfway. */
  ghost predicate Careful(limit: nat, moves: seq<MoveStep>) {
    moves != [] ==>
      && Careful(limit, moves[..|moves| - 1])
      && (var s := RunMoves(limit, moves[..|moves| - 1]);
          match moves[|moves| - 1]
          case Plain(UpdateStep(a)) =>
            a.address in s.accounts ==>
              a.hash == s.accounts[a.address].hash && (a.isActive ==> s.accounts[a.address].isActive)
          case MigrateStep(from, to, now) =>
            Migrate(limit, s, from, to, now).1.None? ==> from in s.accounts && s.accounts[from].isActive
          case RetryStep(from, to, now) =>
            && (MigrationError(s, from, to).None? ==> Migrate(limit, s, from, to, now).1.None?)
            && (from in s.accounts ==> s.accounts[from].isActive)
          case _ => true)
  }

  /** With migrations from active sources and such updates, the index agrees for all active accounts
      on every run. */
  lemma {:induction false} MovesKeepActive(limit: nat, moves: seq<MoveStep>)
    requires Careful(limit, moves)
    ensures ActiveInv(RunMoves(limit, moves))
  {
    if moves != [] {
      var before := moves[..|moves| - 1];
      MovesKeepActive(limit, before);
      var s := RunMoves(limit, before);
      match moves[|moves| - 1] {
        case Plain(UpdateStep(a)) => QuietUpdateKeepsActive(s, a);
        case MigrateStep(from, to, now) =>
          if Migrate(limit, s, from, to, now).1.None? {
            ActiveSourceKeeps(limit, s, from, to, now);
          }
        case RetryStep(from, to, now) =>
          if MigrationError(s, from, to).None? {
            ActiveSourceKeeps(limit, s, from, to, now);
          }
        case move => MoveKeepsExactly(limit, s, move);
      }
    }
  }

  // ---------- Two runs that break it ----------

  /** "old" registers, migrates its hash to "new", and is then updated. */
  function MigratedThen(update: Account): seq<MoveStep> {
    [Plain(SetStep(Account("old", Citizen, true, "h", 0))), RequestMigration("old", "new", "h"),
     MigrateStep("old", "new", 0), Plain(UpdateStep(update))]
  }

  lemma AfterMigration(update: Account)
    ensures var s := RunMoves(10000, MigratedThen(update)[..3]);
      && s.accounts == map["old" := Account("old", Citizen, false, "h", 0),
                           "new" := Account("new", Citizen, true, "h", 0)]
      && s.index == map["h" := "new"] && ActiveInv(s)
  {
    var moves := MigratedThen(update);
    var source := Account("old", Citizen, true, "h", 0);
    assert moves[..3][..2] == moves[..2] && moves[..2][..1] == moves[..1] && moves[..1][..0] == [];
    FirstAccount(source, map[]);
    assert RunMoves(10000, moves[..1]) == State(map["old" := source], map["h" := "old"], map[]);
    MigratesAlone(source, "new", RunMoves(10000, moves[..2]));
  }

  lemma MigratesAlone(source: Account, to: string, s: State)
    requires s.accounts == map[source.address := source] && s.index == map[source.hash := source.address]
    requires MigrationKey(source.address, to) in s.migrations
    requires s.migrations[MigrationKey(source.address, to)] == Migration(source.hash, false)
    requires AccountError(source).None? && source.isActive && source.activity == 0
    requires to != source.address && to != ""
    ensures var (s', e) := Migrate(10000, s, source.address, to, 0);
      && e.None? && s'.index == map[source.hash := to] && ActiveInv(s')
      && s'.accounts == map[source.address := source.(isActive := false), to := source.(address := to)]
  {
    var target := Target(s, source.address, to, 0);
    assert target == source.(address := to);
    assert SetError(10000, Released(s, source.address, to), target).None?;
    MigratedState(10000, s, source.address, to, 0);
    var s' := Migrate(10000, s, source.address, to, 0).0;
    assert Indexed(s', to);
  }

  /** Reactivating the migrated source, and moving the inactive source to another hash, each leave the
      active target without its index entry. */
  lemma UpdatesBreak(update: Account)
    requires update == Account("old", Citizen, true, "h", 0) || update == Account("old", Citizen, false, "k", 0)
    ensures ActiveInv(RunMoves(10000, MigratedThen(update)[..3]))
    ensures !ActiveInv(RunMoves(10000, MigratedThen(update)))
  {
    var moves := MigratedThen(update);
    AfterMigration(update);
    assert "h"[0] != "k"[0] && "old"[0] != "new"[0];
    assert moves[..|moves| - 1] == moves[..3];
    UpdateKeepsExactly(RunMoves(10000, moves[..3]), update);
  }
}
