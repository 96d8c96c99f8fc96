/** Which accounts are registered, changed, deleted and migrated, read off the state alone. */
module IdentityRules {
  import opened Wrappers
  import opened Identity

  ghost predicate Complete(a: Account) {
    a.address != "" && a.hash != "" && a.role != Unspecified
  }

  /** Fewer than the limit of stored accounts have the role, which is citizen or validator. */
  ghost predicate RoomFor(s: State, role: Role, limit: nat) {
    && (role == Citizen || role == Validator)
    && |set a | a in s.accounts && s.accounts[a].role == role| < limit
  }

  /** A registration is accepted if and only if address, hash and role are given, the address is new, the
      hash is nobody's, and, for limits below 10000, there is room for the role. */
  lemma SetAcceptedExactly(limit: nat, s: State, a: Account)
    ensures Set(limit, s, a).1.None? <==>
      && Complete(a) && a.address !in s.accounts && a.hash !in s.index
      && (limit >= 10000 || RoomFor(s, a.role, limit))
    ensures Set(limit, s, a).0 ==
      if Set(limit, s, a).1.Some? then s
      else State(s.accounts[a.address := a], s.index[a.hash := a.address], s.migrations)
  {
  }

  /** A refused registration or update names a requirement that is really not met. */
  lemma RefusedRightly(limit: nat, s: State, a: Account)
    ensures match Set(limit, s, a).1
      case None => true
      case Some(EmptyAddress) => a.address == ""
      case Some(EmptyHash) => a.hash == ""
      case Some(InvalidRole) => a.role == Unspecified || (limit < 10000 && a.role == Guest)
      case Some(AlreadyExists) => a.address in s.accounts
      case Some(DuplicateHash) => a.hash in s.index
      case Some(LimitExceeded) =>
        limit < 10000 && |set b | b in s.accounts && s.accounts[b].role == a.role| >= limit
      case Some(_) => false
    ensures match Update(s, a).1
      case None => true
      case Some(EmptyAddress) => a.address == ""
      case Some(EmptyHash) => a.hash == ""
      case Some(InvalidRole) => a.role == Unspecified
      case Some(NotFound) => a.address !in s.accounts
      case Some(DuplicateHash) => a.hash in s.index && s.index[a.hash] != a.address
      case Some(_) => false
  {
  }

  /** An update is accepted if and only if address, hash and role are given, the account is stored, and a
      new hash is not somebody else's. It stores the account and moves its index entry. */
  lemma UpdateAcceptedExactly(s: State, a: Account)
    ensures Update(s, a).1.None? <==>
      && Complete(a) && a.address in s.accounts
      && (a.hash == s.accounts[a.address].hash || a.hash !in s.index || s.index[a.hash] == a.address)
    ensures var s' := Update(s, a).0;
      if Update(s, a).1.Some? then s' == s
      else
        && s'.accounts == s.accounts[a.address := a] && s'.migrations == s.migrations
        && (forall h :: h in s'.index <==>
              if s.accounts[a.address].hash == a.hash then h in s.index
              else h == a.hash || (h in s.index && h != s.accounts[a.address].hash))
        && (s.accounts[a.address].hash != a.hash ==> s'.index[a.hash] == a.address)
        && (forall h :: h in s'.index && (h != a.hash || s.accounts[a.address].hash == a.hash) ==>
              s'.index[h] == s.index[h])
  {
  }

  /** A deletion takes the account away and leaves the index. */
  lemma DeleteExactly(s: State, address: string)
    ensures Delete(s, address).1.None? <==> address in s.accounts
    ensures var s' := Delete(s, address).0;
      && s'.index == s.index && s'.migrations == s.migrations
      && forall a :: (a in s'.accounts <==> a in s.accounts && a != address)
           && (a in s'.accounts ==> s'.accounts[a] == s.accounts[a])
  {
  }

  /** A role change is accepted if and only if the account is stored and there is room for the new role,
      which cannot be guest. It changes this account's role and activity time and nothing else. */
  lemma RoleChangeExactly(limit: nat, s: State, address: string, role: Role, now: int)
    requires ValidAccounts(s)
    ensures ChangeRole(limit, s, address, role, now).1.None? <==> address in s.accounts && RoomFor(s, role, limit)
    ensures var s' := ChangeRole(limit, s, address, role, now).0;
      if ChangeRole(limit, s, address, role, now).1.Some? then s' == s
      else
        && s'.accounts.Keys == s.accounts.Keys && s'.index == s.index && s'.migrations == s.migrations
        && s'.accounts[address].role == role && s'.accounts[address].activity == now
        && s'.accounts[address].(role := s.accounts[address].role, activity := s.accounts[address].activity)
           == s.accounts[address]
        && forall a :: a in s.accounts && a != address ==> s'.accounts[a] == s.accounts[a]
  {
  }

  /** A refusal names a requirement that is really not met. */
  lemma RoleChangeRefusedRightly(limit: nat, s: State, address: string, role: Role, now: int)
    requires ValidAccounts(s)
    ensures match ChangeRole(limit, s, address, role, now).1
      case None => true
      case Some(NotFound) => address !in s.accounts
      case Some(DowngradeRefused) =>
        address in s.accounts && role == Guest && s.accounts[address].role in {Citizen, Validator}
      case Some(InvalidRole) =>
        role == Unspecified || (role == Guest && address in s.accounts && s.accounts[address].role == Guest)
      case Some(LimitExceeded) => |set a | a in s.accounts && s.accounts[a].role == role| >= limit
      case Some(_) => false
  {
  }

  /** The end of a block sets every account's activity time and changes nothing else. */
  lemma TouchExactly(s: State, now: int, a: string)
    ensures TouchAll(s, now).index == s.index && TouchAll(s, now).migrations == s.migrations
    ensures TouchAll(s, now).accounts.Keys == s.accounts.Keys
    ensures a in s.accounts ==>
      && TouchAll(s, now).accounts[a].activity == now
      && TouchAll(s, now).accounts[a].(activity := s.accounts[a].activity) == s.accounts[a]
  {
  }

  /** Everything a migration needs: it is requested and not done, the source is stored, the target is a new
      address, its hash is given and is nobody's but the source's, and, for limits below 10000, there is
      room for the source's role. */
  ghost predicate Migratable(limit: nat, s: State, from: string, to: string) {
    && from + "_" + to in s.migrations && !s.migrations[from + "_" + to].completed
    && from in s.accounts && to != "" && to !in s.accounts
    && (var hash := s.migrations[from + "_" + to].hash;
        hash != "" && (hash !in s.index || hash == s.accounts[from].hash))
    && (limit >= 10000 || RoomFor(s, s.accounts[from].role, limit))
  }

  /** A migration succeeds if and only if it has all of that. */
  lemma MigrationSucceedsExactly(limit: nat, s: State, from: string, to: string, now: int)
    requires ValidAccounts(s)
    ensures Migrate(limit, s, from, to, now).1.None? <==> Migratable(limit, s, from, to)
  {
    if MigrationError(s, from, to).None? {
      SetAcceptedExactly(limit, Released(s, from, to), Target(s, from, to, now));
      assert Released(s, from, to).accounts == s.accounts;
      if Migrate(limit, s, from, to, now).1.Some? {
        FailsAtTarget(limit, s, from, to, now);
      }
    }
  }

  /** A refusal names a requirement that is really not met. */
  lemma MigrationRefusedRightly(limit: nat, s: State, from: string, to: string, now: int)
    requires ValidAccounts(s)
    ensures match Migrate(limit, s, from, to, now).1
      case None => true
      case Some(MigrationNotFound) => from + "_" + to !in s.migrations
      case Some(AlreadyCompleted) => from + "_" + to in s.migrations && s.migrations[from + "_" + to].completed
      case Some(NotFound) => from !in s.accounts
      case Some(AlreadyExists) => to in s.accounts
      case Some(_) => from + "_" + to in s.migrations && from in s.accounts && !Migratable(limit, s, from, to)
  {
    MigrationSucceedsExactly(limit, s, from, to, now);
    if MigrationError(s, from, to).None? {
      assert Released(s, from, to).accounts == s.accounts;
      if Migrate(limit, s, from, to, now).1.Some? {
        FailsAtTarget(limit, s, from, to, now);
      }
    }
  }

  /** The target then has the source's role, the migrated hash and its index entry, and is active; the source
      is inactive and otherwise as before; the migration is done; everything else stays. */
  lemma MigrationRecords(limit: nat, s: State, from: string, to: string, now: int)
    requires ValidAccounts(s) && Migrate(limit, s, from, to, now).1.None?
    ensures from in s.accounts && from + "_" + to in s.migrations && from != to
    ensures var s' := Migrate(limit, s, from, to, now).0;
      var hash := s.migrations[from + "_" + to].hash;
      && s'.accounts.Keys == s.accounts.Keys + {to}
      && s'.accounts[to] == Account(to, s.accounts[from].role, true, hash, now)
      && s'.accounts[from] == s.accounts[from].(isActive := false)
      && (forall a :: a in s.accounts && a != from ==> s'.accounts[a] == s.accounts[a])
      && hash in s'.index && s'.index[hash] == to
      && (forall h :: h != hash ==> (h in s'.index <==> h in s.index) && (h in s.index ==> s'.index[h] == s.index[h]))
      && s'.migrations == s.migrations[from + "_" + to := Migration(hash, true)]
  {
    MigratedState(limit, s, from, to, now);
  }
}
