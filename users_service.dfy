/** `UsersService`: read-only lookups of a user together with all of its accounts. */
module UsersService {
  import opened Wrappers
  import opened Seqs
  import opened Text
  import opened Store

  /** A user row with `include: { accounts: true }`. */
  datatype UserWithAccounts = UserWithAccounts(user: User, accounts: seq<Account>)

  /** The rows of the account table that belong to `userId`, in table order. */
  function AccountsOf(accounts: seq<Account>, userId: Id): (r: seq<Account>)
    ensures forall i :: 0 <= i < |r| ==> r[i] in accounts && r[i].userId == userId
    ensures forall i :: 0 <= i < |accounts| && accounts[i].userId == userId ==> accounts[i] in r
    ensures (forall i :: 0 <= i < |accounts| ==> accounts[i].userId != userId) ==> r == []
  {
    var r := Filter(accounts, (a: Account) => a.userId == userId);
    assert r != [] ==> r[0] in accounts;
    r
  }

  /** `accounts: { some: { providerUserId } }` for the user `userId`. */
  predicate HasAccountNamed(accounts: seq<Account>, userId: Id, providerUserId: string) {
    exists k :: 0 <= k < |accounts| && accounts[k].userId == userId && accounts[k].providerUserId == providerUserId
  }

  /** The three-way `OR` of `findByIdentifier`: the lower-cased identifier as e-mail, the
      identifier verbatim as phone, or the identifier verbatim as some account's provider id. */
  predicate MatchesIdentifier(accounts: seq<Account>, identifier: string, u: User) {
    u.email == Some(ToLower(identifier)) || u.phone == Some(identifier)
    || HasAccountNamed(accounts, u.id, identifier)
  }

  /** `findByIdentifier(identifier)`: the first user in table order that matches, with its
      accounts; `None` exactly when no user matches. */
  function FindByIdentifier(users: seq<User>, accounts: seq<Account>, identifier: string): (r: Option<UserWithAccounts>)
    ensures r.Some? ==> r.value.user in users && MatchesIdentifier(accounts, identifier, r.value.user)
    ensures r.Some? ==> r.value.accounts == AccountsOf(accounts, r.value.user.id)
    ensures r.None? <==> forall i :: 0 <= i < |users| ==> !MatchesIdentifier(accounts, identifier, users[i])
  {
    match FirstIndex(users, (u: User) => MatchesIdentifier(accounts, identifier, u))
    case None => None
    case Some(i) => Some(UserWithAccounts(users[i], AccountsOf(accounts, users[i].id)))
  }

  /** `findById(id)`: the user with exactly that id, with its accounts, or `None`. */
  function FindById(users: seq<User>, accounts: seq<Account>, id: Id): (r: Option<UserWithAccounts>)
    ensures r.Some? ==> r.value.user in users && r.value.user.id == id
    ensures r.Some? ==> r.value.accounts == AccountsOf(accounts, id)
    ensures r.None? <==> forall i :: 0 <= i < |users| ==> users[i].id != id
  {
    match UserIndex(users, id)
    case None => None
    case Some(i) => Some(UserWithAccounts(users[i], AccountsOf(accounts, id)))
  }

  /** With unique e-mails, a user registered under a lower-case e-mail is the one found for
      every spelling of it that lower-cases to it, when no earlier row matches otherwise. */
  lemma FindByEmail(users: seq<User>, accounts: seq<Account>, next: Id, k: nat, identifier: string)
    requires UsersOk(users, next) && k < |users| && users[k].email == Some(ToLower(identifier))
    requires forall j :: 0 <= j < k ==> !MatchesIdentifier(accounts, identifier, users[j])
    ensures FindByIdentifier(users, accounts, identifier) == Some(UserWithAccounts(users[k], AccountsOf(accounts, users[k].id)))
  {
    var i := FirstIndex(users, (u: User) => MatchesIdentifier(accounts, identifier, u));
    assert MatchesIdentifier(accounts, identifier, users[k]);
    assert i.Some? && i.value <= k;
  }

  /** Every row found by id is unique: with increasing ids there is no other row with the id. */
  lemma FindByIdUnique(users: seq<User>, accounts: seq<Account>, next: Id, k: nat)
    requires UsersOk(users, next) && k < |users|
    ensures FindById(users, accounts, users[k].id) == Some(UserWithAccounts(users[k], AccountsOf(accounts, users[k].id)))
  {
    var i := UserIndex(users, users[k].id);
    assert i.Some?;
  }
}
