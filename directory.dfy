/** The `user` table as a directory: who reports to whom (the lookups of
    `filter_tasks`), and the resolve-or-create step of `index`. */
module Directory {
  import opened Schema

  /** `u` is a row whose `manager` is `m`: a direct report of `m`. */
  ghost predicate ReportsTo(users: map<UserId, User>, u: UserId, m: UserId) {
    u in users && users[u].manager == Some(m)
  }

  /** `db(db.user.manager == m).select(db.user.id)`: the ids of the direct reports of `m`. */
  function DirectReports(users: map<UserId, User>, m: UserId): (r: set<UserId>)
    ensures forall u :: u in r <==> ReportsTo(users, u, m)
  {
    set u | u in users && users[u].manager == Some(m)
  }

  /** A report of a report is not a direct report, unless it names `m` itself. */
  lemma ReportsAreDirect(users: map<UserId, User>, u: UserId, v: UserId, m: UserId)
    requires ReportsTo(users, v, m) && ReportsTo(users, u, v) && v != m
    ensures u !in DirectReports(users, m)
  {
  }

  /** What the identity provider knows of the signed-in user. */
  datatype Identity = Identity(username: string, firstName: string, lastName: string, email: string)

  /** The row `index` inserts for an unknown email: display name
      "first last", no manager. */
  function NewUser(ident: Identity): (u: User)
    ensures u.username == ident.username && u.email == ident.email && u.manager == None
    ensures u.name == ident.firstName + " " + ident.lastName
  {
    User(ident.username, ident.firstName + " " + ident.lastName, ident.email, None)
  }

  /** `db(db.user.email == email).select().first()`, as an id. */
  ghost function LookupByEmail(users: map<UserId, User>, email: string): (r: Option<UserId>)
    ensures r.Some? ==> r.value in users && users[r.value].email == email
    ensures r.None? <==> forall u :: u in users ==> users[u].email != email
  {
    if exists u :: u in users && users[u].email == email then
      var u :| u in users && users[u].email == email; Some(u)
    else None
  }

  /** With unique emails the lookup has only one possible answer. */
  lemma LookupUnique(users: map<UserId, User>, email: string, u: UserId)
    requires EmailsUnique(users) && u in users && users[u].email == email
    ensures LookupByEmail(users, email) == Some(u)
  {
  }

  /** Row ids start at 1 and stay below `next`, the id the next insert gets. */
  ghost predicate IdsBelow(users: map<UserId, User>, next: UserId) {
    0 < next && forall u :: u in users ==> 0 < u < next
  }

  /** The user rows, the next free id and the id `index` ends up with. */
  datatype Resolved = Resolved(users: map<UserId, User>, next: UserId, id: UserId)

  /** The resolve-or-create step of `index`: find the row by email, insert
      one under the next id when there is none. */
  ghost function ResolveOrCreate(users: map<UserId, User>, next: UserId, ident: Identity): (r: Resolved)
    requires IdsBelow(users, next)
    ensures IdsBelow(r.users, r.next)
    ensures r.id in r.users && r.users[r.id].email == ident.email
    ensures forall u :: u in users ==> u in r.users && r.users[u] == users[u]
    ensures LookupByEmail(users, ident.email).Some? ==> r.users == users && r.next == next
    ensures LookupByEmail(users, ident.email).None? ==>
      r.users == users[next := NewUser(ident)] && r.next == next + 1 && r.id == next
  {
    match LookupByEmail(users, ident.email)
    case Some(u) => Resolved(users, next, u)
    case None => Resolved(users[next := NewUser(ident)], next + 1, next)
  }

  /** Resolve-or-create keeps the directory's invariants. */
  lemma ResolveKeepsInvariants(users: map<UserId, User>, next: UserId, ident: Identity)
    requires IdsBelow(users, next) && ManagersExist(users) && EmailsUnique(users)
    ensures ManagersExist(ResolveOrCreate(users, next, ident).users)
    ensures EmailsUnique(ResolveOrCreate(users, next, ident).users)
  {
    ResolveKeepsUnique(users, next, ident);
  }

  /** Calling `index` twice with the same identity changes nothing the
      second time and yields the same user id: no duplicate row. */
  lemma {:induction false} ResolveIdempotent(users: map<UserId, User>, next: UserId, ident: Identity)
    requires IdsBelow(users, next) && EmailsUnique(users)
    ensures var r1 := ResolveOrCreate(users, next, ident);
            var r2 := ResolveOrCreate(r1.users, r1.next, ident);
            r2 == r1
  {
    var r1 := ResolveOrCreate(users, next, ident);
    ResolveKeepsUnique(users, next, ident);
    LookupUnique(r1.users, ident.email, r1.id);
  }

  lemma ResolveKeepsUnique(users: map<UserId, User>, next: UserId, ident: Identity)
    requires IdsBelow(users, next) && EmailsUnique(users)
    ensures EmailsUnique(ResolveOrCreate(users, next, ident).users)
  {
    var r := ResolveOrCreate(users, next, ident);
    if LookupByEmail(users, ident.email).None? {
      forall u, v | u in r.users && v in r.users && r.users[u].email == r.users[v].email
        ensures u == v
      {
      }
    }
  }
}
