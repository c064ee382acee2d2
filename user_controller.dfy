/**
 * UserController: the filtered user listing, and the four writes on the
 * users table and the user-role links. Each write but `destroy` runs in a
 * transaction whose failure (`fails`) writes nothing and goes back with the
 * 'Something is wrong' flash. `Hash::make` is salted, so the hash it returns
 * is a parameter.
 */
module UserController {
  import opened Common
  import opened AccessModel

  function UserName(u: User): string { u.name }
  function UserEmail(u: User): string { u.email }

  /** A user the two `when` filters keep: each filter applies only when its term is truthy. */
  predicate UserMatches(u: User, name: Value, email: Value) {
    LikeKeeps(name, u.name) && LikeKeeps(email, u.email)
  }

  /** The row test of both filters together. */
  function MatchFilter(name: Value, email: Value): User -> bool {
    (u: User) => UserMatches(u, name, email)
  }

  /**
   * `index`: the users whose name and email contain the corresponding filters
   * (each applied only when given), newest id first, ten per page; an array
   * filter throws.
   */
  function Index(users: seq<User>, name: Value, email: Value, page: Value): (r: Answer<seq<User>>)
    ensures !r.BindingMissing?
    ensures r.Thrown? <==> LikeThrows(name) || LikeThrows(email)
    ensures r.Rendered? ==> |r.props| <= PerPage
    ensures r.Rendered? ==> forall u :: u in r.props ==> u in users && UserMatches(u, name, email)
    ensures r.Rendered? ==> Descending(r.props, UserId)
    ensures r.Rendered? ==> r.props == PageOf(SortByKeyDesc(Where(users, MatchFilter(name, email)), UserId), CurrentPage(page))
    ensures !Truthy(name) && !Truthy(email) ==> r == Rendered(PageOf(SortByKeyDesc(users, UserId), CurrentPage(page)))
  {
    match WhenLike(users, name, UserName)
    case None => Thrown
    case Some(byName) =>
      match WhenLike(byName, email, UserEmail)
      case None => Thrown
      case Some(both) =>
        WhenLikeIsWhere(users, name, UserName, KeepFilter(name, UserName));
        WhenLikeIsWhere(byName, email, UserEmail, KeepFilter(email, UserEmail));
        WhereThenWhere(users, KeepFilter(name, UserName), KeepFilter(email, UserEmail), MatchFilter(name, email));
        var sorted := SortByKeyDesc(both, UserId);
        PageOfDescending(sorted, CurrentPage(page), UserId);
        Rendered(PageOf(sorted, CurrentPage(page)))
  }

  /** The first page is never empty while some user matches, and opens with the newest match. */
  lemma {:induction false} IndexFirstPageNewest(users: seq<User>, name: Value, email: Value, page: Value, u: User)
    requires !LikeThrows(name) && !LikeThrows(email)
    requires CurrentPage(page) == 1
    requires u in users && UserMatches(u, name, email)
    ensures Index(users, name, email, page).Rendered?
    ensures Index(users, name, email, page).props != []
    ensures Index(users, name, email, page).props[0].id >= u.id
  {
    var matching := Where(users, MatchFilter(name, email));
    assert u in matching;
    var sorted := SortByKeyDesc(matching, UserId);
    assert u in sorted;
    var j :| 0 <= j < |sorted| && sorted[j] == u;
    assert UserId(sorted[0]) >= UserId(sorted[j]);
    assert Index(users, name, email, page).props[0] == sorted[0];
  }

  /** Over distinct ids the listing is strictly newest first. */
  lemma {:induction false} IndexStrictlyDescending(users: seq<User>, name: Value, email: Value, page: Value)
    requires forall i, j :: 0 <= i < j < |users| ==> users[i].id != users[j].id
    ensures Index(users, name, email, page).Rendered? ==> StrictlyDescending(Index(users, name, email, page).props, UserId)
  {
    var distinct := (a: User, b: User) => a.id != b.id;
    WherePairwise(users, MatchFilter(name, email), distinct);
    var matching := Where(users, MatchFilter(name, email));
    SortByKeyDescStrict(matching, UserId);
    var sorted := SortByKeyDesc(matching, UserId);
    PageOfStrictlyDescending(sorted, CurrentPage(page), UserId);
  }

  // ---------------------------------------------------------------------------
  // Validation

  /**
   * The `email` rule, simplified: exactly one '@', with something on either
   * side of it.
   */
  predicate IsEmailAddress(s: string) {
    exists k :: 0 < k < |s| - 1 && s[k] == '@' && '@' !in s[..k] && '@' !in s[k + 1..]
  }

  predicate IsEmail(v: Value) {
    v.Str? && IsEmailAddress(v.s)
  }

  /** `unique:users,email[,except]`: no user other than `except` holds the address. */
  predicate EmailUnused(users: seq<User>, email: Value, except: Option<nat>) {
    forall u :: u in users && (except.None? || u.id != except.value) ==> u.email != TextOf(email)
  }

  /** `required`, `Password::defaults()` (a string of at least eight characters) and `confirmed`. */
  predicate PasswordAccepted(password: Value, confirmation: Value) {
    Required(password) && password.Str? && |password.s| >= 8 && confirmation == password
  }

  /** No two users share an email address. */
  predicate UniqueEmails(users: seq<User>) {
    forall i, j :: 0 <= i < j < |users| ==> users[i].email != users[j].email
  }

  /** The fields `store` reads. */
  datatype UserRequest = UserRequest(name: Value, email: Value, role: Value, password: Value, confirmation: Value)

  function StoreErrors(users: seq<User>, req: UserRequest): (errors: set<string>)
    ensures errors <= {"name", "email", "role", "password"}
    ensures "name" !in errors <==> Required(req.name) && req.name.Str?
    ensures "email" !in errors <==> Required(req.email) && IsEmail(req.email) && EmailUnused(users, req.email, None)
    ensures "role" !in errors <==> Required(req.role)
    ensures "password" !in errors <==> PasswordAccepted(req.password, req.confirmation)
  {
    FieldErrors(
      "name", Required(req.name) && IsString(req.name),
      "email", Required(req.email) && IsEmail(req.email) && EmailUnused(users, req.email, None),
      "role", Required(req.role),
      "password", PasswordAccepted(req.password, req.confirmation))
  }

  /** The fields `update` reads; the user's own address does not count as taken. */
  function UpdateErrors(users: seq<User>, userId: nat, name: Value, email: Value, role: Value): (errors: set<string>)
    ensures errors <= {"name", "email", "role"}
    ensures "name" !in errors <==> Required(name) && name.Str?
    ensures "email" !in errors <==> Required(email) && IsEmail(email) && EmailUnused(users, email, Some(userId))
    ensures "role" !in errors <==> Required(role)
  {
    FieldErrors(
      "name", Required(name) && IsString(name),
      "email", Required(email) && IsEmail(email) && EmailUnused(users, email, Some(userId)),
      "role", Required(role),
      "password", true)  // `update` has no password rule
  }

  /** Keeping one's own address passes the update's uniqueness rule whenever addresses are unique. */
  lemma {:induction false} OwnEmailAccepted(users: seq<User>, k: nat)
    requires k < |users| && UniqueEmails(users)
    requires forall i, j :: 0 <= i < j < |users| ==> users[i].id != users[j].id
    ensures EmailUnused(users, Str(users[k].email), Some(users[k].id))
  {
    forall u | u in users && u.id != users[k].id ensures u.email != users[k].email {
      var i :| 0 <= i < |users| && users[i] == u;
      assert i != k;
    }
  }

  // ---------------------------------------------------------------------------
  // Writes

  datatype Outcome =
    | NotFound
    | Invalid(fields: set<string>)
    | Back(flash: Flash)
    | ToIndex(page: Option<int>, flash: Flash)
    | ToEdit(userId: nat, flash: Flash)

  const FailedMessage := "Something is wrong"

  /**
   * `attach(Role::find($role))`: a link to each role found, so none for null,
   * one for a single role and one per row of a collection.
   */
  function RoleLink(userId: nat, found: Found<Role>): (links: set<(nat, nat)>)
    ensures forall l :: l in links <==> exists r :: r in FoundRows(found) && l == (userId, r.id)
  {
    set r | r in FoundRows(found) :: (userId, r.id)
  }

  /** The values `sync($role)` links to: each element of an array, or the one value. */
  function SyncedValues(role: Value): (vs: seq<Value>)
    ensures role.List? ==> |vs| == |role.items| && forall i :: 0 <= i < |vs| ==> vs[i] == Str(role.items[i])
    ensures !role.List? ==> vs == [role]
  {
    if role.List? then seq(|role.items|, i requires 0 <= i < |role.items| => Str(role.items[i])) else [role]
  }

  /** Every value `sync` links to names a role; any other breaks the link table's foreign key. */
  predicate SyncResolves(roles: seq<Role>, role: Value)
    ensures !role.List? ==> (SyncResolves(roles, role) <==> FindById(roles, RoleId, role).Some?)
    ensures role.List? && role.items == [] ==> SyncResolves(roles, role)
  {
    forall v :: v in SyncedValues(role) ==> FindById(roles, RoleId, v).Some?
  }

  /** The role ids the user holds after `sync`: exactly those the values denote. */
  function SyncedRoleIds(roles: seq<Role>, role: Value): (ids: set<nat>)
    requires SyncResolves(roles, role)
    ensures forall id :: id in ids <==> exists v :: v in SyncedValues(role) && DenotesId(v, id)
    ensures forall id :: id in ids ==> exists r :: r in roles && r.id == id
  {
    set v | v in SyncedValues(role) :: FindById(roles, RoleId, v).value.id
  }

  /** The user's links removed. */
  function WithoutUser(links: set<(nat, nat)>, userId: nat): (r: set<(nat, nat)>)
    ensures forall x :: x in r <==> x in links && x.0 != userId
  {
    set x | x in links && x.0 != userId
  }

  /** Appending a user whose address no one holds keeps addresses unique. */
  lemma {:induction false} UniqueEmailsAppend(users: seq<User>, u: User)
    requires UniqueEmails(users) && forall v :: v in users ==> v.email != u.email
    ensures UniqueEmails(users + [u])
  {
    var all := users + [u];
    forall i, j | 0 <= i < j < |all| ensures all[i].email != all[j].email {
      if j == |users| {
        assert all[i] in users;
      }
    }
  }

  /**
   * What `store` answers: 422 with the failing fields, the failure flash when
   * the transaction throws, and otherwise the redirect to the index. A
   * request that passes carries a name and an address no user holds.
   */
  function StoreOutcome(users: seq<User>, req: UserRequest, fails: bool): (o: Outcome)
    ensures StoreErrors(users, req) != {} ==> o == Invalid(StoreErrors(users, req))
    ensures StoreErrors(users, req) == {} && fails ==> o == Back(Error(FailedMessage))
    ensures o.ToIndex? <==> StoreErrors(users, req) == {} && !fails
    ensures o.ToIndex? ==>
      o == ToIndex(None, Success("User Created Successfully")) &&
      req.name.Str? && req.email.Str? && forall v :: v in users ==> v.email != req.email.s
  {
    if StoreErrors(users, req) != {} then Invalid(StoreErrors(users, req))
    else if fails then Back(Error(FailedMessage))
    else ToIndex(None, Success("User Created Successfully"))
  }

  /**
   * `store`: a valid request creates exactly one user with the request's name
   * and email and the given password hash, and links it to the role the
   * `role` value names, if any.
   */
  method Store(db: AccessTables, req: UserRequest, hash: string, fails: bool) returns (outcome: Outcome)
    requires db.Valid()
    modifies db`users, db`userRoles, db`nextUserId
    ensures db.Valid()
    ensures outcome == StoreOutcome(old(db.users), req, fails)
    ensures !outcome.ToIndex? ==>
      db.users == old(db.users) && db.userRoles == old(db.userRoles) && db.nextUserId == old(db.nextUserId)
    ensures outcome.ToIndex? ==>
      db.users == old(db.users) + [User(old(db.nextUserId), req.name.s, req.email.s, hash)] &&
      db.nextUserId == old(db.nextUserId) + 1 &&
      db.userRoles == old(db.userRoles) + RoleLink(old(db.nextUserId), Find(db.roles, RoleId, req.role))
    ensures UniqueEmails(old(db.users)) ==> UniqueEmails(db.users)
  {
    outcome := StoreOutcome(db.users, req, fails);
    if outcome.ToIndex? {
      AddUser(db, req.name.s, req.email.s, hash, Find(db.roles, RoleId, req.role));
    }
  }

  /** Inserts the user with the next id, and its role link. */
  method AddUser(db: AccessTables, name: string, email: string, hash: string, role: Found<Role>)
    requires db.Valid()
    modifies db`users, db`userRoles, db`nextUserId
    ensures db.Valid()
    ensures db.users == old(db.users) + [User(old(db.nextUserId), name, email, hash)]
    ensures db.nextUserId == old(db.nextUserId) + 1
    ensures db.userRoles == old(db.userRoles) + RoleLink(old(db.nextUserId), role)
    ensures UniqueEmails(old(db.users)) && (forall v :: v in old(db.users) ==> v.email != email) ==>
      UniqueEmails(db.users)
  {
    var u := User(db.nextUserId, name, email, hash);
    if UniqueEmails(db.users) && forall v :: v in db.users ==> v.email != email {
      UniqueEmailsAppend(db.users, u);
    }
    KeysBelowAppend(db.users, UserKey, db.nextUserId, u);
    db.users := db.users + [u];
    db.nextUserId := db.nextUserId + 1;
    db.userRoles := db.userRoles + RoleLink(u.id, role);
  }

  /**
   * What `update` answers: 404 without the user, 422 with the failing fields,
   * the failure flash when the transaction throws or some value `sync` links
   * to names no role, and otherwise the redirect back to the edit page.
   */
  function UpdateOutcome(users: seq<User>, roles: seq<Role>, userId: nat, name: Value, email: Value, role: Value,
                         fails: bool): (o: Outcome)
    ensures o == NotFound <==> PositionOf(users, UserKey, userId).None?
    ensures PositionOf(users, UserKey, userId).Some? && UpdateErrors(users, userId, name, email, role) != {} ==>
      o == Invalid(UpdateErrors(users, userId, name, email, role))
    ensures (PositionOf(users, UserKey, userId).Some? && UpdateErrors(users, userId, name, email, role) == {} &&
             (fails || !SyncResolves(roles, role))) ==> o == Back(Error(FailedMessage))
    ensures o.ToEdit? <==>
      (PositionOf(users, UserKey, userId).Some? && UpdateErrors(users, userId, name, email, role) == {} &&
       !fails && SyncResolves(roles, role))
    ensures o.ToEdit? ==> o == ToEdit(userId, Success("User update successfully")) && name.Str? && email.Str?
  {
    if PositionOf(users, UserKey, userId).None? then NotFound
    else if UpdateErrors(users, userId, name, email, role) != {} then Invalid(UpdateErrors(users, userId, name, email, role))
    else if fails || !SyncResolves(roles, role) then Back(Error(FailedMessage))
    else ToEdit(userId, Success("User update successfully"))
  }

  /**
   * `update`: the bound user (404 without one) gets the new name and email,
   * and its roles become exactly those the `role` value (one id or an array
   * of them) denotes. A value that names no role breaks the link table's
   * foreign key, which fails the transaction like any other exception.
   */
  method Update(db: AccessTables, userId: nat, name: Value, email: Value, role: Value, fails: bool)
    returns (outcome: Outcome)
    requires db.Valid()
    modifies db`users, db`userRoles
    ensures db.Valid()
    ensures outcome == UpdateOutcome(old(db.users), db.roles, userId, name, email, role, fails)
    ensures !outcome.ToEdit? ==> db.users == old(db.users) && db.userRoles == old(db.userRoles)
    ensures outcome.ToEdit? ==>
      var k := PositionOf(old(db.users), UserKey, userId).value;
      db.users == old(db.users)[k := old(db.users)[k].(name := name.s, email := email.s)] &&
      db.userRoles == WithoutUser(old(db.userRoles), userId) + (set id | id in SyncedRoleIds(db.roles, role) :: (userId, id))
    ensures UniqueEmails(old(db.users)) ==> UniqueEmails(db.users)
  {
    outcome := UpdateOutcome(db.users, db.roles, userId, name, email, role, fails);
    if outcome.ToEdit? {
      Rewrite(db, PositionOf(db.users, UserKey, userId).value, name.s, email.s, SyncedRoleIds(db.roles, role));
    }
  }

  /** Replaces the name and email of the user at `k`, and makes `roleIds` its roles. */
  method Rewrite(db: AccessTables, k: nat, name: string, email: string, roleIds: set<nat>)
    requires db.Valid() && k < |db.users|
    modifies db`users, db`userRoles
    ensures db.Valid()
    ensures db.users == old(db.users)[k := old(db.users)[k].(name := name, email := email)]
    ensures db.userRoles == WithoutUser(old(db.userRoles), old(db.users)[k].id) + (set id | id in roleIds :: (old(db.users)[k].id, id))
    ensures UniqueEmails(old(db.users)) && (forall u :: u in old(db.users) && u.id != old(db.users)[k].id ==> u.email != email) ==>
      UniqueEmails(db.users)
  {
    ghost var before := db.users;
    var userId := db.users[k].id;
    db.users := db.users[k := db.users[k].(name := name, email := email)];
    assert forall i :: 0 <= i < |db.users| ==> db.users[i].id == before[i].id;
    if UniqueEmails(before) && forall u :: u in before && u.id != userId ==> u.email != email {
      forall i, j | 0 <= i < j < |db.users| ensures db.users[i].email != db.users[j].email {
        if i == k {
          assert before[j] in before && before[j].id != userId;
        } else if j == k {
          assert before[i] in before && before[i].id != userId;
        }
      }
    }
    db.userRoles := WithoutUser(db.userRoles, userId) + (set id | id in roleIds :: (userId, id));
  }

  /** `update_password`: the bound user's stored hash is replaced, and nothing else changes. */
  method UpdatePassword(db: AccessTables, userId: nat, password: Value, confirmation: Value, hash: string, fails: bool)
    returns (outcome: Outcome)
    requires db.Valid()
    modifies db`users
    ensures db.Valid()
    ensures PositionOf(old(db.users), UserKey, userId).None? ==> outcome == NotFound
    ensures PositionOf(old(db.users), UserKey, userId).Some? && !PasswordAccepted(password, confirmation) ==>
      outcome == Invalid({"password"})
    ensures PositionOf(old(db.users), UserKey, userId).Some? && PasswordAccepted(password, confirmation) && fails ==>
      outcome == Back(Error(FailedMessage))
    ensures !outcome.ToEdit? ==> db.users == old(db.users)
    ensures PositionOf(old(db.users), UserKey, userId).Some? && PasswordAccepted(password, confirmation) && !fails ==>
      var k := PositionOf(old(db.users), UserKey, userId).value;
      outcome == ToEdit(userId, Success("Password update successfully")) &&
      db.users == old(db.users)[k := old(db.users)[k].(password := hash)]
    ensures UniqueEmails(old(db.users)) ==> UniqueEmails(db.users)
  {
    var found := PositionOf(db.users, UserKey, userId);
    if found.None? {
      return NotFound;
    }
    if !PasswordAccepted(password, confirmation) {
      return Invalid({"password"});
    }
    if fails {
      return Back(Error(FailedMessage));
    }
    SetPassword(db, found.value, hash);
    outcome := ToEdit(userId, Success("Password update successfully"));
  }

  /** Replaces the stored hash of the user at `k`. */
  method SetPassword(db: AccessTables, k: nat, hash: string)
    requires db.Valid() && k < |db.users|
    modifies db`users
    ensures db.Valid()
    ensures db.users == old(db.users)[k := old(db.users)[k].(password := hash)]
    ensures UniqueEmails(old(db.users)) ==> UniqueEmails(db.users)
  {
    ghost var before := db.users;
    db.users := db.users[k := db.users[k].(password := hash)];
    assert forall i :: 0 <= i < |db.users| ==> db.users[i].id == before[i].id && db.users[i].email == before[i].email;
  }

  /**
   * `destroy`: the bound user (404 without one) and its role links are
   * removed, and the redirect goes to the requested page, clamped to the last
   * page of the users that remain.
   */
  method Destroy(db: AccessTables, userId: nat, page: Option<int>) returns (outcome: Outcome)
    requires db.Valid()
    modifies db`users, db`userRoles
    ensures db.Valid()
    ensures PositionOf(old(db.users), UserKey, userId).None? ==>
      outcome == NotFound && db.users == old(db.users) && db.userRoles == old(db.userRoles)
    ensures PositionOf(old(db.users), UserKey, userId).Some? ==>
      (forall u :: u in db.users <==> u in old(db.users) && u.id != userId) &&
      |db.users| < |old(db.users)| &&
      db.userRoles == WithoutUser(old(db.userRoles), userId) &&
      outcome == ToIndex(RedirectPage(page, |db.users|), Success("User Deleted Successfully"))
    ensures UniqueEmails(old(db.users)) ==> UniqueEmails(db.users)
  {
    var found := PositionOf(db.users, UserKey, userId);
    if found.None? {
      return NotFound;
    }
    RemoveUser(db, userId, found.value);
    outcome := ToIndex(RedirectPage(page, |db.users|), Success("User Deleted Successfully"));
  }

  /** Deletes the user with the given id, found at `k`, and the user's role links. */
  method RemoveUser(db: AccessTables, userId: nat, k: nat)
    requires db.Valid() && k < |db.users| && db.users[k].id == userId
    modifies db`users, db`userRoles
    ensures db.Valid()
    ensures forall u :: u in db.users <==> u in old(db.users) && u.id != userId
    ensures |db.users| < |old(db.users)|
    ensures db.userRoles == WithoutUser(old(db.userRoles), userId)
    ensures UniqueEmails(old(db.users)) ==> UniqueEmails(db.users)
  {
    var keep := (u: User) => u.id != userId;
    KeysBelowWhere(db.users, UserKey, db.nextUserId, keep);
    if UniqueEmails(db.users) {
      WherePairwise(db.users, keep, (a: User, b: User) => a.email != b.email);
    }
    WhereShorter(db.users, keep, k);
    db.users := Where(db.users, keep);
    db.userRoles := WithoutUser(db.userRoles, userId);
  }

  /** Filtering out an element that fails the filter shortens the sequence. */
  lemma {:induction false} WhereShorter<T(!new)>(xs: seq<T>, p: T -> bool, k: nat)
    requires k < |xs| && !p(xs[k])
    ensures |Where(xs, p)| < |xs|
  {
    if k > 0 {
      WhereShorter(xs[1..], p, k - 1);
    }
  }
}
