/**
 * The access-control tables: users, roles, permission groups, permissions, and
 * the two link tables of the permission package (a role's permissions, a
 * user's roles). The controllers of this area and the permission seeder work
 * on one `AccessTables`, each changing only the fields its frame names.
 */
module AccessModel {
  import opened Common

  /** A role; `description` holds whatever the update request sent. */
  datatype Role = Role(id: nat, name: string, guardName: string, description: Value)

  datatype PermissionGroup = PermissionGroup(id: nat, name: string, guardName: string, description: Option<string>)

  datatype Permission = Permission(id: nat, name: string, guardName: string, groupId: nat)

  /** A user; `password` is the stored hash. */
  datatype User = User(id: nat, name: string, email: string, password: string)

  function RoleId(r: Role): nat { r.id }
  function PermissionId(p: Permission): nat { p.id }
  function GroupId(g: PermissionGroup): nat { g.id }
  function UserKey(u: User): nat { u.id }
  /** The sort key of `orderBy('id', 'desc')`. */
  function UserId(u: User): int { u.id }

  /** A redirect's flash message. */
  datatype Flash = Success(message: string) | Error(message: string)

  /** Keys assigned in increasing order, all below the next key to hand out. */
  ghost predicate KeysBelow<T>(xs: seq<T>, key: T -> nat, next: nat) {
    (forall i :: 0 <= i < |xs| ==> key(xs[i]) < next) &&
    (forall i, j :: 0 <= i < j < |xs| ==> key(xs[i]) < key(xs[j]))
  }

  /** Appending a row with the next key, then advancing the key, keeps keys ordered. */
  lemma {:induction false} KeysBelowAppend<T>(xs: seq<T>, key: T -> nat, next: nat, x: T)
    requires KeysBelow(xs, key, next) && key(x) == next
    ensures KeysBelow(xs + [x], key, next + 1)
  {
    var ys := xs + [x];
    assert forall i :: 0 <= i < |xs| ==> ys[i] == xs[i];
  }

  /** Deleting rows keeps the remaining keys ordered and below the next key. */
  lemma {:induction false} KeysBelowWhere<T(!new)>(xs: seq<T>, key: T -> nat, next: nat, p: T -> bool)
    requires KeysBelow(xs, key, next)
    ensures KeysBelow(Where(xs, p), key, next)
  {
    WherePairwise(xs, p, (a: T, b: T) => key(a) < key(b));
    var ys := Where(xs, p);
    forall i | 0 <= i < |ys| ensures key(ys[i]) < next {
      assert ys[i] in xs;
    }
  }

  class AccessTables {
    var users: seq<User>
    var roles: seq<Role>
    var groups: seq<PermissionGroup>
    var permissions: seq<Permission>
    /** `role_has_permissions`: (role id, permission id). */
    var rolePermissions: set<(nat, nat)>
    /** `model_has_roles` for users: (user id, role id). */
    var userRoles: set<(nat, nat)>
    var nextUserId: nat
    var nextGroupId: nat
    var nextPermissionId: nat

    ghost predicate Valid()
      reads this
    {
      KeysBelow(users, UserKey, nextUserId) &&
      KeysBelow(groups, GroupId, nextGroupId) &&
      KeysBelow(permissions, PermissionId, nextPermissionId)
    }

    constructor (roles: seq<Role>)
      ensures Valid()
      ensures this.roles == roles && users == [] && groups == [] && permissions == []
      ensures rolePermissions == {} && userRoles == {}
      ensures nextUserId == 1 && nextGroupId == 1 && nextPermissionId == 1
    {
      this.roles := roles;
      users := [];
      groups := [];
      permissions := [];
      rolePermissions := {};
      userRoles := {};
      nextUserId := 1;
      nextGroupId := 1;
      nextPermissionId := 1;
    }
  }
}
