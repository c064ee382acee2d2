/**
 * PermissionController: the permission-group listing and edit page, the
 * group update, and `add_role`, which gives or revokes one permission of one
 * role. Transaction failures are the parameter `fails`.
 */
module PermissionController {
  import opened Common
  import opened AccessModel

  function GroupName(g: PermissionGroup): string { g.name }
  function RoleName(r: Role): string { r.name }

  /**
   * `index`: page `page` of the groups whose name contains the `name` filter,
   * when one is given; an array filter throws.
   */
  function Index(groups: seq<PermissionGroup>, name: Value, page: Value): (r: Answer<seq<PermissionGroup>>)
    ensures !r.BindingMissing?
    ensures r.Thrown? <==> LikeThrows(name)
    ensures r.Rendered? ==> |r.props| <= PerPage && forall g :: g in r.props ==> g in groups && LikeKeeps(name, g.name)
    ensures !Truthy(name) ==> r == Rendered(PageOf(groups, CurrentPage(page)))
    ensures Truthy(name) && !name.List? ==> r == Rendered(PageOf(Where(groups, LikeFilter(name, GroupName)), CurrentPage(page)))
    ensures r.Rendered? && CurrentPage(page) == 1 && (exists g :: g in groups && LikeKeeps(name, g.name)) ==> r.props != []
  {
    match FilteredPage(groups, name, GroupName, page)
    case None => Thrown
    case Some(shown) => Rendered(shown)
  }

  datatype EditPage = EditPage(group: PermissionGroup, roles: seq<Role>)

  /**
   * `edit`: the bound group (404 without one) and a page of the roles whose
   * name contains the filter; an array filter throws.
   */
  function Edit(groups: seq<PermissionGroup>, roles: seq<Role>, groupId: nat, name: Value, page: Value)
    : (r: Answer<EditPage>)
    ensures r.BindingMissing? <==> PositionOf(groups, GroupId, groupId).None?
    ensures r.Thrown? <==> PositionOf(groups, GroupId, groupId).Some? && LikeThrows(name)
    ensures r.Rendered? ==> r.props.group in groups && r.props.group.id == groupId
    ensures r.Rendered? ==> (|r.props.roles| <= PerPage &&
      forall x :: x in r.props.roles ==> x in roles && LikeKeeps(name, x.name))
    ensures r.Rendered? && !Truthy(name) ==> r.props.roles == PageOf(roles, CurrentPage(page))
    ensures r.Rendered? && Truthy(name) ==> r.props.roles == PageOf(Where(roles, LikeFilter(name, RoleName)), CurrentPage(page))
    ensures r.Rendered? && CurrentPage(page) == 1 && (exists x :: x in roles && LikeKeeps(name, x.name)) ==>
      r.props.roles != []
  {
    match PositionOf(groups, GroupId, groupId)
    case None => BindingMissing
    case Some(k) =>
      match FilteredPage(roles, name, RoleName, page)
      case None => Thrown
      case Some(shown) => Rendered(EditPage(groups[k], shown))
  }

  // ---------------------------------------------------------------------------
  // update

  /** `name` is a non-blank string of at most 255 characters; `description` is NULL (or absent) or a string. */
  function UpdateErrors(name: Value, description: Value): (errors: set<string>)
    ensures errors <= {"name", "description"}
    ensures "name" !in errors <==> Required(name) && name.Str? && |name.s| <= 255
    ensures "description" !in errors <==> description.Null? || description.Str?
  {
    (if Required(name) && IsString(name) && |name.s| <= 255 then {} else {"name"}) +
    (if description.Null? || IsString(description) then {} else {"description"})
  }

  /** `$validated['description'] ?? null`. */
  function ValidatedDescription(description: Value): (r: Option<string>)
    ensures r.Some? <==> description.Str?
    ensures r.Some? ==> r.value == description.s
  {
    if description.Str? then Some(description.s) else None
  }

  datatype UpdateOutcome =
    | UpdateNotFound
    | UpdateInvalid(fields: set<string>)
    | RedirectToEdit(groupId: nat, flash: Flash)

  const UpdatedMessage := "Permission updated successfully"
  const FailedMessage := "Something is wrong.."

  /**
   * `update`: the bound group (404 without one) gets the validated name and
   * description; its id and guard are kept, and no other group changes. Both
   * the failure and the success redirect back to the group's edit page.
   */
  method Update(db: AccessTables, groupId: nat, name: Value, description: Value, fails: bool)
    returns (outcome: UpdateOutcome)
    requires db.Valid()
    modifies db`groups
    ensures db.Valid()
    ensures PositionOf(old(db.groups), GroupId, groupId).None? ==>
      outcome == UpdateNotFound && db.groups == old(db.groups)
    ensures PositionOf(old(db.groups), GroupId, groupId).Some? && UpdateErrors(name, description) != {} ==>
      outcome == UpdateInvalid(UpdateErrors(name, description)) && db.groups == old(db.groups)
    ensures PositionOf(old(db.groups), GroupId, groupId).Some? && UpdateErrors(name, description) == {} && fails ==>
      outcome == RedirectToEdit(groupId, Error(FailedMessage)) && db.groups == old(db.groups)
    ensures PositionOf(old(db.groups), GroupId, groupId).Some? && UpdateErrors(name, description) == {} && !fails ==>
      var k := PositionOf(old(db.groups), GroupId, groupId).value;
      outcome == RedirectToEdit(groupId, Success(UpdatedMessage)) &&
      db.groups == old(db.groups)[k := old(db.groups)[k].(name := name.s, description := ValidatedDescription(description))]
  {
    var found := PositionOf(db.groups, GroupId, groupId);
    if found.None? {
      return UpdateNotFound;
    }
    var errors := UpdateErrors(name, description);
    if errors != {} {
      return UpdateInvalid(errors);
    }
    if fails {
      return RedirectToEdit(groupId, Error(FailedMessage));
    }
    SetGroup(db, found.value, name.s, ValidatedDescription(description));
    outcome := RedirectToEdit(groupId, Success(UpdatedMessage));
  }

  /** Replaces the name and description of the group at `k`. */
  method SetGroup(db: AccessTables, k: nat, name: string, description: Option<string>)
    requires db.Valid() && k < |db.groups|
    modifies db`groups
    ensures db.Valid()
    ensures db.groups == old(db.groups)[k := old(db.groups)[k].(name := name, description := description)]
  {
    ghost var before := db.groups;
    db.groups := db.groups[k := db.groups[k].(name := name, description := description)];
    assert forall i :: 0 <= i < |db.groups| ==> db.groups[i].id == before[i].id;
  }

  // ---------------------------------------------------------------------------
  // add_role

  /**
   * `givePermissionTo`, given the permissions as one model or a collection:
   * the role is linked to each of them afterwards, and no other pair changes.
   */
  function Give(links: set<(nat, nat)>, roleId: nat, permissionIds: set<nat>): (r: set<(nat, nat)>)
    ensures forall p :: p in permissionIds ==> (roleId, p) in r
    ensures forall x: (nat, nat) :: !(x.0 == roleId && x.1 in permissionIds) ==> (x in r <==> x in links)
  {
    links + set p | p in permissionIds :: (roleId, p)
  }

  /** `revokePermissionTo`: the role is linked to none of them afterwards, and no other pair changes. */
  function Revoke(links: set<(nat, nat)>, roleId: nat, permissionIds: set<nat>): (r: set<(nat, nat)>)
    ensures forall p :: p in permissionIds ==> (roleId, p) !in r
    ensures forall x: (nat, nat) :: !(x.0 == roleId && x.1 in permissionIds) ==> (x in r <==> x in links)
  {
    links - set p | p in permissionIds :: (roleId, p)
  }

  /** Giving permissions twice is giving them once. */
  lemma GiveIdempotent(links: set<(nat, nat)>, roleId: nat, permissionIds: set<nat>)
    ensures Give(Give(links, roleId, permissionIds), roleId, permissionIds) == Give(links, roleId, permissionIds)
  {
  }

  /** Revoking permissions twice is revoking them once. */
  lemma RevokeIdempotent(links: set<(nat, nat)>, roleId: nat, permissionIds: set<nat>)
    ensures Revoke(Revoke(links, roleId, permissionIds), roleId, permissionIds) == Revoke(links, roleId, permissionIds)
  {
  }

  /** Giving then revoking permissions the role did not have restores the links. */
  lemma RevokeUndoesGive(links: set<(nat, nat)>, roleId: nat, permissionIds: set<nat>)
    requires forall p :: p in permissionIds ==> (roleId, p) !in links
    ensures Revoke(Give(links, roleId, permissionIds), roleId, permissionIds) == links
  {
  }

  /** Revoking then giving back permissions the role had restores the links. */
  lemma GiveUndoesRevoke(links: set<(nat, nat)>, roleId: nat, permissionIds: set<nat>)
    requires forall p :: p in permissionIds ==> (roleId, p) in links
    ensures Give(Revoke(links, roleId, permissionIds), roleId, permissionIds) == links
  {
  }

  datatype AddRoleOutcome = GroupNotFound | Json(status: int, message: string)

  const AddedMessage := "Permission added successfully"
  const RevokedMessage := "Permission revoke successfully"

  /** The ids of the permissions a `find` result holds. */
  function PermissionIds(found: Found<Permission>): (ids: set<nat>)
    ensures forall id :: id in ids <==> exists p :: p in FoundRows(found) && p.id == id
  {
    set p | p in FoundRows(found) :: p.id
  }

  /**
   * What `add_role` answers. The bound group must exist (404) but is not
   * otherwise used. The permission is looked up first, then the role; each
   * answers 404 only when `find` gives null, since a collection is truthy. A
   * collection of roles has no `givePermissionTo`, so the call throws and the
   * answer is the 400 the catch gives, as for any exception from the package
   * (`fails`). Otherwise `checked` decides between giving and revoking.
   */
  function AddRoleAnswer(groups: seq<PermissionGroup>, permissions: seq<Permission>, roles: seq<Role>,
                         groupId: nat, permission: Value, role: Value, checked: Value, fails: bool): (o: AddRoleOutcome)
    ensures o == GroupNotFound <==> PositionOf(groups, GroupId, groupId).None?
    ensures o == Json(404, "No Permission found") <==>
      PositionOf(groups, GroupId, groupId).Some? && Find(permissions, PermissionId, permission).NoRow?
    ensures o == Json(404, "No Role found") <==>
      PositionOf(groups, GroupId, groupId).Some? && !Find(permissions, PermissionId, permission).NoRow? &&
      Find(roles, RoleId, role).NoRow?
    ensures o == Json(400, FailedMessage) <==>
      PositionOf(groups, GroupId, groupId).Some? && !Find(permissions, PermissionId, permission).NoRow? &&
      !Find(roles, RoleId, role).NoRow? && (fails || Find(roles, RoleId, role).Rows?)
    ensures o == Json(200, AddedMessage) <==>
      PositionOf(groups, GroupId, groupId).Some? && !Find(permissions, PermissionId, permission).NoRow? &&
      Find(roles, RoleId, role).Row? && !fails && Truthy(checked)
    ensures o == Json(200, RevokedMessage) <==>
      PositionOf(groups, GroupId, groupId).Some? && !Find(permissions, PermissionId, permission).NoRow? &&
      Find(roles, RoleId, role).Row? && !fails && !Truthy(checked)
  {
    if PositionOf(groups, GroupId, groupId).None? then GroupNotFound
    else if Find(permissions, PermissionId, permission).NoRow? then Json(404, "No Permission found")
    else if Find(roles, RoleId, role).NoRow? then Json(404, "No Role found")
    else if fails || Find(roles, RoleId, role).Rows? then Json(400, FailedMessage)
    else if Truthy(checked) then Json(200, AddedMessage)
    else Json(200, RevokedMessage)
  }

  /**
   * `add_role`: answers as `AddRoleAnswer`; only the two 200 answers write,
   * linking or unlinking the found role and every found permission.
   */
  method AddRole(db: AccessTables, groupId: nat, permission: Value, role: Value, checked: Value, fails: bool)
    returns (outcome: AddRoleOutcome)
    modifies db`rolePermissions
    ensures outcome == AddRoleAnswer(db.groups, db.permissions, db.roles, groupId, permission, role, checked, fails)
    ensures outcome != Json(200, AddedMessage) && outcome != Json(200, RevokedMessage) ==>
      db.rolePermissions == old(db.rolePermissions)
    ensures outcome == Json(200, AddedMessage) ==>
      db.rolePermissions == Give(old(db.rolePermissions), Find(db.roles, RoleId, role).row.id,
        PermissionIds(Find(db.permissions, PermissionId, permission)))
    ensures outcome == Json(200, RevokedMessage) ==>
      db.rolePermissions == Revoke(old(db.rolePermissions), Find(db.roles, RoleId, role).row.id,
        PermissionIds(Find(db.permissions, PermissionId, permission)))
  {
    outcome := AddRoleAnswer(db.groups, db.permissions, db.roles, groupId, permission, role, checked, fails);
    if outcome == Json(200, AddedMessage) {
      var r := Find(db.roles, RoleId, role).row;
      db.rolePermissions := Give(db.rolePermissions, r.id, PermissionIds(Find(db.permissions, PermissionId, permission)));
    } else if outcome == Json(200, RevokedMessage) {
      var r := Find(db.roles, RoleId, role).row;
      db.rolePermissions := Revoke(db.rolePermissions, r.id, PermissionIds(Find(db.permissions, PermissionId, permission)));
    }
  }
}
