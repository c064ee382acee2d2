/**
 * RoleController: the role listing, the role edit page with its filtered
 * permission groups, and the role update. The update's transaction has no
 * `catch`, so a failure there (`fails`) rolls back and surfaces as a server
 * error.
 */
module RoleController {
  import opened Common
  import opened AccessModel

  function RoleName(r: Role): string { r.name }
  function GroupName(g: PermissionGroup): string { g.name }

  /**
   * `index`: page `page` of the roles whose name contains the `name` filter,
   * when one is given; an array filter throws.
   */
  function Index(roles: seq<Role>, name: Value, page: Value): (r: Answer<seq<Role>>)
    ensures !r.BindingMissing?
    ensures r.Thrown? <==> LikeThrows(name)
    ensures r.Rendered? ==> |r.props| <= PerPage && forall x :: x in r.props ==> x in roles && LikeKeeps(name, x.name)
    ensures !Truthy(name) ==> r == Rendered(PageOf(roles, CurrentPage(page)))
    ensures Truthy(name) && !name.List? ==> r == Rendered(PageOf(Where(roles, LikeFilter(name, RoleName)), CurrentPage(page)))
    ensures r.Rendered? && CurrentPage(page) == 1 && (exists x :: x in roles && LikeKeeps(name, x.name)) ==> r.props != []
  {
    match FilteredPage(roles, name, RoleName, page)
    case None => Thrown
    case Some(shown) => Rendered(shown)
  }

  datatype EditPage = EditPage(role: Role, groups: seq<PermissionGroup>)

  /**
   * `edit`: the bound role (404 without one) and a page of the groups whose
   * name contains the filter; an array filter throws.
   */
  function Edit(roles: seq<Role>, groups: seq<PermissionGroup>, roleId: nat, name: Value, page: Value)
    : (r: Answer<EditPage>)
    ensures r.BindingMissing? <==> PositionOf(roles, RoleId, roleId).None?
    ensures r.Thrown? <==> PositionOf(roles, RoleId, roleId).Some? && LikeThrows(name)
    ensures r.Rendered? ==> r.props.role in roles && r.props.role.id == roleId
    ensures r.Rendered? ==> (|r.props.groups| <= PerPage &&
      forall g :: g in r.props.groups ==> g in groups && LikeKeeps(name, g.name))
    ensures r.Rendered? && !Truthy(name) ==> r.props.groups == PageOf(groups, CurrentPage(page))
    ensures r.Rendered? && Truthy(name) ==> r.props.groups == PageOf(Where(groups, LikeFilter(name, GroupName)), CurrentPage(page))
    ensures r.Rendered? && CurrentPage(page) == 1 && (exists g :: g in groups && LikeKeeps(name, g.name)) ==>
      r.props.groups != []
  {
    match PositionOf(roles, RoleId, roleId)
    case None => BindingMissing
    case Some(k) =>
      match FilteredPage(groups, name, GroupName, page)
      case None => Thrown
      case Some(shown) => Rendered(EditPage(roles[k], shown))
  }

  /** `name` is a non-blank string of at most 255 characters; nothing else is validated. */
  function UpdateErrors(name: Value): (errors: set<string>)
    ensures errors <= {"name"}
    ensures errors == {} <==> Required(name) && name.Str? && |name.s| <= 255
  {
    if Required(name) && IsString(name) && |name.s| <= 255 then {} else {"name"}
  }

  datatype UpdateOutcome =
    | UpdateNotFound
    | UpdateInvalid(fields: set<string>)
    | ServerError
    | RedirectToEdit(roleId: nat, flash: Flash)

  /**
   * `update`: the bound role (404 without one) gets the request's name and
   * its `description` as sent, NULL when not sent and unvalidated otherwise;
   * id and guard are kept, and no other role changes.
   */
  method Update(db: AccessTables, roleId: nat, name: Value, description: Value, fails: bool)
    returns (outcome: UpdateOutcome)
    modifies db`roles
    ensures PositionOf(old(db.roles), RoleId, roleId).None? ==>
      outcome == UpdateNotFound && db.roles == old(db.roles)
    ensures PositionOf(old(db.roles), RoleId, roleId).Some? && UpdateErrors(name) != {} ==>
      outcome == UpdateInvalid(UpdateErrors(name)) && db.roles == old(db.roles)
    ensures PositionOf(old(db.roles), RoleId, roleId).Some? && UpdateErrors(name) == {} && fails ==>
      outcome == ServerError && db.roles == old(db.roles)
    ensures PositionOf(old(db.roles), RoleId, roleId).Some? && UpdateErrors(name) == {} && !fails ==>
      var k := PositionOf(old(db.roles), RoleId, roleId).value;
      outcome == RedirectToEdit(roleId, Success("Role updated successfully")) &&
      |db.roles| == |old(db.roles)| &&
      db.roles[k] == old(db.roles)[k].(name := name.s, description := description) &&
      forall i :: 0 <= i < |db.roles| && i != k ==> db.roles[i] == old(db.roles)[i]
  {
    var found := PositionOf(db.roles, RoleId, roleId);
    if found.None? {
      return UpdateNotFound;
    }
    var errors := UpdateErrors(name);
    if errors != {} {
      return UpdateInvalid(errors);
    }
    if fails {
      return ServerError;
    }
    var k := found.value;
    db.roles := db.roles[k := db.roles[k].(name := name.s, description := description)];
    outcome := RedirectToEdit(roleId, Success("Role updated successfully"));
  }
}
