/**
 * The role edit page: the switch states it keeps per permission id, what a
 * toggle does with them once the server answers, the label each switch
 * shows, and the guard that freezes the Admin role.
 *
 * The request itself is not modelled; its outcome is a parameter, and the
 * route it is sent to names an action RoleController lacks. The HTTP
 * client rejects any status outside 200-299, so such an answer takes the
 * same path as a network error.
 */
module RolesEdit {
  import opened Common
  import PermissionSeeder

  /** What the permission toggle request ends in. */
  datatype Response = Answered(status: int) | NetworkError

  /** Whether the client resolves (rather than rejects) with this outcome. */
  predicate Resolves(r: Response) {
    r.Answered? && 200 <= r.status < 300
  }

  /**
   * The switch states the page starts from: every permission the role holds
   * is on, and no other id has an entry. A role sent without a permission
   * list starts from no entry at all.
   */
  function InitialStates(permissions: Option<seq<nat>>): (m: map<nat, bool>)
    ensures forall id :: id in m <==> permissions.Some? && id in permissions.value
    ensures forall id :: id in m ==> m[id]
  {
    if permissions.Some? then map id | id in permissions.value :: true else map[]
  }

  /** `states[id] || false`: an id without an entry reads as off. */
  predicate IsOn(states: map<nat, bool>, id: nat) {
    id in states && states[id]
  }

  /**
   * The switch states once the request for `permId` has ended: a 200 answer
   * stores the requested value, another resolved status leaves everything
   * as it was, and a rejection stores the opposite of the requested value.
   */
  function Settled(states: map<nat, bool>, permId: nat, checked: bool, r: Response): (m: map<nat, bool>)
    ensures r.Answered? && r.status == 200 ==> permId in m && m[permId] == checked
    ensures Resolves(r) && r.status != 200 ==> m == states
    ensures !Resolves(r) ==> permId in m && m[permId] == !checked
    ensures forall id :: id != permId ==> (id in m <==> id in states)
    ensures forall id :: id != permId && id in states ==> m[id] == states[id]
  {
    if Resolves(r) then
      if r.status == 200 then states[permId := checked] else states
    else states[permId := !checked]
  }

  /** Only the toggled switch can change what it shows. */
  lemma SettledKeepsOthers(states: map<nat, bool>, permId: nat, checked: bool, r: Response, id: nat)
    requires id != permId
    ensures IsOn(Settled(states, permId, checked, r), id) == IsOn(states, id)
  {
  }

  /**
   * A failed toggle reverts: when the user flips a switch away from what it
   * showed and the request fails, the switch shows what it showed before.
   */
  lemma FailedToggleReverts(states: map<nat, bool>, permId: nat, checked: bool, r: Response)
    requires IsOn(states, permId) == !checked
    requires !Resolves(r)
    ensures IsOn(Settled(states, permId, checked, r), permId) == IsOn(states, permId)
  {
  }

  /** A 200 answer makes the switch show what the user asked for. */
  lemma SucceededToggleShows(states: map<nat, bool>, permId: nat, checked: bool, r: Response)
    requires r.Answered? && r.status == 200
    ensures IsOn(Settled(states, permId, checked, r), permId) == checked
  {
  }

  /** The actions RoleController defines. */
  function RoleControllerActions(): set<string> {
    {"index", "edit", "update"}
  }

  /** The action the `role.add.permission` route names. */
  const AddPermissionAction := "add_permission"

  /**
   * What the page receives for a request routed to `action`: the handler's
   * answer when the controller defines the action, and otherwise Laravel's
   * answer to the BadMethodCallException it throws, a 500.
   */
  function RouteAnswer(actions: set<string>, action: string, handled: Response): (r: Response)
    ensures action in actions ==> r == handled
    ensures action !in actions ==> !Resolves(r)
  {
    if action in actions then handled else Answered(500)
  }

  /**
   * As written, every toggle reverts: the route names an action RoleController
   * lacks, so whatever the handler would answer, the switch flipped away from
   * what it showed goes back to it.
   */
  lemma ToggleAsWrittenReverts(states: map<nat, bool>, permId: nat, checked: bool, handled: Response)
    requires IsOn(states, permId) == !checked
    ensures IsOn(Settled(states, permId, checked,
      RouteAnswer(RoleControllerActions(), AddPermissionAction, handled)), permId) == !checked
  {
    FailedToggleReverts(states, permId, checked, RouteAnswer(RoleControllerActions(), AddPermissionAction, handled));
  }

  /** With the action defined and answering 200, the switch shows what the user asked for. */
  lemma ToggleWithActionShows(states: map<nat, bool>, permId: nat, checked: bool)
    ensures IsOn(Settled(states, permId, checked,
      RouteAnswer(RoleControllerActions() + {AddPermissionAction}, AddPermissionAction, Answered(200))), permId) == checked
  {
    SucceededToggleShows(states, permId, checked, Answered(200));
  }

  /** What a permission's switch renders: on or off, disabled while its request runs, and its label. */
  datatype SwitchView = SwitchView(on: bool, disabled: bool, text: Option<string>)

  /**
   * `perm.name.split('.')[1]`: the text between the first and second dot,
   * or nothing (JavaScript's undefined) when the name has no dot.
   */
  function SwitchFor(states: map<nat, bool>, loading: map<nat, bool>, id: nat, name: string): (v: SwitchView)
    ensures v.on <==> id in states && states[id]
    ensures v.disabled <==> id in loading && loading[id]
    ensures v.text == PermissionSeeder.SecondSegment(name)
    ensures v.text.None? <==> '.' !in name
  {
    SwitchView(IsOn(states, id), IsOn(loading, id), PermissionSeeder.SecondSegment(name))
  }

  /** A name the seeder generates shows its access level, 'read' or 'write'. */
  lemma SeededNameShowsSuffix(states: map<nat, bool>, loading: map<nat, bool>, id: nat, text: string, k: nat)
    requires '.' !in text
    ensures SwitchFor(states, loading, id, PermissionSeeder.PermissionName(text, PermissionSeeder.Suffix(k))).text
      == Some(if k % 2 == 0 then "read" else "write")
  {
    PermissionSeeder.SuffixesDiffer(k, k + 1);
    PermissionSeeder.DisplayedLabel(text, PermissionSeeder.Suffix(k));
  }

  /** What stands below the role's form: the searchable permission table, or the Admin message. */
  datatype Panel = PermissionTable | AllPermissionsMessage

  /** The page's two role-dependent parts: whether the name input is disabled, and the panel. */
  datatype PageView = PageView(nameDisabled: bool, panel: Panel)

  /** The Admin role's name cannot be edited and its permissions cannot be toggled; any other role's can. */
  function PageFor(roleName: string): (v: PageView)
    ensures v.nameDisabled <==> roleName == "Admin"
    ensures v.panel == AllPermissionsMessage <==> roleName == "Admin"
    ensures v.nameDisabled <==> v.panel == AllPermissionsMessage
  {
    if roleName == "Admin" then PageView(true, AllPermissionsMessage) else PageView(false, PermissionTable)
  }

  /** The page's per-permission state: switch values and request-in-flight flags. */
  class PermissionPanel {
    var permissionStates: map<nat, bool>
    var loadingStates: map<nat, bool>

    /** The page opens with the role's permissions on and no request running. */
    constructor (permissions: Option<seq<nat>>)
      ensures permissionStates == InitialStates(permissions)
      ensures loadingStates == map[]
    {
      permissionStates := InitialStates(permissions);
      loadingStates := map[];
    }

    /** The effect that runs again when the role's permission list changes: the switch states are rebuilt from it. */
    method LoadRolePermissions(permissions: Option<seq<nat>>)
      modifies this`permissionStates
      ensures permissionStates == InitialStates(permissions)
    {
      permissionStates := InitialStates(permissions);
    }

    /** The start of `handlePermissionToggle`: the switch is disabled while its request runs. */
    method StartToggle(permId: nat)
      modifies this`loadingStates
      ensures loadingStates == old(loadingStates)[permId := true]
    {
      loadingStates := loadingStates[permId := true];
    }

    /** The end of `handlePermissionToggle`: the outcome settles the switch, and the switch is enabled again whatever it was. */
    method FinishToggle(permId: nat, checked: bool, r: Response)
      modifies this`permissionStates, this`loadingStates
      ensures permissionStates == Settled(old(permissionStates), permId, checked, r)
      ensures loadingStates == old(loadingStates)[permId := false]
    {
      if Resolves(r) {
        if r.status == 200 {
          permissionStates := permissionStates[permId := checked];
        }
      } else {
        permissionStates := permissionStates[permId := !checked];
      }
      loadingStates := loadingStates[permId := false];
    }

    /** A whole toggle, from the click to the end of the request. */
    method HandlePermissionToggle(permId: nat, checked: bool, r: Response)
      modifies this`permissionStates, this`loadingStates
      ensures permissionStates == Settled(old(permissionStates), permId, checked, r)
      ensures loadingStates == old(loadingStates)[permId := false]
    {
      StartToggle(permId);
      FinishToggle(permId, checked, r);
    }
  }
}
