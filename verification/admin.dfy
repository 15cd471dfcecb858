/**
 * The actions of the reservation admin controller that carry logic of their
 * own, as pure transitions from a store to a new store and a JSON-like
 * response.  Every action runs behind one authorization check.
 */
module ReservationAdmin {
  import opened ReservationStore
  import Explode

  /** The `error` field of a rejected resource type creation. */
  datatype ErrorCode = EmptyString | ResourceTypeExists

  datatype Response =
    | Created(id: int)      // `{"id": ...}`
    | Failed(code: ErrorCode)
    | Acknowledged          // an empty JSON response
    | NotFound              // the id in the route does not resolve to an entity
    | Unauthorized          // the admin tool may not be opened

  datatype Outcome = Outcome(store: Store, response: Response)

  /** The string a rejection carries in its `error` field. */
  function ErrorKey(code: ErrorCode): string
  {
    match code
    case EmptyString => "empty_string"
    case ResourceTypeExists => "resource_type_exists"
  }

  /**
   * `addNewResourceTypeAction`: an empty name is refused first, then a name
   * already in use; otherwise a type is inserted under the next
   * auto-increment id and that id is returned.
   */
  function AddNewResourceType(s: Store, name: string): (o: Outcome)
    ensures PhpEmpty(name) ==> o == Outcome(s, Failed(EmptyString))
    ensures !PhpEmpty(name) && name in s.types.Values ==> o == Outcome(s, Failed(ResourceTypeExists))
    ensures o.response.Created? <==> !PhpEmpty(name) && name !in s.types.Values
    ensures o.response.Created? ==>
      && o.store.types == s.types[o.response.id := name]
      && o.store.resources == s.resources
      && o.store.rights == s.rights
      && o.store.nextTypeId > o.response.id
    ensures Valid(s) && o.response.Created? ==> o.response.id !in s.types
    ensures Valid(s) ==> Valid(o.store)
  {
    if PhpEmpty(name) then Outcome(s, Failed(EmptyString))
    else if name in s.types.Values then Outcome(s, Failed(ResourceTypeExists))
    else
      var id := s.nextTypeId;
      Outcome(s.(types := s.types[id := name], nextTypeId := id + 1), Created(id))
  }

  /** `deleteResourceTypeAction`: removes exactly the given type. */
  function DeleteResourceType(s: Store, id: int): (o: Outcome)
    ensures id !in s.types ==> o == Outcome(s, NotFound)
    ensures id in s.types ==> o.response == Acknowledged
    ensures o.store.types.Keys == s.types.Keys - {id}
    ensures forall k :: k in o.store.types ==> o.store.types[k] == s.types[k]
    ensures o.store.resources == s.resources && o.store.rights == s.rights
    ensures o.store.nextTypeId == s.nextTypeId
    ensures Valid(s) ==> Valid(o.store)
  {
    if id !in s.types then Outcome(s, NotFound)
    else Outcome(s.(types := s.types - {id}), Acknowledged)
  }

  /** `deleteResourceAction`: removes exactly the given resource. */
  function DeleteResource(s: Store, id: int): (o: Outcome)
    ensures id !in s.resources ==> o == Outcome(s, NotFound)
    ensures id in s.resources ==> o.response == Acknowledged
    ensures o.store.resources.Keys == s.resources.Keys - {id}
    ensures forall k :: k in o.store.resources ==> o.store.resources[k] == s.resources[k]
    ensures o.store.types == s.types && o.store.rights == s.rights
    ensures o.store.nextTypeId == s.nextTypeId
    ensures Valid(s) ==> Valid(o.store)
  {
    if id !in s.resources then Outcome(s, NotFound)
    else Outcome(s.(resources := s.resources - {id}), Acknowledged)
  }

  /** The masks an update assigns on `resource`, one per role id in `ids`. */
  function RoleMasks(resource: int, ids: set<int>, maskByRole: seq<string>): (m: map<(int, int), Mask>)
    ensures forall id :: (resource, id) in m <==> id in ids
    ensures forall k :: k in m ==> k.0 == resource
  {
    map id | id in ids :: (resource, id) := MaskAt(maskByRole, id)
  }

  /**
   * `updateResourceRolesAction`, stated at once: every role of the rights
   * type gets, on this resource, the roles-list segment at its own id, or
   * 0 when the list has no such position; nothing else changes.
   */
  function UpdateResourceRoles(s: Store, directory: seq<Role>, resource: int, rolesList: string): (o: Outcome)
    ensures resource !in s.resources ==> o == Outcome(s, NotFound)
    ensures resource in s.resources ==> o.response == Acknowledged
    ensures resource in s.resources ==>
      var maskByRole := Explode.Split(rolesList, RolesDelimiter);
      forall r :: r in directory && r.roleType == RightsRoleType ==>
        (resource, r.id) in o.store.rights && o.store.rights[(resource, r.id)] == MaskAt(maskByRole, r.id)
    ensures forall k :: k in s.rights && (k.0 != resource || k.1 !in RightsRoleIds(directory)) ==>
      k in o.store.rights && o.store.rights[k] == s.rights[k]
    ensures forall k :: k in o.store.rights ==> k in s.rights || (k.0 == resource && k.1 in RightsRoleIds(directory))
    ensures o.store.types == s.types && o.store.resources == s.resources
    ensures o.store.nextTypeId == s.nextTypeId
    ensures Valid(s) ==> Valid(o.store)
  {
    if resource !in s.resources then Outcome(s, NotFound)
    else
      var maskByRole := Explode.Split(rolesList, RolesDelimiter);
      var masks := RoleMasks(resource, RightsRoleIds(directory), maskByRole);
      Outcome(s.(rights := s.rights + masks), Acknowledged)
  }

  /**
   * The reservation manager's `getResourceRightsByRoleAndResource`: the
   * rights record of the pair, created with mask 0 when there is none.
   * Returns the rights table afterwards and the record's mask.
   */
  function GetOrCreateRights(rights: map<(int, int), Mask>, resource: int, role: int): (r: (map<(int, int), Mask>, Mask))
    ensures (resource, role) in r.0 && r.0[(resource, role)] == r.1
    ensures (resource, role) in rights ==> r.0 == rights
    ensures (resource, role) !in rights ==> r.0 == rights[(resource, role) := Zero]
  {
    if (resource, role) in rights then (rights, rights[(resource, role)])
    else (rights[(resource, role) := Zero], Zero)
  }

  /**
   * `updateResourceRolesAction` as the controller runs it: explode the list,
   * then for each role of the rights type in turn, get or create its rights
   * record on the resource and overwrite the mask.
   */
  method ApplyResourceRoles(s: Store, directory: seq<Role>, resource: int, rolesList: string) returns (o: Outcome)
    ensures o == UpdateResourceRoles(s, directory, resource, rolesList)
  {
    if resource !in s.resources {
      return Outcome(s, NotFound);
    }
    var maskByRole := Explode.Split(rolesList, RolesDelimiter);
    var roles := RightsRoles(directory);
    var rights := s.rights;
    var i := 0;
    while i < |roles|
      invariant 0 <= i <= |roles|
      invariant rights == s.rights + RoleMasks(resource, IdsBefore(roles, i), maskByRole)
    {
      var role := roles[i];
      var created := GetOrCreateRights(rights, resource, role.id);
      SetAfterGetOrCreate(rights, resource, role.id, MaskAt(maskByRole, role.id));
      rights := created.0[(resource, role.id) := MaskAt(maskByRole, role.id)];
      RoleMasksStep(s.rights, resource, roles, i, maskByRole);
      i := i + 1;
    }
    IdsBeforeAll(directory, roles);
    UpdateResourceRolesFound(s, directory, resource, rolesList);
    o := Outcome(s.(rights := rights), Acknowledged);
  }

  /** Overwriting the mask makes the get-or-create step invisible. */
  lemma SetAfterGetOrCreate(rights: map<(int, int), Mask>, resource: int, role: int, m: Mask)
    ensures GetOrCreateRights(rights, resource, role).0[(resource, role) := m] == rights[(resource, role) := m]
  {
  }

  /** The update on a known resource, as one map union. */
  lemma UpdateResourceRolesFound(s: Store, directory: seq<Role>, resource: int, rolesList: string)
    requires resource in s.resources
    ensures UpdateResourceRoles(s, directory, resource, rolesList)
         == Outcome(s.(rights := s.rights + RoleMasks(resource, RightsRoleIds(directory),
                                                      Explode.Split(rolesList, RolesDelimiter))), Acknowledged)
  {
  }

  /** The ids of the first `i` roles of `roles`. */
  function IdsBefore(roles: seq<Role>, i: nat): (ids: set<int>)
    requires i <= |roles|
    ensures forall j :: 0 <= j < i ==> roles[j].id in ids
  {
    set j | 0 <= j < i :: roles[j].id
  }

  /** Adding one role id to the set adds exactly its mask. */
  lemma RoleMasksInsert(resource: int, ids: set<int>, id: int, maskByRole: seq<string>)
    ensures RoleMasks(resource, ids + {id}, maskByRole)
         == RoleMasks(resource, ids, maskByRole)[(resource, id) := MaskAt(maskByRole, id)]
  {
  }

  /** Updating a union on a key of its right operand updates that operand. */
  lemma UnionUpdate<K, V>(base: map<K, V>, m: map<K, V>, k: K, v: V)
    ensures (base + m)[k := v] == base + m[k := v]
  {
  }

  /** One turn of the update loop adds the next role's mask to the table. */
  lemma RoleMasksStep(base: map<(int, int), Mask>, resource: int, roles: seq<Role>, i: nat, maskByRole: seq<string>)
    requires i < |roles|
    ensures (base + RoleMasks(resource, IdsBefore(roles, i), maskByRole))[(resource, roles[i].id) := MaskAt(maskByRole, roles[i].id)]
         == base + RoleMasks(resource, IdsBefore(roles, i + 1), maskByRole)
  {
  }

  /** After the loop every role of the rights type has been visited. */
  lemma IdsBeforeAll(directory: seq<Role>, roles: seq<Role>)
    requires roles == RightsRoles(directory)
    ensures IdsBefore(roles, |roles|) == RightsRoleIds(directory)
  {
  }

  /** A call to one of the modelled routes. */
  datatype Call =
    | NewType(name: string)
    | RemoveType(typeId: int)
    | RemoveResource(resourceId: int)
    | SetRoles(resourceId: int, rolesList: string)

  /**
   * The controller as a whole: the `canOpenAdminTool` check on the class
   * refuses every call before any action logic runs.
   */
  function Handle(s: Store, canOpenAdminTool: bool, directory: seq<Role>, call: Call): (o: Outcome)
    ensures !canOpenAdminTool ==> o == Outcome(s, Unauthorized)
    ensures canOpenAdminTool ==> o.response != Unauthorized
    ensures o.response.Created? ==> call.NewType?
    ensures Valid(s) ==> Valid(o.store)
  {
    if !canOpenAdminTool then Outcome(s, Unauthorized)
    else
      match call
      case NewType(name) => AddNewResourceType(s, name)
      case RemoveType(id) => DeleteResourceType(s, id)
      case RemoveResource(id) => DeleteResource(s, id)
      case SetRoles(resource, rolesList) => UpdateResourceRoles(s, directory, resource, rolesList)
  }
}
