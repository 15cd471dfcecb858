# Reservation admin controller, modelled in Dafny

A model of the administrative controller of the FormaLibre reservation
bundle (`ReservationAdminController`), restricted to the actions that carry
logic of their own: creating a resource type, deleting a resource type,
deleting a resource, and bulk-setting the rights masks of a resource from a
comma-separated roles list. The Doctrine database becomes one immutable
record (`ReservationStore.Store`):

- `types`: resource type id to name;
- `resources`: resource id to `Resource(name, typeId)`;
- `rights`: `(resource id, role id)` to a `Mask`;
- `nextTypeId`: the auto-increment counter that hands out type ids.

Every action is a pure function from a store to an `Outcome` (new store and
response). The role directory (`findBy(['type' => 1])`) is a parameter. The
class-level `canOpenAdminTool('formalibre_reservation_tool')` check is a
boolean parameter of `ReservationAdmin.Handle`.

Files:

- `explode.dfy`, module `Explode`: PHP `explode` for a one-character
  delimiter (`Split`), its inverse `implode` (`Join`), and both round trips.
- `store.dfy`, module `ReservationStore`: the entities, the store invariant
  `Valid` (unique type names, fresh auto-increment counter), PHP `empty()` on
  strings, the type-1 role filter and the mask-at-index rule.
- `admin.dfy`, module `ReservationAdmin`: the four actions, the
  get-or-create of a rights record, the loop of `updateResourceRolesAction`
  as written (`ApplyResourceRoles`) checked against a whole-map reference
  (`UpdateResourceRoles`), and the authorization-gated dispatcher.
- `properties.dfy`, module `AdminProperties`: properties that span
  several calls.

Masks are kept as the controller hands them to Doctrine. A mask is either the
raw segment of the roles list (`Segment(text)`) or the integer literal 0
(`Zero`). Turning a segment into an integer happens on persist and is not
modelled. Type names are compared by exact string equality.

## Model

| member | source | states |
|---|---|---|
| Explode.Split | Controller/ReservationAdminController.php:251 | `explode(',', rolesList)` yields one segment more than there are commas, so the empty list still yields exactly one segment, and no segment contains a comma |
| Explode.JoinSplit | Controller/ReservationAdminController.php:251 | joining the exploded segments with the delimiter gives back the original roles list, so no character is lost or reordered |
| Explode.SplitJoin | Controller/ReservationAdminController.php:251 | exploding a join of comma-free segments recovers exactly those segments, so a list of masks survives the URL encoding |
| ReservationStore.RightsRoles | Controller/ReservationAdminController.php:252 | the roles visited are exactly the directory roles of type 1 |
| ReservationAdmin.AddNewResourceType | Controller/ReservationAdminController.php:91-111 | a PHP-empty name (`""` or `"0"`) gives `empty_string` with the store unchanged, even if the name exists. An existing name gives `resource_type_exists` with the store unchanged. Otherwise exactly one type is added, under an id not in use, with that name, and that id is returned. Nothing else changes and names stay pairwise distinct |
| ReservationAdmin.DeleteResourceType | Controller/ReservationAdminController.php:148-154 | an unknown id is NotFound with the store unchanged. Otherwise exactly that type disappears, every other type keeps its name, and resources, rights and the id counter are untouched |
| ReservationAdmin.DeleteResource | Controller/ReservationAdminController.php:233-239 | an unknown id is NotFound with the store unchanged. Otherwise exactly that resource disappears, every other resource is unchanged, and types and rights are untouched |
| ReservationAdmin.UpdateResourceRoles | Controller/ReservationAdminController.php:249-263 | on a known resource, every type-1 role gets a rights record whose mask is the segment at its id if that index exists, else 0. Rights of other roles and other resources keep their masks, and no other record is created. An unknown resource is NotFound with the store unchanged |
| ReservationAdmin.GetOrCreateRights | Controller/ReservationAdminController.php:255 | afterwards the pair has a rights record. An existing record is returned untouched, a missing one is created with mask 0 |
| ReservationAdmin.ApplyResourceRoles | Controller/ReservationAdminController.php:249-263 | the per-role loop (get-or-create, then overwrite the mask) ends in the same store and response as the whole-map statement of the update, whatever the order of the roles |
| ReservationAdmin.Handle | Controller/ReservationAdminController.php:19-22 | without the admin-tool permission every call is refused and the store is unchanged. With it, no call is refused for authorization. Every call keeps the store invariant |
| AdminProperties.AddedTypeIsListed | Controller/ReservationAdminController.php:99-110 | a created type is listed under the returned id, and creating the same name again is refused as `resource_type_exists` without changing the store |
| AdminProperties.AddThenDeleteRestoresTypes | Controller/ReservationAdminController.php:105-110 | deleting the type just created restores the original type table |
| AdminProperties.DeletedNameIsFree | Controller/ReservationAdminController.php:148-154 | after deleting a type, its non-empty name can be created again |
| AdminProperties.DeleteResourceTypeTwice | Controller/ReservationAdminController.php:148-154 | a second delete of the same type is NotFound and leaves the store as the first delete left it |
| AdminProperties.DeleteResourceTwice | Controller/ReservationAdminController.php:233-239 | a second delete of the same resource is NotFound and leaves the store as the first delete left it |
| AdminProperties.UpdateResourceRolesIdempotent | Controller/ReservationAdminController.php:249-263 | sending the same roles list twice leaves the store as after the first call |
| AdminProperties.UpdateResourceRolesExample | Controller/ReservationAdminController.php:251-258 | with the list `5,0,3`, type-1 roles 0, 1 and 2 get `5`, `0` and `3`, and every other type-1 role gets 0 |
| AdminProperties.UpdateResourceRolesEmptyList | Controller/ReservationAdminController.php:249-258 | with the default empty list, a type-1 role with id 0 gets the empty segment, not 0, and every other type-1 role gets 0 |

## Left out

- `indexAction`: a read-only listing of all types and rights with no logic.
- `changeResourceTypeNameAction`, `addResourceAction`, `modifyResourceAction`: their validity rules live in form types (`formalibre.form.resourceType`, `formalibre.form.resource`), which are not part of this model.
- Doctrine's persist, flush and transactions: each action is one atomic transition here.
- ReservationAdmin.DeleteResourceType: does not model cascades to resources or rights of the deleted type, because cascade rules live in the entity mapping, which is not part of this model. Such records are left in place.
- ReservationAdmin.DeleteResource: does not model cascades to the rights of the deleted resource, for the same reason.
- Lookup of an entity by the route id: Symfony's parameter conversion answers 404 before the action runs. This is modelled as the `NotFound` response.
- Collation of the duplicate-name query: the model compares names exactly. A case- or accent-insensitive database collation would reject more names.
- The string-to-integer coercion of a mask segment on persist: masks stay raw segments or 0.
- Twig rendering, route generation, dependency injection and JSON encoding: framework I/O.
- `getResourceRightsByRoleAndResource` lives in `ReservationManager`, which is not part of this model. `GetOrCreateRights` follows its documented behaviour: get the record, or create it with mask 0.
- Role ids are taken as they come. The controller indexes the roles list by role id, so the scheme only lines up when ids are small and start at 0. Database ids usually start at 1, so segment 0 is then never read. The model keeps this behaviour as written.
