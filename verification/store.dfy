/**
 * The persistent state the reservation admin controller works on, as one
 * immutable record: resource types (id to name), resources (id to record),
 * and resource rights keyed by (resource id, role id).  Roles are read-only
 * here and come from a separate directory.
 */
module ReservationStore {

  /** The character `explode` splits a roles list on. */
  const RolesDelimiter: char := ','

  /** The role type that takes part in resource-level rights. */
  const RightsRoleType: int := 1

  datatype Resource = Resource(name: string, typeId: int)

  datatype Role = Role(id: int, name: string, roleType: int)

  /**
   * A rights mask as the controller stores it: either a raw segment of the
   * roles list (the string-to-integer coercion happens on persist, outside
   * this model) or the integer literal 0.
   */
  datatype Mask = Segment(text: string) | Zero

  datatype Store = Store(
    types: map<int, string>,
    resources: map<int, Resource>,
    rights: map<(int, int), Mask>,
    nextTypeId: int)

  /** Resource type names are pairwise distinct. */
  ghost predicate UniqueTypeNames(types: map<int, string>)
  {
    forall a, b :: a in types && b in types && types[a] == types[b] ==> a == b
  }

  /**
   * The store invariant: type names are unique and the auto-increment
   * counter is beyond every id already handed out.
   */
  ghost predicate Valid(s: Store)
  {
    && UniqueTypeNames(s.types)
    && (forall id :: id in s.types ==> id < s.nextTypeId)
  }

  /** PHP's `empty()` on a string: true exactly for "" and "0". */
  predicate PhpEmpty(name: string)
  {
    name == "" || name == "0"
  }

  /** The roles a `findBy(['type' => 1])` query returns, in directory order. */
  function RightsRoles(directory: seq<Role>): (roles: seq<Role>)
    ensures forall r :: r in roles <==> r in directory && r.roleType == RightsRoleType
    ensures |roles| <= |directory|
  {
    if |directory| == 0 then []
    else
      var rest := RightsRoles(directory[1..]);
      if directory[0].roleType == RightsRoleType then [directory[0]] + rest else rest
  }

  /** The ids of the roles whose rights an update rewrites. */
  function RightsRoleIds(directory: seq<Role>): set<int>
  {
    set r | r in directory && r.roleType == RightsRoleType :: r.id
  }

  /**
   * `array_key_exists($id, $maskByRole) ? $maskByRole[$id] : 0` where
   * `$maskByRole` is a list: the segment at position `id` if there is one.
   */
  function MaskAt(segments: seq<string>, id: int): (m: Mask)
    ensures m.Segment? <==> 0 <= id < |segments|
    ensures m.Segment? ==> m.text == segments[id]
  {
    if 0 <= id < |segments| then Segment(segments[id]) else Zero
  }
}
