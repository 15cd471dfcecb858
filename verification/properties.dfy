/**
 * Properties that relate several calls of the admin actions: what a later
 * call sees of an earlier one, and which sequences of calls cancel out or
 * repeat harmlessly.
 */
module AdminProperties {
  import opened ReservationStore
  import opened ReservationAdmin
  import Explode

  /**
   * A freshly created type is listed under its id, and asking for the same
   * name again is refused as a duplicate without touching the store.
   */
  lemma AddedTypeIsListed(s: Store, name: string)
    requires Valid(s)
    requires AddNewResourceType(s, name).response.Created?
    ensures var o := AddNewResourceType(s, name);
      && o.store.types[o.response.id] == name
      && AddNewResourceType(o.store, name) == Outcome(o.store, Failed(ResourceTypeExists))
  {
  }

  /** Deleting the type just created gives back the original type table. */
  lemma AddThenDeleteRestoresTypes(s: Store, name: string)
    requires Valid(s)
    requires AddNewResourceType(s, name).response.Created?
    ensures var o := AddNewResourceType(s, name);
      DeleteResourceType(o.store, o.response.id).store.types == s.types
  {
  }

  /** A deleted name can be registered again. */
  lemma DeletedNameIsFree(s: Store, id: int)
    requires Valid(s)
    requires id in s.types && !PhpEmpty(s.types[id])
    ensures var o := DeleteResourceType(s, id);
      AddNewResourceType(o.store, s.types[id]).response.Created?
  {
    var o := DeleteResourceType(s, id);
    var name := s.types[id];
    var rest := s.types - {id};
    assert o.store.types == rest;
    forall k | k in rest ensures rest[k] != name {
      assert s.types[k] == rest[k];
    }
    assert name !in rest.Values;
  }

  /** Deleting a resource type twice: the second call finds nothing and changes nothing. */
  lemma DeleteResourceTypeTwice(s: Store, id: int)
    ensures var first := DeleteResourceType(s, id);
      DeleteResourceType(first.store, id) == Outcome(first.store, NotFound)
  {
  }

  /** Deleting a resource twice: the second call finds nothing and changes nothing. */
  lemma DeleteResourceTwice(s: Store, id: int)
    ensures var first := DeleteResource(s, id);
      DeleteResource(first.store, id) == Outcome(first.store, NotFound)
  {
  }

  /** Sending the same roles list twice leaves the rights as after the first call. */
  lemma UpdateResourceRolesIdempotent(s: Store, directory: seq<Role>, resource: int, rolesList: string)
    ensures var once := UpdateResourceRoles(s, directory, resource, rolesList);
      UpdateResourceRoles(once.store, directory, resource, rolesList).store == once.store
  {
  }

  /**
   * The roles list "5,0,3": role 0 gets "5", role 1 gets "0", role 2 gets
   * "3", and every other role of the rights type gets 0.
   */
  lemma UpdateResourceRolesExample(s: Store, directory: seq<Role>, resource: int, r: Role)
    requires resource in s.resources
    requires r in directory && r.roleType == RightsRoleType
    ensures var rights := UpdateResourceRoles(s, directory, resource, "5,0,3").store.rights;
      && (r.id == 0 ==> rights[(resource, r.id)] == Segment("5"))
      && (r.id == 1 ==> rights[(resource, r.id)] == Segment("0"))
      && (r.id == 2 ==> rights[(resource, r.id)] == Segment("3"))
      && (r.id < 0 || r.id > 2 ==> rights[(resource, r.id)] == Zero)
  {
    var parts := ["5", "0", "3"];
    assert Explode.Join(parts, ',') == "5,0,3" by {
      assert parts[1..] == ["0", "3"] && parts[1..][1..] == ["3"];
    }
    Explode.SplitJoin(parts, ',');
  }

  /**
   * An empty roles list still explodes to one segment, so a role with id 0
   * gets the empty string as its mask rather than 0; every other role gets 0.
   */
  lemma UpdateResourceRolesEmptyList(s: Store, directory: seq<Role>, resource: int, r: Role)
    requires resource in s.resources
    requires r in directory && r.roleType == RightsRoleType
    ensures var rights := UpdateResourceRoles(s, directory, resource, "").store.rights;
      rights[(resource, r.id)] == (if r.id == 0 then Segment("") else Zero)
  {
  }
}
