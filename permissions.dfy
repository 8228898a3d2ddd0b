/** The permission logic of `Endpoint` in ex_api.py: the permission list an
    identity's roles grant, and the access decision for an endpoint. */
module Permissions {

  import opened Common

  /** An identity role: either a plain string or an object whose `getName()`
      gives its name. */
  datatype Role = RoleString(s: string) | RoleObject(name: string)

  function RoleName(r: Role): string
  {
    match r
    case RoleString(s) => s
    case RoleObject(n) => n
  }

  /** The role names, in the order of the roles. */
  function RoleNames(rs: seq<Role>): (names: seq<string>)
    ensures |names| == |rs|
    ensures forall i :: 0 <= i < |rs| ==> names[i] == RoleName(rs[i])
  {
    if |rs| == 0 then [] else RoleNames(rs[..|rs| - 1]) + [RoleName(rs[|rs| - 1])]
  }

  predicate Distinct(s: seq<string>)
  {
    forall i, j :: 0 <= i < j < |s| ==> s[i] != s[j]
  }

  /** `addToPermissions` on the list's value, as a scan of the list: the
      list is kept when `p` is found, otherwise `p` is appended at the end. */
  function Added(ps: seq<string>, p: string): (r: seq<string>)
    ensures p in r && |r| <= |ps| + 1
    decreases |ps|
  {
    if |ps| == 0 then [p]
    else if ps[0] == p then ps
    else [ps[0]] + Added(ps[1..], p)
  }

  /** The list `permissions` that `getPermissionListForRoles` builds and
      `addToPermissions` appends to in place. */
  class PermissionList {
    var items: seq<string>

    constructor()
      ensures items == []
    {
      items := [];
    }

    method Add(permission: string)
      modifies this
      ensures items == Added(old(items), permission)
    {
      AddedIsAppendIfAbsent(items, permission);
      if permission !in items {
        items := items + [permission];
      }
    }
  }

  /** The list after an `addToPermissions` call: `p` is in it, the old
      list is a prefix of it, nothing else is added, and no duplicate
      appears. */
  lemma AddedFacts(ps: seq<string>, p: string)
    ensures var r := Added(ps, p);
            && p in r && ps <= r
            && (forall q :: q in r <==> q in ps || q == p)
            && (Distinct(ps) ==> Distinct(r))
  {
    AddedIsAppendIfAbsent(ps, p);
  }

  /** The scan appends `p` exactly when it is absent. */
  lemma {:induction false} AddedIsAppendIfAbsent(ps: seq<string>, p: string)
    ensures Added(ps, p) == if p in ps then ps else ps + [p]
    decreases |ps|
  {
    if |ps| > 0 && ps[0] != p {
      AddedIsAppendIfAbsent(ps[1..], p);
      assert ps == [ps[0]] + ps[1..];
      assert p in ps <==> p in ps[1..];
    }
  }

  /** Adding each of `grants` in turn. */
  function AddedAll(ps: seq<string>, grants: seq<string>): seq<string>
    decreases |grants|
  {
    if |grants| == 0 then ps else AddedAll(Added(ps, grants[0]), grants[1..])
  }

  const DEVELOPER_GRANTS: seq<string> := ["application", "bma", "dds", "developer", "download", "order", "tram"]
  const APP_GRANTS: seq<string> := ["application", "download", "order"]
  const DDS_GRANTS: seq<string> := ["application", "dds", "download"]
  const MACHINE_GRANTS: seq<string> := ["download", "order"]
  const TRAM_GRANTS: seq<string> := ["application", "order", "tram"]
  const BULK_GRANTS: seq<string> := ["application", "bma", "download"]

  function GrantsIf(present: bool, grants: seq<string>): seq<string>
  {
    if present then grants else []
  }

  /** The permissions requested of `addToPermissions`, in call order: the
      developer list alone when 'Developer' is among the roles, otherwise the
      lists of the five machine roles present, in a fixed order. */
  function Requested(roles: seq<string>): seq<string>
  {
    if "Developer" in roles then DEVELOPER_GRANTS
    else
      GrantsIf("M2M_APP" in roles, APP_GRANTS) + GrantsIf("M2M_DDS" in roles, DDS_GRANTS) +
      GrantsIf("MACHINE" in roles, MACHINE_GRANTS) + GrantsIf("M2M_TRAM" in roles, TRAM_GRANTS) +
      GrantsIf("BULKMEDIAA" in roles, BULK_GRANTS)
  }

  /** The permission list of a set of role names: the requested grants,
      each once. */
  function PermissionsFor(roles: seq<string>): (r: seq<string>)
    ensures Distinct(r)
    ensures forall q :: q in r <==> q in Requested(roles)
  {
    AddedAllFacts([], Requested(roles));
    AddedAll([], Requested(roles))
  }

  /** The result keeps `ps` as a prefix, holds exactly the strings of both,
      and has no duplicates when `ps` has none. */
  lemma {:induction false} AddedAllFacts(ps: seq<string>, grants: seq<string>)
    ensures var r := AddedAll(ps, grants);
            && ps <= r
            && (forall q :: q in r <==> q in ps || q in grants)
            && (Distinct(ps) ==> Distinct(r))
    decreases |grants|
  {
    if |grants| > 0 {
      AddedFacts(ps, grants[0]);
      AddedAllFacts(Added(ps, grants[0]), grants[1..]);
      assert forall q :: q in grants <==> q == grants[0] || q in grants[1..];
    }
  }

  lemma {:induction false} AddedAllAppend(ps: seq<string>, a: seq<string>, b: seq<string>)
    ensures AddedAll(ps, a + b) == AddedAll(AddedAll(ps, a), b)
    decreases |a|
  {
    if |a| == 0 {
      assert a + b == b;
    } else {
      assert (a + b)[0] == a[0];
      assert (a + b)[1..] == a[1..] + b;
      AddedAllAppend(Added(ps, a[0]), a[1..], b);
    }
  }

  lemma AddedAllOne(ps: seq<string>, x: string)
    ensures AddedAll(ps, [x]) == Added(ps, x)
  {
    assert [x][1..] == [];
  }

  lemma AddedAllTwo(ps: seq<string>, x: string, y: string)
    ensures AddedAll(ps, [x, y]) == Added(Added(ps, x), y)
  {
    assert [x, y][0] == x && [x, y][1..] == [y];
    AddedAllOne(Added(ps, x), y);
  }

  lemma AddedAllThree(ps: seq<string>, x: string, y: string, z: string)
    ensures AddedAll(ps, [x, y, z]) == Added(Added(Added(ps, x), y), z)
  {
    assert [x, y, z][0] == x && [x, y, z][1..] == [y, z];
    AddedAllTwo(Added(ps, x), y, z);
  }

  /** Requesting the grants of a role that is present, or nothing. */
  lemma Requesting(requested: seq<string>, present: bool, grants: seq<string>)
    ensures AddedAll([], requested + GrantsIf(present, grants)) ==
              if present then AddedAll(AddedAll([], requested), grants) else AddedAll([], requested)
  {
    AddedAllAppend([], requested, GrantsIf(present, grants));
    if !present {
      assert requested + [] == requested;
    }
  }

  /** The `addToPermissions` calls of `getPermissionListForRoles` for an
      identity without the 'Developer' role: each machine role present adds
      its grants, in a fixed order. */
  method AddMachineGrants(list: PermissionList, roles: seq<string>)
    requires "Developer" !in roles && list.items == []
    modifies list
    ensures list.items == PermissionsFor(roles)
  {
    ghost var requested: seq<string> := [];
    if "M2M_APP" in roles {
      AddedAllThree(list.items, "application", "download", "order");
      list.Add("application");
      list.Add("download");
      list.Add("order");
    }
    Requesting(requested, "M2M_APP" in roles, APP_GRANTS);
    requested := requested + GrantsIf("M2M_APP" in roles, APP_GRANTS);
    if "M2M_DDS" in roles {
      AddedAllThree(list.items, "application", "dds", "download");
      list.Add("application");
      list.Add("dds");
      list.Add("download");
    }
    Requesting(requested, "M2M_DDS" in roles, DDS_GRANTS);
    requested := requested + GrantsIf("M2M_DDS" in roles, DDS_GRANTS);
    if "MACHINE" in roles {
      AddedAllTwo(list.items, "download", "order");
      list.Add("download");
      list.Add("order");
    }
    Requesting(requested, "MACHINE" in roles, MACHINE_GRANTS);
    requested := requested + GrantsIf("MACHINE" in roles, MACHINE_GRANTS);
    if "M2M_TRAM" in roles {
      AddedAllThree(list.items, "application", "order", "tram");
      list.Add("application");
      list.Add("order");
      list.Add("tram");
    }
    Requesting(requested, "M2M_TRAM" in roles, TRAM_GRANTS);
    requested := requested + GrantsIf("M2M_TRAM" in roles, TRAM_GRANTS);
    if "BULKMEDIAA" in roles {
      AddedAllThree(list.items, "application", "bma", "download");
      list.Add("application");
      list.Add("bma");
      list.Add("download");
    }
    Requesting(requested, "BULKMEDIAA" in roles, BULK_GRANTS);
    requested := requested + GrantsIf("BULKMEDIAA" in roles, BULK_GRANTS);
    assert [] + GrantsIf("M2M_APP" in roles, APP_GRANTS) == GrantsIf("M2M_APP" in roles, APP_GRANTS);
    assert requested == Requested(roles);
    assert list.items == PermissionsFor(roles);
  }

  /** `getPermissionListForRoles`: the role names (strings as they are, other
      roles through `getName()`), then the `addToPermissions` calls of the
      roles present. */
  method GetPermissionListForRoles(identityRoles: seq<Role>) returns (permissions: seq<string>)
    ensures permissions == PermissionsFor(RoleNames(identityRoles))
  {
    var roles: seq<string> := [];
    for i := 0 to |identityRoles|
      invariant roles == RoleNames(identityRoles[..i])
    {
      assert identityRoles[..i + 1][..i] == identityRoles[..i];
      roles := roles + [RoleName(identityRoles[i])];
    }
    assert identityRoles[..|identityRoles|] == identityRoles;
    var list := new PermissionList();
    if "Developer" in roles {
      list.Add("application");
      list.Add("bma");
      list.Add("dds");
      list.Add("developer");
      list.Add("download");
      list.Add("order");
      list.Add("tram");
      DeveloperList();
      assert list.items == PermissionsFor(roles);
    } else {
      AddMachineGrants(list, roles);
    }
    permissions := list.items;
  }

  /** The developer list, added one grant at a time. */
  lemma DeveloperList()
    ensures AddedAll([], DEVELOPER_GRANTS) ==
              Added(Added(Added(Added(Added(Added(Added([], "application"), "bma"), "dds"), "developer"), "download"), "order"), "tram")
  {
    var g := DEVELOPER_GRANTS;
    assert g[1..][1..][1..][1..][1..][1..][1..] == [];
  }

  /** Requesting strings that are all new leaves them in request order. */
  lemma {:induction false} AddedAllFresh(ps: seq<string>, grants: seq<string>)
    requires Distinct(ps + grants)
    ensures AddedAll(ps, grants) == ps + grants
    decreases |grants|
  {
    if |grants| > 0 {
      var ps' := ps + [grants[0]];
      forall i | 0 <= i < |ps|
        ensures ps[i] != grants[0]
      {
        assert (ps + grants)[i] == ps[i] && (ps + grants)[|ps|] == grants[0];
      }
      AddedIsAppendIfAbsent(ps, grants[0]);
      assert ps' + grants[1..] == ps + grants;
      AddedAllFresh(ps', grants[1..]);
    }
  }

  /** Adding `x` after `grants` is one more `addToPermissions` call. */
  lemma AddedAllSnoc(ps: seq<string>, grants: seq<string>, x: string)
    ensures AddedAll(ps, grants + [x]) == Added(AddedAll(ps, grants), x)
  {
    AddedAllAppend(ps, grants, [x]);
    AddedAllOne(AddedAll(ps, grants), x);
  }

  /** The position of the first occurrence of `q` in `s`. */
  function FirstIndex(s: seq<string>, q: string): (k: nat)
    requires q in s
    ensures k < |s| && s[k] == q
    ensures forall i :: 0 <= i < k ==> s[i] != q
  {
    if s[0] == q then 0 else 1 + FirstIndex(s[1..], q)
  }

  lemma {:induction false} FirstIndexExtended(s: seq<string>, x: string, q: string)
    requires q in s
    ensures FirstIndex(s + [x], q) == FirstIndex(s, q)
  {
    if s[0] != q {
      assert (s + [x])[1..] == s[1..] + [x];
      FirstIndexExtended(s[1..], x, q);
    }
  }

  /** The list of `grants` added to an empty list holds each requested
      string once, in the order of first request. */
  lemma {:induction false} FirstOccurrenceOrder(grants: seq<string>)
    ensures var r := AddedAll([], grants);
            && Distinct(r)
            && (forall q :: q in r <==> q in grants)
            && (forall i, j :: 0 <= i < j < |r| ==> FirstIndex(grants, r[i]) < FirstIndex(grants, r[j]))
    decreases |grants|
  {
    AddedAllFacts([], grants);
    if |grants| > 0 {
      var g, x := grants[..|grants| - 1], grants[|grants| - 1];
      assert grants == g + [x];
      FirstOccurrenceOrder(g);
      AddedAllSnoc([], g, x);
      var r' := AddedAll([], g);
      AddedIsAppendIfAbsent(r', x);
      forall q | q in g
        ensures FirstIndex(grants, q) == FirstIndex(g, q) < |g|
      {
        FirstIndexExtended(g, x, q);
      }
      if x !in r' {
        assert FirstIndex(grants, x) == |g|;
      }
      var r := AddedAll([], grants);
      forall i, j | 0 <= i < j < |r|
        ensures FirstIndex(grants, r[i]) < FirstIndex(grants, r[j])
      {
        assert r[i] == r'[i] && r[i] in g;
        if j < |r'| {
          assert r[j] == r'[j];
        }
      }
    }
  }

  /** Without 'Developer', the list holds exactly the grants of the machine
      roles present. */
  lemma MachineRolesUnion(roles: seq<string>, q: string)
    requires "Developer" !in roles
    ensures q in PermissionsFor(roles) <==>
              || ("M2M_APP" in roles && q in APP_GRANTS)
              || ("M2M_DDS" in roles && q in DDS_GRANTS)
              || ("MACHINE" in roles && q in MACHINE_GRANTS)
              || ("M2M_TRAM" in roles && q in TRAM_GRANTS)
              || ("BULKMEDIAA" in roles && q in BULK_GRANTS)
  {
    AddedAllFacts([], Requested(roles));
  }

  /** The list has 'developer' exactly when the roles have 'Developer'. */
  lemma DeveloperGrant(roles: seq<string>)
    ensures "developer" in PermissionsFor(roles) <==> "Developer" in roles
  {
    if "Developer" in roles {
      DeveloperExact(roles);
      assert DEVELOPER_GRANTS[3] == "developer";
    } else {
      var machine := APP_GRANTS + DDS_GRANTS + MACHINE_GRANTS + TRAM_GRANTS + BULK_GRANTS;
      assert forall g :: g in Requested(roles) ==> g in machine;
      // No machine grant has the nine letters of "developer".
      assert forall g :: g in machine ==> |g| != 9;
      assert "developer" !in Requested(roles);
    }
  }

  /** With 'Developer', the list is exactly the developer list, in order. */
  lemma DeveloperExact(roles: seq<string>)
    requires "Developer" in roles
    ensures PermissionsFor(roles) == DEVELOPER_GRANTS
  {
    assert Distinct([] + DEVELOPER_GRANTS);
    AddedAllFresh([], DEVELOPER_GRANTS);
  }

  /** The identity `authService` holds: a contact id and its roles. */
  datatype Identity = Identity(contactId: int, roles: seq<Role>)

  /** The endpoint permissions that the final chain of checks grants. */
  const CHECKED: seq<string> := ["application", "tram", "dds", "download", "order"]

  /** The checks after the permission list is known: a list grants a
      permission exactly when it holds 'developer', or the permission is one
      of the checked five and is in the list. */
  function ListGrants(permission: string, permissions: seq<string>): (granted: bool)
    ensures granted <==> "developer" in permissions || (permission in CHECKED && permission in permissions)
  {
    if "developer" in permissions then true
    else if permission == "application" && "application" in permissions then true
    else if permission == "tram" && "tram" in permissions then true
    else if permission == "dds" && "dds" in permissions then true
    else if permission == "download" && "download" in permissions then true
    else if permission == "order" && "order" in permissions then true
    else false
  }

  /** `hasAccess`. The decoded key's permission list, which the code reads
      from an apiKey that is None on that branch, is the input
      `keyPermissions`. */
  function HasAccess(permission: string, apiKey: Option<string>, identity: Option<Identity>,
                     keyPermissions: seq<string>): (granted: bool)
    ensures permission == "*" ==> granted
    ensures apiKey.Some? && identity.None? ==> (granted <==> permission == "*")
    ensures permission == "@" && (apiKey.None? || identity.Some?) ==> granted
    ensures apiKey.Some? && identity.Some? && permission != "*" && permission != "@" ==>
              (granted <==> ListGrants(permission, PermissionsFor(RoleNames(identity.value.roles))))
    ensures apiKey.None? && permission != "*" && permission != "@" ==>
              (granted <==> ListGrants(permission, keyPermissions))
  {
    if permission == "*" then true
    else if apiKey.Some? then
      if identity.Some? then
        if permission == "@" then true
        else ListGrants(permission, PermissionsFor(RoleNames(identity.value.roles)))
      else false
    else if permission == "@" then true
    else ListGrants(permission, keyPermissions)
  }

  /** 'bma' (and any permission outside the checked five) is granted only
      through 'developer'. */
  lemma UncheckedOnlyViaDeveloper(permission: string, permissions: seq<string>)
    requires permission !in CHECKED
    ensures ListGrants(permission, permissions) <==> "developer" in permissions
  {
  }

  /** With an apiKey and an identity, any permission but '*' and '@' is
      granted exactly when the roles have 'Developer', or the
      permission is a checked one the roles' list holds. */
  lemma IdentityAccess(permission: string, key: string, id: Identity, keyPermissions: seq<string>)
    ensures permission != "*" && permission != "@" ==>
              var names := RoleNames(id.roles);
              (HasAccess(permission, Some(key), Some(id), keyPermissions) <==>
                 "Developer" in names || (permission in CHECKED && permission in PermissionsFor(names)))
  {
    var names := RoleNames(id.roles);
    DeveloperGrant(names);
  }
}
