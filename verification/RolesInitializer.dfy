/**
 Start-up synchronisation of permissions and roles: the permission table is brought in line with
 the permission names the service knows, the default roles get their listed permissions, and
 custom roles lose the permissions that are no longer allowed.
 */
module RolesInitializer {
  import opened Collections

  // A permission is keyed by its `permission_id` column; its other name column may be missing.
  datatype Permission = Permission(name: Option<string>, allow: bool)

  type Permissions = map<string, Permission>

  datatype Role = Role(name: string, system: bool, organization: Option<string>, permissions: set<string>)

  type Roles = map<string, Role>

  datatype DefaultRole = DefaultRole(name: string, permissions: set<string>)

  // The column that the start-up update compares with the known names.
  datatype Column = KeyColumn | NameColumn

  // The names the service knows, the roles it defines, and the column its update compares.
  datatype Setup = Setup(known: seq<string>, defaults: seq<DefaultRole>, compared: Column)

  ghost predicate ValidSetup(setup: Setup) {
    && (forall i, j :: 0 <= i < j < |setup.defaults| ==> setup.defaults[i].name != setup.defaults[j].name)
    && (forall d, p :: d in setup.defaults && p in d.permissions ==> p in setup.known)
  }

  // ----- permissions

  function Upserted(table: Permissions, known: seq<string>): Permissions {
    if known == [] then table
    else Upserted(table, known[..|known| - 1])[known[|known| - 1] := Permission(Some(known[|known| - 1]), true)]
  }

  // The update names `Permission.permission_id`: the key column, or, read as the property of that name,
  // the other name column. A missing name compares with nothing.
  predicate Stale(k: string, p: Permission, setup: Setup) {
    && p.allow
    && match setup.compared
       case KeyColumn => k !in setup.known
       case NameColumn => p.name.Some? && p.name.value !in setup.known
  }

  function Synchronised(table: Permissions, setup: Setup): Permissions {
    var all := Upserted(table, setup.known);
    map k | k in all :: if Stale(k, all[k], setup) then all[k].(allow := false) else all[k]
  }

  lemma {:induction false} UpsertedMeaning(table: Permissions, known: seq<string>, k: string)
    ensures k in Upserted(table, known) <==> k in table || k in known
    ensures k in known ==> Upserted(table, known)[k] == Permission(Some(k), true)
    ensures k in table && k !in known ==> Upserted(table, known)[k] == table[k]
  {
    if known != [] {
      assert known == known[..|known| - 1] + [known[|known| - 1]];
      UpsertedMeaning(table, known[..|known| - 1], k);
    }
  }

  // A permission that stays allowed although the service does not know it: the name column is compared,
  // and its own is missing or names a known permission.
  predicate Escapes(table: Permissions, setup: Setup, k: string) {
    && k in table && k !in setup.known && table[k].allow && setup.compared == NameColumn
    && (table[k].name.Some? ==> table[k].name.value in setup.known)
  }

  /** After synchronisation a permission is allowed if it is known, and the others are not, except
      for those that escape the comparison. */
  lemma AllowedMeansKnown(table: Permissions, setup: Setup, k: string)
    ensures k in Synchronised(table, setup) <==> k in table || k in setup.known
    ensures k in Synchronised(table, setup) ==>
              (Synchronised(table, setup)[k].allow <==> k in setup.known || Escapes(table, setup, k))
  {
    UpsertedMeaning(table, setup.known, k);
  }

  ghost predicate NamesAgree(table: Permissions) {
    forall k :: k in table ==> table[k].name == Some(k)
  }

  /** Allowed is exactly known precisely when nothing escapes, as when the key column is compared or both
      name columns agree. */
  lemma SynchronisedExactly(table: Permissions, setup: Setup)
    ensures (forall k :: k in Synchronised(table, setup) ==>
                           (Synchronised(table, setup)[k].allow <==> k in setup.known))
            <==> forall k :: !Escapes(table, setup, k)
    ensures setup.compared == KeyColumn || NamesAgree(table) ==> forall k :: !Escapes(table, setup, k)
  {
    forall k
      ensures k in Synchronised(table, setup) <==> k in table || k in setup.known
      ensures k in Synchronised(table, setup) ==>
                (Synchronised(table, setup)[k].allow <==> k in setup.known || Escapes(table, setup, k))
    {
      AllowedMeansKnown(table, setup, k);
    }
    if k :| Escapes(table, setup, k) {
      assert k in Synchronised(table, setup);
    }
  }

  /** A permission stored without a name that the service does not know stays allowed exactly when the
      name column is compared. */
  lemma UnnamedPermissionEscapes(table: Permissions, setup: Setup, k: string)
    requires k in table && k !in setup.known && table[k] == Permission(None, true)
    ensures k in Synchronised(table, setup)
    ensures Synchronised(table, setup)[k].allow <==> setup.compared == NameColumn
  {
    AllowedMeansKnown(table, setup, k);
  }

  lemma SynchronisingTwice(table: Permissions, setup: Setup)
    ensures Synchronised(Synchronised(table, setup), setup) == Synchronised(table, setup)
  {
    var once := Synchronised(table, setup);
    var twice := Synchronised(once, setup);
    forall k ensures k in twice <==> k in once
             ensures k in once ==> twice[k] == once[k]
    {
      UpsertedMeaning(table, setup.known, k);
      UpsertedMeaning(once, setup.known, k);
    }
  }

  // ----- default roles

  predicate IsDefault(r: Role, name: string) {
    r.system && r.organization.None? && r.name == name
  }

  // The stored role of every default name that has one; with several, one of them.
  ghost predicate FoundRoles(roles: Roles, defaults: seq<DefaultRole>, found: map<string, string>) {
    && (forall name :: name in found ==> found[name] in roles && IsDefault(roles[found[name]], name))
    && (forall id, d :: id in roles && d in defaults && IsDefault(roles[id], d.name) ==> d.name in found)
  }

  function RoleIdOf(d: DefaultRole, found: map<string, string>, newIds: string): string {
    if d.name in found then found[d.name] else newIds
  }

  function WithDefaults(roles: Roles, defaults: seq<DefaultRole>, found: map<string, string>,
                        newIds: seq<string>): Roles
    requires |newIds| == |defaults|
  {
    if defaults == [] then roles
    else
      var n := |defaults| - 1;
      var rest, d := WithDefaults(roles, defaults[..n], found, newIds[..n]), defaults[n];
      rest[RoleIdOf(d, found, newIds[n]) := Role(d.name, true, None, d.permissions)]
  }

  ghost predicate FreshIds(roles: Roles, newIds: seq<string>) {
    NoDuplicates(newIds) && forall id :: id in newIds ==> id !in roles
  }

  ghost predicate DistinctNames(defaults: seq<DefaultRole>) {
    forall i, j :: 0 <= i < j < |defaults| ==> defaults[i].name != defaults[j].name
  }

  // The id a default role is written under, for the i-th default.
  function TargetId(defaults: seq<DefaultRole>, found: map<string, string>, newIds: seq<string>, i: nat): string
    requires |newIds| == |defaults| && i < |defaults|
  {
    RoleIdOf(defaults[i], found, newIds[i])
  }

  ghost predicate IsTarget(defaults: seq<DefaultRole>, found: map<string, string>, newIds: seq<string>, id: string)
    requires |newIds| == |defaults|
  {
    exists i :: 0 <= i < |defaults| && TargetId(defaults, found, newIds, i) == id
  }

  // Default names that are distinct are written under distinct ids.
  lemma TargetsAreDistinct(roles: Roles, defaults: seq<DefaultRole>, found: map<string, string>, newIds: seq<string>,
                           i: nat, j: nat)
    requires |newIds| == |defaults| && FreshIds(roles, newIds) && DistinctNames(defaults)
    requires forall name :: name in found ==> found[name] in roles && IsDefault(roles[found[name]], name)
    requires i < |defaults| && j < |defaults| &&
             TargetId(defaults, found, newIds, i) == TargetId(defaults, found, newIds, j)
    ensures i == j
  {
    assert newIds[i] in newIds && newIds[j] in newIds;
  }

  function Stored(d: DefaultRole): Role {
    Role(d.name, true, None, d.permissions)
  }

  lemma {:induction false} WithDefaultsAt(roles: Roles, defaults: seq<DefaultRole>, found: map<string, string>,
                                          newIds: seq<string>, id: string)
    requires |newIds| == |defaults| && FreshIds(roles, newIds) && DistinctNames(defaults)
    requires forall name :: name in found ==> found[name] in roles && IsDefault(roles[found[name]], name)
    ensures id in WithDefaults(roles, defaults, found, newIds) <==> id in roles || IsTarget(defaults, found, newIds, id)
    ensures id in roles && !IsTarget(defaults, found, newIds, id) ==>
              WithDefaults(roles, defaults, found, newIds)[id] == roles[id]
    ensures forall i :: 0 <= i < |defaults| && TargetId(defaults, found, newIds, i) == id ==>
              id in WithDefaults(roles, defaults, found, newIds) &&
              WithDefaults(roles, defaults, found, newIds)[id] == Stored(defaults[i])
  {
    if defaults != [] {
      var n := |defaults| - 1;
      assert newIds == newIds[..n] + [newIds[n]];
      WithDefaultsAt(roles, defaults[..n], found, newIds[..n], id);
      assert forall i :: 0 <= i < n ==>
                TargetId(defaults[..n], found, newIds[..n], i) == TargetId(defaults, found, newIds, i);
      if TargetId(defaults, found, newIds, n) == id {
        forall i | 0 <= i < n ensures TargetId(defaults, found, newIds, i) != id {
          if TargetId(defaults, found, newIds, i) == id {
            TargetsAreDistinct(roles, defaults, found, newIds, i, n);
          }
        }
      }
    }
  }

  // Writing default roles that are stored as they are defined changes nothing.
  lemma {:induction false} NothingToWrite(roles: Roles, defaults: seq<DefaultRole>, found: map<string, string>,
                                          newIds: seq<string>)
    requires |newIds| == |defaults|
    requires forall d :: d in defaults ==>
             d.name in found && found[d.name] in roles && roles[found[d.name]] == Stored(d)
    ensures WithDefaults(roles, defaults, found, newIds) == roles
  {
    if defaults != [] {
      NothingToWrite(roles, defaults[..|defaults| - 1], found, newIds[..|defaults| - 1]);
    }
  }

  // ----- custom roles

  function Allowed(permissions: set<string>, table: Permissions): set<string> {
    set p | p in permissions && p in table && table[p].allow
  }

  // Only roles that hold a disallowed permission are written.
  function Cleaned(roles: Roles, table: Permissions): Roles {
    map id | id in roles ::
      if !roles[id].system && (exists p :: p in roles[id].permissions && p in table && !table[p].allow)
      then roles[id].(permissions := Allowed(roles[id].permissions, table))
      else roles[id]
  }

  // ----- the run

  datatype Data = Data(permissions: Permissions, roles: Roles)

  // Roles hold stored permissions only.
  ghost predicate Referential(d: Data) {
    forall id, p :: id in d.roles && p in d.roles[id].permissions ==> p in d.permissions
  }

  // A default name belongs to at most one stored system role.
  ghost predicate OneRolePerDefault(roles: Roles, defaults: seq<DefaultRole>) {
    forall a, b, d :: a in roles && b in roles && d in defaults ==>
      (IsDefault(roles[a], d.name) && IsDefault(roles[b], d.name) ==> a == b)
  }

  function RunWith(d: Data, setup: Setup, found: map<string, string>, newIds: seq<string>): Data
    requires |newIds| == |setup.defaults|
  {
    var permissions := Synchronised(d.permissions, setup);
    Data(permissions, Cleaned(WithDefaults(d.roles, setup.defaults, found, newIds), permissions))
  }

  ghost predicate Runnable(d: Data, setup: Setup, found: map<string, string>, newIds: seq<string>) {
    && ValidSetup(setup) && Referential(d) && OneRolePerDefault(d.roles, setup.defaults)
    && FoundRoles(d.roles, setup.defaults, found) && |newIds| == |setup.defaults| && FreshIds(d.roles, newIds)
  }

  lemma SynchronisedKeeps(table: Permissions, setup: Setup, p: string)
    ensures p in table || p in setup.known ==> p in Synchronised(table, setup)
    ensures p in setup.known ==> Synchronised(table, setup)[p].allow
  {
    AllowedMeansKnown(table, setup, p);
  }

  // A stored role of a default name is where that default is written.
  lemma StoredDefaultIsTarget(d: Data, setup: Setup, found: map<string, string>, newIds: seq<string>, id: string,
                              i: nat)
    requires Runnable(d, setup, found, newIds) && i < |setup.defaults|
    requires id in d.roles && IsDefault(d.roles[id], setup.defaults[i].name)
    ensures TargetId(setup.defaults, found, newIds, i) == id
  {
    assert setup.defaults[i] in setup.defaults;
  }

  lemma TargetIsNotCustom(d: Data, setup: Setup, found: map<string, string>, newIds: seq<string>, id: string)
    requires Runnable(d, setup, found, newIds) && id in d.roles && IsTarget(setup.defaults, found, newIds, id)
    ensures exists x :: x in setup.defaults && IsDefault(d.roles[id], x.name)
  {
    var i :| 0 <= i < |setup.defaults| && TargetId(setup.defaults, found, newIds, i) == id;
    assert setup.defaults[i] in setup.defaults && newIds[i] in newIds;
  }

  /** After a run every default role holds exactly its listed permissions. */
  lemma DefaultRolesAfterRun(d: Data, setup: Setup, found: map<string, string>, newIds: seq<string>, i: nat)
    requires Runnable(d, setup, found, newIds) && i < |setup.defaults|
    ensures TargetId(setup.defaults, found, newIds, i) in RunWith(d, setup, found, newIds).roles
    ensures RunWith(d, setup, found, newIds).roles[TargetId(setup.defaults, found, newIds, i)]
              == Stored(setup.defaults[i])
  {
    WithDefaultsAt(d.roles, setup.defaults, found, newIds, TargetId(setup.defaults, found, newIds, i));
  }

  /** After a run a custom role holds exactly what it held of the allowed permissions, and a system
      role that is none of the defaults is as it was. */
  lemma OtherRolesAfterRun(d: Data, setup: Setup, found: map<string, string>, newIds: seq<string>, id: string)
    requires Runnable(d, setup, found, newIds) && id in d.roles
    requires forall x :: x in setup.defaults ==> !IsDefault(d.roles[id], x.name)
    ensures id in RunWith(d, setup, found, newIds).roles
    ensures RunWith(d, setup, found, newIds).roles[id]
         == if d.roles[id].system then d.roles[id]
            else d.roles[id].(permissions :=
                Allowed(d.roles[id].permissions, RunWith(d, setup, found, newIds).permissions))
  {
    var table := Synchronised(d.permissions, setup);
    WithDefaultsAt(d.roles, setup.defaults, found, newIds, id);
    if IsTarget(setup.defaults, found, newIds, id) {
      TargetIsNotCustom(d, setup, found, newIds, id);
    }
    forall p | p in d.roles[id].permissions ensures p in table {
      SynchronisedKeeps(d.permissions, setup, p);
    }
    if forall p :: p in d.roles[id].permissions && p in table ==> table[p].allow {
      assert Allowed(d.roles[id].permissions, table) == d.roles[id].permissions;
    }
  }

  // Every role after a run is a stored one or one of the defaults.
  lemma RolesAfterRun(d: Data, setup: Setup, found: map<string, string>, newIds: seq<string>, id: string)
    requires Runnable(d, setup, found, newIds) && id in RunWith(d, setup, found, newIds).roles
    ensures id in d.roles || IsTarget(setup.defaults, found, newIds, id)
    ensures !IsTarget(setup.defaults, found, newIds, id) ==>
              forall x :: x in setup.defaults ==> !IsDefault(d.roles[id], x.name)
  {
    WithDefaultsAt(d.roles, setup.defaults, found, newIds, id);
    if id in d.roles {
      if x :| x in setup.defaults && IsDefault(d.roles[id], x.name) {
        var i :| 0 <= i < |setup.defaults| && setup.defaults[i] == x;
        StoredDefaultIsTarget(d, setup, found, newIds, id, i);
      }
    }
  }

  lemma DefaultsArePlaced(d: Data, setup: Setup, found: map<string, string>, newIds: seq<string>, id: string, i: nat)
    requires Runnable(d, setup, found, newIds) && i < |setup.defaults|
    requires id in RunWith(d, setup, found, newIds).roles
    requires IsDefault(RunWith(d, setup, found, newIds).roles[id], setup.defaults[i].name)
    ensures id == TargetId(setup.defaults, found, newIds, i)
  {
    RolesAfterRun(d, setup, found, newIds, id);
    if IsTarget(setup.defaults, found, newIds, id) {
      var j :| 0 <= j < |setup.defaults| && TargetId(setup.defaults, found, newIds, j) == id;
      DefaultRolesAfterRun(d, setup, found, newIds, j);
      assert i == j;
    } else {
      OtherRolesAfterRun(d, setup, found, newIds, id);
      StoredDefaultIsTarget(d, setup, found, newIds, id, i);
    }
  }

  /** A run leaves data that another run can start from. */
  lemma RunKeepsInvariants(d: Data, setup: Setup, found: map<string, string>, newIds: seq<string>)
    requires Runnable(d, setup, found, newIds)
    ensures Referential(RunWith(d, setup, found, newIds))
    ensures OneRolePerDefault(RunWith(d, setup, found, newIds).roles, setup.defaults)
  {
    var after := RunWith(d, setup, found, newIds);
    forall id, p | id in after.roles && p in after.roles[id].permissions ensures p in after.permissions {
      RolesAfterRun(d, setup, found, newIds, id);
      SynchronisedKeeps(d.permissions, setup, p);
      if IsTarget(setup.defaults, found, newIds, id) {
        var i :| 0 <= i < |setup.defaults| && TargetId(setup.defaults, found, newIds, i) == id;
        DefaultRolesAfterRun(d, setup, found, newIds, i);
        assert setup.defaults[i] in setup.defaults;
      } else {
        OtherRolesAfterRun(d, setup, found, newIds, id);
      }
    }
    forall a, b, x | a in after.roles && b in after.roles && x in setup.defaults
                     && IsDefault(after.roles[a], x.name) && IsDefault(after.roles[b], x.name)
      ensures a == b
    {
      var i :| 0 <= i < |setup.defaults| && setup.defaults[i] == x;
      DefaultsArePlaced(d, setup, found, newIds, a, i);
      DefaultsArePlaced(d, setup, found, newIds, b, i);
    }
  }

  /** A second run changes nothing. */
  lemma {:induction false} RunIsAFixpoint(d: Data, setup: Setup, found: map<string, string>, newIds: seq<string>,
                       found2: map<string, string>, newIds2: seq<string>)
    requires Runnable(d, setup, found, newIds)
    requires Runnable(RunWith(d, setup, found, newIds), setup, found2, newIds2)
    ensures RunWith(RunWith(d, setup, found, newIds), setup, found2, newIds2) == RunWith(d, setup, found, newIds)
  {
    var once := RunWith(d, setup, found, newIds);
    SynchronisingTwice(d.permissions, setup);
    forall x | x in setup.defaults
      ensures x.name in found2 && found2[x.name] in once.roles && once.roles[found2[x.name]] == Stored(x)
    {
      var i :| 0 <= i < |setup.defaults| && setup.defaults[i] == x;
      var id := TargetId(setup.defaults, found, newIds, i);
      DefaultRolesAfterRun(d, setup, found, newIds, i);
      assert IsDefault(once.roles[id], x.name);
      DefaultsArePlaced(d, setup, found, newIds, found2[x.name], i);
    }
    NothingToWrite(once.roles, setup.defaults, found2, newIds2);
    CleanedOnce(WithDefaults(d.roles, setup.defaults, found, newIds), once.permissions);
  }

  lemma CleanedOnce(roles: Roles, table: Permissions)
    ensures Cleaned(Cleaned(roles, table), table) == Cleaned(roles, table)
  {
  }

  /** After a run a custom role holds, of the permissions it held, exactly the known ones and those
      that escape; exactly the known ones where the key column is compared or both name columns agree. */
  lemma CustomRolesKeepKnown(d: Data, setup: Setup, found: map<string, string>, newIds: seq<string>, id: string)
    requires Runnable(d, setup, found, newIds)
    requires id in d.roles && !d.roles[id].system
    ensures id in RunWith(d, setup, found, newIds).roles
    ensures RunWith(d, setup, found, newIds).roles[id].permissions
         == set p | p in d.roles[id].permissions && (p in setup.known || Escapes(d.permissions, setup, p))
    ensures setup.compared == KeyColumn || NamesAgree(d.permissions) ==>
              RunWith(d, setup, found, newIds).roles[id].permissions == set p | p in d.roles[id].permissions &&
                  p in setup.known
  {
    OtherRolesAfterRun(d, setup, found, newIds, id);
    SynchronisedExactly(d.permissions, setup);
    forall p | p in d.roles[id].permissions
      ensures p in Allowed(d.roles[id].permissions, Synchronised(d.permissions, setup))
         <==> p in setup.known || Escapes(d.permissions, setup, p)
    {
      SynchronisedKeeps(d.permissions, setup, p);
      AllowedMeansKnown(d.permissions, setup, p);
    }
  }

  // ----- what a run leaves, read off the data

  // Default names and the new ids are distinct, defaults list known permissions, roles hold stored ones,
  // and no default name is stored twice as a system role of no organization.
  ghost predicate Startable(d: Data, setup: Setup, newIds: seq<string>) {
    && |newIds| == |setup.defaults| && NoDuplicates(newIds)
    && (forall id :: id in newIds ==> id !in d.roles)
    && (forall i, j :: 0 <= i < j < |setup.defaults| ==> setup.defaults[i].name != setup.defaults[j].name)
    && (forall x, p :: x in setup.defaults && p in x.permissions ==> p in setup.known)
    && (forall id, p :: id in d.roles && p in d.roles[id].permissions ==> p in d.permissions)
    && (forall a, b :: a in d.roles && b in d.roles && StoresDefault(d.roles[a], setup)
                       && StoresDefault(d.roles[b], setup) && d.roles[a].name == d.roles[b].name
                       ==> a == b)
  }

  ghost predicate NamesDefault(setup: Setup, name: string) {
    exists i :: 0 <= i < |setup.defaults| && setup.defaults[i].name == name
  }

  // Known permissions are allowed, under both names; of the others only those stay allowed whose name
  // column is compared and is empty or known.
  ghost predicate PermissionsInitialised(before: Permissions, after: Permissions, setup: Setup) {
    && (forall k :: k in after <==> k in before || k in setup.known)
    && (forall k :: k in setup.known ==> k in after && after[k].allow && after[k].name == Some(k))
    && (forall k :: k in after && k !in setup.known ==>
          && after[k].name == before[k].name
          && (after[k].allow <==> before[k].allow && setup.compared == NameColumn
                                  && (before[k].name.None? || before[k].name.value in setup.known)))
  }

  // A system role of no organization by the default's name that holds exactly its permissions.
  ghost predicate HoldsDefault(r: Role, x: DefaultRole) {
    r.system && r.organization == None && r.name == x.name && r.permissions == x.permissions
  }

  ghost predicate StoresDefault(r: Role, setup: Setup) {
    r.system && r.organization == None && NamesDefault(setup, r.name)
  }

  // Each default is stored once, over the role of its name where there was one; of the other roles the
  // custom ones keep what they held that is allowed, and the system ones are as they were.
  ghost predicate RolesInitialised(before: Data, after: Data, setup: Setup) {
    && (forall id :: id in before.roles ==> id in after.roles)
    && (forall x :: x in setup.defaults ==> exists id :: id in after.roles && HoldsDefault(after.roles[id], x))
    && (forall a, b :: a in after.roles && b in after.roles && StoresDefault(after.roles[a], setup)
                       && StoresDefault(after.roles[b], setup) && after.roles[a].name == after.roles[b].name
                       ==> a == b)
    && (forall id :: id in after.roles && (id !in before.roles || StoresDefault(before.roles[id], setup)) ==>
          exists x :: x in setup.defaults && HoldsDefault(after.roles[id], x)
                      && (id in before.roles ==> before.roles[id].name == x.name))
    && (forall id :: id in before.roles && !StoresDefault(before.roles[id], setup) ==>
          && after.roles[id].name == before.roles[id].name && after.roles[id].system == before.roles[id].system
          && after.roles[id].organization == before.roles[id].organization
          && forall p :: p in after.roles[id].permissions <==>
               && p in before.roles[id].permissions
               && (before.roles[id].system || (p in after.permissions && after.permissions[p].allow)))
  }

  lemma SynchronisedMeaning(table: Permissions, setup: Setup)
    ensures PermissionsInitialised(table, Synchronised(table, setup), setup)
  {
    forall k
      ensures k in Synchronised(table, setup) <==> k in table || k in setup.known
      ensures k in setup.known ==> Synchronised(table, setup)[k] == Permission(Some(k), true)
      ensures k in table && k !in setup.known ==> Synchronised(table, setup)[k].name == table[k].name
      ensures k in table && k !in setup.known ==>
                (Synchronised(table, setup)[k].allow <==> table[k].allow && !Stale(k, table[k], setup))
    {
      UpsertedMeaning(table, setup.known, k);
    }
  }

  lemma StoresMeansDefault(setup: Setup, r: Role)
    ensures StoresDefault(r, setup) <==> exists x :: x in setup.defaults && IsDefault(r, x.name)
  {
    if StoresDefault(r, setup) {
      var i :| 0 <= i < |setup.defaults| && setup.defaults[i].name == r.name;
      assert setup.defaults[i] in setup.defaults;
    }
  }

  lemma StartableIsRunnable(d: Data, setup: Setup, found: map<string, string>, newIds: seq<string>)
    requires Startable(d, setup, newIds) && FoundRoles(d.roles, setup.defaults, found)
    ensures Runnable(d, setup, found, newIds)
  {
    forall a, b, x | a in d.roles && b in d.roles && x in setup.defaults && IsDefault(d.roles[a], x.name)
                     && IsDefault(d.roles[b], x.name)
      ensures a == b
    {
      var i :| 0 <= i < |setup.defaults| && setup.defaults[i] == x;
      assert NamesDefault(setup, x.name);
    }
  }

  // What a role of the data after a run is.
  lemma RoleAfterRun(d: Data, setup: Setup, found: map<string, string>, newIds: seq<string>, id: string)
    requires Runnable(d, setup, found, newIds) && id in RunWith(d, setup, found, newIds).roles
    requires id !in d.roles || StoresDefault(d.roles[id], setup)
    ensures exists x :: x in setup.defaults && HoldsDefault(RunWith(d, setup, found, newIds).roles[id], x)
                        && (id in d.roles ==> d.roles[id].name == x.name)
  {
    RolesAfterRun(d, setup, found, newIds, id);
    if id in d.roles {
      StoresMeansDefault(setup, d.roles[id]);
    }
    var i :| 0 <= i < |setup.defaults| && TargetId(setup.defaults, found, newIds, i) == id;
    DefaultRolesAfterRun(d, setup, found, newIds, i);
    assert setup.defaults[i] in setup.defaults;
    if id in d.roles {
      TargetHasName(d, setup, found, newIds, i);
    }
  }

  // A default written over a stored role has that role's name.
  lemma TargetHasName(d: Data, setup: Setup, found: map<string, string>, newIds: seq<string>, i: nat)
    requires Runnable(d, setup, found, newIds) && i < |setup.defaults|
    ensures TargetId(setup.defaults, found, newIds, i) in d.roles ==>
              d.roles[TargetId(setup.defaults, found, newIds, i)].name == setup.defaults[i].name
  {
    assert newIds[i] in newIds;
  }

  lemma OnePlacePerDefault(d: Data, setup: Setup, found: map<string, string>, newIds: seq<string>, a: string, b: string)
    requires Runnable(d, setup, found, newIds)
    requires a in RunWith(d, setup, found, newIds).roles && b in RunWith(d, setup, found, newIds).roles
    requires StoresDefault(RunWith(d, setup, found, newIds).roles[a], setup)
    requires StoresDefault(RunWith(d, setup, found, newIds).roles[b], setup)
    requires RunWith(d, setup, found, newIds).roles[a].name == RunWith(d, setup, found, newIds).roles[b].name
    ensures a == b
  {
    var name := RunWith(d, setup, found, newIds).roles[a].name;
    var i :| 0 <= i < |setup.defaults| && setup.defaults[i].name == name;
    DefaultsArePlaced(d, setup, found, newIds, a, i);
    DefaultsArePlaced(d, setup, found, newIds, b, i);
  }

  lemma OtherRoleAfterRun(d: Data, setup: Setup, found: map<string, string>, newIds: seq<string>, id: string)
    requires Runnable(d, setup, found, newIds) && id in d.roles && !StoresDefault(d.roles[id], setup)
    ensures id in RunWith(d, setup, found, newIds).roles
    ensures RunWith(d, setup, found, newIds).roles[id]
         == if d.roles[id].system then d.roles[id]
            else d.roles[id].(permissions :=
                Allowed(d.roles[id].permissions, RunWith(d, setup, found, newIds).permissions))
  {
    StoresMeansDefault(setup, d.roles[id]);
    OtherRolesAfterRun(d, setup, found, newIds, id);
  }

  lemma DefaultAfterRun(d: Data, setup: Setup, found: map<string, string>, newIds: seq<string>, x: DefaultRole)
    requires Runnable(d, setup, found, newIds) && x in setup.defaults
    ensures exists id :: id in RunWith(d, setup, found, newIds).roles
                         && HoldsDefault(RunWith(d, setup, found, newIds).roles[id], x)
  {
    var i :| 0 <= i < |setup.defaults| && setup.defaults[i] == x;
    DefaultRolesAfterRun(d, setup, found, newIds, i);
  }

  /** A run from data it can start from leaves the data initialised. */
  lemma RunInitialises(d: Data, setup: Setup, found: map<string, string>, newIds: seq<string>)
    requires Startable(d, setup, newIds) && FoundRoles(d.roles, setup.defaults, found)
    ensures PermissionsInitialised(d.permissions, RunWith(d, setup, found, newIds).permissions, setup)
    ensures RolesInitialised(d, RunWith(d, setup, found, newIds), setup)
  {
    var after := RunWith(d, setup, found, newIds);
    StartableIsRunnable(d, setup, found, newIds);
    SynchronisedMeaning(d.permissions, setup);
    forall x | x in setup.defaults ensures exists id :: id in after.roles && HoldsDefault(after.roles[id], x) {
      DefaultAfterRun(d, setup, found, newIds, x);
    }
    forall id | id in d.roles ensures id in after.roles {
      WithDefaultsAt(d.roles, setup.defaults, found, newIds, id);
    }
    forall a, b | a in after.roles && b in after.roles && StoresDefault(after.roles[a], setup)
                  && StoresDefault(after.roles[b], setup) && after.roles[a].name == after.roles[b].name
      ensures a == b
    {
      OnePlacePerDefault(d, setup, found, newIds, a, b);
    }
    forall id | id in after.roles && (id !in d.roles || StoresDefault(d.roles[id], setup))
      ensures exists x :: x in setup.defaults && HoldsDefault(after.roles[id], x)
                          && (id in d.roles ==> d.roles[id].name == x.name)
    {
      RoleAfterRun(d, setup, found, newIds, id);
    }
    forall id | id in d.roles && !StoresDefault(d.roles[id], setup)
      ensures id in after.roles && after.roles[id] == if d.roles[id].system then d.roles[id]
              else d.roles[id].(permissions := Allowed(d.roles[id].permissions, after.permissions))
    {
      OtherRoleAfterRun(d, setup, found, newIds, id);
    }
  }

  // ----- the initializer

  class Initializer {
    var data: Data

    constructor (data: Data)
      ensures this.data == data
    {
      this.data := data;
    }

    /** The four steps of a start-up, in order. */
    method Run(setup: Setup, newIds: seq<string>) returns (ghost found: map<string, string>)
      requires |newIds| == |setup.defaults|
      modifies this
      ensures FoundRoles(old(data.roles), setup.defaults, found)
      ensures data == RunWith(old(data), setup, found, newIds)
      ensures Startable(old(data), setup, newIds) ==>
                PermissionsInitialised(old(data).permissions, data.permissions, setup)
                && RolesInitialised(old(data), data, setup)
    {
      ghost var before := data;
      CreateSystemPermissions(setup.known);
      InactivateInvalidPermissions(setup);
      found := CreateDefaultRoles(setup.defaults, newIds);
      RemoveInactivePermissionsFromCustomRoles();
      if Startable(before, setup, newIds) {
        RunInitialises(before, setup, found, newIds);
      }
    }

    method CreateSystemPermissions(known: seq<string>)
      modifies this
      ensures data == old(data).(permissions := Upserted(old(data.permissions), known))
    {
      var table := data.permissions;
      for i := 0 to |known|
        invariant data == old(data) && table == Upserted(data.permissions, known[..i])
      {
        assert known[..i + 1][..i] == known[..i];
        table := table[known[i] := Permission(Some(known[i]), true)];
      }
      assert known[..|known|] == known;
      data := data.(permissions := table);
    }

    method InactivateInvalidPermissions(setup: Setup)
      modifies this
      ensures data == old(data).(permissions := map k | k in old(data.permissions) ::
                if Stale(k, old(data.permissions)[k], setup) then old(data.permissions)[k].(allow := false)
                else old(data.permissions)[k])
    {
      var table := data.permissions;
      data := data.(permissions := map k | k in table ::
          if Stale(k, table[k], setup) then table[k].(allow := false) else table[k]);
    }

    method CreateDefaultRoles(defaults: seq<DefaultRole>, newIds: seq<string>)
      returns (ghost found: map<string, string>)
      requires |newIds| == |defaults|
      modifies this
      ensures FoundRoles(old(data.roles), defaults, found)
      ensures data == old(data).(roles := WithDefaults(old(data.roles), defaults, found, newIds))
    {
      var byName := FindDefaults(data.roles, defaults);
      found := byName;
      var roles := data.roles;
      for i := 0 to |defaults|
        invariant data == old(data) && roles == WithDefaults(data.roles, defaults[..i], byName, newIds[..i])
      {
        var d := defaults[i];
        assert defaults[..i + 1][..i] == defaults[..i] && newIds[..i + 1][..i] == newIds[..i];
        var id := if d.name in byName then byName[d.name] else newIds[i];
        roles := roles[id := Role(d.name, true, None, d.permissions)];
      }
      assert defaults[..|defaults|] == defaults && newIds[..|newIds|] == newIds;
      data := data.(roles := roles);
    }

    method RemoveInactivePermissionsFromCustomRoles()
      modifies this
      ensures data == old(data).(roles := Cleaned(old(data.roles), data.permissions))
    {
      var table, roles := data.permissions, data.roles;
      var stale := InSomeOrder(
        set id | id in roles && !roles[id].system &&
                 exists p :: p in roles[id].permissions && p in table && !table[p].allow);
      for i := 0 to |stale|
        invariant data == old(data) && roles.Keys == data.roles.Keys
        invariant forall id :: id in roles ==>
                    roles[id] == if id in stale[..i] then Cleaned(data.roles, table)[id] else data.roles[id]
      {
        var id := stale[i];
        assert id in stale && stale[..i + 1] == stale[..i] + [id] && id !in stale[..i];
        roles := roles[id := roles[id].(permissions := Allowed(roles[id].permissions, table))];
      }
      assert stale[..|stale|] == stale;
      assert roles == Cleaned(data.roles, table);
      data := data.(roles := roles);
    }
  }

  // The last role per name wins, in the order the database returns them.
  method FindDefaults(roles: Roles, defaults: seq<DefaultRole>) returns (found: map<string, string>)
    ensures FoundRoles(roles, defaults, found)
  {
    var matching := InSomeOrder(set id | id in roles && exists d :: d in defaults && IsDefault(roles[id], d.name));
    found := map[];
    for i := 0 to |matching|
      invariant forall name :: name in found ==> found[name] in roles && IsDefault(roles[found[name]], name)
      invariant forall id :: id in matching[..i] && id in roles ==> roles[id].name in found
    {
      assert matching[i] in matching && matching[..i + 1] == matching[..i] + [matching[i]];
      found := found[roles[matching[i]].name := matching[i]];
    }
    assert matching[..|matching|] == matching;
  }
}
