/**
 The permission engine: the roles of a user's memberships are folded into permission maps, the
 maps are memoised, and a request over schools and organizations is decided in stages.
 */
module UserPermissions {
  import opened Collections
  import opened Statuses

  // ----- stored data

  datatype Permission = Permission(name: string, allow: bool)

  datatype Role = Role(status: Status, permissions: set<Permission>)

  // A membership of a user in an organization or a school, its place.
  datatype Membership = Membership(user: string, place: string, roles: set<Role>)

  // A school belongs to at most one organization.
  datatype Database = Database(users: map<string, Status>, organizationMemberships: set<Membership>,
                               schoolMemberships: set<Membership>, schoolOrganization: map<string, string>)

  // ----- rows of the permission queries

  datatype PermissionRow = PermissionRow(place: string, permission: Option<string>)

  predicate Grants(r: Role, p: Permission) {
    r.status == Active && p in r.permissions && p.allow
  }

  predicate Unmatched(r: Role) {
    r.status == Active && forall p :: p in r.permissions ==> !p.allow
  }

  predicate Roleless(m: Membership) {
    forall r :: r in m.roles ==> r.status != Active
  }

  // SELECT DISTINCT place, permission FROM membership LEFT JOIN active roles LEFT JOIN allowed permissions.
  function JoinRows(ms: set<Membership>, user: string): set<PermissionRow> {
    (set m, r, p | m in ms && m.user == user && r in m.roles && p in r.permissions && Grants(r, p)
       :: PermissionRow(m.place, Some(p.name)))
    + (set m, r | m in ms && m.user == user && r in m.roles && Unmatched(r) :: PermissionRow(m.place, None))
    + (set m | m in ms && m.user == user && Roleless(m) :: PermissionRow(m.place, None))
  }

  // ----- what the permission maps mean

  function PlacesOf(ms: set<Membership>, user: string): set<string> {
    set m | m in ms && m.user == user :: m.place
  }

  function PermissionsAt(ms: set<Membership>, user: string, place: string): set<string> {
    set m, r, p | m in ms && m.user == user && m.place == place && r in m.roles && p in r.permissions &&
        Grants(r, p) :: p.name
  }

  function PermissionMap(ms: set<Membership>, user: string): map<string, set<string>> {
    if user == "" then map[] else map place | place in PlacesOf(ms, user) :: PermissionsAt(ms, user, place)
  }

  lemma JoinRowsMeaning(ms: set<Membership>, user: string)
    ensures forall place :: place in PlacesOf(ms, user)
              <==> exists row :: row in JoinRows(ms, user) && row.place == place
    ensures forall place, name :: name in PermissionsAt(ms, user, place)
              <==> PermissionRow(place, Some(name)) in JoinRows(ms, user)
  {
    var rows := JoinRows(ms, user);
    forall place | place in PlacesOf(ms, user) ensures exists row :: row in rows && row.place == place {
      var m :| m in ms && m.user == user && m.place == place;
      if !Roleless(m) {
        var r :| r in m.roles && r.status == Active;
        if Unmatched(r) {
          assert PermissionRow(place, None) in rows;
        } else {
          var p :| p in r.permissions && p.allow;
          assert Grants(r, p);
          assert PermissionRow(place, Some(p.name)) in rows;
        }
      } else {
        assert PermissionRow(place, None) in rows;
      }
    }
  }

  // The user holds the permission at the place: a membership there has an active role that allows it.
  ghost predicate Holds(ms: set<Membership>, user: string, place: string, permission: string) {
    user != "" && exists m, r, p :: m in ms && r in m.roles && p in r.permissions
                                    && m.user == user && m.place == place && r.status == Active
                                    && p.allow && p.name == permission
  }

  ghost predicate MemberAt(ms: set<Membership>, user: string, place: string) {
    user != "" && exists m :: m in ms && m.user == user && m.place == place
  }

  /** The permission map has the places of the user's memberships, and at each what the user holds there. */
  lemma PermissionMapMeaning(ms: set<Membership>, user: string, place: string, permission: string)
    ensures place in PermissionMap(ms, user) <==> MemberAt(ms, user, place)
    ensures Has(PermissionMap(ms, user), place, permission) <==> Holds(ms, user, place, permission)
  {
    if Holds(ms, user, place, permission) {
      var m, r, p :| m in ms && r in m.roles && p in r.permissions && m.user == user && m.place == place
                     && r.status == Active && p.allow && p.name == permission;
      assert Grants(r, p);
      assert m.place in PlacesOf(ms, user);
    }
  }

  // ----- folding rows into maps

  // The organization fold: every row opens its organization's entry, and null permissions are skipped.
  method FoldOrganizationRows(rows: seq<PermissionRow>) returns (permissions: map<string, set<string>>)
    ensures forall place :: place in permissions <==> exists row :: row in rows && row.place == place
    ensures forall place :: place in permissions ==>
              permissions[place] == set row | row in rows && row.place == place &&
                  row.permission.Some? :: row.permission.value
  {
    permissions := map[];
    for i := 0 to |rows|
      invariant forall place :: place in permissions <==> exists row :: row in rows[..i] && row.place == place
      invariant forall place :: place in permissions ==>
                  permissions[place] == set row | row in rows[..i] && row.place == place &&
                      row.permission.Some? :: row.permission.value
    {
      var row := rows[i];
      assert rows[..i + 1] == rows[..i] + [row];
      var known := if row.place in permissions then permissions[row.place] else {};
      permissions := permissions[row.place := known];
      if row.permission.Some? {
        permissions := permissions[row.place := known + {row.permission.value}];
      }
    }
    assert rows[..|rows|] == rows;
  }

  // The school fold keeps null among the permissions.
  method FoldSchoolRows(rows: seq<PermissionRow>) returns (permissions: map<string, set<Option<string>>>)
    ensures forall place :: place in permissions <==> exists row :: row in rows && row.place == place
    ensures forall place :: place in permissions ==>
              permissions[place] == set row | row in rows && row.place == place :: row.permission
  {
    permissions := map[];
    for i := 0 to |rows|
      invariant forall place :: place in permissions <==> exists row :: row in rows[..i] && row.place == place
      invariant forall place :: place in permissions ==>
                  permissions[place] == set row | row in rows[..i] && row.place == place :: row.permission
    {
      var row := rows[i];
      assert rows[..i + 1] == rows[..i] + [row];
      if row.place in permissions {
        permissions := permissions[row.place := permissions[row.place] + {row.permission}];
      } else {
        permissions := permissions[row.place := {row.permission}];
      }
    }
    assert rows[..|rows|] == rows;
  }

  lemma FoldIsPermissionMap(ms: set<Membership>, user: string, rows: seq<PermissionRow>,
                            permissions: map<string, set<string>>)
    requires user != "" && forall row :: row in rows <==> row in JoinRows(ms, user)
    requires forall place :: place in permissions <==> exists row :: row in rows && row.place == place
    requires forall place :: place in permissions ==>
               permissions[place] == set row | row in rows && row.place == place &&
                   row.permission.Some? :: row.permission.value
    ensures permissions == PermissionMap(ms, user)
  {
    JoinRowsMeaning(ms, user);
    forall place | place in permissions ensures permissions[place] == PermissionsAt(ms, user, place) {
      forall name ensures name in permissions[place] <==> name in PermissionsAt(ms, user, place) {
        assert name in permissions[place] <==> PermissionRow(place, Some(name)) in rows;
      }
    }
    assert permissions.Keys == PlacesOf(ms, user);
  }

  // A school map that holds the permissions of m, with or without null among them.
  ghost predicate HoldsPermissions(schools: map<string, set<Option<string>>>, m: map<string, set<string>>) {
    schools.Keys == m.Keys && forall s, name :: s in m ==> (Some(name) in schools[s] <==> name in m[s])
  }

  // The names a school entry answers `has` for: everything but null.
  function Names(stored: set<Option<string>>): set<string> {
    set p | p in stored && p.Some? :: p.value
  }

  lemma NamesHeld(schools: map<string, set<Option<string>>>, m: map<string, set<string>>, place: string)
    requires HoldsPermissions(schools, m) && place in m
    ensures Names(schools[place]) == m[place]
  {
    forall name ensures name in Names(schools[place]) <==> name in m[place] {
      assert name in Names(schools[place]) <==> Some(name) in schools[place];
    }
  }

  // ----- the decision

  predicate Has(m: map<string, set<string>>, place: string, permission: string) {
    place in m && permission in m[place]
  }

  // What the decision looks at.
  datatype Question = Question(organizations: map<string, set<string>>, schools: map<string, set<string>>,
                               schoolOrganization: map<string, string>, permission: string,
                               organizationIds: seq<string>, schoolIds: seq<string>)
  {
    predicate IsOf(schoolId: string, organizationId: string) {
      schoolId in schoolOrganization && schoolOrganization[schoolId] == organizationId
    }

    predicate SchoolAllowed(s: string) {
      Has(schools, s, permission) || exists o :: o in organizationIds && IsOf(s, o) && Has(organizations, o, permission)
    }

    predicate OrganizationAllowed(o: string) {
      || Has(organizations, o, permission)
      || ((exists s :: s in schoolIds && IsOf(s, o)) &&
          (forall s :: s in schoolIds && IsOf(s, o) ==> Has(schools, s, permission)))
    }

    predicate LacksOrganization(o: string) {
      !Has(organizations, o, permission)
    }

    predicate LacksSchool(s: string) {
      !Has(schools, s, permission)
    }

    predicate NotThroughOrganization(s: string) {
      forall o :: o in organizationIds && IsOf(s, o) ==> LacksOrganization(o)
    }

    predicate NotThroughSchools(o: string) {
      (exists s :: s in schoolIds && IsOf(s, o)) ==> exists s :: s in schoolIds && IsOf(s, o) && LacksSchool(s)
    }

    predicate OrganizationRefused(o: string) {
      !OrganizationAllowed(o)
    }

    predicate SchoolRefused(s: string) {
      !SchoolAllowed(s)
    }

    // Every school of an organization that lacks the permission is still asked about.
    lemma SchoolsOfRefused(o: string, remaining: seq<string>, allowed: seq<string>,
                           organizationSchools: map<string, seq<string>>)
      requires o in organizationIds && LacksOrganization(o)
      requires remaining == Filter(schoolIds, NotThroughOrganization)
      requires forall s :: s in allowed <==> s in remaining && !LacksSchool(s)
      requires o in organizationSchools <==> exists s :: s in schoolIds && IsOf(s, o)
      requires o in organizationSchools ==> forall s :: s in organizationSchools[o] <==> s in schoolIds && IsOf(s, o)
      ensures NotThroughSchools(o)
              <==> !(o in organizationSchools && forall s :: s in organizationSchools[o] ==> s in allowed)
    {
      forall s | s in schoolIds && IsOf(s, o) ensures s in allowed <==> !LacksSchool(s) {
        assert NotThroughOrganization(s);
      }
    }

    lemma NoAllowedSchools(organizations: seq<string>, remaining: seq<string>)
      requires organizations == Filter(organizationIds, LacksOrganization)
      requires remaining == Filter(schoolIds, NotThroughOrganization)
      requires forall s :: s in remaining ==> LacksSchool(s)
      ensures Filter(organizations, NotThroughSchools) == organizations
    {
      forall o | o in organizations ensures NotThroughSchools(o) {
        forall s | s in schoolIds && IsOf(s, o) ensures LacksSchool(s) {
          assert NotThroughOrganization(s);
        }
      }
      FilterAll(organizations, NotThroughSchools);
    }

    lemma {:induction false} StagesRefuse(badOrganizations: seq<string>, badSchools: seq<string>,
                                          remaining: seq<string>)
      requires badOrganizations == Filter(Filter(organizationIds, LacksOrganization), NotThroughSchools)
      requires remaining == Filter(schoolIds, NotThroughOrganization) && badSchools == Filter(remaining, LacksSchool)
      ensures badOrganizations == Filter(organizationIds, OrganizationRefused)
      ensures badSchools == Filter(schoolIds, SchoolRefused)
    {
      FilterTwice(organizationIds, LacksOrganization, NotThroughSchools, OrganizationRefused);
      FilterTwice(schoolIds, NotThroughOrganization, LacksSchool, SchoolRefused);
    }

    predicate Passes() {
      && (forall s :: s in schoolIds ==> SchoolAllowed(s))
      && (forall o :: o in organizationIds ==> OrganizationAllowed(o))
    }
  }

  datatype Check =
    | Thrown
    | Passed
    | Inactivated(userId: string)
    | Refused
    | Failed(userId: string, organizationIds: seq<string>, schoolIds: seq<string>)

  datatype Context = Context(schoolIds: Option<seq<string>>, organizationIds: Option<seq<string>>,
                             userId: Option<string>)

  // First occurrences of the non-empty ids.
  function UniqueAndTruthy(ids: seq<string>): (clean: seq<string>)
    ensures NoDuplicates(clean)
    ensures forall id :: id in clean <==> id in ids && id != ""
  {
    if ids == [] then []
    else
      var rest := UniqueAndTruthy(ids[..|ids| - 1]);
      var id := ids[|ids| - 1];
      assert forall x :: x in ids <==> x in ids[..|ids| - 1] || x == id;
      if id == "" || id in rest then rest else rest + [id]
  }

  function Clean(ids: Option<seq<string>>): seq<string> {
    UniqueAndTruthy(GetOr(ids, []))
  }

  function QuestionOf(db: Database, user: string, context: Context, permission: string): Question {
    Question(PermissionMap(db.organizationMemberships, user), PermissionMap(db.schoolMemberships, user),
             db.schoolOrganization, permission, Clean(context.organizationIds), Clean(context.schoolIds))
  }

  predicate Requested(ids: Option<seq<string>>, id: string) {
    ids.Some? && id in ids.value && id != ""
  }

  // A school is authorised by its own permission, or by that of a requested organization it belongs to.
  ghost predicate SchoolAuthorised(db: Database, user: string, context: Context, permission: string, s: string) {
    || Holds(db.schoolMemberships, user, s, permission)
    || (s in db.schoolOrganization && Requested(context.organizationIds, db.schoolOrganization[s])
        && Holds(db.organizationMemberships, user, db.schoolOrganization[s], permission))
  }

  ghost predicate RequestedSchoolOf(db: Database, context: Context, s: string, o: string) {
    Requested(context.schoolIds, s) && s in db.schoolOrganization && db.schoolOrganization[s] == o
  }

  // An organization is authorised by its own permission, or by its requested schools, all of them.
  ghost predicate OrganizationAuthorised(db: Database, user: string, context: Context, permission: string, o: string) {
    || Holds(db.organizationMemberships, user, o, permission)
    || ((exists s :: RequestedSchoolOf(db, context, s, o))
        && (forall s :: RequestedSchoolOf(db, context, s, o) ==> Holds(db.schoolMemberships, user, s, permission)))
  }

  // Something is requested, and all of it is authorised.
  ghost predicate Authorised(db: Database, user: string, context: Context, permission: string) {
    && ((exists s :: Requested(context.schoolIds, s)) || (exists o :: Requested(context.organizationIds, o)))
    && (forall s :: Requested(context.schoolIds, s) ==> SchoolAuthorised(db, user, context, permission, s))
    && (forall o :: Requested(context.organizationIds, o) ==> OrganizationAuthorised(db, user, context, permission, o))
  }

  lemma CleanMeaning(ids: Option<seq<string>>)
    ensures forall id :: id in Clean(ids) <==> Requested(ids, id)
  {
  }

  lemma QuestionMeaning(db: Database, user: string, context: Context, permission: string, id: string)
    ensures var q := QuestionOf(db, user, context, permission);
            && (q.SchoolAllowed(id) <==> SchoolAuthorised(db, user, context, permission, id))
            && (q.OrganizationAllowed(id) <==> OrganizationAuthorised(db, user, context, permission, id))
  {
    var q := QuestionOf(db, user, context, permission);
    CleanMeaning(context.organizationIds);
    CleanMeaning(context.schoolIds);
    forall place
      ensures Has(q.organizations, place, permission) <==> Holds(db.organizationMemberships, user, place, permission)
      ensures Has(q.schools, place, permission) <==> Holds(db.schoolMemberships, user, place, permission)
    {
      PermissionMapMeaning(db.organizationMemberships, user, place, permission);
      PermissionMapMeaning(db.schoolMemberships, user, place, permission);
    }
    assert forall s, o :: s in q.schoolIds && q.IsOf(s, o) <==> RequestedSchoolOf(db, context, s, o);
  }

  // The decision, stated over the requested ids at once.
  function Decide(q: Question, user: string): Check {
    var badOrganizations := Filter(q.organizationIds, q.OrganizationRefused);
    var badSchools := Filter(q.schoolIds, q.SchoolRefused);
    if q.organizationIds == [] && q.schoolIds == [] then Failed(user, [], [])
    else if badOrganizations == [] && badSchools == [] then Passed
    else Failed(user, badOrganizations, badSchools)
  }

  /** A non-empty request passes exactly when every requested id is allowed, and a failure reports
      exactly the ids that are not. */
  lemma DecideIsExact(q: Question, user: string)
    requires q.organizationIds != [] || q.schoolIds != []
    ensures Decide(q, user).Passed? <==> q.Passes()
    ensures Decide(q, user).Failed? ==>
              && (forall o :: o in Decide(q, user).organizationIds <==>
                    o in q.organizationIds && !q.OrganizationAllowed(o))
              && (forall s :: s in Decide(q, user).schoolIds <==> s in q.schoolIds && !q.SchoolAllowed(s))
  {
    FilterEmpty(q.organizationIds, q.OrganizationRefused);
    FilterEmpty(q.schoolIds, q.SchoolRefused);
  }

  /** Read off the stored memberships: the decision passes exactly what is authorised, and otherwise
      reports exactly the requested ids that are not. */
  lemma DecideMeaning(db: Database, user: string, context: Context, permission: string)
    ensures var check := Decide(QuestionOf(db, user, context, permission), user);
            && (check.Passed? <==> Authorised(db, user, context, permission))
            && (!check.Passed? ==> Reports(check, db, user, context, permission))
  {
    var q := QuestionOf(db, user, context, permission);
    CleanMeaning(context.organizationIds);
    CleanMeaning(context.schoolIds);
    forall id
      ensures q.SchoolAllowed(id) <==> SchoolAuthorised(db, user, context, permission, id)
      ensures q.OrganizationAllowed(id) <==> OrganizationAuthorised(db, user, context, permission, id)
    {
      QuestionMeaning(db, user, context, permission, id);
    }
    if q.organizationIds != [] || q.schoolIds != [] {
      DecideIsExact(q, user);
      if q.organizationIds != [] {
        assert Requested(context.organizationIds, q.organizationIds[0]);
      } else {
        assert Requested(context.schoolIds, q.schoolIds[0]);
      }
    }
  }

  // The failure names the user and exactly the requested ids that are not authorised.
  ghost predicate Reports(check: Check, db: Database, user: string, context: Context, permission: string) {
    && check.Failed? && check.userId == user
    && (forall o :: o in check.organizationIds <==>
          Requested(context.organizationIds, o) && !OrganizationAuthorised(db, user, context, permission, o))
    && (forall s :: s in check.schoolIds <==>
          Requested(context.schoolIds, s) && !SchoolAuthorised(db, user, context, permission, s))
  }

  ghost predicate Extends(m: map<string, set<string>>, larger: map<string, set<string>>) {
    forall place :: place in m ==> place in larger && m[place] <= larger[place]
  }

  /** More permissions never turn a pass into a failure. */
  lemma DecideIsMonotone(q: Question, larger: Question, user: string)
    requires larger == q.(organizations := larger.organizations, schools := larger.schools)
    requires Extends(q.organizations, larger.organizations) && Extends(q.schools, larger.schools)
    requires Decide(q, user).Passed?
    ensures Decide(larger, user).Passed?
  {
    DecideIsExact(q, user);
    DecideIsExact(larger, user);
    forall s | s in q.schoolIds ensures larger.SchoolAllowed(s) {
      assert q.SchoolAllowed(s);
      if !Has(q.schools, s, q.permission) {
        var o :| o in q.organizationIds && q.IsOf(s, o) && Has(q.organizations, o, q.permission);
        assert larger.IsOf(s, o) && Has(larger.organizations, o, q.permission);
      }
    }
    forall o | o in q.organizationIds ensures larger.OrganizationAllowed(o) {
      assert q.OrganizationAllowed(o);
      if !Has(q.organizations, o, q.permission) {
        var s :| s in q.schoolIds && q.IsOf(s, o);
        assert larger.IsOf(s, o);
        forall t | t in larger.schoolIds && larger.IsOf(t, o) ensures Has(larger.schools, t, q.permission) {
          assert q.IsOf(t, o);
        }
      }
    }
  }

  /** Asking about one more organization that has the permission keeps a pass. */
  lemma AuthorisedOrganizationKeepsPass(q: Question, wider: Question, o: string, user: string)
    requires wider == q.(organizationIds := q.organizationIds + [o]) && Has(q.organizations, o, q.permission)
    requires Decide(q, user).Passed?
    ensures Decide(wider, user).Passed?
  {
    DecideIsExact(q, user);
    DecideIsExact(wider, user);
    forall s | s in wider.schoolIds ensures wider.SchoolAllowed(s) {
      assert q.SchoolAllowed(s);
      if !Has(q.schools, s, q.permission) {
        var x :| x in q.organizationIds && q.IsOf(s, x) && Has(q.organizations, x, q.permission);
        assert x in wider.organizationIds && wider.IsOf(s, x);
      }
    }
    forall x | x in wider.organizationIds ensures wider.OrganizationAllowed(x) {
      if x != o {
        assert q.OrganizationAllowed(x);
        if s :| s in q.schoolIds && q.IsOf(s, x) {
          assert wider.IsOf(s, x);
        }
        forall t | t in wider.schoolIds && wider.IsOf(t, x) ensures q.IsOf(t, x) {
        }
      }
    }
  }

  // ----- the engine

  ghost predicate Related(q: Question, organizationSchools: map<string, seq<string>>,
                          schoolOrganizations: map<string, string>) {
    && (forall s :: s in schoolOrganizations <==>
          s in q.schoolIds && exists o :: o in q.organizationIds && q.IsOf(s, o))
    && (forall s :: s in schoolOrganizations ==> q.IsOf(s, schoolOrganizations[s]))
    && (forall o :: o in organizationSchools <==>
          o in q.organizationIds && exists s :: s in q.schoolIds && q.IsOf(s, o))
    && (forall o, s :: o in organizationSchools ==> (s in organizationSchools[o] <==> s in q.schoolIds && q.IsOf(s, o)))
  }

  // A requested school is covered exactly when the organization it maps to is authorised.
  lemma CoveredSchools(q: Question, organizationSchools: map<string, seq<string>>,
                       schoolOrganizations: map<string, string>,
                       authorised: seq<string>)
    requires Related(q, organizationSchools, schoolOrganizations)
    requires forall o :: o in authorised <==> o in q.organizationIds && !q.LacksOrganization(o)
    ensures forall s :: s in q.schoolIds ==>
              (q.NotThroughOrganization(s) <==> s !in schoolOrganizations || schoolOrganizations[s] !in authorised)
  {
    forall s | s in q.schoolIds
      ensures q.NotThroughOrganization(s) <==> s !in schoolOrganizations || schoolOrganizations[s] !in authorised
    {
      if s in schoolOrganizations {
        var o := schoolOrganizations[s];
        assert q.IsOf(s, o);
        assert forall x :: q.IsOf(s, x) ==> x == o;
      }
    }
  }

  // The requested schools of every requested organization, and the organization of every such school.
  method SchoolOrganizationRelations(db: Database, organizationIds: seq<string>, schoolIds: seq<string>,
                                     ghost q: Question)
    returns (organizationSchools: map<string, seq<string>>, schoolOrganizations: map<string, string>)
    requires q.schoolOrganization == db.schoolOrganization && q.organizationIds == organizationIds &&
             q.schoolIds == schoolIds
    ensures Related(q, organizationSchools, schoolOrganizations)
  {
    var related := set s, o | s in schoolIds && o in organizationIds && s in db.schoolOrganization &&
        db.schoolOrganization[s] == o
                   :: (o, s);
    var rows := InSomeOrder(related);
    organizationSchools, schoolOrganizations := map[], map[];
    for i := 0 to |rows|
      invariant forall s :: s in schoolOrganizations <==> exists o :: (o, s) in rows[..i]
      invariant forall s :: s in schoolOrganizations ==> (schoolOrganizations[s], s) in rows[..i]
      invariant forall o :: o in organizationSchools <==> exists s :: (o, s) in rows[..i]
      invariant forall o, s :: o in organizationSchools ==> (s in organizationSchools[o] <==> (o, s) in rows[..i])
    {
      var (o, s) := rows[i];
      assert rows[..i + 1] == rows[..i] + [(o, s)];
      if o in organizationSchools {
        organizationSchools := organizationSchools[o := organizationSchools[o] + [s]];
      } else {
        organizationSchools := organizationSchools[o := [s]];
      }
      schoolOrganizations := schoolOrganizations[s := o];
    }
    assert rows[..|rows|] == rows;
    assert forall o, s :: (o, s) in rows <==> (o, s) in related;
    assert forall o, s :: (o, s) in related <==> s in q.schoolIds && o in q.organizationIds && q.IsOf(s, o);
  }

  datatype User = User(id: string, status: Status)

  class UserPermissions {
    const userId: Option<string>
    const isAdmin: bool
    const authViaApiKey: bool
    const superAdminPermissions: set<string>
    var user: Option<User>
    var userResolver: Option<Option<User>>
    var organizationPermissions: Option<map<string, set<string>>>
    var schoolPermissions: Option<map<string, set<Option<string>>>>

    constructor (userId: Option<string>, adminEmail: bool, apiKeyAuth: bool, superAdminPermissions: set<string>)
      ensures forall db, subject :: Remembers(db, subject)
      ensures this.userId == userId && this.superAdminPermissions == superAdminPermissions
      ensures authViaApiKey == apiKeyAuth && isAdmin == (apiKeyAuth || adminEmail)
    {
      this.userId := userId;
      isAdmin, authViaApiKey := apiKeyAuth || adminEmail, apiKeyAuth;
      this.superAdminPermissions := superAdminPermissions;
      user, userResolver, organizationPermissions, schoolPermissions := None, None, None, None;
    }

    // What is memoised is what the database says about the subject.
    ghost predicate Remembers(db: Database, subject: string)
      reads this
    {
      && (user.Some? ==> Found(db, subject) == user)
      && (userResolver.Some? ==> subject != "" && userResolver == Some(Found(db, subject)))
      && (organizationPermissions.Some? ==>
          organizationPermissions.value == PermissionMap(db.organizationMemberships, subject))
      && (schoolPermissions.Some? ==>
          HoldsPermissions(schoolPermissions.value, PermissionMap(db.schoolMemberships, subject)))
    }

    static function Found(db: Database, id: string): Option<User> {
      if id != "" && id in db.users then Some(User(id, db.users[id])) else None
    }

    function Subject(context: Context): string {
      var explicit := GetOr(context.userId, "");
      if explicit != "" then explicit else GetOr(userId, "")
    }

    // The answer for the subject, computed from the database alone.
    function Answer(db: Database, context: Context, permission: string): Check {
      var subject := Subject(context);
      var superAdmin := (authViaApiKey || isAdmin) && permission in superAdminPermissions;
      if authViaApiKey then (if superAdmin then Passed else Refused)
      else if Found(db, subject).None? then Thrown
      else if db.users[subject] != Active then Inactivated(subject)
      else if superAdmin then Passed
      else Decide(QuestionOf(db, subject, context, permission), subject)
    }

    // What an answer says: an API key passes with super admin permissions alone; a user passes if it is
    // stored and active, and an admin asking for a super admin permission or authorised.
    ghost predicate Answers(check: Check, db: Database, context: Context, permission: string) {
      var user := if context.userId.Some? && context.userId.value != "" then context.userId.value
                  else GetOr(userId, "");
      if authViaApiKey then
        check == if permission in superAdminPermissions then Passed else Refused
      else
        && (check.Thrown? <==> user == "" || user !in db.users)
        && (check.Inactivated? <==> user != "" && user in db.users && db.users[user] != Active)
        && (check.Inactivated? ==> check.userId == user)
        && (check.Passed? <==> && user != "" && user in db.users && db.users[user] == Active
                               && (|| (isAdmin && permission in superAdminPermissions)
                                   || Authorised(db, user, context, permission)))
        && (check.Failed? ==> Reports(check, db, user, context, permission))
        && !check.Refused?
    }

    lemma AnswerMeaning(db: Database, context: Context, permission: string)
      ensures Answers(Answer(db, context, permission), db, context, permission)
    {
      DecideMeaning(db, Subject(context), context, permission);
    }

    method GetUser(db: Database, id: string) returns (found: Option<User>)
      requires Remembers(db, id)
      modifies this
      ensures Remembers(db, id)
      ensures found == Found(db, id)
    {
      if user.Some? && user.value.id == id {
        return user;
      }
      if userResolver.None? {
        if id == "" {
          return None;
        }
        userResolver := Some(Found(db, id));
      }
      user := userResolver.value;
      found := user;
    }

    method OrganizationPermissions(db: Database, id: string) returns (permissions: map<string, set<string>>)
      requires Remembers(db, id)
      modifies this
      ensures Remembers(db, id)
      ensures permissions == PermissionMap(db.organizationMemberships, id)
    {
      if organizationPermissions.None? {
        if id == "" {
          organizationPermissions := Some(map[]);
          return map[];
        }
        var rows := InSomeOrder(JoinRows(db.organizationMemberships, id));
        permissions := FoldOrganizationRows(rows);
        FoldIsPermissionMap(db.organizationMemberships, id, rows, permissions);
        organizationPermissions := Some(permissions);
      }
      permissions := organizationPermissions.value;
    }

    method SchoolPermissions(db: Database, id: string) returns (permissions: map<string, set<Option<string>>>)
      requires Remembers(db, id)
      modifies this
      ensures Remembers(db, id)
      ensures HoldsPermissions(permissions, PermissionMap(db.schoolMemberships, id))
    {
      if schoolPermissions.None? {
        if id == "" {
          return map[];
        }
        var rows := InSomeOrder(JoinRows(db.schoolMemberships, id));
        permissions := FoldSchoolRows(rows);
        JoinRowsMeaning(db.schoolMemberships, id);
        forall s, name | s in permissions ensures Some(name) in permissions[s]
            <==> name in PermissionsAt(db.schoolMemberships, id, s) {
          assert Some(name) in permissions[s] <==> PermissionRow(s, Some(name)) in rows;
        }
        assert permissions.Keys == PermissionMap(db.schoolMemberships, id).Keys;
        schoolPermissions := Some(permissions);
      }
      permissions := schoolPermissions.value;
    }

    method OrganizationsWithPermission(db: Database, id: string, permission: string, ids: seq<string>)
      returns (authorised: seq<string>)
      requires Remembers(db, id)
      modifies this
      ensures Remembers(db, id)
      ensures forall o :: o in authorised
                <==> o in ids && Has(PermissionMap(db.organizationMemberships, id), o, permission)
    {
      var all := OrganizationPermissions(db, id);
      authorised := [];
      for i := 0 to |ids|
        invariant Remembers(db, id)
        invariant forall o :: o in authorised <==> o in ids[..i] && Has(all, o, permission)
      {
        if ids[i] in all && permission in all[ids[i]] {
          authorised := authorised + [ids[i]];
        }
      }
    }

    method SchoolsWithPermission(db: Database, id: string, permission: string, ids: seq<string>)
      returns (authorised: seq<string>)
      requires Remembers(db, id)
      modifies this
      ensures Remembers(db, id)
      ensures forall s :: s in authorised <==> s in ids && Has(PermissionMap(db.schoolMemberships, id), s, permission)
    {
      var all := SchoolPermissions(db, id);
      ghost var held := PermissionMap(db.schoolMemberships, id);
      authorised := [];
      for i := 0 to |ids|
        invariant Remembers(db, id)
        invariant forall s :: s in authorised <==> s in ids[..i] && Has(held, s, permission)
      {
        if ids[i] in all && Some(permission) in all[ids[i]] {
          authorised := authorised + [ids[i]];
        }
      }
    }

    /** The staged decision answers what the database alone decides, from whatever is memoised about
        the subject, so every answer in a series of calls about one user is the recomputed one. */
    method HasPermissions(db: Database, context: Context, permission: string) returns (check: Check)
      requires Remembers(db, Subject(context))
      modifies this
      ensures Remembers(db, Subject(context))
      ensures check == Answer(db, context, permission)
      ensures Answers(check, db, context, permission)
    {
      AnswerMeaning(db, context, permission);
      if authViaApiKey {
        return if permission in superAdminPermissions then Passed else Refused;
      }
      var organizationIds, schoolIds := Clean(context.organizationIds), Clean(context.schoolIds);
      var subject := Subject(context);
      var found := GetUser(db, subject);
      if found.None? {
        return Thrown;
      }
      if found.value.status != Active {
        return Inactivated(found.value.id);
      }
      if isAdmin && permission in superAdminPermissions {
        return Passed;
      }
      if organizationIds == [] && schoolIds == [] {
        return Failed(found.value.id, [], []);
      }
      check := DecideInStages(db, subject, permission, organizationIds, schoolIds,
                              QuestionOf(db, subject, context, permission));
    }

    // q is the question about the subject that the stages answer piece by piece.
    ghost predicate Asks(q: Question, db: Database, subject: string, permission: string, organizationIds: seq<string>,
                         schoolIds: seq<string>)
    {
      q == Question(PermissionMap(db.organizationMemberships, subject), PermissionMap(db.schoolMemberships, subject),
                    db.schoolOrganization, permission, organizationIds, schoolIds)
    }

    method DecideInStages(db: Database, subject: string, permission: string, organizationIds: seq<string>,
                          schoolIds: seq<string>, ghost q: Question) returns (check: Check)
      requires Remembers(db, subject) && Asks(q, db, subject, permission, organizationIds, schoolIds)
      requires organizationIds != [] || schoolIds != []
      modifies this
      ensures Remembers(db, subject)
      ensures check == Decide(q, subject)
    {
      var organizationSchools: map<string, seq<string>>, schoolOrganizations: map<string, string> := map[], map[];
      if organizationIds != [] && schoolIds != [] {
        organizationSchools, schoolOrganizations := SchoolOrganizationRelations(db, organizationIds, schoolIds, q);
      }
      assert Related(q, organizationSchools, schoolOrganizations);
      var unauthorised, remaining := OrganizationStage(db, subject, permission, organizationIds, schoolIds,
                                                       organizationSchools, schoolOrganizations, q);
      var badOrganizations, badSchools := SchoolStage(db, subject, permission, organizationSchools, schoolOrganizations,
                                                    unauthorised, remaining, q);
      q.StagesRefuse(badOrganizations, badSchools, remaining);
      check := if badOrganizations == [] && badSchools == [] then Passed
               else Failed(subject, badOrganizations, badSchools);
    }

    // Organizations without the permission, and the schools no authorised organization covers.
    method OrganizationStage(db: Database, subject: string, permission: string, organizationIds: seq<string>,
                             schoolIds: seq<string>, ghost organizationSchools: map<string, seq<string>>,
                             schoolOrganizations: map<string, string>, ghost q: Question)
      returns (unauthorised: seq<string>, remaining: seq<string>)
      requires Remembers(db, subject) && Asks(q, db, subject, permission, organizationIds, schoolIds)
      requires Related(q, organizationSchools, schoolOrganizations)
      modifies this
      ensures Remembers(db, subject)
      ensures unauthorised == Filter(q.organizationIds, q.LacksOrganization)
      ensures remaining == Filter(q.schoolIds, q.NotThroughOrganization)
    {
      unauthorised, remaining := [], schoolIds;
      var authorised: seq<string> := [];
      if organizationIds != [] {
        authorised := OrganizationsWithPermission(db, subject, permission, organizationIds);
        var missing := o => o !in authorised;
        unauthorised := Filter(organizationIds, missing);
        FilterSame(organizationIds, missing, q.LacksOrganization);
      }
      CoveredSchools(q, organizationSchools, schoolOrganizations, authorised);
      if authorised != [] {
        var kept := s => s !in schoolOrganizations || schoolOrganizations[s] !in authorised;
        remaining := Filter(schoolIds, kept);
        FilterSame(schoolIds, kept, q.NotThroughOrganization);
      } else {
        FilterAll(schoolIds, q.NotThroughOrganization);
      }
    }

    // Remaining schools without the permission, and the organizations their schools do not make up for.
    method SchoolStage(db: Database, subject: string, permission: string, organizationSchools: map<string, seq<string>>,
                       ghost schoolOrganizations: map<string, string>, unauthorised: seq<string>,
                       remaining: seq<string>, ghost q: Question)
      returns (badOrganizations: seq<string>, badSchools: seq<string>)
      requires Remembers(db, subject) && Asks(q, db, subject, permission, q.organizationIds, q.schoolIds)
      requires unauthorised == Filter(q.organizationIds, q.LacksOrganization)
      requires remaining == Filter(q.schoolIds, q.NotThroughOrganization)
      requires Related(q, organizationSchools, schoolOrganizations)
      modifies this
      ensures Remembers(db, subject)
      ensures badOrganizations == Filter(unauthorised, q.NotThroughSchools)
      ensures badSchools == Filter(remaining, q.LacksSchool)
    {
      badOrganizations, badSchools := unauthorised, [];
      var allowed: seq<string> := [];
      if remaining != [] {
        allowed := SchoolsWithPermission(db, subject, permission, remaining);
        var missing := s => s !in allowed;
        badSchools := Filter(remaining, missing);
        FilterSame(remaining, missing, q.LacksSchool);
      }
      if allowed != [] && unauthorised != [] {
        var kept := o => !(o in organizationSchools && forall s :: s in organizationSchools[o] ==> s in allowed);
        badOrganizations := Filter(unauthorised, kept);
        forall o | o in unauthorised ensures q.NotThroughSchools(o) == kept(o) {
          q.SchoolsOfRefused(o, remaining, allowed, organizationSchools);
        }
        FilterSame(unauthorised, kept, q.NotThroughSchools);
      } else if allowed == [] {
        forall s | s in remaining ensures q.LacksSchool(s) {
          assert s !in allowed;
        }
        q.NoAllowedSchools(unauthorised, remaining);
      }
    }

    /** The organizations in which the user holds all of the permissions, or any of them; every
        organization of the user when none is asked for. */
    method OrganizationsOfUser(db: Database, required: seq<string>, any: bool) returns (ids: Option<seq<string>>)
      requires Remembers(db, GetOr(userId, ""))
      modifies this
      ensures Remembers(db, GetOr(userId, ""))
      ensures ids.Some? <==> GetOr(userId, "") != ""
      ensures ids.Some? ==> NoDuplicates(ids.value)
      ensures ids.Some? ==> forall o :: o in ids.value <==>
                MemberAt(db.organizationMemberships, userId.value, o) &&
                (required == [] ||
                 if any then exists p :: p in required && Holds(db.organizationMemberships, userId.value, o, p)
                 else forall p :: p in required ==> Holds(db.organizationMemberships, userId.value, o, p))
    {
      if GetOr(userId, "") == "" {
        return None;
      }
      var held := OrganizationPermissions(db, userId.value);
      var places := QualifiedPlaces(held, required, any);
      QualifiesMeaning(db.organizationMemberships, userId.value, required, any);
      ids := Some(places);
    }

    /** The same for schools; the null a school map may hold never qualifies a school. */
    method SchoolsOfUser(db: Database, required: seq<string>, any: bool) returns (ids: Option<seq<string>>)
      requires Remembers(db, GetOr(userId, ""))
      modifies this
      ensures Remembers(db, GetOr(userId, ""))
      ensures ids.Some? <==> GetOr(userId, "") != ""
      ensures ids.Some? ==> NoDuplicates(ids.value)
      ensures ids.Some? ==> forall s :: s in ids.value <==>
                MemberAt(db.schoolMemberships, userId.value, s) &&
                (required == [] ||
                 if any then exists p :: p in required && Holds(db.schoolMemberships, userId.value, s, p)
                 else forall p :: p in required ==> Holds(db.schoolMemberships, userId.value, s, p))
    {
      if GetOr(userId, "") == "" {
        return None;
      }
      var stored := SchoolPermissions(db, userId.value);
      var held := map s | s in stored :: Names(stored[s]);
      forall s | s in stored ensures held[s] == PermissionMap(db.schoolMemberships, userId.value)[s] {
        NamesHeld(stored, PermissionMap(db.schoolMemberships, userId.value), s);
      }
      assert held == PermissionMap(db.schoolMemberships, userId.value);
      var places := QualifiedPlaces(held, required, any);
      QualifiesMeaning(db.schoolMemberships, userId.value, required, any);
      ids := Some(places);
    }
  }

  lemma QualifiesMeaning(ms: set<Membership>, user: string, required: seq<string>, any: bool)
    ensures forall place ::
              && (place in PermissionMap(ms, user) <==> MemberAt(ms, user, place))
              && (place in PermissionMap(ms, user) ==>
                    (Qualifies(PermissionMap(ms, user)[place], required, any)
                     <==> if any then exists p :: p in required && Holds(ms, user, place, p)
                          else forall p :: p in required ==> Holds(ms, user, place, p)))
  {
    forall place, p
      ensures place in PermissionMap(ms, user) <==> MemberAt(ms, user, place)
      ensures Has(PermissionMap(ms, user), place, p) <==> Holds(ms, user, place, p)
    {
      PermissionMapMeaning(ms, user, place, p);
    }
  }

  // The places whose permissions qualify; all of them when nothing is required.
  method QualifiedPlaces(held: map<string, set<string>>, required: seq<string>, any: bool)
    returns (qualified: seq<string>)
    ensures NoDuplicates(qualified)
    ensures forall o :: o in qualified <==> o in held && (required == [] || Qualifies(held[o], required, any))
  {
    var places := InSomeOrder(held.Keys);
    if required == [] {
      return places;
    }
    qualified := [];
    for i := 0 to |places|
      invariant NoDuplicates(qualified)
      invariant forall o :: o in qualified <==> o in places[..i] && o in held && Qualifies(held[o], required, any)
    {
      assert places[i] in places && places[..i + 1] == places[..i] + [places[i]];
      var ok := HasRequired(held[places[i]], required, any);
      if ok {
        qualified := qualified + [places[i]];
      }
    }
    assert places[..|places|] == places;
  }

  predicate Qualifies(held: set<string>, required: seq<string>, any: bool) {
    if any then exists p :: p in required && p in held else forall p :: p in required ==> p in held
  }

  method HasRequired(held: set<string>, required: seq<string>, any: bool) returns (has: bool)
    ensures has == Qualifies(held, required, any)
  {
    has := !any;
    for i := 0 to |required|
      invariant has == Qualifies(held, required[..i], any)
    {
      assert required[..i + 1] == required[..i] + [required[i]];
      if any {
        has := has || required[i] in held;
      } else {
        has := has && required[i] in held;
      }
    }
    assert required[..|required|] == required;
  }

  /** Asking for all of some permissions finds no more than asking for any of them. */
  lemma AllIsWithinAny(held: set<string>, required: seq<string>)
    requires required != [] && Qualifies(held, required, false)
    ensures Qualifies(held, required, true)
  {
    assert required[0] in required;
  }
}
