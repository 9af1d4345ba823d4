/**
 The users a non-admin may see: those of its organizations, of its schools and of the classes it
 teaches, as far as its permissions go, and the profiles it can sign in as.
 */
module UserVisibility {
  import opened Collections

  // Relations are pairs of a place and a user.
  datatype Data = Data(users: set<string>, emails: map<string, string>, phones: map<string, string>,
                       organizationMembers: set<(string, string)>, schoolMembers: set<(string, string)>,
                       schoolOrganization: map<string, string>, classOrganization: map<string, string>,
                       studying: set<(string, string)>, teaching: set<(string, string)>)

  // Who looks, and in which organizations it holds the three viewing permissions.
  datatype Viewer = Viewer(id: string, username: Option<string>, email: string, phone: string,
                           allUsers: seq<string>, mySchoolUsers: seq<string>, myClassUsers: seq<string>)

  // ----- who is visible, rule by rule

  predicate InMyOrganizations(d: Data, v: Viewer, u: string) {
    exists o :: o in v.allUsers && (o, u) in d.organizationMembers
  }

  predicate MySchool(d: Data, v: Viewer, school: string, organizations: seq<string>) {
    (school, v.id) in d.schoolMembers && school in d.schoolOrganization && d.schoolOrganization[school] in organizations
  }

  predicate InMySchools(d: Data, v: Viewer, organizations: seq<string>, u: string) {
    exists m :: m in d.schoolMembers && m.1 == u && MySchool(d, v, m.0, organizations)
  }

  // Classes taught count in every organization once one organization grants the permission.
  predicate InMyClasses(d: Data, v: Viewer, u: string) {
    v.myClassUsers != [] &&
    exists t :: t in d.teaching && t.1 == v.id && ((t.0, u) in d.studying || (t.0, u) in d.teaching)
  }

  predicate IsMyProfile(d: Data, v: Viewer, u: string) {
    || u == v.id
    || (v.username.None? && v.email != "" && u in d.emails && d.emails[u] == v.email)
    || (v.username.None? && v.phone != "" && u in d.phones && d.phones[u] == v.phone)
  }

  // The union of all four rules, each in full.
  predicate Visible(d: Data, v: Viewer, u: string) {
    IsMyProfile(d, v, u) || InMyOrganizations(d, v, u) || InMySchools(d, v, v.mySchoolUsers, u) || InMyClasses(d, v, u)
  }

  // ----- the queries; those of schools skip the organizations that are visible in full

  predicate FoundBy(queries: seq<set<string>>, u: string) {
    exists q :: q in queries && u in q
  }

  lemma FoundByAppend(a: seq<set<string>>, b: seq<set<string>>, u: string)
    ensures FoundBy(a + b, u) <==> FoundBy(a, u) || FoundBy(b, u)
  {
  }

  method OrganizationQueries(d: Data, v: Viewer) returns (queries: seq<set<string>>)
    ensures forall u :: FoundBy(queries, u) <==> InMyOrganizations(d, v, u)
  {
    var members := set m | m in d.organizationMembers && m.0 in v.allUsers :: m.1;
    queries := if v.allUsers != [] then [members] else [];
    forall u ensures FoundBy(queries, u) <==> InMyOrganizations(d, v, u) {
      assert v.allUsers != [] ==> queries[0] == members && members in queries;
    }
  }

  method SchoolQueries(d: Data, v: Viewer, organizations: seq<string>) returns (queries: seq<set<string>>)
    ensures forall u :: FoundBy(queries, u) <==> InMySchools(d, v, organizations, u)
  {
    var schoolIds := set m | m in d.schoolMembers && m.1 == v.id && MySchool(d, v, m.0, organizations) :: m.0;
    var members := set m | m in d.schoolMembers && m.0 in schoolIds :: m.1;
    queries := if organizations != [] && schoolIds != {} then [members] else [];
    forall u ensures FoundBy(queries, u) <==> InMySchools(d, v, organizations, u) {
      if m :| m in d.schoolMembers && m.1 == u && MySchool(d, v, m.0, organizations) {
        assert (m.0, v.id) in d.schoolMembers;
        assert m.0 in schoolIds && u in members && queries[0] == members;
      }
    }
  }

  method ClassQueries(d: Data, v: Viewer) returns (queries: seq<set<string>>)
    ensures forall u :: FoundBy(queries, u) <==> InMyClasses(d, v, u)
  {
    var taught := set t | t in d.teaching && t.1 == v.id :: t.0;
    var students := set m | m in d.studying && m.0 in taught :: m.1;
    var teachers := set m | m in d.teaching && m.0 in taught :: m.1;
    queries := if v.myClassUsers != [] && taught != {} then [students, teachers] else [];
    forall u ensures FoundBy(queries, u) <==> InMyClasses(d, v, u) {
      if InMyClasses(d, v, u) {
        var t :| t in d.teaching && t.1 == v.id && ((t.0, u) in d.studying || (t.0, u) in d.teaching);
        assert t.0 in taught && (u in students || u in teachers);
        assert queries[0] == students && queries[1] == teachers;
      }
    }
  }

  // The organizations whose schools are queried.
  function NotInFull(v: Viewer): seq<string> {
    Filter(v.mySchoolUsers, o => o !in v.allUsers)
  }

  // What the query selects.
  function Scope(d: Data, v: Viewer): set<string> {
    set u | u in d.users && (IsMyProfile(d, v, u) || InMyOrganizations(d, v, u) ||
                             InMySchools(d, v, NotInFull(v), u) || InMyClasses(d, v, u))
  }

  function VisibleUsers(d: Data, v: Viewer): set<string> {
    set u | u in d.users && Visible(d, v, u)
  }

  // A profile the viewer can sign in as: its own, or, for one without a user name, of the same email or
  // the same phone.
  ghost predicate SignsInAs(d: Data, v: Viewer, u: string) {
    || u == v.id
    || (v.username.None? && u in d.emails && d.emails[u] == v.email != "")
    || (v.username.None? && u in d.phones && d.phones[u] == v.phone != "")
  }

  // A member of an organization all users of which the viewer may see.
  ghost predicate ThroughOrganization(d: Data, v: Viewer, u: string) {
    exists m :: m in d.organizationMembers && m.1 == u && m.0 in v.allUsers
  }

  // A member of a school of the viewer's, in an organization that lets it see its school users and not
  // all users.
  ghost predicate ThroughSchool(d: Data, v: Viewer, u: string) {
    exists m, n :: m in d.schoolMembers && n in d.schoolMembers && m.1 == u && n.1 == v.id && m.0 == n.0
                   && m.0 in d.schoolOrganization && d.schoolOrganization[m.0] in v.mySchoolUsers
                   && d.schoolOrganization[m.0] !in v.allUsers
  }

  // A student or teacher of a class the viewer teaches, if any organization lets it see its class users.
  ghost predicate ThroughClass(d: Data, v: Viewer, u: string) {
    && (exists o :: o in v.myClassUsers)
    && exists t, m :: t in d.teaching && t.1 == v.id && (m in d.studying || m in d.teaching) && m.0 == t.0 && m.1 == u
  }

  lemma ScopeMeaning(d: Data, v: Viewer, u: string)
    ensures u in Scope(d, v)
            <==> u in d.users && (SignsInAs(d, v, u) || ThroughOrganization(d, v, u) || ThroughSchool(d, v, u)
                                  || ThroughClass(d, v, u))
  {
    if ThroughOrganization(d, v, u) {
      var m :| m in d.organizationMembers && m.1 == u && m.0 in v.allUsers;
      assert (m.0, u) in d.organizationMembers;
    }
    assert InMySchools(d, v, NotInFull(v), u) <==> ThroughSchool(d, v, u) by {
      if ThroughSchool(d, v, u) {
        var m, n :| m in d.schoolMembers && n in d.schoolMembers && m.1 == u && n.1 == v.id && m.0 == n.0
                    && m.0 in d.schoolOrganization && d.schoolOrganization[m.0] in v.mySchoolUsers
                    && d.schoolOrganization[m.0] !in v.allUsers;
        assert n == (m.0, v.id) && MySchool(d, v, m.0, NotInFull(v));
      }
    }
    assert InMyClasses(d, v, u) <==> ThroughClass(d, v, u) by {
      if v.myClassUsers != [] {
        assert v.myClassUsers[0] in v.myClassUsers;
      }
      if ThroughClass(d, v, u) {
        var t, m :| t in d.teaching && t.1 == v.id && (m in d.studying || m in d.teaching) && m.0 == t.0 && m.1 == u;
        assert m == (t.0, u);
      }
    }
  }

  /** The union of the queries; it is all that is visible where schoolmates are members of the same
      organizations. */
  method ScopeUsers(d: Data, v: Viewer) returns (visible: set<string>)
    ensures visible == Scope(d, v)
    ensures forall u :: u in visible
                        <==> u in d.users && (SignsInAs(d, v, u) || ThroughOrganization(d, v, u)
                                              || ThroughSchool(d, v, u) || ThroughClass(d, v, u))
    ensures HoldsPermissionsAsMember(d, v) && SchoolmatesShareOrganization(d) ==> visible == VisibleUsers(d, v)
  {
    var organizationQueries := OrganizationQueries(d, v);
    var fullAccess := v.allUsers;
    var schoolOrganizations := Filter(v.mySchoolUsers, o => o !in fullAccess);
    var schoolQueries := SchoolQueries(d, v, schoolOrganizations);
    var classQueries := ClassQueries(d, v);
    var queries := organizationQueries + schoolQueries + classQueries;
    visible := set u | u in d.users && (IsMyProfile(d, v, u) || FoundBy(queries, u));
    FilterSame(v.mySchoolUsers, o => o !in fullAccess, o => o !in v.allUsers);
    forall u
      ensures FoundBy(queries, u)
              <==> InMyOrganizations(d, v, u) || InMySchools(d, v, NotInFull(v), u) || InMyClasses(d, v, u)
    {
      FoundByAppend(organizationQueries, schoolQueries, u);
      FoundByAppend(organizationQueries + schoolQueries, classQueries, u);
    }
    assert visible == Scope(d, v);
    forall u {
      ScopeMeaning(d, v, u);
    }
    if HoldsPermissionsAsMember(d, v) && SchoolmatesShareOrganization(d) {
      SharedOrganizationsLoseNobody(d, v);
    }
  }

  // ----- skipping organizations that are visible in full

  // Permissions are held through memberships of organizations.
  ghost predicate HoldsPermissionsAsMember(d: Data, v: Viewer) {
    forall o :: o in v.allUsers || o in v.mySchoolUsers || o in v.myClassUsers ==> (o, v.id) in d.organizationMembers
  }

  // Of two members of a school, one of whom is a member of the school's organization, so is the
  // other, if it is a stored user.
  ghost predicate SchoolmatesShareOrganization(d: Data) {
    forall m, n :: m in d.schoolMembers && n in d.schoolMembers && m.0 == n.0 && m.1 != n.1 && n.1 in d.users
                   && m.0 in d.schoolOrganization && (d.schoolOrganization[m.0], m.1) in d.organizationMembers
                   ==> (d.schoolOrganization[m.0], n.1) in d.organizationMembers
  }

  lemma SharedOrganizationsLoseNobody(d: Data, v: Viewer)
    requires HoldsPermissionsAsMember(d, v) && SchoolmatesShareOrganization(d)
    ensures Scope(d, v) == VisibleUsers(d, v)
  {
    forall u | u in d.users && InMySchools(d, v, v.mySchoolUsers, u) ensures u in Scope(d, v) {
      var m :| m in d.schoolMembers && m.1 == u && MySchool(d, v, m.0, v.mySchoolUsers);
      var o := d.schoolOrganization[m.0];
      if o in v.allUsers {
        assert (m.0, v.id) in d.schoolMembers && (o, v.id) in d.organizationMembers;
        assert u == v.id || InMyOrganizations(d, v, u);
      } else {
        assert MySchool(d, v, m.0, NotInFull(v));
      }
    }
    forall u | u in Scope(d, v) ensures Visible(d, v, u) {
      if InMySchools(d, v, NotInFull(v), u) {
        var m :| m in d.schoolMembers && m.1 == u && MySchool(d, v, m.0, NotInFull(v));
        assert MySchool(d, v, m.0, v.mySchoolUsers);
      }
    }
  }

  // A viewer who may see all users, and those of its schools, in one organization.
  function ViewerOf(id: string, organization: string): Viewer {
    Viewer(id, Some(id), "", "", [organization], [organization], [])
  }

  lemma SchoolmateOutsideIsLost(d: Data, school: string, mine: string, theirs: string)
    requires (school, mine) in d.schoolMembers && (school, theirs) in d.schoolMembers
    requires mine != theirs && theirs in d.users && school in d.schoolOrganization
    requires (d.schoolOrganization[school], mine) in d.organizationMembers
    requires (d.schoolOrganization[school], theirs) !in d.organizationMembers
    ensures HoldsPermissionsAsMember(d, ViewerOf(mine, d.schoolOrganization[school]))
    ensures theirs in VisibleUsers(d, ViewerOf(mine, d.schoolOrganization[school]))
    ensures theirs !in Scope(d, ViewerOf(mine, d.schoolOrganization[school]))
  {
    var o := d.schoolOrganization[school];
    var v := ViewerOf(mine, o);
    assert o in v.mySchoolUsers && MySchool(d, v, school, v.mySchoolUsers);
    FilterEmpty(v.mySchoolUsers, x => x !in v.allUsers);
    assert NotInFull(v) == [];
  }

  /** Skipping organizations that are visible in full loses no user, for any viewer, exactly while
      schoolmates are members of the same organizations. */
  lemma SkippingLosesNobody(d: Data)
    ensures (forall v :: HoldsPermissionsAsMember(d, v) ==> Scope(d, v) == VisibleUsers(d, v))
            <==> SchoolmatesShareOrganization(d)
  {
    if SchoolmatesShareOrganization(d) {
      forall v | HoldsPermissionsAsMember(d, v) ensures Scope(d, v) == VisibleUsers(d, v) {
        SharedOrganizationsLoseNobody(d, v);
      }
    } else {
      var m, n :| m in d.schoolMembers && n in d.schoolMembers && m.0 == n.0 && m.1 != n.1 && n.1 in d.users
                  && m.0 in d.schoolOrganization && (d.schoolOrganization[m.0], m.1) in d.organizationMembers
                  && (d.schoolOrganization[m.0], n.1) !in d.organizationMembers;
      SchoolmateOutsideIsLost(d, m.0, m.1, n.1);
      assert n.1 in VisibleUsers(d, ViewerOf(m.1, d.schoolOrganization[m.0]));
    }
  }

  /** At such data: a schoolmate who is no member of the organization is not found by a viewer who may
      see all users of it. */
  lemma SchoolmateCanBeLost()
    ensures var d := Data({"me", "mate"}, map[], map[], {("org", "me")}, {("school", "me"), ("school", "mate")},
                          map["school" := "org"], map[], {}, {});
            "mate" in VisibleUsers(d, ViewerOf("me", "org")) && "mate" !in Scope(d, ViewerOf("me", "org"))
  {
    var d := Data({"me", "mate"}, map[], map[], {("org", "me")}, {("school", "me"), ("school", "mate")},
                  map["school" := "org"], map[], {}, {});
    assert |"me"| != |"mate"|;
    SchoolmateOutsideIsLost(d, "school", "me", "mate");
  }

  // ----- the class rule, as it is and as it is documented

  predicate Teaches(d: Data, v: Viewer, c: string) {
    (c, v.id) in d.teaching
  }

  predicate IsIn(d: Data, c: string, u: string) {
    (c, u) in d.studying || (c, u) in d.teaching
  }

  // The classes whose students and teachers the code shows.
  predicate Shown(d: Data, v: Viewer, c: string) {
    v.myClassUsers != [] && Teaches(d, v, c)
  }

  // Those the documentation names: classes one belongs to, in an organization that grants it.
  ghost predicate Documented(d: Data, v: Viewer, c: string) {
    && ((c, v.id) in d.studying || (c, v.id) in d.teaching)
    && c in d.classOrganization && d.classOrganization[c] in v.myClassUsers
  }

  ghost predicate InMyClassesAsDocumented(d: Data, v: Viewer, u: string) {
    exists c :: Documented(d, v, c) && IsIn(d, c, u)
  }

  // The classes of e are those of d, and the viewer is in the same ones in the same part.
  ghost predicate SameClassesOf(d: Data, e: Data, v: Viewer) {
    && e.classOrganization == d.classOrganization
    && (forall c :: (c, v.id) in e.studying <==> (c, v.id) in d.studying)
    && (forall c :: (c, v.id) in e.teaching <==> (c, v.id) in d.teaching)
  }

  /** The code and the documentation agree on a viewer, whoever else is in the classes, exactly when
      the classes the viewer teaches, if it holds the permission anywhere, are the classes it belongs
      to in the organizations that grant the permission. */
  lemma ClassRulesAgree(d: Data, v: Viewer)
    ensures (forall c :: Shown(d, v, c) <==> Documented(d, v, c))
            <==> forall e, u :: SameClassesOf(d, e, v) ==> (InMyClasses(e, v, u) <==> InMyClassesAsDocumented(e, v, u))
  {
    if forall c :: Shown(d, v, c) <==> Documented(d, v, c) {
      forall e, u | SameClassesOf(d, e, v) ensures InMyClasses(e, v, u) <==> InMyClassesAsDocumented(e, v, u) {
        SameClassesSameRule(d, e, v, u);
      }
    } else {
      var c :| Shown(d, v, c) != Documented(d, v, c);
      var e, u := ClassmateTellsApart(d, v, c);
      assert SameClassesOf(d, e, v);
    }
  }

  lemma SameClassesSameRule(d: Data, e: Data, v: Viewer, u: string)
    requires SameClassesOf(d, e, v) && forall c :: Shown(d, v, c) <==> Documented(d, v, c)
    ensures InMyClasses(e, v, u) <==> InMyClassesAsDocumented(e, v, u)
  {
    if InMyClasses(e, v, u) {
      var t :| t in e.teaching && t.1 == v.id && IsIn(e, t.0, u);
      assert Shown(d, v, t.0);
      assert Documented(e, v, t.0);
    }
    if c :| Documented(e, v, c) && IsIn(e, c, u) {
      assert Documented(d, v, c) && Shown(d, v, c);
      assert (c, v.id) in e.teaching;
    }
  }

  // With one classmate, in class c only, the two rules differ if they differ on c.
  lemma ClassmateTellsApart(d: Data, v: Viewer, c: string) returns (e: Data, u: string)
    requires Shown(d, v, c) != Documented(d, v, c)
    ensures SameClassesOf(d, e, v) && InMyClasses(e, v, u) != InMyClassesAsDocumented(e, v, u)
  {
    u := v.id + "!";
    assert |u| != |v.id|;
    e := d.(studying := (set s | s in d.studying && s.1 == v.id) + {(c, u)},
            teaching := set t | t in d.teaching && t.1 == v.id);
    assert IsIn(e, c, u) && forall x :: IsIn(e, x, u) ==> x == c;
    assert InMyClasses(e, v, u) <==> Shown(d, v, c) by {
      if Shown(d, v, c) {
        assert (c, v.id) in e.teaching;
      }
    }
    assert Documented(e, v, c) <==> Documented(d, v, c);
  }

  /** A viewer with the permission in one organization is shown the students of a class it teaches in
      another, and not those of a class it studies in; those of a class it teaches there are shown and
      documented, and those of a class it is not in are neither. */
  lemma DocumentedClassesDiffer(d: Data, v: Viewer)
    requires v.id == "me" && v.myClassUsers == ["org"]
    requires d.teaching == {("taught", "me"), ("own", "me")}
    requires d.studying == {("taught", "a"), ("study", "me"), ("study", "bb"), ("own", "ccc"), ("elsewhere", "dddd")}
    requires d.classOrganization == map["taught" := "other", "study" := "org", "own" := "org", "elsewhere" := "org"]
    ensures InMyClasses(d, v, "a") && !InMyClassesAsDocumented(d, v, "a")
    ensures !InMyClasses(d, v, "bb") && InMyClassesAsDocumented(d, v, "bb")
    ensures InMyClasses(d, v, "ccc") && InMyClassesAsDocumented(d, v, "ccc")
    ensures !InMyClasses(d, v, "dddd") && !InMyClassesAsDocumented(d, v, "dddd")
  {
    assert |"taught"| == 6 && |"study"| == 5 && |"own"| == 3 && |"elsewhere"| == 9 && |"org"| == 3 && |"other"| == 5;
    assert |"me"| == 2 && |"a"| == 1 && |"bb"| == 2 && |"ccc"| == 3 && |"dddd"| == 4 && "me"[0] != "bb"[0];
    assert ("taught", "me") in d.teaching && ("taught", "a") in d.studying;
    assert ("own", "me") in d.teaching && ("own", "ccc") in d.studying;
    assert Documented(d, v, "study") && IsIn(d, "study", "bb");
    assert Documented(d, v, "own") && IsIn(d, "own", "ccc");
    assert forall c :: IsIn(d, c, "a") ==> c == "taught";
    assert forall c :: IsIn(d, c, "bb") ==> c == "study";
    assert forall c :: IsIn(d, c, "dddd") ==> c == "elsewhere";
    assert !Documented(d, v, "taught") && !Documented(d, v, "elsewhere");
  }
}
