/**
 Replacing a role throughout an organization: every membership of the organization and of its
 schools that holds the old role holds the new one instead.
 */
module RoleReplacement {
  import opened Collections
  import opened Statuses

  // The role ids of memberships, keyed by user and place.
  type Holdings = map<(string, string), seq<string>>

  datatype Role = Role(system: bool, organization: Option<string>)

  datatype Data = Data(organizationMemberships: Holdings, schoolMemberships: Holdings,
                       schoolOrganization: map<string, string>, roles: map<string, Role>,
                       organizations: map<string, Status>)

  datatype Request = Request(oldRole: string, newRole: string, organization: string, mutation: bool)

  datatype Fault = NotAMutation | OrganizationInactive | RoleOfOtherOrganization

  datatype Outcome = Unauthorised | NotFound | Refused(faults: seq<Fault>) | NothingToReplace | Replaced

  function ReplaceIn(roles: seq<string>, oldRole: string, newRole: string): seq<string> {
    var kept := Filter(roles, r => r != oldRole);
    if newRole in kept then kept else kept + [newRole]
  }

  /** A holding loses the old role and has the new one, once if it had its roles once. */
  lemma ReplaceInMeaning(roles: seq<string>, oldRole: string, newRole: string)
    ensures forall r :: r in ReplaceIn(roles, oldRole, newRole) <==> r == newRole || (r in roles && r != oldRole)
    ensures NoDuplicates(roles) ==> NoDuplicates(ReplaceIn(roles, oldRole, newRole))
  {
    var kept := Filter(roles, r => r != oldRole);
    if NoDuplicates(roles) {
      FilterNoDuplicates(roles, r => r != oldRole);
    }
  }

  predicate OfOrganization(d: Data, r: Request, k: (string, string)) {
    k in d.organizationMemberships && k.1 == r.organization && r.oldRole in d.organizationMemberships[k]
  }

  predicate OfItsSchools(d: Data, r: Request, k: (string, string)) {
    k in d.schoolMemberships && k.1 in d.schoolOrganization && d.schoolOrganization[k.1] == r.organization &&
    r.oldRole in d.schoolMemberships[k]
  }

  function After(d: Data, r: Request): Data {
    d.(organizationMemberships := map k | k in d.organizationMemberships ::
         if OfOrganization(d, r, k) then ReplaceIn(d.organizationMemberships[k], r.oldRole, r.newRole)
         else d.organizationMemberships[k],
       schoolMemberships := map k | k in d.schoolMemberships ::
         if OfItsSchools(d, r, k) then ReplaceIn(d.schoolMemberships[k], r.oldRole, r.newRole)
         else d.schoolMemberships[k])
  }

  ghost predicate HoldsOld(d: Data, r: Request) {
    exists k :: OfOrganization(d, r, k) || OfItsSchools(d, r, k)
  }

  ghost predicate Violates(d: Data, r: Request, f: Fault) {
    match f
    case NotAMutation => !r.mutation
    case OrganizationInactive => r.organization in d.organizations && d.organizations[r.organization] != Active
    case RoleOfOtherOrganization =>
      r.newRole in d.roles && !d.roles[r.newRole].system && d.roles[r.newRole].organization != Some(r.organization)
  }

  // The new role, and all others but the old one in their old order; no role is there twice that was
  // not before.
  ghost predicate RolesReplaced(before: seq<string>, after: seq<string>, r: Request) {
    && (forall x :: x in after <==> x == r.newRole || (x in before && x != r.oldRole))
    && (NoDuplicates(before) ==> NoDuplicates(after))
    && Filter(after, x => x != r.newRole) == Filter(before, x => x != r.oldRole && x != r.newRole)
  }

  // The memberships of the organization, and of its schools, that hold the old role have it replaced;
  // everything else is as it was.
  ghost predicate Replacement(before: Data, after: Data, r: Request) {
    && after.schoolOrganization == before.schoolOrganization && after.roles == before.roles
    && after.organizations == before.organizations
    && after.organizationMemberships.Keys == before.organizationMemberships.Keys
    && after.schoolMemberships.Keys == before.schoolMemberships.Keys
    && (forall k :: k in after.organizationMemberships ==>
          if k.1 == r.organization && r.oldRole in before.organizationMemberships[k]
          then RolesReplaced(before.organizationMemberships[k], after.organizationMemberships[k], r)
          else after.organizationMemberships[k] == before.organizationMemberships[k])
    && (forall k :: k in after.schoolMemberships ==>
          if k.1 in before.schoolOrganization && before.schoolOrganization[k.1] == r.organization
             && r.oldRole in before.schoolMemberships[k]
          then RolesReplaced(before.schoolMemberships[k], after.schoolMemberships[k], r)
          else after.schoolMemberships[k] == before.schoolMemberships[k])
  }

  lemma ReplaceInReplaces(roles: seq<string>, r: Request)
    ensures RolesReplaced(roles, ReplaceIn(roles, r.oldRole, r.newRole), r)
  {
    var kept := Filter(roles, x => x != r.oldRole);
    ReplaceInMeaning(roles, r.oldRole, r.newRole);
    FilterTwice(roles, x => x != r.oldRole, x => x != r.newRole, x => x != r.oldRole && x != r.newRole);
    assert (kept + [r.newRole])[..|kept|] == kept;
  }

  lemma AfterIsReplacement(d: Data, r: Request)
    ensures Replacement(d, After(d, r), r)
  {
    forall k | k in d.organizationMemberships && OfOrganization(d, r, k)
      ensures RolesReplaced(d.organizationMemberships[k], After(d, r).organizationMemberships[k], r)
    {
      ReplaceInReplaces(d.organizationMemberships[k], r);
    }
    forall k | k in d.schoolMemberships && OfItsSchools(d, r, k)
      ensures RolesReplaced(d.schoolMemberships[k], After(d, r).schoolMemberships[k], r)
    {
      ReplaceInReplaces(d.schoolMemberships[k], r);
    }
  }

  // A mutation on an active organization with a role that is a system role or the organization's own.
  ghost predicate Valid(d: Data, r: Request) {
    && r.mutation && r.organization in d.organizations && d.organizations[r.organization] == Active
    && r.newRole in d.roles && (d.roles[r.newRole].system || d.roles[r.newRole].organization == Some(r.organization))
  }

  lemma ValidMeansFaultless(d: Data, r: Request)
    requires r.organization in d.organizations && r.newRole in d.roles
    ensures Valid(d, r) <==> forall f :: !Violates(d, r, f)
  {
    if forall f :: !Violates(d, r, f) {
      assert !Violates(d, r, NotAMutation) && !Violates(d, r, OrganizationInactive);
      assert !Violates(d, r, RoleOfOtherOrganization);
    }
  }

  // Somebody holds the old role in the organization or in one of its schools.
  ghost predicate SomebodyHolds(d: Data, r: Request) {
    || (exists k :: k in d.organizationMemberships && k.1 == r.organization
                    && r.oldRole in d.organizationMemberships[k])
    || (exists k :: k in d.schoolMemberships && k.1 in d.schoolOrganization
                    && d.schoolOrganization[k.1] == r.organization && r.oldRole in d.schoolMemberships[k])
  }

  lemma HoldsMeansSomebody(d: Data, r: Request)
    ensures HoldsOld(d, r) <==> SomebodyHolds(d, r)
  {
    if k :| k in d.organizationMemberships && k.1 == r.organization && r.oldRole in d.organizationMemberships[k] {
      assert OfOrganization(d, r, k);
    }
    if k :| k in d.schoolMemberships && k.1 in d.schoolOrganization && d.schoolOrganization[k.1] == r.organization
            && r.oldRole in d.schoolMemberships[k] {
      assert OfItsSchools(d, r, k);
    }
  }

  /** With two different roles nobody in the organization holds the old one afterwards, so repeating
      the request finds nothing to replace. */
  lemma ReplacingEndsTheOldRole(d: Data, r: Request)
    ensures r.oldRole != r.newRole ==> !HoldsOld(After(d, r), r)
    ensures r.oldRole == r.newRole ==> (HoldsOld(After(d, r), r) <==> HoldsOld(d, r))
  {
    forall k
      ensures OfOrganization(After(d, r), r, k) <==> OfOrganization(d, r, k) && r.oldRole == r.newRole
      ensures OfItsSchools(After(d, r), r, k) <==> OfItsSchools(d, r, k) && r.oldRole == r.newRole
    {
      if k in d.organizationMemberships {
        ReplaceInMeaning(d.organizationMemberships[k], r.oldRole, r.newRole);
      }
      if k in d.schoolMemberships {
        ReplaceInMeaning(d.schoolMemberships[k], r.oldRole, r.newRole);
      }
    }
  }

  class RoleService {
    var data: Data

    constructor (data: Data)
      ensures this.data == data
    {
      this.data := data;
    }

    /** Replaces the role in exactly the memberships of the organization and of its schools that hold
        it; a request that is not carried out changes nothing. */
    method ReplaceRole(r: Request, allowed: bool) returns (outcome: Outcome)
      modifies this
      ensures outcome.Unauthorised? <==> !allowed
      ensures outcome.NotFound? <==>
                allowed && !(r.organization in old(data.organizations) && r.newRole in old(data.roles))
      ensures outcome.Refused? ==> outcome.faults != []
      ensures outcome.Refused? ==> forall f :: f in outcome.faults <==> Violates(old(data), r, f)
      ensures outcome.Replaced? || outcome.NothingToReplace? ==> forall f :: !Violates(old(data), r, f)
      ensures outcome.Replaced? ==> HoldsOld(old(data), r)
      ensures outcome.NothingToReplace? ==> !HoldsOld(old(data), r)
      ensures data == if outcome.Replaced? then After(old(data), r) else old(data)
      ensures outcome.Replaced? <==> allowed && Valid(old(data), r) && SomebodyHolds(old(data), r)
      ensures outcome.NothingToReplace? <==> allowed && Valid(old(data), r) && !SomebodyHolds(old(data), r)
      ensures outcome.Replaced? ==> Replacement(old(data), data, r)
    {
      HoldsMeansSomebody(data, r);
      if !allowed {
        return Unauthorised;
      }
      if r.organization !in data.organizations || r.newRole !in data.roles {
        return NotFound;
      }
      ValidMeansFaultless(data, r);
      var faults := FaultsOf(data, r);
      if faults != [] {
        assert faults[0] in faults;
        return Refused(faults);
      }
      var inOrganization, inSchools := Holders(data, r);
      if inOrganization == [] && inSchools == [] {
        return NothingToReplace;
      }
      var after := ReplaceHeld(data, r, inOrganization, inSchools);
      AfterIsReplacement(data, r);
      data := after;
      outcome := Replaced;
    }
  }

  method ReplaceHeld(d: Data, r: Request, inOrganization: seq<(string, string)>, inSchools: seq<(string, string)>)
    returns (after: Data)
    requires NoDuplicates(inOrganization) && NoDuplicates(inSchools)
    requires forall k :: k in inOrganization <==> OfOrganization(d, r, k)
    requires forall k :: k in inSchools <==> OfItsSchools(d, r, k)
    ensures after == After(d, r)
  {
    var organizationMemberships := ReplaceAll(d.organizationMemberships, inOrganization, r.oldRole, r.newRole);
    var schoolMemberships := ReplaceAll(d.schoolMemberships, inSchools, r.oldRole, r.newRole);
    assert organizationMemberships == After(d, r).organizationMemberships;
    assert schoolMemberships == After(d, r).schoolMemberships;
    after := d.(organizationMemberships := organizationMemberships, schoolMemberships := schoolMemberships);
  }

  method FaultsOf(d: Data, r: Request) returns (faults: seq<Fault>)
    requires r.organization in d.organizations && r.newRole in d.roles
    ensures forall f :: f in faults <==> Violates(d, r, f)
  {
    faults := [];
    if !r.mutation {
      faults := faults + [NotAMutation];
    }
    if d.organizations[r.organization] != Active {
      faults := faults + [OrganizationInactive];
    }
    if !d.roles[r.newRole].system && d.roles[r.newRole].organization != Some(r.organization) {
      faults := faults + [RoleOfOtherOrganization];
    }
  }

  // The memberships that hold the old role, in the order the database returns them.
  method Holders(d: Data, r: Request) returns (inOrganization: seq<(string, string)>, inSchools: seq<(string, string)>)
    ensures NoDuplicates(inOrganization) && NoDuplicates(inSchools)
    ensures forall k :: k in inOrganization <==> OfOrganization(d, r, k)
    ensures forall k :: k in inSchools <==> OfItsSchools(d, r, k)
    ensures inOrganization == [] && inSchools == [] <==> !HoldsOld(d, r)
  {
    inOrganization := InSomeOrder(set k | k in d.organizationMemberships && OfOrganization(d, r, k));
    inSchools := InSomeOrder(set k | k in d.schoolMemberships && OfItsSchools(d, r, k));
    if inOrganization != [] {
      assert inOrganization[0] in inOrganization;
    }
    if inSchools != [] {
      assert inSchools[0] in inSchools;
    }
  }

  // A holder loses the old role and has the new one, other roles keep their order, and no role is
  // held twice that was not before.
  method UpdateRoles(roles: seq<string>, oldRole: string, newRole: string) returns (updated: seq<string>)
    ensures forall r :: r in updated <==> r == newRole || (r in roles && r != oldRole)
    ensures NoDuplicates(roles) ==> NoDuplicates(updated)
    ensures Filter(updated, r => r != newRole) == Filter(roles, r => r != oldRole && r != newRole)
    ensures updated == ReplaceIn(roles, oldRole, newRole)
  {
    updated := Filter(roles, r => r != oldRole);
    ghost var kept := updated;
    FilterTwice(roles, r => r != oldRole, r => r != newRole, r => r != oldRole && r != newRole);
    if newRole !in updated {
      updated := updated + [newRole];
      assert updated[..|kept|] == kept;
    }
    ReplaceInMeaning(roles, oldRole, newRole);
  }

  method ReplaceAll(holdings: Holdings, keys: seq<(string, string)>, oldRole: string, newRole: string)
    returns (after: Holdings)
    requires NoDuplicates(keys) && forall k :: k in keys ==> k in holdings
    ensures after.Keys == holdings.Keys
    ensures forall k :: k in holdings ==>
              after[k] == if k in keys then ReplaceIn(holdings[k], oldRole, newRole) else holdings[k]
  {
    after := holdings;
    ghost var replaced := map k | k in holdings :: ReplaceIn(holdings[k], oldRole, newRole);
    ghost var done: set<(string, string)> := {};
    for i := 0 to |keys|
      invariant after.Keys == holdings.Keys && done == SetOf(keys[..i])
      invariant forall k :: k in holdings ==> after[k] == if k in done then replaced[k] else holdings[k]
    {
      NotAmongEarlier(keys, i);
      var roles := UpdateRoles(after[keys[i]], oldRole, newRole);
      after, done := after[keys[i] := roles], done + {keys[i]};
    }
    assert keys[..|keys|] == keys;
  }

  ghost function SetOf(keys: seq<(string, string)>): set<(string, string)> {
    set k | k in keys
  }

  lemma NotAmongEarlier(keys: seq<(string, string)>, i: nat)
    requires NoDuplicates(keys) && i < |keys|
    ensures keys[i] in keys && keys[i] !in SetOf(keys[..i])
    ensures SetOf(keys[..i + 1]) == SetOf(keys[..i]) + {keys[i]}
  {
    assert keys[..i + 1] == keys[..i] + [keys[i]];
  }
}
