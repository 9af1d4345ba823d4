/**
 Reactivating, removing and deleting users of organizations in batches: a state machine on the
 status of organization memberships.
 */
module MembershipStatus {
  import opened Collections
  import opened Statuses

  const MIN_INPUTS := 1
  const MAX_INPUTS := 50

  datatype Membership = Membership(status: Status, deletedAt: Option<int>)

  // Memberships are keyed by organization and user.
  type Store = map<(string, string), Membership>

  datatype Directory = Directory(organizations: map<string, Status>, users: map<string, Status>)

  datatype Input = Input(organizationId: string, userIds: seq<string>)

  datatype Operation = Reactivate | Remove | Delete

  // One call of a mutation; `client` is the acting user, if it is a user that acts.
  datatype Call = Call(operation: Operation, inputs: seq<Input>, directory: Directory, client: Option<string>, now: int)

  // The statuses an operation starts from.
  function From(op: Operation): set<Status> {
    match op
    case Reactivate => {Inactive}
    case Remove => {Active}
    case Delete => {Active, Inactive}
  }

  // What an operation assigns; only removal writes the time of deletion, and nothing clears it.
  function Assigned(op: Operation, m: Membership, now: int): Membership {
    match op
    case Reactivate => m.(status := Active)
    case Remove => Membership(Inactive, Some(now))
    case Delete => m.(status := Deleted)
  }

  // ----- validation

  datatype Fault =
    | RepeatedOrganization | WrongUserCount | RepeatedUser | ChangesSelf
    | UserMissing(id: string) | NotMember(id: string)

  datatype InputError = InputError(index: nat, fault: Fault)

  predicate IsActive(statuses: map<string, Status>, id: string) {
    id in statuses && statuses[id] == Active
  }

  predicate GoodLength(n: nat) {
    MIN_INPUTS <= n <= MAX_INPUTS
  }

  predicate Loaded(s: Store, op: Operation, organizationId: string, userId: string) {
    (organizationId, userId) in s && s[(organizationId, userId)].status in From(op)
  }

  // Faults of an input among the others; an input with one is not validated any further.
  ghost predicate OverallFault(c: Call, i: nat, fault: Fault)
    requires i < |c.inputs|
  {
    match fault
    case RepeatedOrganization => exists j :: 0 <= j < i && c.inputs[j].organizationId == c.inputs[i].organizationId
    case WrongUserCount => !GoodLength(|c.inputs[i].userIds|)
    case RepeatedUser => !NoDuplicates(c.inputs[i].userIds)
    case _ => false
  }

  ghost predicate WellShaped(c: Call, i: nat)
    requires i < |c.inputs|
  {
    !OverallFault(c, i, RepeatedOrganization) && !OverallFault(c, i, WrongUserCount) &&
        !OverallFault(c, i, RepeatedUser)
  }

  ghost predicate Violates(s: Store, c: Call, i: nat, fault: Fault)
    requires i < |c.inputs|
  {
    var users := c.inputs[i].userIds;
    OverallFault(c, i, fault) ||
    (WellShaped(c, i) &&
     match fault
     case ChangesSelf => c.client.Some? && c.client.value != "" && c.client.value in users
     case UserMissing(id) => id in users && !IsActive(c.directory.users, id)
     case NotMember(id) =>
       id in users && IsActive(c.directory.users, id) && !Loaded(s, c.operation, c.inputs[i].organizationId, id)
     case _ => false)
  }

  ghost predicate Acceptable(s: Store, c: Call) {
    forall i, fault :: 0 <= i < |c.inputs| ==> !Violates(s, c, i, fault)
  }

  // ----- what an accepted call does

  predicate Listed(inputs: seq<Input>, k: (string, string)) {
    exists i :: i in inputs && i.organizationId == k.0 && k.1 in i.userIds
  }

  function Changed(s: Store, c: Call): Store {
    map k | k in s :: if Listed(c.inputs, k) then Assigned(c.operation, s[k], c.now) else s[k]
  }

  ghost function Apply(s: Store, c: Call): Store {
    if GoodLength(|c.inputs|) && Acceptable(s, c) then Changed(s, c) else s
  }

  // What validation has established about every listed membership.
  lemma AcceptedMembership(s: Store, c: Call, k: (string, string))
    requires Acceptable(s, c) && Listed(c.inputs, k)
    ensures k in s && s[k].status in From(c.operation)
    ensures c.client.Some? && c.client.value != "" ==> k.1 != c.client.value
  {
    var x :| x in c.inputs && x.organizationId == k.0 && k.1 in x.userIds;
    var i :| 0 <= i < |c.inputs| && c.inputs[i] == x;
    assert !Violates(s, c, i, RepeatedOrganization) && !Violates(s, c, i, WrongUserCount) &&
        !Violates(s, c, i, RepeatedUser);
    assert !Violates(s, c, i, ChangesSelf) && !Violates(s, c, i, UserMissing(k.1)) &&
        !Violates(s, c, i, NotMember(k.1));
  }

  // The membership has the status an operation starts from: removed ones are reactivated, active ones are
  // removed, and either is deleted.
  ghost predicate Movable(m: Membership, op: Operation) {
    match op
    case Reactivate => m.status == Inactive
    case Remove => m.status == Active
    case Delete => m.status == Active || m.status == Inactive
  }

  // What the operation leaves of it; only a removal writes the time.
  ghost predicate Moved(before: Membership, after: Membership, op: Operation, now: int) {
    match op
    case Reactivate => after.status == Active && after.deletedAt == before.deletedAt
    case Remove => after.status == Inactive && after.deletedAt == Some(now)
    case Delete => after.status == Deleted && after.deletedAt == before.deletedAt
  }

  ghost predicate Names(c: Call, k: (string, string)) {
    exists i :: 0 <= i < |c.inputs| && c.inputs[i].organizationId == k.0 && k.1 in c.inputs[i].userIds
  }

  /** After an accepted call every membership it names was movable and is moved, and every other is as it
      was. */
  ghost predicate Moves(before: Store, after: Store, c: Call) {
    && after.Keys == before.Keys
    && (forall k :: Names(c, k) ==>
          k in after && Movable(before[k], c.operation) && Moved(before[k], after[k], c.operation, c.now))
    && (forall k :: k in after && !Names(c, k) ==> after[k] == before[k])
  }

  lemma AcceptedMoves(s: Store, c: Call)
    requires GoodLength(|c.inputs|) && Acceptable(s, c)
    ensures Moves(s, Apply(s, c), c)
  {
    forall k ensures Names(c, k) <==> Listed(c.inputs, k) {
      if Names(c, k) {
        var i :| 0 <= i < |c.inputs| && c.inputs[i].organizationId == k.0 && k.1 in c.inputs[i].userIds;
        assert c.inputs[i] in c.inputs;
      }
    }
    forall k | Listed(c.inputs, k) ensures k in s && s[k].status in From(c.operation) {
      AcceptedMembership(s, c, k);
    }
  }

  // Every input names another organization and up to fifty active users, each once and none of them the
  // acting user, whose memberships are movable.
  ghost predicate ValidInput(s: Store, c: Call, i: nat)
    requires i < |c.inputs|
  {
    var o, users := c.inputs[i].organizationId, c.inputs[i].userIds;
    && (forall j :: 0 <= j < i ==> c.inputs[j].organizationId != o)
    && 1 <= |users| <= 50
    && (forall a, b :: 0 <= a < b < |users| ==> users[a] != users[b])
    && (c.client.Some? && c.client.value != "" ==> c.client.value !in users)
    && (forall id :: id in users ==>
          && id in c.directory.users && c.directory.users[id] == Active
          && (o, id) in s && Movable(s[(o, id)], c.operation))
  }

  /** Exactly the calls of valid inputs are accepted. */
  lemma ValidIsAcceptable(s: Store, c: Call)
    ensures Acceptable(s, c) <==> forall i :: 0 <= i < |c.inputs| ==> ValidInput(s, c, i)
  {
    if Acceptable(s, c) {
      forall i | 0 <= i < |c.inputs| ensures ValidInput(s, c, i) {
        AcceptableIsValid(s, c, i);
      }
    }
    forall i, fault | 0 <= i < |c.inputs| && ValidInput(s, c, i) ensures !Violates(s, c, i, fault) {
    }
  }

  lemma AcceptableIsValid(s: Store, c: Call, i: nat)
    requires i < |c.inputs| && Acceptable(s, c)
    ensures ValidInput(s, c, i)
  {
    assert !Violates(s, c, i, RepeatedOrganization) && !Violates(s, c, i, WrongUserCount);
    assert !Violates(s, c, i, RepeatedUser) && !Violates(s, c, i, ChangesSelf);
    forall id | id in c.inputs[i].userIds
      ensures IsActive(c.directory.users, id) && Loaded(s, c.operation, c.inputs[i].organizationId, id)
    {
      assert !Violates(s, c, i, UserMissing(id)) && !Violates(s, c, i, NotMember(id));
    }
  }

  ghost predicate LegalChange(a: Status, b: Status) {
    a == b || (a == Active && b == Inactive) || (a == Inactive && b == Active) || (a != Deleted && b == Deleted)
  }

  /** One call keeps every membership, changes statuses only along the edges of the machine, and
      never touches the acting user's own membership. */
  lemma CallIsLegal(s: Store, c: Call, k: (string, string))
    requires k in s
    ensures k in Apply(s, c) && LegalChange(s[k].status, Apply(s, c)[k].status)
    ensures s[k].status == Deleted ==> Apply(s, c)[k] == s[k]
    ensures c.client == Some(k.1) && k.1 != "" ==> Apply(s, c)[k] == s[k]
    ensures s[k].deletedAt.Some? ==> Apply(s, c)[k].deletedAt.Some?
  {
    if GoodLength(|c.inputs|) && Acceptable(s, c) && Listed(c.inputs, k) {
      AcceptedMembership(s, c, k);
    }
  }

  ghost predicate IsRun(stores: seq<Store>, calls: seq<Call>) {
    |stores| == |calls| + 1 && forall i :: 0 <= i < |calls| ==> stores[i + 1] == Apply(stores[i], calls[i])
  }

  /** Over every run the memberships stay the same ones, a deleted membership never changes again,
      and a user who only ever acted never changed its own. */
  lemma {:induction false} RunsAreLegal(stores: seq<Store>, calls: seq<Call>, i: nat, j: nat, k: (string, string))
    requires IsRun(stores, calls) && i <= j < |stores| && k in stores[i]
    ensures k in stores[j]
    ensures stores[i][k].status == Deleted ==> stores[j][k] == stores[i][k]
    ensures k.1 != "" && (forall n :: i <= n < j ==> calls[n].client == Some(k.1)) ==> stores[j][k] == stores[i][k]
    decreases j - i
  {
    if i < j {
      CallIsLegal(stores[i], calls[i], k);
      RunsAreLegal(stores, calls, i + 1, j, k);
    }
  }

  function StatusMap(s: Store): map<(string, string), Status> {
    map k | k in s :: s[k].status
  }

  /** An accepted removal can be reactivated with the same inputs, and that restores every status;
      the removed memberships keep the time they were removed at. */
  lemma ReactivationUndoesRemoval(s: Store, removal: Call, back: Call)
    requires removal.operation == Remove && back == removal.(operation := Reactivate, now := back.now)
    requires GoodLength(|removal.inputs|) && Acceptable(s, removal)
    ensures Acceptable(Apply(s, removal), back)
    ensures StatusMap(Apply(Apply(s, removal), back)) == StatusMap(s)
    ensures forall k :: k in s && Listed(removal.inputs, k) ==>
              k in Apply(Apply(s, removal), back) && Apply(Apply(s, removal), back)[k].deletedAt == Some(removal.now)
  {
    var middle := Apply(s, removal);
    forall i, fault | 0 <= i < |back.inputs| ensures !Violates(middle, back, i, fault) {
      assert !Violates(s, removal, i, fault);
      if fault.NotMember? && fault.id in back.inputs[i].userIds && IsActive(back.directory.users, fault.id) {
        var k := (back.inputs[i].organizationId, fault.id);
        assert back.inputs[i] in removal.inputs && Listed(removal.inputs, k);
        AcceptedMembership(s, removal, k);
      }
    }
    forall k | Listed(removal.inputs, k) ensures k in s && s[k].status == Active {
      AcceptedMembership(s, removal, k);
    }
  }

  // ----- the mutation

  // `SaveFailed` is reported after the memberships were already updated.
  datatype Outcome = BadLength | Unauthorised | Rejected(errors: seq<InputError>) | SaveFailed | Done

  ghost predicate OrganizationsActive(c: Call) {
    forall i :: i in c.inputs ==> IsActive(c.directory.organizations, i.organizationId)
  }

  /** At such a call: removing a user from an inactive organization passes validation and changes the
      membership. */
  lemma InactiveOrganizationIsAccepted(s: Store, c: Call)
    requires s == map[("org", "user") := Membership(Active, None)]
    requires c.operation == Remove && c.inputs == [Input("org", ["user"])] && c.client == None && c.now == 0
    requires c.directory == Directory(map["org" := Inactive], map["user" := Active])
    ensures Acceptable(s, c) && !OrganizationsActive(c)
    ensures Apply(s, c) == map[("org", "user") := Membership(Inactive, Some(0))]
  {
    assert c.inputs[0] in c.inputs && c.inputs[0].userIds == ["user"];
    forall i, fault | 0 <= i < |c.inputs| ensures !Violates(s, c, i, fault) {
      assert i == 0 && forall id :: id in c.inputs[0].userIds ==> id == "user";
    }
    assert Listed(c.inputs, ("org", "user"));
  }

  method ValidateInput(s: Store, c: Call, i: nat) returns (faults: seq<Fault>)
    requires i < |c.inputs|
    ensures forall f :: f in faults <==> Violates(s, c, i, f)
  {
    var input := c.inputs[i];
    faults := OverallFaults(c, i);
    if faults != [] {
      assert faults[0] in faults;
      return;
    }
    assert WellShaped(c, i);
    if c.client.Some? && c.client.value != "" && c.client.value in input.userIds {
      faults := faults + [ChangesSelf];
    }
    for u := 0 to |input.userIds|
      invariant forall f :: f in faults ==> Violates(s, c, i, f)
      invariant Violates(s, c, i, ChangesSelf) ==> ChangesSelf in faults
      invariant forall id, f :: id in input.userIds[..u] && (f == UserMissing(id) || f == NotMember(id)) ==>
                  (Violates(s, c, i, f) ==> f in faults)
    {
      var id := input.userIds[u];
      assert input.userIds[..u + 1] == input.userIds[..u] + [id] && id in input.userIds;
      if !IsActive(c.directory.users, id) {
        faults := faults + [UserMissing(id)];
      } else if !Loaded(s, c.operation, input.organizationId, id) {
        faults := faults + [NotMember(id)];
      }
    }
    assert input.userIds[..|input.userIds|] == input.userIds;
    forall f | Violates(s, c, i, f) ensures f in faults {
      assert !OverallFault(c, i, f);
      if f != ChangesSelf {
        assert f == UserMissing(f.id) || f == NotMember(f.id);
      }
    }
  }

  method OverallFaults(c: Call, i: nat) returns (faults: seq<Fault>)
    requires i < |c.inputs|
    ensures forall f :: f in faults <==> OverallFault(c, i, f)
  {
    faults := [];
    if exists j :: 0 <= j < i && c.inputs[j].organizationId == c.inputs[i].organizationId {
      faults := faults + [RepeatedOrganization];
    }
    if !GoodLength(|c.inputs[i].userIds|) {
      faults := faults + [WrongUserCount];
    }
    if !NoDuplicates(c.inputs[i].userIds) {
      faults := faults + [RepeatedUser];
    }
  }

  function Errors(i: nat, faults: seq<Fault>): (errors: seq<InputError>)
    ensures forall e :: e in errors <==> e.index == i && e.fault in faults
  {
    if faults == [] then []
    else
      assert faults == [faults[0]] + faults[1..];
      [InputError(i, faults[0])] + Errors(i, faults[1..])
  }

  class MembershipService {
    var memberships: Store

    constructor (memberships: Store)
      ensures this.memberships == memberships
    {
      this.memberships := memberships;
    }

    /** Rejected calls change nothing and report every fault. An accepted call updates exactly the
        listed memberships; when one of its organizations is not active, which no validation looks
        at, it does so and reports a failure to save all the same. */
    method ChangeStatus(c: Call, allowed: bool) returns (outcome: Outcome)
      modifies this
      ensures outcome.BadLength? <==> !GoodLength(|c.inputs|)
      ensures outcome.Unauthorised? <==> GoodLength(|c.inputs|) && !allowed
      ensures outcome.Rejected? <==> GoodLength(|c.inputs|) && allowed && !Acceptable(old(memberships), c)
      ensures outcome.Rejected? ==> forall e :: e in outcome.errors <==>
                e.index < |c.inputs| && Violates(old(memberships), c, e.index, e.fault)
      ensures outcome.SaveFailed? <==>
                GoodLength(|c.inputs|) && allowed && Acceptable(old(memberships), c) && !OrganizationsActive(c)
      ensures memberships
           == if outcome.Done? || outcome.SaveFailed? then Apply(old(memberships), c) else old(memberships)
      ensures outcome.Done? || outcome.SaveFailed? <==>
                allowed && 1 <= |c.inputs| <= 50 &&
                forall i :: 0 <= i < |c.inputs| ==> ValidInput(old(memberships), c, i)
      ensures outcome.Done? || outcome.SaveFailed? ==> Moves(old(memberships), memberships, c)
    {
      ValidIsAcceptable(memberships, c);
      if !GoodLength(|c.inputs|) {
        return BadLength;
      }
      if !allowed {
        return Unauthorised;
      }
      var errors: seq<InputError> := [];
      var toUpdate: set<(string, string)> := {};
      for i := 0 to |c.inputs|
        invariant memberships == old(memberships)
        invariant forall e :: e in errors <==> e.index < i && Violates(memberships, c, e.index, e.fault)
        invariant errors == [] ==> forall k :: k in toUpdate <==> Listed(c.inputs[..i], k)
      {
        var faults := ValidateInput(memberships, c, i);
        errors := errors + Errors(i, faults);
        assert c.inputs[..i + 1] == c.inputs[..i] + [c.inputs[i]];
        if errors == [] {
          var input := c.inputs[i];
          toUpdate := toUpdate + (set id | id in input.userIds :: (input.organizationId, id));
        }
      }
      assert c.inputs[..|c.inputs|] == c.inputs;
      if errors != [] {
        assert errors[0] in errors;
        return Rejected(errors);
      }
      forall i, fault | 0 <= i < |c.inputs| ensures !Violates(memberships, c, i, fault) {
        assert InputError(i, fault) !in errors;
      }
      AcceptedMoves(memberships, c);
      memberships := map k | k in memberships ::
          if k in toUpdate then Assigned(c.operation, memberships[k], c.now) else memberships[k];
      var i := 0;
      while i < |c.inputs|
        invariant i <= |c.inputs|
        invariant forall x :: x in c.inputs[..i] ==> IsActive(c.directory.organizations, x.organizationId)
      {
        // reporting an organization that was not loaded fails
        if !IsActive(c.directory.organizations, c.inputs[i].organizationId) {
          return SaveFailed;
        }
        assert c.inputs[..i + 1] == c.inputs[..i] + [c.inputs[i]];
        i := i + 1;
      }
      assert c.inputs[..|c.inputs|] == c.inputs;
      outcome := Done;
    }
  }
}
