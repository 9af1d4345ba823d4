/**
 Batch creation and update of categories: every input is validated against what was preloaded
 before the batch and against the earlier inputs, and the batch is saved as a whole or not at all.
 */
module Categories {
  import opened Collections
  import opened Statuses

  const MIN_INPUTS := 1
  const MAX_INPUTS := 50

  datatype Category = Category(name: string, organization: Option<string>, status: Status, system: bool,
                               subcategories: seq<string>)

  type Store = map<string, Category>

  datatype Subcategory = Subcategory(organization: Option<string>, status: Status, system: bool)

  // What the validations look up beside categories.
  datatype Catalog = Catalog(organizations: map<string, Status>, subcategories: map<string, Subcategory>)

  // ----- composite keys

  // [organizationId, name].toString()
  function NameKey(organizationId: string, name: string): string {
    organizationId + "," + name
  }

  predicate CommaFree(id: string) {
    ',' !in id
  }

  lemma FirstComma(o: string, n: string)
    requires CommaFree(o)
    ensures NameKey(o, n)[|o|] == ',' && forall i :: 0 <= i < |o| ==> NameKey(o, n)[i] != ','
  {
    forall i | 0 <= i < |o| ensures NameKey(o, n)[i] != ',' {
      assert o[i] in o;
    }
  }

  /** Comma-free ids make the joined key injective. */
  lemma KeyIsInjective(o1: string, n1: string, o2: string, n2: string)
    requires CommaFree(o1) && CommaFree(o2)
    ensures NameKey(o1, n1) == NameKey(o2, n2) <==> o1 == o2 && n1 == n2
  {
    var k1, k2 := NameKey(o1, n1), NameKey(o2, n2);
    FirstComma(o1, n1);
    FirstComma(o2, n2);
    if k1 == k2 {
      assert |o1| == |o2|;
      assert o1 == k1[..|o1|] && o2 == k2[..|o2|];
      assert n1 == k1[|o1| + 1..] && n2 == k2[|o2| + 1..];
    }
  }

  /** With a comma in an id two different categories share a key. */
  lemma CommasCollide()
    ensures NameKey("a", "b,c") == NameKey("a,b", "c")
  {
    assert NameKey("a", "b,c") == "a,b,c" == NameKey("a,b", "c");
  }

  // ----- the invariant

  predicate Namesakes(a: Category, b: Category) {
    a.status == Active && b.status == Active && a.organization == b.organization && a.name == b.name
  }

  predicate Clash(a: Category, b: Category) {
    Namesakes(a, b) && a.organization.Some?
  }

  // No two active categories of one organization share a name.
  ghost predicate UniqueNames(s: Store) {
    forall a, b :: a in s && b in s && a != b ==> !Clash(s[a], s[b])
  }

  // No two active categories share a name among those of one owner: an organization, or none.
  ghost predicate UniqueNamesOf(s: Store, owner: Option<string>) {
    forall a, b :: a in s && b in s && a != b && s[a].organization == owner ==> !Namesakes(s[a], s[b])
  }

  // ----- outcomes

  datatype Kind =
    | OrganizationNotActive | SubcategoriesNotActive | DuplicateInput | NameTaken
    | DuplicateId | NonExistent | NotActive | DuplicateName | NothingToUpdate

  datatype ApiError = ApiError(index: nat, kind: Kind)

  datatype Outcome = BadLength | Unauthorised | Rejected(errors: seq<ApiError>) | Saved

  predicate GoodLength(n: nat) {
    MIN_INPUTS <= n <= MAX_INPUTS
  }

  predicate AllActive(ids: seq<string>, catalog: Catalog) {
    forall id :: id in ids ==> id in catalog.subcategories && catalog.subcategories[id].status == Active
  }

  // ----- creation

  datatype CreateInput = CreateInput(name: string, organizationId: string, subcategoryIds: Option<seq<string>>)

  function KeyOf(i: CreateInput): string {
    NameKey(i.organizationId, i.name)
  }

  // An active category of a requested organization with a requested name, under the given key.
  predicate NamePreloaded(s: Store, inputs: seq<CreateInput>, key: string) {
    exists id :: id in s && s[id].status == Active && s[id].organization.Some? &&
      NameKey(s[id].organization.value, s[id].name) == key &&
      (exists i :: i in inputs && i.name == s[id].name) &&
          (exists i :: i in inputs && i.organizationId == s[id].organization.value)
  }

  predicate ActiveOrganization(catalog: Catalog, id: string) {
    id in catalog.organizations && catalog.organizations[id] == Active
  }

  ghost predicate CreateViolates(s: Store, catalog: Catalog, inputs: seq<CreateInput>, i: nat, kind: Kind)
    requires i < |inputs|
  {
    match kind
    case OrganizationNotActive =>
      inputs[i].organizationId !in catalog.organizations || catalog.organizations[inputs[i].organizationId] != Active
    case SubcategoriesNotActive =>
      inputs[i].subcategoryIds.Some? &&
      exists id :: id in inputs[i].subcategoryIds.value &&
        (id !in catalog.subcategories || catalog.subcategories[id].status != Active)
    case DuplicateInput => exists j :: 0 <= j < i && KeyOf(inputs[j]) == KeyOf(inputs[i])
    case NameTaken => ActiveOrganization(catalog, inputs[i].organizationId) &&
        NamePreloaded(s, inputs, KeyOf(inputs[i]))
    case _ => false
  }

  ghost predicate CreateErrors(s: Store, catalog: Catalog, inputs: seq<CreateInput>, n: nat, errors: seq<ApiError>)
    requires n <= |inputs|
  {
    forall e :: e in errors <==> e.index < n && CreateViolates(s, catalog, inputs, e.index, e.kind)
  }

  function NewCategory(i: CreateInput): Category {
    Category(i.name, Some(i.organizationId), Active, false, GetOr(i.subcategoryIds, []))
  }

  function Added(s: Store, inputs: seq<CreateInput>, ids: seq<string>): Store
    requires |inputs| == |ids|
  {
    if inputs == [] then s
    else Added(s, inputs[..|inputs| - 1], ids[..|ids| - 1])[ids[|ids| - 1] := NewCategory(inputs[|inputs| - 1])]
  }

  ghost predicate FreshIds(s: Store, ids: seq<string>) {
    NoDuplicates(ids) && forall id :: id in ids ==> id !in s
  }

  // The inputs meet every condition of a creation.
  ghost predicate Creatable(s: Store, catalog: Catalog, inputs: seq<CreateInput>) {
    forall i, kind :: 0 <= i < |inputs| ==> !CreateViolates(s, catalog, inputs, i, kind)
  }

  lemma {:induction false} AddedMeaning(s: Store, inputs: seq<CreateInput>, ids: seq<string>)
    requires |inputs| == |ids| && FreshIds(s, ids)
    ensures forall id :: id in Added(s, inputs, ids) <==> id in s || id in ids
    ensures forall id :: id in s ==> Added(s, inputs, ids)[id] == s[id]
    ensures forall i :: 0 <= i < |ids| ==> Added(s, inputs, ids)[ids[i]] == NewCategory(inputs[i])
  {
    if inputs != [] {
      var n := |inputs| - 1;
      assert ids == ids[..n] + [ids[n]];
      AddedMeaning(s, inputs[..n], ids[..n]);
    }
  }

  // After a creation every input's category is stored under its id, active, of its organization and not
  // a system one, with exactly the given subcategories; every other category is as it was.
  ghost predicate Created(before: Store, after: Store, inputs: seq<CreateInput>, ids: seq<string>)
    requires |inputs| == |ids|
  {
    && (forall id :: id in after <==> id in before || id in ids)
    && (forall id :: id in before && id !in ids ==> id in after && after[id] == before[id])
    && (forall i :: 0 <= i < |ids| ==>
          && ids[i] in after && after[ids[i]].name == inputs[i].name
          && after[ids[i]].organization == Some(inputs[i].organizationId)
          && after[ids[i]].status == Active && !after[ids[i]].system
          && after[ids[i]].subcategories
             == if inputs[i].subcategoryIds.Some? then inputs[i].subcategoryIds.value else [])
  }

  lemma AddedIsCreated(s: Store, inputs: seq<CreateInput>, ids: seq<string>)
    requires |inputs| == |ids| && FreshIds(s, ids)
    ensures Created(s, Added(s, inputs, ids), inputs, ids)
  {
    AddedMeaning(s, inputs, ids);
  }

  ghost predicate CommaFreeIds(s: Store, inputs: seq<CreateInput>) {
    && (forall x :: x in inputs ==> CommaFree(x.organizationId))
    && (forall id :: id in s && s[id].organization.Some? ==> CommaFree(s[id].organization.value))
  }

  // Organizations and subcategories are active, and no name is given twice in one organization, by the
  // inputs or by an input and an active category.
  ghost predicate ValidCreation(s: Store, catalog: Catalog, inputs: seq<CreateInput>) {
    forall i :: 0 <= i < |inputs| ==>
      && inputs[i].organizationId in catalog.organizations
      && catalog.organizations[inputs[i].organizationId] == Active
      && (inputs[i].subcategoryIds.Some? ==>
            forall id :: id in inputs[i].subcategoryIds.value ==>
              id in catalog.subcategories && catalog.subcategories[id].status == Active)
      && (forall j :: 0 <= j < i ==>
            inputs[j].name != inputs[i].name || inputs[j].organizationId != inputs[i].organizationId)
      && (forall id :: id in s ==> s[id].status != Active || s[id].name != inputs[i].name
                                   || s[id].organization != Some(inputs[i].organizationId))
  }

  /** With comma-free organization ids exactly the valid creations pass validation. */
  lemma ValidIsCreatable(s: Store, catalog: Catalog, inputs: seq<CreateInput>)
    requires CommaFreeIds(s, inputs)
    ensures Creatable(s, catalog, inputs) <==> ValidCreation(s, catalog, inputs)
  {
    forall i | 0 <= i < |inputs|
      ensures CreateViolates(s, catalog, inputs, i, DuplicateInput)
              <==> exists j :: 0 <= j < i && inputs[j].name == inputs[i].name
                               && inputs[j].organizationId == inputs[i].organizationId
      ensures CreateViolates(s, catalog, inputs, i, NameTaken)
              <==> ActiveOrganization(catalog, inputs[i].organizationId) &&
                   exists id :: id in s && Clash(s[id], NewCategory(inputs[i]))
    {
      NamesAreRefusedOnlyOnConflict(s, catalog, inputs, i);
    }
    if Creatable(s, catalog, inputs) {
      forall i | 0 <= i < |inputs|
        ensures ActiveOrganization(catalog, inputs[i].organizationId)
        ensures AllActive(GetOr(inputs[i].subcategoryIds, []), catalog)
        ensures forall id :: id in s ==> !Clash(s[id], NewCategory(inputs[i]))
      {
        assert !CreateViolates(s, catalog, inputs, i, OrganizationNotActive);
        assert !CreateViolates(s, catalog, inputs, i, SubcategoriesNotActive);
        assert !CreateViolates(s, catalog, inputs, i, NameTaken);
      }
      forall i, j | 0 <= j < i < |inputs|
        ensures inputs[j].name != inputs[i].name || inputs[j].organizationId != inputs[i].organizationId
      {
        assert !CreateViolates(s, catalog, inputs, i, DuplicateInput);
      }
    }
    if ValidCreation(s, catalog, inputs) {
      forall i, kind | 0 <= i < |inputs| ensures !CreateViolates(s, catalog, inputs, i, kind) {
      }
    }
  }

  lemma ClashIsPreloaded(s: Store, inputs: seq<CreateInput>, i: nat, id: string)
    requires i < |inputs| && id in s
    ensures Clash(s[id], NewCategory(inputs[i])) ==> NamePreloaded(s, inputs, KeyOf(inputs[i]))
  {
    assert inputs[i] in inputs;
  }

  /** A creation that passes validation keeps the names of active categories unique. */
  lemma CreationKeepsNamesUnique(s: Store, catalog: Catalog, inputs: seq<CreateInput>, ids: seq<string>)
    requires |inputs| == |ids| && FreshIds(s, ids)
    requires UniqueNames(s) && Creatable(s, catalog, inputs)
    ensures UniqueNames(Added(s, inputs, ids))
  {
    var after := Added(s, inputs, ids);
    AddedMeaning(s, inputs, ids);
    forall i, j | 0 <= j < i < |ids| ensures !Clash(after[ids[j]], after[ids[i]]) {
      assert !CreateViolates(s, catalog, inputs, i, DuplicateInput);
      assert KeyOf(inputs[j]) != KeyOf(inputs[i]);
    }
    forall id, i | id in s && 0 <= i < |ids| ensures !Clash(s[id], after[ids[i]]) {
      ClashIsPreloaded(s, inputs, i, id);
      assert !CreateViolates(s, catalog, inputs, i, OrganizationNotActive);
      assert !CreateViolates(s, catalog, inputs, i, NameTaken);
    }
    forall a, b | a in after && b in after && a != b ensures !Clash(after[a], after[b]) {
      if a in ids && b in ids {
        var i, j :| 0 <= i < |ids| && 0 <= j < |ids| && ids[i] == a && ids[j] == b;
        assert i < j || j < i;
      } else if a in ids {
        var i :| 0 <= i < |ids| && ids[i] == a;
      } else if b in ids {
        var i :| 0 <= i < |ids| && ids[i] == b;
      }
    }
  }

  /** With comma-free organization ids a name is refused only for a real conflict: an earlier input
      or an active category of the same organization and name. */
  lemma NamesAreRefusedOnlyOnConflict(s: Store, catalog: Catalog, inputs: seq<CreateInput>, i: nat)
    requires i < |inputs|
    requires forall x :: x in inputs ==> CommaFree(x.organizationId)
    requires forall id :: id in s && s[id].organization.Some? ==> CommaFree(s[id].organization.value)
    ensures CreateViolates(s, catalog, inputs, i, DuplicateInput)
            <==> exists j :: 0 <= j < i && inputs[j].name == inputs[i].name
                             && inputs[j].organizationId == inputs[i].organizationId
    ensures CreateViolates(s, catalog, inputs, i, NameTaken)
            <==> ActiveOrganization(catalog, inputs[i].organizationId) &&
                 exists id :: id in s && Clash(s[id], NewCategory(inputs[i]))
  {
    forall j | 0 <= j < i
      ensures KeyOf(inputs[j]) == KeyOf(inputs[i])
         <==> inputs[j].name == inputs[i].name && inputs[j].organizationId == inputs[i].organizationId
    {
      KeyIsInjective(inputs[j].organizationId, inputs[j].name, inputs[i].organizationId, inputs[i].name);
    }
    forall id | id in s && s[id].organization.Some?
      ensures NameKey(s[id].organization.value, s[id].name) == KeyOf(inputs[i])
         <==> s[id].organization.value == inputs[i].organizationId && s[id].name == inputs[i].name
    {
      KeyIsInjective(s[id].organization.value, s[id].name, inputs[i].organizationId, inputs[i].name);
    }
    assert inputs[i] in inputs;
  }

  // ----- update

  datatype UpdateInput = UpdateInput(id: string, name: Option<string>, subcategoryIds: Option<seq<string>>)

  predicate Names(i: UpdateInput) {
    i.name.Some? && i.name.value != ""
  }

  function OrganizationKey(c: Category, name: string): string {
    NameKey(GetOr(c.organization, ""), name)
  }

  // One category per key among those that bear a requested name, whatever their status; which one
  // it is when several share a key is up to the order the database returns them in.
  ghost predicate Preloaded(s: Store, inputs: seq<UpdateInput>, found: map<string, string>) {
    && (forall key :: key in found ==> found[key] in s && OrganizationKey(s[found[key]], s[found[key]].name) == key)
    && (forall id, i :: id in s && i in inputs && i.name == Some(s[id].name) ==>
        OrganizationKey(s[id], s[id].name) in found)
  }

  function OrganizationOf(s: Store, id: string): Option<string> {
    if id in s then s[id].organization else None
  }

  predicate NameFoundElsewhere(s: Store, found: map<string, string>, i: UpdateInput)
    requires i.id in s && Names(i)
  {
    var key := OrganizationKey(s[i.id], i.name.value);
    key in found && found[key] != i.id
  }

  // An earlier input of another category with the same name whose organization is this one's; a
  // category without organization never equals one here.
  predicate NamedEarlier(s: Store, inputs: seq<UpdateInput>, i: nat)
    requires i < |inputs| && inputs[i].id in s
  {
    exists j :: 0 <= j < i && inputs[j].id != inputs[i].id && inputs[j].name == inputs[i].name &&
      OrganizationOf(s, inputs[j].id) == Some(GetOr(s[inputs[i].id].organization, ""))
  }

  ghost predicate UpdateViolates(s: Store, catalog: Catalog, inputs: seq<UpdateInput>, found: map<string, string>,
                                 i: nat, kind: Kind)
    requires i < |inputs|
  {
    var input := inputs[i];
    match kind
    case DuplicateId => exists j :: 0 <= j < i && inputs[j].id == input.id
    case NonExistent => input.id !in s
    case NotActive => input.id in s && s[input.id].status != Active
    case NameTaken => input.id in s && input.name.Some? && input.name.value != "" &&
        var key := OrganizationKey(s[input.id], input.name.value);
        key in found && found[key] != input.id
    case DuplicateName => input.id in s && input.name.Some? && input.name.value != "" &&
        exists j :: 0 <= j < i && inputs[j].id != input.id && inputs[j].name == input.name && inputs[j].id in s
                    && s[inputs[j].id].organization == Some(GetOr(s[input.id].organization, ""))
    case SubcategoriesNotActive => input.id in s && input.subcategoryIds.Some? &&
        exists id :: id in input.subcategoryIds.value &&
          (id !in catalog.subcategories || catalog.subcategories[id].status != Active)
    case NothingToUpdate => input.id in s && input.subcategoryIds.None? && (input.name.None? || input.name.value == "")
    case _ => false
  }

  ghost predicate UpdateErrors(s: Store, catalog: Catalog, inputs: seq<UpdateInput>, found: map<string, string>, n: nat,
                               errors: seq<ApiError>)
    requires n <= |inputs|
  {
    forall e :: e in errors <==> e.index < n && UpdateViolates(s, catalog, inputs, found, e.index, e.kind)
  }

  ghost predicate Updatable(s: Store, catalog: Catalog, inputs: seq<UpdateInput>, found: map<string, string>) {
    forall i, kind :: 0 <= i < |inputs| ==> !UpdateViolates(s, catalog, inputs, found, i, kind)
  }

  function Change(c: Category, i: UpdateInput): Category {
    c.(name := if Names(i) then i.name.value else c.name, subcategories := GetOr(i.subcategoryIds, c.subcategories))
  }

  function Updated(s: Store, inputs: seq<UpdateInput>): Store {
    if inputs == [] then s
    else
      var rest := Updated(s, inputs[..|inputs| - 1]);
      var i := inputs[|inputs| - 1];
      if i.id in rest then rest[i.id := Change(rest[i.id], i)] else rest
  }

  ghost predicate DistinctIds(inputs: seq<UpdateInput>) {
    forall i, j :: 0 <= i < j < |inputs| ==> inputs[i].id != inputs[j].id
  }

  lemma {:induction false} UpdatedElsewhere(s: Store, inputs: seq<UpdateInput>, id: string)
    ensures id in Updated(s, inputs) <==> id in s
    ensures id in s && (forall i :: i in inputs ==> i.id != id) ==> Updated(s, inputs)[id] == s[id]
  {
    if inputs != [] {
      UpdatedElsewhere(s, inputs[..|inputs| - 1], id);
    }
  }

  lemma {:induction false} UpdatedCategory(s: Store, inputs: seq<UpdateInput>, i: UpdateInput)
    requires DistinctIds(inputs) && i in inputs && i.id in s
    ensures i.id in Updated(s, inputs) && Updated(s, inputs)[i.id] == Change(s[i.id], i)
  {
    var init, last := inputs[..|inputs| - 1], inputs[|inputs| - 1];
    if i == last {
      UpdatedElsewhere(s, init, i.id);
    } else {
      UpdatedCategory(s, init, i);
    }
  }

  // After an update each listed category has the given name, where one is given, and the given
  // subcategories, where a list is; everything else is as it was.
  ghost predicate Changed(before: Store, after: Store, inputs: seq<UpdateInput>) {
    && after.Keys == before.Keys
    && (forall id :: id in after && (forall i :: i in inputs ==> i.id != id) ==> after[id] == before[id])
    && (forall i :: i in inputs && i.id in after ==>
          && after[i.id].name == (if i.name.Some? && i.name.value != "" then i.name.value else before[i.id].name)
          && after[i.id].subcategories
             == (if i.subcategoryIds.Some? then i.subcategoryIds.value else before[i.id].subcategories)
          && after[i.id].organization == before[i.id].organization
          && after[i.id].status == before[i.id].status && after[i.id].system == before[i.id].system)
  }

  lemma UpdatedIsChanged(s: Store, inputs: seq<UpdateInput>)
    requires DistinctIds(inputs)
    ensures Changed(s, Updated(s, inputs), inputs)
  {
    forall id
      ensures id in Updated(s, inputs) <==> id in s
      ensures id in s && (forall i :: i in inputs ==> i.id != id) ==> Updated(s, inputs)[id] == s[id]
    {
      UpdatedElsewhere(s, inputs, id);
    }
    forall i | i in inputs && i.id in s ensures Updated(s, inputs)[i.id] == Change(s[i.id], i) {
      UpdatedCategory(s, inputs, i);
    }
  }

  // Every input names a stored active category, each its own, and gives a name or subcategories; the
  // subcategories are active, and the name is neither the preloaded one of another category, nor given
  // before to another category of the organization.
  ghost predicate ValidUpdate(s: Store, catalog: Catalog, inputs: seq<UpdateInput>, found: map<string, string>) {
    forall i :: 0 <= i < |inputs| ==>
      && inputs[i].id in s && s[inputs[i].id].status == Active
      && (forall j :: 0 <= j < i ==> inputs[j].id != inputs[i].id)
      && (inputs[i].subcategoryIds.Some? || (inputs[i].name.Some? && inputs[i].name.value != ""))
      && (inputs[i].subcategoryIds.Some? ==>
            forall id :: id in inputs[i].subcategoryIds.value ==>
              id in catalog.subcategories && catalog.subcategories[id].status == Active)
      && (inputs[i].name.Some? && inputs[i].name.value != "" ==>
            var organization := GetOr(s[inputs[i].id].organization, "");
            var key := organization + "," + inputs[i].name.value;
            && (key in found ==> found[key] == inputs[i].id)
            && (forall j :: 0 <= j < i && inputs[j].name == inputs[i].name && inputs[j].id in s ==>
                  s[inputs[j].id].organization != Some(organization)))
  }

  lemma ValidIsUpdatable(s: Store, catalog: Catalog, inputs: seq<UpdateInput>, found: map<string, string>)
    ensures Updatable(s, catalog, inputs, found) <==> ValidUpdate(s, catalog, inputs, found)
  {
    if Updatable(s, catalog, inputs, found) {
      UpdatableFacts(s, catalog, inputs, found);
      forall i | 0 <= i < |inputs|
        ensures Names(inputs[i]) || inputs[i].subcategoryIds.Some?
        ensures inputs[i].subcategoryIds.Some? ==> AllActive(inputs[i].subcategoryIds.value, catalog)
        ensures inputs[i].id in s
        ensures Names(inputs[i]) ==> !NameFoundElsewhere(s, found, inputs[i]) && !NamedEarlier(s, inputs, i)
      {
        assert inputs[i] in inputs;
        assert !UpdateViolates(s, catalog, inputs, found, i, NothingToUpdate);
        assert !UpdateViolates(s, catalog, inputs, found, i, SubcategoriesNotActive);
        assert !UpdateViolates(s, catalog, inputs, found, i, NameTaken);
        assert !UpdateViolates(s, catalog, inputs, found, i, DuplicateName);
      }
    }
    if ValidUpdate(s, catalog, inputs, found) {
      forall i, kind | 0 <= i < |inputs| ensures !UpdateViolates(s, catalog, inputs, found, i, kind) {
      }
    }
  }

  lemma UpdatableFacts(s: Store, catalog: Catalog, inputs: seq<UpdateInput>, found: map<string, string>)
    requires Updatable(s, catalog, inputs, found)
    ensures DistinctIds(inputs)
    ensures forall i :: i in inputs ==> i.id in s && s[i.id].status == Active
  {
    forall i, j | 0 <= i < j < |inputs| ensures inputs[i].id != inputs[j].id {
      assert !UpdateViolates(s, catalog, inputs, found, j, DuplicateId);
    }
    forall i | i in inputs ensures i.id in s && s[i.id].status == Active {
      var k :| 0 <= k < |inputs| && inputs[k] == i;
      assert !UpdateViolates(s, catalog, inputs, found, k, NonExistent);
      assert !UpdateViolates(s, catalog, inputs, found, k, NotActive);
    }
  }

  // A category that takes a new name meets no other active category of that name before the batch.
  lemma NewNameWasFree(s: Store, catalog: Catalog, inputs: seq<UpdateInput>, found: map<string, string>, k: nat,
                       other: string)
    requires k < |inputs| && Preloaded(s, inputs, found) && Updatable(s, catalog, inputs, found)
    requires Names(inputs[k]) && other in s && other != inputs[k].id && UniqueNamesOf(s, s[other].organization)
    ensures inputs[k].id in s && !Namesakes(s[inputs[k].id].(name := inputs[k].name.value), s[other])
  {
    UpdatableFacts(s, catalog, inputs, found);
    var id, name := inputs[k].id, inputs[k].name.value;
    assert inputs[k] in inputs;
    if Namesakes(s[id].(name := name), s[other]) {
      assert !UpdateViolates(s, catalog, inputs, found, k, NameTaken);
      var key := OrganizationKey(s[other], name);
      assert inputs[k].name == Some(s[other].name);
      assert key in found && found[key] == id;
      SameOrganizationSameName(s[id], s[other]);
    }
  }

  // Two categories of one organization under one key have one name.
  lemma SameOrganizationSameName(a: Category, b: Category)
    requires a.organization == b.organization && OrganizationKey(a, a.name) == OrganizationKey(b, b.name)
    ensures a.name == b.name
  {
    var n := |GetOr(a.organization, "")|;
    assert a.name == OrganizationKey(a, a.name)[n + 1..];
    assert b.name == OrganizationKey(b, b.name)[n + 1..];
  }

  // Two inputs give one name to two categories of the owner.
  predicate GiveNameTwice(s: Store, inputs: seq<UpdateInput>, owner: Option<string>, j: nat, k: nat) {
    && j < k < |inputs| && Names(inputs[j]) && inputs[j].name == inputs[k].name
    && inputs[j].id in s && inputs[k].id in s
    && s[inputs[j].id].organization == owner && s[inputs[k].id].organization == owner
  }

  ghost predicate NameGivenTwice(s: Store, inputs: seq<UpdateInput>, owner: Option<string>) {
    exists j, k :: GiveNameTwice(s, inputs, owner, j, k)
  }

  lemma ChangedAreNoNamesakes(s: Store, catalog: Catalog, inputs: seq<UpdateInput>, found: map<string, string>,
                              owner: Option<string>, j: nat, k: nat)
    requires j < k < |inputs| && Preloaded(s, inputs, found) && Updatable(s, catalog, inputs, found)
    requires UniqueNamesOf(s, owner) && !NameGivenTwice(s, inputs, owner)
    ensures inputs[j].id in s && inputs[k].id in s
    ensures s[inputs[j].id].organization == owner ==>
              !Namesakes(Change(s[inputs[j].id], inputs[j]), Change(s[inputs[k].id], inputs[k]))
  {
    UpdatableFacts(s, catalog, inputs, found);
    var a, b := inputs[j], inputs[k];
    assert a in inputs && b in inputs && a.id != b.id;
    if s[a.id].organization == owner == s[b.id].organization {
      if Names(a) && Names(b) {
        assert !GiveNameTwice(s, inputs, owner, j, k);
      } else if Names(a) {
        NewNameWasFree(s, catalog, inputs, found, j, b.id);
      } else if Names(b) {
        NewNameWasFree(s, catalog, inputs, found, k, a.id);
      } else {
        assert !Namesakes(s[a.id], s[b.id]);
      }
    }
  }

  lemma ChangedAgainstUnchanged(s: Store, catalog: Catalog, inputs: seq<UpdateInput>, found: map<string, string>,
                                i: nat, other: string)
    requires i < |inputs| && Preloaded(s, inputs, found) && Updatable(s, catalog, inputs, found)
    requires other in s && other != inputs[i].id && UniqueNamesOf(s, s[other].organization)
    ensures inputs[i].id in s && !Namesakes(Change(s[inputs[i].id], inputs[i]), s[other])
  {
    UpdatableFacts(s, catalog, inputs, found);
    assert inputs[i] in inputs;
    if Names(inputs[i]) {
      NewNameWasFree(s, catalog, inputs, found, i, other);
    } else if s[inputs[i].id].organization == s[other].organization {
      assert !Namesakes(s[inputs[i].id], s[other]);
    }
  }

  // The stored category the update leaves under an id: the one it had, or a change by one input.
  function ChangedBy(s: Store, inputs: seq<UpdateInput>, id: string, k: Option<nat>): Category
    requires id in s && (k.Some? ==> k.value < |inputs|)
  {
    if k.Some? then Change(s[id], inputs[k.value]) else s[id]
  }

  lemma AfterUpdate(s: Store, catalog: Catalog, inputs: seq<UpdateInput>, found: map<string, string>, id: string)
    returns (k: Option<nat>)
    requires Updatable(s, catalog, inputs, found) && id in Updated(s, inputs)
    ensures id in s && (k.Some? ==> k.value < |inputs| && inputs[k.value].id == id)
    ensures Updated(s, inputs)[id] == ChangedBy(s, inputs, id, k)
  {
    UpdatableFacts(s, catalog, inputs, found);
    UpdatedElsewhere(s, inputs, id);
    if i :| 0 <= i < |inputs| && inputs[i].id == id {
      UpdatedCategory(s, inputs, inputs[i]);
      k := Some(i);
    } else {
      k := None;
    }
  }

  lemma NoNamesakesAfter(s: Store, catalog: Catalog, inputs: seq<UpdateInput>, found: map<string, string>,
                         owner: Option<string>, a: string, i: Option<nat>, b: string, j: Option<nat>)
    requires Preloaded(s, inputs, found) && Updatable(s, catalog, inputs, found)
    requires UniqueNamesOf(s, owner) && !NameGivenTwice(s, inputs, owner)
    requires a in s && b in s && a != b && s[a].organization == owner == s[b].organization
    requires i.Some? ==> i.value < |inputs| && inputs[i.value].id == a
    requires j.Some? ==> j.value < |inputs| && inputs[j.value].id == b
    ensures !Namesakes(ChangedBy(s, inputs, a, i), ChangedBy(s, inputs, b, j))
  {
    match (i, j)
    case (Some(x), Some(y)) =>
      if x < y { ChangedAreNoNamesakes(s, catalog, inputs, found, owner, x, y); }
      else { ChangedAreNoNamesakes(s, catalog, inputs, found, owner, y, x); }
    case (Some(x), None) => ChangedAgainstUnchanged(s, catalog, inputs, found, x, b);
    case (None, Some(y)) => ChangedAgainstUnchanged(s, catalog, inputs, found, y, a);
    case (None, None) => assert !Namesakes(s[a], s[b]);
  }

  lemma NamesGivenOnceStayUnique(s: Store, catalog: Catalog, inputs: seq<UpdateInput>, found: map<string, string>,
                                 owner: Option<string>)
    requires Preloaded(s, inputs, found) && Updatable(s, catalog, inputs, found)
    requires UniqueNamesOf(s, owner) && !NameGivenTwice(s, inputs, owner)
    ensures UniqueNamesOf(Updated(s, inputs), owner)
  {
    var after := Updated(s, inputs);
    forall a, b | a in after && b in after && a != b && after[a].organization == owner
      ensures !Namesakes(after[a], after[b])
    {
      var i := AfterUpdate(s, catalog, inputs, found, a);
      var j := AfterUpdate(s, catalog, inputs, found, b);
      if after[b].organization == owner {
        NoNamesakesAfter(s, catalog, inputs, found, owner, a, i, b, j);
      }
    }
  }

  lemma NamesGivenTwiceMeet(s: Store, catalog: Catalog, inputs: seq<UpdateInput>, found: map<string, string>,
                            owner: Option<string>, j: nat, k: nat)
    requires Updatable(s, catalog, inputs, found) && GiveNameTwice(s, inputs, owner, j, k)
    ensures !UniqueNamesOf(Updated(s, inputs), owner)
  {
    var after, a, b := Updated(s, inputs), inputs[j], inputs[k];
    UpdatableFacts(s, catalog, inputs, found);
    assert a in inputs && b in inputs && a.id != b.id;
    UpdatedCategory(s, inputs, a);
    UpdatedCategory(s, inputs, b);
    assert Namesakes(after[a.id], after[b.id]);
  }

  /** An update that passes validation keeps the names of the active categories of an owner unique,
      be the owner an organization or none, exactly when it gives no name to two of them. */
  lemma UpdateKeepsNamesOf(s: Store, catalog: Catalog, inputs: seq<UpdateInput>, found: map<string, string>,
                           owner: Option<string>)
    requires Preloaded(s, inputs, found) && Updatable(s, catalog, inputs, found) && UniqueNamesOf(s, owner)
    ensures UniqueNamesOf(Updated(s, inputs), owner) <==> !NameGivenTwice(s, inputs, owner)
  {
    if j, k :| GiveNameTwice(s, inputs, owner, j, k) {
      NamesGivenTwiceMeet(s, catalog, inputs, found, owner, j, k);
    } else {
      NamesGivenOnceStayUnique(s, catalog, inputs, found, owner);
    }
  }

  // Validation sees to it for organizations.
  lemma OrganizationsGiveNamesOnce(s: Store, catalog: Catalog, inputs: seq<UpdateInput>, found: map<string, string>,
                                   owner: Option<string>)
    requires Updatable(s, catalog, inputs, found) && owner.Some?
    ensures !NameGivenTwice(s, inputs, owner)
  {
    UpdatableFacts(s, catalog, inputs, found);
    forall j: nat, k: nat | j < k < |inputs| ensures !GiveNameTwice(s, inputs, owner, j, k) {
      assert !UpdateViolates(s, catalog, inputs, found, k, DuplicateName);
    }
  }

  /** So an update that passes validation keeps the names of active categories unique in every
      organization. */
  lemma UpdateKeepsNamesUnique(s: Store, catalog: Catalog, inputs: seq<UpdateInput>, found: map<string, string>)
    requires Preloaded(s, inputs, found) && Updatable(s, catalog, inputs, found) && UniqueNames(s)
    ensures UniqueNames(Updated(s, inputs))
  {
    var after := Updated(s, inputs);
    forall a, b | a in after && b in after && a != b ensures !Clash(after[a], after[b]) {
      var owner := after[a].organization;
      if owner.Some? {
        forall x, y | x in s && y in s && x != y && s[x].organization == owner ensures !Namesakes(s[x], s[y]) {
          assert !Clash(s[x], s[y]);
        }
        OrganizationsGiveNamesOnce(s, catalog, inputs, found, owner);
        UpdateKeepsNamesOf(s, catalog, inputs, found, owner);
      }
    }
  }

  /** For categories without organization validation does not: one batch may give two of them the same
      name. */
  lemma NamesWithoutOrganizationCanMeet(s: Store, catalog: Catalog, inputs: seq<UpdateInput>)
    requires s.Keys == {"1", "22"} && s["1"].organization.None? && s["22"].organization.None?
    requires s["1"].status == Active && s["22"].status == Active && s["1"].name != "new" && s["22"].name != "new"
    requires inputs == [UpdateInput("1", Some("new"), None), UpdateInput("22", Some("new"), None)]
    ensures Preloaded(s, inputs, map[]) && Updatable(s, catalog, inputs, map[])
    ensures Updated(s, inputs).Keys == s.Keys && Updated(s, inputs)["1"].name == Updated(s, inputs)["22"].name
    ensures UniqueNamesOf(s, None) ==> !UniqueNamesOf(Updated(s, inputs), None)
  {
    assert |"1"| != |"22"|;
    assert inputs[0] in inputs && inputs[1] in inputs;
    UpdatedCategory(s, inputs, inputs[0]);
    UpdatedCategory(s, inputs, inputs[1]);
    forall id ensures id in Updated(s, inputs) <==> id in s { UpdatedElsewhere(s, inputs, id); }
    assert GiveNameTwice(s, inputs, None, 0, 1);
    NamesGivenTwiceMeet(s, catalog, inputs, map[], None, 0, 1);
  }

  // ----- runs

  datatype Step =
    | Create(catalog: Catalog, creates: seq<CreateInput>, ids: seq<string>)
    | Update(catalog: Catalog, updates: seq<UpdateInput>, found: map<string, string>)
    | Deactivate(gone: set<string>)

  function Deactivated(s: Store, ids: set<string>): Store {
    map id | id in s :: if id in ids && s[id].status == Active then s[id].(status := Inactive) else s[id]
  }

  // A step as the service takes it: ids are generated fresh, and lookups come from the store.
  ghost predicate Possible(s: Store, step: Step) {
    match step
    case Create(_, creates, ids) => |creates| == |ids| && FreshIds(s, ids)
    case Update(_, updates, found) => Preloaded(s, updates, found)
    case Deactivate(_) => true
  }

  // A batch that fails validation leaves the store as it is.
  ghost function Apply(s: Store, step: Step): Store
    requires Possible(s, step)
  {
    match step
    case Create(catalog, creates, ids) => if Creatable(s, catalog, creates) then Added(s, creates, ids) else s
    case Update(catalog, updates, found) => if Updatable(s, catalog, updates, found) then Updated(s, updates) else s
    case Deactivate(gone) => Deactivated(s, gone)
  }

  ghost predicate IsRun(stores: seq<Store>, steps: seq<Step>) {
    |stores| == |steps| + 1 &&
    forall k :: 0 <= k < |steps| ==> Possible(stores[k], steps[k]) && stores[k + 1] == Apply(stores[k], steps[k])
  }

  lemma StepKeepsNamesUnique(s: Store, step: Step)
    requires Possible(s, step) && UniqueNames(s)
    ensures UniqueNames(Apply(s, step))
  {
    match step
    case Create(catalog, creates, ids) =>
      if Creatable(s, catalog, creates) { CreationKeepsNamesUnique(s, catalog, creates, ids); }
    case Update(catalog, updates, found) =>
      if Updatable(s, catalog, updates, found) { UpdateKeepsNamesUnique(s, catalog, updates, found); }
    case Deactivate(gone) =>
      forall a, b | a in s && b in s && a != b ensures !Clash(Deactivated(s, gone)[a], Deactivated(s, gone)[b]) {
        assert !Clash(s[a], s[b]);
      }
  }

  /** Names stay unique over every run of creations, updates and deactivations. */
  lemma {:induction false} RunsKeepNamesUnique(stores: seq<Store>, steps: seq<Step>, k: nat)
    requires IsRun(stores, steps) && UniqueNames(stores[0]) && k < |stores|
    ensures UniqueNames(stores[k])
  {
    if k > 0 {
      RunsKeepNamesUnique(stores, steps, k - 1);
      StepKeepsNamesUnique(stores[k - 1], steps[k - 1]);
    }
  }

  // ----- the service

  class CategoryService {
    var categories: Store

    constructor (categories: Store)
      ensures this.categories == categories
    {
      this.categories := categories;
    }

    /** Creates all of the categories or none. A batch is rejected with one error for every condition
        an input violates, and only then. */
    method CreateCategories(inputs: seq<CreateInput>, catalog: Catalog, allowed: bool, ids: seq<string>)
      returns (outcome: Outcome)
      requires |ids| == |inputs| && FreshIds(categories, ids)
      modifies this
      ensures outcome.BadLength? <==> !GoodLength(|inputs|)
      ensures outcome.Unauthorised? <==> GoodLength(|inputs|) && !allowed
      ensures outcome.Rejected? ==> CreateErrors(old(categories), catalog, inputs, |inputs|, outcome.errors)
      ensures outcome.Saved? <==> GoodLength(|inputs|) && allowed && Creatable(old(categories), catalog, inputs)
      ensures categories == if outcome.Saved? then Added(old(categories), inputs, ids) else old(categories)
      ensures outcome.Saved? ==> Created(old(categories), categories, inputs, ids)
      ensures CommaFreeIds(old(categories), inputs) ==>
                (outcome.Saved? <==> 1 <= |inputs| <= 50 && allowed && ValidCreation(old(categories), catalog, inputs))
    {
      AddedIsCreated(categories, inputs, ids);
      if CommaFreeIds(categories, inputs) {
        ValidIsCreatable(categories, catalog, inputs);
      }
      if !GoodLength(|inputs|) {
        return BadLength;
      }
      if !allowed {
        return Unauthorised;
      }
      var created, errors := ProcessCreations(categories, inputs, catalog);
      if errors != [] {
        assert errors[0] in errors;
        return Rejected(errors);
      }
      NoErrorsMeansCreatable(categories, catalog, inputs, errors);
      SaveCreated(inputs, created, ids);
      outcome := Saved;
    }

    method SaveCreated(inputs: seq<CreateInput>, created: seq<Category>, ids: seq<string>)
      requires |created| == |inputs| == |ids|
      requires forall j :: 0 <= j < |inputs| ==> created[j] == NewCategory(inputs[j])
      modifies this
      ensures categories == Added(old(categories), inputs, ids)
    {
      ghost var before := categories;
      for i := 0 to |created|
        invariant categories == Added(before, inputs[..i], ids[..i])
      {
        assert inputs[..i + 1][..i] == inputs[..i] && ids[..i + 1][..i] == ids[..i];
        categories := categories[ids[i] := created[i]];
      }
      assert inputs[..|inputs|] == inputs && ids[..|ids|] == ids;
    }

    /** Updates all of the categories or none; `found` is the preloaded category of every taken name. */
    method UpdateCategories(inputs: seq<UpdateInput>, catalog: Catalog, allowed: bool)
      returns (outcome: Outcome, ghost found: map<string, string>)
      modifies this
      ensures Preloaded(old(categories), inputs, found)
      ensures outcome.BadLength? <==> !GoodLength(|inputs|)
      ensures outcome.Unauthorised? <==> GoodLength(|inputs|) && !allowed
      ensures outcome.Rejected? ==> UpdateErrors(old(categories), catalog, inputs, found, |inputs|, outcome.errors)
      ensures outcome.Saved? <==> GoodLength(|inputs|) && allowed && Updatable(old(categories), catalog, inputs, found)
      ensures categories == if outcome.Saved? then Updated(old(categories), inputs) else old(categories)
      ensures outcome.Saved? ==> Changed(old(categories), categories, inputs)
      ensures outcome.Saved? <==>
                1 <= |inputs| <= 50 && allowed && ValidUpdate(old(categories), catalog, inputs, found)
    {
      var preloaded := PreloadNames(categories, inputs);
      found := preloaded;
      ValidIsUpdatable(categories, catalog, inputs, found);
      if !GoodLength(|inputs|) {
        return BadLength, found;
      }
      if !allowed {
        return Unauthorised, found;
      }
      var loaded, errors := ProcessUpdates(categories, inputs, catalog, preloaded);
      if errors != [] {
        assert errors[0] in errors;
        return Rejected(errors), found;
      }
      NoErrorsMeansUpdatable(categories, catalog, inputs, preloaded, errors);
      UpdatableFacts(categories, catalog, inputs, preloaded);
      UpdatedIsChanged(categories, inputs);
      categories := loaded;
      outcome := Saved;
    }

    method DeactivateCategories(ids: set<string>)
      modifies this
      ensures categories == Deactivated(old(categories), ids)
      ensures categories.Keys == old(categories).Keys
      ensures forall id :: id in categories ==>
                categories[id] == if id in ids && old(categories)[id].status == Active
                                  then old(categories)[id].(status := Inactive) else old(categories)[id]
    {
      categories := map id | id in categories ::
        if id in ids && categories[id].status == Active then categories[id].(status := Inactive) else categories[id];
    }
  }

  // Validates every input; categories are made until the first error.
  method ProcessCreations(s: Store, inputs: seq<CreateInput>, catalog: Catalog)
    returns (created: seq<Category>, errors: seq<ApiError>)
    ensures CreateErrors(s, catalog, inputs, |inputs|, errors)
    ensures errors == [] ==>
              |created| == |inputs| && forall j :: 0 <= j < |inputs| ==> created[j] == NewCategory(inputs[j])
  {
    created, errors := [], [];
    for i := 0 to |inputs|
      invariant CreateErrors(s, catalog, inputs, i, errors)
      invariant |created| <= i
      invariant errors == [] ==> |created| == i && forall j :: 0 <= j < i ==> created[j] == NewCategory(inputs[j])
    {
      var input := inputs[i];
      var found := ValidateCreation(s, catalog, inputs, i);
      errors := errors + found;
      if errors == [] {
        var subcategories := GetOr(input.subcategoryIds, []);
        created := created + [Category(input.name, Some(input.organizationId), Active, false, subcategories)];
      }
    }
  }

  method ValidateCreation(s: Store, catalog: Catalog, inputs: seq<CreateInput>, i: nat) returns (errors: seq<ApiError>)
    requires i < |inputs|
    ensures forall e :: e in errors <==> e.index == i && CreateViolates(s, catalog, inputs, i, e.kind)
  {
    var input := inputs[i];
    var active := ActiveOrganization(catalog, input.organizationId);
    errors := if active then [] else [ApiError(i, OrganizationNotActive)];
    if !AllActive(GetOr(input.subcategoryIds, []), catalog) {
      errors := errors + [ApiError(i, SubcategoriesNotActive)];
    }
    if exists j :: 0 <= j < i && KeyOf(inputs[j]) == KeyOf(input) {
      errors := errors + [ApiError(i, DuplicateInput)];
    }
    if active && NamePreloaded(s, inputs, KeyOf(input)) {
      errors := errors + [ApiError(i, NameTaken)];
    }
  }

  // Validates every input; the loaded categories take what is valid on its own.
  method ProcessUpdates(s: Store, inputs: seq<UpdateInput>, catalog: Catalog, preloaded: map<string, string>)
    returns (loaded: Store, errors: seq<ApiError>)
    ensures UpdateErrors(s, catalog, inputs, preloaded, |inputs|, errors)
    ensures errors == [] ==> loaded == Updated(s, inputs)
  {
    loaded, errors := s, [];
    for i := 0 to |inputs|
      invariant UpdateErrors(s, catalog, inputs, preloaded, i, errors)
      invariant loaded.Keys == s.Keys
      invariant errors == [] ==> loaded == Updated(s, inputs[..i])
    {
      var input := inputs[i];
      var violations := ValidateUpdate(s, catalog, inputs, preloaded, i);
      errors := errors + violations;
      assert inputs[..i + 1][..i] == inputs[..i];
      if input.id in loaded {
        // errors elsewhere notwithstanding
        var category := loaded[input.id];
        if Names(input) && ApiError(i, NameTaken) !in violations && ApiError(i, DuplicateName) !in violations {
          category := category.(name := input.name.value);
        }
        if input.subcategoryIds.Some? && ApiError(i, SubcategoriesNotActive) !in violations {
          category := category.(subcategories := input.subcategoryIds.value);
        }
        loaded := loaded[input.id := category];
      }
    }
    assert inputs[..|inputs|] == inputs;
  }

  method ValidateUpdate(s: Store, catalog: Catalog, inputs: seq<UpdateInput>, found: map<string, string>, i: nat)
    returns (errors: seq<ApiError>)
    requires i < |inputs|
    ensures forall e :: e in errors <==> e.index == i && UpdateViolates(s, catalog, inputs, found, i, e.kind)
  {
    var input := inputs[i];
    errors := [];
    if exists j :: 0 <= j < i && inputs[j].id == input.id {
      errors := errors + [ApiError(i, DuplicateId)];
    }
    if input.id !in s {
      return errors + [ApiError(i, NonExistent)];
    }
    if s[input.id].status != Active {
      errors := errors + [ApiError(i, NotActive)];
    }
    if Names(input) {
      if NameFoundElsewhere(s, found, input) {
        errors := errors + [ApiError(i, NameTaken)];
      }
      if NamedEarlier(s, inputs, i) {
        errors := errors + [ApiError(i, DuplicateName)];
      }
    }
    if input.subcategoryIds.Some? && !AllActive(input.subcategoryIds.value, catalog) {
      errors := errors + [ApiError(i, SubcategoriesNotActive)];
    }
    if !Names(input) && input.subcategoryIds.None? {
      errors := errors + [ApiError(i, NothingToUpdate)];
    }
  }

  lemma NoErrorsMeansCreatable(s: Store, catalog: Catalog, inputs: seq<CreateInput>, errors: seq<ApiError>)
    requires CreateErrors(s, catalog, inputs, |inputs|, errors)
    ensures errors == [] <==> Creatable(s, catalog, inputs)
  {
    if errors != [] {
      assert errors[0] in errors;
    } else {
      forall i, kind | 0 <= i < |inputs| ensures !CreateViolates(s, catalog, inputs, i, kind) {
        assert ApiError(i, kind) !in errors;
      }
    }
  }

  lemma NoErrorsMeansUpdatable(s: Store, catalog: Catalog, inputs: seq<UpdateInput>, found: map<string, string>,
                               errors: seq<ApiError>)
    requires UpdateErrors(s, catalog, inputs, found, |inputs|, errors)
    ensures errors == [] <==> Updatable(s, catalog, inputs, found)
  {
    if errors != [] {
      assert errors[0] in errors;
    } else {
      forall i, kind | 0 <= i < |inputs| ensures !UpdateViolates(s, catalog, inputs, found, i, kind) {
        assert ApiError(i, kind) !in errors;
      }
    }
  }

  // The last category per key wins, in the order the database returns them.
  method PreloadNames(s: Store, inputs: seq<UpdateInput>) returns (found: map<string, string>)
    ensures Preloaded(s, inputs, found)
  {
    var named := set id | id in s && (exists i :: i in inputs && i.name == Some(s[id].name));
    var rows := InSomeOrder(named);
    found := map[];
    for k := 0 to |rows|
      invariant forall key :: key in found ==>
                found[key] in s && OrganizationKey(s[found[key]], s[found[key]].name) == key
      invariant forall id :: id in rows[..k] && id in s ==> OrganizationKey(s[id], s[id].name) in found
    {
      assert rows[k] in rows;
      assert rows[..k + 1] == rows[..k] + [rows[k]];
      var c := s[rows[k]];
      found := found[OrganizationKey(c, c.name) := rows[k]];
    }
    assert rows[..|rows|] == rows;
  }
}
