/**
 Adding subcategories to categories and removing them again: both validate a whole batch against
 the lists as they were before it, and save all of the new lists or none.
 */
module CategorySubcategories {
  import opened Collections
  import opened Statuses
  import opened Categories

  datatype ListInput = ListInput(categoryId: string, subcategoryIds: seq<string>)

  datatype Fault =
    | CategoryMissing | CategoryInactive | CategoryUnauthorised | CategoryRepeated | SubcategoriesRepeated
    | SubcategoryMissing(id: string) | SubcategoryInactive(id: string) | SubcategoryUnauthorised(id: string)
    | OtherOrganization(id: string) | AlreadyPresent(id: string) | NotPresent(id: string)

  datatype ListError = ListError(index: nat, fault: Fault)

  datatype ListOutcome = WrongLength | NotAllowed | Refused(errors: seq<ListError>) | Stored

  // What the caller may edit.
  datatype Editor = Editor(admin: bool, permitted: set<string>)

  predicate MayEdit(e: Editor, system: bool, organization: Option<string>) {
    e.admin || (!system && GetOr(organization, "") in e.permitted)
  }

  // The joined (category, subcategory) keys of the lists of the requested categories.
  predicate PairPreloaded(s: Store, inputs: seq<ListInput>, key: string) {
    exists i, sub :: i in inputs && i.categoryId in s && sub in s[i.categoryId].subcategories &&
        NameKey(i.categoryId, sub) == key
  }

  /** Under comma-free category ids a pair is preloaded exactly when the category lists it. */
  lemma PairsAreLists(s: Store, inputs: seq<ListInput>, i: ListInput, sub: string)
    requires i in inputs && i.categoryId in s && forall x :: x in inputs ==> CommaFree(x.categoryId)
    ensures PairPreloaded(s, inputs, NameKey(i.categoryId, sub)) <==> sub in s[i.categoryId].subcategories
  {
    if PairPreloaded(s, inputs, NameKey(i.categoryId, sub)) {
      var j, t :| j in inputs && j.categoryId in s && t in s[j.categoryId].subcategories &&
          NameKey(j.categoryId, t) == NameKey(i.categoryId, sub);
      KeyIsInjective(j.categoryId, t, i.categoryId, sub);
    }
  }

  // ----- addition

  ghost predicate AddViolates(s: Store, catalog: Catalog, editor: Editor, inputs: seq<ListInput>, i: nat, fault: Fault)
    requires i < |inputs|
  {
    var c, subs := inputs[i].categoryId, inputs[i].subcategoryIds;
    match fault
    case CategoryMissing => c !in s
    case CategoryInactive => c in s && s[c].status != Active
    case CategoryUnauthorised =>
      c in s && !editor.admin && (s[c].system || GetOr(s[c].organization, "") !in editor.permitted)
    case SubcategoryMissing(id) => c in s && id in subs && id !in catalog.subcategories
    case SubcategoryInactive(id) => c in s && id in subs && id in catalog.subcategories &&
        catalog.subcategories[id].status != Active
    case SubcategoryUnauthorised(id) =>
      c in s && id in subs && id in catalog.subcategories && !editor.admin &&
      (catalog.subcategories[id].system || GetOr(catalog.subcategories[id].organization, "") !in editor.permitted)
    case OtherOrganization(id) =>
      c in s && id in subs && id in catalog.subcategories && !s[c].system && !catalog.subcategories[id].system &&
      catalog.subcategories[id].organization != s[c].organization
    case AlreadyPresent(id) => c in s && id in subs && id in catalog.subcategories &&
        PairPreloaded(s, inputs, NameKey(c, id))
    case _ => false
  }

  ghost predicate Addable(s: Store, catalog: Catalog, editor: Editor, inputs: seq<ListInput>) {
    forall i, fault :: 0 <= i < |inputs| ==> !AddViolates(s, catalog, editor, inputs, i, fault)
  }

  ghost predicate CommaFreeCategories(inputs: seq<ListInput>) {
    forall i :: i in inputs ==> CommaFree(i.categoryId)
  }

  // An entity is the editor's to change: any for an admin, else one that is not a system entity, of an
  // organization the editor may edit.
  ghost predicate Editable(e: Editor, system: bool, organization: Option<string>) {
    e.admin || (!system && (if organization.Some? then organization.value else "") in e.permitted)
  }

  // The category is stored, active and the editor's to change, and so are the subcategories; they are of
  // one organization unless one of them is a system entity, and not on the list yet.
  ghost predicate ValidEntry(s: Store, catalog: Catalog, editor: Editor, i: ListInput) {
    && i.categoryId in s && s[i.categoryId].status == Active
    && Editable(editor, s[i.categoryId].system, s[i.categoryId].organization)
    && forall id :: id in i.subcategoryIds ==>
         && id in catalog.subcategories && catalog.subcategories[id].status == Active
         && Editable(editor, catalog.subcategories[id].system, catalog.subcategories[id].organization)
         && (s[i.categoryId].system || catalog.subcategories[id].system
             || catalog.subcategories[id].organization == s[i.categoryId].organization)
         && id !in s[i.categoryId].subcategories
  }

  ghost predicate ValidAddition(s: Store, catalog: Catalog, editor: Editor, inputs: seq<ListInput>) {
    forall i :: i in inputs ==> ValidEntry(s, catalog, editor, i)
  }

  /** With comma-free category ids exactly the valid additions pass validation. */
  lemma ValidIsAddable(s: Store, catalog: Catalog, editor: Editor, inputs: seq<ListInput>)
    requires CommaFreeCategories(inputs)
    ensures Addable(s, catalog, editor, inputs) <==> ValidAddition(s, catalog, editor, inputs)
  {
    if Addable(s, catalog, editor, inputs) {
      forall i | i in inputs ensures ValidEntry(s, catalog, editor, i) {
        AddableIsValid(s, catalog, editor, inputs, i);
      }
    }
    if ValidAddition(s, catalog, editor, inputs) {
      forall k, fault | 0 <= k < |inputs| ensures !AddViolates(s, catalog, editor, inputs, k, fault) {
        assert inputs[k] in inputs;
        if fault.AlreadyPresent? && inputs[k].categoryId in s {
          PairsAreLists(s, inputs, inputs[k], fault.id);
        }
      }
    }
  }

  lemma AddableIsValid(s: Store, catalog: Catalog, editor: Editor, inputs: seq<ListInput>, i: ListInput)
    requires CommaFreeCategories(inputs) && Addable(s, catalog, editor, inputs) && i in inputs
    ensures ValidEntry(s, catalog, editor, i)
  {
    var k :| 0 <= k < |inputs| && inputs[k] == i;
    assert !AddViolates(s, catalog, editor, inputs, k, CategoryMissing);
    assert !AddViolates(s, catalog, editor, inputs, k, CategoryInactive);
    assert !AddViolates(s, catalog, editor, inputs, k, CategoryUnauthorised);
    forall id | id in i.subcategoryIds
      ensures && id in catalog.subcategories && catalog.subcategories[id].status == Active
              && Editable(editor, catalog.subcategories[id].system, catalog.subcategories[id].organization)
              && (s[i.categoryId].system || catalog.subcategories[id].system
                  || catalog.subcategories[id].organization == s[i.categoryId].organization)
              && id !in s[i.categoryId].subcategories
    {
      assert !AddViolates(s, catalog, editor, inputs, k, SubcategoryMissing(id));
      assert !AddViolates(s, catalog, editor, inputs, k, SubcategoryInactive(id));
      assert !AddViolates(s, catalog, editor, inputs, k, SubcategoryUnauthorised(id));
      assert !AddViolates(s, catalog, editor, inputs, k, OtherOrganization(id));
      assert !AddViolates(s, catalog, editor, inputs, k, AlreadyPresent(id));
      PairsAreLists(s, inputs, i, id);
    }
  }

  // Each list is the one from before the batch followed by the new ids.
  function WithAdded(s: Store, inputs: seq<ListInput>): Store {
    if inputs == [] then s
    else
      var rest, i := WithAdded(s, inputs[..|inputs| - 1]), inputs[|inputs| - 1];
      if i.categoryId in s && i.categoryId in rest then
        rest[i.categoryId := rest[i.categoryId].(subcategories := s[i.categoryId].subcategories + i.subcategoryIds)]
      else rest
  }

  // ----- removal

  ghost predicate RemoveViolates(s: Store, catalog: Catalog, inputs: seq<ListInput>, i: nat, fault: Fault)
    requires i < |inputs|
  {
    var c, subs := inputs[i].categoryId, inputs[i].subcategoryIds;
    match fault
    case CategoryMissing => c !in s
    case CategoryRepeated => c in s && exists j :: 0 <= j < i && inputs[j].categoryId == c
    case CategoryInactive => c in s && s[c].status != Active
    case SubcategoriesRepeated => c in s && !NoDuplicates(subs)
    case SubcategoryMissing(id) => c in s && NoDuplicates(subs) && id in subs && id !in catalog.subcategories
    case SubcategoryInactive(id) =>
      c in s && NoDuplicates(subs) && id in subs && id in catalog.subcategories &&
          catalog.subcategories[id].status != Active
    case NotPresent(id) =>
      c in s && NoDuplicates(subs) && id in subs && id in catalog.subcategories &&
          !PairPreloaded(s, inputs, NameKey(c, id))
    case _ => false
  }

  ghost predicate Removable(s: Store, catalog: Catalog, inputs: seq<ListInput>) {
    forall i, fault :: 0 <= i < |inputs| ==> !RemoveViolates(s, catalog, inputs, i, fault)
  }

  // The category is stored and active, and the entry lists stored active subcategories of it, each once.
  ghost predicate ValidRemovalEntry(s: Store, catalog: Catalog, i: ListInput) {
    && i.categoryId in s && s[i.categoryId].status == Active
    && (forall a, b :: 0 <= a < b < |i.subcategoryIds| ==> i.subcategoryIds[a] != i.subcategoryIds[b])
    && forall id :: id in i.subcategoryIds ==>
         && id in catalog.subcategories && catalog.subcategories[id].status == Active
         && id in s[i.categoryId].subcategories
  }

  ghost predicate ValidRemoval(s: Store, catalog: Catalog, inputs: seq<ListInput>) {
    DistinctCategories(inputs) && forall i :: i in inputs ==> ValidRemovalEntry(s, catalog, i)
  }

  /** With comma-free category ids exactly the valid removals pass validation. */
  lemma ValidIsRemovable(s: Store, catalog: Catalog, inputs: seq<ListInput>)
    requires CommaFreeCategories(inputs)
    ensures Removable(s, catalog, inputs) <==> ValidRemoval(s, catalog, inputs)
  {
    if Removable(s, catalog, inputs) {
      RemovableIsDistinct(s, catalog, inputs);
      forall i | i in inputs ensures ValidRemovalEntry(s, catalog, i) {
        RemovableIsValid(s, catalog, inputs, i);
      }
    }
    if ValidRemoval(s, catalog, inputs) {
      forall k, fault | 0 <= k < |inputs| ensures !RemoveViolates(s, catalog, inputs, k, fault) {
        assert inputs[k] in inputs;
        if fault.NotPresent? && inputs[k].categoryId in s {
          PairsAreLists(s, inputs, inputs[k], fault.id);
        }
      }
    }
  }

  lemma RemovableIsValid(s: Store, catalog: Catalog, inputs: seq<ListInput>, i: ListInput)
    requires CommaFreeCategories(inputs) && Removable(s, catalog, inputs) && i in inputs
    ensures ValidRemovalEntry(s, catalog, i)
  {
    var k :| 0 <= k < |inputs| && inputs[k] == i;
    assert !RemoveViolates(s, catalog, inputs, k, CategoryMissing);
    assert !RemoveViolates(s, catalog, inputs, k, CategoryInactive);
    assert !RemoveViolates(s, catalog, inputs, k, SubcategoriesRepeated);
    forall id | id in i.subcategoryIds
      ensures id in catalog.subcategories && catalog.subcategories[id].status == Active
      ensures id in s[i.categoryId].subcategories
    {
      assert !RemoveViolates(s, catalog, inputs, k, SubcategoryMissing(id));
      assert !RemoveViolates(s, catalog, inputs, k, SubcategoryInactive(id));
      assert !RemoveViolates(s, catalog, inputs, k, NotPresent(id));
      PairsAreLists(s, inputs, i, id);
    }
  }

  function Without(ids: seq<string>, gone: seq<string>): seq<string> {
    Filter(ids, id => id !in gone)
  }

  function WithRemoved(s: Store, inputs: seq<ListInput>): Store {
    if inputs == [] then s
    else
      var rest, i := WithRemoved(s, inputs[..|inputs| - 1]), inputs[|inputs| - 1];
      if i.categoryId in rest then
        rest[i.categoryId := rest[i.categoryId].(subcategories :=
            Without(rest[i.categoryId].subcategories, i.subcategoryIds))]
      else rest
  }

  // ----- what the batches do to each list

  ghost predicate DistinctCategories(inputs: seq<ListInput>) {
    forall i, j :: 0 <= i < j < |inputs| ==> inputs[i].categoryId != inputs[j].categoryId
  }

  lemma {:induction false} AddedElsewhere(s: Store, inputs: seq<ListInput>, c: string)
    requires c in s && forall i :: i in inputs ==> i.categoryId != c
    ensures c in WithAdded(s, inputs) && WithAdded(s, inputs)[c] == s[c]
  {
    if inputs != [] {
      AddedElsewhere(s, inputs[..|inputs| - 1], c);
    }
  }

  lemma {:induction false} AddedList(s: Store, inputs: seq<ListInput>, i: ListInput)
    requires DistinctCategories(inputs) && i in inputs && i.categoryId in s
    ensures i.categoryId in WithAdded(s, inputs)
    ensures WithAdded(s, inputs)[i.categoryId]
              == s[i.categoryId].(subcategories := s[i.categoryId].subcategories + i.subcategoryIds)
  {
    var init, last := inputs[..|inputs| - 1], inputs[|inputs| - 1];
    if i == last {
      AddedElsewhere(s, init, i.categoryId);
    } else {
      AddedList(s, init, i);
    }
  }

  lemma {:induction false} RemovedElsewhere(s: Store, inputs: seq<ListInput>, c: string)
    requires c in s && forall i :: i in inputs ==> i.categoryId != c
    ensures c in WithRemoved(s, inputs) && WithRemoved(s, inputs)[c] == s[c]
  {
    if inputs != [] {
      RemovedElsewhere(s, inputs[..|inputs| - 1], c);
    }
  }

  lemma {:induction false} RemovedList(s: Store, inputs: seq<ListInput>, i: ListInput)
    requires DistinctCategories(inputs) && i in inputs && i.categoryId in s
    ensures i.categoryId in WithRemoved(s, inputs)
    ensures WithRemoved(s, inputs)[i.categoryId]
              == s[i.categoryId].(subcategories := Without(s[i.categoryId].subcategories, i.subcategoryIds))
  {
    var init, last := inputs[..|inputs| - 1], inputs[|inputs| - 1];
    if i == last {
      RemovedElsewhere(s, init, i.categoryId);
    } else {
      RemovedList(s, init, i);
    }
  }

  // Nothing of a category but its list differs.
  ghost predicate SameButList(before: Category, after: Category) {
    && after.name == before.name && after.organization == before.organization
    && after.status == before.status && after.system == before.system
  }

  ghost predicate LastEntryOf(inputs: seq<ListInput>, i: nat, c: string) {
    i < |inputs| && inputs[i].categoryId == c && forall j :: i < j < |inputs| ==> inputs[j].categoryId != c
  }

  // Each list is the one from before the batch followed by the ids of the last entry of its category;
  // everything else is as it was.
  ghost predicate ListsAdded(before: Store, after: Store, inputs: seq<ListInput>) {
    && after.Keys == before.Keys
    && (forall c :: c in after ==> SameButList(before[c], after[c]))
    && (forall c :: c in after && (forall i :: i in inputs ==> i.categoryId != c) ==> after[c] == before[c])
    && (forall c, i: nat :: c in after && LastEntryOf(inputs, i, c) ==>
          after[c].subcategories == before[c].subcategories + inputs[i].subcategoryIds)
  }

  lemma {:induction false} AddedListsOf(s: Store, inputs: seq<ListInput>, c: string)
    requires c in s
    ensures c in WithAdded(s, inputs) && SameButList(s[c], WithAdded(s, inputs)[c])
    ensures forall i: nat :: LastEntryOf(inputs, i, c) ==>
              WithAdded(s, inputs)[c].subcategories == s[c].subcategories + inputs[i].subcategoryIds
  {
    if inputs != [] {
      var init := inputs[..|inputs| - 1];
      AddedListsOf(s, init, c);
      forall i: nat | LastEntryOf(inputs, i, c) && i < |init| ensures LastEntryOf(init, i, c) {
        assert forall j :: i < j < |init| ==> init[j] == inputs[j];
      }
    }
  }

  lemma WithAddedMeaning(s: Store, inputs: seq<ListInput>)
    ensures ListsAdded(s, WithAdded(s, inputs), inputs)
  {
    AddedKeys(s, inputs);
    forall c | c in s
      ensures SameButList(s[c], WithAdded(s, inputs)[c])
      ensures (forall i :: i in inputs ==> i.categoryId != c) ==> WithAdded(s, inputs)[c] == s[c]
      ensures forall i: nat :: LastEntryOf(inputs, i, c) ==>
                WithAdded(s, inputs)[c].subcategories == s[c].subcategories + inputs[i].subcategoryIds
    {
      AddedListsOf(s, inputs, c);
      if forall i :: i in inputs ==> i.categoryId != c {
        AddedElsewhere(s, inputs, c);
      }
    }
  }

  // The ids of `whole` that are not gone, in their order.
  ghost predicate IsLeft(left: seq<string>, whole: seq<string>, gone: seq<string>) {
    && (forall id :: id in left <==> id in whole && id !in gone)
    && (NoDuplicates(whole) ==> NoDuplicates(left))
    && (forall a, b :: 0 <= a < b < |left| ==> exists p, q :: 0 <= p < q < |whole| && whole[p] == left[a]
                                                               && whole[q] == left[b])
  }

  lemma {:induction false} WithoutIsLeft(whole: seq<string>, gone: seq<string>)
    ensures IsLeft(Without(whole, gone), whole, gone)
  {
    if NoDuplicates(whole) {
      FilterNoDuplicates(whole, id => id !in gone);
    }
    if whole != [] {
      var init, left := whole[..|whole| - 1], Without(whole, gone);
      WithoutIsLeft(init, gone);
      forall a, b | 0 <= a < b < |left|
        ensures exists p, q :: 0 <= p < q < |whole| && whole[p] == left[a] && whole[q] == left[b]
      {
        var before := Without(init, gone);
        assert left == before || left == before + [whole[|whole| - 1]];
        if b < |before| {
          var p, q :| 0 <= p < q < |init| && init[p] == before[a] && init[q] == before[b];
          assert whole[p] == left[a] && whole[q] == left[b];
        } else {
          assert before[a] in init;
          var p :| 0 <= p < |init| && init[p] == before[a];
          assert whole[p] == left[a] && whole[|init|] == left[b];
        }
      }
    }
  }

  // Each listed category keeps what its entry does not name; everything else is as it was.
  ghost predicate ListsRemoved(before: Store, after: Store, inputs: seq<ListInput>) {
    && after.Keys == before.Keys
    && (forall c :: c in after ==> SameButList(before[c], after[c]))
    && (forall c :: c in after && (forall i :: i in inputs ==> i.categoryId != c) ==> after[c] == before[c])
    && (forall i :: i in inputs && i.categoryId in after ==>
          IsLeft(after[i.categoryId].subcategories, before[i.categoryId].subcategories, i.subcategoryIds))
  }

  lemma WithRemovedMeaning(s: Store, inputs: seq<ListInput>)
    requires DistinctCategories(inputs)
    ensures ListsRemoved(s, WithRemoved(s, inputs), inputs)
  {
    RemovedKeys(s, inputs);
    forall i | i in inputs && i.categoryId in s
      ensures SameButList(s[i.categoryId], WithRemoved(s, inputs)[i.categoryId])
      ensures IsLeft(WithRemoved(s, inputs)[i.categoryId].subcategories, s[i.categoryId].subcategories,
                     i.subcategoryIds)
    {
      RemovedList(s, inputs, i);
      WithoutIsLeft(s[i.categoryId].subcategories, i.subcategoryIds);
    }
    forall c | c in s && forall i :: i in inputs ==> i.categoryId != c ensures WithRemoved(s, inputs)[c] == s[c] {
      RemovedElsewhere(s, inputs, c);
    }
  }

  // A removal that passes validation names each category once.
  lemma RemovableIsDistinct(s: Store, catalog: Catalog, inputs: seq<ListInput>)
    requires Removable(s, catalog, inputs)
    ensures DistinctCategories(inputs)
  {
    forall i, j | 0 <= i < j < |inputs| ensures inputs[i].categoryId != inputs[j].categoryId {
      assert !RemoveViolates(s, catalog, inputs, j, CategoryMissing);
      assert !RemoveViolates(s, catalog, inputs, j, CategoryRepeated);
    }
  }

  lemma {:induction false} FilterConcat(a: seq<string>, b: seq<string>, f: string -> bool)
    ensures Filter(a + b, f) == Filter(a, f) + Filter(b, f)
  {
    if b == [] {
      assert a + b == a;
    } else {
      assert (a + b)[..|a + b| - 1] == a + b[..|b| - 1];
      FilterConcat(a, b[..|b| - 1], f);
    }
  }

  lemma WithoutUndoesAppend(ids: seq<string>, added: seq<string>)
    requires forall id :: id in added ==> id !in ids
    ensures Without(ids + added, added) == ids
  {
    var kept := id => id !in added;
    FilterConcat(ids, added, kept);
    FilterAll(ids, kept);
    FilterEmpty(added, kept);
    FilterSame(ids + added, id => id !in added, kept);
  }

  ghost predicate DuplicateFreeLists(s: Store) {
    forall c :: c in s ==> NoDuplicates(s[c].subcategories)
  }

  // The batch names every category once, every subcategory once per entry, and ids without commas.
  ghost predicate CleanBatch(inputs: seq<ListInput>) {
    && DistinctCategories(inputs)
    && (forall i :: i in inputs ==> NoDuplicates(i.subcategoryIds) && CommaFree(i.categoryId))
  }

  lemma AddableEntry(s: Store, catalog: Catalog, editor: Editor, inputs: seq<ListInput>, i: ListInput)
    requires CleanBatch(inputs) && Addable(s, catalog, editor, inputs) && i in inputs
    ensures i.categoryId in s && s[i.categoryId].status == Active
    ensures forall id :: id in i.subcategoryIds ==>
              && id in catalog.subcategories && catalog.subcategories[id].status == Active
              && id !in s[i.categoryId].subcategories
  {
    var k :| 0 <= k < |inputs| && inputs[k] == i;
    assert !AddViolates(s, catalog, editor, inputs, k, CategoryMissing);
    assert !AddViolates(s, catalog, editor, inputs, k, CategoryInactive);
    forall id | id in i.subcategoryIds
      ensures && id in catalog.subcategories && catalog.subcategories[id].status == Active
              && id !in s[i.categoryId].subcategories
    {
      assert !AddViolates(s, catalog, editor, inputs, k, SubcategoryMissing(id));
      assert !AddViolates(s, catalog, editor, inputs, k, SubcategoryInactive(id));
      assert !AddViolates(s, catalog, editor, inputs, k, AlreadyPresent(id));
      PairsAreLists(s, inputs, i, id);
    }
  }

  /** A clean addition that passes validation leaves duplicate-free lists, the old ids followed by
      the new ones, and is one a removal of the same batch accepts. */
  lemma AdditionIsRemovable(s: Store, catalog: Catalog, editor: Editor, inputs: seq<ListInput>)
    requires DuplicateFreeLists(s) && CleanBatch(inputs) && Addable(s, catalog, editor, inputs)
    ensures DuplicateFreeLists(WithAdded(s, inputs))
    ensures forall i :: i in inputs ==>
              && i.categoryId in s && i.categoryId in WithAdded(s, inputs)
              && WithAdded(s, inputs)[i.categoryId].subcategories == s[i.categoryId].subcategories + i.subcategoryIds
    ensures Removable(WithAdded(s, inputs), catalog, inputs)
  {
    var after := WithAdded(s, inputs);
    forall i | i in inputs
      ensures && i.categoryId in s && i.categoryId in after
              && after[i.categoryId] == s[i.categoryId].(subcategories :=
                  s[i.categoryId].subcategories + i.subcategoryIds)
    {
      AddableEntry(s, catalog, editor, inputs, i);
      AddedList(s, inputs, i);
    }
    forall c | c in after ensures NoDuplicates(after[c].subcategories) {
      AddedKeys(s, inputs);
      if i :| i in inputs && i.categoryId == c {
        AddableEntry(s, catalog, editor, inputs, i);
        AddedList(s, inputs, i);
        NoDuplicatesAppend(s[c].subcategories, i.subcategoryIds);
      } else {
        AddedElsewhere(s, inputs, c);
      }
    }
    forall k, fault | 0 <= k < |inputs| ensures !RemoveViolates(after, catalog, inputs, k, fault) {
      AddableEntry(s, catalog, editor, inputs, inputs[k]);
      if fault.NotPresent? {
        PairsAreLists(after, inputs, inputs[k], fault.id);
      }
    }
  }

  lemma {:induction false} AddedKeys(s: Store, inputs: seq<ListInput>)
    ensures WithAdded(s, inputs).Keys == s.Keys
  {
    if inputs != [] {
      AddedKeys(s, inputs[..|inputs| - 1]);
    }
  }

  /** Adding and then removing the same subcategories restores every category. */
  lemma RemovalUndoesAddition(s: Store, catalog: Catalog, editor: Editor, inputs: seq<ListInput>)
    requires DuplicateFreeLists(s) && CleanBatch(inputs) && Addable(s, catalog, editor, inputs)
    ensures Removable(WithAdded(s, inputs), catalog, inputs)
    ensures WithRemoved(WithAdded(s, inputs), inputs) == s
  {
    var after := WithAdded(s, inputs);
    AdditionIsRemovable(s, catalog, editor, inputs);
    AddedKeys(s, inputs);
    RemovedKeys(after, inputs);
    forall c | c in s ensures WithRemoved(after, inputs)[c] == s[c] {
      if i :| i in inputs && i.categoryId == c {
        AddableEntry(s, catalog, editor, inputs, i);
        AddedList(s, inputs, i);
        RemovedList(after, inputs, i);
        WithoutUndoesAppend(s[c].subcategories, i.subcategoryIds);
      } else {
        AddedElsewhere(s, inputs, c);
        RemovedElsewhere(after, inputs, c);
      }
    }
  }

  lemma {:induction false} RemovedKeys(s: Store, inputs: seq<ListInput>)
    ensures WithRemoved(s, inputs).Keys == s.Keys
  {
    if inputs != [] {
      RemovedKeys(s, inputs[..|inputs| - 1]);
    }
  }

  // ----- the operations

  lemma WithoutStep(ids: seq<string>, gone: seq<string>, id: string)
    ensures Without(Without(ids, gone), [id]) == Without(ids, gone + [id])
  {
    FilterTwice(ids, x => x !in gone, x => x !in [id], x => x !in gone + [id]);
  }

  // Cutting the first occurrence of an id out of a duplicate-free list removes the id.
  lemma CutIsWithout(ids: seq<string>, id: string, k: nat)
    requires NoDuplicates(ids) && k <= |ids| && id !in ids[..k]
    requires k < |ids| ==> ids[k] == id
    ensures (if k < |ids| then ids[..k] + ids[k + 1..] else ids) == Without(ids, [id])
  {
    if k < |ids| {
      var before, after := ids[..k], ids[k + 1..];
      assert ids == before + [id] + after;
      assert id !in after;
      WithoutAbsent(before, id);
      WithoutAbsent(after, id);
      WithoutConcat(before + [id], after, [id]);
      WithoutConcat(before, [id], [id]);
      assert Without([id], [id]) == [];
    } else {
      WithoutAbsent(ids, id);
    }
  }

  lemma WithoutConcat(a: seq<string>, b: seq<string>, gone: seq<string>)
    ensures Without(a + b, gone) == Without(a, gone) + Without(b, gone)
  {
    FilterConcat(a, b, x => x !in gone);
  }

  lemma WithoutAbsent(ids: seq<string>, id: string)
    requires id !in ids
    ensures Without(ids, [id]) == ids
  {
    FilterAll(ids, x => x !in [id]);
  }

  lemma SpliceStep(ids: seq<string>, gone: seq<string>, id: string, left: seq<string>, k: nat)
    requires NoDuplicates(ids) && left == Without(ids, gone)
    requires k <= |left| && id !in left[..k] && (k < |left| ==> left[k] == id)
    ensures (if k < |left| then left[..k] + left[k + 1..] else left) == Without(ids, gone + [id])
  {
    FilterNoDuplicates(ids, x => x !in gone);
    CutIsWithout(left, id, k);
    WithoutStep(ids, gone, id);
  }

  // Removes each id where it is first found, as findIndex and splice do.
  method SpliceOut(existing: seq<string>, gone: seq<string>) returns (left: seq<string>)
    requires NoDuplicates(existing)
    ensures left == Without(existing, gone)
  {
    left := existing;
    NothingWithout(existing);
    for i := 0 to |gone|
      invariant left == Without(existing, gone[..i])
    {
      var k := FindIndex(left, gone[i]);
      SpliceStep(existing, gone[..i], gone[i], left, k);
      assert gone[..i + 1] == gone[..i] + [gone[i]];
      if k < |left| {
        left := left[..k] + left[k + 1..];
      }
    }
    assert gone[..|gone|] == gone;
  }

  lemma NothingWithout(ids: seq<string>)
    ensures Without(ids, []) == ids
  {
    FilterAll(ids, x => x !in []);
  }

  method FindIndex(ids: seq<string>, id: string) returns (k: nat)
    ensures k <= |ids| && id !in ids[..k]
    ensures k < |ids| ==> ids[k] == id
  {
    k := 0;
    while k < |ids| && ids[k] != id
      invariant k <= |ids| && id !in ids[..k]
    {
      k := k + 1;
    }
  }

  // The faults that concern one subcategory of an entry.
  ghost predicate OnSubcategory(f: Fault, id: string) {
    f == SubcategoryMissing(id) || f == SubcategoryInactive(id) || f == SubcategoryUnauthorised(id)
    || f == OtherOrganization(id) || f == AlreadyPresent(id) || f == NotPresent(id)
  }

  method ValidateAddition(s: Store, catalog: Catalog, editor: Editor, inputs: seq<ListInput>, i: nat)
    returns (faults: seq<Fault>)
    requires i < |inputs|
    ensures forall f :: f in faults <==> AddViolates(s, catalog, editor, inputs, i, f)
  {
    var c, subs := inputs[i].categoryId, inputs[i].subcategoryIds;
    faults := [];
    if c !in s {
      return [CategoryMissing];
    }
    if s[c].status != Active {
      faults := faults + [CategoryInactive];
    }
    if !MayEdit(editor, s[c].system, s[c].organization) {
      faults := faults + [CategoryUnauthorised];
    }
    for k := 0 to |subs|
      invariant CategoryInactive in faults <==> s[c].status != Active
      invariant CategoryUnauthorised in faults <==> !MayEdit(editor, s[c].system, s[c].organization)
      invariant forall f :: f in faults && f != CategoryInactive && f != CategoryUnauthorised ==>
                  AddViolates(s, catalog, editor, inputs, i, f)
      invariant forall id, f :: id in subs[..k] && OnSubcategory(f, id) ==>
                  (AddViolates(s, catalog, editor, inputs, i, f) ==> f in faults)
    {
      var found := SubcategoryFaults(s, catalog, editor, inputs, i, subs[k]);
      assert subs[..k + 1] == subs[..k] + [subs[k]] && subs[k] in subs;
      faults := faults + found;
    }
    assert subs[..|subs|] == subs;
    forall f | AddViolates(s, catalog, editor, inputs, i, f) ensures f in faults {
      if f != CategoryInactive && f != CategoryUnauthorised {
        assert OnSubcategory(f, f.id) && f.id in subs;
      }
    }
  }

  method SubcategoryFaults(s: Store, catalog: Catalog, editor: Editor, inputs: seq<ListInput>, i: nat, id: string)
    returns (faults: seq<Fault>)
    requires i < |inputs| && inputs[i].categoryId in s && id in inputs[i].subcategoryIds
    ensures forall f :: f in faults <==> OnSubcategory(f, id) && AddViolates(s, catalog, editor, inputs, i, f)
  {
    faults := [];
    if id !in catalog.subcategories {
      return [SubcategoryMissing(id)];
    }
    var category, sub := s[inputs[i].categoryId], catalog.subcategories[id];
    if sub.status != Active {
      faults := faults + [SubcategoryInactive(id)];
    }
    if !MayEdit(editor, sub.system, sub.organization) {
      faults := faults + [SubcategoryUnauthorised(id)];
    }
    if !category.system && !sub.system && sub.organization != category.organization {
      faults := faults + [OtherOrganization(id)];
    }
    if PairPreloaded(s, inputs, NameKey(inputs[i].categoryId, id)) {
      faults := faults + [AlreadyPresent(id)];
    }
  }

  method ValidateRemoval(s: Store, catalog: Catalog, inputs: seq<ListInput>, i: nat) returns (faults: seq<Fault>)
    requires i < |inputs|
    ensures forall f :: f in faults <==> RemoveViolates(s, catalog, inputs, i, f)
  {
    var c, subs := inputs[i].categoryId, inputs[i].subcategoryIds;
    if c !in s {
      return [CategoryMissing];
    }
    faults := [];
    if exists j :: 0 <= j < i && inputs[j].categoryId == c {
      faults := faults + [CategoryRepeated];
    }
    if s[c].status != Active {
      faults := faults + [CategoryInactive];
    }
    if !NoDuplicates(subs) {
      return faults + [SubcategoriesRepeated];
    }
    for k := 0 to |subs|
      invariant forall f :: f in faults ==> RemoveViolates(s, catalog, inputs, i, f)
      invariant forall f :: f == CategoryRepeated || f == CategoryInactive ==>
                  (RemoveViolates(s, catalog, inputs, i, f) ==> f in faults)
      invariant forall id, f :: id in subs[..k] && OnSubcategory(f, id) ==>
                  (RemoveViolates(s, catalog, inputs, i, f) ==> f in faults)
    {
      var id := subs[k];
      assert subs[..k + 1] == subs[..k] + [id] && id in subs;
      if id !in catalog.subcategories {
        faults := faults + [SubcategoryMissing(id)];
      } else {
        if catalog.subcategories[id].status != Active {
          faults := faults + [SubcategoryInactive(id)];
        }
        if !PairPreloaded(s, inputs, NameKey(c, id)) {
          faults := faults + [NotPresent(id)];
        }
      }
    }
    assert subs[..|subs|] == subs;
    forall f | RemoveViolates(s, catalog, inputs, i, f) ensures f in faults {
      if f != CategoryRepeated && f != CategoryInactive {
        assert OnSubcategory(f, f.id) && f.id in subs;
      }
    }
  }

  // Validates every entry and gives its category the longer list.
  method ProcessAdditions(s: Store, inputs: seq<ListInput>, catalog: Catalog, editor: Editor)
    returns (loaded: Store, errors: seq<ListError>)
    ensures loaded == WithAdded(s, inputs)
    ensures forall e :: e in errors <==>
              e.index < |inputs| && AddViolates(s, catalog, editor, inputs, e.index, e.fault)
  {
    loaded, errors := s, [];
    for i := 0 to |inputs|
      invariant loaded == WithAdded(s, inputs[..i])
      invariant forall e :: e in errors <==> e.index < i && AddViolates(s, catalog, editor, inputs, e.index, e.fault)
    {
      var faults := ValidateAddition(s, catalog, editor, inputs, i);
      errors := errors + Errors(i, faults);
      assert inputs[..i + 1][..i] == inputs[..i];
      var c := inputs[i].categoryId;
      if c in s && c in loaded {
        loaded := loaded[c := loaded[c].(subcategories := s[c].subcategories + inputs[i].subcategoryIds)];
      }
    }
    assert inputs[..|inputs|] == inputs;
  }

  // Validates every entry and cuts its ids out of its category's list.
  method ProcessRemovals(s: Store, inputs: seq<ListInput>, catalog: Catalog)
    returns (loaded: Store, errors: seq<ListError>)
    requires DuplicateFreeLists(s)
    ensures errors == [] ==> loaded == WithRemoved(s, inputs)
    ensures forall e :: e in errors <==> e.index < |inputs| && RemoveViolates(s, catalog, inputs, e.index, e.fault)
  {
    loaded, errors := s, [];
    for i := 0 to |inputs|
      invariant loaded.Keys == s.Keys
      invariant DuplicateFreeLists(loaded) && (errors == [] ==> loaded == WithRemoved(s, inputs[..i]))
      invariant forall e :: e in errors <==> e.index < i && RemoveViolates(s, catalog, inputs, e.index, e.fault)
    {
      var faults := ValidateRemoval(s, catalog, inputs, i);
      var added := Errors(i, faults);
      errors := errors + added;
      assert forall f :: f in faults ==> ListError(i, f) in added;
      assert inputs[..i + 1][..i] == inputs[..i];
      var c := inputs[i].categoryId;
      if c in loaded && NoDuplicates(inputs[i].subcategoryIds) {
        var left := SpliceOut(loaded[c].subcategories, inputs[i].subcategoryIds);
        FilterNoDuplicates(loaded[c].subcategories, x => x !in inputs[i].subcategoryIds);
        loaded := loaded[c := loaded[c].(subcategories := left)];
      } else {
        assert CategoryMissing in faults || SubcategoriesRepeated in faults;
        assert errors != [];
      }
    }
    assert inputs[..|inputs|] == inputs;
  }

  function Errors(i: nat, faults: seq<Fault>): (errors: seq<ListError>)
    ensures forall e :: e in errors <==> e.index == i && e.fault in faults
  {
    if faults == [] then []
    else
      assert faults == [faults[0]] + faults[1..];
      [ListError(i, faults[0])] + Errors(i, faults[1..])
  }

  class SubcategoryService {
    var categories: Store

    constructor (categories: Store)
      ensures this.categories == categories
    {
      this.categories := categories;
    }

    /** Adds all of the subcategories or none, with one error for every condition violated. */
    method AddSubcategories(inputs: seq<ListInput>, catalog: Catalog, editor: Editor) returns (outcome: ListOutcome)
      modifies this
      ensures outcome.WrongLength? <==> !GoodLength(|inputs|)
      ensures !outcome.NotAllowed?
      ensures outcome.Refused? ==> forall e :: e in outcome.errors <==>
                e.index < |inputs| && AddViolates(old(categories), catalog, editor, inputs, e.index, e.fault)
      ensures outcome.Stored? <==> GoodLength(|inputs|) && Addable(old(categories), catalog, editor, inputs)
      ensures outcome.WrongLength? <==> |inputs| < 1 || |inputs| > 50
      ensures categories == if outcome.Stored? then WithAdded(old(categories), inputs) else old(categories)
      ensures outcome.Stored? ==> ListsAdded(old(categories), categories, inputs)
      ensures CommaFreeCategories(inputs) ==>
                (outcome.Stored? <==>
                 1 <= |inputs| <= 50 && ValidAddition(old(categories), catalog, editor, inputs))
    {
      if CommaFreeCategories(inputs) {
        ValidIsAddable(categories, catalog, editor, inputs);
      }
      if !GoodLength(|inputs|) {
        return WrongLength;
      }
      var loaded, errors := ProcessAdditions(categories, inputs, catalog, editor);
      if errors != [] {
        assert errors[0] in errors;
        return Refused(errors);
      }
      forall i, fault | 0 <= i < |inputs| ensures !AddViolates(categories, catalog, editor, inputs, i, fault) {
        assert ListError(i, fault) !in errors;
      }
      WithAddedMeaning(categories, inputs);
      categories := loaded;
      outcome := Stored;
    }

    /** Removes all of the subcategories or none, with one error for every condition violated. */
    method RemoveSubcategories(inputs: seq<ListInput>, catalog: Catalog, allowed: bool) returns (outcome: ListOutcome)
      requires DuplicateFreeLists(categories)
      modifies this
      ensures outcome.WrongLength? <==> !GoodLength(|inputs|)
      ensures outcome.NotAllowed? <==> GoodLength(|inputs|) && !allowed
      ensures outcome.Refused? ==> forall e :: e in outcome.errors <==>
                e.index < |inputs| && RemoveViolates(old(categories), catalog, inputs, e.index, e.fault)
      ensures outcome.Stored? <==> GoodLength(|inputs|) && allowed && Removable(old(categories), catalog, inputs)
      ensures outcome.WrongLength? <==> |inputs| < 1 || |inputs| > 50
      ensures categories == if outcome.Stored? then WithRemoved(old(categories), inputs) else old(categories)
      ensures outcome.Stored? ==> ListsRemoved(old(categories), categories, inputs)
      ensures CommaFreeCategories(inputs) ==>
                (outcome.Stored? <==>
                 1 <= |inputs| <= 50 && allowed && ValidRemoval(old(categories), catalog, inputs))
    {
      if CommaFreeCategories(inputs) {
        ValidIsRemovable(categories, catalog, inputs);
      }
      if !GoodLength(|inputs|) {
        return WrongLength;
      }
      if !allowed {
        return NotAllowed;
      }
      var loaded, errors := ProcessRemovals(categories, inputs, catalog);
      if errors != [] {
        assert errors[0] in errors;
        return Refused(errors);
      }
      forall i, fault | 0 <= i < |inputs| ensures !RemoveViolates(categories, catalog, inputs, i, fault) {
        assert ListError(i, fault) !in errors;
      }
      RemovableIsDistinct(categories, catalog, inputs);
      WithRemovedMeaning(categories, inputs);
      categories := loaded;
      outcome := Stored;
    }
  }
}
