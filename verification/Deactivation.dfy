/**
 Deactivating an organization cascades to its schools, their classes and memberships, its own
 memberships and its ownership. One class may hang off several schools, as one object or as
 several objects loaded for the same row.
 */
module Deactivation {
  import opened Collections
  import opened Statuses

  // What the database stores of an entity's life cycle.
  datatype Row = Row(status: Status, deletedAt: Option<int>)

  function Inactivated(r: Row, now: int): Row {
    if r.status == Active then Row(Inactive, Some(now)) else r
  }

  // The rows after every row in `ids` was inactivated.
  function Cascade(rows: map<string, Row>, ids: set<string>, now: int): map<string, Row> {
    map id | id in rows :: if id in ids then Inactivated(rows[id], now) else rows[id]
  }

  /** What a cascade leaves: nothing in it is active, what was active carries the time of the
      deactivation, and everything else, inside or outside, is as it was. */
  lemma CascadeMeaning(rows: map<string, Row>, ids: set<string>, now: int, id: string)
    requires id in rows
    ensures id in ids ==> Cascade(rows, ids, now)[id].status != Active
    ensures id in ids && rows[id].status == Active ==> Cascade(rows, ids, now)[id] == Row(Inactive, Some(now))
    ensures id !in ids || rows[id].status != Active ==> Cascade(rows, ids, now)[id] == rows[id]
  {
  }

  // The rows in `ids` that were active are inactive since `now`; every other row is as it was.
  ghost predicate OutOfUse(before: map<string, Row>, after: map<string, Row>, ids: set<string>, now: int) {
    && after.Keys == before.Keys
    && forall id :: id in after ==>
         if id in ids && before[id].status == Active
         then after[id].status == Inactive && after[id].deletedAt == Some(now)
         else after[id] == before[id]
  }

  lemma CascadeIsOutOfUse(rows: map<string, Row>, ids: set<string>, now: int)
    ensures OutOfUse(rows, Cascade(rows, ids, now), ids, now)
  {
  }

  /** Cascades compose into one over all their ids, so their order does not matter; repeating one
      later changes nothing, not even a time. */
  lemma CascadesCompose(rows: map<string, Row>, a: set<string>, b: set<string>, now: int, later: int)
    ensures Cascade(Cascade(rows, a, now), b, now) == Cascade(rows, a + b, now)
    ensures Cascade(Cascade(rows, b, now), a, now) == Cascade(Cascade(rows, a, now), b, now)
    ensures b <= a ==> Cascade(Cascade(rows, a, now), b, later) == Cascade(rows, a, now)
  {
  }

  // The entity manager; `failsAfter` counts the saves the database still takes, if one is to fail.
  class Manager {
    var rows: map<string, Row>
    var failsAfter: Option<nat>

    constructor (rows: map<string, Row>, failsAfter: Option<nat>)
      ensures this.rows == rows && this.failsAfter == failsAfter
    {
      this.rows, this.failsAfter := rows, failsAfter;
    }

    method Save(e: Entity) returns (saved: bool)
      modifies this
      ensures saved <==> old(failsAfter) != Some(0)
      ensures rows == if saved then old(rows)[e.id := e.State()] else old(rows)
      ensures old(failsAfter).None? ==> failsAfter.None?
    {
      if failsAfter == Some(0) {
        return false;
      }
      if failsAfter.Some? {
        failsAfter := Some(failsAfter.value - 1);
      }
      rows := rows[e.id := Row(e.status, e.deletedAt)];
      saved := true;
    }
  }

  ghost function SetOf(es: seq<Entity>): set<Entity> {
    set e | e in es
  }

  ghost function Ids(es: set<Entity>): set<string> {
    set e | e in es :: e.id
  }

  // The entities of `all` were loaded from the rows `before`, those in `touched` have been
  // inactivated since, in memory and in the database, and nothing else has changed.
  ghost predicate Progress(all: set<Entity>, touched: set<Entity>, m: Manager, before: map<string, Row>, now: int)
    reads all, m
  {
    && touched <= all
    && m.rows == Cascade(before, Ids(touched), now)
    && (forall e :: e in all ==>
          e.id in before && e.State() == if e in touched then Inactivated(before[e.id], now) else before[e.id])
  }

  // What a save that failed leaves in memory: every entity is as it was loaded or inactivated.
  ghost predicate PartWay(all: set<Entity>, before: map<string, Row>, now: int)
    reads all
  {
    forall e :: e in all ==>
      e.id in before && (e.State() == before[e.id] || e.State() == Inactivated(before[e.id], now))
  }

  ghost predicate AllInactivated(all: set<Entity>, before: map<string, Row>, now: int)
    reads all
  {
    forall e :: e in all ==> e.id in before && e.State() == Inactivated(before[e.id], now)
  }

  // A cascade got through `touched` when `ok`, and was cut short by a save that failed otherwise.
  ghost predicate Came(ok: bool, all: set<Entity>, touched: set<Entity>, m: Manager, before: map<string, Row>, now: int)
    reads all, m
  {
    if ok then Progress(all, touched, m, before, now) else PartWay(all, before, now)
  }

  // The life-cycle part that every stored entity inherits.
  class Entity {
    const id: string
    var status: Status
    var deletedAt: Option<int>

    constructor (id: string, row: Row)
      ensures this.id == id && State() == row
    {
      this.id, status, deletedAt := id, row.status, row.deletedAt;
    }

    function State(): Row
      reads this
    {
      Row(status, deletedAt)
    }

    method Inactivate(m: Manager, now: int, ghost all: set<Entity>, ghost touched: set<Entity>,
                      ghost before: map<string, Row>)
      returns (ok: bool)
      requires this in all && Progress(all, touched, m, before, now)
      modifies this, m
      ensures Came(ok, all, touched + {this}, m, before, now)
      ensures State() == Inactivated(old(State()), now)
      ensures old(m.failsAfter).None? ==> ok && m.failsAfter.None?
    {
      assert Ids(touched + {this}) == Ids(touched) + {id};
      if status != Active {
        assert before[id].status != Active || this in touched;
        return true;
      }
      status := Inactive;
      deletedAt := Some(now);
      ok := m.Save(this);
    }
  }

  method InactivateAll(es: seq<Entity>, m: Manager, now: int, ghost all: set<Entity>, ghost touched: set<Entity>,
                       ghost before: map<string, Row>)
    returns (ok: bool)
    requires (forall e :: e in es ==> e in all) && Progress(all, touched, m, before, now)
    modifies es, m
    ensures Came(ok, all, touched + SetOf(es), m, before, now)
    ensures old(m.failsAfter).None? ==> ok && m.failsAfter.None?
  {
    ghost var reached := touched;
    for i := 0 to |es|
      invariant reached == touched + SetOf(es[..i])
      invariant Progress(all, reached, m, before, now)
      invariant old(m.failsAfter).None? ==> m.failsAfter.None?
    {
      assert es[..i + 1] == es[..i] + [es[i]];
      ok := es[i].Inactivate(m, now, all, reached, before);
      if !ok {
        return false;
      }
      reached := reached + {es[i]};
    }
    assert es[..|es|] == es;
    ok := true;
  }

  class School {
    const entity: Entity
    const classes: seq<Entity>
    const memberships: seq<Entity>

    constructor (entity: Entity, classes: seq<Entity>, memberships: seq<Entity>)
      ensures this.entity == entity && this.classes == classes && this.memberships == memberships
    {
      this.entity, this.classes, this.memberships := entity, classes, memberships;
    }

    ghost function Reach(): set<Entity> {
      {entity} + SetOf(classes) + SetOf(memberships)
    }

    method Inactivate(m: Manager, now: int, ghost all: set<Entity>, ghost touched: set<Entity>,
                      ghost before: map<string, Row>)
      returns (ok: bool)
      requires Reach() <= all && Progress(all, touched, m, before, now)
      modifies Reach(), m
      ensures Came(ok, all, touched + Reach(), m, before, now)
      ensures old(m.failsAfter).None? ==> ok && m.failsAfter.None?
    {
      ok := entity.Inactivate(m, now, all, touched, before);
      if !ok {
        return;
      }
      ok := InactivateAll(classes, m, now, all, touched + {entity}, before);
      if !ok {
        return;
      }
      ok := InactivateAll(memberships, m, now, all, touched + {entity} + SetOf(classes), before);
      if !ok {
        return;
      }
      ghost var reached := touched + {entity} + SetOf(classes) + SetOf(memberships);
      assert reached == touched + Reach();
      ok := SaveAgain(entity, m, now, all, reached, before);
    }
  }

  // Saving an entity once more after it is done writes what is stored.
  method SaveAgain(e: Entity, m: Manager, now: int, ghost all: set<Entity>, ghost touched: set<Entity>,
                   ghost before: map<string, Row>)
    returns (ok: bool)
    requires Progress(all, touched, m, before, now) && e in touched
    modifies m
    ensures Came(ok, all, touched, m, before, now)
    ensures old(m.failsAfter).None? ==> ok && m.failsAfter.None?
  {
    assert m.rows[e.id := e.State()] == m.rows;
    ok := m.Save(e);
  }

  class Organization {
    const entity: Entity
    const schools: seq<School>
    const memberships: seq<Entity>
    // The ownership row of the organization, of which the table holds at most one.
    const ownership: Option<Entity>

    constructor (entity: Entity, schools: seq<School>, memberships: seq<Entity>, ownership: Option<Entity>)
      ensures this.entity == entity && this.schools == schools
      ensures this.memberships == memberships && this.ownership == ownership
    {
      this.entity, this.schools, this.memberships, this.ownership := entity, schools, memberships, ownership;
    }

    ghost function SchoolReach(schools: seq<School>): set<Entity> {
      set s, e | s in schools && e in s.Reach() :: e
    }

    ghost function Owning(): set<Entity> {
      if ownership.Some? then {ownership.value} else {}
    }

    ghost function Reach(): set<Entity> {
      {entity} + SchoolReach(schools) + SetOf(memberships) + Owning()
    }

    // The organization, its ownership, its memberships, and its schools with their classes and
    // memberships are all out of use.
    ghost predicate NothingActive()
      reads Reach()
    {
      && entity.status != Active
      && (ownership.Some? ==> ownership.value.status != Active)
      && (forall e :: e in memberships ==> e.status != Active)
      && (forall s :: s in schools ==> s.entity in Reach() && s.entity.status != Active)
      && (forall s, e :: s in schools && e in s.classes ==> e in Reach() && e.status != Active)
      && (forall s, e :: s in schools && e in s.memberships ==> e in Reach() && e.status != Active)
    }

    method InactivateSchools(m: Manager, now: int, ghost all: set<Entity>, ghost touched: set<Entity>,
                             ghost before: map<string, Row>)
      returns (ok: bool)
      requires SchoolReach(schools) <= all && Progress(all, touched, m, before, now)
      modifies SchoolReach(schools), m
      ensures Came(ok, all, touched + SchoolReach(schools), m, before, now)
      ensures old(m.failsAfter).None? ==> ok && m.failsAfter.None?
    {
      ghost var reached := touched;
      assert SchoolReach([]) == {};
      for i := 0 to |schools|
        invariant reached == touched + SchoolReach(schools[..i])
        invariant Progress(all, reached, m, before, now)
        invariant old(m.failsAfter).None? ==> m.failsAfter.None?
      {
        assert schools[..i + 1] == schools[..i] + [schools[i]];
        assert SchoolReach(schools[..i + 1]) == SchoolReach(schools[..i]) + schools[i].Reach();
        ok := schools[i].Inactivate(m, now, all, reached, before);
        if !ok {
          return false;
        }
        reached := reached + schools[i].Reach();
      }
      assert schools[..|schools|] == schools;
      ok := true;
    }

    method InactivateMembershipsAndOwnership(m: Manager, now: int, ghost all: set<Entity>, ghost touched: set<Entity>,
                                             ghost before: map<string, Row>)
      returns (ok: bool)
      requires SetOf(memberships) + Owning() <= all && Progress(all, touched, m, before, now)
      modifies SetOf(memberships), Owning(), m
      ensures Came(ok, all, touched + SetOf(memberships) + Owning(), m, before, now)
      ensures old(m.failsAfter).None? ==> ok && m.failsAfter.None?
    {
      ok := InactivateAll(memberships, m, now, all, touched, before);
      if !ok {
        return;
      }
      if ownership.Some? {
        ok := ownership.value.Inactivate(m, now, all, touched + SetOf(memberships), before);
      } else {
        assert touched + SetOf(memberships) + {} == touched + SetOf(memberships);
      }
    }

    method Inactivate(m: Manager, now: int, ghost before: map<string, Row>) returns (ok: bool)
      requires Progress(Reach(), {}, m, before, now)
      modifies Reach(), m
      ensures Came(ok, Reach(), Reach(), m, before, now)
      ensures old(m.failsAfter).None? ==> ok && m.failsAfter.None?
    {
      ghost var all := Reach();
      ok := entity.Inactivate(m, now, all, {}, before);
      if !ok {
        return;
      }
      assert {} + {entity} == {entity};
      ok := InactivateSchools(m, now, all, {entity}, before);
      if !ok {
        return;
      }
      ok := InactivateMembershipsAndOwnership(m, now, all, {entity} + SchoolReach(schools), before);
      if !ok {
        return;
      }
      ok := SaveAgain(entity, m, now, all, all, before);
    }

    // Nor does the database hold any of it active.
    ghost predicate NothingStoredActive(rows: map<string, Row>) {
      forall id :: id in Ids(Reach()) ==> id in rows && rows[id].status != Active
    }

    lemma NothingIsLeft(m: Manager, before: map<string, Row>, now: int)
      requires Progress(Reach(), Reach(), m, before, now)
      ensures NothingActive() && NothingStoredActive(m.rows)
    {
      forall e | e in Reach() ensures e.status != Active {
        assert e.State() == Inactivated(before[e.id], now);
      }
      SchoolsAreReached();
      forall id | id in Ids(Reach()) ensures id in m.rows && m.rows[id].status != Active {
        CascadeMeaning(before, Ids(Reach()), now, id);
      }
    }

    lemma SchoolsAreReached()
      ensures forall s, e :: s in schools && e in s.Reach() ==> e in Reach()
    {
    }

    /** Deleting an active organization leaves nothing of it active, in memory or in the database, and
        changes nothing outside its reach; what was not active keeps its status and time. When a save
        or the transaction fails the database is as it was, and each object in memory as it was or
        inactivated. An organization that is not active is left alone. */
    method Delete(m: Manager, now: int, commitFails: bool) returns (deleted: Option<bool>)
      requires Progress(Reach(), {}, m, m.rows, now)
      modifies Reach(), m
      ensures deleted.Some? <==> old(entity.status) == Active
      ensures deleted.None? ==> Progress(Reach(), {}, m, old(m.rows), now)
      ensures deleted == Some(true) ==> NothingActive() && NothingStoredActive(m.rows)
      ensures deleted == Some(true) ==> Progress(Reach(), Reach(), m, old(m.rows), now)
      ensures deleted == Some(true) ==> OutOfUse(old(m.rows), m.rows, Ids(Reach()), now)
      ensures deleted == Some(false) ==> m.rows == old(m.rows) && PartWay(Reach(), old(m.rows), now)
      ensures commitFails ==> deleted != Some(true)
      ensures old(m.failsAfter).None? && !commitFails ==> deleted != Some(false)
      ensures old(m.failsAfter).None? && deleted == Some(false) ==> AllInactivated(Reach(), old(m.rows), now)
    {
      if entity.status != Active {
        return None;
      }
      var before := m.rows;
      var ok := Inactivate(m, now, before);
      if !ok || commitFails {
        m.rows := before;
        return Some(false);
      }
      NothingIsLeft(m, before, now);
      CascadeIsOutOfUse(before, Ids(Reach()), now);
      deleted := Some(true);
    }
  }

  class User {
    const entity: Entity
    const memberships: seq<Entity>
    const schoolMemberships: seq<Entity>

    constructor (entity: Entity, memberships: seq<Entity>, schoolMemberships: seq<Entity>)
      ensures this.entity == entity && this.memberships == memberships && this.schoolMemberships == schoolMemberships
    {
      this.entity, this.memberships, this.schoolMemberships := entity, memberships, schoolMemberships;
    }

    ghost function Reach(): set<Entity> {
      {entity} + SetOf(memberships) + SetOf(schoolMemberships)
    }

    // Neither the user nor a membership of it is in use.
    ghost predicate NothingActive()
      reads Reach()
    {
      && entity.status != Active && (forall e :: e in memberships ==> e.status != Active)
      && (forall e :: e in schoolMemberships ==> e.status != Active)
    }

    lemma NothingIsLeft(m: Manager, before: map<string, Row>, now: int)
      requires Progress(Reach(), Reach(), m, before, now)
      ensures NothingActive() && OutOfUse(before, m.rows, Ids(Reach()), now)
    {
      forall e | e in Reach() ensures e.status != Active {
        assert e.State() == Inactivated(before[e.id], now);
      }
      CascadeIsOutOfUse(before, Ids(Reach()), now);
    }

    method Inactivate(m: Manager, now: int) returns (ok: bool)
      requires Progress(Reach(), {}, m, m.rows, now)
      modifies Reach(), m
      ensures Came(ok, Reach(), Reach(), m, old(m.rows), now)
      ensures ok ==> NothingActive() && OutOfUse(old(m.rows), m.rows, Ids(Reach()), now)
      ensures old(m.failsAfter).None? ==> ok && m.failsAfter.None?
    {
      ghost var before := m.rows;
      ok := entity.Inactivate(m, now, Reach(), {}, before);
      if !ok {
        return;
      }
      ghost var reached := {} + {entity};
      ok := InactivateAll(memberships, m, now, Reach(), reached, before);
      if !ok {
        return;
      }
      reached := reached + SetOf(memberships);
      ok := InactivateAll(schoolMemberships, m, now, Reach(), reached, before);
      if !ok {
        return;
      }
      assert reached + SetOf(schoolMemberships) == Reach();
      ok := SaveAgain(entity, m, now, Reach(), Reach(), before);
      if ok {
        NothingIsLeft(m, before, now);
      }
    }
  }
}
