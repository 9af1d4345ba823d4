/**
 Merging one user into another: the relation lists of the surviving user grow in memory, the
 result is saved step by step in a transaction, the other user is removed, and a failed attempt
 is rolled back and tried again with whatever the lists have grown to.
 */
module UserMerge {
  import opened Collections
  import opened Statuses

  // ----- stored data

  // Empty strings are unset.
  datatype Details = Details(gender: string, username: string, dateOfBirth: string)

  datatype Held = Held(status: Status, roles: set<string>)

  // Memberships are keyed by user and place, class relations are pairs of user and class.
  datatype Database = Database(users: map<string, Details>,
                               organizationMemberships: map<(string, string), Held>,
                               schoolMemberships: map<(string, string), Held>,
                               studying: set<(string, string)>,
                               teaching: set<(string, string)>)

  // ----- a user in memory

  datatype Membership = Membership(place: string, held: Held)

  datatype Profile = Profile(id: string, details: Details, memberships: seq<Membership>,
                             schoolMemberships: seq<Membership>, studying: seq<string>, teaching: seq<string>)

  predicate At(ms: seq<Membership>, place: string) {
    exists m :: m in ms && m.place == place
  }

  // ----- merging lists

  function MergedMemberships(mine: seq<Membership>, theirs: seq<Membership>): seq<Membership> {
    if theirs == [] then mine
    else
      var merged := MergedMemberships(mine, theirs[..|theirs| - 1]);
      var m := theirs[|theirs| - 1];
      if At(merged, m.place) then merged else merged + [m]
  }

  function MergedClasses(mine: seq<string>, theirs: seq<string>): seq<string> {
    if theirs == [] then mine
    else
      var merged := MergedClasses(mine, theirs[..|theirs| - 1]);
      var c := theirs[|theirs| - 1];
      if c in merged then merged else merged + [c]
  }

  function MergedDetails(mine: Details, theirs: Details): Details {
    Details(if theirs.gender != "" then theirs.gender else mine.gender,
            if theirs.username != "" then theirs.username else mine.username,
            if theirs.dateOfBirth != "" then theirs.dateOfBirth else mine.dateOfBirth)
  }

  predicate DistinctPlaces(ms: seq<Membership>) {
    forall i, j :: 0 <= i < j < |ms| ==> ms[i].place != ms[j].place
  }

  /** Own memberships come first and unmodified, each place is held once, and every place of either
      user is held: with the own membership where there is one, else with the other's. */
  lemma {:induction false} MergedMembershipsMeaning(mine: seq<Membership>, theirs: seq<Membership>)
    ensures mine <= MergedMemberships(mine, theirs)
    ensures DistinctPlaces(mine) ==> DistinctPlaces(MergedMemberships(mine, theirs))
    ensures forall m :: m in MergedMemberships(mine, theirs) ==> m in mine || (m in theirs && !At(mine, m.place))
    ensures forall place :: At(MergedMemberships(mine, theirs), place) <==> At(mine, place) || At(theirs, place)
  {
    if theirs != [] {
      var init, last := theirs[..|theirs| - 1], theirs[|theirs| - 1];
      assert theirs == init + [last];
      MergedMembershipsMeaning(mine, init);
      forall place ensures At(theirs, place) <==> At(init, place) || last.place == place {
        if last.place == place { assert last in theirs; }
      }
      var merged := MergedMemberships(mine, init);
      if !At(merged, last.place) {
        forall place ensures At(merged + [last], place) <==> At(merged, place) || last.place == place {
          if last.place == place { assert last in merged + [last]; }
        }
        forall i | 0 <= i < |merged| ensures merged[i].place != last.place {
          assert merged[i] in merged;
        }
      }
    }
  }

  lemma {:induction false} MergedClassesMeaning(mine: seq<string>, theirs: seq<string>)
    ensures mine <= MergedClasses(mine, theirs)
    ensures NoDuplicates(mine) ==> NoDuplicates(MergedClasses(mine, theirs))
    ensures forall c :: c in MergedClasses(mine, theirs) <==> c in mine || c in theirs
  {
    if theirs != [] {
      var init, last := theirs[..|theirs| - 1], theirs[|theirs| - 1];
      assert theirs == init + [last];
      MergedClassesMeaning(mine, init);
    }
  }

  lemma {:induction false} NothingToMerge(mine: seq<Membership>, theirs: seq<Membership>)
    requires forall m :: m in theirs ==> At(mine, m.place)
    ensures MergedMemberships(mine, theirs) == mine
  {
    if theirs != [] {
      NothingToMerge(mine, theirs[..|theirs| - 1]);
    }
  }

  lemma {:induction false} NoClassToMerge(mine: seq<string>, theirs: seq<string>)
    requires forall c :: c in theirs ==> c in mine
    ensures MergedClasses(mine, theirs) == mine
  {
    if theirs != [] {
      NoClassToMerge(mine, theirs[..|theirs| - 1]);
    }
  }

  /** Merging again changes nothing. */
  lemma MergeAbsorbs(mine: seq<Membership>, theirs: seq<Membership>)
    ensures MergedMemberships(MergedMemberships(mine, theirs), theirs) == MergedMemberships(mine, theirs)
  {
    MergedMembershipsMeaning(mine, theirs);
    forall m | m in theirs ensures At(MergedMemberships(mine, theirs), m.place) {
      assert At(theirs, m.place);
    }
    NothingToMerge(MergedMemberships(mine, theirs), theirs);
  }

  lemma ClassesAbsorb(mine: seq<string>, theirs: seq<string>)
    ensures MergedClasses(MergedClasses(mine, theirs), theirs) == MergedClasses(mine, theirs)
  {
    MergedClassesMeaning(mine, theirs);
    NoClassToMerge(MergedClasses(mine, theirs), theirs);
  }

  // ----- saving

  function Upsert(table: map<(string, string), Held>, user: string, ms: seq<Membership>): map<(string, string), Held> {
    if ms == [] then table
    else Upsert(table, user, ms[..|ms| - 1])[(user, ms[|ms| - 1].place) := ms[|ms| - 1].held]
  }

  function ReplaceRows(relation: set<(string, string)>, user: string, classes: seq<string>): set<(string, string)> {
    (set r | r in relation && r.0 != user) + (set c | c in classes :: (user, c))
  }

  // Saving a user writes its columns and the rows of its loaded class relations.
  function SaveUser(db: Database, p: Profile): Database {
    db.(users := db.users[p.id := p.details],
        studying := ReplaceRows(db.studying, p.id, p.studying),
        teaching := ReplaceRows(db.teaching, p.id, p.teaching))
  }

  function SaveMemberships(db: Database, p: Profile): Database {
    var saved := SaveUser(db, p);
    saved.(organizationMemberships := Upsert(db.organizationMemberships, p.id, p.memberships))
  }

  function SaveSchoolMemberships(db: Database, p: Profile): Database {
    var saved := SaveUser(db, p);
    saved.(schoolMemberships := Upsert(db.schoolMemberships, p.id, p.schoolMemberships))
  }

  function RemoveAll(table: map<(string, string), Held>, user: string,
                     ms: seq<Membership>): map<(string, string), Held> {
    map k | k in table && !(k.0 == user && At(ms, k.1)) :: table[k]
  }

  // Removing a user removes its loaded memberships and, by cascade, its class rows.
  function RemoveUser(db: Database, o: Profile): Database {
    Database(db.users - {o.id},
             RemoveAll(db.organizationMemberships, o.id, o.memberships),
             RemoveAll(db.schoolMemberships, o.id, o.schoolMemberships),
             ReplaceRows(db.studying, o.id, []),
             ReplaceRows(db.teaching, o.id, []))
  }

  // ----- one attempt

  // The saves of an attempt, at which the database may fail.
  datatype Save = OfMemberships | OfSchoolMemberships | OfClassesStudying | OfClassesTeaching

  // An attempt leaves the user as far as it got, and the database untouched unless it committed.
  datatype Attempt = Attempt(profile: Profile, db: Database, committed: bool)

  function WithMemberships(p: Profile, o: Profile): Profile {
    p.(details := MergedDetails(p.details, o.details), memberships := MergedMemberships(p.memberships, o.memberships))
  }

  function WithSchools(p: Profile, o: Profile): Profile {
    p.(schoolMemberships := MergedMemberships(p.schoolMemberships, o.schoolMemberships))
  }

  function WithStudying(p: Profile, o: Profile): Profile {
    p.(studying := MergedClasses(p.studying, o.studying))
  }

  function WithTeaching(p: Profile, o: Profile): Profile {
    p.(teaching := MergedClasses(p.teaching, o.teaching))
  }

  // The attempt from each of its saves on; `saved` is what the transaction holds so far.
  function AttemptMerge(p: Profile, o: Profile, db: Database, fail: Option<Save>): Attempt {
    var q := WithMemberships(p, o);
    if q.memberships != [] && fail == Some(OfMemberships) then Attempt(q, db, false)
    else AttemptSchools(q, o, db, if q.memberships != [] then SaveMemberships(db, q) else db, fail)
  }

  function AttemptSchools(p: Profile, o: Profile, db: Database, saved: Database, fail: Option<Save>): Attempt {
    var q := WithSchools(p, o);
    if q.schoolMemberships != [] && fail == Some(OfSchoolMemberships) then Attempt(q, db, false)
    else AttemptStudying(q, o, db, if q.schoolMemberships != [] then SaveSchoolMemberships(saved, q) else saved, fail)
  }

  function AttemptStudying(p: Profile, o: Profile, db: Database, saved: Database, fail: Option<Save>): Attempt {
    var q := WithStudying(p, o);
    if q.studying != [] && fail == Some(OfClassesStudying) then Attempt(q, db, false)
    else AttemptTeaching(q, o, db, if q.studying != [] then SaveUser(saved, q) else saved, fail)
  }

  function AttemptTeaching(p: Profile, o: Profile, db: Database, saved: Database, fail: Option<Save>): Attempt {
    var q := WithTeaching(p, o);
    if q.teaching != [] && fail == Some(OfClassesTeaching) then Attempt(q, db, false)
    else Attempt(q, RemoveUser(if q.teaching != [] then SaveUser(saved, q) else saved, o), true)
  }

  function Merged(p: Profile, o: Profile): Profile {
    WithTeaching(WithStudying(WithSchools(WithMemberships(p, o), o), o), o)
  }

  // Each part of q is as it was in p, or merged.
  ghost predicate PartlyMerged(q: Profile, p: Profile, o: Profile) {
    && q.id == p.id
    && (q.details == p.details || q.details == Merged(p, o).details)
    && (q.memberships == p.memberships || q.memberships == Merged(p, o).memberships)
    && (q.schoolMemberships == p.schoolMemberships || q.schoolMemberships == Merged(p, o).schoolMemberships)
    && (q.studying == p.studying || q.studying == Merged(p, o).studying)
    && (q.teaching == p.teaching || q.teaching == Merged(p, o).teaching)
  }

  /** However far a merge got, merging again ends in the same profile. */
  lemma MergedFromAnywhere(q: Profile, p: Profile, o: Profile)
    requires PartlyMerged(q, p, o)
    ensures Merged(q, o) == Merged(p, o)
  {
    MergeAbsorbs(p.memberships, o.memberships);
    MergeAbsorbs(p.schoolMemberships, o.schoolMemberships);
    ClassesAbsorb(p.studying, o.studying);
    ClassesAbsorb(p.teaching, o.teaching);
  }

  // An attempt ends after one of its parts, and with all of them when it commits.
  lemma AttemptStops(q: Profile, o: Profile, db: Database, fail: Option<Save>)
    ensures var reached, memberships := AttemptMerge(q, o, db, fail).profile, WithMemberships(q, o);
            var schools := WithSchools(memberships, o);
            var studying := WithStudying(schools, o);
            reached == memberships || reached == schools || reached == studying || reached == WithTeaching(studying, o)
    ensures !AttemptMerge(q, o, db, fail).committed ==> AttemptMerge(q, o, db, fail).db == db
  {
  }

  lemma AttemptStaysPartlyMerged(q: Profile, p: Profile, o: Profile, db: Database, fail: Option<Save>)
    requires PartlyMerged(q, p, o)
    ensures PartlyMerged(AttemptMerge(q, o, db, fail).profile, p, o)
    ensures !AttemptMerge(q, o, db, fail).committed ==> AttemptMerge(q, o, db, fail).db == db
  {
    AttemptStops(q, o, db, fail);
    MergedFromAnywhere(q, p, o);
  }

  // The database with a fully merged profile saved; nothing is saved of a user without relations.
  function SavedWhole(db: Database, f: Profile): Database {
    if f.memberships == [] && f.schoolMemberships == [] && f.studying == [] && f.teaching == [] then db
    else SaveUser(db, f).(organizationMemberships := Upsert(db.organizationMemberships, f.id, f.memberships),
                          schoolMemberships := Upsert(db.schoolMemberships, f.id, f.schoolMemberships))
  }

  lemma LastReplaceWins(relation: set<(string, string)>, user: string, first: seq<string>, second: seq<string>)
    ensures ReplaceRows(ReplaceRows(relation, user, first), user, second) == ReplaceRows(relation, user, second)
  {
  }

  // A later save of the same user overrides what an earlier one wrote of the user itself.
  lemma LastSaveWins(db: Database, first: Profile, second: Profile)
    requires first.id == second.id
    ensures SaveUser(SaveUser(db, first), second) == SaveUser(db, second)
  {
    LastReplaceWins(db.studying, first.id, first.studying, second.studying);
    LastReplaceWins(db.teaching, first.id, first.teaching, second.teaching);
  }

  lemma {:induction false} CommittedAttempt(q: Profile, o: Profile, db: Database, fail: Option<Save>)
    requires AttemptMerge(q, o, db, fail).committed
    ensures AttemptMerge(q, o, db, fail) == Attempt(Merged(q, o), RemoveUser(SavedWhole(db, Merged(q, o)), o), true)
  {
    var p1 := WithMemberships(q, o);
    var p2 := WithSchools(p1, o);
    var p3 := WithStudying(p2, o);
    var p4 := WithTeaching(p3, o);
    LastSaveWins(db, p1, p2);
    LastSaveWins(db, p1, p3);
    LastSaveWins(db, p2, p3);
    LastSaveWins(db, p1, p4);
    LastSaveWins(db, p2, p4);
    LastSaveWins(db, p3, p4);
  }

  // ----- retries

  // Attempts are made until one commits or the list of attempts is used up; each entry says where
  // that attempt fails, if it does.
  function Retry(p: Profile, o: Profile, db: Database, fails: seq<Option<Save>>): Attempt
    decreases |fails|
  {
    if fails == [] then Attempt(p, db, false)
    else
      var a := AttemptMerge(p, o, db, fails[0]);
      if a.committed then a else Retry(a.profile, o, a.db, fails[1..])
  }

  /** Any number of rolled back attempts before a commit leaves no trace: the merge ends as one
      attempt without failures would, in memory and in the database. Without a commit the database
      is untouched. */
  lemma {:induction false} RetriesLeaveNoTrace(q: Profile, p: Profile, o: Profile, db: Database,
                                               fails: seq<Option<Save>>)
    requires PartlyMerged(q, p, o)
    ensures Retry(q, o, db, fails).committed ==> Retry(q, o, db, fails) == AttemptMerge(p, o, db, None)
    ensures !Retry(q, o, db, fails).committed ==> Retry(q, o, db, fails).db == db
    ensures Retry(q, o, db, fails).committed
            <==> exists i :: 0 <= i < |fails| && AttemptMerge(p, o, db, fails[i]).committed
    decreases |fails|
  {
    if fails != [] {
      var a := AttemptMerge(q, o, db, fails[0]);
      MergedFromAnywhere(q, p, o);
      SameFailures(q, p, o, db, fails[0]);
      AttemptStaysPartlyMerged(q, p, o, db, fails[0]);
      if a.committed {
        CommittedAttempt(q, o, db, fails[0]);
        CommittedAttempt(p, o, db, None);
      } else {
        RetriesLeaveNoTrace(a.profile, p, o, db, fails[1..]);
        assert forall i :: 0 < i < |fails| ==> fails[i] == fails[1..][i - 1];
      }
    }
  }

  // A partly merged user fails where the unmerged one would.
  lemma SameFailures(q: Profile, p: Profile, o: Profile, db: Database, fail: Option<Save>)
    requires PartlyMerged(q, p, o) && Merged(q, o) == Merged(p, o)
    ensures AttemptMerge(q, o, db, fail).committed <==> AttemptMerge(p, o, db, fail).committed
  {
    assert Merged(q, o).memberships == Merged(p, o).memberships;
    assert Merged(q, o).schoolMemberships == Merged(p, o).schoolMemberships;
    assert Merged(q, o).studying == Merged(p, o).studying;
    assert Merged(q, o).teaching == Merged(p, o).teaching;
  }

  // ----- conservation

  ghost predicate LoadedMemberships(table: map<(string, string), Held>, user: string, ms: seq<Membership>) {
    && DistinctPlaces(ms)
    && (forall place :: (user, place) in table <==> At(ms, place))
    && (forall m :: m in ms && (user, m.place) in table ==> table[(user, m.place)] == m.held)
  }

  ghost predicate LoadedClasses(relation: set<(string, string)>, user: string, classes: seq<string>) {
    forall c :: (user, c) in relation <==> c in classes
  }

  // The profile in memory is what the database holds of the user.
  ghost predicate Loaded(db: Database, p: Profile) {
    && p.id in db.users && db.users[p.id] == p.details
    && LoadedMemberships(db.organizationMemberships, p.id, p.memberships)
    && LoadedMemberships(db.schoolMemberships, p.id, p.schoolMemberships)
    && LoadedClasses(db.studying, p.id, p.studying)
    && LoadedClasses(db.teaching, p.id, p.teaching)
  }

  // The survivor holds every place of either user, its own as they were and the others as their
  // source held them; the other user holds none; nobody else changes.
  ghost predicate MembershipsConserved(before: map<(string, string), Held>, after: map<(string, string), Held>,
                                       survivor: string, other: string)
  {
    forall k: (string, string) ::
      && (k in after <==> k.0 != other && (k in before || (k.0 == survivor && (other, k.1) in before)))
      && (k in after ==> after[k] == if k in before then before[k] else before[(other, k.1)])
  }

  ghost predicate ClassesConserved(before: set<(string, string)>, after: set<(string, string)>, survivor: string,
                                   other: string) {
    forall r: (string, string) ::
      r in after <==> r.0 != other && (r in before || (r.0 == survivor && (other, r.1) in before))
  }

  lemma {:induction false} UpsertKeys(table: map<(string, string), Held>, user: string, ms: seq<Membership>,
                                      k: (string, string))
    ensures k in Upsert(table, user, ms) <==> k in table || (k.0 == user && At(ms, k.1))
    ensures k in Upsert(table, user, ms) && !(k.0 == user && At(ms, k.1)) ==> Upsert(table, user, ms)[k] == table[k]
  {
    if ms != [] {
      var init, last := ms[..|ms| - 1], ms[|ms| - 1];
      assert ms == init + [last];
      UpsertKeys(table, user, init, k);
      assert At(ms, k.1) <==> At(init, k.1) || last.place == k.1 by {
        assert last in ms;
      }
    }
  }

  lemma {:induction false} UpsertValues(table: map<(string, string), Held>, user: string, ms: seq<Membership>,
                                        m: Membership)
    requires DistinctPlaces(ms) && m in ms
    ensures (user, m.place) in Upsert(table, user, ms) && Upsert(table, user, ms)[(user, m.place)] == m.held
  {
    var init, last := ms[..|ms| - 1], ms[|ms| - 1];
    if m != last {
      assert m in init;
      UpsertValues(table, user, init, m);
      var i :| 0 <= i < |init| && init[i] == m;
      assert ms[i] == m && ms[i].place != last.place;
    }
  }

  lemma {:induction false} MembershipsAreConserved(table: map<(string, string), Held>, survivor: string, other: string,
                                mine: seq<Membership>, theirs: seq<Membership>)
    requires survivor != other
    requires LoadedMemberships(table, survivor, mine) && LoadedMemberships(table, other, theirs)
    ensures var saved := Upsert(table, survivor, MergedMemberships(mine, theirs));
            MembershipsConserved(table, RemoveAll(saved, other, theirs), survivor, other)
  {
    var merged := MergedMemberships(mine, theirs);
    MergedMembershipsMeaning(mine, theirs);
    forall k: (string, string)
      ensures k in Upsert(table, survivor, merged) <==> k in table || (k.0 == survivor && At(merged, k.1))
      ensures k in Upsert(table, survivor, merged) ==>
                Upsert(table, survivor, merged)[k] == if k in table then table[k] else table[(other, k.1)]
    {
      UpsertKeys(table, survivor, merged, k);
      if k.0 == survivor && At(merged, k.1) {
        var m :| m in merged && m.place == k.1;
        UpsertValues(table, survivor, merged, m);
        assert At(theirs, k.1) <==> (other, k.1) in table;
        if m in mine {
          assert At(mine, k.1);
        } else {
          assert m in theirs && At(theirs, k.1);
        }
      }
    }
  }

  lemma ClassesAreConserved(relation: set<(string, string)>, survivor: string, other: string, mine: seq<string>,
                            theirs: seq<string>)
    requires survivor != other
    requires LoadedClasses(relation, survivor, mine) && LoadedClasses(relation, other, theirs)
    ensures var saved := ReplaceRows(relation, survivor, MergedClasses(mine, theirs));
            ClassesConserved(relation, ReplaceRows(saved, other, []), survivor, other)
  {
    MergedClassesMeaning(mine, theirs);
  }

  predicate HasRelations(p: Profile) {
    p.memberships != [] || p.schoolMemberships != [] || p.studying != [] || p.teaching != []
  }

  // The stored field of a detail: the other's if it is set, where a relation is saved, else its own.
  ghost predicate DetailMerged(stored: string, mine: string, theirs: string, saved: bool) {
    stored == if saved && theirs != "" then theirs else mine
  }

  ghost predicate DetailsMerged(stored: Details, mine: Details, theirs: Details, saved: bool) {
    && DetailMerged(stored.gender, mine.gender, theirs.gender, saved)
    && DetailMerged(stored.username, mine.username, theirs.username, saved)
    && DetailMerged(stored.dateOfBirth, mine.dateOfBirth, theirs.dateOfBirth, saved)
  }

  // What the database holds after other was merged into survivor.
  ghost predicate Conserved(before: Database, after: Database, survivor: Profile, other: Profile) {
    && MembershipsConserved(before.organizationMemberships, after.organizationMemberships, survivor.id, other.id)
    && MembershipsConserved(before.schoolMemberships, after.schoolMemberships, survivor.id, other.id)
    && ClassesConserved(before.studying, after.studying, survivor.id, other.id)
    && ClassesConserved(before.teaching, after.teaching, survivor.id, other.id)
    && after.users.Keys == before.users.Keys - {other.id} && survivor.id in after.users
    && (forall u :: u in after.users && u != survivor.id ==> after.users[u] == before.users[u])
    && DetailsMerged(after.users[survivor.id], survivor.details, other.details,
                     HasRelations(survivor) || HasRelations(other))
  }

  // Own memberships first and as they were, then those of the other at further places, each place once.
  ghost predicate ListMerged(merged: seq<Membership>, mine: seq<Membership>, theirs: seq<Membership>) {
    && mine <= merged && (DistinctPlaces(mine) ==> DistinctPlaces(merged))
    && (forall m :: m in merged ==> m in mine || (m in theirs && !At(mine, m.place)))
    && (forall m :: m in theirs ==> At(merged, m.place))
  }

  ghost predicate ClassListMerged(merged: seq<string>, mine: seq<string>, theirs: seq<string>) {
    && mine <= merged && (NoDuplicates(mine) ==> NoDuplicates(merged))
    && (forall c :: c in merged <==> c in mine || c in theirs)
  }

  // What the survivor holds in memory: both users' relations, and the other's details where set.
  ghost predicate ProfileMerged(merged: Profile, mine: Profile, theirs: Profile) {
    && merged.id == mine.id && DetailsMerged(merged.details, mine.details, theirs.details, true)
    && ListMerged(merged.memberships, mine.memberships, theirs.memberships)
    && ListMerged(merged.schoolMemberships, mine.schoolMemberships, theirs.schoolMemberships)
    && ClassListMerged(merged.studying, mine.studying, theirs.studying)
    && ClassListMerged(merged.teaching, mine.teaching, theirs.teaching)
  }

  lemma ProfileIsMerged(p: Profile, o: Profile)
    ensures ProfileMerged(Merged(p, o), p, o)
  {
    ListIsMerged(p.memberships, o.memberships);
    ListIsMerged(p.schoolMemberships, o.schoolMemberships);
    MergedClassesMeaning(p.studying, o.studying);
    MergedClassesMeaning(p.teaching, o.teaching);
  }

  lemma ListIsMerged(mine: seq<Membership>, theirs: seq<Membership>)
    ensures ListMerged(MergedMemberships(mine, theirs), mine, theirs)
  {
    MergedMembershipsMeaning(mine, theirs);
    forall m | m in theirs ensures At(MergedMemberships(mine, theirs), m.place) {
      assert At(theirs, m.place);
    }
  }

  /** A committed merge of two distinct users conserves every relation of both and touches nobody
      else. Each detail the other user has set is stored exactly when one of the two had a relation to
      save; otherwise the details are lost with the other user. */
  lemma MergeConserves(p: Profile, o: Profile, db: Database)
    requires p.id != o.id && Loaded(db, p) && Loaded(db, o)
    ensures Conserved(db, AttemptMerge(p, o, db, None).db, p, o)
    ensures ProfileMerged(AttemptMerge(p, o, db, None).profile, p, o)
  {
    CommittedAttempt(p, o, db, None);
    SavedRelations(p, o, db);
    MembershipsAreConserved(db.organizationMemberships, p.id, o.id, p.memberships, o.memberships);
    MembershipsAreConserved(db.schoolMemberships, p.id, o.id, p.schoolMemberships, o.schoolMemberships);
    ClassesAreConserved(db.studying, p.id, o.id, p.studying, o.studying);
    ClassesAreConserved(db.teaching, p.id, o.id, p.teaching, o.teaching);
    RelationsMerge(p, o);
    ProfileIsMerged(p, o);
  }

  // A save happens when either user has something for it to save; an attempt commits unless the save
  // it fails at happens.
  ghost predicate Reached(p: Profile, o: Profile, save: Save) {
    match save
    case OfMemberships => p.memberships != [] || o.memberships != []
    case OfSchoolMemberships => p.schoolMemberships != [] || o.schoolMemberships != []
    case OfClassesStudying => p.studying != [] || o.studying != []
    case OfClassesTeaching => p.teaching != [] || o.teaching != []
  }

  ghost predicate Commits(p: Profile, o: Profile, fail: Option<Save>) {
    fail.None? || !Reached(p, o, fail.value)
  }

  lemma TeachingCommits(p: Profile, o: Profile, db: Database, saved: Database, fail: Option<Save>)
    ensures AttemptTeaching(p, o, db, saved, fail).committed <==> fail != Some(OfClassesTeaching) || Commits(p, o, fail)
  {
    NoClassMerged(p.teaching, o.teaching);
  }

  lemma StudyingCommits(p: Profile, o: Profile, db: Database, saved: Database, fail: Option<Save>)
    ensures AttemptStudying(p, o, db, saved, fail).committed
            <==> (fail != Some(OfClassesStudying) && fail != Some(OfClassesTeaching)) || Commits(p, o, fail)
  {
    var q := WithStudying(p, o);
    NoClassMerged(p.studying, o.studying);
    TeachingCommits(q, o, db, if q.studying != [] then SaveUser(saved, q) else saved, fail);
  }

  lemma SchoolsCommit(p: Profile, o: Profile, db: Database, saved: Database, fail: Option<Save>)
    ensures AttemptSchools(p, o, db, saved, fail).committed <==> fail == Some(OfMemberships) || Commits(p, o, fail)
  {
    var q := WithSchools(p, o);
    NothingMerged(p.schoolMemberships, o.schoolMemberships);
    StudyingCommits(q, o, db, if q.schoolMemberships != [] then SaveSchoolMemberships(saved, q) else saved, fail);
  }

  lemma AttemptCommits(p: Profile, o: Profile, db: Database, fail: Option<Save>)
    ensures AttemptMerge(p, o, db, fail).committed <==> Commits(p, o, fail)
  {
    var q := WithMemberships(p, o);
    NothingMerged(p.memberships, o.memberships);
    SchoolsCommit(q, o, db, if q.memberships != [] then SaveMemberships(db, q) else db, fail);
  }

  // What a series of attempts comes to: it commits if one of them does, and then the survivor is
  // merged, in memory and in the database; otherwise the database is as it was.
  ghost predicate Outcome(result: Attempt, p: Profile, o: Profile, db: Database, fails: seq<Option<Save>>) {
    && (result.committed <==> exists i :: 0 <= i < |fails| && Commits(p, o, fails[i]))
    && (result.committed ==> ProfileMerged(result.profile, p, o))
    && (result.committed && p.id != o.id && Loaded(db, p) && Loaded(db, o) ==> Conserved(db, result.db, p, o))
    && (!result.committed ==> result.db == db && PartlyMerged(result.profile, p, o))
  }

  lemma {:induction false} RetryStaysPartlyMerged(q: Profile, p: Profile, o: Profile, db: Database,
                                                  fails: seq<Option<Save>>)
    requires PartlyMerged(q, p, o)
    ensures !Retry(q, o, db, fails).committed ==> PartlyMerged(Retry(q, o, db, fails).profile, p, o)
    decreases |fails|
  {
    if fails != [] {
      AttemptStaysPartlyMerged(q, p, o, db, fails[0]);
      var a := AttemptMerge(q, o, db, fails[0]);
      if !a.committed {
        RetryStaysPartlyMerged(a.profile, p, o, a.db, fails[1..]);
      }
    }
  }

  lemma {:induction false} RetryOutcome(p: Profile, o: Profile, db: Database, fails: seq<Option<Save>>)
    ensures Outcome(Retry(p, o, db, fails), p, o, db, fails)
  {
    RetriesLeaveNoTrace(p, p, o, db, fails);
    RetryStaysPartlyMerged(p, p, o, db, fails);
    forall i | 0 <= i < |fails| ensures AttemptMerge(p, o, db, fails[i]).committed <==> Commits(p, o, fails[i]) {
      AttemptCommits(p, o, db, fails[i]);
    }
    if Retry(p, o, db, fails).committed {
      AttemptCommits(p, o, db, None);
      CommittedAttempt(p, o, db, None);
      ProfileIsMerged(p, o);
      if p.id != o.id && Loaded(db, p) && Loaded(db, o) {
        MergeConserves(p, o, db);
      }
    }
  }

  /** At such users: the gender of a user without relations is lost with the user. */
  lemma DetailsCanBeLost(db: Database)
    requires db.users == map["me" := Details("", "", ""), "other" := Details("female", "", "")]
    requires db == Database(db.users, map[], map[], {}, {})
    ensures var p := Profile("me", Details("", "", ""), [], [], [], []);
            var o := Profile("other", Details("female", "", ""), [], [], [], []);
            var merged := AttemptMerge(p, o, db, None);
            && Loaded(db, p) && Loaded(db, o) && merged.committed && merged.profile.details.gender == "female"
            && merged.db.users == map["me" := Details("", "", "")]
  {
    var p := Profile("me", Details("", "", ""), [], [], [], []);
    var o := Profile("other", Details("female", "", ""), [], [], [], []);
    assert |"me"| != |"other"|;
    MergeConserves(p, o, db);
  }

  // Relations are stored alike whether or not there was anything to save.
  lemma SavedRelations(p: Profile, o: Profile, db: Database)
    requires Loaded(db, p)
    ensures var saved, f := SavedWhole(db, Merged(p, o)), Merged(p, o);
            && saved.organizationMemberships == Upsert(db.organizationMemberships, p.id, f.memberships)
            && saved.schoolMemberships == Upsert(db.schoolMemberships, p.id, f.schoolMemberships)
            && saved.studying == ReplaceRows(db.studying, p.id, f.studying)
            && saved.teaching == ReplaceRows(db.teaching, p.id, f.teaching)
            && saved.users == if HasRelations(f) then db.users[p.id := f.details] else db.users
  {
    var f := Merged(p, o);
    if !HasRelations(f) {
      RelationsMerge(p, o);
      assert forall r :: r in db.studying && r.0 == p.id ==> r.1 in p.studying;
      assert forall r :: r in db.teaching && r.0 == p.id ==> r.1 in p.teaching;
      assert ReplaceRows(db.studying, p.id, []) == db.studying;
      assert ReplaceRows(db.teaching, p.id, []) == db.teaching;
    }
  }

  lemma RelationsMerge(p: Profile, o: Profile)
    ensures HasRelations(Merged(p, o)) <==> HasRelations(p) || HasRelations(o)
  {
    NothingMerged(p.memberships, o.memberships);
    NothingMerged(p.schoolMemberships, o.schoolMemberships);
    NoClassMerged(p.studying, o.studying);
    NoClassMerged(p.teaching, o.teaching);
  }

  lemma NothingMerged(mine: seq<Membership>, theirs: seq<Membership>)
    ensures MergedMemberships(mine, theirs) == [] <==> mine == [] && theirs == []
  {
    MergedMembershipsMeaning(mine, theirs);
    if theirs != [] {
      assert At(theirs, theirs[0].place);
    }
  }

  lemma NoClassMerged(mine: seq<string>, theirs: seq<string>)
    ensures MergedClasses(mine, theirs) == [] <==> mine == [] && theirs == []
  {
    MergedClassesMeaning(mine, theirs);
    if theirs != [] {
      assert theirs[0] in theirs;
    }
  }

  // ----- the entities

  class Store {
    var db: Database

    constructor (db: Database)
      ensures this.db == db
    {
      this.db := db;
    }
  }

  class User {
    const id: string
    var details: Details
    var memberships: seq<Membership>
    var schoolMemberships: seq<Membership>
    var classesStudying: seq<string>
    var classesTeaching: seq<string>

    constructor (p: Profile)
      ensures AsProfile() == p
    {
      id, details, memberships := p.id, p.details, p.memberships;
      schoolMemberships, classesStudying, classesTeaching := p.schoolMemberships, p.studying, p.teaching;
    }

    function AsProfile(): Profile
      reads this
    {
      Profile(id, details, memberships, schoolMemberships, classesStudying, classesTeaching)
    }

    static method MergeMemberships(mine: seq<Membership>, theirs: seq<Membership>) returns (merged: seq<Membership>)
      ensures merged == MergedMemberships(mine, theirs)
    {
      merged := mine;
      for i := 0 to |theirs|
        invariant merged == MergedMemberships(mine, theirs[..i])
      {
        assert theirs[..i + 1][..i] == theirs[..i];
        if !(exists m :: m in merged && m.place == theirs[i].place) {
          merged := merged + [Membership(theirs[i].place, theirs[i].held)];
        }
      }
      assert theirs[..|theirs|] == theirs;
    }

    static method MergeClasses(mine: seq<string>, theirs: seq<string>) returns (merged: seq<string>)
      ensures merged == MergedClasses(mine, theirs)
    {
      merged := mine;
      for i := 0 to |theirs|
        invariant merged == MergedClasses(mine, theirs[..i])
      {
        assert theirs[..i + 1][..i] == theirs[..i];
        if theirs[i] !in merged {
          merged := merged + [theirs[i]];
        }
      }
      assert theirs[..|theirs|] == theirs;
    }

    // One attempt: the fields of this user grow step by step, and the store takes the result of the
    // transaction when no save fails.
    method MergeOnce(other: User, store: Store, fail: Option<Save>) returns (committed: bool)
      requires other != this
      modifies this, store
      ensures Attempt(AsProfile(), store.db, committed)
           == AttemptMerge(old(AsProfile()), old(other.AsProfile()), old(store.db), fail)
    {
      var o := other.AsProfile();
      ghost var p := AsProfile();
      var transaction := store.db;
      if o.details.gender != "" {
        details := details.(gender := o.details.gender);
      }
      if o.details.username != "" {
        details := details.(username := o.details.username);
      }
      if o.details.dateOfBirth != "" {
        details := details.(dateOfBirth := o.details.dateOfBirth);
      }
      memberships := MergeMemberships(memberships, o.memberships);
      assert AsProfile() == WithMemberships(p, o);
      if memberships != [] {
        if fail == Some(OfMemberships) {
          return false;
        }
        transaction := SaveMemberships(transaction, AsProfile());
      }
      committed := MergeSchoolsOnward(other, store, transaction, fail);
    }

    method MergeSchoolsOnward(other: User, store: Store, saved: Database, fail: Option<Save>) returns (committed: bool)
      requires other != this
      modifies this, store
      ensures Attempt(AsProfile(), store.db, committed)
           == AttemptSchools(old(AsProfile()), old(other.AsProfile()), old(store.db), saved, fail)
    {
      var transaction := saved;
      ghost var p, o, db := AsProfile(), other.AsProfile(), store.db;
      schoolMemberships := MergeMemberships(schoolMemberships, other.schoolMemberships);
      assert AsProfile() == WithSchools(p, o);
      if schoolMemberships != [] {
        if fail == Some(OfSchoolMemberships) {
          return false;
        }
        transaction := SaveSchoolMemberships(transaction, AsProfile());
      }
      committed := MergeClassesOnward(other, store, transaction, fail);
    }

    method MergeClassesOnward(other: User, store: Store, saved: Database, fail: Option<Save>) returns (committed: bool)
      requires other != this
      modifies this, store
      ensures Attempt(AsProfile(), store.db, committed)
           == AttemptStudying(old(AsProfile()), old(other.AsProfile()), old(store.db), saved, fail)
    {
      var transaction := saved;
      ghost var p, o := AsProfile(), other.AsProfile();
      classesStudying := MergeClasses(classesStudying, other.classesStudying);
      assert AsProfile() == WithStudying(p, o);
      if classesStudying != [] {
        if fail == Some(OfClassesStudying) {
          return false;
        }
        transaction := SaveUser(transaction, AsProfile());
      }
      ghost var q := AsProfile();
      classesTeaching := MergeClasses(classesTeaching, other.classesTeaching);
      assert AsProfile() == WithTeaching(q, o);
      if classesTeaching != [] {
        if fail == Some(OfClassesTeaching) {
          return false;
        }
        transaction := SaveUser(transaction, AsProfile());
      }
      store.db := RemoveUser(transaction, other.AsProfile());
      committed := true;
    }

    const MAX_ATTEMPTS := 3

    /** Up to three attempts; the store ends as after one attempt without failures, or as it was. */
    method RetryMerge(other: User, store: Store, fails: seq<Option<Save>>) returns (committed: bool)
      requires other != this && |fails| == 3
      modifies this, store
      ensures Outcome(Attempt(AsProfile(), store.db, committed), old(AsProfile()), old(other.AsProfile()),
                      old(store.db), fails)
      ensures committed ==> AttemptMerge(old(AsProfile()), old(other.AsProfile()), old(store.db), None)
                            == Attempt(AsProfile(), store.db, true)
    {
      ghost var p, o, db := AsProfile(), other.AsProfile(), store.db;
      ghost var result := Retry(p, o, db, fails);
      committed := false;
      var n := 0;
      while n < MAX_ATTEMPTS && !committed
        invariant 0 <= n <= MAX_ATTEMPTS
        invariant other.AsProfile() == o
        invariant !committed ==> Retry(AsProfile(), o, store.db, fails[n..]) == result
        invariant committed ==> Attempt(AsProfile(), store.db, true) == result
        decreases MAX_ATTEMPTS - n
      {
        assert fails[n..][1..] == fails[n + 1..];
        committed := MergeOnce(other, store, fails[n]);
        n := n + 1;
      }
      assert Attempt(AsProfile(), store.db, committed) == result;
      RetryOutcome(p, o, db, fails);
      RetriesLeaveNoTrace(p, p, o, db, fails);
    }
  }
}
